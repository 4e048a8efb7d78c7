/**
 * The editors the project knows by name: the command each is started with
 * and the label it is shown under.
 */
module EditorSupport {
  import opened Text

  datatype SupportedEditor = Vim | Cursor | WebStorm | Rider

  /** `SupportedEditor::ALL`, in the order they are listed to the user. */
  const ALL: seq<SupportedEditor> := [Vim, Cursor, WebStorm, Rider]

  /** `command`: the program name. */
  function Command(e: SupportedEditor): string
  {
    match e
    case Vim => "vim"
    case Cursor => "cursor"
    case WebStorm => "webstorm"
    case Rider => "rider"
  }

  /** `label`: the name shown to the user. */
  function Label(e: SupportedEditor): string
  {
    match e
    case Vim => "Vim"
    case Cursor => "Cursor"
    case WebStorm => "WebStorm"
    case Rider => "Rider"
  }

  /** `matches_command`: the given program name is this editor's. */
  predicate MatchesCommand(e: SupportedEditor, command: string)
  {
    command == Command(e)
  }

  /** `ALL` lists every editor exactly once. */
  lemma AllListsEachOnce(e: SupportedEditor)
    ensures e in ALL
    ensures forall i, j :: 0 <= i < j < |ALL| ==> ALL[i] != ALL[j]
  {
  }

  /** Distinct editors have distinct commands, so a command matches at most one editor, and each editor matches its own. */
  lemma CommandsIdentifyEditors(e: SupportedEditor, f: SupportedEditor, command: string)
    ensures MatchesCommand(e, Command(e))
    ensures MatchesCommand(e, command) && MatchesCommand(f, command) ==> e == f
  {
  }

  /** Each command is its label in lower case. */
  lemma CommandIsLowerLabel(e: SupportedEditor)
    ensures ToLower(Label(e)) == Command(e)
  {
    var l, c := Label(e), Command(e);
    assert |l| == |c|;
    assert forall i :: 0 <= i < |l| ==> LowerChar(l[i]) == c[i];
  }

  /** `supported_editor_commands`: each editor's command and label, in the order of `ALL`. */
  function SupportedEditorCommands(): (r: seq<(string, string)>)
    ensures |r| == |ALL|
    ensures forall i :: 0 <= i < |ALL| ==> r[i] == (Command(ALL[i]), Label(ALL[i]))
  {
    CommandsOf(ALL)
  }

  function CommandsOf(es: seq<SupportedEditor>): (r: seq<(string, string)>)
    ensures |r| == |es|
    ensures forall i :: 0 <= i < |es| ==> r[i] == (Command(es[i]), Label(es[i]))
  {
    if es == [] then [] else [(Command(es[0]), Label(es[0]))] + CommandsOf(es[1..])
  }
}
