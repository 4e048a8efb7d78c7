/**
 * Which editor to start: the `editor` entry of `.rsworktree/preferences.json`
 * when present, otherwise $EDITOR, otherwise $VISUAL.  Reading the file,
 * parsing its JSON and splitting an environment value into words are done
 * by libraries; their results are inputs here.
 */
module Preference {
  import opened Wrappers
  import opened Text
  import opened Paths
  import Repository

  const CONFIG_FILE_NAME := "preferences.json"

  datatype EditorEnvVar = Editor | Visual

  /** `EditorEnvVar::name`: the variable read. */
  function Name(v: EditorEnvVar): (r: string)
    ensures r == "EDITOR" <==> v == Editor
    ensures r == "VISUAL" <==> v == Visual
  {
    match v
    case Editor => "EDITOR"
    case Visual => "VISUAL"
  }

  datatype PreferenceSource = ConfigFile(path: Path) | Environment(variable: EditorEnvVar)

  /** `EditorPreference`: the program, its arguments, and where the choice came from. */
  datatype EditorPreference = EditorPreference(command: string, args: seq<string>, source: PreferenceSource)

  datatype MissingReason =
    | NotConfigured
    | ConfigInvalid(path: Path, error: string)
    | EnvInvalid(variable: EditorEnvVar, error: string)

  /** `EditorPreferenceResolution`. */
  datatype Resolution = Found(preference: EditorPreference) | Missing(reason: MissingReason)

  /** What one source gives: nothing (try the next), a preference, or a reason to stop. */
  datatype Loaded = Skip | Use(preference: EditorPreference) | Invalid(reason: MissingReason)

  /** The `editor` object of the file. */
  datatype FileEditor = FileEditor(command: string, args: seq<string>)

  /** The configuration file as read and parsed. */
  datatype ConfigText = ReadFailed(error: string) | ParseFailed(error: string) | Parsed(editor: Option<FileEditor>)

  const EMPTY_COMMAND_ERROR := "`editor.command` must not be empty"

  /** `load_from_config`. */
  function LoadFromConfig(path: Path, text: ConfigText): Loaded
  {
    match text
    case ReadFailed(e) => Invalid(ConfigInvalid(path, e))
    case ParseFailed(e) => Invalid(ConfigInvalid(path, e))
    case Parsed(None) => Skip
    case Parsed(Some(editor)) =>
      if Trim(editor.command) == [] then Invalid(ConfigInvalid(path, EMPTY_COMMAND_ERROR))
      else Use(EditorPreference(editor.command, editor.args, ConfigFile(path)))
  }

  /** `load_from_config` with its loop copying the arguments one by one. */
  method LoadFromConfigLoop(path: Path, text: ConfigText) returns (r: Loaded)
    ensures r == LoadFromConfig(path, text)
  {
    if text.ReadFailed? || text.ParseFailed? {
      return Invalid(ConfigInvalid(path, text.error));
    }
    if text.editor.None? {
      return Skip;
    }
    var editor := text.editor.value;
    if Trim(editor.command) == [] {
      return Invalid(ConfigInvalid(path, EMPTY_COMMAND_ERROR));
    }
    var args: seq<string> := [];
    for i := 0 to |editor.args|
      invariant args == editor.args[..i]
    {
      args := args + [editor.args[i]];
    }
    assert editor.args[..|editor.args|] == editor.args;
    r := Use(EditorPreference(editor.command, args, ConfigFile(path)));
  }

  /**
   * The file's verdict: no `editor` entry defers to the environment, an
   * unreadable or unparsable file or a blank command stops with
   * `ConfigInvalid` for this path, and otherwise the command and its
   * arguments are used as written.
   */
  lemma ConfigRules(path: Path, text: ConfigText)
    ensures var r := LoadFromConfig(path, text);
      && (r.Skip? <==> text == Parsed(None))
      && (r.Invalid? <==> text.ReadFailed? || text.ParseFailed? || (text.Parsed? && text.editor.Some? && IsBlank(text.editor.value.command)))
      && (r.Invalid? ==> r.reason.ConfigInvalid? && r.reason.path == path)
      && (r.Use? ==> r.preference == EditorPreference(text.editor.value.command, text.editor.value.args, ConfigFile(path)))
  {
    if text.Parsed? && text.editor.Some? {
      TrimEmptyIffBlank(text.editor.value.command);
    }
  }

  /** An environment variable: unset, set to something that is not Unicode, or set to a text. */
  datatype EnvValue = Unset | NotUnicode | Value(text: string)

  const NOT_UNICODE_ERROR := "value contains non-UTF-8 characters"

  /** `load_from_env`: `split` is the shell-style word splitting of the value. */
  function LoadFromEnv(v: EditorEnvVar, value: EnvValue, split: string -> Result<seq<string>>): Loaded
  {
    match value
    case Unset => Skip
    case NotUnicode => Invalid(EnvInvalid(v, NOT_UNICODE_ERROR))
    case Value(text) =>
      if text == [] then Skip
      else
        match split(text)
        case Err(e) => Invalid(EnvInvalid(v, e))
        case Ok(words) =>
          if words == [] then Skip
          else Use(EditorPreference(words[0], words[1..], Environment(v)))
  }

  /**
   * An unset or empty variable, or one with no words, defers to the next
   * source; otherwise the first word is the program and the rest are its
   * arguments, in order.
   */
  lemma EnvRules(v: EditorEnvVar, value: EnvValue, split: string -> Result<seq<string>>)
    ensures var r := LoadFromEnv(v, value, split);
      && (r.Skip? <==> value.Unset? || value == Value([]) || (value.Value? && split(value.text) == Ok([])))
      && (r.Invalid? <==> value.NotUnicode? || (value.Value? && value.text != [] && split(value.text).Err?))
      && (r.Invalid? ==> r.reason.EnvInvalid? && r.reason.variable == v)
      && (r.Use? ==> [r.preference.command] + r.preference.args == split(value.text).value
                     && r.preference.source == Environment(v))
  {
    if value.Value? && value.text != [] && split(value.text).Ok? && split(value.text).value != [] {
      var words := split(value.text).value;
      assert [words[0]] + words[1..] == words;
    }
  }

  /** The environment `resolve_editor_preference` reads. */
  datatype PreferenceEnv = PreferenceEnv(
    configExists: bool,
    config: ConfigText,
    editor: EnvValue,
    visual: EnvValue,
    split: string -> Result<seq<string>>)

  function ConfigPath(root: Path): Path
  {
    JoinPath(Repository.WorktreesDir(root), Path(false, [CONFIG_FILE_NAME]))
  }

  function EnvValueOf(env: PreferenceEnv, v: EditorEnvVar): EnvValue
  {
    match v
    case Editor => env.editor
    case Visual => env.visual
  }

  /** What the configuration file contributes: nothing when it does not exist. */
  function FromConfig(root: Path, env: PreferenceEnv): Loaded
  {
    if env.configExists then LoadFromConfig(ConfigPath(root), env.config) else Skip
  }

  function FromEnv(env: PreferenceEnv, v: EditorEnvVar): Loaded
  {
    LoadFromEnv(v, EnvValueOf(env, v), env.split)
  }

  /** `resolve_editor_preference`: the first source that does not defer decides. */
  function ResolveEditorPreference(root: Path, env: PreferenceEnv): Resolution
  {
    FirstDecision([FromConfig(root, env)] + EnvLoads(env))
  }

  /** The variables, in the order they are tried. */
  const ENV_VARS: seq<EditorEnvVar> := [Editor, Visual]

  function EnvLoads(env: PreferenceEnv): (r: seq<Loaded>)
    ensures |r| == |ENV_VARS|
    ensures forall i :: 0 <= i < |ENV_VARS| ==> r[i] == FromEnv(env, ENV_VARS[i])
  {
    [FromEnv(env, Editor), FromEnv(env, Visual)]
  }

  function FirstDecision(ls: seq<Loaded>): Resolution
  {
    if ls == [] then Missing(NotConfigured)
    else match ls[0]
      case Skip => FirstDecision(ls[1..])
      case Use(p) => Found(p)
      case Invalid(reason) => Missing(reason)
  }

  /** `resolve_editor_preference` with its loop over EDITOR and VISUAL. */
  method ResolveLoop(root: Path, env: PreferenceEnv) returns (r: Resolution)
    ensures r == ResolveEditorPreference(root, env)
  {
    if env.configExists {
      var loaded := LoadFromConfigLoop(ConfigPath(root), env.config);
      if loaded.Use? {
        return Found(loaded.preference);
      }
      if loaded.Invalid? {
        return Missing(loaded.reason);
      }
    }
    assert FromConfig(root, env).Skip?;
    assert ([FromConfig(root, env)] + EnvLoads(env))[1..] == EnvLoads(env)[0..];
    for i := 0 to |ENV_VARS|
      invariant ResolveEditorPreference(root, env) == FirstDecision(EnvLoads(env)[i..])
    {
      var v := ENV_VARS[i];
      var loaded := LoadFromEnv(v, EnvValueOf(env, v), env.split);
      assert EnvLoads(env)[i..][1..] == EnvLoads(env)[i + 1..];
      if loaded.Use? {
        return Found(loaded.preference);
      }
      if loaded.Invalid? {
        return Missing(loaded.reason);
      }
    }
    r := Missing(NotConfigured);
  }

  /**
   * The precedence: the configuration file wins when it exists and names
   * an editor, or stops the search when it is invalid; then EDITOR, which
   * likewise stops the search when it cannot be parsed, then VISUAL; with
   * none of them the preference is `NotConfigured`.
   */
  lemma Precedence(root: Path, env: PreferenceEnv)
    ensures var r := ResolveEditorPreference(root, env);
      var c, e, v := FromConfig(root, env), FromEnv(env, Editor), FromEnv(env, Visual);
      && (r.Found? && r.preference.source.ConfigFile? <==> env.configExists && c.Use?)
      && (r.Found? && r.preference.source == Environment(Editor) <==> c.Skip? && e.Use?)
      && (r.Found? && r.preference.source == Environment(Visual) <==> c.Skip? && e.Skip? && v.Use?)
      && (r == Missing(NotConfigured) <==> c.Skip? && e.Skip? && v.Skip?)
      && (c.Invalid? ==> r == Missing(c.reason))
      && (c.Skip? && e.Invalid? ==> r == Missing(e.reason))
  {
    var c, e, v := FromConfig(root, env), FromEnv(env, Editor), FromEnv(env, Visual);
    var ls := [c] + EnvLoads(env);
    assert ls == [c, e, v];
    EnvRules(Editor, env.editor, env.split);
    EnvRules(Visual, env.visual, env.split);
    if env.configExists {
      ConfigRules(ConfigPath(root), env.config);
    }
    if c.Skip? {
      assert FirstDecision(ls) == FirstDecision([e, v]) by { assert ls[1..] == [e, v]; }
      if e.Skip? {
        assert FirstDecision([e, v]) == FirstDecision([v]) by { assert [e, v][1..] == [v]; }
        if v.Skip? {
          assert FirstDecision([v]) == FirstDecision([]) by { assert [v][1..] == []; }
        }
      }
    }
  }
}
