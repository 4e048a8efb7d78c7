/**
 * `rsworktree list`: finds every worktree below the worktrees directory by
 * a breadth-first walk (a directory holding a `.git` entry is a worktree
 * and is not entered), sorts them, and prints them one per line.  The
 * directory tree is a finite value: each entry either could not be read,
 * has an unreadable type, is a file, or is a directory (with or without a
 * `.git` entry, and listable or not).
 */
module List {
  import opened Wrappers
  import opened Text
  import opened Paths
  import opened Order

  /** One entry of a directory listing. */
  datatype Entry =
    | Unreadable                 // the entry itself could not be read
    | UnknownType(name: string)  // its file type could not be read
    | File(name: string)         // anything that is not a directory
    | Dir(name: string, hasGit: bool, listable: bool, children: seq<Entry>)

  /** A directory waiting in the queue: its path relative to the base, whether it can be listed, and its entries. */
  datatype QueueItem = QueueItem(rel: seq<string>, listable: bool, children: seq<Entry>)

  const ENTRY_ERROR := "failed to read directory entry"
  const TYPE_ERROR := "failed to read entry file type"

  // ----- sizes, for termination -----

  function EntrySize(e: Entry): nat
    decreases e, 1
  {
    match e
    case Dir(_, _, _, cs) => 1 + EntriesSize(cs)
    case _ => 1
  }

  function EntriesSize(es: seq<Entry>): nat
    decreases es, 0
  {
    if es == [] then 0 else EntrySize(es[0]) + EntriesSize(es[1..])
  }

  function QueueSize(q: seq<QueueItem>): nat
  {
    if q == [] then 0 else 1 + EntriesSize(q[0].children) + QueueSize(q[1..])
  }

  lemma {:induction false} QueueSizeAppend(a: seq<QueueItem>, b: seq<QueueItem>)
    ensures QueueSize(a + b) == QueueSize(a) + QueueSize(b)
  {
    if a == [] {
      assert a + b == b;
    } else {
      assert (a + b)[0] == a[0];
      assert (a + b)[1..] == a[1..] + b;
      QueueSizeAppend(a[1..], b);
    }
  }

  // ----- the reference definition: what lies below a directory -----

  /** The worktrees below `rel`: git-marked directories reached through unmarked ones, depth first. */
  function CollectEntry(rel: seq<string>, e: Entry): seq<seq<string>>
    decreases e, 1
  {
    match e
    case Dir(n, hasGit, _, cs) => if hasGit then [rel + [n]] else CollectEntries(rel + [n], cs)
    case _ => []
  }

  function CollectEntries(rel: seq<string>, es: seq<Entry>): seq<seq<string>>
    decreases es, 0
  {
    if es == [] then [] else CollectEntry(rel, es[0]) + CollectEntries(rel, es[1..])
  }

  /** Whether the walk meets an error below this entry: an unreadable entry or type, or an unmarked directory it cannot list. */
  predicate EntryError(e: Entry)
    decreases e, 1
  {
    match e
    case Unreadable => true
    case UnknownType(_) => true
    case File(_) => false
    case Dir(_, hasGit, listable, cs) => !hasGit && (!listable || EntriesError(cs))
  }

  predicate EntriesError(es: seq<Entry>)
    decreases es, 0
  {
    es != [] && (EntryError(es[0]) || EntriesError(es[1..]))
  }

  // ----- the breadth-first walk of `find_worktrees` -----

  /** Reading this entry or its type fails. */
  predicate HeadError(e: Entry)
  {
    e.Unreadable? || e.UnknownType?
  }

  /** An entry read or type error among the entries themselves. */
  predicate DirectError(es: seq<Entry>)
  {
    es != [] && (HeadError(es[0]) || DirectError(es[1..]))
  }

  /** The entry as a reported worktree: a git-marked directory. */
  function MarkedOne(rel: seq<string>, e: Entry): seq<seq<string>>
  {
    if e.Dir? && e.hasGit then [rel + [e.name]] else []
  }

  /** The entry as a queued directory: an unmarked directory. */
  function UnmarkedOne(rel: seq<string>, e: Entry): seq<QueueItem>
  {
    if e.Dir? && !e.hasGit then [QueueItem(rel + [e.name], e.listable, e.children)] else []
  }

  /** The git-marked directories among `es`, in order. */
  function Marked(rel: seq<string>, es: seq<Entry>): seq<seq<string>>
  {
    if es == [] then [] else MarkedOne(rel, es[0]) + Marked(rel, es[1..])
  }

  /** The unmarked directories among `es`, in order, as queue items. */
  function Unmarked(rel: seq<string>, es: seq<Entry>): seq<QueueItem>
  {
    if es == [] then [] else UnmarkedOne(rel, es[0]) + Unmarked(rel, es[1..])
  }

  /**
   * One turn of the inner loop: a marked directory is reported, an
   * unmarked one queued, a file skipped; an unreadable entry or type stops
   * the walk.
   */
  function ScanStep(rel: seq<string>, e: Entry, results: seq<seq<string>>, queue: seq<QueueItem>): Result<(seq<seq<string>>, seq<QueueItem>)>
  {
    match e
    case Unreadable => Err(ENTRY_ERROR)
    case UnknownType(_) => Err(TYPE_ERROR)
    case File(_) => Ok((results, queue))
    case Dir(n, hasGit, listable, cs) =>
      if hasGit then Ok((results + [rel + [n]], queue))
      else Ok((results, queue + [QueueItem(rel + [n], listable, cs)]))
  }

  /** The inner loop over one directory's entries. */
  function Scan(rel: seq<string>, es: seq<Entry>, results: seq<seq<string>>, queue: seq<QueueItem>): Result<(seq<seq<string>>, seq<QueueItem>)>
  {
    if es == [] then Ok((results, queue))
    else match ScanStep(rel, es[0], results, queue)
      case Err(e) => Err(e)
      case Ok(next) => Scan(rel, es[1..], next.0, next.1)
  }

  /** One step fails exactly on an unreadable entry or type, and otherwise appends the entry's share. */
  lemma ScanStepResult(rel: seq<string>, e: Entry, results: seq<seq<string>>, queue: seq<QueueItem>)
    ensures var r := ScanStep(rel, e, results, queue);
      && (r.Ok? <==> !HeadError(e))
      && (r.Ok? ==> r.value.0 == results + MarkedOne(rel, e) && r.value.1 == queue + UnmarkedOne(rel, e))
  {
    assert results + [] == results && queue + [] == queue;
  }

  /** A scan fails exactly on a direct error. */
  lemma {:induction false} ScanFails(rel: seq<string>, es: seq<Entry>, results: seq<seq<string>>, queue: seq<QueueItem>)
    ensures Scan(rel, es, results, queue).Ok? <==> !DirectError(es)
  {
    if es != [] {
      ScanStepResult(rel, es[0], results, queue);
      if !HeadError(es[0]) {
        ScanFails(rel, es[1..], results + MarkedOne(rel, es[0]), queue + UnmarkedOne(rel, es[0]));
      }
    }
  }

  /** Past an entry that reads, the scan goes on with that entry's share appended. */
  lemma ScanUnfold(rel: seq<string>, es: seq<Entry>, results: seq<seq<string>>, queue: seq<QueueItem>)
    requires es != [] && !HeadError(es[0])
    ensures Scan(rel, es, results, queue) == Scan(rel, es[1..], results + MarkedOne(rel, es[0]), queue + UnmarkedOne(rel, es[0]))
  {
    ScanStepResult(rel, es[0], results, queue);
  }

  /** A scan without a direct error reports the marked directories and queues the unmarked ones. */
  lemma {:induction false} ScanResult(rel: seq<string>, es: seq<Entry>, results: seq<seq<string>>, queue: seq<QueueItem>)
    requires !DirectError(es)
    ensures var r := Scan(rel, es, results, queue);
      r.Ok? && r.value.0 == results + Marked(rel, es) && r.value.1 == queue + Unmarked(rel, es)
  {
    if es == [] {
      assert results + [] == results && queue + [] == queue;
    } else {
      var results', queue' := results + MarkedOne(rel, es[0]), queue + UnmarkedOne(rel, es[0]);
      ScanUnfold(rel, es, results, queue);
      ScanResult(rel, es[1..], results', queue');
      MarkedRegroup(rel, es, results);
      UnmarkedRegroup(rel, es, queue);
    }
  }

  /** The first entry's reported share followed by the rest's is the whole directory's. */
  lemma MarkedRegroup(rel: seq<string>, es: seq<Entry>, results: seq<seq<string>>)
    requires es != []
    ensures results + MarkedOne(rel, es[0]) + Marked(rel, es[1..]) == results + Marked(rel, es)
  {
    var a, b := MarkedOne(rel, es[0]), Marked(rel, es[1..]);
    assert Marked(rel, es) == a + b;
    AppendAssoc(results, a, b);
  }

  /** The first entry's queued share followed by the rest's is the whole directory's. */
  lemma UnmarkedRegroup(rel: seq<string>, es: seq<Entry>, queue: seq<QueueItem>)
    requires es != []
    ensures queue + UnmarkedOne(rel, es[0]) + Unmarked(rel, es[1..]) == queue + Unmarked(rel, es)
  {
    var a, b := UnmarkedOne(rel, es[0]), Unmarked(rel, es[1..]);
    assert Unmarked(rel, es) == a + b;
    AppendAssoc(queue, a, b);
  }

  lemma AppendAssoc<T>(x: seq<T>, y: seq<T>, z: seq<T>)
    ensures x + y + z == x + (y + z)
  {
  }

  /** The queued directories hold no more entries than the directory that queued them. */
  lemma {:induction false} UnmarkedSize(rel: seq<string>, es: seq<Entry>)
    ensures QueueSize(Unmarked(rel, es)) <= EntriesSize(es)
  {
    if es != [] {
      UnmarkedSize(rel, es[1..]);
      QueueSizeAppend(UnmarkedOne(rel, es[0]), Unmarked(rel, es[1..]));
      if es[0].Dir? && !es[0].hasGit {
        assert UnmarkedOne(rel, es[0])[1..] == [];
      }
    }
  }

  /** The message when a directory cannot be listed. */
  function ReadDirError(base: Path, rel: seq<string>): string
  {
    "failed to read `" + Display(JoinPath(base, Path(false, rel))) + "`"
  }

  /** The outer loop: take the first queued directory, list it and scan its entries, until the queue is empty. */
  function Bfs(base: Path, queue: seq<QueueItem>, results: seq<seq<string>>): Result<seq<seq<string>>>
    decreases QueueSize(queue)
  {
    if queue == [] then Ok(results)
    else
      var item := queue[0];
      if !item.listable then Err(ReadDirError(base, item.rel))
      else
        match Scan(item.rel, item.children, results, queue[1..])
        case Err(e) => Err(e)
        case Ok(next) =>
          ScanFails(item.rel, item.children, results, queue[1..]);
          ScanResult(item.rel, item.children, results, queue[1..]);
          UnmarkedSize(item.rel, item.children);
          QueueSizeAppend(queue[1..], Unmarked(item.rel, item.children));
          Bfs(base, next.1, next.0)
  }

  /** `find_worktrees`: the walk from the base directory, then the results sorted. */
  function FindWorktrees(base: Path, listable: bool, children: seq<Entry>): Result<seq<seq<string>>>
  {
    match Bfs(base, [QueueItem([], listable, children)], [])
    case Err(e) => Err(e)
    case Ok(found) => Ok(SortPaths(found))
  }

  // ----- the walk finds what the reference definition describes -----

  function QueueCollect(q: seq<QueueItem>): multiset<seq<string>>
  {
    if q == [] then multiset{} else multiset(CollectEntries(q[0].rel, q[0].children)) + QueueCollect(q[1..])
  }

  predicate QueueError(q: seq<QueueItem>)
  {
    q != [] && (!q[0].listable || EntriesError(q[0].children) || QueueError(q[1..]))
  }

  lemma {:induction false} QueueAppend(a: seq<QueueItem>, b: seq<QueueItem>)
    ensures QueueCollect(a + b) == QueueCollect(a) + QueueCollect(b)
    ensures QueueError(a + b) <==> QueueError(a) || QueueError(b)
  {
    if a == [] {
      assert a + b == b;
    } else {
      assert (a + b)[0] == a[0];
      assert (a + b)[1..] == a[1..] + b;
      QueueAppend(a[1..], b);
    }
  }

  /** One entry's worktrees are its own share if it is marked, or those below it if it is queued. */
  lemma SplitOne(rel: seq<string>, e: Entry)
    ensures multiset(CollectEntry(rel, e)) == multiset(MarkedOne(rel, e)) + QueueCollect(UnmarkedOne(rel, e))
    ensures EntryError(e) <==> HeadError(e) || QueueError(UnmarkedOne(rel, e))
  {
    if e.Dir? && !e.hasGit {
      assert UnmarkedOne(rel, e)[1..] == [];
    }
  }

  /**
   * Splitting one directory's entries into the marked ones (reported now)
   * and the unmarked ones (queued) loses nothing: together they hold all
   * the worktrees below, and all the errors.
   */
  lemma {:induction false} SplitEntries(rel: seq<string>, es: seq<Entry>)
    ensures multiset(CollectEntries(rel, es)) == multiset(Marked(rel, es)) + QueueCollect(Unmarked(rel, es))
    ensures EntriesError(es) <==> DirectError(es) || QueueError(Unmarked(rel, es))
  {
    if es != [] {
      SplitEntries(rel, es[1..]);
      SplitOne(rel, es[0]);
      QueueAppend(UnmarkedOne(rel, es[0]), Unmarked(rel, es[1..]));
    }
  }

  /**
   * The walk from a queue succeeds exactly when no queued directory has an
   * error below it, and then reports what was already found plus every
   * worktree below the queued directories.
   */
  lemma {:induction false} BfsFindsAll(base: Path, queue: seq<QueueItem>, results: seq<seq<string>>)
    ensures var r := Bfs(base, queue, results);
      && (r.Ok? <==> !QueueError(queue))
      && (r.Ok? ==> multiset(r.value) == multiset(results) + QueueCollect(queue))
    decreases QueueSize(queue)
  {
    if queue != [] && queue[0].listable {
      var item := queue[0];
      ScanFails(item.rel, item.children, results, queue[1..]);
      SplitEntries(item.rel, item.children);
      if !DirectError(item.children) {
        ScanResult(item.rel, item.children, results, queue[1..]);
        UnmarkedSize(item.rel, item.children);
        var results' := results + Marked(item.rel, item.children);
        var queue' := queue[1..] + Unmarked(item.rel, item.children);
        QueueSizeAppend(queue[1..], Unmarked(item.rel, item.children));
        BfsFindsAll(base, queue', results');
        QueueAppend(queue[1..], Unmarked(item.rel, item.children));
      }
    }
  }

  /**
   * `find_worktrees` succeeds exactly when the walk meets no error, and
   * then returns, sorted, exactly the worktrees below the base: every
   * git-marked directory reached through unmarked ones, as a path relative
   * to the base.
   */
  lemma FindWorktreesCorrect(base: Path, listable: bool, children: seq<Entry>)
    ensures var r := FindWorktrees(base, listable, children);
      && (r.Ok? <==> listable && !EntriesError(children))
      && (r.Ok? ==> PathsSorted(r.value) && multiset(r.value) == multiset(CollectEntries([], children)))
  {
    var q := [QueueItem([], listable, children)];
    BfsFindsAll(base, q, []);
    assert q[1..] == [];
  }

  /** `find_worktrees` with its queue and result list, a loop over the queue and one over each directory's entries. */
  method FindWorktreesLoop(base: Path, listable: bool, children: seq<Entry>) returns (r: Result<seq<seq<string>>>)
    ensures r == FindWorktrees(base, listable, children)
  {
    var results: seq<seq<string>> := [];
    var queue := [QueueItem([], listable, children)];
    while queue != []
      invariant Bfs(base, queue, results) == Bfs(base, [QueueItem([], listable, children)], [])
      decreases QueueSize(queue)
    {
      var item := queue[0];
      queue := queue[1..];
      if !item.listable {
        return Err(ReadDirError(base, item.rel));
      }
      ghost var results0, queue0 := results, queue;
      ScanFails(item.rel, item.children, results, queue);
      var es := item.children;
      var j := 0;
      while j < |es|
        invariant 0 <= j <= |es|
        invariant Scan(item.rel, es, results0, queue0) == Scan(item.rel, es[j..], results, queue)
      {
        assert es[j..][1..] == es[j + 1..];
        match es[j] {
          case Unreadable =>
            return Err(ENTRY_ERROR);
          case UnknownType(_) =>
            return Err(TYPE_ERROR);
          case File(_) =>
          case Dir(n, hasGit, l, cs) =>
            if hasGit {
              results := results + [item.rel + [n]];
            } else {
              queue := queue + [QueueItem(item.rel + [n], l, cs)];
            }
        }
        j := j + 1;
      }
      ScanResult(item.rel, es, results0, queue0);
      UnmarkedSize(item.rel, es);
      QueueSizeAppend(queue0, Unmarked(item.rel, es));
    }
    r := Ok(SortPaths(results));
  }

  // ----- format_worktree and the listing -----

  /** `format_worktree`: the path's components joined by '/'. */
  function FormatWorktree(p: Path): string
  {
    FormatComponents(p)
  }

  /** A relative path's text, split at '/', gives its components back. */
  lemma {:induction false} FormatWorktreeRoundTrip(parts: seq<string>)
    requires forall i :: 0 <= i < |parts| ==> IsComponent(parts[i])
    ensures Components(FormatWorktree(Path(false, parts))) == parts
    decreases |parts|
  {
    assert FormatWorktree(Path(false, parts)) == Join(parts, "/");
    if |parts| == 1 {
      SlashFree(parts[0]);
    } else if |parts| > 1 {
      var tail := Join(parts[1..], "/");
      assert Join(parts, "/") == parts[0] + "/" + tail;
      ComponentsAfterFirst(parts[0], tail);
      FormatWorktreeRoundTrip(parts[1..]);
      assert FormatWorktree(Path(false, parts[1..])) == tail;
      assert parts == [parts[0]] + parts[1..];
    }
  }

  /** Splitting "head/tail" at '/' gives the component `head`, then the pieces of `tail`. */
  lemma ComponentsAfterFirst(head: string, tail: string)
    requires IsComponent(head)
    ensures Components(head + "/" + tail) == [head] + Components(tail)
  {
    var s := head + "/" + tail;
    SlashFree(head);
    assert forall k :: 0 <= k < |head| ==> s[k] == head[k];
    assert s[|head|] == '/';
    assert SlashIndex(s, 0) == |head| by {
      SlashIndexAt(s, |head|);
    }
    assert s[..|head|] == head;
    assert s[|head| + 1..] == tail;
  }

  /** A component holds no '/', so splitting it gives it back whole. */
  lemma SlashFree(c: string)
    requires IsComponent(c)
    ensures SlashIndex(c, 0) == |c|
    ensures Components(c) == [c]
  {
    assert forall k :: 0 <= k < |c| ==> c[k] != '/';
    assert c[..|c|] == c;
  }

  /** The first '/' of `s` is at `i` when none comes before it. */
  lemma SlashIndexAt(s: string, i: nat)
    requires i < |s| && s[i] == '/'
    requires forall k :: 0 <= k < i ==> s[k] != '/'
    ensures SlashIndex(s, 0) == i
  {
  }

  /**
   * `ListCommand::execute`: the header line, then "(none)" or one "- "
   * line per worktree in order.
   */
  function ListLines(dir: Path, found: Result<seq<seq<string>>>): Result<seq<string>>
  {
    match found
    case Err(e) => Err(e)
    case Ok(ws) =>
      var header := "Worktrees under `" + Display(dir) + "`:";
      if ws == [] then Ok([header, "(none)"])
      else Ok([header] + EntryLines(ws))
  }

  function EntryLines(ws: seq<seq<string>>): (r: seq<string>)
    ensures |r| == |ws|
    ensures forall i :: 0 <= i < |ws| ==> r[i] == "- " + FormatWorktree(Path(false, ws[i]))
  {
    if ws == [] then [] else ["- " + FormatWorktree(Path(false, ws[0]))] + EntryLines(ws[1..])
  }

  /** Every worktree is listed once, in the found order, below a single header; an empty list says "(none)". */
  lemma ListLinesShape(dir: Path, found: Result<seq<seq<string>>>)
    ensures var r := ListLines(dir, found);
      && (r.Ok? <==> found.Ok?)
      && (r.Ok? ==> |r.value| == 1 + (if found.value == [] then 1 else |found.value|))
      && (r.Ok? && found.value != [] ==> forall i :: 0 <= i < |found.value| ==> r.value[i + 1] == "- " + FormatWorktree(Path(false, found.value[i])))
  {
  }
}
