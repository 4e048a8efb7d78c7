/**
 * The ordering Rust's `Ord for String` uses (byte-wise on UTF-8, which is
 * code-point order on characters), the ordering of relative paths by
 * component, and the sorts the system applies with them: `sort_by` on
 * a string key, and `sort(); dedup()` (or collecting a
 * `BTreeSet`) on strings.
 */
module Order {

  /** Lexicographic order on strings by code point. */
  predicate StrLess(a: string, b: string)
    decreases |a|
  {
    if a == [] then b != []
    else if b == [] then false
    else if a[0] != b[0] then a[0] < b[0]
    else StrLess(a[1..], b[1..])
  }

  lemma {:induction false} StrLessIrreflexive(a: string)
    ensures !StrLess(a, a)
    decreases |a|
  {
    if a != [] {
      StrLessIrreflexive(a[1..]);
    }
  }

  lemma {:induction false} StrLessAsymmetric(a: string, b: string)
    ensures !(StrLess(a, b) && StrLess(b, a))
    decreases |a|
  {
    if a != [] && b != [] && a[0] == b[0] {
      StrLessAsymmetric(a[1..], b[1..]);
    }
  }

  lemma {:induction false} StrLessTransitive(a: string, b: string, c: string)
    requires StrLess(a, b) && StrLess(b, c)
    ensures StrLess(a, c)
    decreases |a|
  {
    if a != [] && a[0] == b[0] && b[0] == c[0] {
      StrLessTransitive(a[1..], b[1..], c[1..]);
    }
  }

  lemma {:induction false} StrLessTotal(a: string, b: string)
    ensures a == b || StrLess(a, b) || StrLess(b, a)
    decreases |a|
  {
    if a != [] && b != [] && a[0] == b[0] {
      StrLessTotal(a[1..], b[1..]);
      assert a == [a[0]] + a[1..];
      assert b == [b[0]] + b[1..];
    }
  }

  /** `a <= b` for strings. */
  predicate StrLe(a: string, b: string)
  {
    !StrLess(b, a)
  }

  lemma StrLeTransitive(a: string, b: string, c: string)
    requires StrLe(a, b) && StrLe(b, c)
    ensures StrLe(a, c)
  {
    StrLessTotal(a, b);
    StrLessTotal(b, c);
    if StrLess(c, a) {
      if StrLess(a, b) {
        StrLessTransitive(c, a, b);
      }
    }
  }

  // ---------------------------------------------------------------------
  // Sort by a string key (`slice::sort_by(|a, b| key(a).cmp(key(b)))`)
  // ---------------------------------------------------------------------

  predicate SortedBy<T>(s: seq<T>, key: T -> string)
  {
    forall i, j :: 0 <= i < j < |s| ==> StrLe(key(s[i]), key(s[j]))
  }

  /**
   * Inserts `x` before the first element whose key is not smaller, which
   * keeps equal keys in their original order when `SortBy` feeds the
   * elements from the back.
   */
  function InsertBy<T>(x: T, s: seq<T>, key: T -> string): (r: seq<T>)
    ensures multiset(r) == multiset(s) + multiset{x}
    ensures |r| == |s| + 1
  {
    if s == [] then [x]
    else if StrLess(key(s[0]), key(x)) then
      assert s == [s[0]] + s[1..];
      [s[0]] + InsertBy(x, s[1..], key)
    else [x] + s
  }

  lemma {:induction false} InsertBySorted<T>(x: T, s: seq<T>, key: T -> string)
    requires SortedBy(s, key)
    ensures SortedBy(InsertBy(x, s, key), key)
    decreases |s|
  {
    var r := InsertBy(x, s, key);
    if s != [] {
      if StrLess(key(s[0]), key(x)) {
        var tail := InsertBy(x, s[1..], key);
        InsertBySorted(x, s[1..], key);
        forall j | 0 <= j < |tail|
          ensures StrLe(key(s[0]), key(tail[j]))
        {
          assert tail[j] in multiset(tail);
          if tail[j] == x {
            StrLessAsymmetric(key(s[0]), key(x));
          } else {
            assert tail[j] in multiset(s[1..]);
            var k :| 0 <= k < |s[1..]| && s[1..][k] == tail[j];
            assert s[k + 1] == tail[j];
          }
        }
        assert r == [s[0]] + tail;
      } else {
        forall j | 0 <= j < |s|
          ensures StrLe(key(x), key(s[j]))
        {
          StrLessIrreflexive(key(s[0]));
          StrLeTransitive(key(x), key(s[0]), key(s[j]));
        }
        assert r == [x] + s;
      }
    }
  }

  /** `sort_by` on a string key: a sorted permutation of `s`. */
  function SortBy<T>(s: seq<T>, key: T -> string): (r: seq<T>)
    ensures multiset(r) == multiset(s)
    ensures |r| == |s|
    ensures SortedBy(r, key)
  {
    if s == [] then []
    else
      var tail := SortBy(s[1..], key);
      InsertBySorted(s[0], tail, key);
      assert s == [s[0]] + s[1..];
      InsertBy(s[0], tail, key)
  }

  // ---------------------------------------------------------------------
  // Sorted sets of strings (`sort(); dedup()` and `BTreeSet<String>`)
  // ---------------------------------------------------------------------

  predicate StrictlySorted(s: seq<string>)
  {
    forall i, j :: 0 <= i < j < |s| ==> StrLess(s[i], s[j])
  }

  /** Inserts `x` into a strictly sorted sequence unless it is already there. */
  function InsertUnique(x: string, s: seq<string>): (r: seq<string>)
    ensures forall y :: y in r <==> y in s || y == x
  {
    if s == [] then [x]
    else if x == s[0] then s
    else if StrLess(s[0], x) then [s[0]] + InsertUnique(x, s[1..])
    else [x] + s
  }

  lemma {:induction false} InsertUniqueSorted(x: string, s: seq<string>)
    requires StrictlySorted(s)
    ensures StrictlySorted(InsertUnique(x, s))
    decreases |s|
  {
    if s != [] && x != s[0] {
      if StrLess(s[0], x) {
        InsertUniqueSorted(x, s[1..]);
        var tail := InsertUnique(x, s[1..]);
        forall j | 0 <= j < |tail|
          ensures StrLess(s[0], tail[j])
        {
          assert tail[j] in tail;
          if tail[j] != x {
            var k :| 0 <= k < |s[1..]| && s[1..][k] == tail[j];
            assert s[k + 1] == tail[j];
          }
        }
        assert InsertUnique(x, s) == [s[0]] + tail;
      } else {
        StrLessTotal(x, s[0]);
        forall j | 0 <= j < |s|
          ensures StrLess(x, s[j])
        {
          if j > 0 {
            StrLessTransitive(x, s[0], s[j]);
          }
        }
        assert InsertUnique(x, s) == [x] + s;
      }
    }
  }

  /** `v.sort(); v.dedup()`: the strictly sorted sequence of the elements of `s`. */
  function SortDedup(s: seq<string>): (r: seq<string>)
    ensures StrictlySorted(r)
    ensures forall y :: y in r <==> y in s
  {
    if s == [] then []
    else
      var tail := SortDedup(s[1..]);
      InsertUniqueSorted(s[0], tail);
      assert forall y :: y in s <==> y == s[0] || y in s[1..];
      InsertUnique(s[0], tail)
  }

  /** A strictly sorted sequence is determined by the set of its elements. */
  lemma {:induction false} StrictlySortedUnique(a: seq<string>, b: seq<string>)
    requires StrictlySorted(a) && StrictlySorted(b)
    requires forall y :: y in a <==> y in b
    ensures a == b
    decreases |a|
  {
    assert a != [] ==> a[0] in a;
    assert b != [] ==> b[0] in b;
    if a != [] && b != [] {
      // Both heads are the least element of the same set.
      assert b[0] in a;
      assert a[0] in b;
      var i :| 0 <= i < |a| && a[i] == b[0];
      var j :| 0 <= j < |b| && b[j] == a[0];
      if i > 0 && j > 0 {
        StrLessAsymmetric(a[0], b[0]);
      }
      assert a[0] == b[0] by {
        if i == 0 {
        } else {
          StrLessIrreflexive(a[0]);
        }
      }
      forall y
        ensures y in a[1..] <==> y in b[1..]
      {
        StrLessIrreflexive(y);
        if y in a[1..] {
          var k :| 0 <= k < |a[1..]| && a[1..][k] == y;
          assert StrLess(a[0], a[k + 1]);
          assert y in a;
          var m :| 0 <= m < |b| && b[m] == y;
          assert b[1..][m - 1] == y;
        }
        if y in b[1..] {
          var k :| 0 <= k < |b[1..]| && b[1..][k] == y;
          assert StrLess(b[0], b[k + 1]);
          assert y in b;
          var m :| 0 <= m < |a| && a[m] == y;
          assert a[1..][m - 1] == y;
        }
      }
      StrictlySortedUnique(a[1..], b[1..]);
      assert a == [a[0]] + a[1..];
      assert b == [b[0]] + b[1..];
    }
  }

  /** Sorting and de-duplicating an already strictly sorted sequence changes nothing. */
  lemma SortDedupIdempotent(s: seq<string>)
    requires StrictlySorted(s)
    ensures SortDedup(s) == s
  {
    StrictlySortedUnique(SortDedup(s), s);
  }

  // ---------------------------------------------------------------------
  // Paths compared component by component (`Ord for Path`)
  // ---------------------------------------------------------------------

  /** Lexicographic order on component lists, each component ordered as a string. */
  predicate PartsLess(a: seq<string>, b: seq<string>)
    decreases |a|
  {
    if a == [] then b != []
    else if b == [] then false
    else if a[0] != b[0] then StrLess(a[0], b[0])
    else PartsLess(a[1..], b[1..])
  }

  lemma {:induction false} PartsLessAsymmetric(a: seq<string>, b: seq<string>)
    ensures !(PartsLess(a, b) && PartsLess(b, a))
    decreases |a|
  {
    if a != [] && b != [] {
      if a[0] == b[0] {
        PartsLessAsymmetric(a[1..], b[1..]);
      } else {
        StrLessAsymmetric(a[0], b[0]);
      }
    }
  }

  lemma {:induction false} PartsLessTransitive(a: seq<string>, b: seq<string>, c: seq<string>)
    requires PartsLess(a, b) && PartsLess(b, c)
    ensures PartsLess(a, c)
    decreases |a|
  {
    if a != [] {
      if a[0] == b[0] && b[0] == c[0] {
        PartsLessTransitive(a[1..], b[1..], c[1..]);
      } else if a[0] == b[0] {
        assert StrLess(b[0], c[0]);
      } else if b[0] == c[0] {
        assert StrLess(a[0], b[0]);
      } else {
        StrLessTransitive(a[0], b[0], c[0]);
        StrLessIrreflexive(a[0]);
      }
    }
  }

  lemma {:induction false} PartsLessTotal(a: seq<string>, b: seq<string>)
    ensures a == b || PartsLess(a, b) || PartsLess(b, a)
    decreases |a|
  {
    if a != [] && b != [] {
      if a[0] == b[0] {
        PartsLessTotal(a[1..], b[1..]);
        assert a == [a[0]] + a[1..];
        assert b == [b[0]] + b[1..];
      } else {
        StrLessTotal(a[0], b[0]);
      }
    }
  }

  predicate PartsLe(a: seq<string>, b: seq<string>)
  {
    !PartsLess(b, a)
  }

  lemma PartsLeTransitive(a: seq<string>, b: seq<string>, c: seq<string>)
    requires PartsLe(a, b) && PartsLe(b, c)
    ensures PartsLe(a, c)
  {
    PartsLessTotal(a, b);
    PartsLessTotal(b, c);
    if PartsLess(c, a) {
      if PartsLess(a, b) {
        PartsLessTransitive(c, a, b);
      }
    }
  }

  predicate PathsSorted(s: seq<seq<string>>)
  {
    forall i, j :: 0 <= i < j < |s| ==> PartsLe(s[i], s[j])
  }

  function InsertPath(x: seq<string>, s: seq<seq<string>>): (r: seq<seq<string>>)
    ensures multiset(r) == multiset(s) + multiset{x}
  {
    if s == [] then [x]
    else if PartsLess(s[0], x) then
      assert s == [s[0]] + s[1..];
      [s[0]] + InsertPath(x, s[1..])
    else [x] + s
  }

  lemma {:induction false} InsertPathSorted(x: seq<string>, s: seq<seq<string>>)
    requires PathsSorted(s)
    ensures PathsSorted(InsertPath(x, s))
    decreases |s|
  {
    if s != [] {
      if PartsLess(s[0], x) {
        InsertPathSorted(x, s[1..]);
        InsertPathBehindHead(x, s);
      } else {
        InsertPathAsHead(x, s);
      }
    }
  }

  /** When `x` goes behind the head, the head stays first and the sorted tail follows it. */
  lemma InsertPathBehindHead(x: seq<string>, s: seq<seq<string>>)
    requires s != [] && PartsLess(s[0], x) && PathsSorted(s)
    requires PathsSorted(InsertPath(x, s[1..]))
    ensures PathsSorted(InsertPath(x, s))
  {
    var tail := InsertPath(x, s[1..]);
    forall j | 0 <= j < |tail|
      ensures PartsLe(s[0], tail[j])
    {
      assert tail[j] in multiset(tail);
      if tail[j] == x {
        PartsLessAsymmetric(s[0], x);
      } else {
        assert tail[j] in multiset(s[1..]);
        var k :| 0 <= k < |s[1..]| && s[1..][k] == tail[j];
        assert s[k + 1] == tail[j];
      }
    }
    assert InsertPath(x, s) == [s[0]] + tail;
  }

  /** When `x` is not after the head, it goes first and is below everything. */
  lemma InsertPathAsHead(x: seq<string>, s: seq<seq<string>>)
    requires s != [] && !PartsLess(s[0], x) && PathsSorted(s)
    ensures PathsSorted(InsertPath(x, s))
  {
    forall j | 0 <= j < |s|
      ensures PartsLe(x, s[j])
    {
      PartsLessAsymmetric(s[0], s[0]);
      PartsLeTransitive(x, s[0], s[j]);
    }
    assert InsertPath(x, s) == [x] + s;
  }

  /** `Vec<PathBuf>::sort()`: a sorted permutation of `s`. */
  function SortPaths(s: seq<seq<string>>): (r: seq<seq<string>>)
    ensures multiset(r) == multiset(s)
    ensures PathsSorted(r)
  {
    if s == [] then []
    else
      var tail := SortPaths(s[1..]);
      InsertPathSorted(s[0], tail);
      assert s == [s[0]] + s[1..];
      InsertPath(s[0], tail)
  }
}
