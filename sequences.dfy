/** Row-set operations the SQL statements of the handlers perform: filtering (`WHERE`),
    ordering by a text column (`ORDER BY`) and picking the newest row
    (`ORDER BY ts DESC LIMIT 1`). */
module Sequences {
  import opened Base

  // ---------------------------------------------------------------------------
  // Ordering of text keys
  // ---------------------------------------------------------------------------

  /** Lexicographic order on strings, character by character (code-point order). */
  predicate Le(a: string, b: string)
    decreases |a|
  {
    a == [] || (b != [] && (a[0] < b[0] || (a[0] == b[0] && Le(a[1..], b[1..]))))
  }

  /** Any two keys are comparable, so `ORDER BY` has a well-defined result. */
  lemma {:induction false} LeTotal(a: string, b: string)
    ensures Le(a, b) || Le(b, a)
    decreases |a|
  {
    if a != [] && b != [] && a[0] == b[0] {
      LeTotal(a[1..], b[1..]);
    }
  }

  /** Adjacent rows are in ascending key order. */
  predicate SortedBy<T>(s: seq<T>, key: T -> string) {
    forall i :: 0 < i < |s| ==> Le(key(s[i - 1]), key(s[i]))
  }

  /** Inserts `x` before the first row whose key is not smaller. */
  function InsertBy<T>(x: T, s: seq<T>, key: T -> string): (r: seq<T>)
    requires SortedBy(s, key)
    ensures SortedBy(r, key)
    ensures multiset(r) == multiset(s) + multiset{x}
    ensures |r| == |s| + 1
    ensures r[0] == x || (s != [] && r[0] == s[0])
    decreases |s|
  {
    if s == [] || Le(key(x), key(s[0])) then
      [x] + s
    else
      LeTotal(key(x), key(s[0]));
      var tail := InsertBy(x, s[1..], key);
      assert s == [s[0]] + s[1..];
      [s[0]] + tail
  }

  /** The rows of `s` ordered by `key`, as `ORDER BY key` returns them. */
  function SortBy<T>(s: seq<T>, key: T -> string): (r: seq<T>)
    ensures SortedBy(r, key)
    ensures multiset(r) == multiset(s)
    ensures |r| == |s|
    decreases |s|
  {
    if s == [] then []
    else
      assert s == s[..|s| - 1] + [s[|s| - 1]];
      InsertBy(s[|s| - 1], SortBy(s[..|s| - 1], key), key)
  }

  /** Ordering neither adds nor drops a row. */
  lemma SortByMembers<T(!new)>(s: seq<T>, key: T -> string)
    ensures forall x :: x in SortBy(s, key) <==> x in s
  {
    var r := SortBy(s, key);
    forall x
      ensures x in r <==> x in s
    {
      assert x in r <==> x in multiset(r);
      assert x in s <==> x in multiset(s);
    }
  }

  // ---------------------------------------------------------------------------
  // WHERE
  // ---------------------------------------------------------------------------

  /** The rows satisfying `keep`, in their original order. */
  function Where<T(!new)>(s: seq<T>, keep: T -> bool): (r: seq<T>)
    ensures |r| <= |s|
    ensures forall x :: x in r <==> x in s && keep(x)
    decreases |s|
  {
    if s == [] then []
    else
      var init := Where(s[..|s| - 1], keep);
      assert s == s[..|s| - 1] + [s[|s| - 1]];
      if keep(s[|s| - 1]) then init + [s[|s| - 1]] else init
  }

  /** Filtering keeps every row that satisfies `keep` with its multiplicity. */
  lemma {:induction false} WhereCount<T(!new)>(s: seq<T>, keep: T -> bool, x: T)
    ensures keep(x) ==> multiset(Where(s, keep))[x] == multiset(s)[x]
    ensures !keep(x) ==> multiset(Where(s, keep))[x] == 0
    decreases |s|
  {
    if s != [] {
      WhereCount(s[..|s| - 1], keep, x);
      assert s == s[..|s| - 1] + [s[|s| - 1]];
    }
  }

  /** Every row that passes keeps its multiplicity. */
  lemma WhereKeepsCounts<T(!new)>(s: seq<T>, keep: T -> bool)
    ensures forall x :: keep(x) ==> multiset(Where(s, keep))[x] == multiset(s)[x]
  {
    forall x | keep(x)
      ensures multiset(Where(s, keep))[x] == multiset(s)[x]
    {
      WhereCount(s, keep, x);
    }
  }

  /** Nothing passes, nothing is returned. */
  lemma {:induction false} WhereNone<T(!new)>(s: seq<T>, keep: T -> bool)
    requires forall x :: x in s ==> !keep(x)
    ensures Where(s, keep) == []
    decreases |s|
  {
    if s != [] {
      WhereNone(s[..|s| - 1], keep);
    }
  }

  /** Filtering twice with the same condition changes nothing the second time. */
  lemma {:induction false} WhereIdempotent<T(!new)>(s: seq<T>, keep: T -> bool)
    ensures Where(Where(s, keep), keep) == Where(s, keep)
    decreases |s|
  {
    if s != [] {
      var init := s[..|s| - 1];
      WhereIdempotent(init, keep);
      WhereAllKept(Where(s, keep), keep);
    }
  }

  /** Filtering a sequence whose every row passes is the identity. */
  lemma {:induction false} WhereAllKept<T(!new)>(s: seq<T>, keep: T -> bool)
    requires forall x :: x in s ==> keep(x)
    ensures Where(s, keep) == s
    decreases |s|
  {
    if s != [] {
      var init := s[..|s| - 1];
      forall x | x in init
        ensures keep(x)
      {
        var k :| 0 <= k < |init| && init[k] == x;
        assert s[k] == x;
      }
      WhereAllKept(init, keep);
    }
  }

  // ---------------------------------------------------------------------------
  // ORDER BY stamp DESC LIMIT 1
  // ---------------------------------------------------------------------------

  /** The index of a wanted row with the greatest stamp (among equal stamps, the later row),
      or `None` when no row is wanted. */
  function LatestIndex<T>(s: seq<T>, wanted: T -> bool, stamp: T -> int): (r: Option<nat>)
    ensures r.None? <==> forall j :: 0 <= j < |s| ==> !wanted(s[j])
    ensures r.Some? ==> r.value < |s| && wanted(s[r.value])
    ensures r.Some? ==> forall j :: 0 <= j < |s| && wanted(s[j]) ==> stamp(s[j]) <= stamp(s[r.value])
    decreases |s|
  {
    if s == [] then None
    else
      var prev := LatestIndex(s[..|s| - 1], wanted, stamp);
      var last := |s| - 1;
      if !wanted(s[last]) then prev
      else if prev.None? || stamp(s[prev.value]) <= stamp(s[last]) then Some(last)
      else prev
  }

  // ---------------------------------------------------------------------------
  // Keeping the present results
  // ---------------------------------------------------------------------------

  /** The values of the `Some` entries, in order (`[x for x in xs if x]`). */
  function Somes<T(!new)>(s: seq<Option<T>>): (r: seq<T>)
    ensures |r| <= |s|
    ensures forall x :: x in r <==> Some(x) in s
    decreases |s|
  {
    if s == [] then []
    else
      var init := Somes(s[..|s| - 1]);
      assert s == s[..|s| - 1] + [s[|s| - 1]];
      if s[|s| - 1].Some? then init + [s[|s| - 1].value] else init
  }

  /** One more entry adds its value, when present, at the end. */
  lemma SomesStep<T(!new)>(s: seq<Option<T>>, i: nat)
    requires i < |s|
    ensures Somes(s[..i + 1]) == Somes(s[..i]) + (if s[i].Some? then [s[i].value] else [])
  {
    assert s[..i + 1][..i] == s[..i];
  }

  /** When every entry is present, nothing is dropped and the order is kept. */
  lemma {:induction false} SomesAllPresent<T(!new)>(s: seq<Option<T>>)
    requires forall i :: 0 <= i < |s| ==> s[i].Some?
    ensures |Somes(s)| == |s|
    ensures forall i :: 0 <= i < |s| ==> Somes(s)[i] == s[i].value
    decreases |s|
  {
    if s != [] {
      SomesAllPresent(s[..|s| - 1]);
    }
  }
}
