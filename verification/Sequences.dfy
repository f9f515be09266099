/** Mapping and flattening of sequences. */
module Sequences {

  function Map<T, R>(f: T -> R, s: seq<T>): (r: seq<R>)
    ensures |r| == |s| && forall i :: 0 <= i < |s| ==> r[i] == f(s[i])
  {
    seq(|s|, i requires 0 <= i < |s| => f(s[i]))
  }

  lemma MapConcat<T, R>(f: T -> R, a: seq<T>, b: seq<T>)
    ensures Map(f, a + b) == Map(f, a) + Map(f, b)
  {
  }

  lemma Regroup<T>(a: seq<T>, b: seq<T>, c: seq<T>)
    ensures a + (b + c) == a + b + c
  {
  }

  function Flatten<T>(s: seq<seq<T>>): seq<T> {
    if s == [] then [] else Flatten(s[..|s| - 1]) + s[|s| - 1]
  }

  lemma {:induction false} FlattenConcat<T>(a: seq<seq<T>>, b: seq<seq<T>>)
    ensures Flatten(a + b) == Flatten(a) + Flatten(b)
  {
    if b == [] {
      assert a + b == a;
    } else {
      var n := |b| - 1;
      FlattenConcat(a, b[..n]);
      assert (a + b)[..|a| + n] == a + b[..n];
      Regroup(Flatten(a), Flatten(b[..n]), b[n]);
    }
  }

  lemma FlattenOne<T>(s: seq<T>)
    ensures Flatten([s]) == s
  {
    assert [s][..0] == [];
  }

  lemma {:induction false} FlattenHolds<T>(s: seq<seq<T>>)
    ensures forall x :: x in Flatten(s) <==> exists names :: names in s && x in names
  {
    if s == [] {
    } else {
      FlattenHolds(s[..|s| - 1]);
      assert s == s[..|s| - 1] + [s[|s| - 1]];
    }
  }

  /** The projections of the elements that pass the filter. */
  function Filtered<T, P>(s: seq<T>, keep: T -> bool, project: T -> P): seq<P> {
    if s == [] then []
    else
      var last := s[|s| - 1];
      Filtered(s[..|s| - 1], keep, project) + if keep(last) then [project(last)] else []
  }

  lemma FilteredSnoc<T, P>(s: seq<T>, n: nat, keep: T -> bool, project: T -> P)
    requires n < |s|
    ensures Filtered(s[..n + 1], keep, project)
         == Filtered(s[..n], keep, project) + if keep(s[n]) then [project(s[n])] else []
  {
    assert s[..n + 1][..n] == s[..n];
  }

  lemma {:induction false} FilteredPrefix<T, P>(s: seq<T>, n: nat, keep: T -> bool, project: T -> P)
    requires n <= |s|
    ensures Filtered(s[..n], keep, project) <= Filtered(s, keep, project)
    decreases |s| - n
  {
    if n == |s| {
      assert s[..n] == s;
    } else {
      FilteredSnoc(s, n, keep, project);
      FilteredPrefix(s, n + 1, keep, project);
    }
  }

  /** Decides whether two lists agree on the projections of the elements that pass the filter, advancing one cursor in
      each list. */
  method SameFiltered<T, P(==)>(before: seq<T>, after: seq<T>, keep: T -> bool, project: T -> P) returns (same: bool)
    ensures same == (Filtered(before, keep, project) == Filtered(after, keep, project))
  {
    var b, a := 0, 0;
    while true
      invariant 0 <= b <= |before| && 0 <= a <= |after|
      invariant Filtered(before[..b], keep, project) == Filtered(after[..a], keep, project)
      decreases |before| - b + |after| - a
    {
      b := SkipUntilKept(before, b, keep, project);
      a := SkipUntilKept(after, a, keep, project);
      assert before[..|before|] == before && after[..|after|] == after;
      if b < |before| {
        FilteredSnoc(before, b, keep, project);
        FilteredPrefix(before, b + 1, keep, project);
      }
      if a < |after| {
        FilteredSnoc(after, a, keep, project);
        FilteredPrefix(after, a + 1, keep, project);
      }
      if b == |before| || a == |after| {
        return b == |before| && a == |after|;
      }
      if project(before[b]) != project(after[a]) {
        ghost var n := |Filtered(before[..b], keep, project)|;
        assert Filtered(before, keep, project)[n] != Filtered(after, keep, project)[n];
        return false;
      }
      b, a := b + 1, a + 1;
    }
  }

  method SkipUntilKept<T, P>(s: seq<T>, from: nat, keep: T -> bool, ghost project: T -> P) returns (next: nat)
    requires from <= |s|
    ensures from <= next <= |s| && (next < |s| ==> keep(s[next]))
    ensures Filtered(s[..next], keep, project) == Filtered(s[..from], keep, project)
  {
    next := from;
    while next < |s| && !keep(s[next])
      invariant from <= next <= |s| && Filtered(s[..next], keep, project) == Filtered(s[..from], keep, project)
    {
      FilteredSnoc(s, next, keep, project);
      next := next + 1;
    }
  }
}
