/** Lists of names that keep the first declaration of each. */
module Declarations {

  /** `known` extended by the names it does not hold yet. */
  function Declare(known: seq<string>, names: seq<string>): seq<string> {
    if names == [] then known
    else
      var earlier := Declare(known, names[..|names| - 1]);
      var name := names[|names| - 1];
      if name in earlier then earlier else earlier + [name]
  }

  ghost predicate NoDuplicates(names: seq<string>) {
    forall i, j :: 0 <= i < j < |names| ==> names[i] != names[j]
  }

  lemma {:induction false} DeclareConcat(known: seq<string>, a: seq<string>, b: seq<string>)
    ensures Declare(known, a + b) == Declare(Declare(known, a), b)
  {
    if b == [] {
      assert a + b == a;
    } else {
      var n := |b| - 1;
      DeclareConcat(known, a, b[..n]);
      assert (a + b)[..|a| + n] == a + b[..n];
    }
  }

  lemma {:induction false} DeclareHolds(known: seq<string>, names: seq<string>)
    ensures forall x :: x in Declare(known, names) <==> x in known || x in names
    ensures NoDuplicates(known) ==> NoDuplicates(Declare(known, names))
  {
    if names == [] {
    } else {
      var n := |names| - 1;
      DeclareHolds(known, names[..n]);
      assert names == names[..n] + [names[n]];
    }
  }

  /** The position of the first occurrence. */
  ghost function First(names: seq<string>, x: string): (i: nat)
    requires x in names
    ensures i < |names| && names[i] == x && x !in names[..i]
  {
    if names[0] == x then 0
    else
      assert names == [names[0]] + names[1..];
      var i := First(names[1..], x);
      assert names[..i + 1] == [names[0]] + names[1..][..i];
      i + 1
  }

  lemma FirstIsFirst(names: seq<string>, x: string, i: nat)
    requires i < |names| && names[i] == x && x !in names[..i]
    ensures First(names, x) == i
  {
  }

  lemma FirstStays(names: seq<string>, last: string)
    ensures forall x :: x in names ==> First(names + [last], x) == First(names, x)
  {
    forall x | x in names ensures First(names + [last], x) == First(names, x) {
      assert (names + [last])[..First(names, x)] == names[..First(names, x)];
      FirstIsFirst(names + [last], x, First(names, x));
    }
  }

  /** Names are listed in the order of their first declaration. */
  lemma {:induction false} DeclaresInFirstOrder(names: seq<string>)
    ensures var list := Declare([], names);
            && (forall x :: x in list <==> x in names)
            && forall i, j :: 0 <= i < j < |list| ==> First(names, list[i]) < First(names, list[j])
  {
    DeclareHolds([], names);
    if names == [] {
    } else {
      var n := |names| - 1;
      var earlier := names[..n];
      DeclareHolds([], earlier);
      DeclaresInFirstOrder(earlier);
      assert names == earlier + [names[n]];
      FirstStays(earlier, names[n]);
      if names[n] !in earlier {
        FirstIsFirst(names, names[n], n);
      }
    }
  }

  /** The loop that appends one file's declarations. */
  method DeclareLocal(known: seq<string>, names: seq<string>) returns (list: seq<string>)
    ensures list == Declare(known, names)
  {
    list := known;
    for i := 0 to |names|
      invariant list == Declare(known, names[..i])
    {
      assert names[..i + 1][..i] == names[..i];
      if names[i] !in list {
        list := list + [names[i]];
      }
    }
    assert names[..|names|] == names;
  }
}
