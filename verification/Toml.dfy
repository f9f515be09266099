/** The TOML document values a configuration is read from, and the merge of one document into another. */
module Toml {

  /** A parsed node. Numbers, booleans and dates never differ in how they merge, so they share one constructor. */
  datatype Value =
    | Table(entries: Entries)
    | Array(elements: seq<Value>)
    | Text(text: string)
    | Atom(literal: string)

  type Entries = map<string, Value>

  const EMPTY := Table(map[])

  predicate HoldsOnlyTables(elements: seq<Value>) {
    forall i :: 0 <= i < |elements| ==> elements[i].Table?
  }

  /** The shape of a rule collection with at least one rule in it. */
  predicate IsTableArray(v: Value) {
    v.Array? && v.elements != [] && HoldsOnlyTables(v.elements)
  }

  /** What merging `overlay` over `base` means: tables merge key by key, rule collections accumulate, anything else
      replaces what was there. */
  function Merge(base: Value, overlay: Value): Value
    decreases overlay
  {
    match (base, overlay)
    case (Table(b), Table(o)) =>
      Table(map k | k in b.Keys + o.Keys ::
              if k !in o then b[k] else if k !in b then o[k] else Merge(b[k], o[k]))
    case (Array(b), Array(o)) =>
      if o != [] && HoldsOnlyTables(b) && HoldsOnlyTables(o) then Array(b + o) else overlay
    case _ => overlay
  }

  /** `deepMerge`: walks the overlay's keys, in any order, inserting into or replacing in the base. */
  method DeepMerge(base: Entries, overlay: Entries) returns (merged: Entries)
    ensures Table(merged) == Merge(Table(base), Table(overlay))
    decreases Table(overlay)
  {
    merged := base;
    var pending := overlay.Keys;
    while pending != {}
      invariant pending <= overlay.Keys
      invariant merged.Keys == base.Keys + (overlay.Keys - pending)
      invariant forall k :: k in base && k !in overlay.Keys - pending ==> merged[k] == base[k]
      invariant forall k :: k in overlay.Keys - pending ==> merged[k] == Settled(base, k, overlay[k])
      decreases pending
    {
      var key :| key in pending;
      var value := overlay[key];
      if value.Table? && key in merged && merged[key].Table? {
        var nested := DeepMerge(merged[key].entries, value.entries);
        merged := merged[key := Table(nested)];
      } else if value.Array? && value.elements != [] && key in merged && merged[key].Array?
                && HoldsOnlyTables(merged[key].elements) && HoldsOnlyTables(value.elements) {
        merged := merged[key := Array(merged[key].elements + value.elements)];
      } else {
        merged := merged[key := value];
      }
      assert merged[key] == Settled(base, key, value);
      pending := pending - {key};
    }
    MergeByKey(base, overlay, merged);
  }

  /** The value one overlay key leaves behind. */
  ghost function Settled(base: Entries, key: string, value: Value): Value {
    if key in base then Merge(base[key], value) else value
  }

  lemma MergeByKey(base: Entries, overlay: Entries, merged: Entries)
    requires merged.Keys == base.Keys + overlay.Keys
    requires forall k :: k in base && k !in overlay ==> merged[k] == base[k]
    requires forall k :: k in overlay ==> merged[k] == Settled(base, k, overlay[k])
    ensures Table(merged) == Merge(Table(base), Table(overlay))
  {
    assert merged == Merge(Table(base), Table(overlay)).entries;
  }

  // Algebra of the merge

  /** Whether merging `z` over `x` leaves exactly `z`, read off the shapes: every key of `x` is also in `z`, and no rule
      collection in `x` meets one in `z`. */
  predicate Absorbs(z: Value, x: Value)
    decreases z
  {
    if x.Table? && z.Table? then
      forall k :: k in x.entries ==> k in z.entries && Absorbs(z.entries[k], x.entries[k])
    else !(IsTableArray(x) && IsTableArray(z))
  }

  lemma {:induction false} AbsorbsExactly(z: Value, x: Value)
    ensures Merge(x, z) == z <==> Absorbs(z, x)
    decreases z
  {
    if x.Table? && z.Table? {
      forall k | k in x.entries && k in z.entries
        ensures Merge(x.entries[k], z.entries[k]) == z.entries[k] <==> Absorbs(z.entries[k], x.entries[k])
      {
        AbsorbsExactly(z.entries[k], x.entries[k]);
      }
      if Merge(x, z) == z {
        forall k | k in x.entries ensures k in z.entries && Absorbs(z.entries[k], x.entries[k]) {
          assert k in Merge(x, z).entries;
        }
      }
    } else if x.Array? && z.Array? && x.elements != [] {
      assert |x.elements + z.elements| > |z.elements|;
    }
  }

  /** When merging in either order of grouping agrees: no value in the middle resets a table or a rule collection that
      the outer two would otherwise have combined. */
  predicate Associates(x: Value, y: Value, z: Value)
    decreases z
  {
    if x.Table? && z.Table? then
      if y.Table? then
        forall k :: k in x.entries && k in y.entries && k in z.entries ==>
                      Associates(x.entries[k], y.entries[k], z.entries[k])
      else Absorbs(z, x)
    else IsTableArray(x) && IsTableArray(z) ==> IsTableArray(y)
  }

  lemma {:induction false} AssociativeExactly(x: Value, y: Value, z: Value)
    ensures Merge(Merge(x, y), z) == Merge(x, Merge(y, z)) <==> Associates(x, y, z)
    decreases z
  {
    if x.Table? && z.Table? && !y.Table? {
      AbsorbsExactly(z, x);
    } else if x.Table? && y.Table? && z.Table? {
      var l, r := Merge(Merge(x, y), z), Merge(x, Merge(y, z));
      forall k | k in x.entries && k in y.entries && k in z.entries
        ensures l.entries[k] == r.entries[k] <==> Associates(x.entries[k], y.entries[k], z.entries[k])
      {
        AssociativeExactly(x.entries[k], y.entries[k], z.entries[k]);
      }
      assert l.entries.Keys == r.entries.Keys;
      assert forall k :: k in l.entries && !(k in x.entries && k in y.entries && k in z.entries) ==>
          l.entries[k] == r.entries[k];
      if Associates(x, y, z) {
        assert l.entries == r.entries;
      }
    } else if x.Array? && y.Array? && z.Array? {
      assert (x.elements + y.elements) + z.elements == x.elements + (y.elements + z.elements);
    }
  }

  /** Two documents agree on the kind of a value: both tables that agree wherever they share a key, both non-empty rule
      collections, or both something that merging only ever replaces. */
  predicate SameShape(x: Value, y: Value)
    decreases y
  {
    if x.Table? && y.Table? then
      forall k :: k in x.entries && k in y.entries ==> SameShape(x.entries[k], y.entries[k])
    else x.Table? == y.Table? && IsTableArray(x) == IsTableArray(y)
  }

  lemma {:induction false} SameShapeSymmetric(x: Value, y: Value)
    requires SameShape(x, y)
    ensures SameShape(y, x)
    decreases y
  {
    if !x.Table? {
    } else {
      forall k | k in x.entries && k in y.entries ensures SameShape(y.entries[k], x.entries[k]) {
        SameShapeSymmetric(x.entries[k], y.entries[k]);
      }
    }
  }

  lemma {:induction false} SameShapeAssociates(x: Value, y: Value, z: Value)
    requires SameShape(x, y) && SameShape(y, z)
    ensures Associates(x, y, z)
    decreases z
  {
    if !x.Table? || !y.Table? || !z.Table? {
    } else {
      forall k | k in x.entries && k in y.entries && k in z.entries
        ensures Associates(x.entries[k], y.entries[k], z.entries[k])
      {
        SameShapeAssociates(x.entries[k], y.entries[k], z.entries[k]);
      }
    }
  }

  lemma {:induction false} MergeKeepsShape(x: Value, y: Value, z: Value)
    requires SameShape(x, y) && SameShape(x, z) && SameShape(y, z)
    ensures SameShape(Merge(x, y), z)
    decreases z
  {
    if x.Table? && y.Table? && z.Table? {
      forall k | k in x.entries && k in y.entries && k in z.entries
        ensures SameShape(Merge(x.entries[k], y.entries[k]), z.entries[k])
      {
        MergeKeepsShape(x.entries[k], y.entries[k], z.entries[k]);
      }
    } else if IsTableArray(x) && IsTableArray(y) {
      assert Merge(x, y).elements == x.elements + y.elements;
    }
  }

  // One document after another

  /** Documents merged one after the other, each over everything before it. */
  function Fold(documents: seq<Value>): Value {
    if documents == [] then EMPTY
    else Merge(Fold(documents[..|documents| - 1]), documents[|documents| - 1])
  }

  /** Top-level tables that pairwise agree on the kind of every key. */
  predicate Agree(documents: seq<Value>) {
    && (forall i :: 0 <= i < |documents| ==> documents[i].Table?)
    && forall i, j :: 0 <= i < j < |documents| ==> SameShape(documents[i], documents[j])
  }

  lemma AgreeParts(a: seq<Value>, b: seq<Value>)
    requires Agree(a + b)
    ensures Agree(a) && Agree(b)
    ensures forall i, j :: 0 <= i < |a| && 0 <= j < |b| ==> SameShape(a[i], b[j])
  {
    var ab := a + b;
    assert forall i :: 0 <= i < |a| ==> a[i] == ab[i];
    assert forall j :: 0 <= j < |b| ==> b[j] == ab[|a| + j];
  }

  lemma {:induction false} FoldKeepsShape(documents: seq<Value>, d: Value)
    requires Agree(documents) && d.Table?
    requires forall i :: 0 <= i < |documents| ==> SameShape(documents[i], d)
    ensures Fold(documents).Table? && SameShape(Fold(documents), d)
  {
    if documents == [] {
    } else {
      var n := |documents| - 1;
      FoldKeepsShape(documents[..n], documents[n]);
      FoldKeepsShape(documents[..n], d);
      MergeKeepsShape(Fold(documents[..n]), documents[n], d);
    }
  }

  /** Merging two folds is one fold over both runs of documents. */
  lemma {:induction false} FoldConcat(a: seq<Value>, b: seq<Value>)
    requires Agree(a + b)
    ensures Merge(Fold(a), Fold(b)) == Fold(a + b)
    ensures Fold(a + b).Table?
  {
    AgreeParts(a, b);
    FoldKeepsShape(a, EMPTY);
    if b == [] {
      assert a + b == a;
      assert Merge(Fold(a), EMPTY).entries == Fold(a).entries;
    } else {
      var n := |b| - 1;
      assert (a + b)[..|a| + n] == a + b[..n];
      assert b == b[..n] + [b[n]] && a + b == (a + b[..n]) + [b[n]];
      AgreeParts(a + b[..n], [b[n]]);
      AgreeParts(b[..n], [b[n]]);
      FoldConcat(a, b[..n]);
      FoldKeepsShape(a, b[n]);
      FoldKeepsShape(b[..n], b[n]);
      FoldsAgree(a, b[..n]);
      SameShapeAssociates(Fold(a), Fold(b[..n]), b[n]);
      AssociativeExactly(Fold(a), Fold(b[..n]), b[n]);
    }
  }

  lemma FoldsAgree(a: seq<Value>, b: seq<Value>)
    requires Agree(a + b)
    ensures SameShape(Fold(a), Fold(b))
  {
    AgreeParts(a, b);
    FoldKeepsShape(a, EMPTY);
    forall j | 0 <= j < |b| ensures SameShape(b[j], Fold(a)) {
      FoldKeepsShape(a, b[j]);
      SameShapeSymmetric(Fold(a), b[j]);
    }
    FoldKeepsShape(b, Fold(a));
    SameShapeSymmetric(Fold(b), Fold(a));
  }

  /** The empty table is a unit on both sides. */
  lemma EmptyIsUnit(t: Value)
    requires t.Table?
    ensures Merge(EMPTY, t) == t && Merge(t, EMPTY) == t
  {
    assert Merge(EMPTY, t).entries == t.entries;
    assert Merge(t, EMPTY).entries == t.entries;
  }

  /** An empty array between two rule collections drops the first one only when the three are merged left to right. */
  lemma ResetDoesNotAssociate(rule: Value)
    requires rule.Table?
    ensures var rules, none := Table(map["workspace" := Array([rule])]), Table(map["workspace" := Array([])]);
            Merge(Merge(rules, none), rules) == rules && Merge(rules, Merge(none, rules)) != rules
  {
    var rules, none := Table(map["workspace" := Array([rule])]), Table(map["workspace" := Array([])]);
    assert Merge(Array([]), Array([rule])) == Array([rule]);
    assert Merge(Array([rule]), Array([rule])) == Array([rule, rule]);
    assert Merge(none, rules).entries == rules.entries;
    assert Merge(rules, none).entries == none.entries;
    assert Merge(rules, rules).entries["workspace"] == Array([rule, rule]) && [rule, rule] != [rule];
  }

  // Keys of a nested table

  /** The keys of the table at `path`, none when there is no table there. */
  function KeysAt(v: Value, path: seq<string>): set<string>
    decreases |path|
  {
    if !v.Table? then {}
    else if path == [] then v.entries.Keys
    else if path[0] in v.entries then KeysAt(v.entries[path[0]], path[1..])
    else {}
  }

  /** A merged table holds every overlay key and invents none. */
  lemma {:induction false} MergeKeys(base: Value, overlay: Value, path: seq<string>)
    ensures KeysAt(overlay, path) <= KeysAt(Merge(base, overlay), path) <= KeysAt(base, path) + KeysAt(overlay, path)
    decreases |path|
  {
    if path == [] {
    } else if base.Table? && overlay.Table? && path[0] in base.entries && path[0] in overlay.entries {
      MergeKeys(base.entries[path[0]], overlay.entries[path[0]], path[1..]);
    }
  }
}
