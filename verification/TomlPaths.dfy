/** What stands at one place of a merged document. */
module TomlPaths {
  import opened Options
  import opened Sequences
  import opened Toml

  /** The value at a path of keys. */
  function ValueAt(v: Value, path: seq<string>): Option<Value>
    decreases |path|
  {
    if path == [] then Some(v)
    else if v.Table? && path[0] in v.entries then ValueAt(v.entries[path[0]], path[1..])
    else None
  }

  /** Whatever stands on the way to the end of a path is a table. */
  predicate TablesAbove(v: Value, path: seq<string>)
    decreases |path|
  {
    path != [] ==> v.Table? && (path[0] in v.entries ==> TablesAbove(v.entries[path[0]], path[1..]))
  }

  /** A text, a number, a boolean or a date. */
  predicate IsPlain(v: Value) {
    v.Text? || v.Atom?
  }

  /** How two values for one place combine: a later plain value, list of plain values or empty list replaces what was
      there, a later rule collection follows an earlier one, and a table replaces all but a table. */
  lemma Combined(earlier: Value, later: Value)
    ensures IsPlain(later) ==> Merge(earlier, later) == later
    ensures IsTableArray(earlier) && IsTableArray(later) ==>
              Merge(earlier, later) == Array(earlier.elements + later.elements)
    ensures later.Array? && !IsTableArray(later) ==> Merge(earlier, later) == later
    ensures later.Array? && !earlier.Array? ==> Merge(earlier, later) == later
    ensures later.Table? && !earlier.Table? ==> Merge(earlier, later) == later
  {
  }

  /** Merging combines what stands at a place on both sides and keeps what stands there on one side. */
  lemma {:induction false} MergedAt(base: Value, overlay: Value, path: seq<string>)
    requires TablesAbove(base, path) && TablesAbove(overlay, path)
    ensures TablesAbove(Merge(base, overlay), path)
    ensures var b, o := ValueAt(base, path), ValueAt(overlay, path);
            ValueAt(Merge(base, overlay), path)
            == if o.None? then b else if b.None? then o else Some(Merge(b.value, o.value))
    decreases |path|
  {
    if path == [] {
    } else if path[0] in base.entries && path[0] in overlay.entries {
      MergedAt(base.entries[path[0]], overlay.entries[path[0]], path[1..]);
    }
  }

  /** The rules of a collection, if there is one. */
  function RulesIn(v: Option<Value>): seq<Value> {
    if v.Some? && v.value.Array? then v.value.elements else []
  }

  /** Nothing, or a collection with at least one rule. */
  predicate IsRules(v: Option<Value>) {
    v.Some? ==> IsTableArray(v.value)
  }

  lemma RulesFollow(base: Value, overlay: Value, path: seq<string>)
    requires TablesAbove(base, path) && TablesAbove(overlay, path)
    requires IsRules(ValueAt(base, path)) && IsRules(ValueAt(overlay, path))
    ensures TablesAbove(Merge(base, overlay), path) && IsRules(ValueAt(Merge(base, overlay), path))
    ensures RulesIn(ValueAt(Merge(base, overlay), path))
         == RulesIn(ValueAt(base, path)) + RulesIn(ValueAt(overlay, path))
  {
    MergedAt(base, overlay, path);
    var b, o := ValueAt(base, path), ValueAt(overlay, path);
    if b.Some? && o.Some? {
      Combined(b.value, o.value);
    } else {
      assert RulesIn(b) + [] == RulesIn(b) && [] + RulesIn(o) == RulesIn(o);
    }
  }

  lemma {:induction false} LatestConcat<R, T>(a: seq<R>, b: seq<R>, get: R -> Option<T>)
    ensures Latest(a + b, get) == Over(Latest(b, get), Latest(a, get))
  {
    if b == [] {
      assert a + b == a;
    } else {
      assert (a + b)[..|a + b| - 1] == a + b[..|b| - 1];
      LatestConcat(a, b[..|b| - 1], get);
    }
  }

  lemma LatestOne<R, T>(item: R, get: R -> Option<T>)
    ensures Latest([item], get) == get(item)
  {
    assert [item][..0] == [];
  }

  lemma {:induction false} LatestIs<R, T>(items: seq<R>, get: R -> Option<T>, i: nat)
    requires i < |items| && get(items[i]).Some? && forall j :: i < j < |items| ==> get(items[j]).None?
    ensures Latest(items, get) == get(items[i])
  {
    if i == |items| - 1 {
    } else {
      LatestIs(items[..|items| - 1], get, i);
    }
  }

  lemma {:induction false} LatestIsNone<R, T>(items: seq<R>, get: R -> Option<T>)
    requires forall item :: item in items ==> get(item).None?
    ensures Latest(items, get).None?
  {
    if items == [] {
    } else {
      LatestIsNone(items[..|items| - 1], get);
    }
  }
}
