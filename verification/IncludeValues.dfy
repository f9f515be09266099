/** Whose value a document merged from includes holds. */
module IncludeValues {
  import opened ConfigMerge
  import opened Declarations
  import opened Includes
  import opened Options
  import opened Sequences
  import opened Toml
  import opened TomlPaths

  /** What a file itself writes at a path. */
  function Written(fs: FileSystem, p: Path, path: seq<string>): Option<Value> {
    match fs.content(p)
    case Malformed => None
    case Parsed(d) => ValueAt(Table(d.root), path)
  }

  function WrittenAt(fs: FileSystem, path: seq<string>): Path -> Option<Value> {
    p => Written(fs, p, path)
  }

  /** A place in the configuration proper, where no file of these has anything but tables on the way. */
  ghost predicate IsPlace(fs: FileSystem, order: seq<Path>, path: seq<string>) {
    && path != [] && path[0] != "include"
    && forall p :: p in order && fs.content(p).Parsed? ==> TablesAbove(Table(fs.content(p).document.root), path)
  }

  lemma IncludeIsElsewhere(fs: FileSystem, p: Path, path: seq<string>)
    requires path != [] && path[0] != "include"
    ensures ValueAt(FileTable(fs, p), path) == Written(fs, p, path)
    ensures (fs.content(p).Parsed? ==> TablesAbove(Table(fs.content(p).document.root), path)) ==>
              TablesAbove(FileTable(fs, p), path)
  {
  }

  lemma PlaceOfParts(fs: FileSystem, a: seq<Path>, b: seq<Path>, path: seq<string>)
    requires IsPlace(fs, a + b, path)
    ensures IsPlace(fs, a, path) && IsPlace(fs, b, path)
  {
    assert forall p :: p in a || p in b ==> p in a + b;
  }

  // Plain values

  /** The value of `after` at a path is that of the last of these files that writes one, or else that of `before`; said
      of plain values, which replace each other. */
  ghost predicate LastWritten(fs: FileSystem, before: Value, order: seq<Path>, after: Value, path: seq<string>) {
    var written, value := Latest(order, WrittenAt(fs, path)), ValueAt(after, path);
    && TablesAbove(after, path)
    && (written.None? ==> value == ValueAt(before, path))
    && (written.Some? ==> value.Some? && (IsPlain(written.value) ==> value == written))
  }

  lemma FileIsWritten(fs: FileSystem, inner: Value, t: Path, order: seq<Path>, path: seq<string>)
    requires IsPlace(fs, [t], path) && LastWritten(fs, EMPTY, order, inner, path)
    ensures LastWritten(fs, EMPTY, order + [t], Merge(inner, FileTable(fs, t)), path)
  {
    assert t in [t];
    IncludeIsElsewhere(fs, t, path);
    MergedAt(inner, FileTable(fs, t), path);
    LatestConcat(order, [t], WrittenAt(fs, path));
    LatestOne(t, WrittenAt(fs, path));
    if Written(fs, t, path).Some? && ValueAt(inner, path).Some? {
      Combined(ValueAt(inner, path).value, Written(fs, t, path).value);
    }
  }

  lemma NestedIsWritten(fs: FileSystem, base: Value, order: seq<Path>, nested: Value, path: seq<string>)
    requires path != [] && TablesAbove(base, path) && LastWritten(fs, EMPTY, order, nested, path)
    ensures LastWritten(fs, base, order, Merge(base, nested), path)
  {
    MergedAt(base, nested, path);
    if ValueAt(nested, path).Some? && ValueAt(base, path).Some? {
      Combined(ValueAt(base, path).value, ValueAt(nested, path).value);
    }
  }

  lemma WrittenAfter(fs: FileSystem, before: Value, a: seq<Path>, middle: Value, b: seq<Path>, after: Value,
                     path: seq<string>)
    requires LastWritten(fs, before, a, middle, path) && LastWritten(fs, middle, b, after, path)
    ensures LastWritten(fs, before, a + b, after, path)
  {
    LatestConcat(a, b, WrittenAt(fs, path));
  }

  lemma {:induction false} VisitWrites(fs: FileSystem, targets: seq<Path>, seen: set<Path>, base: Value,
                                       path: seq<string>)
    requires fs.Valid() && base.Table? && TablesAbove(base, path)
    requires IsPlace(fs, VisitAll(fs, targets, seen, base).order, path)
    ensures LastWritten(fs, base, VisitAll(fs, targets, seen, base).order, VisitAll(fs, targets, seen, base).table,
                        path)
    decreases fs.files - seen, |targets|
  {
    if targets == [] {
    } else {
      var t := targets[0];
      var first := VisitTarget(fs, t, seen, base);
      var rest := VisitAll(fs, targets[1..], first.seen, first.table);
      PlaceOfParts(fs, first.order, rest.order, path);
      VisitOpened(fs, t, seen, base);
      if Opens(fs, t, seen) {
        OpenedWrites(fs, t, seen, base, path);
      }
      VisitWrites(fs, targets[1..], first.seen, first.table, path);
      WrittenAfter(fs, base, first.order, first.table, rest.order, rest.table, path);
    }
  }

  lemma {:induction false} OpenedWrites(fs: FileSystem, t: Path, seen: set<Path>, base: Value, path: seq<string>)
    requires fs.Valid() && base.Table? && TablesAbove(base, path) && Opens(fs, t, seen)
    requires IsPlace(fs, VisitTarget(fs, t, seen, base).order, path)
    ensures LastWritten(fs, base, VisitTarget(fs, t, seen, base).order, VisitTarget(fs, t, seen, base).table, path)
    decreases fs.files - seen, 0
  {
    var inner := VisitAll(fs, Targets(fs, t), seen + {fs.canonical(t)}, EMPTY);
    VisitOpened(fs, t, seen, base);
    PlaceOfParts(fs, inner.order, [t], path);
    VisitWrites(fs, Targets(fs, t), seen + {fs.canonical(t)}, EMPTY, path);
    FileIsWritten(fs, inner.table, t, inner.order, path);
    NestedIsWritten(fs, base, inner.order + [t], Merge(inner.table, FileTable(fs, t)), path);
  }

  lemma WalkWrites(fs: FileSystem, root: Path, path: seq<string>)
    requires fs.Valid() && IsPlace(fs, Walk(fs, root).order, path)
    ensures LastWritten(fs, EMPTY, Walk(fs, root).order, Walk(fs, root).table, path)
  {
    WalkUnfolds(fs, root);
    if fs.content(root).Parsed? {
      var inner := VisitAll(fs, Targets(fs, root), {fs.canonical(root)}, EMPTY);
      PlaceOfParts(fs, inner.order, [root], path);
      VisitWrites(fs, Targets(fs, root), {fs.canonical(root)}, EMPTY, path);
      FileIsWritten(fs, inner.table, root, inner.order, path);
    }
  }

  lemma Inside(e: Entries, key: string, v: Value, path: seq<string>)
    requires key in e && path != []
    ensures ValueAt(Table(e[key := v]), path)
         == if path[0] == key then ValueAt(v, path[1..]) else ValueAt(Table(e), path)
    ensures path[0] == key ==> ValueAt(Table(e), path) == ValueAt(e[key], path[1..])
  {
  }

  lemma RemovalLeaves(e: Entries, names: set<string>, path: seq<string>)
    requires path != [] && path[0] !in names
    ensures ValueAt(Table(e - names), path) == ValueAt(Table(e), path)
  {
  }

  /** A value is missing or plain. */
  predicate NoneOrPlain(v: Option<Value>) {
    v.Some? ==> IsPlain(v.value)
  }

  lemma DropInEffects(effects: Entries, names: set<string>, path: seq<string>)
    requires "pool" in effects && effects["pool"].Table?
    requires path != [] && NoneOrPlain(ValueAt(Table(effects), path))
    requires path[0] == "pool" && |path| > 1 ==> path[1] !in names
    ensures ValueAt(Table(effects["pool" := Table(effects["pool"].entries - names)]), path)
         == ValueAt(Table(effects), path)
  {
    Inside(effects, "pool", Table(effects["pool"].entries - names), path);
    if path[0] == "pool" && |path| > 1 {
      RemovalLeaves(effects["pool"].entries, names, path[1..]);
    }
  }

  /** Dropping pools leaves every plain value outside the dropped ones. */
  lemma DropPoolsLeaves(table: Entries, names: set<string>, path: seq<string>)
    requires path != [] && NoneOrPlain(ValueAt(Table(table), path))
    requires |path| > 2 && path[0] == "effects" && path[1] == "pool" ==> path[2] !in names
    ensures ValueAt(Table(DropPools(table, names)), path) == ValueAt(Table(table), path)
  {
    if "effects" in table && table["effects"].Table? {
      var effects := table["effects"].entries;
      if "pool" in effects && effects["pool"].Table? {
        Inside(table, "effects", Table(effects["pool" := Table(effects["pool"].entries - names)]), path);
        if path[0] == "effects" && |path| > 1 {
          DropInEffects(effects, names, path[1..]);
        }
      }
    }
  }

  /** The last file of the walk that writes anything at this place. */
  ghost predicate WritesLast(fs: FileSystem, order: seq<Path>, i: int, path: seq<string>) {
    && 0 <= i < |order| && Written(fs, order[i], path).Some?
    && forall j :: i < j < |order| ==> Written(fs, order[j], path).None?
  }

  /** The place belongs to a pool that shares its name with a declared preset. */
  ghost predicate InClashingPool(fs: FileSystem, root: Path, path: seq<string>)
    requires fs.Valid()
  {
    && |path| > 2 && path[0] == "effects" && path[1] == "pool"
    && path[2] in Declared(fs, Walk(fs, root).order, PoolTable)
    && path[2] in Declared(fs, Walk(fs, root).order, PresetTable)
  }

  /** A plain value that the last file to write at a place puts there is the one in the merged document, whatever files
      loaded before it said; where no file writes anything there is nothing. */
  lemma LastWrittenValueWins(fs: FileSystem, root: Path, path: seq<string>)
    requires fs.Valid() && IsPlace(fs, Walk(fs, root).order, path) && !InClashingPool(fs, root, path)
    ensures var order := Walk(fs, root).order;
            forall i :: WritesLast(fs, order, i, path) && IsPlain(Written(fs, order[i], path).value) ==>
              ValueAt(Table(Merged(fs, root)), path) == Written(fs, order[i], path)
    ensures var order := Walk(fs, root).order;
            (forall p :: p in order ==> Written(fs, p, path).None?) ==>
              ValueAt(Table(Merged(fs, root)), path).None?
  {
    var order, get := Walk(fs, root).order, WrittenAt(fs, path);
    WalkWrites(fs, root, path);
    forall i | WritesLast(fs, order, i, path) && IsPlain(Written(fs, order[i], path).value)
      ensures ValueAt(Table(Merged(fs, root)), path) == Written(fs, order[i], path)
    {
      LatestIs(order, get, i);
      MergedLeaves(fs, root, path);
    }
    if forall p :: p in order ==> Written(fs, p, path).None? {
      LatestIsNone(order, get);
      MergedLeaves(fs, root, path);
    }
  }

  lemma MergedLeaves(fs: FileSystem, root: Path, path: seq<string>)
    requires fs.Valid() && path != [] && !InClashingPool(fs, root, path)
    requires NoneOrPlain(ValueAt(Walk(fs, root).table, path))
    ensures ValueAt(Table(Merged(fs, root)), path) == ValueAt(Walk(fs, root).table, path)
  {
    var v := Walk(fs, root);
    DeclareHolds([], Declared(fs, v.order, PresetTable));
    DeclareHolds([], Declared(fs, v.order, PoolTable));
    DropPoolsLeaves(v.table.entries, Elements(Declare([], Declared(fs, v.order, PoolTable)))
                                     * Elements(Declare([], Declared(fs, v.order, PresetTable))), path);
  }

  /** In particular what a root writes itself stands. */
  lemma RootHasTheLastWord(fs: FileSystem, root: Path, path: seq<string>)
    requires fs.Valid() && IsPlace(fs, Walk(fs, root).order, path) && !InClashingPool(fs, root, path)
    requires fs.content(root).Parsed? && Written(fs, root, path).Some? && IsPlain(Written(fs, root, path).value)
    ensures ValueAt(Table(Merged(fs, root)), path) == Written(fs, root, path)
  {
    WalkLoadsOnce(fs, root);
    LastWrittenValueWins(fs, root, path);
    assert WritesLast(fs, Walk(fs, root).order, |Walk(fs, root).order| - 1, path);
  }

  // Rule collections

  /** The rules of `after` at a path are those of `before` and then those of these files, one file after the other. */
  ghost predicate RulesInOrder(fs: FileSystem, before: Value, order: seq<Path>, after: Value, path: seq<string>) {
    && TablesAbove(after, path) && IsRules(ValueAt(after, path))
    && RulesIn(ValueAt(after, path)) == RulesIn(ValueAt(before, path)) + Flatten(Map(RulesOf(fs, path), order))
  }

  function RulesOf(fs: FileSystem, path: seq<string>): Path -> seq<Value> {
    p => RulesIn(Written(fs, p, path))
  }

  /** Each of these files has rules there, or nothing. */
  ghost predicate HoldRules(fs: FileSystem, order: seq<Path>, path: seq<string>) {
    IsPlace(fs, order, path) && forall p :: p in order ==> IsRules(Written(fs, p, path))
  }

  lemma RulesOfParts(fs: FileSystem, a: seq<Path>, b: seq<Path>, path: seq<string>)
    requires HoldRules(fs, a + b, path)
    ensures HoldRules(fs, a, path) && HoldRules(fs, b, path)
    ensures Flatten(Map(RulesOf(fs, path), a + b))
         == Flatten(Map(RulesOf(fs, path), a)) + Flatten(Map(RulesOf(fs, path), b))
  {
    PlaceOfParts(fs, a, b, path);
    assert forall p :: p in a || p in b ==> p in a + b;
    MapConcat(RulesOf(fs, path), a, b);
    FlattenConcat(Map(RulesOf(fs, path), a), Map(RulesOf(fs, path), b));
  }

  lemma RulesOfOne(fs: FileSystem, t: Path, path: seq<string>)
    ensures Flatten(Map(RulesOf(fs, path), [t])) == RulesIn(Written(fs, t, path))
  {
    assert Map(RulesOf(fs, path), [t]) == [RulesIn(Written(fs, t, path))];
    FlattenOne(RulesIn(Written(fs, t, path)));
  }

  lemma FileAddsRules(fs: FileSystem, inner: Value, t: Path, order: seq<Path>, path: seq<string>)
    requires HoldRules(fs, order + [t], path) && RulesInOrder(fs, EMPTY, order, inner, path)
    ensures RulesInOrder(fs, EMPTY, order + [t], Merge(inner, FileTable(fs, t)), path)
  {
    RulesOfParts(fs, order, [t], path);
    RulesOfOne(fs, t, path);
    assert t in [t];
    IncludeIsElsewhere(fs, t, path);
    RulesFollow(inner, FileTable(fs, t), path);
    Regroup(RulesIn(ValueAt(EMPTY, path)), Flatten(Map(RulesOf(fs, path), order)), RulesIn(Written(fs, t, path)));
  }

  lemma NestedAddsRules(fs: FileSystem, base: Value, order: seq<Path>, nested: Value, path: seq<string>)
    requires path != [] && TablesAbove(base, path) && IsRules(ValueAt(base, path))
    requires RulesInOrder(fs, EMPTY, order, nested, path)
    ensures RulesInOrder(fs, base, order, Merge(base, nested), path)
  {
    RulesFollow(base, nested, path);
    assert RulesIn(ValueAt(EMPTY, path)) == [];
    assert [] + Flatten(Map(RulesOf(fs, path), order)) == Flatten(Map(RulesOf(fs, path), order));
  }

  lemma RulesAfter(fs: FileSystem, before: Value, a: seq<Path>, middle: Value, b: seq<Path>, after: Value,
                   path: seq<string>)
    requires HoldRules(fs, a + b, path)
    requires RulesInOrder(fs, before, a, middle, path) && RulesInOrder(fs, middle, b, after, path)
    ensures RulesInOrder(fs, before, a + b, after, path)
  {
    RulesOfParts(fs, a, b, path);
    Regroup(RulesIn(ValueAt(before, path)), Flatten(Map(RulesOf(fs, path), a)), Flatten(Map(RulesOf(fs, path), b)));
  }

  lemma {:induction false} VisitAddsRules(fs: FileSystem, targets: seq<Path>, seen: set<Path>, base: Value,
                                          path: seq<string>)
    requires fs.Valid() && base.Table? && TablesAbove(base, path) && IsRules(ValueAt(base, path))
    requires HoldRules(fs, VisitAll(fs, targets, seen, base).order, path)
    ensures RulesInOrder(fs, base, VisitAll(fs, targets, seen, base).order, VisitAll(fs, targets, seen, base).table,
                         path)
    decreases fs.files - seen, |targets|
  {
    if targets == [] {
      assert RulesIn(ValueAt(base, path)) + [] == RulesIn(ValueAt(base, path));
    } else {
      var t := targets[0];
      var first := VisitTarget(fs, t, seen, base);
      var rest := VisitAll(fs, targets[1..], first.seen, first.table);
      RulesOfParts(fs, first.order, rest.order, path);
      VisitOpened(fs, t, seen, base);
      if Opens(fs, t, seen) {
        OpenedAddsRules(fs, t, seen, base, path);
      } else {
        assert RulesIn(ValueAt(base, path)) + [] == RulesIn(ValueAt(base, path));
      }
      VisitAddsRules(fs, targets[1..], first.seen, first.table, path);
      RulesAfter(fs, base, first.order, first.table, rest.order, rest.table, path);
    }
  }

  lemma {:induction false} OpenedAddsRules(fs: FileSystem, t: Path, seen: set<Path>, base: Value, path: seq<string>)
    requires fs.Valid() && base.Table? && TablesAbove(base, path) && IsRules(ValueAt(base, path)) && Opens(fs, t, seen)
    requires HoldRules(fs, VisitTarget(fs, t, seen, base).order, path)
    ensures RulesInOrder(fs, base, VisitTarget(fs, t, seen, base).order, VisitTarget(fs, t, seen, base).table, path)
    decreases fs.files - seen, 0
  {
    var inner := VisitAll(fs, Targets(fs, t), seen + {fs.canonical(t)}, EMPTY);
    VisitOpened(fs, t, seen, base);
    RulesOfParts(fs, inner.order, [t], path);
    VisitAddsRules(fs, Targets(fs, t), seen + {fs.canonical(t)}, EMPTY, path);
    FileAddsRules(fs, inner.table, t, inner.order, path);
    NestedAddsRules(fs, base, inner.order + [t], Merge(inner.table, FileTable(fs, t)), path);
  }

  lemma WalkAddsRules(fs: FileSystem, root: Path, path: seq<string>)
    requires fs.Valid() && HoldRules(fs, Walk(fs, root).order, path)
    ensures RulesIn(ValueAt(Walk(fs, root).table, path)) == Flatten(Map(RulesOf(fs, path), Walk(fs, root).order))
  {
    WalkUnfolds(fs, root);
    if fs.content(root).Parsed? {
      var inner := VisitAll(fs, Targets(fs, root), {fs.canonical(root)}, EMPTY);
      RulesOfParts(fs, inner.order, [root], path);
      VisitAddsRules(fs, Targets(fs, root), {fs.canonical(root)}, EMPTY, path);
      FileAddsRules(fs, inner.table, root, inner.order, path);
    }
  }

  /** Where every loaded file has rules or nothing, the merged document has the rules of all of them, those of a file
      loaded earlier before those of a later one. */
  lemma RulesAddUp(fs: FileSystem, root: Path, path: seq<string>)
    requires fs.Valid() && HoldRules(fs, Walk(fs, root).order, path) && path[0] != "effects"
    ensures RulesIn(ValueAt(Table(Merged(fs, root)), path)) == Flatten(Map(RulesOf(fs, path), Walk(fs, root).order))
  {
    WalkAddsRules(fs, root, path);
  }

  // The directive itself

  lemma {:induction false} VisitDropsIncludes(fs: FileSystem, targets: seq<Path>, seen: set<Path>, base: Value)
    requires fs.Valid() && base.Table? && "include" !in base.entries
    ensures "include" !in VisitAll(fs, targets, seen, base).table.entries
    decreases fs.files - seen, |targets|
  {
    if targets == [] {
    } else {
      var t := targets[0];
      var first := VisitTarget(fs, t, seen, base);
      VisitOpened(fs, t, seen, base);
      if Opens(fs, t, seen) {
        VisitDropsIncludes(fs, Targets(fs, t), seen + {fs.canonical(t)}, EMPTY);
      }
      VisitDropsIncludes(fs, targets[1..], first.seen, first.table);
    }
  }

  /** No include directive is left. */
  lemma NoDirectiveIsLeft(fs: FileSystem, root: Path)
    requires fs.Valid()
    ensures "include" !in Merged(fs, root)
  {
    WalkUnfolds(fs, root);
    if fs.content(root).Parsed? {
      VisitDropsIncludes(fs, Targets(fs, root), {fs.canonical(root)}, EMPTY);
    }
    assert "include"[0] != "effects"[0];
  }
}
