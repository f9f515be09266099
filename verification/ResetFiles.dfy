/** Files for which expanding includes recursively differs from merging them one after the other. */
module ResetFiles {
  import opened Includes
  import opened Toml

  /** A file that includes `includes` and holds `own` besides. */
  function Holding(includes: seq<Value>, own: Entries): Document {
    var root := own["include" := Table(map["files" := Array(includes)])];
    Document(root, DirectiveOf(root), [], [])
  }

  function Workspaces(rules: seq<Value>): Entries {
    map["workspace" := Array(rules)]
  }

  /** A root `r` that includes `a` and `b`, each with the same rule, where `b` includes `c`, which holds the empty
      list. */
  function ResetBetween(r: Path, a: Path, b: Path, c: Path, rule: Value): FileSystem {
    FileSystem({r, a, b, c},
      p => if p in {r, a, b, c} then RegularFile else NotFound,
      p => if p == r then Parsed(Holding([Text(a), Text(b)], map[]))
           else if p == a then Parsed(Holding([], Workspaces([rule])))
           else if p == b then Parsed(Holding([Text(c)], Workspaces([rule])))
           else if p == c then Parsed(Holding([], Workspaces([])))
           else Malformed,
      p => p,
      (entry, from) => entry)
  }

  /** Four files that an include entry can name. */
  ghost predicate Distinct(r: Path, a: Path, b: Path, c: Path) {
    && r != a && r != b && r != c && a != b && a != c && b != c
    && '\0' !in a && '\0' !in b && '\0' !in c
  }

  /** The empty list belongs to `b`, so it drops nothing; in post-order it comes after `a` and drops the rule of `a`. */
  lemma NestedIsNotFlat(r: Path, a: Path, b: Path, c: Path, rule: Value)
    requires Distinct(r, a, b, c) && rule.Table?
    ensures var fs := ResetBetween(r, a, b, c, rule);
            fs.Valid() && Walk(fs, r).order == [a, c, b, r] && Walk(fs, r).table != Fold(Tables(fs, Walk(fs, r).order))
  {
    var rules, none := Table(Workspaces([rule])), Table(Workspaces([]));
    ResetWalk(r, a, b, c, rule);
    FourFold(rules, none, rules, EMPTY);
    EmptyIsUnit(Merge(rules, Merge(none, rules)));
    EmptyIsUnit(Merge(Merge(rules, none), rules));
    ResetDoesNotAssociate(rule);
  }

  lemma ResetWalk(r: Path, a: Path, b: Path, c: Path, rule: Value)
    requires Distinct(r, a, b, c)
    ensures var fs, rules, none := ResetBetween(r, a, b, c, rule), Table(Workspaces([rule])), Table(Workspaces([]));
            && fs.Valid() && Walk(fs, r).order == [a, c, b, r]
            && Walk(fs, r).table == Merge(Merge(rules, Merge(none, rules)), EMPTY)
            && Tables(fs, [a, c, b, r]) == [rules, none, rules, EMPTY]
  {
    ResetIsValid(r, a, b, c, rule);
    ResetReads(r, a, b, c, rule);
    FourFiles(ResetBetween(r, a, b, c, rule), r, a, b, c);
    FourTables(ResetBetween(r, a, b, c, rule), a, c, b, r);
  }

  lemma FoldSnoc(documents: seq<Value>, d: Value)
    ensures Fold(documents + [d]) == Merge(Fold(documents), d)
  {
    assert (documents + [d])[..|documents|] == documents;
  }

  lemma FourFold(a: Value, c: Value, b: Value, r: Value)
    requires a.Table?
    ensures Fold([a, c, b, r]) == Merge(Merge(Merge(a, c), b), r)
  {
    EmptyIsUnit(a);
    FoldSnoc([], a);
    FoldSnoc([a], c);
    FoldSnoc([a, c], b);
    FoldSnoc([a, c, b], r);
    assert [] + [a] == [a] && [a] + [c] == [a, c] && [a, c] + [b] == [a, c, b] && [a, c, b] + [r] == [a, c, b, r];
  }

  lemma HoldingReads(includes: seq<Value>, own: Entries)
    requires "effects" !in own && "include" !in own
    ensures Holding(includes, own).Valid() && OwnTable(Holding(includes, own)) == Table(own)
    ensures Holding(includes, own).directive
         == Directive(IncludePaths(includes), [], exists v :: v in includes && !IsIncludePath(v))
  {
    assert "effects"[0] != "include"[0];
    assert Holding(includes, own).root - {"include"} == own;
  }

  lemma WorkspacesRead(includes: seq<Value>, rules: seq<Value>)
    ensures var document := Holding(includes, Workspaces(rules));
            document.Valid() && document.directive.files == IncludePaths(includes)
            && document.directive.optionalFiles == [] && OwnTable(document) == Table(Workspaces(rules))
  {
    assert "effects"[0] != "workspace"[0] && "include"[0] != "workspace"[0];
    HoldingReads(includes, Workspaces(rules));
  }

  lemma ResetIsValid(r: Path, a: Path, b: Path, c: Path, rule: Value)
    requires Distinct(r, a, b, c)
    ensures ResetBetween(r, a, b, c, rule).Valid()
  {
    var fs := ResetBetween(r, a, b, c, rule);
    HoldingReads([Text(a), Text(b)], map[]);
    WorkspacesRead([], [rule]);
    WorkspacesRead([Text(c)], [rule]);
    WorkspacesRead([], []);
    forall p ensures fs.ReadsWell(p) {}
  }

  /** Where the four files lead and what they hold. */
  lemma ResetReads(r: Path, a: Path, b: Path, c: Path, rule: Value)
    requires Distinct(r, a, b, c)
    ensures var fs := ResetBetween(r, a, b, c, rule);
            && Targets(fs, r) == [a, b] && FileTable(fs, r) == EMPTY
            && Targets(fs, a) == [] && FileTable(fs, a) == Table(Workspaces([rule]))
            && Targets(fs, b) == [c] && FileTable(fs, b) == Table(Workspaces([rule]))
            && Targets(fs, c) == [] && FileTable(fs, c) == Table(Workspaces([]))
  {
    var fs := ResetBetween(r, a, b, c, rule);
    HoldingReads([Text(a), Text(b)], map[]);
    WorkspacesRead([], [rule]);
    WorkspacesRead([Text(c)], [rule]);
    WorkspacesRead([], []);
  }

  /** `r` includes `a` and `b`, and `b` includes `c`. */
  ghost predicate AreLinked(fs: FileSystem, r: Path, a: Path, b: Path, c: Path) {
    && (forall p :: p in {r, a, b, c} ==>
          fs.status(p).RegularFile? && fs.content(p).Parsed? && fs.canonical(p) == p)
    && Targets(fs, r) == [a, b] && Targets(fs, a) == [] && Targets(fs, b) == [c] && Targets(fs, c) == []
    && r != a && r != b && r != c && a != b && a != c && b != c
  }

  /** What the second include of `r` loads, and how it groups the tables. */
  lemma SecondLoads(fs: FileSystem, r: Path, a: Path, b: Path, c: Path, base: Value)
    requires fs.Valid() && AreLinked(fs, r, a, b, c) && base.Table?
    ensures var second := VisitTarget(fs, b, {r, a}, base);
            && second.order == [c, b] && second.seen == {r, a, b, c}
            && second.table == Merge(base, Merge(FileTable(fs, c), FileTable(fs, b)))
  {
    LeafOpens(fs, c, {r, a} + {b}, EMPTY);
    EmptyIsUnit(FileTable(fs, c));
    VisitOpened(fs, b, {r, a}, base);
    LastTarget(fs, c, {r, a} + {b}, EMPTY);
    assert {r, a} + {b} + {c} == {r, a, b, c};
  }

  lemma BothLoad(fs: FileSystem, r: Path, a: Path, b: Path, c: Path)
    requires fs.Valid() && AreLinked(fs, r, a, b, c)
    ensures var inner := VisitAll(fs, [a, b], {r}, EMPTY);
            && inner.order == [a, c, b]
            && inner.table == Merge(FileTable(fs, a), Merge(FileTable(fs, c), FileTable(fs, b)))
  {
    LeafOpens(fs, a, {r}, EMPTY);
    EmptyIsUnit(FileTable(fs, a));
    assert {r} + {a} == {r, a};
    var first := VisitTarget(fs, a, {r}, EMPTY);
    SecondLoads(fs, r, a, b, c, first.table);
    LastTarget(fs, b, first.seen, first.table);
    assert [a, b][1..] == [b] && [a] + [c, b] == [a, c, b];
  }

  /** What the walk loads, and how it groups the tables. */
  lemma FourFiles(fs: FileSystem, r: Path, a: Path, b: Path, c: Path)
    requires fs.Valid() && AreLinked(fs, r, a, b, c)
    ensures Walk(fs, r).order == [a, c, b, r]
    ensures Walk(fs, r).table
         == Merge(Merge(FileTable(fs, a), Merge(FileTable(fs, c), FileTable(fs, b))), FileTable(fs, r))
  {
    WalkUnfolds(fs, r);
    BothLoad(fs, r, a, b, c);
    assert Targets(fs, r) == [a, b] && {fs.canonical(r)} == {r};
    assert [a, c, b] + [r] == [a, c, b, r];
  }

  lemma FourTables(fs: FileSystem, a: Path, c: Path, b: Path, r: Path)
    ensures Tables(fs, [a, c, b, r]) == [FileTable(fs, a), FileTable(fs, c), FileTable(fs, b), FileTable(fs, r)]
  {
  }

  /** A file without includes, seen for the first time. */
  lemma LeafOpens(fs: FileSystem, t: Path, seen: set<Path>, base: Value)
    requires fs.Valid() && base.Table? && Targets(fs, t) == [] && Opens(fs, t, seen)
    ensures VisitTarget(fs, t, seen, base) == Visit([t], seen + {fs.canonical(t)}, Merge(base, FileTable(fs, t)))
  {
    VisitOpened(fs, t, seen, base);
    EmptyIsUnit(FileTable(fs, t));
    assert [] + [t] == [t];
  }
}
