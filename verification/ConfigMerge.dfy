/** Loading a configuration: expanding includes into one table while recording files, declarations and failures. */
module ConfigMerge {
  import opened Declarations
  import opened Includes
  import opened Sequences
  import opened Toml

  // What a list of loaded files amounts to

  datatype EffectTable = PresetTable | PoolTable

  function FileDeclares(fs: FileSystem, p: Path, kind: EffectTable): seq<string> {
    match fs.content(p)
    case Malformed => []
    case Parsed(d) => if kind.PresetTable? then d.presets else d.pools
  }

  /** Every declaration of one kind, file after file. */
  ghost function Declared(fs: FileSystem, order: seq<Path>, kind: EffectTable): seq<string> {
    Flatten(Map(p => FileDeclares(fs, p, kind), order))
  }

  lemma DeclaredConcat(fs: FileSystem, a: seq<Path>, b: seq<Path>, kind: EffectTable)
    ensures Declared(fs, a + b, kind) == Declared(fs, a, kind) + Declared(fs, b, kind)
  {
    var f := p => FileDeclares(fs, p, kind);
    MapConcat(f, a, b);
    FlattenConcat(Map(f, a), Map(f, b));
  }

  // What loading finds out besides the tables

  /** Files on record, and whether required includes were missing, optional ones were missing, or anything failed. */
  datatype Findings = Findings(files: set<Path>, required: bool, optional: bool, failed: bool) {
    ghost function And(other: Findings): Findings {
      Findings(files + other.files, required || other.required, optional || other.optional, failed || other.failed)
    }
  }

  const NOTHING := Findings({}, false, false, false)

  ghost predicate Fails(fs: FileSystem, t: Path) {
    fs.status(t).Unusable? || (fs.status(t).RegularFile? && fs.content(t).Malformed?)
  }

  /** What the entries of one include list show. */
  ghost function ListFindings(fs: FileSystem, targets: seq<Path>, optional: bool): Findings {
    Findings(Names(fs, targets),
             !optional && exists t :: t in targets && fs.status(t).NotFound?,
             optional && exists t :: t in targets && fs.status(t).NotFound?,
             exists t :: t in targets && Fails(fs, t))
  }

  ghost function IncludeFindings(fs: FileSystem, p: Path, directive: Directive): Findings {
    ListFindings(fs, Resolved(fs, directive.files, p), false)
      .And(ListFindings(fs, Resolved(fs, directive.optionalFiles, p), true))
  }

  /** What a file adds when it is loaded: its own name, and what its include directive shows. */
  ghost function FileFindings(fs: FileSystem, p: Path): Findings {
    match fs.content(p)
    case Malformed => NOTHING
    case Parsed(d) =>
      Findings({fs.canonical(p)}, false, false, d.directive.malformed).And(IncludeFindings(fs, p, d.directive))
  }

  ghost function Sum(findings: seq<Findings>): Findings {
    if findings == [] then NOTHING else Sum(findings[..|findings| - 1]).And(findings[|findings| - 1])
  }

  lemma {:induction false} SumConcat(a: seq<Findings>, b: seq<Findings>)
    ensures Sum(a + b) == Sum(a).And(Sum(b))
  {
    if b == [] {
      assert a + b == a;
    } else {
      var n := |b| - 1;
      SumConcat(a, b[..n]);
      assert (a + b)[..|a| + n] == a + b[..n];
    }
  }

  lemma {:induction false} SumMeans(findings: seq<Findings>)
    ensures forall f :: f in Sum(findings).files <==> exists x :: x in findings && f in x.files
    ensures Sum(findings).required <==> exists x :: x in findings && x.required
    ensures Sum(findings).optional <==> exists x :: x in findings && x.optional
    ensures Sum(findings).failed <==> exists x :: x in findings && x.failed
  {
    if findings == [] {
    } else {
      var n := |findings| - 1;
      SumMeans(findings[..n]);
      assert findings == findings[..n] + [findings[n]];
    }
  }

  ghost function AllFindings(fs: FileSystem, order: seq<Path>): Findings {
    Sum(Map(p => FileFindings(fs, p), order))
  }

  lemma AllFindingsConcat(fs: FileSystem, a: seq<Path>, b: seq<Path>)
    ensures AllFindings(fs, a + b) == AllFindings(fs, a).And(AllFindings(fs, b))
  {
    var f := p => FileFindings(fs, p);
    MapConcat(f, a, b);
    SumConcat(Map(f, a), Map(f, b));
  }

  lemma ListFindingsConcat(fs: FileSystem, targets: seq<Path>, t: Path, optional: bool)
    ensures ListFindings(fs, targets + [t], optional)
        == ListFindings(fs, targets, optional).And(ListFindings(fs, [t], optional))
  {
    NamesConcat(fs, targets, [t]);
    assert forall p :: p in targets + [t] <==> p in targets || p in [t];
  }

  lemma ListFindingsOne(fs: FileSystem, t: Path, optional: bool)
    ensures ListFindings(fs, [t], optional)
         == Findings({fs.canonical(t)}, !optional && fs.status(t).NotFound?, optional && fs.status(t).NotFound?,
                     Fails(fs, t))
  {
    assert t in [t];
    assert Names(fs, [t]) == {fs.canonical(t)};
  }

  // A merge in progress

  datatype Progress = Progress(seen: set<Path>, presets: seq<string>, pools: seq<string>, findings: Findings) {

    ghost predicate Valid() {
      seen <= findings.files
    }

    function Declares(d: Document): Progress {
      this.(presets := Declare(presets, d.presets), pools := Declare(pools, d.pools))
    }

    /** `after` is this state once the files in `order` were loaded and `found` was noticed besides. */
    ghost predicate LeadsTo(fs: FileSystem, order: seq<Path>, found: Findings, after: Progress) {
      && after.presets == Declare(presets, Declared(fs, order, PresetTable))
      && after.pools == Declare(pools, Declared(fs, order, PoolTable))
      && after.findings == findings.And(AllFindings(fs, order)).And(found)
    }
  }

  lemma LeadsToTwice(fs: FileSystem, s: Progress, a: seq<Path>, f: Findings, t: Progress, b: seq<Path>, g: Findings,
                     u: Progress)
    requires s.LeadsTo(fs, a, f, t) && t.LeadsTo(fs, b, g, u)
    ensures s.LeadsTo(fs, a + b, f.And(g), u)
  {
    AllFindingsConcat(fs, a, b);
    DeclaredConcat(fs, a, b, PresetTable);
    DeclaredConcat(fs, a, b, PoolTable);
    DeclareConcat(s.presets, Declared(fs, a, PresetTable), Declared(fs, b, PresetTable));
    DeclareConcat(s.pools, Declared(fs, a, PoolTable), Declared(fs, b, PoolTable));
  }

  lemma OneFile(fs: FileSystem, p: Path)
    ensures Declared(fs, [p], PresetTable) == FileDeclares(fs, p, PresetTable)
    ensures Declared(fs, [p], PoolTable) == FileDeclares(fs, p, PoolTable)
    ensures AllFindings(fs, [p]) == FileFindings(fs, p)
  {
    FlattenOne(FileDeclares(fs, p, PresetTable));
    FlattenOne(FileDeclares(fs, p, PoolTable));
    SumOne(FileFindings(fs, p));
    assert Map(q => FileDeclares(fs, q, PresetTable), [p]) == [FileDeclares(fs, p, PresetTable)];
    assert Map(q => FileDeclares(fs, q, PoolTable), [p]) == [FileDeclares(fs, p, PoolTable)];
    assert Map(q => FileFindings(fs, q), [p]) == [FileFindings(fs, p)];
  }

  lemma SumOne(f: Findings)
    ensures Sum([f]) == f
  {
    assert [f][..0] == [];
  }

  /** A file's own declarations come after those of its includes. */
  lemma FileLeadsTo(fs: FileSystem, s: Progress, order: seq<Path>, t: Progress, p: Path, u: Progress)
    requires fs.content(p).Parsed?
    requires s.LeadsTo(fs, order, FileFindings(fs, p), t)
    requires u == t.Declares(fs.content(p).document)
    ensures s.LeadsTo(fs, order + [p], NOTHING, u)
  {
    var d := fs.content(p).document;
    OneFile(fs, p);
    AllFindingsConcat(fs, order, [p]);
    DeclaredConcat(fs, order, [p], PresetTable);
    DeclaredConcat(fs, order, [p], PoolTable);
    DeclareConcat(s.presets, Declared(fs, order, PresetTable), d.presets);
    DeclareConcat(s.pools, Declared(fs, order, PoolTable), d.pools);
  }

  // Steps of the expansion

  ghost function Elements(names: seq<string>): set<string> {
    set name | name in names
  }

  /** From `s` to `t` exactly the files of `v` were loaded, and `found` was noticed besides. */
  ghost predicate Expands(fs: FileSystem, v: Visit, found: Findings, s: Progress, t: Progress) {
    t.seen == v.seen && t.Valid() && s.LeadsTo(fs, v.order, found, t)
  }

  lemma ExpandsTwice(fs: FileSystem, s: Progress, v: Visit, f: Findings, t: Progress, w: Visit, g: Findings,
                     u: Progress)
    requires Expands(fs, v, f, s, t) && Expands(fs, w, g, t, u)
    ensures Expands(fs, Visit(v.order + w.order, w.seen, w.table), f.And(g), s, u)
  {
    LeadsToTwice(fs, s, v.order, f, t, w.order, g, u);
  }

  lemma ExpandsNothing(fs: FileSystem, s: Progress, table: Value, found: Findings, t: Progress)
    requires s.Valid() && t == s.(findings := s.findings.And(found))
    ensures Expands(fs, Visit([], s.seen, table), found, s, t)
  {
  }

  /** What an attempt to load a file shows: its name goes on record, and it may not parse. */
  ghost function LoadFindings(fs: FileSystem, path: Path): Findings {
    Findings({fs.canonical(path)}, false, false, fs.content(path).Malformed?)
  }

  /** A file's own part, after its includes were merged. */
  lemma ExpandsFile(fs: FileSystem, p: Path, inner: Visit, s: Progress, s1: Progress, s2: Progress, s3: Progress,
                    table: Value)
    requires fs.content(p).Parsed?
    requires var directive := fs.content(p).document.directive;
             && s1 == s.(seen := s.seen + {fs.canonical(p)},
                         findings := s.findings.And(Findings({fs.canonical(p)}, false, false, directive.malformed)))
             && Expands(fs, inner, IncludeFindings(fs, p, directive), s1, s2)
    requires s3 == s2.Declares(fs.content(p).document)
    ensures Expands(fs, Visit(inner.order + [p], inner.seen, table), LoadFindings(fs, p), s, s3)
  {
    FileLeadsTo(fs, s, inner.order, s2, p, s3);
    AllFindingsConcat(fs, inner.order, [p]);
    OneFile(fs, p);
  }

  lemma {:induction false} VisitAllConcat(fs: FileSystem, a: seq<Path>, b: seq<Path>, seen: set<Path>, base: Value)
    requires fs.Valid() && base.Table?
    ensures var first := VisitAll(fs, a, seen, base);
            var second := VisitAll(fs, b, first.seen, first.table);
            VisitAll(fs, a + b, seen, base) == Visit(first.order + second.order, second.seen, second.table)
    decreases |a|
  {
    if a == [] {
      assert a + b == b;
    } else {
      var head := VisitTarget(fs, a[0], seen, base);
      VisitAllConcat(fs, a[1..], b, head.seen, head.table);
      assert (a + b)[1..] == a[1..] + b;
    }
  }

  lemma VisitAllAndOne(fs: FileSystem, a: seq<Path>, t: Path, seen: set<Path>, base: Value)
    requires fs.Valid() && base.Table?
    ensures var first := VisitAll(fs, a, seen, base);
            var second := VisitTarget(fs, t, first.seen, first.table);
            VisitAll(fs, a + [t], seen, base) == Visit(first.order + second.order, second.seen, second.table)
  {
    var first := VisitAll(fs, a, seen, base);
    var second := VisitTarget(fs, t, first.seen, first.table);
    VisitAllConcat(fs, a, [t], seen, base);
    assert [t][1..] == [] && VisitAll(fs, [], second.seen, second.table) == Visit([], second.seen, second.table);
    assert second.order + [] == second.order;
  }

  /** One list of include paths. Entries that are not usable paths are skipped and reported. */
  method ReadIncludeFiles(owner: Entries, key: string) returns (entries: seq<string>, malformed: bool)
    ensures entries == ListPaths(owner, key)
    ensures malformed == ListMalformed(owner, key)
  {
    entries, malformed := [], false;
    if key !in owner {
      return;
    }
    if !owner[key].Array? {
      return [], true;
    }
    var elements := owner[key].elements;
    for i := 0 to |elements|
      invariant entries == IncludePaths(elements[..i])
      invariant malformed == exists v :: v in elements[..i] && !IsIncludePath(v)
    {
      assert elements[..i + 1] == elements[..i] + [elements[i]];
      assert elements[..i + 1][..i] == elements[..i];
      if IsIncludePath(elements[i]) {
        entries := entries + [elements[i].text];
      } else {
        assert elements[i] in elements[..i + 1];
        malformed := true;
      }
    }
    assert elements[..|elements|] == elements;
  }

  method ReadInclude(root: Entries) returns (directive: Directive)
    ensures directive == DirectiveOf(root)
  {
    if "include" !in root {
      return Directive([], [], false);
    }
    if !root["include"].Table? {
      return Directive([], [], true);
    }
    var table := root["include"].entries;
    var unknown := exists k :: k in table && k != "files" && k != "optional";
    var files, malformed := ReadIncludeFiles(table, "files");
    malformed := malformed || unknown;
    var optionalFiles := [];
    if "optional" in table {
      if !table["optional"].Table? {
        malformed := true;
      } else {
        var optional := table["optional"].entries;
        var unknownOptional := exists k :: k in optional && k != "files";
        var malformedOptional;
        optionalFiles, malformedOptional := ReadIncludeFiles(optional, "files");
        malformed := malformed || unknownOptional || malformedOptional;
      }
    }
    directive := Directive(files, optionalFiles, malformed);
  }

  class Merger {
    const fs: FileSystem
    var visited: set<Path>
    var loadedFiles: seq<Path>
    var presets: seq<string>
    var pools: seq<string>
    var missingIncludes: bool
    var missingOptionalIncludes: bool
    var hadError: bool

    constructor (fs: FileSystem)
      requires fs.Valid()
      ensures Valid() && this.fs == fs
      ensures State() == Progress({}, [], [], NOTHING)
    {
      this.fs := fs;
      visited, loadedFiles, presets, pools := {}, [], [], [];
      missingIncludes, missingOptionalIncludes, hadError := false, false, false;
    }

    ghost function State(): Progress
      reads this
    {
      Progress(visited, presets, pools,
               Findings(Elements(loadedFiles), missingIncludes, missingOptionalIncludes, hadError))
    }

    ghost predicate Valid()
      reads this
    {
      fs.Valid() && State().Valid()
    }

    /** `loadAndExpand`: parses a file and expands its includes. */
    method LoadAndExpand(path: Path) returns (table: Entries)
      requires Valid()
      modifies this
      ensures var v := VisitFile(fs, path, old(visited));
              Table(table) == v.table && Expands(fs, v, LoadFindings(fs, path), old(State()), State())
      decreases fs.files - visited, 0, 1
    {
      match fs.content(path)
      case Malformed =>
        var file := fs.canonical(path);
        if file !in loadedFiles {
          loadedFiles := loadedFiles + [file];
        }
        hadError := true;
        table := map[];
        ExpandsNothing(fs, old(State()), Table(table), LoadFindings(fs, path), State());
      case Parsed(document) =>
        table := ExpandFile(path, document);
    }

    /** `expandFile` */
    method ExpandFile(path: Path, document: Document) returns (table: Entries)
      requires Valid() && fs.content(path) == Parsed(document)
      modifies this
      ensures var v := VisitFile(fs, path, old(visited));
              Table(table) == v.table && Expands(fs, v, LoadFindings(fs, path), old(State()), State())
      decreases fs.files - visited, 0, 0
    {
      var file := fs.canonical(path);
      if file in visited {
        table := map[];
        ExpandsNothing(fs, State(), Table(table), LoadFindings(fs, path), State());
        return;
      }
      visited := visited + {file};
      loadedFiles := loadedFiles + [file];
      assert fs.ReadsWell(path);
      var directive := ReadInclude(document.root);
      hadError := hadError || directive.malformed;
      ghost var s1 := State();
      ghost var inner := VisitAll(fs, Targets(fs, path), visited, EMPTY);
      assert s1.findings == old(State()).findings.And(Findings({file}, false, false, directive.malformed));
      table := ExpandIncludes(path, directive);
      ghost var s2 := State();
      RecordEffectOrigins(document);
      var own := document.root - {"include"};
      if directive.files == [] && directive.optionalFiles == [] {
        table := own;
        EmptyIsUnit(Table(own));
      } else {
        table := DeepMerge(table, own);
      }
      assert Table(table) == Merge(inner.table, FileTable(fs, path));
      ExpandsFile(fs, path, inner, old(State()), s1, s2, State(), Table(table));
    }

    /** The includes of one file, required ones first, merged in order. */
    method ExpandIncludes(path: Path, directive: Directive) returns (table: Entries)
      requires Valid() && fs.content(path).Parsed? && directive == fs.content(path).document.directive
      modifies this
      ensures var v := VisitAll(fs, Targets(fs, path), old(visited), EMPTY);
              Table(table) == v.table && Expands(fs, v, IncludeFindings(fs, path, directive), old(State()), State())
      ensures directive.files == [] && directive.optionalFiles == [] ==> table == map[]
      decreases fs.files - visited, 2, 0
    {
      ghost var required, optional := Resolved(fs, directive.files, path), Resolved(fs, directive.optionalFiles, path);
      ghost var v := VisitAll(fs, required, visited, EMPTY);
      table := MergeEntries(map[], directive.files, path, false);
      ghost var s1 := State();
      ghost var w := VisitAll(fs, optional, v.seen, v.table);
      table := MergeEntries(table, directive.optionalFiles, path, true);
      ExpandsTwice(fs, old(State()), v, ListFindings(fs, required, false), s1, w, ListFindings(fs, optional, true),
                   State());
      VisitAllConcat(fs, required, optional, old(visited), EMPTY);
    }

    /** Loads the entries of one include list, each merged over what came before. */
    method MergeEntries(base: Entries, entries: seq<string>, from: Path, optional: bool) returns (merged: Entries)
      requires Valid()
      modifies this
      ensures var targets := Resolved(fs, entries, from);
              var v := VisitAll(fs, targets, old(visited), Table(base));
              Table(merged) == v.table && Expands(fs, v, ListFindings(fs, targets, optional), old(State()), State())
      ensures entries == [] ==> merged == base
      decreases fs.files - visited, 1, 0
    {
      merged := base;
      ghost var targets := Resolved(fs, entries, from);
      ghost var v := Visit([], visited, Table(base));
      ExpandsNothing(fs, State(), Table(base), ListFindings(fs, [], optional), State());
      for i := 0 to |entries|
        invariant v == VisitAll(fs, targets[..i], old(visited), Table(base))
        invariant Table(merged) == v.table
        invariant Expands(fs, v, ListFindings(fs, targets[..i], optional), old(State()), State())
        invariant old(visited) <= visited
        invariant i == 0 ==> merged == base
      {
        var target := fs.resolve(entries[i], from);
        ghost var done, before, w := targets[..i], State(), VisitTarget(fs, target, visited, Table(merged));
        merged := MergeEntry(merged, target, optional);
        assert targets[..i + 1] == done + [target];
        ListFindingsConcat(fs, done, target, optional);
        VisitAllAndOne(fs, done, target, old(visited), Table(base));
        ExpandsTwice(fs, old(State()), v, ListFindings(fs, done, optional), before,
                     w, ListFindings(fs, [target], optional), State());
        v := Visit(v.order + w.order, w.seen, w.table);
      }
      assert targets[..|entries|] == targets;
    }

    method MergeEntry(base: Entries, target: Path, optional: bool) returns (merged: Entries)
      requires Valid()
      modifies this
      ensures var v := VisitTarget(fs, target, old(visited), Table(base));
              Table(merged) == v.table && Expands(fs, v, ListFindings(fs, [target], optional), old(State()), State())
      decreases fs.files - visited, 0, 2
    {
      merged := base;
      ListFindingsOne(fs, target, optional);
      if fs.status(target).RegularFile? {
        var nested := LoadAndExpand(target);
        merged := DeepMerge(base, nested);
        return;
      }
      loadedFiles := loadedFiles + [fs.canonical(target)];
      if fs.status(target).NotFound? {
        if optional {
          missingOptionalIncludes := true;
        } else {
          missingIncludes := true;
        }
      } else {
        hadError := true;
      }
      ExpandsNothing(fs, old(State()), Table(base), ListFindings(fs, [target], optional), State());
    }

    /** `recordEffectOrigins` */
    method RecordEffectOrigins(document: Document)
      modifies this`presets, this`pools
      ensures State() == old(State()).Declares(document)
    {
      presets := DeclareLocal(presets, document.presets);
      pools := DeclareLocal(pools, document.pools);
    }
  }

  // The merge result

  datatype MergeResult = MergeResult(
    merged: Entries,
    loadedFiles: seq<Path>,
    presets: seq<string>,
    pools: seq<string>,
    missingIncludes: bool,
    missingOptionalIncludes: bool,
    hadError: bool)

  /** The table without the named effect pools. */
  function DropPools(table: Entries, names: set<string>): Entries {
    if "effects" in table && table["effects"].Table? then
      var effects := table["effects"].entries;
      if "pool" in effects && effects["pool"].Table? then
        table["effects" := Table(effects["pool" := Table(effects["pool"].entries - names)])]
      else table
    else table
  }

  lemma DropPoolsTwice(table: Entries, a: set<string>, b: set<string>)
    ensures DropPools(DropPools(table, a), b) == DropPools(table, a + b)
  {
    if "effects" in table && table["effects"].Table? {
      var effects := table["effects"].entries;
      if "pool" in effects && effects["pool"].Table? {
        var pools := effects["pool"].entries;
        assert pools - a - b == pools - (a + b);
        var once, both := effects["pool" := Table(pools - a)], effects["pool" := Table(pools - (a + b))];
        assert once["pool" := Table(pools - (a + b))] == both;
        assert table["effects" := Table(once)]["effects" := Table(both)] == table["effects" := Table(both)];
      }
    }
  }

  lemma DropPoolsKeys(table: Entries, names: set<string>)
    ensures KeysAt(Table(DropPools(table, names)), POOLS) == KeysAt(Table(table), POOLS) - names
    ensures KeysAt(Table(DropPools(table, names)), PRESETS) == KeysAt(Table(table), PRESETS)
  {
    assert POOLS[1..] == ["pool"] && PRESETS[1..] == ["preset"];
    assert POOLS[1..][1..] == [] && PRESETS[1..][1..] == [];
    assert "pool"[0] != "preset"[1];
  }

  /** What loading a root amounts to, file after file in the order of the walk. */
  ghost predicate Describes(result: MergeResult, fs: FileSystem, root: Path)
    requires fs.Valid()
  {
    var order := Walk(fs, root).order;
    var found := AllFindings(fs, order).And(LoadFindings(fs, root));
    && result.presets == Declare([], Declared(fs, order, PresetTable))
    && result.pools == Declare([], Declared(fs, order, PoolTable))
    && result.merged == Merged(fs, root)
    && Elements(result.loadedFiles) == found.files
    && result.missingIncludes == found.required
    && result.missingOptionalIncludes == found.optional
    && result.hadError == found.failed
  }

  /** `mergeWithIncludes`: expands the root, then drops every pool that shares its name with a preset. */
  method MergeWithIncludes(fs: FileSystem, root: Path) returns (result: MergeResult)
    requires fs.Valid()
    ensures Describes(result, fs, root)
  {
    var merger := new Merger(fs);
    var expanded := merger.LoadAndExpand(root);
    var merged := DropClashes(expanded, merger.pools, merger.presets);
    result := MergeResult(merged, merger.loadedFiles, merger.presets, merger.pools, merger.missingIncludes,
                          merger.missingOptionalIncludes, merger.hadError);
  }

  method DropClashes(expanded: Entries, pools: seq<string>, presets: seq<string>) returns (merged: Entries)
    ensures merged == DropPools(expanded, Elements(pools) * Elements(presets))
  {
    merged := expanded;
    DropNoPools(expanded);
    assert Elements(pools[..0]) * Elements(presets) == {};
    for i := 0 to |pools|
      invariant merged == DropPools(expanded, Elements(pools[..i]) * Elements(presets))
    {
      assert pools[..i + 1] == pools[..i] + [pools[i]];
      if pools[i] in presets {
        DropPoolsTwice(expanded, Elements(pools[..i]) * Elements(presets), {pools[i]});
        merged := DropPools(merged, {pools[i]});
        assert Elements(pools[..i + 1]) * Elements(presets) == Elements(pools[..i]) * Elements(presets) + {pools[i]};
      } else {
        assert Elements(pools[..i + 1]) * Elements(presets) == Elements(pools[..i]) * Elements(presets);
      }
    }
    assert pools[..|pools|] == pools;
  }

  lemma DropNoPools(table: Entries)
    ensures DropPools(table, {}) == table
  {
    if "effects" in table && table["effects"].Table? {
      var effects := table["effects"].entries;
      if "pool" in effects && effects["pool"].Table? {
        assert effects["pool"].entries - {} == effects["pool"].entries;
        assert effects["pool" := effects["pool"]] == effects;
        assert table["effects" := table["effects"]] == table;
      }
    }
  }

  /** What the whole load leaves as the merged table. */
  ghost function Merged(fs: FileSystem, root: Path): Entries
    requires fs.Valid()
  {
    var v := Walk(fs, root);
    var presets := Declare([], Declared(fs, v.order, PresetTable));
    var pools := Declare([], Declared(fs, v.order, PoolTable));
    DropPools(v.table.entries, Elements(pools) * Elements(presets))
  }

  /** Every preset and pool left in the merged table was declared, and no pool has the name of a declared preset. */
  lemma EffectNamesAreDeclared(fs: FileSystem, root: Path)
    requires fs.Valid()
    ensures var order := Walk(fs, root).order;
            var presets := Elements(Declare([], Declared(fs, order, PresetTable)));
            var pools := Elements(Declare([], Declared(fs, order, PoolTable)));
            && KeysAt(Table(Merged(fs, root)), PRESETS) <= presets
            && KeysAt(Table(Merged(fs, root)), POOLS) <= pools - presets
  {
    var v := Walk(fs, root);
    DeclareHolds([], Declared(fs, v.order, PresetTable));
    DeclareHolds([], Declared(fs, v.order, PoolTable));
    WalkKeys(fs, root, PRESETS);
    WalkKeys(fs, root, POOLS);
    KeysAreDeclared(fs, v.order, PresetTable);
    KeysAreDeclared(fs, v.order, PoolTable);
    DropPoolsKeys(v.table.entries, Elements(Declare([], Declared(fs, v.order, PoolTable)))
                                   * Elements(Declare([], Declared(fs, v.order, PresetTable))));
  }

  /** The preset and pool names of a whole load are listed without repetition, in the order in which the files of the
      walk first declare them. */
  lemma DeclarationsAreInOrder(fs: FileSystem, root: Path, kind: EffectTable)
    requires fs.Valid()
    ensures var names := Declared(fs, Walk(fs, root).order, kind);
            var list := Declare([], names);
            && NoDuplicates(list) && (forall x :: x in list <==> x in names)
            && forall i, j :: 0 <= i < j < |list| ==> First(names, list[i]) < First(names, list[j])
  {
    DeclareHolds([], Declared(fs, Walk(fs, root).order, kind));
    DeclaresInFirstOrder(Declared(fs, Walk(fs, root).order, kind));
  }

  /** The names declared by a run of files are the keys of their effect tables. */
  lemma KeysAreDeclared(fs: FileSystem, order: seq<Path>, kind: EffectTable)
    requires fs.Valid()
    ensures forall name :: name in Declared(fs, order, kind)
              <==> name in KeysOf(fs, order, if kind.PresetTable? then PRESETS else POOLS)
  {
    var path := if kind.PresetTable? then PRESETS else POOLS;
    var each := Map(p => FileDeclares(fs, p, kind), order);
    FlattenHolds(each);
    forall p ensures forall name :: name in FileDeclares(fs, p, kind) <==> name in KeysAt(FileTable(fs, p), path) {
      assert fs.ReadsWell(p);
      if fs.content(p).Parsed? {
      }
    }
    assert forall names :: names in each <==> exists p :: p in order && names == FileDeclares(fs, p, kind);
  }

  function DirectiveAt(fs: FileSystem, p: Path): Directive {
    match fs.content(p)
    case Malformed => Directive([], [], false)
    case Parsed(d) => d.directive
  }

  /** A file named by one of these entries of `p` does not exist. */
  ghost predicate Lacks(fs: FileSystem, p: Path, entries: seq<string>) {
    exists t :: t in Resolved(fs, entries, p) && fs.status(t).NotFound?
  }

  lemma FindingsMean(fs: FileSystem, order: seq<Path>)
    ensures var all := AllFindings(fs, order);
            && (forall f :: f in all.files <==> exists p :: p in order && f in FileFindings(fs, p).files)
            && (all.required <==> exists p :: p in order && FileFindings(fs, p).required)
            && (all.optional <==> exists p :: p in order && FileFindings(fs, p).optional)
            && (all.failed <==> exists p :: p in order && FileFindings(fs, p).failed)
  {
    var each := Map(p => FileFindings(fs, p), order);
    SumMeans(each);
    assert forall x :: x in each <==> exists p :: p in order && x == FileFindings(fs, p);
  }

  /** The files put on record by a load, watched for the next one, are the root, the loaded files and every include
      target of a loaded file, whether it could be loaded or not. */
  lemma RecordsEveryTarget(fs: FileSystem, root: Path)
    requires fs.Valid()
    ensures var order := Walk(fs, root).order;
            forall f :: f in AllFindings(fs, order).And(LoadFindings(fs, root)).files <==>
              f == fs.canonical(root) || exists p :: p in order && Puts(fs, p, f)
  {
    var order := Walk(fs, root).order;
    WalkLoadsOnce(fs, root);
    FindingsMean(fs, order);
    forall p, f | p in order ensures f in FileFindings(fs, p).files <==> Puts(fs, p, f) {
      FileReports(fs, p);
    }
  }

  /** Loading `p` puts `f` on record, as its own name or as the target of one of its entries. */
  ghost predicate Puts(fs: FileSystem, p: Path, f: Path) {
    f == fs.canonical(p) || f in Names(fs, Targets(fs, p))
  }

  lemma FileReports(fs: FileSystem, p: Path)
    requires fs.content(p).Parsed?
    ensures var found := FileFindings(fs, p);
            && found.files == {fs.canonical(p)} + Names(fs, Targets(fs, p))
            && found.required == Lacks(fs, p, DirectiveAt(fs, p).files)
            && found.optional == Lacks(fs, p, DirectiveAt(fs, p).optionalFiles)
            && found.failed == (DirectiveAt(fs, p).malformed || SomeTargetFails(fs, p))
  {
    var directive := fs.content(p).document.directive;
    var a, b := Resolved(fs, directive.files, p), Resolved(fs, directive.optionalFiles, p);
    NamesConcat(fs, a, b);
    assert forall t :: t in a + b <==> t in a || t in b;
  }

  /** An include target of `p` is there and cannot be read, or does not parse. */
  ghost predicate SomeTargetFails(fs: FileSystem, p: Path) {
    exists t :: t in Targets(fs, p)
                && (fs.status(t) == Unusable || (fs.status(t) == RegularFile && fs.content(t) == Malformed))
  }

  /** A load reports a missing include exactly when some loaded file requires a file that does not exist, and an error
      exactly when the root does not parse, a loaded file has a malformed directive, or one of its include targets
      does not parse or cannot be read. */
  lemma ReportsEveryFailure(fs: FileSystem, root: Path)
    requires fs.Valid()
    ensures var order := Walk(fs, root).order;
            var found := AllFindings(fs, order).And(LoadFindings(fs, root));
            && (found.required <==> exists p :: p in order && Lacks(fs, p, DirectiveAt(fs, p).files))
            && (found.optional <==> exists p :: p in order && Lacks(fs, p, DirectiveAt(fs, p).optionalFiles))
            && (found.failed <==>
                || fs.content(root).Malformed?
                || exists p :: p in order && (DirectiveAt(fs, p).malformed || SomeTargetFails(fs, p)))
  {
    var order := Walk(fs, root).order;
    WalkLoadsOnce(fs, root);
    FindingsMean(fs, order);
    forall p | p in order
      ensures FileFindings(fs, p).required == Lacks(fs, p, DirectiveAt(fs, p).files)
      ensures FileFindings(fs, p).optional == Lacks(fs, p, DirectiveAt(fs, p).optionalFiles)
      ensures FileFindings(fs, p).failed == (DirectiveAt(fs, p).malformed || SomeTargetFails(fs, p))
    {
      FileReports(fs, p);
    }
  }
}
