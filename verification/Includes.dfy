/** The include walk: which files a configuration is read from, in which order, and under which names. */
module Includes {
  import opened Toml

  type Path = string

  datatype Status = RegularFile | NotFound | Unusable

  /** A parsed file: its table, the include directive read from it, and the keys of `effects.preset` and `effects.pool`
      in source order, which the table itself does not keep. */
  datatype Document = Document(root: Entries, directive: Directive, presets: seq<string>, pools: seq<string>) {
    ghost predicate Valid() {
      && directive == DirectiveOf(root)
      && (forall name :: name in presets <==> name in KeysAt(Table(root), PRESETS))
      && (forall name :: name in pools <==> name in KeysAt(Table(root), POOLS))
    }
  }

  datatype Content = Malformed | Parsed(document: Document)

  /** What the loader asks of the system: file status, parsing, canonical names, and where an include entry found in a
      file points. `files` are the canonical names of the files that parse. */
  datatype FileSystem = FileSystem(
    files: set<Path>,
    status: Path -> Status,
    content: Path -> Content,
    canonical: Path -> Path,
    resolve: (string, Path) -> Path)
  {
    ghost predicate Valid() {
      && (forall p {:trigger content(p)} :: content(p).Parsed? ==> canonical(p) in files)
      && (forall p {:trigger ReadsWell(p)} :: ReadsWell(p))
    }

    ghost predicate ReadsWell(p: Path) {
      content(p).Parsed? ==> content(p).document.Valid()
    }
  }

  const PRESETS := ["effects", "preset"]
  const POOLS := ["effects", "pool"]

  // The include directive

  datatype Directive = Directive(files: seq<string>, optionalFiles: seq<string>, malformed: bool)

  predicate IsIncludePath(v: Value) {
    v.Text? && '\0' !in v.text
  }

  /** The entries of one list of paths that can be followed. */
  function IncludePaths(elements: seq<Value>): seq<string> {
    if elements == [] then []
    else
      var last := elements[|elements| - 1];
      IncludePaths(elements[..|elements| - 1]) + if IsIncludePath(last) then [last.text] else []
  }

  function ListPaths(owner: Entries, key: string): seq<string> {
    if key in owner && owner[key].Array? then IncludePaths(owner[key].elements) else []
  }

  predicate ListMalformed(owner: Entries, key: string) {
    key in owner && (!owner[key].Array? || exists v :: v in owner[key].elements && !IsIncludePath(v))
  }

  function DirectiveOf(root: Entries): Directive {
    if "include" !in root then Directive([], [], false)
    else if !root["include"].Table? then Directive([], [], true)
    else
      var table := root["include"].entries;
      var unknown := exists k :: k in table && k != "files" && k != "optional";
      if "optional" !in table then
        Directive(ListPaths(table, "files"), [], unknown || ListMalformed(table, "files"))
      else if !table["optional"].Table? then Directive(ListPaths(table, "files"), [], true)
      else
        var optional := table["optional"].entries;
        Directive(ListPaths(table, "files"), ListPaths(optional, "files"),
                  || unknown || ListMalformed(table, "files") || ListMalformed(optional, "files")
                  || exists k :: k in optional && k != "files")
  }

  function OwnTable(d: Document): Value {
    Table(d.root - {"include"})
  }

  function Resolved(fs: FileSystem, entries: seq<string>, from: Path): (targets: seq<Path>)
    ensures |targets| == |entries|
  {
    seq(|entries|, i requires 0 <= i < |entries| => fs.resolve(entries[i], from))
  }

  /** Where the includes of a parsed file lead, required entries first. */
  function Targets(fs: FileSystem, p: Path): seq<Path> {
    match fs.content(p)
    case Malformed => []
    case Parsed(d) => Resolved(fs, d.directive.files, p) + Resolved(fs, d.directive.optionalFiles, p)
  }

  function FileTable(fs: FileSystem, p: Path): (t: Value)
    ensures t.Table?
  {
    match fs.content(p)
    case Malformed => EMPTY
    case Parsed(d) => OwnTable(d)
  }

  // The walk over the include graph

  /** The names under which files were first loaded, each after the files it includes, the canonical names seen, and the
      table merged so far. */
  datatype Visit = Visit(order: seq<Path>, seen: set<Path>, table: Value)

  ghost function VisitFile(fs: FileSystem, p: Path, seen: set<Path>): (v: Visit)
    requires fs.Valid()
    ensures seen <= v.seen && v.table.Table?
    decreases fs.files - seen, 0, 0
  {
    if fs.content(p).Malformed? || fs.canonical(p) in seen then Visit([], seen, EMPTY)
    else
      var inner := VisitAll(fs, Targets(fs, p), seen + {fs.canonical(p)}, EMPTY);
      Visit(inner.order + [p], inner.seen, Merge(inner.table, FileTable(fs, p)))
  }

  ghost function VisitTarget(fs: FileSystem, p: Path, seen: set<Path>, base: Value): (v: Visit)
    requires fs.Valid() && base.Table?
    ensures seen <= v.seen && v.table.Table?
    decreases fs.files - seen, 0, 1
  {
    if fs.status(p).RegularFile? then
      var v := VisitFile(fs, p, seen);
      Visit(v.order, v.seen, Merge(base, v.table))
    else Visit([], seen, base)
  }

  ghost function VisitAll(fs: FileSystem, targets: seq<Path>, seen: set<Path>, base: Value): (v: Visit)
    requires fs.Valid() && base.Table?
    ensures seen <= v.seen && v.table.Table?
    decreases fs.files - seen, 1, |targets|
  {
    if targets == [] then Visit([], seen, base)
    else
      var first := VisitTarget(fs, targets[0], seen, base);
      var rest := VisitAll(fs, targets[1..], first.seen, first.table);
      Visit(first.order + rest.order, rest.seen, rest.table)
  }

  // What the walk loads

  ghost function Names(fs: FileSystem, paths: seq<Path>): set<Path> {
    set p | p in paths :: fs.canonical(p)
  }

  ghost predicate OncePerFile(fs: FileSystem, paths: seq<Path>) {
    forall i, j :: 0 <= i < j < |paths| ==> fs.canonical(paths[i]) != fs.canonical(paths[j])
  }

  /** `t` is a parseable file that the file `p` includes. */
  ghost predicate Leads(fs: FileSystem, p: Path, t: Path) {
    t in Targets(fs, p) && fs.status(t).RegularFile? && fs.content(t).Parsed?
  }

  ghost predicate IsChain(fs: FileSystem, chain: seq<Path>) {
    && chain != [] && fs.content(chain[0]).Parsed?
    && forall i :: 0 <= i < |chain| - 1 ==> Leads(fs, chain[i], chain[i + 1])
  }

  /** `p` can be reached from `root` by following includes through parseable files. */
  ghost predicate Reachable(fs: FileSystem, root: Path, p: Path) {
    exists chain :: IsChain(fs, chain) && chain[0] == root && chain[|chain| - 1] == p
  }

  lemma ReachFurther(fs: FileSystem, root: Path, p: Path, t: Path)
    requires Reachable(fs, root, p) && Leads(fs, p, t)
    ensures Reachable(fs, root, t)
  {
    var chain :| IsChain(fs, chain) && chain[0] == root && chain[|chain| - 1] == p;
    var longer := chain + [t];
    assert IsChain(fs, longer) && longer[0] == root && longer[|longer| - 1] == t;
  }

  /** The target is a parseable file not seen before. */
  ghost predicate Opens(fs: FileSystem, t: Path, seen: set<Path>) {
    fs.status(t).RegularFile? && fs.content(t).Parsed? && fs.canonical(t) !in seen
  }

  lemma NamesConcat(fs: FileSystem, a: seq<Path>, b: seq<Path>)
    ensures Names(fs, a + b) == Names(fs, a) + Names(fs, b)
    ensures OncePerFile(fs, a) && OncePerFile(fs, b) && Names(fs, a) !! Names(fs, b) ==> OncePerFile(fs, a + b)
  {
    assert forall p :: p in a ==> fs.canonical(p) in Names(fs, a);
    assert forall p :: p in b ==> fs.canonical(p) in Names(fs, b);
    assert forall p :: p in a + b ==> fs.canonical(p) in Names(fs, a + b);
    assert forall i :: 0 <= i < |a| ==> a[i] in a;
    assert forall i :: 0 <= i < |b| ==> b[i] in b;
  }

  lemma VisitOpened(fs: FileSystem, t: Path, seen: set<Path>, base: Value)
    requires fs.Valid() && base.Table?
    ensures var inner := VisitAll(fs, Targets(fs, t), seen + {fs.canonical(t)}, EMPTY);
            var v := VisitTarget(fs, t, seen, base);
            if Opens(fs, t, seen) then
              v == Visit(inner.order + [t], inner.seen, Merge(base, Merge(inner.table, FileTable(fs, t))))
            else v.order == [] && v.seen == seen && v.table == base
  {
    var v := VisitFile(fs, t, seen);
    if fs.status(t).RegularFile? && !Opens(fs, t, seen) {
      assert v == Visit([], seen, EMPTY) && Merge(base, EMPTY).entries == base.entries;
    }
  }

  lemma LastTarget(fs: FileSystem, t: Path, seen: set<Path>, base: Value)
    requires fs.Valid() && base.Table?
    ensures VisitAll(fs, [t], seen, base) == VisitTarget(fs, t, seen, base)
  {
    var v := VisitTarget(fs, t, seen, base);
    assert [t][1..] == [] && v.order + [] == v.order;
  }

  /** No file is loaded twice, under any name, and exactly the loaded files are added to the seen set. */
  lemma {:induction false} VisitsOnce(fs: FileSystem, targets: seq<Path>, seen: set<Path>, base: Value)
    requires fs.Valid() && base.Table?
    ensures var v := VisitAll(fs, targets, seen, base);
            && OncePerFile(fs, v.order)
            && v.seen == seen + Names(fs, v.order)
            && Names(fs, v.order) !! seen
            && forall p :: p in v.order ==> fs.content(p).Parsed?
    decreases fs.files - seen, |targets|
  {
    if targets == [] {
    } else {
      var t := targets[0];
      var first := VisitTarget(fs, t, seen, base);
      VisitOpened(fs, t, seen, base);
      if Opens(fs, t, seen) {
        VisitsOnce(fs, Targets(fs, t), seen + {fs.canonical(t)}, EMPTY);
        NamesConcat(fs, VisitAll(fs, Targets(fs, t), seen + {fs.canonical(t)}, EMPTY).order, [t]);
        assert Names(fs, [t]) == {fs.canonical(t)};
      }
      VisitsOnce(fs, targets[1..], first.seen, first.table);
      NamesConcat(fs, first.order, VisitAll(fs, targets[1..], first.seen, first.table).order);
    }
  }

  /** Every parseable target, and every parseable include of a loaded file, has been seen under some name. */
  lemma {:induction false} VisitsAllTargets(fs: FileSystem, targets: seq<Path>, seen: set<Path>, base: Value)
    requires fs.Valid() && base.Table?
    ensures var v := VisitAll(fs, targets, seen, base);
            && (forall t :: t in targets && fs.status(t).RegularFile? && fs.content(t).Parsed? ==>
                  fs.canonical(t) in v.seen)
            && forall p, t :: p in v.order && Leads(fs, p, t) ==> fs.canonical(t) in v.seen
    decreases fs.files - seen, |targets|
  {
    if targets == [] {
    } else {
      var t := targets[0];
      var first := VisitTarget(fs, t, seen, base);
      VisitOpened(fs, t, seen, base);
      if Opens(fs, t, seen) {
        VisitsAllTargets(fs, Targets(fs, t), seen + {fs.canonical(t)}, EMPTY);
      }
      VisitsAllTargets(fs, targets[1..], first.seen, first.table);
      assert targets == [t] + targets[1..];
    }
  }

  /** Whatever is loaded while following includes of a reachable file is reachable. */
  lemma {:induction false} VisitsReachable(fs: FileSystem, root: Path, from: Path, targets: seq<Path>, seen: set<Path>,
                                           base: Value)
    requires fs.Valid() && base.Table? && Reachable(fs, root, from)
    requires forall t :: t in targets ==> t in Targets(fs, from)
    ensures forall p :: p in VisitAll(fs, targets, seen, base).order ==> Reachable(fs, root, p)
    decreases fs.files - seen, |targets|
  {
    if targets == [] {
    } else {
      var t := targets[0];
      var first := VisitTarget(fs, t, seen, base);
      VisitOpened(fs, t, seen, base);
      if Opens(fs, t, seen) {
        ReachFurther(fs, root, from, t);
        VisitsReachable(fs, root, t, Targets(fs, t), seen + {fs.canonical(t)}, EMPTY);
      }
      VisitsReachable(fs, root, from, targets[1..], first.seen, first.table);
    }
  }

  ghost function Walk(fs: FileSystem, root: Path): Visit
    requires fs.Valid()
  {
    VisitFile(fs, root, {})
  }

  lemma WalkUnfolds(fs: FileSystem, root: Path)
    requires fs.Valid()
    ensures var inner := VisitAll(fs, Targets(fs, root), {fs.canonical(root)}, EMPTY);
            Walk(fs, root) == if fs.content(root).Malformed? then Visit([], {}, EMPTY)
                              else Visit(inner.order + [root], inner.seen, Merge(inner.table, FileTable(fs, root)))
  {
    assert {} + {fs.canonical(root)} == {fs.canonical(root)};
  }

  /** The whole walk from a root, on any include graph, cycles included, loads each file once and the root last. */
  lemma WalkLoadsOnce(fs: FileSystem, root: Path)
    requires fs.Valid()
    ensures var v := Walk(fs, root);
            && OncePerFile(fs, v.order)
            && v.seen == Names(fs, v.order)
            && (forall p :: p in v.order ==> fs.content(p).Parsed?)
            && (if fs.content(root).Parsed? then v.order != [] && v.order[|v.order| - 1] == root else v.order == [])
  {
    WalkUnfolds(fs, root);
    if fs.content(root).Parsed? {
      VisitsOnce(fs, Targets(fs, root), {fs.canonical(root)}, EMPTY);
      NamesConcat(fs, VisitAll(fs, Targets(fs, root), {fs.canonical(root)}, EMPTY).order, [root]);
      assert Names(fs, [root]) == {fs.canonical(root)};
    }
  }

  /** It loads reachable files only, and the parseable includes of every loaded file. */
  lemma WalkLoadsReachable(fs: FileSystem, root: Path)
    requires fs.Valid()
    ensures forall p :: p in Walk(fs, root).order ==> Reachable(fs, root, p)
    ensures forall p, t :: p in Walk(fs, root).order && Leads(fs, p, t) ==> fs.canonical(t) in Walk(fs, root).seen
  {
    WalkUnfolds(fs, root);
    if fs.content(root).Parsed? {
      assert IsChain(fs, [root]) && [root][0] == root && [root][|[root]| - 1] == root;
      VisitsAllTargets(fs, Targets(fs, root), {fs.canonical(root)}, EMPTY);
      VisitsReachable(fs, root, root, Targets(fs, root), {fs.canonical(root)}, EMPTY);
    }
  }

  /** Some include of `p` is the file `t`. */
  ghost predicate LeadsToSameFile(fs: FileSystem, p: Path, t: Path) {
    exists u :: Leads(fs, p, u) && fs.canonical(u) == fs.canonical(t)
  }

  /** The include entries of a reachable file lead to the same files whichever of its names it is read under. */
  ghost predicate AliasesAgree(fs: FileSystem, root: Path) {
    forall p, q, t {:trigger LeadsToSameFile(fs, p, t), Leads(fs, q, t)} ::
      Reachable(fs, root, p) && Reachable(fs, root, q) && fs.canonical(p) == fs.canonical(q) && Leads(fs, q, t)
      ==> LeadsToSameFile(fs, p, t)
  }

  lemma SeenLeadsToSeen(fs: FileSystem, root: Path, q: Path, t: Path)
    requires fs.Valid() && AliasesAgree(fs, root) && Reachable(fs, root, q)
    requires fs.canonical(q) in Walk(fs, root).seen && Leads(fs, q, t)
    ensures fs.canonical(t) in Walk(fs, root).seen
  {
    WalkLoadsOnce(fs, root);
    var p :| p in Walk(fs, root).order && fs.canonical(p) == fs.canonical(q);
    WalkLoadsReachable(fs, root);
    assert LeadsToSameFile(fs, p, t);
  }

  lemma {:induction false} ChainIsLoaded(fs: FileSystem, root: Path, chain: seq<Path>)
    requires fs.Valid() && AliasesAgree(fs, root) && IsChain(fs, chain) && chain[0] == root
    ensures fs.canonical(chain[|chain| - 1]) in Walk(fs, root).seen
  {
    var n := |chain| - 1;
    if n > 0 {
      var earlier := chain[..n];
      assert IsChain(fs, earlier) && earlier[0] == root && earlier[|earlier| - 1] == chain[n - 1];
      ChainIsLoaded(fs, root, earlier);
      assert Leads(fs, chain[n - 1], chain[n - 1 + 1]);
      SeenLeadsToSeen(fs, root, chain[n - 1], chain[n]);
    } else {
      WalkUnfolds(fs, root);
    }
  }

  /** Then the files loaded are exactly the reachable ones. */
  lemma WalkLoadsExactlyReachable(fs: FileSystem, root: Path)
    requires fs.Valid() && AliasesAgree(fs, root)
    ensures forall file ::
              file in Walk(fs, root).seen <==> exists p :: Reachable(fs, root, p) && fs.canonical(p) == file
  {
    WalkLoadsOnce(fs, root);
    WalkLoadsReachable(fs, root);
    forall p | Reachable(fs, root, p) ensures fs.canonical(p) in Walk(fs, root).seen {
      var chain :| IsChain(fs, chain) && chain[0] == root && chain[|chain| - 1] == p;
      ChainIsLoaded(fs, root, chain);
    }
  }

  // Nested expansion against one flat merge

  function Tables(fs: FileSystem, order: seq<Path>): (tables: seq<Value>)
    ensures |tables| == |order|
    ensures forall i :: 0 <= i < |order| ==> tables[i] == FileTable(fs, order[i])
  {
    seq(|order|, i requires 0 <= i < |order| => FileTable(fs, order[i]))
  }

  lemma TablesConcat(fs: FileSystem, a: seq<Path>, b: seq<Path>)
    ensures Tables(fs, a + b) == Tables(fs, a) + Tables(fs, b)
  {
  }

  lemma {:induction false} VisitsFold(fs: FileSystem, targets: seq<Path>, seen: set<Path>, prior: seq<Value>)
    requires fs.Valid() && Fold(prior).Table?
    requires Agree(prior + Tables(fs, VisitAll(fs, targets, seen, Fold(prior)).order))
    ensures var v := VisitAll(fs, targets, seen, Fold(prior));
            v.table == Fold(prior + Tables(fs, v.order))
    decreases fs.files - seen, |targets|
  {
    if targets == [] {
      assert prior + Tables(fs, []) == prior;
    } else {
      var t := targets[0];
      var base := Fold(prior);
      var first := VisitTarget(fs, t, seen, base);
      var rest := VisitAll(fs, targets[1..], first.seen, first.table);
      var sofar := prior + Tables(fs, first.order);
      TablesConcat(fs, first.order, rest.order);
      assert prior + Tables(fs, first.order + rest.order) == sofar + Tables(fs, rest.order);
      AgreeParts(sofar, Tables(fs, rest.order));
      VisitOpened(fs, t, seen, base);
      if Opens(fs, t, seen) {
        var inner := VisitAll(fs, Targets(fs, t), seen + {fs.canonical(t)}, EMPTY);
        AgreeParts(prior, Tables(fs, first.order));
        FileFolds(fs, t, inner, seen);
        FoldConcat(prior, Tables(fs, first.order));
      } else {
        assert sofar == prior;
      }
      VisitsFold(fs, targets[1..], first.seen, sofar);
    }
  }

  /** One opened file with its includes is the fold of the files it loads. */
  lemma {:induction false} FileFolds(fs: FileSystem, t: Path, inner: Visit, seen: set<Path>)
    requires fs.Valid() && fs.canonical(t) !in seen && fs.content(t).Parsed?
    requires inner == VisitAll(fs, Targets(fs, t), seen + {fs.canonical(t)}, EMPTY)
    requires Agree(Tables(fs, inner.order + [t]))
    ensures Merge(inner.table, FileTable(fs, t)) == Fold(Tables(fs, inner.order + [t]))
    decreases fs.files - seen, 0
  {
    var tables := Tables(fs, inner.order);
    TablesConcat(fs, inner.order, [t]);
    AgreeParts(tables, Tables(fs, [t]));
    assert [] + tables == tables;
    VisitsFold(fs, Targets(fs, t), seen + {fs.canonical(t)}, []);
    assert Tables(fs, inner.order + [t])[..|tables|] == tables;
  }

  /** When the loaded files agree on the kind of every key, expanding includes recursively gives the same table as
      merging the files one after the other in the order they were loaded. */
  lemma NestedIsFlat(fs: FileSystem, root: Path)
    requires fs.Valid() && Agree(Tables(fs, Walk(fs, root).order))
    ensures Walk(fs, root).table == Fold(Tables(fs, Walk(fs, root).order))
  {
    WalkUnfolds(fs, root);
    if fs.content(root).Parsed? {
      FileFolds(fs, root, VisitAll(fs, Targets(fs, root), {} + {fs.canonical(root)}, EMPTY), {});
      assert {} + {fs.canonical(root)} == {fs.canonical(root)};
    }
  }

  /** Every key of a merged nested table comes from one of the loaded files. */
  ghost function KeysOf(fs: FileSystem, order: seq<Path>, path: seq<string>): set<string> {
    set p, k | p in order && k in KeysAt(FileTable(fs, p), path) :: k
  }

  lemma {:induction false} VisitKeys(fs: FileSystem, targets: seq<Path>, seen: set<Path>, base: Value,
                                     path: seq<string>)
    requires fs.Valid() && base.Table?
    ensures var v := VisitAll(fs, targets, seen, base);
            KeysAt(v.table, path) <= KeysAt(base, path) + KeysOf(fs, v.order, path)
    decreases fs.files - seen, |targets|
  {
    if targets == [] {
    } else {
      var t := targets[0];
      var first := VisitTarget(fs, t, seen, base);
      VisitOpened(fs, t, seen, base);
      if Opens(fs, t, seen) {
        var inner := VisitAll(fs, Targets(fs, t), seen + {fs.canonical(t)}, EMPTY);
        VisitKeys(fs, Targets(fs, t), seen + {fs.canonical(t)}, EMPTY, path);
        MergeKeys(inner.table, FileTable(fs, t), path);
        MergeKeys(base, Merge(inner.table, FileTable(fs, t)), path);
      }
      VisitKeys(fs, targets[1..], first.seen, first.table, path);
    }
  }

  lemma WalkKeys(fs: FileSystem, root: Path, path: seq<string>)
    requires fs.Valid()
    ensures KeysAt(Walk(fs, root).table, path) <= KeysOf(fs, Walk(fs, root).order, path)
  {
    WalkUnfolds(fs, root);
    if fs.content(root).Parsed? {
      var inner := VisitAll(fs, Targets(fs, root), {fs.canonical(root)}, EMPTY);
      VisitKeys(fs, Targets(fs, root), {fs.canonical(root)}, EMPTY, path);
      MergeKeys(inner.table, FileTable(fs, root), path);
    }
  }
}
