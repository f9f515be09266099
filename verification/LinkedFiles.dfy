/** A file that is included under two names. */
module LinkedFiles {
  import opened Includes
  import opened Toml

  function Includer(entries: seq<Value>): Document {
    var root := map["include" := Table(map["files" := Array(entries)])];
    Document(root, DirectiveOf(root), [], [])
  }

  /** A root `r` that includes `a` and `b`, two links to one file in different directories, where the entry of that
      file means `x` next to the first link and `y` next to the second. */
  function Linked(r: Path, a: Path, b: Path, x: Path, y: Path, entry: string): FileSystem {
    FileSystem({r, a, x, y},
      p => if p in {r, a, b, x, y} then RegularFile else NotFound,
      p => if p == r then Parsed(Includer([Text(a), Text(b)]))
           else if p == a || p == b then Parsed(Includer([Text(entry)]))
           else if p == x || p == y then Parsed(Includer([]))
           else Malformed,
      p => if p == b then a else p,
      (e, from) => if e == entry && from == a then x else if e == entry && from == b then y else e)
  }

  ghost predicate Separate(r: Path, a: Path, b: Path, x: Path, y: Path, entry: string) {
    && r != a && r != b && r != x && r != y && a != b && a != x && a != y && b != x && b != y && x != y
    && '\0' !in a && '\0' !in b && '\0' !in entry
  }

  /** Reachability alone is not enough: what a file includes under its second name is never loaded. */
  lemma SecondNameIsSkipped(r: Path, a: Path, b: Path, x: Path, y: Path, entry: string)
    requires Separate(r, a, b, x, y, entry)
    ensures var fs := Linked(r, a, b, x, y, entry);
            fs.Valid() && Reachable(fs, r, y) && fs.canonical(y) !in Walk(fs, r).seen
  {
    var fs := Linked(r, a, b, x, y, entry);
    LinkedIsValid(r, a, b, x, y, entry);
    LinkedTargets(r, a, b, x, y, entry);
    TwoNames(fs, r, a, b, x, y);
  }

  /** Such files: links `a/f` and `b/f` whose entry `x` means `a/x` and `b/x`. */
  lemma SuchFilesExist()
    ensures Separate("r", "a/f", "b/f", "a/x", "b/x", "x")
  {
    assert |"r"| == 1 && "a/f"[0] == 'a' && "b/f"[0] == 'b' && "a/x"[2] == 'x' && "a/f"[2] == 'f' && "b/f"[2] == 'f';
  }

  lemma LinkedIsValid(r: Path, a: Path, b: Path, x: Path, y: Path, entry: string)
    requires Separate(r, a, b, x, y, entry)
    ensures Linked(r, a, b, x, y, entry).Valid()
  {
    forall p ensures Linked(r, a, b, x, y, entry).ReadsWell(p) {}
  }

  lemma LinkedTargets(r: Path, a: Path, b: Path, x: Path, y: Path, entry: string)
    requires Separate(r, a, b, x, y, entry)
    ensures var fs := Linked(r, a, b, x, y, entry);
            Targets(fs, r) == [a, b] && Targets(fs, a) == [x] && Targets(fs, b) == [y] && Targets(fs, x) == []
  {
    var fs := Linked(r, a, b, x, y, entry);
    IncluderLeads(fs, r, [Text(a), Text(b)]);
    IncluderLeads(fs, a, [Text(entry)]);
    IncluderLeads(fs, b, [Text(entry)]);
    IncluderLeads(fs, x, []);
  }

  lemma IncluderLeads(fs: FileSystem, p: Path, entries: seq<Value>)
    requires fs.content(p) == Parsed(Includer(entries))
    ensures Targets(fs, p) == Resolved(fs, IncludePaths(entries), p)
  {
    assert Resolved(fs, IncludePaths(entries), p) + Resolved(fs, [], p) == Resolved(fs, IncludePaths(entries), p);
  }

  /** `r` includes `a` and `b`, two names of one file, which includes `x` when read as `a` and `y` when read as `b`. */
  lemma TwoNames(fs: FileSystem, r: Path, a: Path, b: Path, x: Path, y: Path)
    requires fs.Valid()
    requires forall p :: p in {r, a, b, x, y} ==> fs.status(p).RegularFile? && fs.content(p).Parsed?
    requires Targets(fs, r) == [a, b] && Targets(fs, a) == [x] && Targets(fs, b) == [y] && Targets(fs, x) == []
    requires fs.canonical(b) == fs.canonical(a) && fs.canonical(r) != fs.canonical(a)
    requires fs.canonical(x) != fs.canonical(r) && fs.canonical(x) != fs.canonical(a)
    requires fs.canonical(y) !in {fs.canonical(r), fs.canonical(a), fs.canonical(x)}
    ensures Reachable(fs, r, y) && fs.canonical(y) !in Walk(fs, r).seen
  {
    assert IsChain(fs, [r, b, y]);
    var root, two := {fs.canonical(r)}, {fs.canonical(r)} + {fs.canonical(a)};
    assert two == {fs.canonical(r), fs.canonical(a)};
    WalkUnfolds(fs, r);
    VisitOpened(fs, a, root, EMPTY);
    VisitOpened(fs, x, two, EMPTY);
    LastTarget(fs, x, two, EMPTY);
    var first := VisitTarget(fs, a, root, EMPTY);
    VisitOpened(fs, b, first.seen, first.table);
    LastTarget(fs, b, first.seen, first.table);
    assert [a, b][1..] == [b];
  }
}
