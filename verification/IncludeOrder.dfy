/** In which order includes are loaded, and whose value a merged document holds. */
module IncludeOrder {
  import opened ConfigMerge
  import opened Includes
  import opened Options
  import opened Sequences
  import opened Toml
  import opened TomlPaths

  // Reading a directive

  function Texts(entries: seq<string>): seq<Value> {
    Map((entry: string) => Text(entry), entries)
  }

  /** The table that lists these files as required and optional includes. */
  function Listing(files: seq<string>, optionalFiles: seq<string>): Value {
    Table(map["files" := Array(Texts(files)), "optional" := Table(map["files" := Array(Texts(optionalFiles))])])
  }

  lemma {:induction false} TextsAreRead(entries: seq<string>)
    requires forall entry :: entry in entries ==> '\0' !in entry
    ensures IncludePaths(Texts(entries)) == entries
  {
    if entries == [] {
    } else {
      var n := |entries| - 1;
      TextsAreRead(entries[..n]);
      assert Texts(entries)[..n] == Texts(entries[..n]);
      assert entries == entries[..n] + [entries[n]];
    }
  }

  /** A directive reads back as it was written, files as required and optional ones as optional, in order. */
  lemma DirectiveReadsBack(root: Entries, files: seq<string>, optionalFiles: seq<string>)
    requires forall entry :: entry in files + optionalFiles ==> '\0' !in entry
    requires "include" in root && root["include"] == Listing(files, optionalFiles)
    ensures DirectiveOf(root) == Directive(files, optionalFiles, false)
  {
    assert forall entry :: entry in files ==> entry in files + optionalFiles;
    assert forall entry :: entry in optionalFiles ==> entry in files + optionalFiles;
    TextsAreRead(files);
    TextsAreRead(optionalFiles);
    assert "files"[0] != "optional"[0];
  }

  predicate IsUsable(v: Value) {
    v.Text? && '\0' !in v.text
  }

  function TextIn(v: Value): string {
    if v.Text? then v.text else ""
  }

  /** The usable entries of a list under a key, in order; none when there is no list. */
  function UsableIn(table: Entries, key: string): seq<string> {
    if key in table && table[key].Array? then Filtered(table[key].elements, IsUsable, TextIn) else []
  }

  /** A table under a key, empty when there is none. */
  function TableIn(entries: Entries, key: string): Entries {
    if key in entries && entries[key].Table? then entries[key].entries else map[]
  }

  /** A list that is one, and holds nothing but usable entries. */
  ghost predicate IsWellFormedList(v: Value) {
    v.Array? && forall e :: e in v.elements ==> IsUsable(e)
  }

  /** What a directive may hold: two known keys, a list and a table with a list. */
  ghost predicate IsWellFormed(v: Value) {
    && v.Table? && v.entries.Keys <= {"files", "optional"}
    && ("files" in v.entries ==> IsWellFormedList(v.entries["files"]))
    && ("optional" in v.entries ==>
          var optional := v.entries["optional"];
          optional.Table? && optional.entries.Keys <= {"files"}
          && ("files" in optional.entries ==> IsWellFormedList(optional.entries["files"])))
  }

  lemma {:induction false} PathsAreUsable(elements: seq<Value>)
    ensures IncludePaths(elements) == Filtered(elements, IsUsable, TextIn)
  {
    if elements == [] {
    } else {
      PathsAreUsable(elements[..|elements| - 1]);
    }
  }

  lemma ListIsWellFormed(owner: Entries, key: string)
    requires key in owner
    ensures ListMalformed(owner, key) <==> !IsWellFormedList(owner[key])
  {
  }

  /** Every usable entry of a directive counts, in order, and anything that does not belong there makes it malformed and
      hides no entry. */
  lemma DirectiveIsRead(root: Entries)
    ensures var d, table := DirectiveOf(root), TableIn(root, "include");
            && d.files == UsableIn(table, "files")
            && d.optionalFiles == UsableIn(TableIn(table, "optional"), "files")
            && (d.malformed <==> "include" in root && !IsWellFormed(root["include"]))
  {
    var table := TableIn(root, "include");
    var optional := TableIn(table, "optional");
    if "files" in table && table["files"].Array? {
      PathsAreUsable(table["files"].elements);
    }
    if "files" in optional && optional["files"].Array? {
      PathsAreUsable(optional["files"].elements);
    }
  }

  // The order of loading

  /** What an entry that leads to `t` loads once the files in `seen` are loaded or being loaded: the files it brings,
      all reached from `t`, and `t` itself after them; or nothing, when `t` cannot be read or was seen. */
  ghost predicate LoadedInTurn(fs: FileSystem, t: Path, seen: set<Path>, part: seq<Path>)
    requires fs.Valid()
  {
    if fs.status(t) == RegularFile && fs.content(t).Parsed? && fs.canonical(t) !in seen then
      && part != [] && part[|part| - 1] == t && part == VisitFile(fs, t, seen).order
      && forall p :: p in part ==> Reachable(fs, t, p)
    else part == []
  }

  lemma FileIsReached(fs: FileSystem, t: Path, seen: set<Path>)
    requires fs.Valid() && fs.content(t).Parsed? && fs.canonical(t) !in seen
    ensures var order := VisitFile(fs, t, seen).order;
            order != [] && order[|order| - 1] == t && forall p :: p in order ==> Reachable(fs, t, p)
  {
    assert IsChain(fs, [t]) && [t][0] == t && [t][|[t]| - 1] == t;
    VisitsReachable(fs, t, t, Targets(fs, t), seen + {fs.canonical(t)}, EMPTY);
  }

  lemma TargetLoads(fs: FileSystem, t: Path, seen: set<Path>, base: Value)
    requires fs.Valid() && base.Table?
    ensures var v := VisitTarget(fs, t, seen, base);
            LoadedInTurn(fs, t, seen, v.order) && v.seen == seen + Names(fs, v.order)
  {
    VisitsOnce(fs, [t], seen, base);
    LastTarget(fs, t, seen, base);
    if fs.content(t).Parsed? && fs.canonical(t) !in seen {
      FileIsReached(fs, t, seen);
    }
  }

  lemma FlattenCons<T>(first: seq<T>, rest: seq<seq<T>>)
    ensures Flatten([first] + rest) == first + Flatten(rest)
  {
    FlattenConcat([first], rest);
    FlattenOne(first);
  }

  /** These targets bring these files, one after the other. */
  ghost predicate InTurn(fs: FileSystem, targets: seq<Path>, seen: set<Path>, parts: seq<seq<Path>>)
    requires fs.Valid()
  {
    && |parts| == |targets|
    && forall i :: 0 <= i < |parts| ==> LoadedInTurn(fs, targets[i], seen + Names(fs, Flatten(parts[..i])), parts[i])
  }

  lemma SeenByThen(fs: FileSystem, first: seq<Path>, rest: seq<seq<Path>>, seen: set<Path>, i: nat)
    requires i <= |rest|
    ensures seen + Names(fs, Flatten(([first] + rest)[..i + 1]))
        == seen + Names(fs, first) + Names(fs, Flatten(rest[..i]))
  {
    assert ([first] + rest)[..i + 1] == [first] + rest[..i];
    FlattenCons(first, rest[..i]);
    NamesConcat(fs, first, Flatten(rest[..i]));
  }

  lemma OneMoreInTurn(fs: FileSystem, targets: seq<Path>, seen: set<Path>, first: seq<Path>, rest: seq<seq<Path>>)
    requires fs.Valid() && targets != [] && LoadedInTurn(fs, targets[0], seen, first)
    requires InTurn(fs, targets[1..], seen + Names(fs, first), rest)
    ensures InTurn(fs, targets, seen, [first] + rest)
  {
    var parts := [first] + rest;
    forall i | 0 <= i < |parts|
      ensures LoadedInTurn(fs, targets[i], seen + Names(fs, Flatten(parts[..i])), parts[i])
    {
      if i == 0 {
        assert parts[..0] == [] && seen + Names(fs, Flatten(parts[..0])) == seen;
      } else {
        SeenByThen(fs, first, rest, seen, i - 1);
        assert LoadedInTurn(fs, targets[1..][i - 1], seen + Names(fs, first) + Names(fs, Flatten(rest[..i - 1])),
                            rest[i - 1]);
      }
    }
  }

  lemma {:induction false} TargetsLoadInTurn(fs: FileSystem, targets: seq<Path>, seen: set<Path>, base: Value)
    returns (parts: seq<seq<Path>>)
    requires fs.Valid() && base.Table?
    ensures VisitAll(fs, targets, seen, base).order == Flatten(parts) && InTurn(fs, targets, seen, parts)
  {
    if targets == [] {
      parts := [];
    } else {
      var first := VisitTarget(fs, targets[0], seen, base);
      TargetLoads(fs, targets[0], seen, base);
      var rest := TargetsLoadInTurn(fs, targets[1..], first.seen, first.table);
      parts := [first.order] + rest;
      FlattenCons(first.order, rest);
      OneMoreInTurn(fs, targets, seen, first.order, rest);
    }
  }

  /** These entries of `p` bring these files, entry after entry. */
  ghost predicate BringInTurn(fs: FileSystem, p: Path, entries: seq<string>, seen: set<Path>, parts: seq<seq<Path>>)
    requires fs.Valid()
  {
    && |parts| == |entries|
    && forall i :: 0 <= i < |parts| ==>
         LoadedInTurn(fs, fs.resolve(entries[i], p), seen + Names(fs, Flatten(parts[..i])), parts[i])
  }

  /** A file is loaded after what its required entries bring, entry after entry, and then what its optional ones
      bring. */
  lemma IncludesAreLoadedInTurn(fs: FileSystem, p: Path, seen: set<Path>)
    returns (required: seq<seq<Path>>, optional: seq<seq<Path>>)
    requires fs.Valid() && fs.content(p).Parsed? && fs.canonical(p) !in seen
    ensures var d, started := fs.content(p).document.directive, seen + {fs.canonical(p)};
            && VisitFile(fs, p, seen).order == Flatten(required) + Flatten(optional) + [p]
            && BringInTurn(fs, p, d.files, started, required)
            && BringInTurn(fs, p, d.optionalFiles, started + Names(fs, Flatten(required)), optional)
  {
    var d, started := fs.content(p).document.directive, seen + {fs.canonical(p)};
    var a, b := Resolved(fs, d.files, p), Resolved(fs, d.optionalFiles, p);
    var first := VisitAll(fs, a, started, EMPTY);
    required := TargetsLoadInTurn(fs, a, started, EMPTY);
    VisitsOnce(fs, a, started, EMPTY);
    optional := TargetsLoadInTurn(fs, b, first.seen, first.table);
    VisitAllConcat(fs, a, b, started, EMPTY);
  }

  lemma BroughtFromEntry(fs: FileSystem, p: Path, entries: seq<string>, seen: set<Path>, parts: seq<seq<Path>>, q: Path)
    requires fs.Valid() && BringInTurn(fs, p, entries, seen, parts) && q in Flatten(parts)
    ensures exists e :: e in entries && Reachable(fs, fs.resolve(e, p), q)
  {
    FlattenHolds(parts);
    var part :| part in parts && q in part;
    var i :| 0 <= i < |parts| && parts[i] == part;
    assert entries[i] in entries;
  }

  lemma TargetIsBrought(fs: FileSystem, p: Path, entries: seq<string>, seen: set<Path>, parts: seq<seq<Path>>, i: nat)
    requires fs.Valid() && BringInTurn(fs, p, entries, seen, parts) && i < |entries|
    requires var t := fs.resolve(entries[i], p);
             fs.status(t) == RegularFile && fs.content(t).Parsed? && fs.canonical(t) !in seen
    ensures fs.canonical(fs.resolve(entries[i], p)) in Names(fs, Flatten(parts))
  {
    var t, earlier := fs.resolve(entries[i], p), Flatten(parts[..i]);
    if fs.canonical(t) in Names(fs, earlier) {
      EarlierPartsCount(fs, parts, i);
    } else {
      assert LoadedInTurn(fs, t, seen + Names(fs, earlier), parts[i]);
      LaterPartCounts(fs, parts, i, t);
    }
  }

  lemma EarlierPartsCount(fs: FileSystem, parts: seq<seq<Path>>, i: nat)
    requires i <= |parts|
    ensures Names(fs, Flatten(parts[..i])) <= Names(fs, Flatten(parts))
  {
    assert parts == parts[..i] + parts[i..];
    FlattenConcat(parts[..i], parts[i..]);
    NamesConcat(fs, Flatten(parts[..i]), Flatten(parts[i..]));
  }

  lemma LaterPartCounts(fs: FileSystem, parts: seq<seq<Path>>, i: nat, t: Path)
    requires i < |parts| && parts[i] != [] && parts[i][|parts[i]| - 1] == t
    ensures fs.canonical(t) in Names(fs, Flatten(parts))
  {
    FlattenHolds(parts);
    assert t in parts[i] && parts[i] in parts;
  }

  /** Some entry of a list leads to this file, perhaps by way of others. */
  ghost predicate Brings(fs: FileSystem, p: Path, entries: seq<string>, t: Path) {
    exists e, q :: e in entries && Reachable(fs, fs.resolve(e, p), q) && fs.canonical(q) == fs.canonical(t)
  }

  /** A parseable file that is not the root. */
  ghost predicate Readable(fs: FileSystem, root: Path, t: Path) {
    fs.status(t) == RegularFile && fs.content(t).Parsed? && fs.canonical(t) != fs.canonical(root)
  }

  lemma NotBroughtBefore(fs: FileSystem, p: Path, entries: seq<string>, seen: set<Path>, parts: seq<seq<Path>>, u: Path)
    requires fs.Valid() && BringInTurn(fs, p, entries, seen, parts) && !Brings(fs, p, entries, u)
    ensures fs.canonical(u) !in Names(fs, Flatten(parts))
  {
    forall q | q in Flatten(parts) ensures fs.canonical(q) != fs.canonical(u) {
      BroughtFromEntry(fs, p, entries, seen, parts, q);
    }
  }

  /** The file at this position of an order. */
  ghost predicate IsAt(fs: FileSystem, order: seq<Path>, n: nat, t: Path) {
    n < |order| && fs.canonical(order[n]) == fs.canonical(t)
  }

  lemma PositionOf(fs: FileSystem, order: seq<Path>, t: Path) returns (n: nat)
    requires fs.canonical(t) in Names(fs, order)
    ensures IsAt(fs, order, n, t)
  {
    var p :| p in order && fs.canonical(p) == fs.canonical(t);
    n :| 0 <= n < |order| && order[n] == p;
  }

  lemma InEitherPart(fs: FileSystem, a: seq<Path>, b: seq<Path>, t: Path, u: Path) returns (m: nat, n: nat)
    requires fs.canonical(t) in Names(fs, a) && fs.canonical(u) in Names(fs, b)
    ensures m < n && IsAt(fs, a + b, m, t) && IsAt(fs, a + b, n, u)
  {
    m := PositionOf(fs, a, t);
    var k := PositionOf(fs, b, u);
    n := |a| + k;
  }

  lemma OptionalIsBrought(fs: FileSystem, p: Path, files: seq<string>, optionalFiles: seq<string>, started: set<Path>,
                          required: seq<seq<Path>>, optional: seq<seq<Path>>, j: nat)
    requires fs.Valid() && BringInTurn(fs, p, files, started, required)
    requires BringInTurn(fs, p, optionalFiles, started + Names(fs, Flatten(required)), optional)
    requires started == {fs.canonical(p)} && j < |optionalFiles|
    requires var u := fs.resolve(optionalFiles[j], p); Readable(fs, p, u) && !Brings(fs, p, files, u)
    ensures fs.canonical(fs.resolve(optionalFiles[j], p)) in Names(fs, Flatten(optional))
  {
    NotBroughtBefore(fs, p, files, started, required, fs.resolve(optionalFiles[j], p));
    TargetIsBrought(fs, p, optionalFiles, started + Names(fs, Flatten(required)), optional, j);
  }

  lemma BroughtInOrder(fs: FileSystem, p: Path, files: seq<string>, optionalFiles: seq<string>, started: set<Path>,
                       required: seq<seq<Path>>, optional: seq<seq<Path>>, i: nat, j: nat) returns (m: nat, n: nat)
    requires fs.Valid() && BringInTurn(fs, p, files, started, required)
    requires BringInTurn(fs, p, optionalFiles, started + Names(fs, Flatten(required)), optional)
    requires started == {fs.canonical(p)} && i < |files| && j < |optionalFiles|
    requires Readable(fs, p, fs.resolve(files[i], p)) && Readable(fs, p, fs.resolve(optionalFiles[j], p))
    requires !Brings(fs, p, files, fs.resolve(optionalFiles[j], p))
    ensures m < n && IsAt(fs, Flatten(required) + Flatten(optional), m, fs.resolve(files[i], p))
    ensures IsAt(fs, Flatten(required) + Flatten(optional), n, fs.resolve(optionalFiles[j], p))
  {
    TargetIsBrought(fs, p, files, started, required, i);
    OptionalIsBrought(fs, p, files, optionalFiles, started, required, optional, j);
    m, n := InEitherPart(fs, Flatten(required), Flatten(optional), fs.resolve(files[i], p),
                         fs.resolve(optionalFiles[j], p));
  }

  lemma RootIncludesInTurn(fs: FileSystem, root: Path) returns (required: seq<seq<Path>>, optional: seq<seq<Path>>)
    requires fs.Valid() && fs.content(root).Parsed?
    ensures var d, started := fs.content(root).document.directive, {fs.canonical(root)};
            && Walk(fs, root).order == Flatten(required) + Flatten(optional) + [root]
            && BringInTurn(fs, root, d.files, started, required)
            && BringInTurn(fs, root, d.optionalFiles, started + Names(fs, Flatten(required)), optional)
  {
    required, optional := IncludesAreLoadedInTurn(fs, root, {});
    assert {} + {fs.canonical(root)} == {fs.canonical(root)};
  }

  /** Of the files a root names, each required one is loaded before any optional one that no required entry brings. */
  lemma RequiredComeBeforeOptional(fs: FileSystem, root: Path, i: nat, j: nat) returns (m: nat, n: nat)
    requires fs.Valid() && fs.content(root).Parsed?
    requires var d := fs.content(root).document.directive;
             && i < |d.files| && j < |d.optionalFiles|
             && Readable(fs, root, fs.resolve(d.files[i], root))
             && Readable(fs, root, fs.resolve(d.optionalFiles[j], root))
             && !Brings(fs, root, d.files, fs.resolve(d.optionalFiles[j], root))
    ensures var d, order := fs.content(root).document.directive, Walk(fs, root).order;
            && m < n && IsAt(fs, order, m, fs.resolve(d.files[i], root))
            && IsAt(fs, order, n, fs.resolve(d.optionalFiles[j], root))
  {
    var d := fs.content(root).document.directive;
    var required, optional := RootIncludesInTurn(fs, root);
    m, n := BroughtInOrder(fs, root, d.files, d.optionalFiles, {fs.canonical(root)}, required, optional, i, j);
  }
}
