/** Which file each operation of the store reads, what it makes of it, and what it leaves behind. */
module ConfigDecisions {
  import opened Config
  import opened ConfigMerge
  import opened ConfigStore
  import opened Includes
  import opened Options
  import opened Toml

  import Declarations

  // Which file is read

  /** The search stops at this candidate: it is found, and no earlier one is. */
  ghost predicate StopsAt(w: World, candidates: seq<Path>, i: int) {
    && 0 <= i < |candidates| && w.seen(candidates[i]) != NotFound
    && forall j :: 0 <= j < i ==> w.seen(candidates[j]) == NotFound
  }

  ghost predicate FindsNone(w: World, candidates: seq<Path>) {
    forall c :: c in candidates ==> w.seen(c) == NotFound
  }

  lemma {:induction false} SearchStops(w: World, candidates: seq<Path>, i: nat)
    requires StopsAt(w, candidates, i)
    ensures FirstSeen(w, candidates) == Some(candidates[i])
  {
    if i == 0 {
    } else {
      SearchStops(w, candidates[1..], i - 1);
    }
  }

  lemma SearchFails(w: World, candidates: seq<Path>)
    requires FindsNone(w, candidates)
    ensures FirstSeen(w, candidates) == None
  {
  }

  /** What a state shows of the file an operation read: where it was, what was reported about it, and, if it was
      accepted, that it is in force. */
  ghost predicate ShowsReading(next: Store, w: World, root: Path) {
    && next.diagnostics == w.sorted(Reports(w, root)) && root in next.watchPaths
    && next.missingIncludes == LacksIncludes(w, root)
    && (OutcomeOf(w, root).Accepted? ==> next.config == OutcomeOf(w, root).config && next.rootPath == root)
  }

  lemma SelectedIsShown(defaults: Config, s: Store, op: Operation)
    requires (op.Load? && op.path.None?) || (op.Reload? && !s.explicitPath)
    ensures SelectionFor(s, op).root in SelectionFor(s, op).watchPaths
    ensures ShowsReading(Step(defaults, s, op), op.world, SelectionFor(s, op).root)
  {
    var selection := SelectionFor(s, op);
    WatchedAfterReading(s, op.world, selection, false);
    assert Reports(op.world, selection.root) + [] == Reports(op.world, selection.root);
    assert AfterReading(s, op.world, selection, false).watchPaths
        == Declarations.Declare(Declarations.Declare([], selection.watchPaths), FilesRead(op.world, selection.root));
  }

  /** A load without a path reads the first file of the search order that is found: the user's whenever there is one,
      then those of the system, then the one in the data directory. */
  lemma LoadReadsTheFirstFound(defaults: Config, s: Store, w: World, i: nat)
    requires StopsAt(w, [w.userPath] + w.systemPaths + [w.dataPath], i)
    ensures var root := ([w.userPath] + w.systemPaths + [w.dataPath])[i];
            var next := Step(defaults, s, Load(w, None));
            next.rootPath == root && ShowsReading(next, w, root)
  {
    SearchStops(w, Candidates(w), i);
    SelectedIsShown(defaults, s, Load(w, None));
  }

  /** With the user's file in place no other is read. */
  lemma UserFileComesFirst(defaults: Config, s: Store, w: World)
    requires w.seen(w.userPath) != NotFound
    ensures var next := Step(defaults, s, Load(w, None));
            next.rootPath == w.userPath && ShowsReading(next, w, w.userPath)
  {
    LoadReadsTheFirstFound(defaults, s, w, 0);
  }

  lemma OthersComeFirst(w: World)
    requires w.dataPath !in [w.userPath] + w.systemPaths && !FindsNone(w, [w.userPath] + w.systemPaths)
    ensures var found := FirstSeen(w, Candidates(w)); found.Some? && found.value != w.dataPath
  {
    var others := [w.userPath] + w.systemPaths;
    var i := FirstFound(w, others, 0);
    assert others[i] in others && Candidates(w)[i] == others[i];
    SearchStops(w, Candidates(w), i);
  }

  lemma DataFileIsLeft(w: World)
    requires FindsNone(w, [w.userPath] + w.systemPaths)
    ensures FirstSeen(w, Candidates(w)) == if w.seen(w.dataPath) != NotFound then Some(w.dataPath) else None
  {
    var others := [w.userPath] + w.systemPaths;
    assert Candidates(w) == others + [w.dataPath];
    assert forall j :: 0 <= j < |others| ==> others[j] in others;
    if w.seen(w.dataPath) != NotFound {
      SearchStops(w, Candidates(w), |others|);
    } else {
      SearchFails(w, Candidates(w));
    }
  }

  /** The file in the data directory is read only when nothing else is found. */
  lemma DataFileComesLast(defaults: Config, s: Store, w: World)
    requires w.dataPath !in [w.userPath] + w.systemPaths
    ensures var next := Step(defaults, s, Load(w, None));
            && ShowsReading(next, w, next.rootPath)
            && (next.rootPath == w.dataPath <==>
                  w.seen(w.dataPath) != NotFound && FindsNone(w, [w.userPath] + w.systemPaths))
  {
    SelectedIsShown(defaults, s, Load(w, None));
    if FindsNone(w, [w.userPath] + w.systemPaths) {
      DataFileIsLeft(w);
    } else {
      OthersComeFirst(w);
    }
  }

  /** When nothing is found a load looks where the user's file would be. */
  lemma LoadFindsNothing(defaults: Config, s: Store, w: World)
    requires FindsNone(w, [w.userPath] + w.systemPaths + [w.dataPath])
    ensures var next := Step(defaults, s, Load(w, None));
            next.rootPath == w.userPath && ShowsReading(next, w, w.userPath)
  {
    SearchFails(w, Candidates(w));
    SelectedIsShown(defaults, s, Load(w, None));
  }

  ghost function FirstFound(w: World, candidates: seq<Path>, from: nat): (i: nat)
    requires from <= |candidates| && !FindsNone(w, candidates[from..])
    ensures from <= i < |candidates| && w.seen(candidates[i]) != NotFound
    ensures forall j :: from <= j < i ==> w.seen(candidates[j]) == NotFound
    decreases |candidates| - from
  {
    if from < |candidates| && w.seen(candidates[from]) == NotFound then
      assert candidates[from..] == [candidates[from]] + candidates[from + 1..];
      FirstFound(w, candidates, from + 1)
    else from
  }

  /** A reload of an implicit configuration searches anew in the order of the last load. */
  lemma ReloadReadsTheFirstFound(defaults: Config, s: Store, w: World, i: nat)
    requires !s.explicitPath && StopsAt(w, s.candidates, i)
    ensures ShowsReading(Step(defaults, s, Reload(w)), w, s.candidates[i])
  {
    SearchStops(w, s.candidates, i);
    SelectedIsShown(defaults, s, Reload(w));
  }

  /** When it finds nothing it looks where it looked first. */
  lemma ReloadFindsNothing(defaults: Config, s: Store, w: World)
    requires !s.explicitPath && FindsNone(w, s.candidates)
    ensures ShowsReading(Step(defaults, s, Reload(w)), w, if s.candidates == [] then w.userPath else s.candidates[0])
  {
    SearchFails(w, s.candidates);
    SelectedIsShown(defaults, s, Reload(w));
  }

  /** An operation that names its file, or follows one that did, reads that file and no other. */
  lemma ExplicitReadsItsFile(defaults: Config, s: Store, op: Operation, root: Path)
    requires match op
             case Load(_, path) => path == Some(root)
             case Replace(_, path) => path == root
             case Reload(_) => s.explicitPath && s.rootPath == root
    ensures var next, w := Step(defaults, s, op), op.world;
            && (!op.Replace? || OutcomeOf(w, root).Accepted? ==>
                  && root in next.watchPaths && next.missingIncludes == LacksIncludes(w, root)
                  && next.diagnostics
                     == w.sorted(Reports(w, root) + if w.status(root).NotFound? then [FileNotFound(root)] else [])
                  && next.rootPath == root && next.explicitPath && (!op.Reload? ==> next.candidates == []))
            && (OutcomeOf(w, root).Accepted? ==> next.config == OutcomeOf(w, root).config)
  {
    WatchedAfterReading(s, op.world, Explicitly(root), true);
    OutcomesExactly(op.world, root);
  }

  // What is made of it

  /** The merged table of a file speaks of devices. */
  predicate NamesDevices(m: MergeResult) {
    "drm" in m.merged
  }

  /** A file is accepted exactly when it can be merged without an error, a missing include cannot hide part of a device
      policy, and reading it to the end reports no error. */
  lemma OutcomesExactly(w: World, root: Path)
    ensures OutcomeOf(w, root).Missing? <==> w.status(root) == NotFound
    ensures forall config :: OutcomeOf(w, root) == Accepted(config) <==>
              && w.status(root) == RegularFile && w.merge(root).Some?
              && var m := w.merge(root).value;
                 && !m.hadError && !(NamesDevices(m) && (m.missingIncludes || m.missingOptionalIncludes))
                 && w.read(m).Finished? && w.read(m).config == config
                 && !HasError(w.mergeReports(root)) && !HasError(w.read(m).reports)
  {
    if w.status(root) == RegularFile && w.merge(root).Some? && w.read(w.merge(root).value).Finished? {
      HasErrorConcat(w.mergeReports(root), w.read(w.merge(root).value).reports);
    }
  }

  lemma HasErrorConcat(a: seq<Diagnostic>, b: seq<Diagnostic>)
    ensures HasError(a + b) <==> HasError(a) || HasError(b)
  {
    assert forall d :: d in a + b <==> d in a || d in b;
  }

  /** An operation takes effect exactly when its file is accepted; a load also when defaults may stand in for the file,
      or when it was looking for one and there is none; a reload only in the last case, if its search found nothing. */
  lemma TakesEffectExactly(defaults: Config, s: Store, op: Operation)
    ensures var root := SelectionFor(s, op).root;
            Step(defaults, s, op).generation == s.generation + 1 <==>
              || OutcomeOf(op.world, root).Accepted?
              || (op.Load? && OutcomeOf(op.world, root).DefaultsAllowed?)
              || (op.Load? && op.path.None? && op.world.status(root) == NotFound)
              || (op.Reload? && !s.explicitPath && FindsNone(op.world, s.candidates)
                  && op.world.status(root) == NotFound)
  {
    var root := SelectionFor(s, op).root;
    OutcomesExactly(op.world, root);
    if op.Reload? && !s.explicitPath && FindsNone(op.world, s.candidates) {
      SearchFails(op.world, s.candidates);
    }
  }

  /** A load or reload without a path that finds no file at all runs on the defaults, and says so. */
  lemma NoFileMeansDefaults(defaults: Config, s: Store, op: Operation)
    requires (op.Load? && op.path.None?) || (op.Reload? && !s.explicitPath && FindsNone(op.world, s.candidates))
    requires op.world.status(SelectionFor(s, op).root) == NotFound
    ensures var next := Step(defaults, s, op);
            next.config == defaults && next.fileMissing && next.generation == s.generation + 1
  {
    if op.Reload? {
      SearchFails(op.world, s.candidates);
    }
  }

  /** Some file that is loaded includes a file, required or not, that does not exist. */
  ghost predicate MissesInclude(fs: FileSystem, root: Path)
    requires fs.Valid()
  {
    exists p :: p in Walk(fs, root).order
                && (Lacks(fs, p, DirectiveAt(fs, p).files) || Lacks(fs, p, DirectiveAt(fs, p).optionalFiles))
  }

  lemma MissingIsNoticed(w: World, root: Path)
    requires w.Valid() && w.merge(root).Some?
    ensures w.merge(root).value.missingIncludes || w.merge(root).value.missingOptionalIncludes
        <==> MissesInclude(w.fs, root)
  {
    ReportsEveryFailure(w.fs, root);
    assert Describes(w.merge(root).value, w.fs, root);
  }

  /** A store notes that an include is missing exactly when some file it loaded requires one that does not exist;
      missing optional includes are not held against it. */
  lemma MissingIncludesAreNoted(defaults: Config, s: Store, op: Operation, root: Path)
    requires op.world.Valid() && !op.Replace? && root == SelectionFor(s, op).root
    ensures Step(defaults, s, op).missingIncludes <==>
              && op.world.status(root) == RegularFile && op.world.merge(root).Some?
              && exists p :: p in Walk(op.world.fs, root).order
                             && Lacks(op.world.fs, p, DirectiveAt(op.world.fs, p).files)
  {
    if op.world.merge(root).Some? {
      RequiredIsNoticed(op.world, root);
    }
    NotedAsRead(defaults, s, op);
  }

  lemma RequiredIsNoticed(w: World, root: Path)
    requires w.Valid() && w.merge(root).Some?
    ensures w.merge(root).value.missingIncludes <==>
              exists p :: p in Walk(w.fs, root).order && Lacks(w.fs, p, DirectiveAt(w.fs, p).files)
  {
    ReportsEveryFailure(w.fs, root);
    assert Describes(w.merge(root).value, w.fs, root);
  }

  lemma NotedAsRead(defaults: Config, s: Store, op: Operation)
    requires !op.Replace?
    ensures var w, root := op.world, SelectionFor(s, op).root;
            Step(defaults, s, op).missingIncludes
            == (w.status(root) == RegularFile && w.merge(root).Some? && w.merge(root).value.missingIncludes)
  {
  }

  lemma HiddenPolicyFails(defaults: Config, s: Store, op: Operation, root: Path)
    requires root == SelectionFor(s, op).root && op.world.status(root) == RegularFile && op.world.merge(root).Some?
    requires HidesPolicy(op.world.merge(root).value)
    ensures var next := Step(defaults, s, op);
            next.config == s.config && next.fileMissing == s.fileMissing && next.generation == s.generation
  {
    FailureKeepsWhatIsInForce(defaults, s, op);
  }

  /** An include that is missing, required or not, keeps every document that speaks of devices from taking effect. */
  lemma MissingIncludeBlocksPolicy(defaults: Config, s: Store, op: Operation, root: Path)
    requires op.world.Valid() && root == SelectionFor(s, op).root
    requires op.world.status(root) == RegularFile && op.world.merge(root).Some?
    requires NamesDevices(op.world.merge(root).value) && MissesInclude(op.world.fs, root)
    ensures var next := Step(defaults, s, op);
            next.config == s.config && next.fileMissing == s.fileMissing && next.generation == s.generation
  {
    MissingIsNoticed(op.world, root);
    HiddenPolicyFails(defaults, s, op, root);
  }

  // What is left behind

  /** What merging and reading reported about a file that was read. */
  function Found(w: World, root: Path): seq<Diagnostic>
    requires w.merge(root).Some?
  {
    var m := w.merge(root).value;
    w.mergeReports(root)
    + if m.hadError || (NamesDevices(m) && (m.missingIncludes || m.missingOptionalIncludes)) then []
      else w.read(m).reports
  }

  /** What the store itself reports about such a file: only that it could not go on. */
  function Added(w: World, root: Path): seq<Diagnostic>
    requires w.merge(root).Some?
  {
    var m := w.merge(root).value;
    if NamesDevices(m) && (m.missingIncludes || m.missingOptionalIncludes) then [HIDDEN_POLICY]
    else if !m.hadError && w.read(m).Interrupted? then [LOAD_ERROR]
    else []
  }

  lemma ReportsAre(w: World, root: Path)
    requires w.status(root) == RegularFile && w.merge(root).Some?
    ensures Reports(w, root) == Found(w, root) + Added(w, root)
  {
    var m := w.merge(root).value;
    if !m.hadError && !HidesPolicy(m) && w.read(m).Interrupted? {
      assert w.mergeReports(root) + (w.read(m).reports + [LOAD_ERROR])
          == w.mergeReports(root) + w.read(m).reports + [LOAD_ERROR];
    }
  }

  lemma SortedReports(defaults: Config, s: Store, op: Operation)
    requires op.world.status(SelectionFor(s, op).root) == RegularFile && !op.Replace?
    ensures Step(defaults, s, op).diagnostics == op.world.sorted(Reports(op.world, SelectionFor(s, op).root))
  {
    var reports := Reports(op.world, SelectionFor(s, op).root);
    assert reports + [] == reports;
  }

  /** Nothing reported about a file is dropped. */
  lemma NoReportIsDropped(defaults: Config, s: Store, op: Operation)
    requires op.world.Valid() && !op.Replace?
    requires var w, root := op.world, SelectionFor(s, op).root; w.status(root) == RegularFile && w.merge(root).Some?
    ensures var w, root := op.world, SelectionFor(s, op).root;
            multiset(Step(defaults, s, op).diagnostics) == multiset(Found(w, root) + Added(w, root))
  {
    SortedReports(defaults, s, op);
    ReportsAre(op.world, SelectionFor(s, op).root);
  }
}
