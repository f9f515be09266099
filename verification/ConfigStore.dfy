/** The loaded configuration and what was learned while loading it, over any sequence of loads, replacements and
    reloads. */
module ConfigStore {
  import opened Change
  import opened Config
  import opened ConfigMerge
  import opened Declarations
  import opened Includes
  import opened Options
  import opened Sequences
  import opened Toml

  datatype Severity = Error | Warning
  datatype Diagnostic = Diagnostic(severity: Severity, text: string)

  /** Reading the merged table ends, or is interrupted by an exception. */
  datatype Reading = Finished(config: Config, reports: seq<Diagnostic>) | Interrupted(reports: seq<Diagnostic>)

  /** What one operation finds outside the store. A file may change between looking for it (`seen`) and reading it
      (`status`). Merging yields None when it throws. */
  datatype World = World(
    fs: FileSystem,
    seen: Path -> Status,
    status: Path -> Status,
    merge: Path -> Option<MergeResult>,
    mergeReports: Path -> seq<Diagnostic>,
    read: MergeResult -> Reading,
    sorted: seq<Diagnostic> -> seq<Diagnostic>,
    userPath: Path, systemPaths: seq<Path>, dataPath: Path)
  {
    ghost predicate Valid() {
      && fs.Valid()
      && (forall root :: merge(root).Some? ==> Describes(merge(root).value, fs, root))
      && (forall d :: multiset(sorted(d)) == multiset(d))
    }
  }

  function Candidates(w: World): seq<Path> {
    [w.userPath] + w.systemPaths + [w.dataPath]
  }

  datatype Outcome = Accepted(config: Config) | Missing | DefaultsAllowed | Fatal

  const LOAD_ERROR := Diagnostic(Error, "config load error")
  const HIDDEN_POLICY := Diagnostic(Error, "cannot safely load DRM policy while an include is missing")

  function CannotInspect(path: Path): Diagnostic {
    Diagnostic(Error, "cannot inspect config file " + path)
  }

  function FileNotFound(path: Path): Diagnostic {
    Diagnostic(Error, "config file not found: " + path)
  }

  predicate IsError(d: Diagnostic) {
    d.severity == Error
  }

  function Whole(d: Diagnostic): Diagnostic {
    d
  }

  predicate HasError(reports: seq<Diagnostic>) {
    exists d :: d in reports && d.severity == Error
  }

  /** `hasRequestedDrmPolicy` */
  predicate RequestsPolicy(table: Entries) {
    "drm" in table && (table["drm"].Table? ==> table["drm"].entries != map[])
  }

  /** A missing include may hide part of a policy the table does state. */
  predicate HidesPolicy(m: MergeResult) {
    (m.missingIncludes || m.missingOptionalIncludes) && "drm" in m.merged
  }

  // What reading a root gives

  function Reports(w: World, root: Path): seq<Diagnostic> {
    match w.status(root)
    case NotFound => []
    case Unusable => [CannotInspect(root)]
    case RegularFile =>
      match w.merge(root)
      case None => [LOAD_ERROR]
      case Some(m) =>
        w.mergeReports(root)
        + if HidesPolicy(m) then [HIDDEN_POLICY]
          else if m.hadError then []
          else match w.read(m)
               case Finished(_, reports) => reports
               case Interrupted(reports) => reports + [LOAD_ERROR]
  }

  function OutcomeOf(w: World, root: Path): Outcome {
    match w.status(root)
    case NotFound => Missing
    case Unusable => Fatal
    case RegularFile =>
      match w.merge(root)
      case None => DefaultsAllowed
      case Some(m) =>
        if HidesPolicy(m) || m.hadError then Fatal
        else if w.read(m).Finished? && !HasError(Reports(w, root)) then Accepted(w.read(m).config)
        else if RequestsPolicy(m.merged) then Fatal
        else DefaultsAllowed
  }

  function FilesRead(w: World, root: Path): seq<Path> {
    if w.status(root).RegularFile? && w.merge(root).Some? then w.merge(root).value.loadedFiles else []
  }

  function LacksIncludes(w: World, root: Path): bool {
    w.status(root).RegularFile? && w.merge(root).Some? && w.merge(root).value.missingIncludes
  }

  // The store's operations on values

  datatype Store = Store(
    config: Config, diagnostics: seq<Diagnostic>, watchPaths: seq<Path>, candidates: seq<Path>, rootPath: Path,
    explicitPath: bool, fileMissing: bool, missingIncludes: bool, generation: nat)

  datatype Selection = Selection(root: Path, watchPaths: seq<Path>, found: bool)

  function FirstSeen(w: World, candidates: seq<Path>): (r: Option<Path>)
    ensures r.Some? ==> r.value in candidates && !w.seen(r.value).NotFound?
    ensures r.None? ==> forall c :: c in candidates ==> w.seen(c).NotFound?
  {
    if candidates == [] then None
    else if !w.seen(candidates[0]).NotFound? then Some(candidates[0])
    else
      assert candidates == [candidates[0]] + candidates[1..];
      FirstSeen(w, candidates[1..])
  }

  function SelectDefault(w: World, candidates: seq<Path>): Selection {
    var first := FirstSeen(w, candidates);
    if first.Some? then Selection(first.value, candidates, true)
    else if candidates == [] then Selection(w.userPath, [w.userPath], false)
    else Selection(candidates[0], candidates, false)
  }

  function Explicitly(root: Path): Selection {
    Selection(root, [root], false)
  }

  /** The store once a root was read and its diagnostics sorted, before anything is committed. */
  function AfterReading(s: Store, w: World, selection: Selection, explicitly: bool): Store {
    var root := selection.root;
    var extra := if explicitly && OutcomeOf(w, root).Missing? then [FileNotFound(root)] else [];
    s.(diagnostics := w.sorted(Reports(w, root) + extra),
       watchPaths := Declare(Declare([], selection.watchPaths), FilesRead(w, root)),
       missingIncludes := LacksIncludes(w, root))
  }

  function Committed(s: Store, config: Config, root: Path, missing: bool): Store {
    s.(config := config, rootPath := root, fileMissing := missing, generation := s.generation + 1)
  }

  datatype Operation = Load(world: World, path: Option<Path>) | Replace(world: World, root: Path) | Reload(world: World)

  /** Where an operation reads from. */
  function SelectionFor(s: Store, op: Operation): Selection {
    match op
    case Load(w, path) => if path.Some? then Explicitly(path.value) else SelectDefault(w, Candidates(w))
    case Replace(_, root) => Explicitly(root)
    case Reload(w) => if s.explicitPath then Explicitly(s.rootPath) else SelectDefault(w, s.candidates)
  }

  function OutcomeFor(s: Store, op: Operation): Outcome {
    OutcomeOf(op.world, SelectionFor(s, op).root)
  }

  predicate Succeeds(s: Store, op: Operation) {
    match OutcomeFor(s, op)
    case Accepted(_) => true
    case Fatal => false
    case Missing =>
      (match op
       case Load(_, path) => path.None?
       case Replace(_, _) => false
       case Reload(_) => !s.explicitPath && !SelectionFor(s, op).found)
    case DefaultsAllowed => op.Load?
  }

  function InForce(outcome: Outcome, defaults: Config): Config {
    if outcome.Accepted? then outcome.config else defaults
  }

  /** One operation. Loading moves the root and the search order before it reads, and keeps them when it fails. */
  function Step(defaults: Config, s: Store, op: Operation): Store {
    var selection, outcome := SelectionFor(s, op), OutcomeFor(s, op);
    match op
    case Load(w, path) =>
      var moved := s.(candidates := if path.Some? then [] else Candidates(w),
                      rootPath := selection.root, explicitPath := path.Some?);
      var reading := AfterReading(moved, w, selection, path.Some?);
      if Succeeds(s, op) then Committed(reading, InForce(outcome, defaults), selection.root, outcome.Missing?)
      else reading
    case Replace(w, _) =>
      if Succeeds(s, op) then
        var moved := AfterReading(s, w, selection, true).(candidates := [], explicitPath := true);
        Committed(moved, InForce(outcome, defaults), selection.root, false)
      else s
    case Reload(w) =>
      var reading := AfterReading(s, w, selection, s.explicitPath);
      if Succeeds(s, op) then Committed(reading, InForce(outcome, defaults), selection.root, outcome.Missing?)
      else reading
  }

  /** What an operation that took effect tells the rest of the program to recompute. */
  ghost function Recompute(s: Store, next: Config): Effects {
    if s.generation == 0 then EVERYTHING else EffectsBetween(s.config, next)
  }

  const EVERYTHING := Effects(true, true, true, true, true, true, true, true, true, true, true, true, true)

  method Errors(reports: seq<Diagnostic>) returns (errors: seq<Diagnostic>)
    ensures errors == Filtered(reports, IsError, Whole)
  {
    errors := [];
    for i := 0 to |reports|
      invariant errors == Filtered(reports[..i], IsError, Whole)
    {
      FilteredSnoc(reports, i, IsError, Whole);
      if IsError(reports[i]) {
        errors := errors + [reports[i]];
      }
    }
    assert reports[..|reports|] == reports;
  }

  class ConfigStore {
    const defaults: Config
    var config: Config
    var diagnostics: seq<Diagnostic>
    var watchPaths: seq<Path>
    var candidates: seq<Path>
    var rootPath: Path
    var explicitPath: bool
    var fileMissing: bool
    var missingIncludes: bool
    var generation: nat

    ghost function State(): Store
      reads this
    {
      Store(config, diagnostics, watchPaths, candidates, rootPath, explicitPath, fileMissing, missingIncludes,
            generation)
    }

    constructor (initial: Config, defaults: Config)
      ensures State() == Store(initial, [], [], [], "", false, false, false, 0) && this.defaults == defaults
    {
      this.defaults, config := defaults, initial;
      diagnostics, watchPaths, candidates, rootPath := [], [], [], "";
      explicitPath, fileMissing, missingIncludes, generation := false, false, false, 0;
    }

    method AddWatchPath(path: Path)
      modifies this`watchPaths
      ensures watchPaths == Declare(old(watchPaths), [path])
    {
      assert [path][..0] == [];
      if path !in watchPaths {
        watchPaths := watchPaths + [path];
      }
    }

    method AddWatchPaths(paths: seq<Path>)
      modifies this`watchPaths
      ensures watchPaths == Declare(old(watchPaths), paths)
    {
      for i := 0 to |paths|
        invariant watchPaths == Declare(old(watchPaths), paths[..i])
      {
        assert paths[..i + 1] == paths[..i] + [paths[i]];
        DeclareConcat(old(watchPaths), paths[..i], [paths[i]]);
        AddWatchPath(paths[i]);
      }
      assert paths[..|paths|] == paths;
    }

    method BeginLoad(paths: seq<Path>)
      modifies this`diagnostics, this`missingIncludes, this`watchPaths
      ensures diagnostics == [] && !missingIncludes && watchPaths == Declare([], paths)
    {
      diagnostics, missingIncludes, watchPaths := [], false, [];
      AddWatchPaths(paths);
    }

    /** `parseConfig` */
    method ParseConfig(w: World, root: Path) returns (outcome: Outcome)
      requires w.status(root).RegularFile? && diagnostics == [] && !missingIncludes
      modifies this`diagnostics, this`missingIncludes, this`watchPaths
      ensures outcome == OutcomeOf(w, root) && diagnostics == Reports(w, root)
      ensures missingIncludes == LacksIncludes(w, root) && watchPaths == Declare(old(watchPaths), FilesRead(w, root))
    {
      var merged := w.merge(root);
      if merged.None? {
        diagnostics := diagnostics + [LOAD_ERROR];
        return DefaultsAllowed;
      }
      var m := merged.value;
      var policyRequested := RequestsPolicy(m.merged);
      missingIncludes := m.missingIncludes;
      diagnostics := diagnostics + w.mergeReports(root);
      AddWatchPaths(m.loadedFiles);
      if (m.missingIncludes || m.missingOptionalIncludes) && "drm" in m.merged {
        diagnostics := diagnostics + [HIDDEN_POLICY];
        return Fatal;
      }
      if m.hadError {
        return Fatal;
      }
      match w.read(m) {
        case Finished(loaded, reports) =>
          diagnostics := diagnostics + reports;
          if HasError(diagnostics) {
            return if policyRequested then Fatal else DefaultsAllowed;
          }
          return Accepted(loaded);
        case Interrupted(reports) =>
          diagnostics := diagnostics + reports + [LOAD_ERROR];
          assert diagnostics == w.mergeReports(root) + (reports + [LOAD_ERROR]);
          return if policyRequested then Fatal else DefaultsAllowed;
      }
    }

    method ParseInto(w: World, root: Path, paths: seq<Path>) returns (outcome: Outcome)
      modifies this`diagnostics, this`missingIncludes, this`watchPaths
      ensures outcome == OutcomeOf(w, root) && diagnostics == Reports(w, root)
      ensures missingIncludes == LacksIncludes(w, root)
      ensures watchPaths == Declare(Declare([], paths), FilesRead(w, root))
    {
      BeginLoad(paths);
      match w.status(root) {
        case NotFound =>
          outcome := Missing;
        case Unusable =>
          diagnostics := diagnostics + [CannotInspect(root)];
          outcome := Fatal;
        case RegularFile =>
          outcome := ParseConfig(w, root);
      }
    }

    /** Reads a selection, adds what is missing to the diagnostics, and sorts them, as every operation does. */
    method ReadSelection(w: World, selection: Selection, explicitly: bool) returns (outcome: Outcome)
      modifies this`diagnostics, this`missingIncludes, this`watchPaths
      ensures outcome == OutcomeOf(w, selection.root)
      ensures State() == AfterReading(old(State()), w, selection, explicitly)
    {
      outcome := ParseInto(w, selection.root, selection.watchPaths);
      if outcome.Missing? && explicitly {
        diagnostics := diagnostics + [FileNotFound(selection.root)];
      } else {
        assert diagnostics == diagnostics + [];
      }
      diagnostics := w.sorted(diagnostics);
    }

    method Commit(next: Config, root: Path, missing: bool) returns (effects: Effects)
      modifies this`config, this`rootPath, this`fileMissing, this`generation
      ensures State() == Committed(old(State()), next, root, missing)
      ensures effects == Recompute(old(State()), next)
    {
      if generation == 0 {
        effects := EVERYTHING;
      } else {
        effects := Between(config, next);
      }
      config, rootPath, fileMissing, generation := next, root, missing, generation + 1;
    }

    /** Moves the root and the search order to what a load reads from. */
    method Select(w: World, path: Option<Path>) returns (selection: Selection)
      modifies this`candidates, this`rootPath, this`explicitPath
      ensures selection == SelectionFor(old(State()), Load(w, path))
      ensures State() == old(State()).(candidates := if path.Some? then [] else Candidates(w),
                                       rootPath := selection.root, explicitPath := path.Some?)
    {
      if path.Some? {
        candidates := [];
        selection := Explicitly(path.value);
      } else {
        candidates := Candidates(w);
        selection := SelectDefault(w, candidates);
      }
      rootPath, explicitPath := selection.root, path.Some?;
    }

    method LoadConfig(w: World, path: Option<Path>) returns (loaded: bool)
      modifies this
      ensures loaded == Succeeds(old(State()), Load(w, path))
      ensures State() == Step(defaults, old(State()), Load(w, path))
    {
      var selection := Select(w, path);
      var outcome := ReadSelection(w, selection, explicitPath);
      if outcome.Fatal? || (outcome.Missing? && explicitPath) {
        return false;
      }
      var _ := Commit(InForce(outcome, defaults), selection.root, outcome.Missing?);
      return true;
    }

    /** Puts a replacement in force, which is explicit from then on. */
    method Adopt(next: Config, root: Path) returns (effects: Effects)
      modifies this`config, this`rootPath, this`fileMissing, this`generation, this`candidates, this`explicitPath
      ensures State() == Committed(old(State()).(candidates := [], explicitPath := true), next, root, false)
      ensures effects == Recompute(old(State()), next)
    {
      candidates := [];
      rootPath, explicitPath := root, true;
      effects := Commit(next, root, false);
    }

    /** The effects are None when the operation failed; `errors` then lists why. */
    method ReplaceConfig(w: World, root: Path) returns (effects: Option<Effects>, errors: seq<Diagnostic>)
      modifies this
      ensures State() == Step(defaults, old(State()), Replace(w, root))
      ensures effects
           == if Succeeds(old(State()), Replace(w, root)) then Some(Recompute(old(State()), config)) else None
      ensures effects.None? ==>
        errors == Filtered(AfterReading(old(State()), w, Explicitly(root), true).diagnostics, IsError, Whole)
    {
      var wasMissing, wereReported, wereWatched := missingIncludes, diagnostics, watchPaths;
      var outcome := ReadSelection(w, Explicitly(root), true);
      errors := [];
      if !outcome.Accepted? {
        errors := Errors(diagnostics);
        diagnostics, missingIncludes, watchPaths := wereReported, wasMissing, wereWatched;
        return None, errors;
      }
      var changed := Adopt(outcome.config, root);
      return Some(changed), errors;
    }

    method ReloadConfig(w: World) returns (effects: Option<Effects>)
      modifies this
      ensures State() == Step(defaults, old(State()), Reload(w))
      ensures effects == if Succeeds(old(State()), Reload(w)) then Some(Recompute(old(State()), config)) else None
    {
      var selection := if explicitPath then Explicitly(rootPath) else SelectDefault(w, candidates);
      var outcome := ReadSelection(w, selection, explicitPath);
      if !outcome.Accepted? {
        if !explicitPath && !selection.found && outcome.Missing? {
          var changed := Commit(defaults, selection.root, true);
          return Some(changed);
        }
        return None;
      }
      var changed := Commit(outcome.config, selection.root, false);
      return Some(changed);
    }
  }

  // What holds over every run

  ghost function Run(defaults: Config, s: Store, ops: seq<Operation>): Store {
    if ops == [] then s else Step(defaults, Run(defaults, s, ops[..|ops| - 1]), ops[|ops| - 1])
  }

  ghost function Successes(defaults: Config, s: Store, ops: seq<Operation>): nat {
    if ops == [] then 0
    else
      var n := |ops| - 1;
      Successes(defaults, s, ops[..n]) + if Succeeds(Run(defaults, s, ops[..n]), ops[n]) then 1 else 0
  }

  /** What a failure leaves alone: everything for a replacement, and all that is in force for any operation. */
  lemma FailureKeepsWhatIsInForce(defaults: Config, s: Store, op: Operation)
    requires !Succeeds(s, op)
    ensures var next := Step(defaults, s, op);
            && next.config == s.config && next.fileMissing == s.fileMissing && next.generation == s.generation
            && (op.Replace? ==> next == s)
            && (op.Reload? ==> next.rootPath == s.rootPath && next.explicitPath == s.explicitPath
                               && next.candidates == s.candidates)
  {
  }

  /** A configuration an operation may put in force: one read without a single error from a regular file, or the
      built-in defaults, which a replacement never falls back to. */
  ghost predicate MayPutInForce(defaults: Config, op: Operation, c: Config) {
    || (c == defaults && !op.Replace?)
    || exists root ::
         && op.world.status(root).RegularFile? && OutcomeOf(op.world, root) == Accepted(c)
         && !HasError(Reports(op.world, root))
  }

  lemma StepPutsInForce(defaults: Config, s: Store, op: Operation)
    requires Succeeds(s, op)
    ensures MayPutInForce(defaults, op, Step(defaults, s, op).config)
    ensures Step(defaults, s, op).generation == s.generation + 1
  {
    var root := SelectionFor(s, op).root;
    if OutcomeOf(op.world, root).Accepted? {
      assert !HasError(Reports(op.world, root));
    }
  }

  /** The last operation that took effect. */
  ghost predicate LastSuccess(defaults: Config, s: Store, ops: seq<Operation>, i: int) {
    && 0 <= i < |ops| && Succeeds(Run(defaults, s, ops[..i]), ops[i])
    && Successes(defaults, s, ops[..i + 1]) == Successes(defaults, s, ops)
  }

  /** The generation counts the operations that took effect; while there are none, nothing in force changes. */
  lemma {:induction false} GenerationCountsSuccesses(defaults: Config, s: Store, ops: seq<Operation>)
    ensures var now := Run(defaults, s, ops);
            && now.generation == s.generation + Successes(defaults, s, ops)
            && (now.generation == s.generation ==> now.config == s.config && now.fileMissing == s.fileMissing)
  {
    if ops != [] {
      var n := |ops| - 1;
      GenerationCountsSuccesses(defaults, s, ops[..n]);
      var before := Run(defaults, s, ops[..n]);
      if Succeeds(before, ops[n]) {
        StepPutsInForce(defaults, before, ops[n]);
      } else {
        FailureKeepsWhatIsInForce(defaults, before, ops[n]);
      }
    }
  }

  lemma StaysLastSuccess(defaults: Config, s: Store, ops: seq<Operation>, i: nat)
    requires ops != [] && !Succeeds(Run(defaults, s, ops[..|ops| - 1]), ops[|ops| - 1])
    requires LastSuccess(defaults, s, ops[..|ops| - 1], i)
    ensures LastSuccess(defaults, s, ops, i)
  {
    var earlier := ops[..|ops| - 1];
    assert Successes(defaults, s, ops) == Successes(defaults, s, earlier);
    assert earlier[..i] == ops[..i] && earlier[..i + 1] == ops[..i + 1] && earlier[i] == ops[i];
  }

  /** Once some operation took effect, the last one that did put in force what is in force now. */
  lemma {:induction false} InForceOverRuns(defaults: Config, s: Store, ops: seq<Operation>) returns (i: nat)
    requires Successes(defaults, s, ops) != 0
    ensures LastSuccess(defaults, s, ops, i) && MayPutInForce(defaults, ops[i], Run(defaults, s, ops).config)
  {
    var n := |ops| - 1;
    var before := Run(defaults, s, ops[..n]);
    if Succeeds(before, ops[n]) {
      StepPutsInForce(defaults, before, ops[n]);
      assert ops[..n + 1] == ops;
      i := n;
    } else {
      FailureKeepsWhatIsInForce(defaults, before, ops[n]);
      i := InForceOverRuns(defaults, s, ops[..n]);
      StaysLastSuccess(defaults, s, ops, i);
    }
  }

  /** What is true of the store once it has loaded, whatever happens afterwards. */
  ghost predicate Settled(defaults: Config, s: Store) {
    && s.rootPath in s.watchPaths
    && (!s.explicitPath ==>
          && s.candidates != [] && s.rootPath in s.candidates
          && forall c :: c in s.candidates ==> c in s.watchPaths)
    && NoDuplicates(s.watchPaths)
    && (s.fileMissing ==> s.config == defaults)
  }

  lemma WatchedAfterReading(s: Store, w: World, selection: Selection, explicitly: bool)
    ensures var paths := AfterReading(s, w, selection, explicitly).watchPaths;
            && NoDuplicates(paths)
            && forall p :: p in paths <==> p in selection.watchPaths || p in FilesRead(w, selection.root)
  {
    DeclareHolds([], selection.watchPaths);
    DeclareHolds(Declare([], selection.watchPaths), FilesRead(w, selection.root));
  }

  lemma LoadSettles(defaults: Config, s: Store, w: World, path: Option<Path>)
    requires s.fileMissing ==> s.config == defaults
    ensures Settled(defaults, Step(defaults, s, Load(w, path)))
  {
    var selection := SelectionFor(s, Load(w, path));
    var moved := s.(candidates := if path.Some? then [] else Candidates(w),
                    rootPath := selection.root, explicitPath := path.Some?);
    WatchedAfterReading(moved, w, selection, path.Some?);
  }

  lemma StepKeepsSettled(defaults: Config, s: Store, op: Operation)
    requires Settled(defaults, s)
    ensures Settled(defaults, Step(defaults, s, op))
  {
    match op
    case Load(w, path) => LoadSettles(defaults, s, w, path);
    case Replace(w, root) => WatchedAfterReading(s, w, Explicitly(root), true);
    case Reload(w) => WatchedAfterReading(s, w, SelectionFor(s, op), s.explicitPath);
  }

  /** From the first load on, the root and every file of the search order stay watched, no file is watched twice, and a
      session without a file runs on the defaults. */
  lemma {:induction false} AlwaysSettled(defaults: Config, s: Store, ops: seq<Operation>)
    requires s.fileMissing ==> s.config == defaults
    requires ops != [] && ops[0].Load?
    ensures Settled(defaults, Run(defaults, s, ops))
  {
    var n := |ops| - 1;
    assert ops[..0] == [];
    if n == 0 {
      LoadSettles(defaults, s, ops[0].world, ops[0].path);
    } else {
      AlwaysSettled(defaults, s, ops[..n]);
      StepKeepsSettled(defaults, Run(defaults, s, ops[..n]), ops[n]);
    }
  }

  /** Every file a reading depended on is watched afterwards, so repairing any of them is noticed. */
  lemma EveryTargetIsWatched(defaults: Config, s: Store, op: Operation, f: Path)
    requires op.world.Valid() && (op.Replace? ==> Succeeds(s, op))
    requires var w, root := op.world, SelectionFor(s, op).root;
             && w.status(root).RegularFile? && w.merge(root).Some?
             && (f == w.fs.canonical(root) || exists p :: p in Walk(w.fs, root).order && Puts(w.fs, p, f))
    ensures f in Step(defaults, s, op).watchPaths
  {
    var w, selection := op.world, SelectionFor(s, op);
    RecordsEveryTarget(w.fs, selection.root);
    assert f in Elements(FilesRead(w, selection.root));
    WatchedAfterReading(s, w, selection, s.explicitPath);
  }

  /** Defaults stand in for a file that was read exactly when merging threw, or the merged tables hide nothing,
      request no policy, and still lead to an error. */
  lemma DefaultsStandInExactly(w: World, root: Path)
    requires w.status(root).RegularFile?
    ensures OutcomeOf(w, root).DefaultsAllowed? <==>
              || w.merge(root).None?
              || var m := w.merge(root).value;
                 && !m.hadError && HasError(Reports(w, root))
                 && ("drm" in m.merged ==>
                       m.merged["drm"] == Table(map[]) && !m.missingIncludes && !m.missingOptionalIncludes)
  {
    if w.merge(root).Some? && w.read(w.merge(root).value).Interrupted? && !HidesPolicy(w.merge(root).value)
       && !w.merge(root).value.hadError {
      assert LOAD_ERROR in Reports(w, root);
    }
  }

  /** A document that requests a policy and has any error at all changes nothing that is in force, unless merging
      throws. */
  lemma PolicyFailsClosed(defaults: Config, s: Store, op: Operation)
    requires var w, root := op.world, SelectionFor(s, op).root;
             && w.status(root).RegularFile? && w.merge(root).Some?
             && "drm" in w.merge(root).value.merged && w.merge(root).value.merged["drm"] != Table(map[])
             && (w.merge(root).value.hadError || HasError(Reports(w, root)))
    ensures !Succeeds(s, op)
    ensures var next := Step(defaults, s, op);
            next.config == s.config && next.fileMissing == s.fileMissing && next.generation == s.generation
  {
    DefaultsStandInExactly(op.world, SelectionFor(s, op).root);
    FailureKeepsWhatIsInForce(defaults, s, op);
  }

  /** Why merging has to be trusted not to throw: then even a document that requests a policy loads the defaults. */
  lemma ThrowingOpensDefaults(defaults: Config, s: Store, w: World, root: Path)
    requires w.status(root).RegularFile? && w.merge(root).None?
    ensures Succeeds(s, Load(w, Some(root))) && Step(defaults, s, Load(w, Some(root))).config == defaults
  {
  }
}
