/** Workspace inventories: which workspaces an output has, and which workspace rules a configuration may hold. */
module Workspaces {
  import opened Config
  import opened Decimals
  import opened Declarations
  import opened Options
  import opened OutputNames
  import opened Resolve
  import opened Sequences

  // Named members of dynamic outputs

  predicate Declares(rule: WorkspaceRule, identity: OutputIdentity) {
    rule.name != "" && (rule.output == "" || MatchName(identity, rule.output) != NoMatch)
  }

  ghost function DeclaredNames(rules: seq<WorkspaceRule>, identity: OutputIdentity): seq<string> {
    if rules == [] then []
    else
      var last := rules[|rules| - 1];
      DeclaredNames(rules[..|rules| - 1], identity) + if Declares(last, identity) then [last.name] else []
  }

  /** The distinct names, in the order of their first declaration. */
  ghost function DynamicNames(rules: seq<WorkspaceRule>, identity: OutputIdentity): seq<string> {
    Declare([], DeclaredNames(rules, identity))
  }

  method DynamicWorkspaceNames(rules: seq<WorkspaceRule>, identity: OutputIdentity) returns (names: seq<string>)
    ensures names == DynamicNames(rules, identity)
  {
    names := [];
    for i := 0 to |rules|
      invariant names == DynamicNames(rules[..i], identity)
    {
      ghost var before := DeclaredNames(rules[..i], identity);
      assert rules[..i + 1][..i] == rules[..i];
      if !Declares(rules[i], identity) || rules[i].name in names {
        assert before + [] == before;
        assert (before + [rules[i].name])[..|before|] == before;
      } else {
        names := names + [rules[i].name];
        assert (before + [rules[i].name])[..|before|] == before;
      }
    }
    assert rules[..|rules|] == rules;
  }

  // The resolved set

  datatype ResolvedWorkspace = ResolvedWorkspace(name: string, named: bool, layout: ResolvedLayout)

  datatype WorkspaceSet = WorkspaceSet(dynamic: bool, omittedNamed: nat, workspaces: seq<ResolvedWorkspace>)

  function Sentinels(config: Config): nat {
    if config.emptyAbove then 2 else 1
  }

  function Capacity(config: Config): nat {
    MAX_WORKSPACES - Sentinels(config)
  }

  function Max(a: int, b: int): int {
    if a < b then b else a
  }

  function Minimum(rule: Option<OutputRule>): nat {
    if rule.Some? then Max(1, rule.value.minWorkspaces) else 1
  }

  ghost function Unnamed(config: Config, identity: OutputIdentity, index: nat): ResolvedWorkspace {
    ResolvedWorkspace(Decimal(index + 1), false, LayoutFor(config, identity, None, index))
  }

  ghost function Named(config: Config, identity: OutputIdentity, name: string, index: nat): ResolvedWorkspace {
    ResolvedWorkspace(name, true, LayoutFor(config, identity, Some(name), index))
  }

  ghost function InventoryFor(config: Config, identity: OutputIdentity): Option<Inventory> {
    var rule := MatchingRule(config.outputs, identity);
    if rule.Some? then rule.value.workspaces else None
  }

  ghost function Kept(config: Config, identity: OutputIdentity): seq<string> {
    var names := DynamicNames(config.workspaceRules, identity);
    if |names| > Capacity(config) then names[..Capacity(config)] else names
  }

  /** The workspace at one position of a dynamic output that keeps these names. */
  ghost function DynamicAt(config: Config, identity: OutputIdentity, kept: seq<string>, index: nat): ResolvedWorkspace {
    var above := if config.emptyAbove then 1 else 0;
    if above <= index < above + |kept| then Named(config, identity, kept[index - above], index)
    else Unnamed(config, identity, index)
  }

  /** The set of workspaces of an output, position by position. */
  ghost function WorkspacesFor(config: Config, identity: OutputIdentity): WorkspaceSet {
    match InventoryFor(config, identity)
    case Some(Count(count)) => WorkspaceSet(false, 0, seq(count, (i: nat) => Unnamed(config, identity, i)))
    case Some(Names(names)) =>
      WorkspaceSet(false, 0, seq(|names|, (i: nat) requires i < |names| => Named(config, identity, names[i], i)))
    case None =>
      var kept := Kept(config, identity);
      var count := Max(Minimum(MatchingRule(config.outputs, identity)), |kept| + Sentinels(config));
      WorkspaceSet(
        true, |DynamicNames(config.workspaceRules, identity)| - |kept|,
        seq(count, (i: nat) => DynamicAt(config, identity, kept, i)))
  }

  method UnnamedWorkspace(config: Config, identity: OutputIdentity, index: nat) returns (workspace: ResolvedWorkspace)
    ensures workspace == Unnamed(config, identity, index)
  {
    var layout := ResolveWorkspaceLayout(config, identity, None, index);
    workspace := ResolvedWorkspace(Decimal(index + 1), false, layout);
  }

  method NamedWorkspace(config: Config, identity: OutputIdentity, name: string, index: nat)
    returns (workspace: ResolvedWorkspace)
    ensures workspace == Named(config, identity, name, index)
  {
    var layout := ResolveWorkspaceLayout(config, identity, Some(name), index);
    workspace := ResolvedWorkspace(name, true, layout);
  }

  /** The list goes on as before. */
  ghost predicate Extends(longer: seq<ResolvedWorkspace>, workspaces: seq<ResolvedWorkspace>) {
    |workspaces| <= |longer| && forall i :: 0 <= i < |workspaces| ==> longer[i] == workspaces[i]
  }

  ghost predicate UnnamedFrom(config: Config, identity: OutputIdentity, workspaces: seq<ResolvedWorkspace>, from: nat) {
    forall i :: from <= i < |workspaces| ==> workspaces[i] == Unnamed(config, identity, i)
  }

  /** Appends unnamed workspaces up to `count`. */
  method AppendUnnamed(config: Config, identity: OutputIdentity, workspaces: seq<ResolvedWorkspace>, count: nat)
    returns (longer: seq<ResolvedWorkspace>)
    requires |workspaces| <= count
    ensures |longer| == count && Extends(longer, workspaces) && UnnamedFrom(config, identity, longer, |workspaces|)
  {
    longer := workspaces;
    while |longer| < count
      invariant |longer| <= count && Extends(longer, workspaces) && UnnamedFrom(config, identity, longer, |workspaces|)
    {
      var next := UnnamedWorkspace(config, identity, |longer|);
      longer := longer + [next];
    }
  }

  /** Appends one named workspace per name. */
  method AppendNamed(config: Config, identity: OutputIdentity, workspaces: seq<ResolvedWorkspace>, names: seq<string>)
    returns (longer: seq<ResolvedWorkspace>)
    ensures |longer| == |workspaces| + |names| && Extends(longer, workspaces)
    ensures forall i :: |workspaces| <= i < |longer| ==>
              longer[i] == Named(config, identity, names[i - |workspaces|], i)
  {
    longer := workspaces;
    for n := 0 to |names|
      invariant |longer| == |workspaces| + n && Extends(longer, workspaces)
      invariant forall i :: |workspaces| <= i < |longer| ==>
                  longer[i] == Named(config, identity, names[i - |workspaces|], i)
    {
      var next := NamedWorkspace(config, identity, names[n], |longer|);
      longer := longer + [next];
    }
  }

  method ResolveDynamic(config: Config, identity: OutputIdentity, rule: Option<OutputRule>)
    returns (result: WorkspaceSet)
    requires rule == MatchingRule(config.outputs, identity) && InventoryFor(config, identity).None?
    ensures result == WorkspacesFor(config, identity)
  {
    var named := DynamicWorkspaceNames(config.workspaceRules, identity);
    var omitted, sentinels := 0, Sentinels(config);
    if |named| > MAX_WORKSPACES - sentinels {
      omitted := |named| - (MAX_WORKSPACES - sentinels);
      named := named[..MAX_WORKSPACES - sentinels];
    }
    var count := Max(Minimum(rule), |named| + sentinels);
    var workspaces := AppendDynamic(config, identity, named, count);
    result := WorkspaceSet(true, omitted, workspaces);
    IsDynamicSet(config, identity, named, result);
  }

  /** The workspace above if there is one, the named ones, and unnamed ones up to `count`. */
  method AppendDynamic(config: Config, identity: OutputIdentity, named: seq<string>, count: nat)
    returns (workspaces: seq<ResolvedWorkspace>)
    requires |named| + Sentinels(config) <= count
    ensures |workspaces| == count
    ensures forall i :: 0 <= i < count ==> workspaces[i] == DynamicAt(config, identity, named, i)
  {
    var above: seq<ResolvedWorkspace> := AppendUnnamed(config, identity, [], if config.emptyAbove then 1 else 0);
    var both := AppendNamed(config, identity, above, named);
    workspaces := AppendUnnamed(config, identity, both, count);
    forall i | 0 <= i < count
      ensures workspaces[i] == DynamicAt(config, identity, named, i)
    {
      assert i < |both| ==> workspaces[i] == both[i];
      assert i < |above| ==> both[i] == above[i];
    }
  }

  lemma IsDynamicSet(config: Config, identity: OutputIdentity, named: seq<string>, result: WorkspaceSet)
    requires InventoryFor(config, identity).None? && named == Kept(config, identity) && result.dynamic
    requires result.omittedNamed == |DynamicNames(config.workspaceRules, identity)| - |named|
    requires |result.workspaces| == Max(Minimum(MatchingRule(config.outputs, identity)), |named| + Sentinels(config))
    requires forall i :: 0 <= i < |result.workspaces| ==> result.workspaces[i] == DynamicAt(config, identity, named, i)
    ensures result == WorkspacesFor(config, identity)
  {
    assert result.workspaces == WorkspacesFor(config, identity).workspaces;
  }

  method ResolveWorkspacesForOutput(config: Config, identity: OutputIdentity) returns (result: WorkspaceSet)
    ensures result == WorkspacesFor(config, identity)
  {
    var rule := FindOutputRule(config.outputs, identity);
    if rule.None? || rule.value.workspaces.None? {
      result := ResolveDynamic(config, identity, rule);
      return;
    }
    var workspaces;
    match rule.value.workspaces.value {
      case Count(count) => workspaces := AppendUnnamed(config, identity, [], count);
      case Names(names) => workspaces := AppendNamed(config, identity, [], names);
    }
    result := WorkspaceSet(false, 0, workspaces);
    assert workspaces == WorkspacesFor(config, identity).workspaces;
  }

  /** A dynamic output keeps the first distinct declared names, as many as fit, in declaration order and in one block;
      an unnamed workspace follows them, one precedes them exactly when `empty_above` is set, and more unnamed ones
      follow up to the minimum of the output's rule. */
  lemma DynamicShape(config: Config, identity: OutputIdentity)
    requires InventoryFor(config, identity).None?
    ensures var r, rule := WorkspacesFor(config, identity), MatchingRule(config.outputs, identity);
            var names := DynamicNames(config.workspaceRules, identity);
            var above, room := if config.emptyAbove then 1 else 0, if config.emptyAbove then 62 else 63;
            var kept := |names| - r.omittedNamed;
            && r.dynamic && kept == (if |names| < room then |names| else room)
            && (forall i :: 0 <= i < |r.workspaces| ==> (r.workspaces[i].named <==> above <= i < above + kept))
            && (forall i :: 0 <= i < kept ==> above + i < |r.workspaces| && r.workspaces[above + i].name == names[i])
            && above + kept < |r.workspaces| && !r.workspaces[|r.workspaces| - 1].named
            && (rule.Some? ==> |r.workspaces| >= rule.value.minWorkspaces)
            && (|r.workspaces| == above + kept + 1 || (rule.Some? && |r.workspaces| == rule.value.minWorkspaces))
  {
    DynamicLength(config, identity);
    DynamicKinds(config, identity);
    DynamicTexts(config, identity);
    DynamicSize(config, identity);
  }

  lemma DynamicLength(config: Config, identity: OutputIdentity)
    requires InventoryFor(config, identity).None?
    ensures |WorkspacesFor(config, identity).workspaces|
         == Max(Minimum(MatchingRule(config.outputs, identity)), |Kept(config, identity)| + Sentinels(config))
  {
  }

  lemma DynamicKinds(config: Config, identity: OutputIdentity)
    requires InventoryFor(config, identity).None?
    ensures var workspaces, kept := WorkspacesFor(config, identity).workspaces, Kept(config, identity);
            var above := if config.emptyAbove then 1 else 0;
            forall i :: 0 <= i < |workspaces| ==> (workspaces[i].named <==> above <= i < above + |kept|)
  {
    forall i | 0 <= i < |WorkspacesFor(config, identity).workspaces|
      ensures var above := if config.emptyAbove then 1 else 0;
              WorkspacesFor(config, identity).workspaces[i].named
              <==> above <= i < above + |Kept(config, identity)|
    {
      DynamicPosition(config, identity, i);
    }
  }

  lemma DynamicTexts(config: Config, identity: OutputIdentity)
    requires InventoryFor(config, identity).None?
    ensures var workspaces, kept := WorkspacesFor(config, identity).workspaces, Kept(config, identity);
            var above := if config.emptyAbove then 1 else 0;
            forall i :: 0 <= i < |kept| ==> above + i < |workspaces| && workspaces[above + i].name == kept[i]
  {
    forall i | 0 <= i < |Kept(config, identity)|
      ensures var above := if config.emptyAbove then 1 else 0;
              && above + i < |WorkspacesFor(config, identity).workspaces|
              && WorkspacesFor(config, identity).workspaces[above + i].name == Kept(config, identity)[i]
    {
      DynamicText(config, identity, i);
    }
  }

  lemma DynamicText(config: Config, identity: OutputIdentity, i: nat)
    requires InventoryFor(config, identity).None? && i < |Kept(config, identity)|
    ensures var workspaces, above := WorkspacesFor(config, identity).workspaces, if config.emptyAbove then 1 else 0;
            above + i < |workspaces| && workspaces[above + i].name == Kept(config, identity)[i]
  {
    DynamicLength(config, identity);
    DynamicPosition(config, identity, if config.emptyAbove then 1 + i else i);
  }

  lemma DynamicPosition(config: Config, identity: OutputIdentity, i: nat)
    requires InventoryFor(config, identity).None? && i < |WorkspacesFor(config, identity).workspaces|
    ensures var workspace, kept := WorkspacesFor(config, identity).workspaces[i], Kept(config, identity);
            var above := if config.emptyAbove then 1 else 0;
            && (workspace.named <==> above <= i < above + |kept|)
            && (workspace.named ==> workspace.name == kept[i - above])
  {
    assert WorkspacesFor(config, identity).workspaces[i] == DynamicAt(config, identity, Kept(config, identity), i);
  }

  lemma DynamicSize(config: Config, identity: OutputIdentity)
    requires InventoryFor(config, identity).None?
    ensures var r, names := WorkspacesFor(config, identity), DynamicNames(config.workspaceRules, identity);
            var kept := Kept(config, identity);
            && r.dynamic && |kept| == |names| - r.omittedNamed && kept <= names
            && |kept| == Max(0, if |names| < Capacity(config) then |names| else Capacity(config))
  {
  }

  /** The declared names are exactly those some rule declares for the output. */
  lemma {:induction false} DeclaredNamesHold(rules: seq<WorkspaceRule>, identity: OutputIdentity)
    ensures forall name :: name in DeclaredNames(rules, identity) <==>
              name != "" && exists rule :: rule in rules && rule.name == name
                                           && (rule.output == "" || MatchName(identity, rule.output) != NoMatch)
  {
    if rules == [] {
    } else {
      var n := |rules| - 1;
      DeclaredNamesHold(rules[..n], identity);
      assert rules == rules[..n] + [rules[n]];
    }
  }

  /** A rule at this position declares this name for the output. */
  ghost predicate DeclaredAt(rules: seq<WorkspaceRule>, identity: OutputIdentity, i: int, name: string) {
    && 0 <= i < |rules| && rules[i].name == name
    && (rules[i].output == "" || MatchName(identity, rules[i].output) != NoMatch)
  }

  lemma NextDynamicNames(rules: seq<WorkspaceRule>, identity: OutputIdentity)
    requires rules != []
    ensures var n := |rules| - 1;
            var names, earlier := DynamicNames(rules, identity), DynamicNames(rules[..n], identity);
            names == if Declares(rules[n], identity)
                && rules[n].name !in earlier then earlier + [rules[n].name] else earlier
  {
    var n := |rules| - 1;
    var declared := DeclaredNames(rules[..n], identity);
    assert (declared + [rules[n].name])[..|declared|] == declared && declared + [] == declared;
  }

  lemma ListedIsDeclared(rules: seq<WorkspaceRule>, identity: OutputIdentity, name: string)
    ensures name in DynamicNames(rules, identity) <==> name != "" && exists i :: DeclaredAt(rules, identity, i, name)
  {
    DeclareHolds([], DeclaredNames(rules, identity));
    DeclaredNamesHold(rules, identity);
    if i :| DeclaredAt(rules, identity, i, name) {
      assert rules[i] in rules;
    }
    if name in DynamicNames(rules, identity) {
      var rule :| rule in rules && rule.name == name
                  && (rule.output == "" || MatchName(identity, rule.output) != NoMatch);
      var i :| 0 <= i < |rules| && rules[i] == rule;
      assert DeclaredAt(rules, identity, i, name);
    }
  }

  /** Names are listed in the order of the rules that first declare them: of two listed names, a declaration of the
      later one always follows some declaration of the earlier one. */
  lemma {:induction false} NamesFollowTheRules(rules: seq<WorkspaceRule>, identity: OutputIdentity, a: nat, b: nat,
                                               j: nat)
    requires a < b < |DynamicNames(rules, identity)| && DeclaredAt(rules, identity, j, DynamicNames(rules, identity)[b])
    ensures exists i :: 0 <= i < j && DeclaredAt(rules, identity, i, DynamicNames(rules, identity)[a])
  {
    var n := |rules| - 1;
    var names, earlier := DynamicNames(rules, identity), DynamicNames(rules[..n], identity);
    NextDynamicNames(rules, identity);
    ListedIsDeclared(rules, identity, names[b]);
    if j < n {
      assert DeclaredAt(rules[..n], identity, j, names[b]);
      ListedIsDeclared(rules[..n], identity, names[b]);
      NamesFollowTheRules(rules[..n], identity, a, b, j);
      var i :| 0 <= i < j && DeclaredAt(rules[..n], identity, i, earlier[a]);
      assert DeclaredAt(rules, identity, i, names[a]);
    } else {
      ListedIsDeclared(rules[..n], identity, earlier[a]);
      var i :| DeclaredAt(rules[..n], identity, i, earlier[a]);
      assert DeclaredAt(rules, identity, i, names[a]);
    }
  }

  /** An output with a fixed inventory has just its workspaces: so many, called by their numbers, or these, in order. */
  lemma FixedShape(config: Config, identity: OutputIdentity)
    requires MatchingRule(config.outputs, identity).Some?
    requires MatchingRule(config.outputs, identity).value.workspaces.Some?
    ensures var r, inventory := WorkspacesFor(config, identity),
        MatchingRule(config.outputs, identity).value.workspaces;
            && !r.dynamic && r.omittedNamed == 0
            && match inventory.value
               case Count(count) =>
                 && |r.workspaces| == count
                 && (forall i :: 0 <= i < count ==>
                       !r.workspaces[i].named && r.workspaces[i].name == Decimal(i + 1))
               case Names(names) =>
                 && |r.workspaces| == |names|
                 && (forall i :: 0 <= i < |names| ==> r.workspaces[i].named && r.workspaces[i].name == names[i])
  {
  }

  // Which workspace a rule reaches

  /** A rule reaches the workspace at this position: by the number that counts workspaces from one, or by its name, and
      on this output or on all of them. */
  ghost predicate Reaches(rule: WorkspaceRule, identity: OutputIdentity, workspace: ResolvedWorkspace, position: nat) {
    && (rule.output == "" || MatchName(identity, rule.output) != NoMatch)
    && if rule.index.Some? then rule.index.value == position + 1 else workspace.named && workspace.name == rule.name
  }

  ghost predicate GivesGap(rule: WorkspaceRule, identity: OutputIdentity, workspace: ResolvedWorkspace, position: nat) {
    rule.layout.gap.Some? && Reaches(rule, identity, workspace, position)
  }

  /** Of two such rules the one for this output alone has the last word, or else the later one. */
  ghost predicate Outranks(rules: seq<WorkspaceRule>, r: int, q: int)
    requires 0 <= r < |rules| && 0 <= q < |rules|
  {
    if (rules[r].output == "") == (rules[q].output == "") then r > q else rules[q].output == ""
  }

  ghost predicate DecidesGap(rules: seq<WorkspaceRule>, identity: OutputIdentity, workspace: ResolvedWorkspace,
                             position: nat, r: int)
  {
    && 0 <= r < |rules| && GivesGap(rules[r], identity, workspace, position)
    && forall q :: 0 <= q < |rules| && q != r && GivesGap(rules[q], identity, workspace, position) ==>
         Outranks(rules, r, q)
  }

  function GapOf(o: LayoutOverrides): Option<int> {
    o.gap
  }

  function NameOf(workspace: ResolvedWorkspace): Option<string> {
    if workspace.named then Some(workspace.name) else None
  }

  lemma {:induction false} LastSetConcat(a: seq<Option<int>>, b: seq<Option<int>>, default: int)
    ensures LastSet(a + b, default) == LastSet(b, LastSet(a, default))
  {
    if b == [] {
      assert a + b == a;
    } else {
      assert (a + b)[..|a + b| - 1] == a + b[..|b| - 1];
      LastSetConcat(a, b[..|b| - 1], default);
    }
  }

  /** The gap after the rules of one scope. */
  ghost function GapAfter(rules: seq<WorkspaceRule>, identity: OutputIdentity, workspace: ResolvedWorkspace,
                          position: nat, outputScoped: bool, default: int): int
  {
    LastSet(Map(GapOf, Layers(rules, identity, NameOf(workspace), position, outputScoped)), default)
  }

  lemma GapAfterOne(rules: seq<WorkspaceRule>, identity: OutputIdentity, workspace: ResolvedWorkspace, position: nat,
                    outputScoped: bool, default: int)
    requires rules != []
    ensures var n := |rules| - 1;
            GapAfter(rules, identity, workspace, position, outputScoped, default)
            == if GivesGap(rules[n], identity, workspace, position) && outputScoped == (rules[n].output != "")
               then rules[n].layout.gap.value
               else GapAfter(rules[..n], identity, workspace, position, outputScoped, default)
  {
    var n := |rules| - 1;
    var before := Layers(rules[..n], identity, NameOf(workspace), position, outputScoped);
    var all := Layers(rules, identity, NameOf(workspace), position, outputScoped);
    if all == before + [rules[n].layout] {
      MapConcat(GapOf, before, [rules[n].layout]);
      assert Map(GapOf, all)[..|before|] == Map(GapOf, before);
    } else {
      assert all == before;
    }
  }

  lemma {:induction false} LastOfScopeDecides(
    rules: seq<WorkspaceRule>, identity: OutputIdentity, workspace: ResolvedWorkspace, position: nat,
    outputScoped: bool, default: int, r: nat)
    requires r < |rules| && GivesGap(rules[r], identity, workspace, position)
    requires outputScoped == (rules[r].output != "")
    requires forall q :: r < q < |rules| && outputScoped == (rules[q].output != "") ==>
               !GivesGap(rules[q], identity, workspace, position)
    ensures GapAfter(rules, identity, workspace, position, outputScoped, default) == rules[r].layout.gap.value
  {
    GapAfterOne(rules, identity, workspace, position, outputScoped, default);
    if r < |rules| - 1 {
      LastOfScopeDecides(rules[..|rules| - 1], identity, workspace, position, outputScoped, default, r);
    }
  }

  lemma {:induction false} NoneOfScopeDecides(
    rules: seq<WorkspaceRule>, identity: OutputIdentity, workspace: ResolvedWorkspace, position: nat,
    outputScoped: bool, default: int)
    requires forall q :: 0 <= q < |rules| && outputScoped == (rules[q].output != "") ==>
               !GivesGap(rules[q], identity, workspace, position)
    ensures GapAfter(rules, identity, workspace, position, outputScoped, default) == default
  {
    if rules == [] {
    } else {
      GapAfterOne(rules, identity, workspace, position, outputScoped, default);
      NoneOfScopeDecides(rules[..|rules| - 1], identity, workspace, position, outputScoped, default);
    }
  }

  lemma GapIs(config: Config, identity: OutputIdentity, position: nat)
    requires position < |WorkspacesFor(config, identity).workspaces|
    ensures var w := WorkspacesFor(config, identity).workspaces[position];
            w.layout.gap == GapAfter(config.workspaceRules, identity, w, position, true,
                                     GapAfter(config.workspaceRules, identity, w, position, false, config.layout.gap))
  {
    var rules, w := config.workspaceRules, WorkspacesFor(config, identity).workspaces[position];
    PositionedLayout(config, identity, position);
    LayoutComesFromLastRule(config, identity, NameOf(w), position);
    var all := Layers(rules, identity, NameOf(w), position, false);
    var own := Layers(rules, identity, NameOf(w), position, true);
    var base := OutputLayout(GlobalLayout(config), MatchingRule(config.outputs, identity));
    LastWriterWins(base, all + own, config.appearance.TotalBorderWidth(), (r: ResolvedLayout) => r.gap, GapOf);
    MapConcat(GapOf, all, own);
    LastSetConcat(Map(GapOf, all), Map(GapOf, own), config.layout.gap);
  }

  lemma PositionedLayout(config: Config, identity: OutputIdentity, position: nat)
    requires position < |WorkspacesFor(config, identity).workspaces|
    ensures var w := WorkspacesFor(config, identity).workspaces[position];
            w.layout == LayoutFor(config, identity, NameOf(w), position)
                && (!w.named ==> w.name == Decimal(position + 1))
  {
  }

  /** The gap of a workspace is that of the last rule that sets it for this output, or else for all outputs, by the
      number of the workspace or by its name, and the global one when no rule does; a rule for workspace `k` reaches the
      workspace at position `k - 1`, which is called `k` unless it is named, and no other. */
  lemma GapComesFromItsRules(config: Config, identity: OutputIdentity, position: nat)
    requires position < |WorkspacesFor(config, identity).workspaces|
    ensures var w, rules := WorkspacesFor(config, identity).workspaces[position], config.workspaceRules;
            && (!w.named ==> w.name == Decimal(position + 1))
            && (forall r :: DecidesGap(rules, identity, w, position, r) ==> w.layout.gap == rules[r].layout.gap.value)
            && ((forall rule :: rule in rules ==> !GivesGap(rule, identity, w, position)) ==>
                  w.layout.gap == config.layout.gap)
  {
    var w, rules := WorkspacesFor(config, identity).workspaces[position], config.workspaceRules;
    var all := GapAfter(rules, identity, w, position, false, config.layout.gap);
    PositionedLayout(config, identity, position);
    GapIs(config, identity, position);
    forall r | DecidesGap(rules, identity, w, position, r) ensures w.layout.gap == rules[r].layout.gap.value {
      if rules[r].output != "" {
        LastOfScopeDecides(rules, identity, w, position, true, all, r);
      } else {
        NoneOfScopeDecides(rules, identity, w, position, true, all);
        LastOfScopeDecides(rules, identity, w, position, false, config.layout.gap, r);
      }
    }
    if forall rule :: rule in rules ==> !GivesGap(rule, identity, w, position) {
      NoneOfScopeDecides(rules, identity, w, position, true, all);
      NoneOfScopeDecides(rules, identity, w, position, false, config.layout.gap);
    }
  }
}
