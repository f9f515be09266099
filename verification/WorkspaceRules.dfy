/** Which `[[workspace]]` rules a configuration may hold, and what that promises for every output. */
module WorkspaceRules {
  import opened Config
  import opened Declarations
  import opened Options
  import opened OutputNames
  import opened Resolve
  import opened Workspaces

  /** Exactly one of name and index selects. */
  predicate OneSelector(rule: WorkspaceRule) {
    (rule.name != "") != rule.index.Some?
  }

  predicate SameSelector(left: WorkspaceRule, right: WorkspaceRule) {
    && SameName(left.output, right.output) && left.index.Some? == right.index.Some?
    && if left.index.Some? then left.index == right.index else left.name == right.name
  }

  // Whether some inventory has the workspace a rule selects

  function Size(inventory: Inventory): nat {
    match inventory
    case Count(count) => count
    case Names(names) => |names|
  }

  predicate HasMember(inventory: Inventory, rule: WorkspaceRule) {
    if rule.index.Some? then rule.index.value <= Size(inventory)
    else inventory.Names? && rule.name in inventory.names
  }

  predicate DynamicHasMember(rule: WorkspaceRule) {
    if rule.index.Some? then 1 <= rule.index.value <= MAX_WORKSPACES else rule.name != ""
  }

  function InventoryNamed(outputs: seq<OutputRule>, name: string): Option<Inventory> {
    var rule := FindByName(outputs, name);
    if rule.Some? then rule.value.workspaces else None
  }

  /** The section that counts for this name fixes an inventory with that workspace. */
  predicate SectionHasMember(outputs: seq<OutputRule>, name: string, rule: WorkspaceRule) {
    var inventory := InventoryNamed(outputs, name);
    inventory.Some? && HasMember(inventory.value, rule)
  }

  predicate TargetExists(outputs: seq<OutputRule>, rule: WorkspaceRule) {
    if rule.output != "" then
      var inventory := InventoryNamed(outputs, rule.output);
      if inventory.Some? then HasMember(inventory.value, rule) else DynamicHasMember(rule)
    else
      || DynamicHasMember(rule)
      || exists o :: o in outputs && SectionHasMember(outputs, o.name, rule)
  }

  // Named workspaces a dynamic output can be given

  predicate AppliesTo(rule: WorkspaceRule, output: string) {
    rule.name != "" && rule.index.None? && (rule.output == "" || (output != "" && SameName(rule.output, output)))
  }

  ghost function NamesGiven(rules: seq<WorkspaceRule>, output: string): seq<string> {
    if rules == [] then []
    else
      var last := rules[|rules| - 1];
      NamesGiven(rules[..|rules| - 1], output) + if AppliesTo(last, output) then [last.name] else []
  }

  ghost predicate Overflows(rules: seq<WorkspaceRule>, output: string, capacity: nat) {
    |Declare([], NamesGiven(rules, output))| > capacity
  }

  lemma {:induction false} DeclareGrows(known: seq<string>, a: seq<string>, b: seq<string>)
    ensures |Declare(known, a)| <= |Declare(known, a + b)|
    decreases |b|
  {
    if b == [] {
      assert a + b == a;
    } else {
      var n := |b| - 1;
      DeclareGrows(known, a, b[..n]);
      assert (a + b)[..|a| + n] == a + b[..n];
    }
  }

  lemma {:induction false} NamesGivenGrow(rules: seq<WorkspaceRule>, i: nat, output: string)
    requires i <= |rules|
    ensures |Declare([], NamesGiven(rules[..i], output))| <= |Declare([], NamesGiven(rules, output))|
    decreases |rules| - i
  {
    if i == |rules| {
      assert rules[..i] == rules;
    } else {
      NamesGivenGrow(rules, i + 1, output);
      assert rules[..i + 1][..i] == rules[..i];
      DeclareGrows([], NamesGiven(rules[..i], output), if AppliesTo(rules[i], output) then [rules[i].name] else []);
    }
  }

  method ReportDynamicNameOverflow(rules: seq<WorkspaceRule>, output: string, capacity: nat) returns (overflow: bool)
    ensures overflow == Overflows(rules, output, capacity)
  {
    var names := [];
    for i := 0 to |rules|
      invariant names == Declare([], NamesGiven(rules[..i], output)) && |names| <= capacity
    {
      ghost var before := NamesGiven(rules[..i], output);
      assert rules[..i + 1][..i] == rules[..i];
      if !AppliesTo(rules[i], output) {
        assert before + [] == before;
        continue;
      }
      assert (before + [rules[i].name])[..|before|] == before;
      if rules[i].name in names {
        continue;
      }
      names := names + [rules[i].name];
      if |names| > capacity {
        NamesGivenGrow(rules, i + 1, output);
        return true;
      }
    }
    assert rules[..|rules|] == rules;
    return false;
  }

  /** The section for this output, if any, leaves its inventory dynamic. */
  predicate IsDynamic(outputs: seq<OutputRule>, output: string) {
    InventoryNamed(outputs, output).None?
  }

  /** The output this rule names has room for the named workspaces it is given. */
  ghost predicate Fits(outputs: seq<OutputRule>, rules: seq<WorkspaceRule>, rule: WorkspaceRule, capacity: nat) {
    rule.name != "" && rule.output != "" && IsDynamic(outputs, rule.output) ==> !Overflows(rules, rule.output, capacity)
  }

  /** What reading the rules checks. */
  ghost predicate Accepted(outputs: seq<OutputRule>, rules: seq<WorkspaceRule>, capacity: nat) {
    && (forall i :: 0 <= i < |rules| ==> OneSelector(rules[i]) && TargetExists(outputs, rules[i]))
    && (forall i, j :: 0 <= i < j < |rules| ==> !SameSelector(rules[i], rules[j]))
    && !Overflows(rules, "", capacity)
    && (forall i :: 0 <= i < |rules| ==> Fits(outputs, rules, rules[i], capacity))
  }

  lemma {:induction false} GivenByName(rules: seq<WorkspaceRule>, a: string, b: string)
    requires SameName(a, b)
    ensures NamesGiven(rules, a) == NamesGiven(rules, b)
  {
    if rules == [] {
    } else {
      GivenByName(rules[..|rules| - 1], a, b);
      assert a == "" <==> b == "" by { assert |Lower(a)| == |a| && |Lower(b)| == |b|; }
    }
  }

  lemma {:induction false} FoundByName(outputs: seq<OutputRule>, a: string, b: string)
    requires SameName(a, b)
    ensures FindByName(outputs, a) == FindByName(outputs, b)
  {
    if outputs == [] {
    } else {
      FoundByName(outputs[1..], a, b);
    }
  }

  /** `readWorkspaces`, after the entries were parsed: true when no error was reported. */
  method ReadWorkspaces(outputs: seq<OutputRule>, emptyAbove: bool, entries: seq<WorkspaceRule>)
    returns (accepted: bool)
    ensures accepted == Accepted(outputs, entries, MAX_WORKSPACES - if emptyAbove then 2 else 1)
  {
    var selectors := CheckSelectors(outputs, entries);
    var sentinelCount := if emptyAbove then 2 else 1;
    var fits := CheckOverflow(outputs, entries, MAX_WORKSPACES - sentinelCount);
    accepted := selectors && fits;
  }

  method CheckSelectors(outputs: seq<OutputRule>, entries: seq<WorkspaceRule>) returns (ok: bool)
    ensures ok == ((forall i :: 0 <= i < |entries| ==> OneSelector(entries[i]) && TargetExists(outputs, entries[i]))
                   && forall i, j :: 0 <= i < j < |entries| ==> !SameSelector(entries[i], entries[j]))
  {
    ok := true;
    for i := 0 to |entries|
      invariant ok == ((forall k :: 0 <= k < i ==> OneSelector(entries[k]) && TargetExists(outputs, entries[k]))
                       && forall k, j :: 0 <= k < j < i ==> !SameSelector(entries[k], entries[j]))
    {
      if !OneSelector(entries[i]) {
        ok := false;
        continue;
      }
      var duplicate := exists j :: 0 <= j < i && SameSelector(entries[j], entries[i]);
      if duplicate || !TargetExists(outputs, entries[i]) {
        ok := false;
      }
    }
  }

  method CheckOverflow(outputs: seq<OutputRule>, entries: seq<WorkspaceRule>, capacity: nat) returns (ok: bool)
    ensures ok == (!Overflows(entries, "", capacity)
                   && forall i :: 0 <= i < |entries| ==> Fits(outputs, entries, entries[i], capacity))
  {
    var globalOverflow := ReportDynamicNameOverflow(entries, "", capacity);
    if globalOverflow {
      return false;
    }
    ok := true;
    var checkedOutputs: seq<string> := [];
    for i := 0 to |entries|
      invariant ok == forall k :: 0 <= k < i ==> Fits(outputs, entries, entries[k], capacity)
      invariant forall o :: o in checkedOutputs ==>
                  exists k :: 0 <= k < i && entries[k].output == o && entries[k].name != "" && entries[k].output != ""
    {
      var entry := entries[i];
      if entry.name == "" || entry.output == "" {
        continue;
      }
      if exists o :: o in checkedOutputs && SameName(o, entry.output) {
        ghost var o :| o in checkedOutputs && SameName(o, entry.output);
        ghost var k :| 0 <= k < i && entries[k].output == o && entries[k].name != "" && entries[k].output != "";
        GivenByName(entries, o, entry.output);
        FoundByName(outputs, o, entry.output);
        assert Fits(outputs, entries, entries[k], capacity) == Fits(outputs, entries, entry, capacity);
        continue;
      }
      checkedOutputs := checkedOutputs + [entry.output];
      if IsDynamic(outputs, entry.output) {
        var overflow := ReportDynamicNameOverflow(entries, entry.output, capacity);
        ok := ok && !overflow;
      }
    }
  }

  // What acceptance promises at run time

  /** The configuration mentions an output under this name, in an output section or in a workspace rule. */
  ghost predicate Mentions(config: Config, name: string) {
    || (exists o :: o in config.outputs && o.name == name)
    || (name != "" && exists rule :: rule in config.workspaceRules && rule.output == name)
  }

  lemma {:induction false} DistinctSize(names: seq<string>)
    requires NoDuplicates(names)
    ensures |set name | name in names| == |names|
  {
    if names == [] {
    } else {
      var n := |names| - 1;
      DistinctSize(names[..n]);
      assert names == names[..n] + [names[n]];
      assert (set name | name in names) == (set name | name in names[..n]) + {names[n]};
    }
  }

  /** A dynamic output loses a name exactly when it is declared more distinct names, under whatever form of its own
      name, than there is room for. */
  lemma OmittedIff(config: Config, identity: OutputIdentity)
    requires InventoryFor(config, identity).None?
    ensures var declared := set rule | rule in config.workspaceRules && rule.name != ""
                                       && (rule.output == "" || MatchName(identity, rule.output) != NoMatch) ::
                                           rule.name;
            WorkspacesFor(config, identity).omittedNamed > 0 <==> |declared| > if config.emptyAbove then 62 else 63
  {
    var names := DynamicNames(config.workspaceRules, identity);
    var declared := set rule | rule in config.workspaceRules && rule.name != ""
                               && (rule.output == "" || MatchName(identity, rule.output) != NoMatch) :: rule.name;
    DeclareHolds([], DeclaredNames(config.workspaceRules, identity));
    DeclaredNamesHold(config.workspaceRules, identity);
    assert declared == set name | name in names;
    DistinctSize(names);
    DynamicSize(config, identity);
  }

  /** Every name under which the configuration mentions this output is the same name: never both its connector and its
      descriptor. */
  ghost predicate OneForm(config: Config, identity: OutputIdentity) {
    forall a, b {:trigger Mentions(config, a), Mentions(config, b)} ::
      && Mentions(config, a) && Mentions(config, b)
      && MatchName(identity, a) != NoMatch && MatchName(identity, b) != NoMatch
      ==> SameName(a, b)
  }

  lemma {:induction false} SameNamesDeclared(rules: seq<WorkspaceRule>, identity: OutputIdentity, output: string)
    requires forall i :: 0 <= i < |rules| ==> (Declares(rules[i], identity) <==> AppliesTo(rules[i], output))
    ensures DeclaredNames(rules, identity) == NamesGiven(rules, output)
  {
    if rules == [] {
    } else {
      SameNamesDeclared(rules[..|rules| - 1], identity, output);
    }
  }

  /** An accepted configuration loses no named workspace on a dynamic output it mentions under one name only. */
  lemma NoNameIsOmitted(config: Config, identity: OutputIdentity)
    requires Accepted(config.outputs, config.workspaceRules, Capacity(config)) && DistinctNames(config.outputs)
    requires InventoryFor(config, identity).None? && OneForm(config, identity)
    ensures WorkspacesFor(config, identity).omittedNamed == 0
  {
    var rules := config.workspaceRules;
    if i :| 0 <= i < |rules| && Declares(rules[i], identity) && rules[i].output != "" {
      var output := rules[i].output;
      assert rules[i] in rules && Mentions(config, output);
      forall j | 0 <= j < |rules| ensures Declares(rules[j], identity) <==> AppliesTo(rules[j], output) {
        assert rules[j] in rules && (rules[j].output != "" ==> Mentions(config, rules[j].output));
        MatchIsByName(identity, output, rules[j].output);
        assert OneSelector(rules[j]);
      }
      SameNamesDeclared(rules, identity, output);
      MentionedSectionIsDynamic(config, identity, output);
      assert Fits(config.outputs, rules, rules[i], Capacity(config));
    } else {
      assert forall j :: 0 <= j < |rules| ==> OneSelector(rules[j]);
      SameNamesDeclared(rules, identity, "");
    }
  }

  lemma MentionedSectionIsDynamic(config: Config, identity: OutputIdentity, output: string)
    requires DistinctNames(config.outputs) && InventoryFor(config, identity).None? && OneForm(config, identity)
    requires Mentions(config, output) && MatchName(identity, output) != NoMatch
    ensures IsDynamic(config.outputs, output)
  {
    var section := FindByName(config.outputs, output);
    if section.Some? {
      assert Mentions(config, section.value.name);
      MatchIsByName(identity, section.value.name, output);
      FirstDescriptorFinds(config.outputs, identity);
      LastConnectorFinds(config.outputs, identity);
      var rule := MatchingRule(config.outputs, identity);
      assert rule.Some? && Mentions(config, rule.value.name);
      assert SameName(rule.value.name, section.value.name);
    }
  }

  // What rules select

  /** The output's sections give it these workspaces, or leave it to make its own. */
  ghost predicate IsSectionFor(outputs: seq<OutputRule>, name: string, section: OutputRule) {
    section in outputs && SameName(section.name, name)
  }

  /** This inventory has the workspace the rule selects, by number or by name; one that is made as needed has any of the
      numbers there may be, and any name. */
  predicate Offers(inventory: Option<Inventory>, rule: WorkspaceRule) {
    match inventory
    case None => if rule.index.Some? then 1 <= rule.index.value <= 64 else rule.name != ""
    case Some(Count(count)) => rule.index.Some? && rule.index.value <= count
    case Some(Names(names)) => if rule.index.Some? then rule.index.value <= |names| else rule.name in names
  }

  /** The section of the rule's output offers a workspace, or, if the rule is for all outputs, an output without an
      inventory would, or some section does. */
  ghost predicate HasTarget(outputs: seq<OutputRule>, rule: WorkspaceRule) {
    if rule.output == "" then
      Offers(None, rule) || exists o :: o in outputs && o.workspaces.Some? && Offers(o.workspaces, rule)
    else if exists o :: IsSectionFor(outputs, rule.output, o) then
      exists o :: IsSectionFor(outputs, rule.output, o) && Offers(o.workspaces, rule)
    else Offers(None, rule)
  }

  lemma TargetExistsExactly(outputs: seq<OutputRule>, rule: WorkspaceRule)
    requires DistinctNames(outputs)
    ensures TargetExists(outputs, rule) <==> HasTarget(outputs, rule)
  {
    forall o | o in outputs ensures FindByName(outputs, o.name) == Some(o) {
      SectionIsFound(outputs, o, o.name);
    }
    if rule.output != "" {
      if o :| IsSectionFor(outputs, rule.output, o) {
        SectionIsFound(outputs, o, rule.output);
      }
      var found := FindByName(outputs, rule.output);
      assert found.Some? ==> IsSectionFor(outputs, rule.output, found.value);
    } else if o :| o in outputs && o.workspaces.Some? && Offers(o.workspaces, rule) {
      assert SectionHasMember(outputs, o.name, rule);
    }
  }

  lemma SectionIsFound(outputs: seq<OutputRule>, section: OutputRule, name: string)
    requires DistinctNames(outputs) && IsSectionFor(outputs, name, section)
    ensures FindByName(outputs, name) == Some(section)
  {
    var found := FindByName(outputs, name).value;
    var i :| 0 <= i < |outputs| && outputs[i] == section;
    var j :| 0 <= j < |outputs| && outputs[j] == found;
  }

  /** The names an output is given, by rules for it or for all; only by the latter when it has no name. */
  ghost function GivenNames(rules: seq<WorkspaceRule>, output: string): set<string> {
    set rule | rule in rules && rule.name != "" && rule.index.None?
               && (rule.output == "" || (output != "" && Lower(rule.output) == Lower(output))) :: rule.name
  }

  lemma {:induction false} GivenNamesAre(rules: seq<WorkspaceRule>, output: string)
    ensures forall name :: name in NamesGiven(rules, output) <==> name in GivenNames(rules, output)
  {
    if rules == [] {
    } else {
      var n := |rules| - 1;
      GivenNamesAre(rules[..n], output);
      assert rules == rules[..n] + [rules[n]];
    }
  }

  lemma OverflowsExactly(rules: seq<WorkspaceRule>, output: string, capacity: nat)
    ensures Overflows(rules, output, capacity) <==> |GivenNames(rules, output)| > capacity
  {
    var names := NamesGiven(rules, output);
    GivenNamesAre(rules, output);
    DeclareHolds([], names);
    DistinctSize(Declare([], names));
    assert GivenNames(rules, output) == set name | name in Declare([], names);
  }

  /** Two rules select the same: both by this number or both by this name, for outputs of one name. */
  ghost predicate SelectTheSame(a: WorkspaceRule, b: WorkspaceRule) {
    && Lower(a.output) == Lower(b.output)
    && (|| (a.index.Some? && b.index.Some? && a.index.value == b.index.value)
        || (a.index.None? && b.index.None? && a.name == b.name))
  }

  /** Every section of this output, if there is one, leaves it to make its workspaces as needed. */
  ghost predicate MakesItsOwn(outputs: seq<OutputRule>, output: string) {
    forall o :: IsSectionFor(outputs, output, o) ==> o.workspaces.None?
  }

  lemma IsDynamicExactly(outputs: seq<OutputRule>, output: string)
    requires DistinctNames(outputs)
    ensures IsDynamic(outputs, output) <==> MakesItsOwn(outputs, output)
  {
    var found := FindByName(outputs, output);
    if found.Some? {
      assert IsSectionFor(outputs, output, found.value);
    }
    forall o | IsSectionFor(outputs, output, o) ensures found == Some(o) {
      SectionIsFound(outputs, o, output);
    }
  }

  /** Each rule selects by a name or a number but not both, each has a target, and no two select the same. */
  ghost predicate SelectWell(outputs: seq<OutputRule>, rules: seq<WorkspaceRule>) {
    && (forall rule :: rule in rules ==> (rule.name == "") == rule.index.Some? && HasTarget(outputs, rule))
    && forall i, j :: 0 <= i < j < |rules| ==> !SelectTheSame(rules[i], rules[j])
  }

  /** Neither all outputs nor one that makes its own workspaces is given more names than there is room for. */
  ghost predicate HaveRoom(outputs: seq<OutputRule>, rules: seq<WorkspaceRule>, capacity: nat) {
    && |GivenNames(rules, "")| <= capacity
    && forall rule :: rule in rules && rule.name != "" && rule.output != "" && MakesItsOwn(outputs, rule.output) ==>
         |GivenNames(rules, rule.output)| <= capacity
  }

  lemma SelectorsExactly(outputs: seq<OutputRule>, rules: seq<WorkspaceRule>)
    requires DistinctNames(outputs)
    ensures SelectWell(outputs, rules) <==>
              && (forall i :: 0 <= i < |rules| ==> OneSelector(rules[i]) && TargetExists(outputs, rules[i]))
              && (forall i, j :: 0 <= i < j < |rules| ==> !SameSelector(rules[i], rules[j]))
  {
    forall rule ensures TargetExists(outputs, rule) <==> HasTarget(outputs, rule) {
      TargetExistsExactly(outputs, rule);
    }
    assert forall a, b :: SameSelector(a, b) <==> SelectTheSame(a, b);
  }

  lemma RoomExactly(outputs: seq<OutputRule>, rules: seq<WorkspaceRule>, capacity: nat)
    requires DistinctNames(outputs)
    ensures HaveRoom(outputs, rules, capacity) <==>
              !Overflows(rules, "", capacity) && forall i :: 0 <= i < |rules| ==>
                  Fits(outputs, rules, rules[i], capacity)
  {
    forall output ensures Overflows(rules, output, capacity) <==> |GivenNames(rules, output)| > capacity {
      OverflowsExactly(rules, output, capacity);
    }
    forall output ensures IsDynamic(outputs, output) <==> MakesItsOwn(outputs, output) {
      IsDynamicExactly(outputs, output);
    }
  }

  /** Rules are accepted if and only if they select well and have room. */
  lemma AcceptedExactly(outputs: seq<OutputRule>, rules: seq<WorkspaceRule>, capacity: nat)
    requires DistinctNames(outputs)
    ensures Accepted(outputs, rules, capacity) <==> SelectWell(outputs, rules) && HaveRoom(outputs, rules, capacity)
  {
    SelectorsExactly(outputs, rules);
    RoomExactly(outputs, rules, capacity);
  }

  /** Under one name, the section that counts for a rule is the one that applies to the output. */
  lemma SameInventoryFound(config: Config, identity: OutputIdentity, output: string)
    requires DistinctNames(config.outputs) && OneForm(config, identity)
    requires Mentions(config, output) && MatchName(identity, output) != NoMatch
    ensures InventoryNamed(config.outputs, output) == InventoryFor(config, identity)
  {
    FirstDescriptorFinds(config.outputs, identity);
    LastConnectorFinds(config.outputs, identity);
    var section, rule := FindByName(config.outputs, output), MatchingRule(config.outputs, identity);
    if section.Some? {
      assert Mentions(config, section.value.name);
      MatchIsByName(identity, section.value.name, output);
      assert rule.Some? && Mentions(config, rule.value.name);
      assert SameName(rule.value.name, section.value.name);
      SectionIsFound(config.outputs, rule.value, output);
    } else if rule.Some? {
      assert Mentions(config, rule.value.name);
    }
  }

  /** Some workspace of the output is reached. */
  ghost predicate ReachesSome(config: Config, identity: OutputIdentity, rule: WorkspaceRule) {
    exists p :: 0 <= p < |WorkspacesFor(config, identity).workspaces|
                && Reaches(rule, identity, WorkspacesFor(config, identity).workspaces[p], p)
  }

  lemma FixedIsReached(config: Config, identity: OutputIdentity, rule: WorkspaceRule)
    requires InventoryFor(config, identity).Some? && HasMember(InventoryFor(config, identity).value, rule)
    requires MatchName(identity, rule.output) != NoMatch && (rule.index.Some? ==> 1 <= rule.index.value)
    ensures ReachesSome(config, identity, rule)
  {
    FixedShape(config, identity);
    var p := if rule.index.Some? then rule.index.value - 1
             else PositionOf(InventoryFor(config, identity).value.names, rule.name);
    assert Reaches(rule, identity, WorkspacesFor(config, identity).workspaces[p], p);
  }

  lemma DynamicIsReached(config: Config, identity: OutputIdentity, rule: WorkspaceRule)
    requires InventoryFor(config, identity).None? && WorkspacesFor(config, identity).omittedNamed == 0
    requires rule in config.workspaceRules && MatchName(identity, rule.output) != NoMatch
    requires rule.index.None? && rule.name != ""
    ensures ReachesSome(config, identity, rule)
  {
    var i :| 0 <= i < |config.workspaceRules| && config.workspaceRules[i] == rule;
    assert DeclaredAt(config.workspaceRules, identity, i, rule.name);
    ListedIsDeclared(config.workspaceRules, identity, rule.name);
    var p := PositionOf(DynamicNames(config.workspaceRules, identity), rule.name) + if config.emptyAbove then 1 else 0;
    DynamicShape(config, identity);
    assert Reaches(rule, identity, WorkspacesFor(config, identity).workspaces[p], p);
  }

  /** An accepted rule for one output reaches a workspace of it, unless it counts on one that is only made as needed. */
  lemma AcceptedRulesReach(config: Config, identity: OutputIdentity, rule: WorkspaceRule)
    requires Accepted(config.outputs, config.workspaceRules, Capacity(config)) && DistinctNames(config.outputs)
    requires OneForm(config, identity) && rule in config.workspaceRules
    requires rule.output != "" && MatchName(identity, rule.output) != NoMatch
    requires rule.index.Some? ==> 1 <= rule.index.value && InventoryFor(config, identity).Some?
    ensures ReachesSome(config, identity, rule)
  {
    assert Mentions(config, rule.output);
    SameInventoryFound(config, identity, rule.output);
    var i :| 0 <= i < |config.workspaceRules| && config.workspaceRules[i] == rule;
    if InventoryFor(config, identity).Some? {
      FixedIsReached(config, identity, rule);
    } else {
      NoNameIsOmitted(config, identity);
      DynamicIsReached(config, identity, rule);
    }
  }

  ghost function PositionOf(names: seq<string>, name: string): (i: nat)
    requires name in names
    ensures i < |names| && names[i] == name
  {
    First(names, name)
  }

  /** No two accepted rules say the same of one workspace: of two for the same outputs that reach it, one counts and the
      other calls it by its name. */
  lemma AcceptedRulesDoNotCompete(config: Config, identity: OutputIdentity, i: nat, j: nat, p: nat)
    requires Accepted(config.outputs, config.workspaceRules, Capacity(config)) && OneForm(config, identity)
    requires i < j < |config.workspaceRules| && p < |WorkspacesFor(config, identity).workspaces|
    requires (config.workspaceRules[i].output == "") == (config.workspaceRules[j].output == "")
    requires var w := WorkspacesFor(config, identity).workspaces[p];
             Reaches(config.workspaceRules[i], identity, w, p) && Reaches(config.workspaceRules[j], identity, w, p)
    ensures config.workspaceRules[i].index.Some? != config.workspaceRules[j].index.Some?
  {
    var a, b := config.workspaceRules[i], config.workspaceRules[j];
    assert a in config.workspaceRules && b in config.workspaceRules;
    if a.output != "" {
      assert Mentions(config, a.output) && Mentions(config, b.output);
    }
  }

  // An output mentioned under both of its names

  function Repeat(c: char, n: nat): (s: string)
    ensures |s| == n && forall i :: 0 <= i < n ==> s[i] == c
  {
    seq(n, i => c)
  }

  const NO_OVERRIDES := LayoutOverrides(None, None, StrutOverrides(None, None, None, None), None, None, None, None,
                                        None, None, None, None, None, None, None, None, None, None, None, None)

  /** Forty names for the connector and forty others for the descriptor of the same output. */
  function BothForms(connector: string, descriptor: string): seq<WorkspaceRule> {
    seq(80, (i: nat) => if i < 40 then WorkspaceRule(Repeat('a', i + 1), connector, None, NO_OVERRIDES)
                        else WorkspaceRule(Repeat('b', i + 1), descriptor, None, NO_OVERRIDES))
  }

  /** With both forms in use the check of each name passes and names are lost all the same. */
  lemma BothFormsLoseNames(config: Config, identity: OutputIdentity)
    requires identity.connector != "" && identity.make != ""
    requires !SameName(OutputDescriptor(identity), identity.connector)
    requires config.outputs == [] && !config.emptyAbove
    requires config.workspaceRules == BothForms(identity.connector, OutputDescriptor(identity))
    ensures Accepted(config.outputs, config.workspaceRules, Capacity(config)) && DistinctNames(config.outputs)
    ensures WorkspacesFor(config, identity).omittedNamed == 17
  {
    var c, d := identity.connector, OutputDescriptor(identity);
    assert |d| > 0;
    BothFormsAccepted(c, d);
    BothFormsDeclared(identity);
    assert |DynamicNames(config.workspaceRules, identity)| == 80;
  }

  lemma BothFormsAccepted(c: string, d: string)
    requires c != "" && d != "" && !SameName(d, c)
    ensures Accepted([], BothForms(c, d), 63)
  {
    var rules := BothForms(c, d);
    BothFormsFit(c, d);
    forall i, j | 0 <= i < j < |rules| ensures !SameSelector(rules[i], rules[j]) {
      assert |rules[i].name| != |rules[j].name|;
    }
    forall i | 0 <= i < |rules| ensures Fits([], rules, rules[i], 63) {
      assert rules[i].output == c || rules[i].output == d;
    }
  }

  lemma BothFormsFit(c: string, d: string)
    requires c != "" && d != "" && !SameName(d, c)
    ensures var rules := BothForms(c, d);
            !Overflows(rules, "", 63) && !Overflows(rules, c, 63) && !Overflows(rules, d, 63)
  {
    var rules := BothForms(c, d);
    FewFit(rules, "", 0, 0);
    FewFit(rules, c, 0, 40);
    FewFit(rules, d, 40, 80);
  }

  lemma FewFit(rules: seq<WorkspaceRule>, output: string, lo: nat, hi: nat)
    requires lo <= hi <= lo + 63
    requires forall i :: 0 <= i < |rules| && AppliesTo(rules[i], output) ==> lo <= i < hi
    ensures !Overflows(rules, output, 63)
  {
    FewNamesGiven(rules, output, lo, hi);
    DeclareAtMost([], NamesGiven(rules, output));
  }

  lemma FormsHaveDistinctNames(connector: string, descriptor: string)
    ensures var rules := BothForms(connector, descriptor);
            forall i, j :: 0 <= i < j < |rules| ==> rules[i].name != rules[j].name
  {
    var rules := BothForms(connector, descriptor);
    forall i, j | 0 <= i < j < |rules| ensures rules[i].name != rules[j].name {
      assert |rules[i].name| != |rules[j].name|;
    }
  }

  lemma DistinctStay(rules: seq<WorkspaceRule>, names: seq<string>)
    requires |names| == |rules| && forall i :: 0 <= i < |names| ==> names[i] == rules[i].name
    requires forall i, j :: 0 <= i < j < |rules| ==> rules[i].name != rules[j].name
    ensures NoDuplicates(names)
  {
  }

  lemma BothFormsDeclared(identity: OutputIdentity)
    requires identity.connector != "" && identity.make != ""
    ensures |DynamicNames(BothForms(identity.connector, OutputDescriptor(identity)), identity)| == 80
  {
    var rules := BothForms(identity.connector, OutputDescriptor(identity));
    DescriptorEqualsIsSameName(identity, OutputDescriptor(identity));
    AllDeclared(rules, identity);
    FormsHaveDistinctNames(identity.connector, OutputDescriptor(identity));
    DistinctStay(rules, DeclaredNames(rules, identity));
    DeclareAll(DeclaredNames(rules, identity));
  }

  lemma {:induction false} FewNamesGiven(rules: seq<WorkspaceRule>, output: string, lo: nat, hi: nat)
    requires lo <= hi
    requires forall i :: 0 <= i < |rules| && AppliesTo(rules[i], output) ==> lo <= i < hi
    ensures |NamesGiven(rules, output)| <= Max(0, (if |rules| < hi then |rules| else hi) - lo)
  {
    if rules == [] {
    } else {
      FewNamesGiven(rules[..|rules| - 1], output, lo, hi);
    }
  }

  lemma {:induction false} DeclareAtMost(known: seq<string>, names: seq<string>)
    ensures |Declare(known, names)| <= |known| + |names|
  {
    if names == [] {
    } else {
      DeclareAtMost(known, names[..|names| - 1]);
    }
  }

  lemma {:induction false} DeclareAll(names: seq<string>)
    requires NoDuplicates(names)
    ensures Declare([], names) == names
  {
    if names == [] {
    } else {
      DeclareAll(names[..|names| - 1]);
    }
  }

  lemma {:induction false} AllDeclared(rules: seq<WorkspaceRule>, identity: OutputIdentity)
    requires forall i :: 0 <= i < |rules| ==> Declares(rules[i], identity)
    ensures |DeclaredNames(rules, identity)| == |rules|
    ensures forall i :: 0 <= i < |rules| ==> DeclaredNames(rules, identity)[i] == rules[i].name
  {
    if rules == [] {
    } else {
      AllDeclared(rules[..|rules| - 1], identity);
    }
  }
}
