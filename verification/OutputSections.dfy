/** Collecting `[output.<name>]` sections, their inventories and the screen effects they name. */
module OutputSections {
  import opened Change
  import opened Config
  import opened Declarations
  import opened EffectReferences
  import opened Options
  import opened OutputNames
  import opened Resolve
  import opened Sequences

  // The inventory of a section

  /** A node that may describe an inventory; a list holds None where an entry is not a string. */
  datatype InventoryNode = Integer(value: int) | List(entries: seq<Option<string>>) | Word(text: string) | OtherNode

  predicate IsName(entry: Option<string>) {
    entry.Some? && entry.value != ""
  }

  function TextOf(entry: Option<string>): string {
    entry.Or("")
  }

  /** The inventory a node stands for. */
  ghost predicate DescribesInventory(node: InventoryNode, inventory: Option<Inventory>) {
    match node
    case Integer(value) => 1 <= value <= MAX_WORKSPACES && inventory == Some(Count(value))
    case List(entries) =>
      && 1 <= |entries| <= MAX_WORKSPACES && (forall e :: e in entries ==> IsName(e))
      && inventory == Some(Names(Map(TextOf, entries))) && NoDuplicates(Map(TextOf, entries))
    case Word(text) => text == "dynamic" && inventory.None?
    case OtherNode => false
  }

  ghost predicate ReadableInventory(inventory: Option<Inventory>) {
    match inventory
    case None => true
    case Some(Count(count)) => 1 <= count <= MAX_WORKSPACES
    case Some(Names(names)) => 1 <= |names| <= MAX_WORKSPACES && NoDuplicates(names) && "" !in names
  }

  /** The names read from a list, and whether every entry was a new one. */
  method ReadNames(entries: seq<Option<string>>) returns (names: seq<string>, valid: bool)
    ensures valid <==> (forall e :: e in entries ==> IsName(e)) && NoDuplicates(Map(TextOf, entries))
    ensures valid ==> names == Map(TextOf, entries)
  {
    names, valid := [], true;
    for i := 0 to |entries|
      invariant valid <==> (forall k :: 0 <= k < i ==> IsName(entries[k])) && NoDuplicates(Map(TextOf, entries[..i]))
      invariant valid ==> names == Map(TextOf, entries[..i])
    {
      ghost var earlier, all := Map(TextOf, entries[..i]), Map(TextOf, entries[..i + 1]);
      assert all[..i] == earlier && all == earlier + [TextOf(entries[i])];
      if !IsName(entries[i]) || entries[i].value in names {
        NoDuplicatesSnoc(earlier, TextOf(entries[i]));
        valid := false;
      } else {
        NoDuplicatesSnoc(earlier, entries[i].value);
        names := names + [entries[i].value];
      }
    }
    assert entries[..|entries|] == entries;
  }

  lemma NoDuplicatesSnoc(names: seq<string>, name: string)
    ensures NoDuplicates(names + [name]) <==> NoDuplicates(names) && name !in names
  {
    if NoDuplicates(names + [name]) {
      forall i, j | 0 <= i < j < |names| ensures names[i] != names[j] {
        assert (names + [name])[i] != (names + [name])[j];
      }
      forall i | 0 <= i < |names| ensures names[i] != name {
        assert (names + [name])[i] != (names + [name])[|names|];
      }
    }
  }

  /** `parseOutputWorkspaces`: a node that describes no inventory is an error and leaves what was there. */
  method ParseOutputWorkspaces(node: InventoryNode, before: Option<Inventory>)
    returns (inventory: Option<Inventory>, ok: bool)
    ensures ok <==> exists described :: DescribesInventory(node, described)
    ensures !ok || node.Word? ==> inventory == before
    ensures ok && (!node.Word? || before.None?) ==>
              DescribesInventory(node, inventory) && ReadableInventory(inventory)
  {
    inventory, ok := before, false;
    match node {
      case Integer(value) =>
        if 1 <= value <= MAX_WORKSPACES {
          inventory, ok := Some(Count(value)), true;
          assert DescribesInventory(node, inventory);
        }
      case List(entries) =>
        var names, valid := ReadNames(entries);
        if valid && 1 <= |entries| <= MAX_WORKSPACES {
          inventory, ok := Some(Names(names)), true;
          forall k | 0 <= k < |names| ensures names[k] != "" {
            assert entries[k] in entries;
          }
          assert DescribesInventory(node, inventory);
        }
      case Word(text) =>
        ok := text == "dynamic";
        assert ok ==> DescribesInventory(node, None);
      case OtherNode =>
    }
  }

  // Sections in force

  /** A section as read, and whether it sets `min_workspaces`. */
  datatype OutputSection = OutputSection(rule: OutputRule, setsMinimum: bool)

  function RuleOf(section: OutputSection): OutputRule {
    section.rule
  }

  function Others(outputs: seq<OutputRule>, name: string): seq<OutputRule> {
    if outputs == [] then []
    else
      var last := outputs[|outputs| - 1];
      Others(outputs[..|outputs| - 1], name) + if SameName(last.name, name) then [] else [last]
  }

  /** The rules a document's sections leave in force, a later section replacing an earlier one for the same output. */
  function InForce(sections: seq<OutputRule>): seq<OutputRule> {
    if sections == [] then []
    else
      var last := sections[|sections| - 1];
      Others(InForce(sections[..|sections| - 1]), last.name) + [last]
  }

  // The effect references of the sections

  /** An effect reference, and the output whose screen effect its rejection clears, if it is an output's. */
  datatype Recorded = Recorded(reference: Reference, clears: Option<string>)

  function Context(output: string): Slot {
    Selector("output." + output + ".screen_effect")
  }

  function ScreenReference(output: string, effect: string): Reference {
    Reference(effect, Kind.Screen, true, PresetOrPool, OtherBinding, Context(output))
  }

  function RecordOf(rule: OutputRule): seq<Recorded> {
    if rule.screenEffect.None? then []
    else [Recorded(ScreenReference(rule.name, rule.screenEffect.value), Some(rule.name))]
  }

  function Records(outputs: seq<OutputRule>): seq<Recorded> {
    if outputs == [] then [] else Records(outputs[..|outputs| - 1]) + RecordOf(outputs[|outputs| - 1])
  }

  /** A reference that belongs to a section for this output. */
  predicate BelongsTo(outputs: seq<OutputRule>, name: string, recorded: Recorded) {
    exists existing :: existing in outputs && SameName(existing.name, name)
                       && recorded.reference.slot == Context(existing.name)
  }

  function Without(records: seq<Recorded>, outputs: seq<OutputRule>, name: string): seq<Recorded> {
    if records == [] then []
    else
      var last := records[|records| - 1];
      Without(records[..|records| - 1], outputs, name) + if BelongsTo(outputs, name, last) then [] else [last]
  }

  function Recording(earlier: seq<Recorded>, sections: seq<OutputRule>): seq<Recorded> {
    if sections == [] then earlier
    else
      var n := |sections| - 1;
      Without(Recording(earlier, sections[..n]), InForce(sections[..n]), sections[n].name) + RecordOf(sections[n])
  }

  lemma InForceSnoc(sections: seq<OutputRule>, rule: OutputRule)
    ensures InForce(sections + [rule]) == Others(InForce(sections), rule.name) + [rule]
  {
    assert (sections + [rule])[..|sections|] == sections;
  }

  lemma RecordingSnoc(earlier: seq<Recorded>, sections: seq<OutputRule>, rule: OutputRule)
    ensures Recording(earlier, sections + [rule])
         == Without(Recording(earlier, sections), InForce(sections), rule.name) + RecordOf(rule)
  {
    assert (sections + [rule])[..|sections|] == sections;
  }

  lemma NextSection(sections: seq<OutputRule>, i: nat, earlier: seq<Recorded>)
    requires i < |sections|
    ensures InForce(sections[..i + 1]) == Others(InForce(sections[..i]), sections[i].name) + [sections[i]]
    ensures Recording(earlier, sections[..i + 1])
         == Without(Recording(earlier, sections[..i]), InForce(sections[..i]), sections[i].name) + RecordOf(sections[i])
  {
    assert sections[..i + 1] == sections[..i] + [sections[i]];
    InForceSnoc(sections[..i], sections[i]);
    RecordingSnoc(earlier, sections[..i], sections[i]);
  }

  predicate MinimumMisplaced(section: OutputSection) {
    section.setsMinimum && section.rule.workspaces.Some?
  }

  predicate SomeMisplaced(sections: seq<OutputSection>) {
    sections != [] && (SomeMisplaced(sections[..|sections| - 1]) || MinimumMisplaced(sections[|sections| - 1]))
  }

  lemma SomeMisplacedSnoc(sections: seq<OutputSection>, i: nat)
    requires i < |sections|
    ensures SomeMisplaced(sections[..i + 1]) == (SomeMisplaced(sections[..i]) || MinimumMisplaced(sections[i]))
  {
    assert sections[..i + 1][..i] == sections[..i] && sections[..i + 1][i] == sections[i];
  }

  lemma {:induction false} SomeMisplacedHolds(sections: seq<OutputSection>)
    ensures SomeMisplaced(sections) <==> exists section :: section in sections && MinimumMisplaced(section)
  {
    if sections == [] {
    } else {
      SomeMisplacedHolds(sections[..|sections| - 1]);
      assert sections == sections[..|sections| - 1] + [sections[|sections| - 1]];
    }
  }

  method Discard(records: seq<Recorded>, outputs: seq<OutputRule>, name: string) returns (kept: seq<Recorded>)
    ensures kept == Without(records, outputs, name)
  {
    kept := [];
    for i := 0 to |records|
      invariant kept == Without(records[..i], outputs, name)
    {
      assert records[..i + 1][..i] == records[..i];
      if !BelongsTo(outputs, name, records[i]) {
        kept := kept + [records[i]];
      }
    }
    assert records[..|records|] == records;
  }

  lemma {:induction false} NothingToDiscard(records: seq<Recorded>, outputs: seq<OutputRule>, name: string)
    requires forall existing :: existing in outputs ==> !SameName(existing.name, name)
    ensures Without(records, outputs, name) == records
  {
    if records == [] {
    } else {
      NothingToDiscard(records[..|records| - 1], outputs, name);
    }
  }

  lemma {:induction false} NothingToErase(outputs: seq<OutputRule>, name: string)
    requires forall existing :: existing in outputs ==> !SameName(existing.name, name)
    ensures Others(outputs, name) == outputs
  {
    if outputs == [] {
    } else {
      var n := |outputs| - 1;
      assert outputs == outputs[..n] + [outputs[n]];
      NothingToErase(outputs[..n], name);
    }
  }

  /** `acceptOutput` */
  method AcceptOutput(outputs: seq<OutputRule>, records: seq<Recorded>, section: OutputSection)
    returns (accepted: seq<OutputRule>, recorded: seq<Recorded>, error: bool)
    ensures accepted == Others(outputs, section.rule.name) + [section.rule]
    ensures recorded == Without(records, outputs, section.rule.name) + RecordOf(section.rule)
    ensures error == MinimumMisplaced(section)
  {
    var rule := section.rule;
    accepted, recorded, error := outputs, records, false;
    if exists existing :: existing in outputs && SameName(existing.name, rule.name) {
      recorded := Discard(records, outputs, rule.name);
      accepted := EraseOutputs(outputs, rule.name);
    } else {
      NothingToDiscard(records, outputs, rule.name);
      NothingToErase(outputs, rule.name);
    }
    if section.setsMinimum && rule.workspaces.Some? {
      error := true;
    }
    accepted := accepted + [rule];
    recorded := recorded + RecordOf(rule);
  }

  method EraseOutputs(outputs: seq<OutputRule>, name: string) returns (kept: seq<OutputRule>)
    ensures kept == Others(outputs, name)
  {
    kept := [];
    for i := 0 to |outputs|
      invariant kept == Others(outputs[..i], name)
    {
      assert outputs[..i + 1][..i] == outputs[..i];
      var same := OutputNamesEqual(outputs[i].name, name);
      if !same {
        kept := kept + [outputs[i]];
      }
    }
    assert outputs[..|outputs|] == outputs;
  }

  /** Every section of a document in turn. */
  method AcceptOutputs(sections: seq<OutputSection>, earlier: seq<Recorded>)
    returns (outputs: seq<OutputRule>, records: seq<Recorded>, error: bool)
    ensures outputs == InForce(Map(RuleOf, sections)) && records == Recording(earlier, Map(RuleOf, sections))
    ensures error <==> exists section :: section in sections && MinimumMisplaced(section)
  {
    outputs, records, error := [], earlier, false;
    ghost var rules := Map(RuleOf, sections);
    for i := 0 to |sections|
      invariant outputs == InForce(rules[..i]) && records == Recording(earlier, rules[..i])
      invariant error == SomeMisplaced(sections[..i])
    {
      NextSection(rules, i, earlier);
      var misplaced;
      outputs, records, misplaced := AcceptOutput(outputs, records, sections[i]);
      SomeMisplacedSnoc(sections, i);
      error := error || misplaced;
    }
    assert rules[..|sections|] == rules && sections[..|sections|] == sections;
    SomeMisplacedHolds(sections);
  }

  lemma {:induction false} OthersAre(outputs: seq<OutputRule>, name: string)
    ensures forall r :: r in Others(outputs, name) <==> r in outputs && !SameName(r.name, name)
  {
    if outputs == [] {
    } else {
      var n := |outputs| - 1;
      OthersAre(outputs[..n], name);
      assert outputs == outputs[..n] + [outputs[n]];
    }
  }

  lemma {:induction false} OthersStayDistinct(outputs: seq<OutputRule>, name: string)
    requires DistinctNames(outputs)
    ensures DistinctNames(Others(outputs, name))
  {
    if outputs == [] {
    } else {
      var n := |outputs| - 1;
      OthersStayDistinct(outputs[..n], name);
      OthersAre(outputs[..n], name);
      forall r | r in Others(outputs[..n], name) ensures !SameName(r.name, outputs[n].name) {
        var i :| 0 <= i < n && outputs[..n][i] == r;
        assert outputs[i] == r;
      }
    }
  }

  lemma OthersHold(outputs: seq<OutputRule>, name: string)
    ensures forall r :: r in Others(outputs, name) <==> r in outputs && !SameName(r.name, name)
    ensures DistinctNames(outputs) ==> DistinctNames(Others(outputs, name))
  {
    OthersAre(outputs, name);
    if DistinctNames(outputs) {
      OthersStayDistinct(outputs, name);
    }
  }

  lemma {:induction false} InForceIsDistinct(sections: seq<OutputRule>)
    ensures DistinctNames(InForce(sections))
  {
    if sections == [] {
    } else {
      var n := |sections| - 1;
      InForceIsDistinct(sections[..n]);
      OthersHold(InForce(sections[..n]), sections[n].name);
    }
  }

  /** The last section naming an output. */
  ghost function LastByName(sections: seq<OutputRule>, name: string): Option<OutputRule> {
    if sections == [] then None
    else
      var last := sections[|sections| - 1];
      if SameName(last.name, name) then Some(last) else LastByName(sections[..|sections| - 1], name)
  }

  /** Looking an output up finds the last section written for it. */
  lemma {:induction false} LastSectionWins(sections: seq<OutputRule>, name: string)
    ensures FindByName(InForce(sections), name) == LastByName(sections, name)
  {
    if sections == [] {
    } else {
      var n := |sections| - 1;
      var last, earlier := sections[n], InForce(sections[..n]);
      LastSectionWins(sections[..n], name);
      InForceIsDistinct(sections);
      OthersHold(earlier, last.name);
      var found := FindByName(earlier, name);
      if SameName(last.name, name) {
        FoundIsUnique(InForce(sections), last, name);
      } else if found.Some? {
        assert found.value in Others(earlier, last.name);
        FoundIsUnique(InForce(sections), found.value, name);
      }
    }
  }

  // What the references come to

  lemma ContextIsInjective(a: string, b: string)
    requires Context(a) == Context(b)
    ensures a == b
  {
    var prefix, suffix := "output.", ".screen_effect";
    var l, r := prefix + a + suffix, prefix + b + suffix;
    assert |l| == |r|;
    assert a == l[|prefix|..|l| - |suffix|] && b == r[|prefix|..|r| - |suffix|];
  }

  ghost predicate IsOther(recorded: Recorded) {
    recorded.clears.None? && forall name :: recorded.reference.slot != Context(name)
  }

  /** No reference here belongs to an output section. */
  ghost predicate NoneOfOutputs(records: seq<Recorded>) {
    forall r :: r in records ==> IsOther(r)
  }

  lemma {:induction false} WithoutConcat(a: seq<Recorded>, b: seq<Recorded>, outputs: seq<OutputRule>, name: string)
    ensures Without(a + b, outputs, name) == Without(a, outputs, name) + Without(b, outputs, name)
  {
    if b == [] {
      assert a + b == a;
    } else {
      var n := |b| - 1;
      assert (a + b)[..|a| + n] == a + b[..n];
      WithoutConcat(a, b[..n], outputs, name);
    }
  }

  lemma {:induction false} OthersKept(records: seq<Recorded>, outputs: seq<OutputRule>, name: string)
    requires NoneOfOutputs(records)
    ensures Without(records, outputs, name) == records
  {
    if records == [] {
    } else {
      var n := |records| - 1;
      assert records == records[..n] + [records[n]];
      OthersKept(records[..n], outputs, name);
      assert IsOther(records[n]);
    }
  }

  lemma RecordsSnoc(outputs: seq<OutputRule>, rule: OutputRule)
    ensures Records(outputs + [rule]) == Records(outputs) + RecordOf(rule)
  {
    assert (outputs + [rule])[..|outputs|] == outputs;
  }

  lemma OneRecord(rule: OutputRule, outputs: seq<OutputRule>, name: string)
    requires rule in outputs
    ensures Without(RecordOf(rule), outputs, name) == if SameName(rule.name, name) then [] else RecordOf(rule)
  {
    if rule.screenEffect.Some? {
      var recorded := RecordOf(rule)[0];
      assert RecordOf(rule)[..0] == [];
      if existing :| existing in outputs && SameName(existing.name, name)
                     && recorded.reference.slot == Context(existing.name)
      {
        ContextIsInjective(existing.name, rule.name);
      }
    }
  }

  /** Dropping the references of the sections for one output leaves those of the other sections. */
  lemma {:induction false} DroppingFollowsSections(some: seq<OutputRule>, outputs: seq<OutputRule>, name: string)
    requires forall rule :: rule in some ==> rule in outputs
    ensures Without(Records(some), outputs, name) == Records(Others(some, name))
  {
    if some == [] {
    } else {
      var n := |some| - 1;
      var last := some[n];
      assert some == some[..n] + [last];
      DroppingFollowsSections(some[..n], outputs, name);
      WithoutConcat(Records(some[..n]), RecordOf(last), outputs, name);
      OneRecord(last, outputs, name);
      var others := Others(some[..n], name);
      if SameName(last.name, name) {
        assert Records(others) + [] == Records(others) && others + [] == others;
      } else {
        RecordsSnoc(others, last);
      }
    }
  }

  /** After all sections the references on record are those of the sections in force, in their order. */
  lemma {:induction false} RecordsMatchSections(earlier: seq<Recorded>, sections: seq<OutputRule>)
    requires NoneOfOutputs(earlier)
    ensures Recording(earlier, sections) == earlier + Records(InForce(sections))
  {
    if sections == [] {
    } else {
      var n := |sections| - 1;
      var last, before := sections[n], InForce(sections[..n]);
      RecordsMatchSections(earlier, sections[..n]);
      WithoutConcat(earlier, Records(before), before, last.name);
      OthersKept(earlier, before, last.name);
      DroppingFollowsSections(before, before, last.name);
      var others := Others(before, last.name);
      RecordsSnoc(others, last);
      Regroup(earlier, Records(others), RecordOf(last));
    }
  }

  // Validating them

  /** The outputs without the screen effect of the first one with this name. */
  function Cleared(outputs: seq<OutputRule>, name: string): seq<OutputRule> {
    if outputs == [] then []
    else if SameName(outputs[0].name, name) then [outputs[0].(screenEffect := None)] + outputs[1..]
    else [outputs[0]] + Cleared(outputs[1..], name)
  }

  function Validated(e: EffectReferences.Effects, outputs: seq<OutputRule>, records: seq<Recorded>): seq<OutputRule> {
    if records == [] then outputs
    else
      var last, earlier := records[|records| - 1], Validated(e, outputs, records[..|records| - 1]);
      if last.clears.Some? && Rejected(e, last.reference) then Cleared(earlier, last.clears.value) else earlier
  }

  method ClearScreenEffect(outputs: seq<OutputRule>, name: string) returns (cleared: seq<OutputRule>)
    ensures cleared == Cleared(outputs, name)
  {
    for i := 0 to |outputs|
      invariant Cleared(outputs, name) == outputs[..i] + Cleared(outputs[i..], name)
    {
      var same := OutputNamesEqual(outputs[i].name, name);
      if same {
        return outputs[..i] + [outputs[i].(screenEffect := None)] + outputs[i + 1..];
      }
      assert outputs[i..][1..] == outputs[i + 1..];
      assert outputs[..i + 1] == outputs[..i] + [outputs[i]];
      Regroup(outputs[..i], [outputs[i]], Cleared(outputs[i + 1..], name));
    }
    cleared := outputs;
  }

  /** `validateEffectReferences`, as far as it concerns outputs. */
  method ValidateScreenEffects(e: EffectReferences.Effects, outputs: seq<OutputRule>, records: seq<Recorded>)
    returns (validated: seq<OutputRule>)
    ensures validated == Validated(e, outputs, records)
  {
    validated := outputs;
    for i := 0 to |records|
      invariant validated == Validated(e, outputs, records[..i])
    {
      assert records[..i + 1][..i] == records[..i];
      if records[i].clears.Some? && Rejected(e, records[i].reference) {
        validated := ClearScreenEffect(validated, records[i].clears.value);
      }
    }
    assert records[..|records|] == records;
  }

  /** A rule without a screen effect that may not be used. */
  function Cleaned(e: EffectReferences.Effects): OutputRule -> OutputRule {
    (rule: OutputRule) =>
      if rule.screenEffect.Some? && Rejected(e, ScreenReference(rule.name, rule.screenEffect.value)) then
        rule.(screenEffect := None)
      else rule
  }

  lemma {:induction false} ClearedAt(outputs: seq<OutputRule>, k: nat, name: string)
    requires k < |outputs| && SameName(outputs[k].name, name)
    requires forall j :: 0 <= j < k ==> !SameName(outputs[j].name, name)
    ensures Cleared(outputs, name) == outputs[k := outputs[k].(screenEffect := None)]
  {
    if k == 0 {
    } else {
      ClearedAt(outputs[1..], k - 1, name);
    }
  }

  lemma {:induction false} OthersLeaveOutputs(
    e: EffectReferences.Effects, outputs: seq<OutputRule>, records: seq<Recorded>)
    requires NoneOfOutputs(records)
    ensures Validated(e, outputs, records) == outputs
  {
    if records == [] {
    } else {
      var n := |records| - 1;
      assert records == records[..n] + [records[n]];
      OthersLeaveOutputs(e, outputs, records[..n]);
      assert IsOther(records[n]);
    }
  }

  lemma {:induction false} ValidatedConcat(
    e: EffectReferences.Effects, outputs: seq<OutputRule>, a: seq<Recorded>, b: seq<Recorded>)
    ensures Validated(e, outputs, a + b) == Validated(e, Validated(e, outputs, a), b)
  {
    if b == [] {
      assert a + b == a;
    } else {
      var n := |b| - 1;
      assert (a + b)[..|a| + n] == a + b[..n];
      ValidatedConcat(e, outputs, a, b[..n]);
    }
  }

  /** The first `k` rules cleaned, the others as they were. */
  function CleanedUpTo(e: EffectReferences.Effects, outputs: seq<OutputRule>, k: nat): (r: seq<OutputRule>)
    requires k <= |outputs|
    ensures |r| == |outputs|
    ensures forall i :: 0 <= i < |outputs| ==> r[i] == if i < k then Cleaned(e)(outputs[i]) else outputs[i]
  {
    Map(Cleaned(e), outputs[..k]) + outputs[k..]
  }

  lemma CleansNext(e: EffectReferences.Effects, outputs: seq<OutputRule>, k: nat)
    requires DistinctNames(outputs) && k < |outputs|
    ensures Validated(e, CleanedUpTo(e, outputs, k), RecordOf(outputs[k])) == CleanedUpTo(e, outputs, k + 1)
  {
    var partly, rule := CleanedUpTo(e, outputs, k), outputs[k];
    if rule.screenEffect.Some? {
      assert RecordOf(rule)[..0] == [];
      if Rejected(e, ScreenReference(rule.name, rule.screenEffect.value)) {
        ClearedAt(partly, k, rule.name);
      }
    }
    assert Validated(e, partly, RecordOf(rule)) == CleanedUpTo(e, outputs, k + 1);
  }

  lemma {:induction false} ValidationCleansUpTo(e: EffectReferences.Effects, outputs: seq<OutputRule>, k: nat)
    requires DistinctNames(outputs) && k <= |outputs|
    ensures Validated(e, outputs, Records(outputs[..k])) == CleanedUpTo(e, outputs, k)
  {
    if k == 0 {
    } else {
      ValidationCleansUpTo(e, outputs, k - 1);
      assert outputs[..k][..k - 1] == outputs[..k - 1];
      ValidatedConcat(e, outputs, Records(outputs[..k - 1]), RecordOf(outputs[k - 1]));
      CleansNext(e, outputs, k - 1);
    }
  }

  /** Each section in force keeps its screen effect exactly when the effect may be used, whatever a section it replaced
      said. */
  lemma SectionsKeepTheirEffect(e: EffectReferences.Effects, earlier: seq<Recorded>, sections: seq<OutputRule>)
    requires NoneOfOutputs(earlier)
    ensures Validated(e, InForce(sections), Recording(earlier, sections)) == Map(Cleaned(e), InForce(sections))
  {
    var outputs := InForce(sections);
    RecordsMatchSections(earlier, sections);
    ValidatedConcat(e, outputs, earlier, Records(outputs));
    OthersLeaveOutputs(e, outputs, earlier);
    InForceIsDistinct(sections);
    ValidationCleansUpTo(e, outputs, |outputs|);
    assert outputs[..|outputs|] == outputs;
    assert CleanedUpTo(e, outputs, |outputs|) == Map(Cleaned(e), outputs);
  }

  /** The effect a section may name: none, or the one of a screen preset without a scene, or of a screen pool. */
  ghost predicate MayShow(e: EffectReferences.Effects, name: string) {
    if exists i :: IsFirstPreset(e.presets, i, name) then
      exists i :: IsFirstPreset(e.presets, i, name) && e.presets[i].scene.None?
                  && (name == "" || name == "off" || e.presets[i].kind == Kind.Screen)
    else
      name == "" || name == "off" || exists i :: IsFirstPool(e.pools, i, name) && e.pools[i].kind == Kind.Screen
  }

  lemma MayShowExactly(e: EffectReferences.Effects, output: string, name: string)
    ensures Rejected(e, ScreenReference(output, name)) <==> !MayShow(e, name)
  {
    if FindPreset(e.presets, name).Some? {
      var i := FoundPresetIsFirst(e.presets, name);
    }
    if FindPool(e.pools, name).Some? {
      var i := FoundPoolIsFirst(e.pools, name);
    }
    forall i | IsFirstPool(e.pools, i, name) ensures FindPool(e.pools, name) == Some(e.pools[i]) {
      FirstPoolIsFound(e.pools, i, name);
    }
  }

  /** Said without the validation: what each section in force shows in the end. */
  lemma SectionsShowWhatTheyMay(e: EffectReferences.Effects, earlier: seq<Recorded>, sections: seq<OutputRule>, k: nat)
    requires NoneOfOutputs(earlier) && k < |InForce(sections)|
    ensures var before, all := InForce(sections)[k], Validated(e, InForce(sections), Recording(earlier, sections));
            && k < |all|
            && all[k] == before.(screenEffect := if before.screenEffect.Some? && MayShow(e, before.screenEffect.value)
                                                 then before.screenEffect else None)
  {
    SectionsKeepTheirEffect(e, earlier, sections);
    var before := InForce(sections)[k];
    if before.screenEffect.Some? {
      MayShowExactly(e, before.name, before.screenEffect.value);
    }
  }

  lemma Replaced(bad: OutputRule, good: OutputRule)
    requires SameName(bad.name, good.name)
    ensures InForce([bad, good]) == [good]
  {
    InForceSnoc([], bad);
    InForceSnoc([bad], good);
    assert [bad, good] == [] + [bad] + [good] && [bad][..0] == [];
  }

  lemma OneValidated(e: EffectReferences.Effects, output: OutputRule, rule: OutputRule)
    requires rule.screenEffect.Some? && SameName(output.name, rule.name)
    ensures Validated(e, [output], Records([rule]))
         == if Rejected(e, ScreenReference(rule.name, rule.screenEffect.value)) then [output.(screenEffect := None)]
            else [output]
  {
    assert [rule][..0] == [] && Records([rule]) == RecordOf(rule) && RecordOf(rule)[..0] == [];
    ClearedAt([output], 0, rule.name);
  }

  /** Why the references of a replaced section have to go: kept, a bad one would clear the good effect that replaced
      it. */
  lemma StaleReferencesWouldClear(e: EffectReferences.Effects, bad: OutputRule, good: OutputRule)
    requires SameName(bad.name, good.name) && bad.screenEffect.Some? && good.screenEffect.Some?
    requires Rejected(e, ScreenReference(bad.name, bad.screenEffect.value))
    requires !Rejected(e, ScreenReference(good.name, good.screenEffect.value))
    ensures InForce([bad, good]) == [good] && Cleaned(e)(good) == good
    ensures Validated(e, [good], Records([bad]) + Records([good])) == [good.(screenEffect := None)]
  {
    Replaced(bad, good);
    ValidatedConcat(e, [good], Records([bad]), Records([good]));
    OneValidated(e, good, bad);
    OneValidated(e, good.(screenEffect := None), good);
  }
}
