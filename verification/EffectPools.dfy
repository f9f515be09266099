/** Reading `[effects.pool.*]`, and what a pool holds once every reference has been validated. */
module EffectPools {
  import opened Declarations
  import opened EffectPresets
  import opened EffectReferences
  import opened Options
  import opened Sequences
  import opened Toml

  predicate ValidSelection(keys: Entries) {
    "selection" in keys ==>
      keys["selection"].Text? && keys["selection"].text in ["unused_first", "round_robin", "random"]
  }

  /** The kind a pool table declares; animations have no pools. */
  function PoolKind(keys: Entries): Option<Kind> {
    if "kind" !in keys || !keys["kind"].Text? then None
    else
      var kind := KindNamed(keys["kind"].text);
      if kind == Some(Animation) then None else kind
  }

  predicate UsableText(v: Value) {
    v.Text? && v.text != "" && v.text != EFFECT_OFF
  }

  /** The names a `choose` array contributes: usable texts, the first of each. */
  function Chosen(choose: seq<Value>): seq<string> {
    if choose == [] then []
    else
      var earlier := Chosen(choose[..|choose| - 1]);
      var last := choose[|choose| - 1];
      if UsableText(last) && last.text !in earlier then earlier + [last.text] else earlier
  }

  /** The pool one declaration defines, if it defines any. */
  function PoolOf(name: string, table: Entries): Option<Pool> {
    if name !in table || !ValidEffectName(name) || !table[name].Table? then None
    else
      var keys := table[name].entries;
      if PoolKind(keys).None? || "choose" !in keys || !keys["choose"].Array? || !ValidSelection(keys) then None
      else Some(Pool(name, PoolKind(keys).value, Chosen(keys["choose"].elements)))
  }

  /** What one declaration adds. */
  function Added(name: string, table: Entries): seq<Pool> {
    var pool := PoolOf(name, table);
    if pool.Some? then [pool.value] else []
  }

  function PoolsOf(declarations: seq<string>, table: Entries): seq<Pool> {
    if declarations == [] then []
    else PoolsOf(declarations[..|declarations| - 1], table) + Added(declarations[|declarations| - 1], table)
  }

  lemma PoolsOfSnoc(declarations: seq<string>, n: nat, table: Entries)
    requires n < |declarations|
    ensures PoolsOf(declarations[..n + 1], table) == PoolsOf(declarations[..n], table) + Added(declarations[n], table)
    ensures |Added(declarations[n], table)| <= 1
  {
    assert declarations[..n + 1][..n] == declarations[..n];
  }

  function MemberReference(pool: Pool, position: nat, i: nat): Reference
    requires i < |pool.members|
  {
    Reference(pool.members[i], pool.kind, false, PresetOnly, OtherBinding, MemberOf(position, i))
  }

  /** The references of the first `n` members. */
  function MemberReferences(pool: Pool, position: nat, n: nat): seq<Reference>
    requires n <= |pool.members|
  {
    if n == 0 then [] else MemberReferences(pool, position, n - 1) + [MemberReference(pool, position, n - 1)]
  }

  function ReferencesOf(pool: Pool, position: nat): seq<Reference> {
    MemberReferences(pool, position, |pool.members|)
  }

  /** The references the pools from `first` on leave behind. */
  function PoolReferences(pools: seq<Pool>, first: nat): seq<Reference> {
    if pools == [] then []
    else
      var n := |pools| - 1;
      PoolReferences(pools[..n], first) + ReferencesOf(pools[n], first + n)
  }

  lemma OnePoolMore(pools: seq<Pool>, pool: Pool, first: nat)
    ensures PoolReferences(pools + [pool], first) == PoolReferences(pools, first) + ReferencesOf(pool, first + |pools|)
  {
    assert (pools + [pool])[..|pools|] == pools;
  }

  lemma AtMostOneMore(pools: seq<Pool>, added: seq<Pool>, first: nat)
    requires |added| <= 1
    ensures PoolReferences(pools + added, first)
        == PoolReferences(pools, first) + PoolReferences(added, first + |pools|)
  {
    if added == [] {
      assert pools + added == pools;
      assert PoolReferences(pools, first) + [] == PoolReferences(pools, first);
    } else {
      OnePoolMore(pools, added[0], first);
      OnePoolMore([], added[0], first + |pools|);
      assert [] + added == added && added == [added[0]];
      assert [] + ReferencesOf(added[0], first + |pools|) == ReferencesOf(added[0], first + |pools|);
    }
  }

  lemma {:induction false} SameMembersBefore(pool: Pool, longer: Pool, position: nat, n: nat)
    requires n <= |pool.members| && pool.members <= longer.members && pool.kind == longer.kind
    ensures MemberReferences(pool, position, n) == MemberReferences(longer, position, n)
  {
    if n == 0 {
    } else {
      SameMembersBefore(pool, longer, position, n - 1);
    }
  }

  /** Fills the pool appended last. */
  method ReadMembers(choose: seq<Value>, effects: Loaded) returns (references: seq<Reference>)
    requires effects.pools != [] && effects.pools[|effects.pools| - 1].members == []
    modifies effects`pools
    ensures var position := |old(effects.pools)| - 1;
            var pool := old(effects.pools)[position].(members := Chosen(choose));
            effects.pools == old(effects.pools)[position := pool] && references == ReferencesOf(pool, position)
  {
    references := [];
    var position := |effects.pools| - 1;
    for i := 0 to |choose|
      invariant effects.pools
          == old(effects.pools)[position := old(effects.pools)[position].(members := Chosen(choose[..i]))]
      invariant references == ReferencesOf(effects.pools[position], position)
    {
      var value := choose[i];
      assert choose[..i + 1][..i] == choose[..i];
      var pool := effects.pools[position];
      if !UsableText(value) || value.text in pool.members {
        continue;
      }
      references := references
        + [Reference(value.text, pool.kind, false, PresetOnly, OtherBinding, MemberOf(position, |pool.members|))];
      ghost var longer := pool.(members := pool.members + [value.text]);
      SameMembersBefore(pool, longer, position, |pool.members|);
      effects.pools := effects.pools[position := pool.(members := pool.members + [value.text])];
    }
    assert choose[..|choose|] == choose;
  }

  /** One declaration of the loop below. */
  method ReadPool(name: string, table: Entries, effects: Loaded) returns (references: seq<Reference>)
    modifies effects`pools
    ensures effects.pools == old(effects.pools) + Added(name, table)
    ensures references == PoolReferences(Added(name, table), |old(effects.pools)|)
  {
    if name !in table || !ValidEffectName(name) || !table[name].Table? {
      return [];
    }
    var keys := table[name].entries;
    var kind := PoolKind(keys);
    if kind.None? || "choose" !in keys || !keys["choose"].Array? || !ValidSelection(keys) {
      return [];
    }
    effects.pools := effects.pools + [Pool(name, kind.value, [])];
    references := ReadMembers(keys["choose"].elements, effects);
    assert Added(name, table)[..0] == [];
  }

  lemma NextPool(declarations: seq<string>, n: nat, table: Entries, before: seq<Pool>)
    requires n < |declarations|
    ensures var pools, added := PoolsOf(declarations[..n], table), Added(declarations[n], table);
            var all := PoolsOf(declarations[..n + 1], table);
            && before + all == before + pools + added
            && PoolReferences(all, |before|)
               == PoolReferences(pools, |before|) + PoolReferences(added, |before + pools|)
  {
    var pools, added := PoolsOf(declarations[..n], table), Added(declarations[n], table);
    PoolsOfSnoc(declarations, n, table);
    AtMostOneMore(pools, added, |before|);
    Regroup(before, pools, added);
  }

  /** `readEffectPools`: appends the pools in declaration order and records one reference per member. */
  method ReadEffectPools(declarations: seq<string>, table: Entries, effects: Loaded)
    returns (references: seq<Reference>)
    modifies effects`pools
    ensures effects.pools == old(effects.pools) + PoolsOf(declarations, table)
    ensures references == PoolReferences(PoolsOf(declarations, table), |old(effects.pools)|)
  {
    references := [];
    ghost var before := effects.pools;
    for n := 0 to |declarations|
      invariant effects.pools == before + PoolsOf(declarations[..n], table)
      invariant references == PoolReferences(PoolsOf(declarations[..n], table), |before|)
    {
      var recorded := ReadPool(declarations[n], table, effects);
      NextPool(declarations, n, table, before);
      references := references + recorded;
    }
    assert declarations[..|declarations|] == declarations;
  }

  // What survives validation

  /** A pool member that stands: a preset of the pool's kind that is not bound to a scene. */
  predicate Stands(presets: seq<Preset>, kind: Kind, name: string) {
    var preset := FindPreset(presets, name);
    preset.Some? && preset.value.kind == kind && preset.value.scene.None?
  }

  /** The preset with this name has this kind and no scene. */
  ghost predicate NamesUnscened(presets: seq<Preset>, kind: Kind, name: string) {
    exists i :: IsFirstPreset(presets, i, name) && presets[i].kind == kind && presets[i].scene.None?
  }

  lemma StandsExactly(presets: seq<Preset>, kind: Kind, name: string)
    ensures Stands(presets, kind, name) <==> NamesUnscened(presets, kind, name)
  {
    if FindPreset(presets, name).Some? {
      var i := FoundPresetIsFirst(presets, name);
    }
    if i :| IsFirstPreset(presets, i, name) && presets[i].kind == kind && presets[i].scene.None? {
      FirstPresetIsFound(presets, i, name);
    }
  }

  function Standing(presets: seq<Preset>, kind: Kind, names: seq<string>): seq<string> {
    if names == [] then []
    else
      var last := names[|names| - 1];
      Standing(presets, kind, names[..|names| - 1]) + if Stands(presets, kind, last) then [last] else []
  }

  lemma {:induction false} StandingHolds(presets: seq<Preset>, kind: Kind, names: seq<string>)
    ensures forall x :: x in Standing(presets, kind, names) <==> x in names && Stands(presets, kind, x)
    ensures NoDuplicates(names) ==> NoDuplicates(Standing(presets, kind, names))
  {
    if names == [] {
    } else {
      var n := |names| - 1;
      StandingHolds(presets, kind, names[..n]);
      assert names == names[..n] + [names[n]];
    }
  }

  lemma {:induction false} ChosenHolds(choose: seq<Value>)
    ensures NoDuplicates(Chosen(choose)) && "" !in Chosen(choose)
    ensures forall x :: x in Chosen(choose) <==> x != "" && x != EFFECT_OFF && Text(x) in choose
  {
    if choose == [] {
    } else {
      var n := |choose| - 1;
      ChosenHolds(choose[..n]);
      assert choose == choose[..n] + [choose[n]];
    }
  }

  function TextIn(v: Value): string {
    if v.Text? then v.text else ""
  }

  /** Members keep the order in which they are first chosen. */
  lemma {:induction false} ChosenInOrder(choose: seq<Value>)
    ensures Chosen(choose)
         == Declare([], Filtered(choose, (v: Value) => v.Text? && v.text != "" && v.text != "off", TextIn))
  {
    if choose == [] {
    } else {
      var n := |choose| - 1;
      ChosenInOrder(choose[..n]);
      var texts := Filtered(choose[..n], (v: Value) => v.Text? && v.text != "" && v.text != "off", TextIn);
      assert (texts + [TextIn(choose[n])])[..|texts|] == texts && texts + [] == texts;
    }
  }

  lemma {:induction false} PoolsComeFromDeclarations(declarations: seq<string>, table: Entries)
    ensures forall p ::
              p in PoolsOf(declarations, table) <==> exists d :: d in declarations && PoolOf(d, table) == Some(p)
  {
    if declarations == [] {
    } else {
      var n := |declarations| - 1;
      PoolsComeFromDeclarations(declarations[..n], table);
      assert declarations == declarations[..n] + [declarations[n]];
    }
  }

  ghost predicate IsMember(pools: seq<Pool>, p: int, i: int) {
    0 <= p < |pools| && 0 <= i < |pools[p].members|
  }

  ghost predicate IsReferenceOf(pools: seq<Pool>, first: nat, p: int, i: int, r: Reference) {
    IsMember(pools, p, i) && r == MemberReference(pools[p], first + p, i)
  }

  lemma {:induction false} MemberReferencesHold(pool: Pool, position: nat, n: nat)
    requires n <= |pool.members|
    ensures forall i :: 0 <= i < n ==> MemberReference(pool, position, i) in MemberReferences(pool, position, n)
    ensures forall r :: r in MemberReferences(pool, position, n) ==>
              exists i :: 0 <= i < n && r == MemberReference(pool, position, i)
  {
    if n == 0 {
    } else {
      MemberReferencesHold(pool, position, n - 1);
    }
  }

  lemma {:induction false} ReferenceIsRecorded(pools: seq<Pool>, first: nat, p: nat, i: nat)
    requires IsMember(pools, p, i)
    ensures MemberReference(pools[p], first + p, i) in PoolReferences(pools, first)
  {
    var n := |pools| - 1;
    if p == n {
      MemberReferencesHold(pools[n], first + n, |pools[n].members|);
    } else {
      ReferenceIsRecorded(pools[..n], first, p, i);
    }
  }

  lemma {:induction false} RecordedIsReference(pools: seq<Pool>, first: nat, r: Reference) returns (p: nat, i: nat)
    requires r in PoolReferences(pools, first)
    ensures IsReferenceOf(pools, first, p, i, r)
  {
    var n := |pools| - 1;
    if r in ReferencesOf(pools[n], first + n) {
      MemberReferencesHold(pools[n], first + n, |pools[n].members|);
      p := n;
      i :| 0 <= i < |pools[n].members| && r == MemberReference(pools[n], first + n, i);
    } else {
      p, i := RecordedIsReference(pools[..n], first, r);
    }
  }

  /** The references of one validation: those of the pools and any recorded for slots elsewhere. */
  ghost predicate CoversPools(e: Effects, references: seq<Reference>) {
    && (forall r :: r in PoolReferences(e.pools, 0) ==> r in references)
    && (forall r :: r in references && r.slot.MemberOf? ==> r in PoolReferences(e.pools, 0))
  }

  lemma MemberCleared(e: Effects, references: seq<Reference>, p: nat, i: nat)
    requires p < |e.pools| && i < |e.pools[p].members| && e.pools[p].members[i] != ""
    requires CoversPools(e, references)
    ensures Cleared(e, references, MemberOf(p, i)) <==> !Stands(e.presets, e.pools[p].kind, e.pools[p].members[i])
  {
    var reference := MemberReference(e.pools[p], p, i);
    ReferenceIsRecorded(e.pools, 0, p, i);
    assert reference in references;
    forall r | r in references && r.slot == MemberOf(p, i)
      ensures r == reference
    {
      var q, j := RecordedIsReference(e.pools, 0, r);
    }
  }

  lemma {:induction false} BlanksLeave(presets: seq<Preset>, kind: Kind, names: seq<string>, blanked: seq<string>)
    requires |names| == |blanked| && "" !in names
    requires forall i :: 0 <= i < |names| ==> blanked[i] == if Stands(presets, kind, names[i]) then names[i] else ""
    ensures WithoutBlanks(blanked) == Standing(presets, kind, names)
  {
    if names == [] {
    } else {
      var n := |names| - 1;
      BlanksLeave(presets, kind, names[..n], blanked[..n]);
    }
  }

  /** Validation and erasure together leave each pool exactly the members that stand, in their order. */
  lemma PoolsKeepWhatStands(e: Effects, references: seq<Reference>, p: nat)
    requires CoversPools(e, references) && p < |e.pools| && "" !in e.pools[p].members
    ensures Erased(AfterCallbacks(e, references)).pools[p]
         == e.pools[p].(members := Standing(e.presets, e.pools[p].kind, e.pools[p].members))
  {
    var after := AfterCallbacks(e, references);
    CallbacksClear(e, references);
    var names, blanked := e.pools[p].members, after.pools[p].members;
    forall i | 0 <= i < |names|
      ensures blanked[i] == if Stands(e.presets, e.pools[p].kind, names[i]) then names[i] else ""
    {
      MemberCleared(e, references, p, i);
      assert e.Has(MemberOf(p, i)) && after.At(MemberOf(p, i)) == blanked[i];
    }
    BlanksLeave(e.presets, e.pools[p].kind, names, blanked);
  }

  /** After reading the pools of a document and validating everything recorded, every pool holds distinct, non-empty
      names of presets of its own kind: exactly the written ones that name such a preset. */
  lemma PoolsHoldTheirPresets(e: Effects, references: seq<Reference>, declarations: seq<string>, table: Entries, p: nat)
    requires e.pools == PoolsOf(declarations, table) && CoversPools(e, references) && p < |e.pools|
    ensures var pool := Erased(AfterCallbacks(e, references)).pools[p];
            && pool.name in declarations && pool.name in table && table[pool.name].Table?
            && pool.kind != Animation
            && NoDuplicates(pool.members) && "" !in pool.members
            && var keys := table[pool.name].entries;
               "choose" in keys && keys["choose"].Array? &&
               forall x :: x in pool.members <==>
                 x != "off" && x != "" && Text(x) in keys["choose"].elements && NamesUnscened(e.presets, pool.kind, x)
  {
    forall x ensures Stands(e.presets, e.pools[p].kind, x) <==> NamesUnscened(e.presets, e.pools[p].kind, x) {
      StandsExactly(e.presets, e.pools[p].kind, x);
    }
    PoolsComeFromDeclarations(declarations, table);
    assert e.pools[p] in e.pools;
    var d :| d in declarations && PoolOf(d, table) == Some(e.pools[p]);
    ChosenHolds(table[d].entries["choose"].elements);
    PoolsKeepWhatStands(e, references, p);
    StandingHolds(e.presets, e.pools[p].kind, e.pools[p].members);
  }

  // Which tables define a pool

  /** A table describes a pool of this kind: it names the kind, which is no animation, has a list to choose from, and
      chooses in a known way if it says how. */
  ghost predicate DescribesPool(keys: Entries, kind: Kind) {
    && kind != Animation && Says(keys, "kind", KindName(kind)) && "choose" in keys && keys["choose"].Array?
    && ("selection" in keys ==>
          || Says(keys, "selection", "unused_first") || Says(keys, "selection", "round_robin")
          || Says(keys, "selection", "random"))
  }

  /** The pool that a declared name defines is the one its table describes. */
  lemma PoolIsDescribed(name: string, table: Entries)
    ensures PoolOf(name, table).Some? <==>
              && name in table && table[name].Table? && name != "" && name != "off" && '/' !in name
              && exists kind :: DescribesPool(table[name].entries, kind)
    ensures PoolOf(name, table).Some? ==>
              PoolOf(name, table).value.name == name
              && DescribesPool(table[name].entries, PoolOf(name, table).value.kind)
  {
    if name in table && table[name].Table? {
      var keys := table[name].entries;
      if "kind" in keys && keys["kind"].Text? {
        WordsReadBack(keys["kind"].text);
      }
      if kind :| DescribesPool(keys, kind) {
        assert KindNamed(KindName(kind)) == Some(kind);
      }
      if PoolOf(name, table).Some? {
        assert DescribesPool(keys, PoolOf(name, table).value.kind);
      }
    }
  }
}
