/** Effect presets and pools, and the deferred validation of everything that names them. */
module EffectReferences {
  import opened Options

  datatype Kind = Animation | Border | Window | Screen | Cursor
  datatype Scope = WorkspacePair | WorkspaceSet | WindowScene
  datatype Binding = WorkspaceSwitch | WindowOpen | WindowClose | Presentation | OtherBinding
  datatype Constraint = PresetOnly | PresetOrPool | PoolRequired

  const EFFECT_OFF := "off"

  datatype Preset = Preset(name: string, kind: Kind, scene: Option<Scope>, overlay: string)
  datatype Pool = Pool(name: string, kind: Kind, members: seq<string>)

  /** Where a selector is stored, which is what its rejection clears. */
  datatype Slot = OverlayOf(preset: nat) | MemberOf(pool: nat, index: nat) | Selector(path: string)

  datatype Reference = Reference(
    name: string, kind: Kind, allowOff: bool, constraint: Constraint, binding: Binding, slot: Slot)

  /** The effect definitions and every selector outside them, by configuration path. */
  datatype Effects = Effects(presets: seq<Preset>, pools: seq<Pool>, selectors: map<string, string>) {

    ghost predicate Has(slot: Slot) {
      match slot
      case OverlayOf(i) => i < |presets|
      case MemberOf(i, j) => i < |pools| && j < |pools[i].members|
      case Selector(path) => path in selectors
    }

    ghost function At(slot: Slot): string
      requires Has(slot)
    {
      match slot
      case OverlayOf(i) => presets[i].overlay
      case MemberOf(i, j) => pools[i].members[j]
      case Selector(path) => selectors[path]
    }
  }

  function FindPreset(presets: seq<Preset>, name: string): (r: Option<Preset>)
    ensures r.Some? ==> r.value in presets && r.value.name == name
    ensures r.None? ==> forall p :: p in presets ==> p.name != name
  {
    if presets == [] then None
    else if presets[0].name == name then Some(presets[0])
    else
      assert presets == [presets[0]] + presets[1..];
      FindPreset(presets[1..], name)
  }

  function FindPool(pools: seq<Pool>, name: string): (r: Option<Pool>)
    ensures r.Some? ==> r.value in pools && r.value.name == name
    ensures r.None? ==> forall p :: p in pools ==> p.name != name
  {
    if pools == [] then None
    else if pools[0].name == name then Some(pools[0])
    else
      assert pools == [pools[0]] + pools[1..];
      FindPool(pools[1..], name)
  }

  /** `effectReferenceError`: true when the name may not be used. */
  predicate NameError(e: Effects, name: string, kind: Kind, allowOff: bool, constraint: Constraint) {
    if name == "" || (allowOff && name == EFFECT_OFF) then false
    else
      match FindPreset(e.presets, name)
      case Some(preset) => preset.kind != kind || constraint == PoolRequired
      case None =>
        match FindPool(e.pools, name)
        case Some(pool) => constraint == PresetOnly || pool.kind != kind
        case None => true
  }

  predicate AcceptsBinding(scope: Scope, binding: Binding) {
    match scope
    case WorkspacePair => binding == WorkspaceSwitch
    case WorkspaceSet => binding == Presentation
    case WindowScene => binding == WindowOpen || binding == WindowClose
  }

  /** Why a recorded reference is rejected, its binding included. */
  predicate Rejected(e: Effects, r: Reference) {
    || NameError(e, r.name, r.kind, r.allowOff, r.constraint)
    || match FindPreset(e.presets, r.name)
       case None => false
       case Some(preset) =>
         if preset.scene.Some? then !AcceptsBinding(preset.scene.value, r.binding) else r.binding == Presentation
  }

  // Definitions decide, selectors do not

  ghost predicate SamePreset(a: Preset, b: Preset) {
    a.name == b.name && a.kind == b.kind && a.scene == b.scene
  }

  ghost predicate SameDefinitions(a: Effects, b: Effects) {
    && |a.presets| == |b.presets| && |a.pools| == |b.pools|
    && (forall i :: 0 <= i < |a.presets| ==> SamePreset(a.presets[i], b.presets[i]))
    && (forall i :: 0 <= i < |a.pools| ==> a.pools[i].name == b.pools[i].name && a.pools[i].kind == b.pools[i].kind)
  }

  lemma {:induction false} SamePresetFound(a: seq<Preset>, b: seq<Preset>, name: string)
    requires |a| == |b| && forall i :: 0 <= i < |a| ==> SamePreset(a[i], b[i])
    ensures var x, y := FindPreset(a, name), FindPreset(b, name);
            x.Some? == y.Some? && (x.Some? ==> SamePreset(x.value, y.value))
  {
    if a == [] {
    } else {
      SamePresetFound(a[1..], b[1..], name);
    }
  }

  lemma {:induction false} SamePoolFound(a: seq<Pool>, b: seq<Pool>, name: string)
    requires |a| == |b| && forall i :: 0 <= i < |a| ==> a[i].name == b[i].name && a[i].kind == b[i].kind
    ensures var x, y := FindPool(a, name), FindPool(b, name);
            x.Some? == y.Some? && (x.Some? ==> x.value.kind == y.value.kind)
  {
    if a == [] {
    } else {
      SamePoolFound(a[1..], b[1..], name);
    }
  }

  lemma SameRejections(a: Effects, b: Effects, r: Reference)
    requires SameDefinitions(a, b)
    ensures Rejected(a, r) == Rejected(b, r)
  {
    SamePresetFound(a.presets, b.presets, r.name);
    SamePoolFound(a.pools, b.pools, r.name);
  }

  // One pass of validation

  /** Some reference recorded for this slot is rejected. */
  ghost predicate Cleared(e: Effects, references: seq<Reference>, slot: Slot) {
    exists r :: r in references && r.slot == slot && Rejected(e, r)
  }

  function WithoutBlanks(names: seq<string>): seq<string> {
    if names == [] then []
    else
      var last := names[|names| - 1];
      WithoutBlanks(names[..|names| - 1]) + if last == "" then [] else [last]
  }

  /** After the callbacks: every rejected slot is blank, every other one untouched. */
  ghost predicate IsCleared(e: Effects, references: seq<Reference>, after: Effects) {
    && SameDefinitions(e, after)
    && (forall i :: 0 <= i < |e.pools| ==> |after.pools[i].members| == |e.pools[i].members|)
    && after.selectors.Keys == e.selectors.Keys
    && (forall slot :: e.Has(slot) ==>
        after.Has(slot) && after.At(slot) == if Cleared(e, references, slot) then "" else e.At(slot))
  }

  /** The references were recorded for slots that exist, with what the slots hold. */
  ghost predicate Recorded(e: Effects, references: seq<Reference>) {
    forall r :: r in references ==> e.Has(r.slot) && e.At(r.slot) == r.name
  }

  /** One callback. */
  function ClearAt(e: Effects, slot: Slot): Effects {
    match slot
    case OverlayOf(i) =>
      if i < |e.presets| then e.(presets := e.presets[i := e.presets[i].(overlay := "")]) else e
    case MemberOf(i, j) =>
      if i < |e.pools| && j < |e.pools[i].members| then
        e.(pools := e.pools[i := e.pools[i].(members := e.pools[i].members[j := ""])])
      else e
    case Selector(path) =>
      if path in e.selectors then e.(selectors := e.selectors[path := ""]) else e
  }

  lemma ClearsOnly(e: Effects, slot: Slot)
    ensures var c := ClearAt(e, slot);
            && SameDefinitions(e, c)
            && (forall i :: 0 <= i < |e.pools| ==> |c.pools[i].members| == |e.pools[i].members|)
            && c.selectors.Keys == e.selectors.Keys
            && forall s :: e.Has(s) ==> c.Has(s) && c.At(s) == if s == slot then "" else e.At(s)
  {
  }

  /** All callbacks, in recording order, each decided against the state it meets. */
  function AfterCallbacks(e: Effects, references: seq<Reference>): (after: Effects)
    ensures |after.pools| == |e.pools|
  {
    if references == [] then e
    else
      var last := references[|references| - 1];
      var before := AfterCallbacks(e, references[..|references| - 1]);
      if Rejected(before, last) then ClearAt(before, last.slot) else before
  }

  /** Clearing never changes what is valid, so each slot is decided by the original definitions alone. */
  lemma {:induction false} CallbacksClear(e: Effects, references: seq<Reference>)
    ensures IsCleared(e, references, AfterCallbacks(e, references))
  {
    if references == [] {
    } else {
      var n := |references| - 1;
      var last, before := references[n], AfterCallbacks(e, references[..n]);
      CallbacksClear(e, references[..n]);
      SameRejections(e, before, last);
      ClearsOnly(before, last.slot);
      assert references == references[..n] + [last];
      forall slot | e.Has(slot)
        ensures Cleared(e, references, slot)
            <==> Cleared(e, references[..n], slot) || (last.slot == slot && Rejected(e, last))
      {
      }
    }
  }

  /** One pass is enough: when it is over, every recorded slot is blank or holds a name that is still accepted. */
  lemma OnePassSuffices(e: Effects, references: seq<Reference>, r: Reference)
    requires Recorded(e, references) && r in references
    ensures var after := AfterCallbacks(e, references);
            after.Has(r.slot) && (after.At(r.slot) == "" || (after.At(r.slot) == r.name && !Rejected(after, r)))
  {
    CallbacksClear(e, references);
    SameRejections(e, AfterCallbacks(e, references), r);
  }

  /** A slot recorded once loses its name exactly when the name is rejected. */
  lemma ClearedIffRejected(e: Effects, references: seq<Reference>, r: Reference)
    requires Recorded(e, references) && r in references && r.name != ""
    requires forall other :: other in references && other.slot == r.slot ==> other == r
    ensures AfterCallbacks(e, references).Has(r.slot)
    ensures AfterCallbacks(e, references).At(r.slot) == "" <==> Rejected(e, r)
  {
    CallbacksClear(e, references);
  }

  // Which names stand, case by case

  /** A reference recorded with what its slot holds, and the only one for that slot. */
  ghost predicate RecordedOnce(e: Effects, references: seq<Reference>, r: Reference) {
    && Recorded(e, references) && r in references
    && forall other :: other in references && other.slot == r.slot ==> other == r
  }

  /** The first definition with this name. */
  ghost predicate IsFirstPreset(presets: seq<Preset>, i: int, name: string) {
    0 <= i < |presets| && presets[i].name == name && forall j :: 0 <= j < i ==> presets[j].name != name
  }

  ghost predicate IsFirstPool(pools: seq<Pool>, i: int, name: string) {
    0 <= i < |pools| && pools[i].name == name && forall j :: 0 <= j < i ==> pools[j].name != name
  }

  lemma {:induction false} FirstPresetIsFound(presets: seq<Preset>, i: nat, name: string)
    requires IsFirstPreset(presets, i, name)
    ensures FindPreset(presets, name) == Some(presets[i])
  {
    if i == 0 {
    } else {
      FirstPresetIsFound(presets[1..], i - 1, name);
    }
  }

  lemma {:induction false} FirstPoolIsFound(pools: seq<Pool>, i: nat, name: string)
    requires IsFirstPool(pools, i, name)
    ensures FindPool(pools, name) == Some(pools[i])
  {
    if i == 0 {
    } else {
      FirstPoolIsFound(pools[1..], i - 1, name);
    }
  }

  lemma {:induction false} FoundPresetIsFirst(presets: seq<Preset>, name: string) returns (i: nat)
    requires FindPreset(presets, name).Some?
    ensures IsFirstPreset(presets, i, name) && FindPreset(presets, name) == Some(presets[i])
  {
    if presets[0].name == name {
      i := 0;
    } else {
      i := FoundPresetIsFirst(presets[1..], name);
      i := i + 1;
    }
  }

  lemma {:induction false} FoundPoolIsFirst(pools: seq<Pool>, name: string) returns (i: nat)
    requires FindPool(pools, name).Some?
    ensures IsFirstPool(pools, i, name) && FindPool(pools, name) == Some(pools[i])
  {
    if pools[0].name == name {
      i := 0;
    } else {
      i := FoundPoolIsFirst(pools[1..], name);
      i := i + 1;
    }
  }

  /** A slot that names a preset keeps its name if and only if the preset has the kind the slot is for, the slot does
      not ask for a pool, and the preset's scene suits the binding: one for a pair of workspaces a workspace switch, one
      for all workspaces the presentation, one for a window its opening or closing, and a preset without a scene
      anything but the presentation. */
  lemma PresetStandsIff(e: Effects, references: seq<Reference>, r: Reference, i: nat)
    requires RecordedOnce(e, references, r) && IsFirstPreset(e.presets, i, r.name)
    requires r.name != "" && (r.allowOff ==> r.name != "off")
    ensures AfterCallbacks(e, references).Has(r.slot)
    ensures AfterCallbacks(e, references).At(r.slot) == r.name <==>
              && e.presets[i].kind == r.kind && r.constraint != PoolRequired
              && match e.presets[i].scene
                 case Some(WorkspacePair) => r.binding == WorkspaceSwitch
                 case Some(WorkspaceSet) => r.binding == Presentation
                 case Some(WindowScene) => r.binding == WindowOpen || r.binding == WindowClose
                 case None => r.binding != Presentation
  {
    FirstPresetIsFound(e.presets, i, r.name);
    CallbacksClear(e, references);
  }

  /** One that names no preset but a pool keeps it, in whatever binding, if and only if the pool has the slot's kind and
      the slot does not ask for a preset. */
  lemma PoolStandsIff(e: Effects, references: seq<Reference>, r: Reference, i: nat)
    requires RecordedOnce(e, references, r) && IsFirstPool(e.pools, i, r.name)
    requires r.name != "" && (r.allowOff ==> r.name != "off")
    requires forall preset :: preset in e.presets ==> preset.name != r.name
    ensures AfterCallbacks(e, references).Has(r.slot)
    ensures AfterCallbacks(e, references).At(r.slot) == r.name <==>
              e.pools[i].kind == r.kind && r.constraint != PresetOnly
  {
    FirstPoolIsFound(e.pools, i, r.name);
    CallbacksClear(e, references);
  }

  /** One that names neither keeps only the word for no effect, where that is allowed. */
  lemma OtherNamesStandIff(e: Effects, references: seq<Reference>, r: Reference)
    requires RecordedOnce(e, references, r) && r.name != ""
    requires forall preset :: preset in e.presets ==> preset.name != r.name
    requires forall pool :: pool in e.pools ==> pool.name != r.name
    ensures AfterCallbacks(e, references).Has(r.slot)
    ensures AfterCallbacks(e, references).At(r.slot) == r.name <==> r.allowOff && r.name == "off"
    ensures AfterCallbacks(e, references).At(r.slot) == if r.allowOff && r.name == "off" then "off" else ""
  {
    CallbacksClear(e, references);
  }

  /** The order in which selectors were recorded does not matter, nor does recording one twice. */
  lemma OrderDoesNotMatter(e: Effects, references: seq<Reference>, others: seq<Reference>)
    requires forall r :: r in references <==> r in others
    ensures AfterCallbacks(e, references) == AfterCallbacks(e, others)
  {
    var a, b := AfterCallbacks(e, references), AfterCallbacks(e, others);
    CallbacksClear(e, references);
    CallbacksClear(e, others);
    forall slot | e.Has(slot)
      ensures a.Has(slot) && b.Has(slot) && a.At(slot) == b.At(slot)
    {
      assert Cleared(e, references, slot) == Cleared(e, others, slot);
    }
    forall i | 0 <= i < |e.presets|
      ensures a.presets[i] == b.presets[i]
    {
      assert e.Has(OverlayOf(i));
    }
    forall i | 0 <= i < |e.pools|
      ensures a.pools[i] == b.pools[i]
    {
      forall j | 0 <= j < |e.pools[i].members|
        ensures a.pools[i].members[j] == b.pools[i].members[j]
      {
        assert e.Has(MemberOf(i, j));
      }
    }
    forall path | path in e.selectors
      ensures a.selectors[path] == b.selectors[path]
    {
      assert e.Has(Selector(path));
    }
  }

  /** The pools without their blank members. */
  function Erased(e: Effects): (after: Effects)
    ensures after.presets == e.presets && after.selectors == e.selectors && |after.pools| == |e.pools|
  {
    e.(pools := seq(|e.pools|, i requires 0 <= i < |e.pools| =>
                      e.pools[i].(members := WithoutBlanks(e.pools[i].members))))
  }

  class Loaded {
    var presets: seq<Preset>
    var pools: seq<Pool>
    var selectors: map<string, string>

    function State(): Effects
      reads this
    {
      Effects(presets, pools, selectors)
    }

    method Clear(slot: Slot)
      requires State().Has(slot)
      modifies this
      ensures State() == ClearAt(old(State()), slot)
    {
      match slot
      case OverlayOf(i) => presets := presets[i := presets[i].(overlay := "")];
      case MemberOf(i, j) => pools := pools[i := pools[i].(members := pools[i].members[j := ""])];
      case Selector(path) => selectors := selectors[path := ""];
    }

    /** `validateEffectReferences`: rejects through the recorded slots, and only then lets member positions change. */
    method ValidateEffectReferences(references: seq<Reference>)
      requires forall r :: r in references ==> State().Has(r.slot)
      modifies this
      ensures State() == Erased(AfterCallbacks(old(State()), references))
    {
      ghost var before := State();
      for n := 0 to |references|
        invariant State() == AfterCallbacks(before, references[..n])
      {
        var reference := references[n];
        assert references[..n + 1][..n] == references[..n];
        CallbacksClear(before, references[..n]);
        assert reference in references;
        if Rejected(State(), reference) {
          Clear(reference.slot);
        }
      }
      assert references[..|references|] == references;
      EraseMembers();
    }

    method EraseMembers()
      modifies this`pools
      ensures State() == Erased(old(State()))
    {
      var erased: seq<Pool> := [];
      for i := 0 to |pools|
        invariant |erased| == i && pools == old(pools)
        invariant forall k :: 0 <= k < i ==> erased[k] == pools[k].(members := WithoutBlanks(pools[k].members))
      {
        var members := EraseBlanks(pools[i].members);
        erased := erased + [pools[i].(members := members)];
      }
      pools := erased;
    }
  }

  method EraseBlanks(names: seq<string>) returns (kept: seq<string>)
    ensures kept == WithoutBlanks(names)
  {
    kept := [];
    for i := 0 to |names|
      invariant kept == WithoutBlanks(names[..i])
    {
      assert names[..i + 1][..i] == names[..i];
      if names[i] != "" {
        kept := kept + [names[i]];
      }
    }
    assert names[..|names|] == names;
  }
}
