/**
 * What the two resolution passes of NSObjectProjectInfo do to one type record,
 * stated on values: the record's fields as a TypeView, and the lookup tables
 * as an index from a name to the first record found under it (a Hit).
 *
 * ResolvedToObjc is ResolveCliToObjc: fill in missing Objective-C names from
 * known .NET names. ResolvedToCli is ResolveObjcToCli: fill in missing .NET
 * names from known Objective-C names and count what stays unresolved.
 */
module ObjCResolutionSpec {
  import opened Wrappers

  /** An outlet or an action parameter: one type, named on the Objective-C and on the .NET side (None is null). */
  datatype Slot = Slot(objcType: Option<string>, cliType: Option<string>)

  /** An action; only its parameters take part in resolution. */
  datatype Action = Action(parameters: seq<Slot>)

  /** The fields of an NSObjectTypeInfo that resolution reads or writes. */
  datatype TypeView = TypeView(
    objcName: string,
    cliName: Option<string>,
    baseObjCType: Option<string>,
    baseCliType: Option<string>,
    isModel: bool,
    baseIsModel: bool,
    userTypeReferences: set<string>,
    outlets: seq<Slot>,
    actions: seq<Action>)

  /** The fields read from the record a lookup finds. */
  datatype Hit = Hit(objcName: string, cliName: Option<string>, isModel: bool, isUserType: bool)

  /** One entry of a .NET inheritance chain (most derived first); isClass is false for interfaces and other kinds. */
  datatype Ancestor = Ancestor(fullName: string, isClass: bool)

  function Find(index: map<string, Hit>, key: string): Option<Hit>
  {
    if key in index then Some(index[key]) else None
  }

  /** The Objective-C names of the user-defined records an index can hand out. */
  function UserNames(index: map<string, Hit>): set<string>
  {
    set k | k in index && index[k].isUserType :: index[k].objcName
  }

  function UserRef(h: Option<Hit>): set<string>
  {
    if h.Some? && h.value.isUserType then {h.value.objcName} else {}
  }

  /** Number of action parameters over all actions. */
  function ParamCount(actions: seq<Action>): nat
  {
    if actions == [] then 0
    else ParamCount(actions[..|actions| - 1]) + |actions[|actions| - 1].parameters|
  }

  // ---------------------------------------------------------------------------
  // .NET -> Objective-C (ResolveCliToObjc)
  // ---------------------------------------------------------------------------

  /** A slot without an Objective-C name is looked up by its .NET name, which must not be null. */
  predicate CliKeyed(s: Slot)
  {
    s.objcType.None? ==> s.cliType.Some?
  }

  predicate AllCliKeyed(slots: seq<Slot>)
  {
    forall k :: 0 <= k < |slots| ==> CliKeyed(slots[k])
  }

  /** Every name ResolveCliToObjc passes to a dictionary lookup is non-null. */
  predicate CliKeysPresent(t: TypeView)
  {
    && (t.baseObjCType.None? ==> t.baseCliType.Some?)
    && AllCliKeyed(t.outlets)
    && forall a :: 0 <= a < |t.actions| ==> AllCliKeyed(t.actions[a].parameters)
  }

  predicate Resolvable(a: Ancestor, index: map<string, Hit>)
  {
    a.isClass && a.fullName in index
  }

  /** The base-type fallback: the first class on the chain whose name resolves; interfaces are skipped. */
  function FirstClassHit(chain: seq<Ancestor>, index: map<string, Hit>): Option<Hit>
  {
    if chain == [] then None
    else if Resolvable(chain[0], index) then Some(index[chain[0].fullName])
    else FirstClassHit(chain[1..], index)
  }

  /** The record that supplies the base type's Objective-C name, if the base is unknown and anything resolves. */
  function BaseHitToObjc(t: TypeView, index: map<string, Hit>, hierarchy: string -> seq<Ancestor>): Option<Hit>
    requires t.baseObjCType.None? ==> t.baseCliType.Some?
  {
    if t.baseObjCType.Some? then None
    else if t.baseCliType.value in index then Some(index[t.baseCliType.value])
    else FirstClassHit(hierarchy(t.baseCliType.value), index)
  }

  function SlotHitToObjc(s: Slot, index: map<string, Hit>): Option<Hit>
    requires CliKeyed(s)
  {
    if s.objcType.Some? then None else Find(index, s.cliType.value)
  }

  function SlotToObjc(s: Slot, index: map<string, Hit>): Slot
    requires CliKeyed(s)
  {
    match SlotHitToObjc(s, index)
    case Some(h) => s.(objcType := Some(h.objcName))
    case None => s
  }

  function SlotsToObjc(slots: seq<Slot>, index: map<string, Hit>): seq<Slot>
    requires AllCliKeyed(slots)
  {
    seq(|slots|, k requires 0 <= k < |slots| => SlotToObjc(slots[k], index))
  }

  /** The user-type names recorded while filling a list of slots. */
  function SlotRefsToObjc(slots: seq<Slot>, index: map<string, Hit>): set<string>
    requires AllCliKeyed(slots)
  {
    if slots == [] then {}
    else SlotRefsToObjc(slots[..|slots| - 1], index) + UserRef(SlotHitToObjc(slots[|slots| - 1], index))
  }

  function ActionsToObjc(actions: seq<Action>, index: map<string, Hit>): seq<Action>
    requires forall a :: 0 <= a < |actions| ==> AllCliKeyed(actions[a].parameters)
  {
    seq(|actions|, a requires 0 <= a < |actions| => Action(SlotsToObjc(actions[a].parameters, index)))
  }

  function ActionRefsToObjc(actions: seq<Action>, index: map<string, Hit>): set<string>
    requires forall a :: 0 <= a < |actions| ==> AllCliKeyed(actions[a].parameters)
  {
    if actions == [] then {}
    else ActionRefsToObjc(actions[..|actions| - 1], index) + SlotRefsToObjc(actions[|actions| - 1].parameters, index)
  }

  /** The record after ResolveCliToObjc, given the index of the .NET-name tables. */
  function ResolvedToObjc(t: TypeView, index: map<string, Hit>, hierarchy: string -> seq<Ancestor>): TypeView
    requires CliKeysPresent(t)
  {
    var h := BaseHitToObjc(t, index, hierarchy);
    t.(baseObjCType := if h.Some? then Some(h.value.objcName) else t.baseObjCType,
       baseIsModel := t.baseIsModel || (h.Some? && h.value.isModel),
       userTypeReferences := t.userTypeReferences + UserRef(h)
                             + SlotRefsToObjc(t.outlets, index) + ActionRefsToObjc(t.actions, index),
       outlets := SlotsToObjc(t.outlets, index),
       actions := ActionsToObjc(t.actions, index))
  }

  // ---------------------------------------------------------------------------
  // Objective-C -> .NET (ResolveObjcToCli)
  // ---------------------------------------------------------------------------

  /** A slot without a .NET name is looked up by its Objective-C name, which must not be null. */
  predicate ObjcKeyed(s: Slot)
  {
    s.cliType.None? ==> s.objcType.Some?
  }

  predicate AllObjcKeyed(slots: seq<Slot>)
  {
    forall k :: 0 <= k < |slots| ==> ObjcKeyed(slots[k])
  }

  /** Every name ResolveObjcToCli passes to a dictionary lookup is non-null. */
  predicate ObjcKeysPresent(t: TypeView)
  {
    && (t.baseCliType.None? ==> t.baseObjCType.Some?)
    && AllObjcKeyed(t.outlets)
    && forall a :: 0 <= a < |t.actions| ==> AllObjcKeyed(t.actions[a].parameters)
  }

  /** An unresolved slot is given its Objective-C name as a placeholder .NET name when forced. */
  function SlotToCli(s: Slot, index: map<string, Hit>, force: bool): Slot
    requires ObjcKeyed(s)
  {
    if s.cliType.Some? then s
    else if s.objcType.value in index then s.(cliType := index[s.objcType.value].cliName)
    else if force then s.(cliType := s.objcType)
    else s
  }

  /** The slot is counted as unresolved: no .NET name, no record found, not forced. */
  predicate SlotMissed(s: Slot, index: map<string, Hit>, force: bool)
    requires ObjcKeyed(s)
  {
    s.cliType.None? && s.objcType.value !in index && !force
  }

  function SlotsToCli(slots: seq<Slot>, index: map<string, Hit>, force: bool): seq<Slot>
    requires AllObjcKeyed(slots)
  {
    seq(|slots|, k requires 0 <= k < |slots| => SlotToCli(slots[k], index, force))
  }

  function MissedSlots(slots: seq<Slot>, index: map<string, Hit>, force: bool): nat
    requires AllObjcKeyed(slots)
  {
    if slots == [] then 0
    else MissedSlots(slots[..|slots| - 1], index, force)
         + (if SlotMissed(slots[|slots| - 1], index, force) then 1 else 0)
  }

  function ActionsToCli(actions: seq<Action>, index: map<string, Hit>, force: bool): seq<Action>
    requires forall a :: 0 <= a < |actions| ==> AllObjcKeyed(actions[a].parameters)
  {
    seq(|actions|, a requires 0 <= a < |actions| => Action(SlotsToCli(actions[a].parameters, index, force)))
  }

  function MissedParams(actions: seq<Action>, index: map<string, Hit>, force: bool): nat
    requires forall a :: 0 <= a < |actions| ==> AllObjcKeyed(actions[a].parameters)
  {
    if actions == [] then 0
    else MissedParams(actions[..|actions| - 1], index, force) + MissedSlots(actions[|actions| - 1].parameters, index, force)
  }

  /** The record after ResolveObjcToCli, and the count it returns. */
  datatype Resolution = Resolution(view: TypeView, unresolved: nat)

  /**
   * The record after ResolveObjcToCli. The record's own name is looked up in
   * `own`, the index before the pass; everything after it in `index`, the
   * index once the record's own .NET name and model flag are filled in (the
   * two differ only when the record can find itself).
   */
  function ResolvedToCli(t: TypeView, own: map<string, Hit>, index: map<string, Hit>, force: bool): Resolution
    requires ObjcKeysPresent(t)
  {
    var ownMissed := t.cliName.None? && t.objcName !in own;
    var baseMissed := t.baseCliType.None? && t.baseObjCType.value !in index;
    var t1 := if t.cliName.Some? || ownMissed then t
              else t.(cliName := own[t.objcName].cliName, isModel := own[t.objcName].isModel);
    var t2 := if t.baseCliType.Some? || baseMissed then t1
              else t1.(baseCliType := index[t.baseObjCType.value].cliName);
    Resolution(
      t2.(outlets := SlotsToCli(t.outlets, index, force), actions := ActionsToCli(t.actions, index, force)),
      (if ownMissed && !force then 1 else 0) + (if baseMissed && !force then 1 else 0)
      + MissedSlots(t.outlets, index, force) + MissedParams(t.actions, index, force))
  }

  /** Fields still null on the .NET side: own name, base name, outlets, action parameters. */
  function NullCliSlots(slots: seq<Slot>): nat
  {
    if slots == [] then 0
    else NullCliSlots(slots[..|slots| - 1]) + (if slots[|slots| - 1].cliType.None? then 1 else 0)
  }

  function NullCliParams(actions: seq<Action>): nat
  {
    if actions == [] then 0
    else NullCliParams(actions[..|actions| - 1]) + NullCliSlots(actions[|actions| - 1].parameters)
  }

  function NullCliFields(t: TypeView): nat
  {
    (if t.cliName.None? then 1 else 0) + (if t.baseCliType.None? then 1 else 0)
    + NullCliSlots(t.outlets) + NullCliParams(t.actions)
  }

  /** Every record an index hands out has a .NET name. */
  predicate AllNamed(index: map<string, Hit>)
  {
    forall k :: k in index ==> index[k].cliName.Some?
  }

  // ---------------------------------------------------------------------------
  // Properties of the .NET -> Objective-C pass
  // ---------------------------------------------------------------------------

  /** The fallback walk stops at the first class on the chain that resolves, skipping interfaces and misses. */
  lemma {:induction false} FirstClassHitIsFirst(chain: seq<Ancestor>, index: map<string, Hit>)
    ensures FirstClassHit(chain, index).None? <==> forall k :: 0 <= k < |chain| ==> !Resolvable(chain[k], index)
    ensures FirstClassHit(chain, index).Some? ==>
      exists k :: 0 <= k < |chain| && Resolvable(chain[k], index)
        && FirstClassHit(chain, index) == Some(index[chain[k].fullName])
        && forall j :: 0 <= j < k ==> !Resolvable(chain[j], index)
  {
    if chain != [] && !Resolvable(chain[0], index) {
      var rest := chain[1..];
      FirstClassHitIsFirst(rest, index);
      assert forall k :: 1 <= k < |chain| ==> chain[k] == rest[k - 1];
      if FirstClassHit(rest, index).Some? {
        var k :| 0 <= k < |rest| && Resolvable(rest[k], index)
          && FirstClassHit(rest, index) == Some(index[rest[k].fullName])
          && forall j :: 0 <= j < k ==> !Resolvable(rest[j], index);
        assert Resolvable(chain[k + 1], index);
        assert forall j :: 0 <= j < k + 1 ==> !Resolvable(chain[j], index);
      }
    }
  }

  /** A user-type name is recorded for a list of slots exactly when some slot of it was filled from a user-type record. */
  lemma {:induction false} SlotRefsToObjcExact(slots: seq<Slot>, index: map<string, Hit>)
    requires AllCliKeyed(slots)
    ensures forall x :: x in SlotRefsToObjc(slots, index) <==>
      exists k :: 0 <= k < |slots| && x in UserRef(SlotHitToObjc(slots[k], index))
  {
    if slots != [] {
      var init := slots[..|slots| - 1];
      SlotRefsToObjcExact(init, index);
      assert forall k :: 0 <= k < |init| ==> init[k] == slots[k];
    }
  }

  lemma {:induction false} ActionRefsToObjcExact(actions: seq<Action>, index: map<string, Hit>)
    requires forall a :: 0 <= a < |actions| ==> AllCliKeyed(actions[a].parameters)
    ensures forall x :: x in ActionRefsToObjc(actions, index) <==>
      exists a, k :: 0 <= a < |actions| && 0 <= k < |actions[a].parameters|
        && x in UserRef(SlotHitToObjc(actions[a].parameters[k], index))
  {
    if actions != [] {
      var init := actions[..|actions| - 1];
      var last := actions[|actions| - 1];
      ActionRefsToObjcExact(init, index);
      SlotRefsToObjcExact(last.parameters, index);
      assert forall a :: 0 <= a < |init| ==> init[a] == actions[a];
      forall x | x in ActionRefsToObjc(actions, index)
        ensures exists a, k :: 0 <= a < |actions| && 0 <= k < |actions[a].parameters| &&
                  x in UserRef(SlotHitToObjc(actions[a].parameters[k], index))
      {
        if x !in ActionRefsToObjc(init, index) {
          var k :| 0 <= k < |last.parameters| && x in UserRef(SlotHitToObjc(last.parameters[k], index));
          assert x in UserRef(SlotHitToObjc(actions[|actions| - 1].parameters[k], index));
        }
      }
    }
  }

  /** The base record found by ResolveCliToObjc is always one the index hands out. */
  lemma BaseHitToObjcInIndex(t: TypeView, index: map<string, Hit>, hierarchy: string -> seq<Ancestor>)
    requires t.baseObjCType.None? ==> t.baseCliType.Some?
    ensures BaseHitToObjc(t, index, hierarchy).Some? ==>
      exists k :: k in index && BaseHitToObjc(t, index, hierarchy) == Some(index[k])
  {
    if t.baseObjCType.None? && t.baseCliType.value !in index {
      FirstClassHitIsFirst(hierarchy(t.baseCliType.value), index);
    }
  }

  /**
   * ResolveCliToObjc only fills in what is null: a known base name and known
   * slot names stay as they are, the .NET side is untouched, BaseIsModel is
   * only ever switched on and no user-type reference is dropped.
   */
  lemma ResolvedToObjcKeepsKnown(t: TypeView, index: map<string, Hit>, hierarchy: string -> seq<Ancestor>)
    requires CliKeysPresent(t)
    ensures var r := ResolvedToObjc(t, index, hierarchy);
      && r.objcName == t.objcName && r.cliName == t.cliName && r.baseCliType == t.baseCliType
      && r.isModel == t.isModel
      && (t.baseObjCType.Some? ==> r.baseObjCType == t.baseObjCType)
      && (t.baseIsModel ==> r.baseIsModel)
      && t.userTypeReferences <= r.userTypeReferences
      && |r.outlets| == |t.outlets|
      && (forall k :: 0 <= k < |t.outlets| ==> r.outlets[k].cliType == t.outlets[k].cliType)
      && (forall k :: 0 <= k < |t.outlets| && t.outlets[k].objcType.Some? ==> r.outlets[k] == t.outlets[k])
      && |r.actions| == |t.actions|
      && (forall a :: 0 <= a < |t.actions| ==> |r.actions[a].parameters| == |t.actions[a].parameters|)
      && (forall a, k :: 0 <= a < |t.actions| && 0 <= k < |t.actions[a].parameters| ==>
            t.actions[a].parameters[k].objcType.Some? ==> r.actions[a].parameters[k] == t.actions[a].parameters[k])
  {
  }

  /**
   * User-type references after ResolveCliToObjc: every name added is the
   * Objective-C name of a user-type record, and every outlet or parameter
   * filled from a user-type record adds that record's name.
   */
  lemma ResolvedToObjcUserRefs(t: TypeView, index: map<string, Hit>, hierarchy: string -> seq<Ancestor>)
    requires CliKeysPresent(t)
    ensures var r := ResolvedToObjc(t, index, hierarchy);
      && r.userTypeReferences - t.userTypeReferences <= UserNames(index)
      && (forall k :: 0 <= k < |t.outlets| && SlotHitToObjc(t.outlets[k], index).Some?
            && SlotHitToObjc(t.outlets[k], index).value.isUserType
            ==> SlotHitToObjc(t.outlets[k], index).value.objcName in r.userTypeReferences)
      && (forall a, k :: 0 <= a < |t.actions| && 0 <= k < |t.actions[a].parameters|
            && SlotHitToObjc(t.actions[a].parameters[k], index).Some?
            && SlotHitToObjc(t.actions[a].parameters[k], index).value.isUserType
            ==> SlotHitToObjc(t.actions[a].parameters[k], index).value.objcName in r.userTypeReferences)
  {
    var r := ResolvedToObjc(t, index, hierarchy);
    SlotRefsToObjcExact(t.outlets, index);
    ActionRefsToObjcExact(t.actions, index);
    BaseHitToObjcInIndex(t, index, hierarchy);
    forall x | x in r.userTypeReferences - t.userTypeReferences ensures x in UserNames(index) {
      if x in SlotRefsToObjc(t.outlets, index) {
        var k :| 0 <= k < |t.outlets| && x in UserRef(SlotHitToObjc(t.outlets[k], index));
        assert index[t.outlets[k].cliType.value].objcName == x;
      } else if x in ActionRefsToObjc(t.actions, index) {
        var a, k :| 0 <= a < |t.actions| && 0 <= k < |t.actions[a].parameters|
          && x in UserRef(SlotHitToObjc(t.actions[a].parameters[k], index));
        assert index[t.actions[a].parameters[k].cliType.value].objcName == x;
      } else {
        var key :| key in index && BaseHitToObjc(t, index, hierarchy) == Some(index[key]);
        assert index[key].objcName == x;
      }
    }
  }

  lemma {:induction false} SlotRefsOfFilledAreEmpty(slots: seq<Slot>, index: map<string, Hit>)
    requires AllCliKeyed(slots)
    ensures AllCliKeyed(SlotsToObjc(slots, index))
    ensures SlotRefsToObjc(SlotsToObjc(slots, index), index) == {}
    ensures SlotsToObjc(SlotsToObjc(slots, index), index) == SlotsToObjc(slots, index)
  {
    if slots != [] {
      var init := slots[..|slots| - 1];
      SlotRefsOfFilledAreEmpty(init, index);
      assert SlotsToObjc(slots, index)[..|slots| - 1] == SlotsToObjc(init, index);
    }
  }

  lemma {:induction false} ActionRefsOfFilledAreEmpty(actions: seq<Action>, index: map<string, Hit>)
    requires forall a :: 0 <= a < |actions| ==> AllCliKeyed(actions[a].parameters)
    ensures forall a :: 0 <= a < |actions| ==> AllCliKeyed(ActionsToObjc(actions, index)[a].parameters)
    ensures ActionRefsToObjc(ActionsToObjc(actions, index), index) == {}
    ensures ActionsToObjc(ActionsToObjc(actions, index), index) == ActionsToObjc(actions, index)
  {
    forall a | 0 <= a < |actions| ensures AllCliKeyed(ActionsToObjc(actions, index)[a].parameters)
      && SlotsToObjc(SlotsToObjc(actions[a].parameters, index), index) == SlotsToObjc(actions[a].parameters, index)
    {
      SlotRefsOfFilledAreEmpty(actions[a].parameters, index);
    }
    if actions != [] {
      var init := actions[..|actions| - 1];
      ActionRefsOfFilledAreEmpty(init, index);
      assert ActionsToObjc(actions, index)[..|actions| - 1] == ActionsToObjc(init, index);
      SlotRefsOfFilledAreEmpty(actions[|actions| - 1].parameters, index);
    }
  }

  /** Running ResolveCliToObjc a second time against the same tables changes nothing. */
  lemma ResolvedToObjcIdempotent(t: TypeView, index: map<string, Hit>, hierarchy: string -> seq<Ancestor>)
    requires CliKeysPresent(t)
    ensures CliKeysPresent(ResolvedToObjc(t, index, hierarchy))
    ensures ResolvedToObjc(ResolvedToObjc(t, index, hierarchy), index, hierarchy) == ResolvedToObjc(t, index, hierarchy)
  {
    SlotRefsOfFilledAreEmpty(t.outlets, index);
    ActionRefsOfFilledAreEmpty(t.actions, index);
  }

  // ---------------------------------------------------------------------------
  // Properties of the Objective-C -> .NET pass
  // ---------------------------------------------------------------------------

  lemma {:induction false} MissedSlotsBounds(slots: seq<Slot>, index: map<string, Hit>, force: bool)
    requires AllObjcKeyed(slots)
    ensures MissedSlots(slots, index, force) <= |slots|
    ensures force ==> MissedSlots(slots, index, force) == 0
  {
    if slots != [] {
      MissedSlotsBounds(slots[..|slots| - 1], index, force);
    }
  }

  lemma {:induction false} MissedParamsBounds(actions: seq<Action>, index: map<string, Hit>, force: bool)
    requires forall a :: 0 <= a < |actions| ==> AllObjcKeyed(actions[a].parameters)
    ensures MissedParams(actions, index, force) <= ParamCount(actions)
    ensures force ==> MissedParams(actions, index, force) == 0
  {
    if actions != [] {
      MissedParamsBounds(actions[..|actions| - 1], index, force);
      MissedSlotsBounds(actions[|actions| - 1].parameters, index, force);
    }
  }

  /** ResolveObjcToCli never reports more unresolved names than there are names to resolve. */
  lemma ResolvedToCliBound(t: TypeView, own: map<string, Hit>, index: map<string, Hit>, force: bool)
    requires ObjcKeysPresent(t)
    ensures ResolvedToCli(t, own, index, force).unresolved <= 2 + |t.outlets| + ParamCount(t.actions)
  {
    MissedSlotsBounds(t.outlets, index, force);
    MissedParamsBounds(t.actions, index, force);
  }

  /**
   * Forced resolution counts nothing, and leaves no outlet or parameter
   * without a .NET name; the record's own and base names get no placeholder.
   */
  lemma ResolvedToCliForced(t: TypeView, own: map<string, Hit>, index: map<string, Hit>)
    requires ObjcKeysPresent(t)
    ensures var r := ResolvedToCli(t, own, index, true);
      && r.unresolved == 0
      && (t.cliName.None? && t.objcName !in own ==> r.view.cliName.None?)
      && (t.baseCliType.None? && t.baseObjCType.value !in index ==> r.view.baseCliType.None?)
      && (AllNamed(index) ==> forall k :: 0 <= k < |t.outlets| ==> r.view.outlets[k].cliType.Some?)
      && (AllNamed(index) ==>
            forall a, k :: 0 <= a < |t.actions| && 0 <= k < |t.actions[a].parameters|
              ==> r.view.actions[a].parameters[k].cliType.Some?)
  {
    MissedSlotsBounds(t.outlets, index, true);
    MissedParamsBounds(t.actions, index, true);
    var r := ResolvedToCli(t, own, index, true);
    if AllNamed(index) {
      forall a, k | 0 <= a < |t.actions| && 0 <= k < |t.actions[a].parameters|
        ensures r.view.actions[a].parameters[k].cliType.Some?
      {
        assert ObjcKeyed(t.actions[a].parameters[k]);
      }
    }
  }

  /** ResolveObjcToCli only fills in what is null on the .NET side and leaves the Objective-C side alone. */
  lemma ResolvedToCliKeepsKnown(t: TypeView, own: map<string, Hit>, index: map<string, Hit>, force: bool)
    requires ObjcKeysPresent(t)
    ensures var r := ResolvedToCli(t, own, index, force).view;
      && r.objcName == t.objcName && r.baseObjCType == t.baseObjCType && r.baseIsModel == t.baseIsModel
      && r.userTypeReferences == t.userTypeReferences
      && (t.cliName.Some? ==> r.cliName == t.cliName && r.isModel == t.isModel)
      && (t.baseCliType.Some? ==> r.baseCliType == t.baseCliType)
      && |r.outlets| == |t.outlets|
      && (forall k :: 0 <= k < |t.outlets| ==> r.outlets[k].objcType == t.outlets[k].objcType)
      && (forall k :: 0 <= k < |t.outlets| && t.outlets[k].cliType.Some? ==> r.outlets[k] == t.outlets[k])
      && |r.actions| == |t.actions|
      && (forall a, k :: 0 <= a < |t.actions| && 0 <= k < |t.actions[a].parameters| ==>
            t.actions[a].parameters[k].cliType.Some? ==> r.actions[a].parameters[k] == t.actions[a].parameters[k])
  {
  }

  lemma {:induction false} MissedSlotsAreNull(slots: seq<Slot>, index: map<string, Hit>)
    requires AllObjcKeyed(slots) && AllNamed(index)
    ensures MissedSlots(slots, index, false) == NullCliSlots(SlotsToCli(slots, index, false))
  {
    if slots != [] {
      var init := slots[..|slots| - 1];
      MissedSlotsAreNull(init, index);
      var filled := SlotsToCli(slots, index, false);
      assert filled[..|slots| - 1] == SlotsToCli(init, index, false);
    }
  }

  lemma {:induction false} MissedParamsAreNull(actions: seq<Action>, index: map<string, Hit>)
    requires (forall a :: 0 <= a < |actions| ==> AllObjcKeyed(actions[a].parameters)) && AllNamed(index)
    ensures MissedParams(actions, index, false) == NullCliParams(ActionsToCli(actions, index, false))
  {
    if actions != [] {
      var init := actions[..|actions| - 1];
      MissedParamsAreNull(init, index);
      MissedSlotsAreNull(actions[|actions| - 1].parameters, index);
      var filled := ActionsToCli(actions, index, false);
      assert filled[..|actions| - 1] == ActionsToCli(init, index, false);
    }
  }

  /**
   * Unforced, and with every record found carrying a .NET name, the count
   * ResolveObjcToCli returns is exactly the number of .NET-side names the
   * record still lacks afterwards.
   */
  lemma ResolvedToCliCountsNulls(t: TypeView, own: map<string, Hit>, index: map<string, Hit>)
    requires ObjcKeysPresent(t) && AllNamed(own) && AllNamed(index)
    ensures ResolvedToCli(t, own, index, false).unresolved == NullCliFields(ResolvedToCli(t, own, index, false).view)
  {
    MissedSlotsAreNull(t.outlets, index);
    MissedParamsAreNull(t.actions, index);
  }
}
