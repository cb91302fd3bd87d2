/**
 * NSObjectProjectInfo: a project's tables from Objective-C names and from .NET
 * names to NSObjectTypeInfo records, and the two passes that fill in one side
 * of a record from the other. Every method is proved against the value-level
 * definitions of ObjCResolutionSpec through NSObjectTypeInfo.View().
 *
 * The project's references are given as the sequence of their tables (a
 * reference without project info contributes no table), and the inheritance
 * tree of a .NET type as a function from its name to its chain of ancestors.
 */
module ObjCIntegration {
  import opened Wrappers
  import opened ObjCResolutionSpec

  /** A registered NSObject type. Its Objective-C name and user-type flag never change. */
  class NSObjectTypeInfo {
    const objcName: string
    var cliName: Option<string>
    var baseObjCType: Option<string>
    var baseCliType: Option<string>
    var isModel: bool
    var baseIsModel: bool
    const isUserType: bool
    var userTypeReferences: set<string>
    var outlets: seq<Slot>
    var actions: seq<Action>

    constructor (view: TypeView, isUserType: bool)
      ensures View() == view && this.isUserType == isUserType
    {
      objcName := view.objcName;
      cliName := view.cliName;
      baseObjCType := view.baseObjCType;
      baseCliType := view.baseCliType;
      isModel := view.isModel;
      baseIsModel := view.baseIsModel;
      this.isUserType := isUserType;
      userTypeReferences := view.userTypeReferences;
      outlets := view.outlets;
      actions := view.actions;
    }

    /** The record's fields as a value. */
    function View(): TypeView
      reads this
    {
      TypeView(objcName, cliName, baseObjCType, baseCliType, isModel, baseIsModel,
               userTypeReferences, outlets, actions)
    }

    /** What a lookup that finds this record reads from it. */
    function AsHit(): Hit
      reads this
    {
      Hit(objcName, cliName, isModel, isUserType)
    }
  }

  /** A Dictionary<string, NSObjectTypeInfo>. */
  type Table = map<string, NSObjectTypeInfo>

  /** Every record some table holds. */
  function Records(tables: seq<Table>): set<NSObjectTypeInfo>
  {
    set i, k | 0 <= i < |tables| && k in tables[i] :: tables[i][k]
  }

  /** What a lookup in one table finds. */
  function TableHits(table: Table): (hits: map<string, Hit>)
    reads table.Values
    ensures hits.Keys == table.Keys
  {
    map k | k in table :: table[k].AsHit()
  }

  /**
   * What a search of tables[i..] in order finds: a name maps to what the
   * first table holding it holds (the right operand of a map union wins).
   */
  function IndexFrom(tables: seq<Table>, i: nat): map<string, Hit>
    requires i <= |tables|
    reads set j, k | 0 <= j < |tables| && k in tables[j] :: tables[j][k]
    decreases |tables| - i
  {
    if i == |tables| then map[] else IndexFrom(tables, i + 1) + TableHits(tables[i])
  }

  /** The tables as the value-level index the resolution definitions use. */
  function Index(tables: seq<Table>): map<string, Hit>
    reads Records(tables)
  {
    IndexFrom(tables, 0)
  }

  /** The index depends only on the .NET names and model flags of the records (the rest is fixed at creation). */
  twostate lemma IndexUnchanged(tables: seq<Table>)
    requires forall r :: r in Records(tables) ==> old(r.cliName) == r.cliName && old(r.isModel) == r.isModel
    ensures old(Index(tables)) == Index(tables)
  {
    forall j, k | 0 <= j < |tables| && k in tables[j]
      ensures old(tables[j][k].cliName) == tables[j][k].cliName && old(tables[j][k].isModel) == tables[j][k].isModel
    {
      assert tables[j][k] in Records(tables);
    }
    var i := |tables|;
    while i > 0
      invariant 0 <= i <= |tables|
      invariant old(IndexFrom(tables, i)) == IndexFrom(tables, i)
    {
      i := i - 1;
      assert old(TableHits(tables[i])) == TableHits(tables[i]);
    }
  }

  /**
   * TryResolveCliToObjc and TryResolveObjcToCli: the project's own table
   * first, then each referenced project's table in order; the first record
   * found wins.
   */
  method Lookup(own: Table, refs: seq<Table>, key: string) returns (found: bool, resolved: NSObjectTypeInfo?)
    ensures found <==> key in Index([own] + refs)
    ensures !found ==> resolved == null
    ensures found ==> resolved != null && resolved in Records([own] + refs)
    ensures found ==> resolved.AsHit() == Index([own] + refs)[key]
  {
    ghost var tables := [own] + refs;
    if key in own {
      assert tables[0] == own;
      return true, own[key];
    }
    var i := 0;
    while i < |refs|
      invariant 0 <= i <= |refs|
      invariant key in Index(tables) <==> key in IndexFrom(tables, i + 1)
      invariant key in Index(tables) ==> Index(tables)[key] == IndexFrom(tables, i + 1)[key]
    {
      assert tables[i + 1] == refs[i];
      if key in refs[i] {
        assert refs[i][key] in Records(tables);
        return true, refs[i][key];
      }
      i := i + 1;
    }
    return false, null;
  }

  /**
   * The base-class fallback of ResolveCliToObjc: walk the inheritance chain,
   * skip everything that is not a class, and stop at the first name a lookup
   * resolves.
   */
  method FirstClassLookup(chain: seq<Ancestor>, own: Table, refs: seq<Table>)
    returns (found: bool, resolved: NSObjectTypeInfo?)
    ensures found <==> FirstClassHit(chain, Index([own] + refs)).Some?
    ensures found ==> resolved != null && FirstClassHit(chain, Index([own] + refs)) == Some(resolved.AsHit())
  {
    ghost var index := Index([own] + refs);
    found, resolved := false, null;
    var i := 0;
    while i < |chain|
      invariant 0 <= i <= |chain|
      invariant FirstClassHit(chain[i..], index) == FirstClassHit(chain, index)
    {
      if chain[i].isClass {
        found, resolved := Lookup(own, refs, chain[i].fullName);
        if found {
          return;
        }
      }
      assert chain[i..][1..] == chain[i + 1..];
      i := i + 1;
    }
  }

  /** One loop of ResolveCliToObjc over outlets or over an action's parameters. */
  method ResolveSlotsToObjc(slots: seq<Slot>, own: Table, refs: seq<Table>)
    returns (filled: seq<Slot>, refsFound: set<string>)
    requires AllCliKeyed(slots)
    ensures filled == SlotsToObjc(slots, Index([own] + refs))
    ensures refsFound == SlotRefsToObjc(slots, Index([own] + refs))
  {
    ghost var index := Index([own] + refs);
    filled, refsFound := slots, {};
    var k := 0;
    while k < |slots|
      invariant 0 <= k <= |slots| && |filled| == |slots|
      invariant forall m :: 0 <= m < k ==> filled[m] == SlotToObjc(slots[m], index)
      invariant forall m :: k <= m < |slots| ==> filled[m] == slots[m]
      invariant refsFound == SlotRefsToObjc(slots[..k], index)
    {
      assert slots[..k + 1][..k] == slots[..k];
      if slots[k].objcType.None? {
        var found, resolved := Lookup(own, refs, slots[k].cliType.value);
        if found {
          filled := filled[k := filled[k].(objcType := Some(resolved.objcName))];
          if resolved.isUserType {
            refsFound := refsFound + {resolved.objcName};
          }
        }
      }
      k := k + 1;
    }
    assert slots[..k] == slots;
  }

  /** The nested loop of ResolveCliToObjc over actions and their parameters. */
  method ResolveActionsToObjc(actions: seq<Action>, own: Table, refs: seq<Table>)
    returns (filled: seq<Action>, refsFound: set<string>)
    requires forall a :: 0 <= a < |actions| ==> AllCliKeyed(actions[a].parameters)
    ensures filled == ActionsToObjc(actions, Index([own] + refs))
    ensures refsFound == ActionRefsToObjc(actions, Index([own] + refs))
  {
    ghost var index := Index([own] + refs);
    filled, refsFound := actions, {};
    var a := 0;
    while a < |actions|
      invariant 0 <= a <= |actions| && |filled| == |actions|
      invariant forall m :: 0 <= m < a ==> filled[m] == Action(SlotsToObjc(actions[m].parameters, index))
      invariant forall m :: a <= m < |actions| ==> filled[m] == actions[m]
      invariant refsFound == ActionRefsToObjc(actions[..a], index)
    {
      assert actions[..a + 1][..a] == actions[..a];
      var parameters, found := ResolveSlotsToObjc(actions[a].parameters, own, refs);
      filled := filled[a := Action(parameters)];
      refsFound := refsFound + found;
      a := a + 1;
    }
    assert actions[..a] == actions;
  }

  /** One loop of ResolveObjcToCli over outlets or over an action's parameters, with its unresolved count. */
  method ResolveSlotsToCli(slots: seq<Slot>, own: Table, refs: seq<Table>, force: bool)
    returns (filled: seq<Slot>, unresolved: nat)
    requires AllObjcKeyed(slots)
    ensures filled == SlotsToCli(slots, Index([own] + refs), force)
    ensures unresolved == MissedSlots(slots, Index([own] + refs), force)
  {
    ghost var index := Index([own] + refs);
    filled, unresolved := slots, 0;
    var k := 0;
    while k < |slots|
      invariant 0 <= k <= |slots| && |filled| == |slots|
      invariant forall m :: 0 <= m < k ==> filled[m] == SlotToCli(slots[m], index, force)
      invariant forall m :: k <= m < |slots| ==> filled[m] == slots[m]
      invariant unresolved == MissedSlots(slots[..k], index, force)
    {
      assert slots[..k + 1][..k] == slots[..k];
      if slots[k].cliType.None? {
        var found, resolved := Lookup(own, refs, slots[k].objcType.value);
        if found {
          filled := filled[k := filled[k].(cliType := resolved.cliName)];
        } else if force {
          filled := filled[k := filled[k].(cliType := filled[k].objcType)];
        } else {
          unresolved := unresolved + 1;
        }
      }
      k := k + 1;
    }
    assert slots[..k] == slots;
  }

  /** The nested loop of ResolveObjcToCli over actions and their parameters. */
  method ResolveActionsToCli(actions: seq<Action>, own: Table, refs: seq<Table>, force: bool)
    returns (filled: seq<Action>, unresolved: nat)
    requires forall a :: 0 <= a < |actions| ==> AllObjcKeyed(actions[a].parameters)
    ensures filled == ActionsToCli(actions, Index([own] + refs), force)
    ensures unresolved == MissedParams(actions, Index([own] + refs), force)
  {
    ghost var index := Index([own] + refs);
    filled, unresolved := actions, 0;
    var a := 0;
    while a < |actions|
      invariant 0 <= a <= |actions| && |filled| == |actions|
      invariant forall m :: 0 <= m < a ==> filled[m] == Action(SlotsToCli(actions[m].parameters, index, force))
      invariant forall m :: a <= m < |actions| ==> filled[m] == actions[m]
      invariant unresolved == MissedParams(actions[..a], index, force)
    {
      assert actions[..a + 1][..a] == actions[..a];
      var parameters, missed := ResolveSlotsToCli(actions[a].parameters, own, refs, force);
      filled := filled[a := Action(parameters)];
      unresolved := unresolved + missed;
      a := a + 1;
    }
    assert actions[..a] == actions;
  }

  /** The base-type lookup of ResolveCliToObjc: the base type's own name first, then the class fallback. */
  method BaseLookupToObjc(t: TypeView, own: Table, refs: seq<Table>, hierarchy: string -> seq<Ancestor>)
    returns (found: bool, resolved: NSObjectTypeInfo?)
    requires t.baseObjCType.None? ==> t.baseCliType.Some?
    ensures found <==> BaseHitToObjc(t, Index([own] + refs), hierarchy).Some?
    ensures found ==> resolved != null && BaseHitToObjc(t, Index([own] + refs), hierarchy) == Some(resolved.AsHit())
  {
    found, resolved := false, null;
    if t.baseObjCType.None? {
      found, resolved := Lookup(own, refs, t.baseCliType.value);
      if !found {
        found, resolved := FirstClassLookup(hierarchy(t.baseCliType.value), own, refs);
      }
    }
  }

  /** The record's own step of ResolveObjcToCli; `missed` is whether it counts as unresolved. */
  method ResolveOwnToCli(info: NSObjectTypeInfo, own: Table, refs: seq<Table>, force: bool) returns (missed: bool)
    modifies info
    ensures var t := old(info.View()); var index := old(Index([own] + refs));
      && missed == (t.cliName.None? && t.objcName !in index && !force)
      && info.View() == (if t.cliName.Some? || t.objcName !in index then t
                         else t.(cliName := index[t.objcName].cliName, isModel := index[t.objcName].isModel))
  {
    missed := false;
    if info.cliName.None? {
      var found, resolved := Lookup(own, refs, info.objcName);
      if found {
        info.cliName := resolved.cliName;
        info.isModel := resolved.isModel;
      } else if !force {
        missed := true;
      }
    }
  }

  /** The writes of ResolveCliToObjc, in the source's order, once its lookups are made (base is null when nothing was found). */
  method StoreObjcNames(info: NSObjectTypeInfo, base: NSObjectTypeInfo?, outlets: seq<Slot>, outletRefs: set<string>,
                        actions: seq<Action>, paramRefs: set<string>)
    modifies info
    ensures var h := if base == null then None else Some(old(base.AsHit()));
      info.View() == old(info.View()).(
        baseObjCType := if h.Some? then Some(h.value.objcName) else old(info.baseObjCType),
        baseIsModel := old(info.baseIsModel) || (h.Some? && h.value.isModel),
        userTypeReferences := old(info.userTypeReferences) + UserRef(h) + outletRefs + paramRefs,
        outlets := outlets,
        actions := actions)
  {
    if base != null {
      if base.isModel {
        info.baseIsModel := true;
      }
      info.baseObjCType := Some(base.objcName);
      if base.isUserType {
        info.userTypeReferences := info.userTypeReferences + {base.objcName};
      }
    }
    info.outlets := outlets;
    info.userTypeReferences := info.userTypeReferences + outletRefs;
    info.actions := actions;
    info.userTypeReferences := info.userTypeReferences + paramRefs;
  }

  /**
   * ResolveObjcToCli after the record's own step: the base type, the outlets
   * and the action parameters. The lookups read only names and model flags,
   * which these steps never write, so they are all made before the record is
   * updated.
   */
  method ResolveRestToCli(info: NSObjectTypeInfo, own: Table, refs: seq<Table>, force: bool)
    returns (baseMissed: bool, missed: nat)
    requires ObjcKeysPresent(info.View())
    modifies info
    ensures Index([own] + refs) == old(Index([own] + refs))
    ensures var t := old(info.View()); var index := old(Index([own] + refs));
      && baseMissed == (t.baseCliType.None? && t.baseObjCType.value !in index && !force)
      && missed == MissedSlots(t.outlets, index, force) + MissedParams(t.actions, index, force)
      && info.View() == (if t.baseCliType.Some? || t.baseObjCType.value !in index then t
                         else t.(baseCliType := index[t.baseObjCType.value].cliName)).(
                           outlets := SlotsToCli(t.outlets, index, force),
                           actions := ActionsToCli(t.actions, index, force))
  {
    var baseFound, baseResolved := false, null;
    if info.baseCliType.None? {
      baseFound, baseResolved := Lookup(own, refs, info.baseObjCType.value);
    }
    var outlets, missedOutlets := ResolveSlotsToCli(info.outlets, own, refs, force);
    var actions, missedParams := ResolveActionsToCli(info.actions, own, refs, force);
    baseMissed := info.baseCliType.None? && !baseFound && !force;
    missed := missedOutlets + missedParams;
    StoreCliNames(info, if baseFound then baseResolved else null, outlets, actions);
    IndexUnchanged([own] + refs);
  }

  /** The writes of ResolveObjcToCli after the record's own step, once its lookups are made (base is null when nothing was found). */
  method StoreCliNames(info: NSObjectTypeInfo, base: NSObjectTypeInfo?, outlets: seq<Slot>, actions: seq<Action>)
    modifies info
    ensures info.View() == old(info.View()).(
      baseCliType := if old(info.baseCliType).None? && base != null then old(base.cliName) else old(info.baseCliType),
      outlets := outlets,
      actions := actions)
  {
    if info.baseCliType.None? && base != null {
      info.baseCliType := base.cliName;
    }
    info.outlets := outlets;
    info.actions := actions;
  }

  /**
   * GetRegisteredObjects may be stored: every record has a .NET name, the
   * names ResolveCliToObjc looks up are non-null, and no two records share a
   * name on either side (Dictionary.Add throws on a duplicate key).
   */
  ghost predicate Registrable(registered: seq<NSObjectTypeInfo>)
    reads registered
  {
    && Named(registered)
    && DistinctNames(registered)
    && forall k :: 0 <= k < |registered| ==> CliKeysPresent(registered[k].View())
  }

  ghost predicate Named(registered: seq<NSObjectTypeInfo>)
    reads registered
  {
    forall k :: 0 <= k < |registered| ==> registered[k].cliName.Some?
  }

  ghost predicate DistinctNames(registered: seq<NSObjectTypeInfo>)
    reads registered
  {
    forall j, k :: 0 <= j < k < |registered| ==>
      registered[j].objcName != registered[k].objcName && registered[j].cliName != registered[k].cliName
  }

  /** The Objective-C names of the records, in order. */
  function ObjcKeys(registered: seq<NSObjectTypeInfo>): (keys: seq<string>)
    ensures |keys| == |registered|
    ensures forall k :: 0 <= k < |registered| ==> keys[k] == registered[k].objcName
  {
    seq(|registered|, k requires 0 <= k < |registered| => registered[k].objcName)
  }

  /** The .NET names of the records, in order. */
  function CliKeys(registered: seq<NSObjectTypeInfo>): (keys: seq<string>)
    reads registered
    requires Named(registered)
    ensures |keys| == |registered|
    ensures forall k :: 0 <= k < |registered| ==> registered[k].cliName == Some(keys[k])
  {
    seq(|registered|, k requires 0 <= k < |registered| && registered[k].cliName.Some? reads registered =>
      registered[k].cliName.value)
  }

  /** The dictionary that Add(keys[i], records[i]) for each i in order builds from an empty one. */
  function Filed(keys: seq<string>, records: seq<NSObjectTypeInfo>): Table
    requires |keys| == |records|
  {
    if records == [] then map[]
    else
      var last := |records| - 1;
      Filed(keys[..last], records[..last])[keys[last] := records[last]]
  }

  /** With distinct keys, the dictionary holds each record under its own key and nothing else. */
  lemma {:induction false} FiledContents(keys: seq<string>, records: seq<NSObjectTypeInfo>)
    requires |keys| == |records|
    requires forall j, k :: 0 <= j < k < |keys| ==> keys[j] != keys[k]
    ensures forall k :: 0 <= k < |keys| ==> keys[k] in Filed(keys, records) && Filed(keys, records)[keys[k]] == records[k]
    ensures forall n :: n in Filed(keys, records) ==> exists k :: 0 <= k < |keys| && keys[k] == n
  {
    if records != [] {
      var last := |records| - 1;
      FiledContents(keys[..last], records[..last]);
      forall k | 0 <= k < last
        ensures Filed(keys, records)[keys[k]] == records[k]
      {
        assert keys[..last][k] == keys[k] && records[..last][k] == records[k];
      }
      forall n | n in Filed(keys, records)
        ensures exists k :: 0 <= k < |keys| && keys[k] == n
      {
        if n != keys[last] {
          var k :| 0 <= k < last && keys[..last][k] == n;
          assert keys[k] == n;
        }
      }
    }
  }

  /** No key occurs twice. */
  predicate KeysDistinct(keys: seq<string>)
  {
    forall j, k :: 0 <= j < k < |keys| ==> keys[j] != keys[k]
  }

  /** Filing one more record: Add(keys[i], records[i]) finds the key new and files the record under it. */
  lemma FiledNext(keys: seq<string>, records: seq<NSObjectTypeInfo>, i: nat)
    requires |keys| == |records| && i < |keys|
    requires KeysDistinct(keys)
    ensures keys[i] !in Filed(keys[..i], records[..i])
    ensures Filed(keys[..i + 1], records[..i + 1]) == Filed(keys[..i], records[..i])[keys[i] := records[i]]
  {
    assert keys[..i + 1][..i] == keys[..i] && records[..i + 1][..i] == records[..i];
    FiledContents(keys[..i], records[..i]);
    assert forall k :: 0 <= k < i ==> keys[..i][k] != keys[i];
  }

  /** The Objective-C table Update() fills from the registered records. */
  function ObjcTableOf(registered: seq<NSObjectTypeInfo>): Table
  {
    Filed(ObjcKeys(registered), registered)
  }

  /** The .NET table Update() fills from the registered records. */
  function CliTableOf(registered: seq<NSObjectTypeInfo>): Table
    reads registered
    requires Named(registered)
  {
    Filed(CliKeys(registered), registered)
  }

  /** Each table files a record under that record's own name. */
  ghost predicate KeyedTables(objc: Table, cli: Table)
    reads cli.Values
  {
    && (forall k :: k in objc ==> objc[k].objcName == k)
    && (forall k :: k in cli ==> cli[k].cliName == Some(k))
  }

  /** The tables hold exactly the registered records, each under its own names. */
  ghost predicate HoldsExactly(objc: Table, cli: Table, registered: seq<NSObjectTypeInfo>)
    reads registered, cli.Values
  {
    && KeyedTables(objc, cli)
    && (forall n :: n in objc ==> objc[n] in registered)
    && (forall n :: n in cli ==> cli[n] in registered)
    && (forall k :: 0 <= k < |registered| ==>
          registered[k].objcName in objc && objc[registered[k].objcName] == registered[k])
    && (forall k :: 0 <= k < |registered| && registered[k].cliName.Some? ==>
          registered[k].cliName.value in cli && cli[registered[k].cliName.value] == registered[k])
  }

  /** Filing distinctly named records in order yields tables that hold exactly them. */
  lemma RegisteredTablesExact(registered: seq<NSObjectTypeInfo>)
    requires Named(registered) && DistinctNames(registered)
    ensures HoldsExactly(ObjcTableOf(registered), CliTableOf(registered), registered)
  {
    var objcKeys, cliKeys := ObjcKeys(registered), CliKeys(registered);
    var objc, cli := ObjcTableOf(registered), CliTableOf(registered);
    FiledContents(objcKeys, registered);
    FiledContents(cliKeys, registered);
    forall n | n in objc ensures objc[n] in registered && objc[n].objcName == n {
      var k :| 0 <= k < |registered| && objcKeys[k] == n;
    }
    forall n | n in cli ensures cli[n] in registered && cli[n].cliName == Some(n) {
      var k :| 0 <= k < |registered| && cliKeys[k] == n;
    }
  }

  class NSObjectProjectInfo {
    var objcTypes: Table
    var cliTypes: Table
    var needsUpdating: bool

    constructor ()
      ensures objcTypes == map[] && cliTypes == map[] && needsUpdating
    {
      objcTypes := map[];
      cliTypes := map[];
      needsUpdating := true;
    }

    /** The .NET-name tables of this project and its references, as an index. */
    function CliIndex(refCli: seq<Table>): map<string, Hit>
      reads this`cliTypes, Records([cliTypes] + refCli)
    {
      Index([cliTypes] + refCli)
    }

    /** The Objective-C-name tables of this project and its references, as an index. */
    function ObjcIndex(refObjc: seq<Table>): map<string, Hit>
      reads this`objcTypes, Records([objcTypes] + refObjc)
    {
      Index([objcTypes] + refObjc)
    }

    /** Each table files a record under that record's own name. */
    ghost predicate Keyed()
      reads this, cliTypes.Values
    {
      KeyedTables(objcTypes, cliTypes)
    }

    method SetNeedsUpdating()
      modifies this`needsUpdating
      ensures needsUpdating
    {
      needsUpdating := true;
    }

    /** The first half of Update(): clear both tables and file every registered record under both its names. */
    method FileRegistered(registered: seq<NSObjectTypeInfo>)
      requires Named(registered) && DistinctNames(registered)
      modifies this`objcTypes, this`cliTypes
      ensures objcTypes == ObjcTableOf(registered) && cliTypes == CliTableOf(registered)
    {
      ghost var objcKeys, cliKeys := ObjcKeys(registered), CliKeys(registered);
      assert KeysDistinct(objcKeys) && KeysDistinct(cliKeys) by {
        assert forall j, k :: 0 <= j < k < |registered| ==> objcKeys[j] != objcKeys[k] && cliKeys[j] != cliKeys[k];
      }
      var objc: Table, cli: Table := map[], map[];
      var i := 0;
      while i < |registered|
        invariant 0 <= i <= |registered|
        invariant objc == Filed(objcKeys[..i], registered[..i]) && cli == Filed(cliKeys[..i], registered[..i])
      {
        var r := registered[i];
        // Dictionary.Add succeeds: both names are new
        assert r.objcName !in objc && objc[r.objcName := r] == Filed(objcKeys[..i + 1], registered[..i + 1]) by {
          FiledNext(objcKeys, registered, i);
        }
        assert r.cliName.value !in cli && cli[r.cliName.value := r] == Filed(cliKeys[..i + 1], registered[..i + 1]) by {
          FiledNext(cliKeys, registered, i);
        }
        objc := objc[r.objcName := r];
        cli := cli[r.cliName.value := r];
        i := i + 1;
      }
      assert objc == ObjcTableOf(registered) && cli == CliTableOf(registered) by {
        assert registered[..i] == registered && objcKeys[..i] == objcKeys && cliKeys[..i] == cliKeys;
      }
      objcTypes, cliTypes := objc, cli;
    }

    /** The second half of Update(): ResolveCliToObjc on every registered record. */
    method ResolveRegistered(registered: seq<NSObjectTypeInfo>, refCli: seq<Table>,
                             hierarchy: string -> seq<Ancestor>)
      requires forall k :: 0 <= k < |registered| ==> CliKeysPresent(registered[k].View())
      requires forall j, k :: 0 <= j < k < |registered| ==> registered[j] != registered[k]
      modifies registered
      ensures CliIndex(refCli) == old(CliIndex(refCli))
      ensures forall k :: 0 <= k < |registered| ==>
        registered[k].View() == ResolvedToObjc(old(registered[k].View()), CliIndex(refCli), hierarchy)
      ensures forall k :: 0 <= k < |registered| ==> registered[k].cliName == old(registered[k].cliName)
    {
      ghost var index := CliIndex(refCli);
      ghost var before := seq(|registered|, k requires 0 <= k < |registered| reads registered =>
        registered[k].View());
      ghost var after := seq(|registered|, k requires 0 <= k < |registered| =>
        ResolvedToObjc(before[k], index, hierarchy));
      var i := 0;
      while i < |registered|
        invariant 0 <= i <= |registered|
        invariant CliIndex(refCli) == index
        invariant forall k :: 0 <= k < i ==> registered[k].View() == after[k]
        invariant forall k :: i <= k < |registered| ==> registered[k].View() == before[k]
      {
        label Step:
        ResolveCliToObjc(registered[i], refCli, hierarchy);
        forall k | 0 <= k < |registered| && k != i
          ensures registered[k].View() == old@Step(registered[k].View())
        {
          assert registered[k] != registered[i];
        }
        i := i + 1;
      }
      forall k | 0 <= k < |registered| ensures registered[k].cliName == old(registered[k].cliName) {
        ResolvedToObjcKeepsKnown(old(registered[k].View()), index, hierarchy);
      }
    }

    /**
     * The body of Update(): file every registered record under both its
     * names, then resolve their Objective-C names. The pass never changes a
     * .NET name, so the tables stay those of the registered records.
     */
    method Rebuild(registered: seq<NSObjectTypeInfo>, refCli: seq<Table>, hierarchy: string -> seq<Ancestor>)
      requires Registrable(registered)
      modifies this`objcTypes, this`cliTypes, registered
      ensures Named(registered)
      ensures objcTypes == ObjcTableOf(registered) && cliTypes == CliTableOf(registered)
      ensures forall k :: 0 <= k < |registered| ==>
        registered[k].View() == ResolvedToObjc(old(registered[k].View()), CliIndex(refCli), hierarchy)
    {
      forall j, k | 0 <= j < k < |registered| ensures registered[j] != registered[k] {
        assert registered[j].objcName != registered[k].objcName;
      }
      FileRegistered(registered);
      label Filed:
      ResolveRegistered(registered, refCli, hierarchy);
      assert CliKeys(registered) == old@Filed(CliKeys(registered));
    }

    /** Update(): when marked, rebuild both tables from the registered records and resolve their Objective-C names. */
    method UpdateIfNeeded(registered: seq<NSObjectTypeInfo>, refCli: seq<Table>,
                          hierarchy: string -> seq<Ancestor>)
      requires needsUpdating ==> Registrable(registered)
      modifies this, registered
      ensures !needsUpdating
      ensures !old(needsUpdating) ==>
        && objcTypes == old(objcTypes) && cliTypes == old(cliTypes)
        && forall k :: 0 <= k < |registered| ==> registered[k].View() == old(registered[k].View())
      ensures old(needsUpdating) ==>
        && Named(registered)
        && objcTypes == ObjcTableOf(registered) && cliTypes == CliTableOf(registered)
        && forall k :: 0 <= k < |registered| ==>
             registered[k].View() == ResolvedToObjc(old(registered[k].View()), CliIndex(refCli), hierarchy)
    {
      if !needsUpdating {
        return;
      }
      needsUpdating := false;
      Rebuild(registered, refCli, hierarchy);
    }

    /** Update(bool force): a forced update first marks the tables as stale. */
    method Update(force: bool, registered: seq<NSObjectTypeInfo>, refCli: seq<Table>,
                  hierarchy: string -> seq<Ancestor>)
      requires force || needsUpdating ==> Registrable(registered)
      modifies this, registered
      ensures !needsUpdating
      ensures !force && !old(needsUpdating) ==>
        && objcTypes == old(objcTypes) && cliTypes == old(cliTypes)
        && forall k :: 0 <= k < |registered| ==> registered[k].View() == old(registered[k].View())
      ensures force || old(needsUpdating) ==>
        && Named(registered)
        && objcTypes == ObjcTableOf(registered) && cliTypes == CliTableOf(registered)
        && forall k :: 0 <= k < |registered| ==>
             registered[k].View() == ResolvedToObjc(old(registered[k].View()), CliIndex(refCli), hierarchy)
    {
      if force {
        SetNeedsUpdating();
      }
      UpdateIfNeeded(registered, refCli, hierarchy);
    }

    /** GetTypes: every record of the Objective-C table. */
    function GetTypes(): (types: set<NSObjectTypeInfo>)
      reads this
      ensures forall k :: k in objcTypes ==> objcTypes[k] in types
      ensures Keyed() ==> forall t :: t in types ==> t.objcName in objcTypes && objcTypes[t.objcName] == t
    {
      objcTypes.Values
    }

    /** GetType: the record filed under an Objective-C name, or null. */
    method GetType(objcName: string) returns (r: NSObjectTypeInfo?)
      ensures r != null <==> objcName in objcTypes
      ensures r != null ==> r == objcTypes[objcName] && r in GetTypes()
      ensures Keyed() && r != null ==> r.objcName == objcName
    {
      if objcName in objcTypes {
        return objcTypes[objcName];
      }
      return null;
    }

    /** InsertUpdatedType: file a record under both its names, replacing what was there. */
    method InsertUpdatedType(info: NSObjectTypeInfo)
      requires info.cliName.Some?
      modifies this`objcTypes, this`cliTypes
      ensures objcTypes == old(objcTypes)[info.objcName := info]
      ensures cliTypes == old(cliTypes)[info.cliName.value := info]
      ensures old(Keyed()) ==> Keyed()
    {
      objcTypes := objcTypes[info.objcName := info];
      cliTypes := cliTypes[info.cliName.value := info];
    }

    /**
     * ResolveCliToObjc: fill in the record's missing Objective-C names from
     * its .NET names. The lookups read only names and model flags, which the
     * pass never writes, so they are all made before the record is updated.
     */
    method ResolveCliToObjc(info: NSObjectTypeInfo, refCli: seq<Table>, hierarchy: string -> seq<Ancestor>)
      requires CliKeysPresent(info.View())
      modifies info
      ensures CliIndex(refCli) == old(CliIndex(refCli))
      ensures info.View() == ResolvedToObjc(old(info.View()), CliIndex(refCli), hierarchy)
    {
      ghost var tables := [cliTypes] + refCli;
      var found, resolved := BaseLookupToObjc(info.View(), cliTypes, refCli, hierarchy);
      var outlets, outletRefs := ResolveSlotsToObjc(info.outlets, cliTypes, refCli);
      var actions, paramRefs := ResolveActionsToObjc(info.actions, cliTypes, refCli);
      StoreObjcNames(info, if found then resolved else null, outlets, outletRefs, actions, paramRefs);
      IndexUnchanged(tables);
    }

    /**
     * ResolveObjcToCli: fill in the record's missing .NET names from its
     * Objective-C names and return how many stay unresolved. Forced, an
     * outlet or parameter nobody knows takes its Objective-C name as its
     * .NET name and is not counted; the record's own and base names are left
     * null and not counted. After the record's own step, the remaining
     * lookups are all made before the record is updated.
     */
    method ResolveObjcToCli(info: NSObjectTypeInfo, refObjc: seq<Table>, force: bool) returns (unresolved: nat)
      requires ObjcKeysPresent(info.View())
      modifies info
      ensures Resolution(info.View(), unresolved)
           == ResolvedToCli(old(info.View()), old(ObjcIndex(refObjc)), ObjcIndex(refObjc), force)
    {
      ghost var t0, own := info.View(), ObjcIndex(refObjc);
      var ownMissed := ResolveOwnToCli(info, objcTypes, refObjc, force);
      ghost var t1, index := info.View(), ObjcIndex(refObjc);
      assert t1.objcName == t0.objcName && t1.baseObjCType == t0.baseObjCType && t1.baseCliType == t0.baseCliType;
      assert t1.outlets == t0.outlets && t1.actions == t0.actions;
      var baseMissed, missed := ResolveRestToCli(info, objcTypes, refObjc, force);
      assert index == ObjcIndex(refObjc);
      unresolved := (if ownMissed then 1 else 0) + (if baseMissed then 1 else 0) + missed;
    }
  }
}
