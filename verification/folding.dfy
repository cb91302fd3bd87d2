/**
 * FoldingUtilities, the parts that generate folds from the structure of a
 * parsed document: conditional-compilation regions, type and member bodies,
 * and the test whether a region lies inside a member body.
 */
module Folding {
  import opened Wrappers
  import opened TypeSystem

  /**
   * A region that is not known to start on a line, or that ends on the line it
   * starts on: only a region from line 1 or later that ends on a later line is
   * folded.
   */
  function IncompleteOrSingleLine(r: Region): (b: bool)
    ensures !b <==> 1 <= r.begin.line && r.begin.line + 1 <= r.end.line
  {
    r.begin.line <= 0 || r.end.line <= r.begin.line
  }

  // ---------------------------------------------------------------------
  // Conditional regions

  function IfFold(r: ConditionalRegion): FoldingRegion
  {
    FoldingRegion(Some("#if " + r.flag), r.region, ConditionalDefine)
  }

  function ElifFold(b: ConditionBlock): FoldingRegion
  {
    FoldingRegion(Some("#elif " + b.flag), b.region, ConditionalDefine)
  }

  function ElseFold(r: ConditionalRegion): FoldingRegion
  {
    FoldingRegion(Some("#else"), r.elseBlock, ConditionalDefine)
  }

  function ElifFolds(blocks: seq<ConditionBlock>): (folds: seq<FoldingRegion>)
    ensures |folds| == |blocks|
    ensures forall k :: 0 <= k < |blocks| ==> folds[k] == ElifFold(blocks[k])
  {
    if blocks == [] then [] else [ElifFold(blocks[0])] + ElifFolds(blocks[1..])
  }

  /** The number of folds one conditional region yields. */
  function RegionFoldCount(ops: RegionOps, r: ConditionalRegion): nat
  {
    1 + |r.conditionBlocks| + (if ops.isEmpty(r.elseBlock) then 0 else 1)
  }

  /** The folds of one conditional region: #if, one #elif per block, then #else if present. */
  function RegionFolds(ops: RegionOps, r: ConditionalRegion): (folds: seq<FoldingRegion>)
    ensures |folds| == RegionFoldCount(ops, r)
    ensures folds[0] == IfFold(r)
    ensures forall k :: 0 <= k < |r.conditionBlocks| ==> folds[1 + k] == ElifFold(r.conditionBlocks[k])
    ensures !ops.isEmpty(r.elseBlock) ==> folds[|folds| - 1] == ElseFold(r)
    ensures forall f :: f in folds ==> f.foldType == ConditionalDefine
  {
    [IfFold(r)] + ElifFolds(r.conditionBlocks) + (if ops.isEmpty(r.elseBlock) then [] else [ElseFold(r)])
  }

  /** ToFolds over a sequence of conditional regions. */
  function ConditionalFolds(ops: RegionOps, rs: seq<ConditionalRegion>): (folds: seq<FoldingRegion>)
    ensures forall f :: f in folds ==> f.foldType == ConditionalDefine
  {
    if rs == [] then [] else RegionFolds(ops, rs[0]) + ConditionalFolds(ops, rs[1..])
  }

  /** The folds of a sequence of regions are the folds of its parts, in order. */
  lemma {:induction false} ConditionalFoldsAppend(ops: RegionOps, a: seq<ConditionalRegion>, b: seq<ConditionalRegion>)
    ensures ConditionalFolds(ops, a + b) == ConditionalFolds(ops, a) + ConditionalFolds(ops, b)
  {
    if a == [] {
      assert a + b == b;
    } else {
      assert (a + b)[1..] == a[1..] + b;
      ConditionalFoldsAppend(ops, a[1..], b);
    }
  }

  /**
   * Region rs[n] owns the slice of the output that starts after the folds of
   * rs[..n]: there sits its #if fold, then its #elif folds, then its #else fold.
   */
  lemma ConditionalFoldsAt(ops: RegionOps, rs: seq<ConditionalRegion>, n: nat)
    requires n < |rs|
    ensures var start := |ConditionalFolds(ops, rs[..n])|;
      start + RegionFoldCount(ops, rs[n]) <= |ConditionalFolds(ops, rs)| &&
      ConditionalFolds(ops, rs)[start..start + RegionFoldCount(ops, rs[n])] == RegionFolds(ops, rs[n])
  {
    assert rs == rs[..n] + ([rs[n]] + rs[n + 1..]);
    ConditionalFoldsAppend(ops, rs[..n], [rs[n]] + rs[n + 1..]);
    assert ([rs[n]] + rs[n + 1..])[1..] == rs[n + 1..];
  }

  // ---------------------------------------------------------------------
  // Types and members

  function BodyFold(u: TypeDef): FoldingRegion
  {
    FoldingRegion(None, u.bodyRegion, FoldType.Type)
  }

  function MemberFold(m: Member): FoldingRegion
  {
    FoldingRegion(None, m.bodyRegion, FoldType.Member)
  }

  /** Member folds for the members in ms whose body spans more than one line. */
  function MemberFolds(ms: seq<Member>): (folds: seq<FoldingRegion>)
    ensures forall f :: f in folds <==> exists m :: m in ms && !IncompleteOrSingleLine(m.bodyRegion) && f == MemberFold(m)
  {
    if ms == [] then []
    else
      var rest := MemberFolds(ms[1..]);
      assert forall m :: m in ms <==> m == ms[0] || m in ms[1..];
      (if IncompleteOrSingleLine(ms[0].bodyRegion) then [] else [MemberFold(ms[0])]) + rest
  }

  /** The folds type u yields itself: its body, and the bodies of its methods and properties. */
  predicate OwnFold(u: TypeDef, f: FoldingRegion)
  {
    (!IncompleteOrSingleLine(u.bodyRegion) && f == BodyFold(u)) ||
    (u.kind != Interface &&
     exists m :: m in u.members && (m.kind == Method || m.kind == Property) &&
       !IncompleteOrSingleLine(m.bodyRegion) && f == MemberFold(m))
  }

  /**
   * ToFolds of one type: its body fold, the folds of its nested types, then
   * (unless it is an interface) its method folds and its property folds.
   */
  function TypeFolds(t: TypeDef): (folds: seq<FoldingRegion>)
    ensures forall f :: f in folds ==>
      f.name.None? && !IncompleteOrSingleLine(f.region) && (f.foldType == FoldType.Type || f.foldType == FoldType.Member)
    decreases t, 1, 0
  {
    (if IncompleteOrSingleLine(t.bodyRegion) then [] else [BodyFold(t)]) +
    NestedFolds(t, 0) +
    (if t.kind == Interface then [] else MemberFolds(Methods(t)) + MemberFolds(Properties(t)))
  }

  /** The folds of t.nestedTypes[n..], concatenated. */
  function NestedFolds(t: TypeDef, n: nat): (folds: seq<FoldingRegion>)
    requires n <= |t.nestedTypes|
    ensures forall f :: f in folds ==>
      f.name.None? && !IncompleteOrSingleLine(f.region) && (f.foldType == FoldType.Type || f.foldType == FoldType.Member)
    decreases t, 0, |t.nestedTypes| - n
  {
    if n == |t.nestedTypes| then [] else TypeFolds(t.nestedTypes[n]) + NestedFolds(t, n + 1)
  }

  /** ToFolds over a sequence of top-level types. */
  function TypesFolds(ts: seq<TypeDef>): (folds: seq<FoldingRegion>)
    ensures forall f :: f in folds ==>
      f.name.None? && !IncompleteOrSingleLine(f.region) && (f.foldType == FoldType.Type || f.foldType == FoldType.Member)
  {
    if ts == [] then [] else TypeFolds(ts[0]) + TypesFolds(ts[1..])
  }

  lemma OwnFoldsOfType(t: TypeDef, f: FoldingRegion)
    ensures OwnFold(t, f) <==>
      f in (if IncompleteOrSingleLine(t.bodyRegion) then [] else [BodyFold(t)]) +
        (if t.kind == Interface then [] else MemberFolds(Methods(t)) + MemberFolds(Properties(t)))
  {
  }

  /** A type yields exactly the own folds of itself and of every type nested in it. */
  lemma {:induction false} TypeFoldsExact(t: TypeDef)
    ensures forall f :: f in TypeFolds(t) <==> exists u :: u in AllTypes(t) && OwnFold(u, f)
    decreases t, 1, 0
  {
    NestedFoldsExact(t, 0);
    forall f
      ensures f in TypeFolds(t) <==> exists u :: u in AllTypes(t) && OwnFold(u, f)
    {
      OwnFoldsOfType(t, f);
      assert forall u :: u in AllTypes(t) <==> u == t || u in AllNested(t, 0);
    }
  }

  lemma {:induction false} NestedFoldsExact(t: TypeDef, n: nat)
    requires n <= |t.nestedTypes|
    ensures forall f :: f in NestedFolds(t, n) <==> exists u :: u in AllNested(t, n) && OwnFold(u, f)
    decreases t, 0, |t.nestedTypes| - n
  {
    if n < |t.nestedTypes| {
      var u := t.nestedTypes[n];
      TypeFoldsExact(u);
      NestedFoldsExact(t, n + 1);
      assert NestedFolds(t, n) == TypeFolds(u) + NestedFolds(t, n + 1);
      assert AllNested(t, n) == AllTypes(u) + AllNested(t, n + 1);
      forall f
        ensures f in NestedFolds(t, n) <==> exists v :: v in AllNested(t, n) && OwnFold(v, f)
      {
        assert f in NestedFolds(t, n) <==> f in TypeFolds(u) || f in NestedFolds(t, n + 1);
        assert forall v :: v in AllNested(t, n) <==> v in AllTypes(u) || v in AllNested(t, n + 1);
      }
    }
  }

  /** An interface with no nested types yields at most its own body fold. */
  lemma InterfaceFolds(t: TypeDef)
    requires t.kind == Interface && t.nestedTypes == []
    ensures forall f :: f in TypeFolds(t) ==> f == BodyFold(t)
  {
    assert NestedFolds(t, 0) == [];
  }

  // ---------------------------------------------------------------------
  // Inside a member

  /** The body of m is non-empty and contains both ends of region. */
  predicate MemberSpans(ops: RegionOps, region: Region, m: Member)
  {
    !ops.isEmpty(m.bodyRegion) &&
    ops.isInside(m.bodyRegion, region.begin) && ops.isInside(m.bodyRegion, region.end)
  }

  function SomeMemberSpans(ops: RegionOps, region: Region, ms: seq<Member>): (r: bool)
    ensures r <==> exists m :: m in ms && MemberSpans(ops, region, m)
  {
    if ms == [] then false
    else
      assert forall m :: m in ms <==> m == ms[0] || m in ms[1..];
      MemberSpans(ops, region, ms[0]) || SomeMemberSpans(ops, region, ms[1..])
  }

  /**
   * Whether region is non-empty and lies inside the body of a member of cl or
   * of a type nested in cl, looking only through types whose body contains
   * the region's start.
   */
  function IsInsideMember(ops: RegionOps, region: Region, cl: TypeDef): (r: bool)
    ensures r ==> !ops.isEmpty(region) && ops.isInside(cl.bodyRegion, region.begin)
    ensures (!ops.isEmpty(region) && ops.isInside(cl.bodyRegion, region.begin) &&
             exists m :: m in cl.members && MemberSpans(ops, region, m)) ==> r
    decreases cl, 1, 0
  {
    if ops.isEmpty(region) || !ops.isInside(cl.bodyRegion, region.begin) then false
    else SomeMemberSpans(ops, region, cl.members) || InsideNestedMember(ops, region, cl, 0)
  }

  /** Some type nested in cl at position n or later has region inside a member. */
  function InsideNestedMember(ops: RegionOps, region: Region, cl: TypeDef, n: nat): (r: bool)
    requires n <= |cl.nestedTypes|
    ensures r <==> exists k :: n <= k < |cl.nestedTypes| && IsInsideMember(ops, region, cl.nestedTypes[k])
    decreases cl, 0, |cl.nestedTypes| - n
  {
    n < |cl.nestedTypes| &&
    (IsInsideMember(ops, region, cl.nestedTypes[n]) || InsideNestedMember(ops, region, cl, n + 1))
  }

  /**
   * path descends from path[0] through nested types to a type with a member
   * spanning region, and every type on the way has a body containing the
   * region's start.
   */
  predicate MemberPath(ops: RegionOps, region: Region, path: seq<TypeDef>)
  {
    |path| > 0 &&
    (forall k :: 0 <= k < |path| ==> ops.isInside(path[k].bodyRegion, region.begin)) &&
    (forall k :: 0 < k < |path| ==> path[k] in path[k - 1].nestedTypes) &&
    exists m :: m in path[|path| - 1].members && MemberSpans(ops, region, m)
  }

  /** IsInsideMember holds exactly when some path of containing types leads to a spanning member. */
  lemma {:induction false} IsInsideMemberPath(ops: RegionOps, region: Region, cl: TypeDef)
    ensures IsInsideMember(ops, region, cl) <==>
      !ops.isEmpty(region) && exists path :: MemberPath(ops, region, path) && path[0] == cl
    decreases cl, 1, 0
  {
    if !ops.isEmpty(region) {
      if IsInsideMember(ops, region, cl) {
        if SomeMemberSpans(ops, region, cl.members) {
          assert MemberPath(ops, region, [cl]);
        } else {
          var path := InsideNestedPath(ops, region, cl, 0);
          assert MemberPath(ops, region, [cl] + path);
        }
      }
      if exists path :: MemberPath(ops, region, path) && path[0] == cl {
        var path :| MemberPath(ops, region, path) && path[0] == cl;
        if |path| == 1 {
          assert SomeMemberSpans(ops, region, cl.members);
        } else {
          var rest := path[1..];
          assert MemberPath(ops, region, rest);
          var n :| 0 <= n < |cl.nestedTypes| && cl.nestedTypes[n] == rest[0];
          IsInsideMemberPath(ops, region, rest[0]);
          assert IsInsideMember(ops, region, cl.nestedTypes[n]);
        }
      }
    }
  }

  lemma {:induction false} InsideNestedPath(ops: RegionOps, region: Region, cl: TypeDef, n: nat)
    returns (path: seq<TypeDef>)
    requires n <= |cl.nestedTypes|
    requires !ops.isEmpty(region) && InsideNestedMember(ops, region, cl, n)
    ensures MemberPath(ops, region, path) && path[0] in cl.nestedTypes
    decreases cl, 0, |cl.nestedTypes| - n
  {
    if IsInsideMember(ops, region, cl.nestedTypes[n]) {
      IsInsideMemberPath(ops, region, cl.nestedTypes[n]);
      path :| MemberPath(ops, region, path) && path[0] == cl.nestedTypes[n];
    } else {
      path := InsideNestedPath(ops, region, cl, n + 1);
    }
  }
}
