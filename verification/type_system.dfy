/**
 * The parts of the type system a parsed document is made of: source
 * locations and regions, comments, preprocessor bookkeeping, folding regions,
 * and unresolved type definitions with their members.
 *
 * The region predicates IsEmpty and IsInside belong to the type-system
 * library the parser uses; the model receives them as a RegionOps value and
 * assumes nothing about them.
 */
module TypeSystem {
  import opened Wrappers

  datatype Location = Location(line: int, column: int)

  datatype Region = Region(begin: Location, end: Location)

  /** DomRegion.IsEmpty and DomRegion.IsInside(location). */
  datatype RegionOps = RegionOps(isEmpty: Region -> bool, isInside: (Region, Location) -> bool)

  datatype ErrorType = Unknown | Error | Warning

  datatype ParseError = ParseError(errorType: ErrorType, message: string, region: Region)

  datatype CommentType = SingleLine | MultiLine | Documentation

  datatype Comment = Comment(
    commentType: CommentType,
    text: string,
    region: Region,
    commentStartsLine: bool,
    isDocumentation: bool)

  datatype Tag = Tag(key: string, text: string, region: Region)

  datatype PreProcessorDefine = PreProcessorDefine(define: string, region: Region)

  datatype ConditionBlock = ConditionBlock(flag: string, region: Region)

  datatype ConditionalRegion = ConditionalRegion(
    flag: string,
    region: Region,
    conditionBlocks: seq<ConditionBlock>,
    elseBlock: Region)

  datatype FoldType = Undefined | Comment | UserRegion | Type | Member | ConditionalDefine

  /** A fold; a name of None stands for the default label of a fold built without one. */
  datatype FoldingRegion = FoldingRegion(name: Option<string>, region: Region, foldType: FoldType)

  datatype TypeKind = Class | Interface | Struct | Enum | Delegate | Module

  /** Method covers constructors, destructors and operators; Property covers indexers. */
  datatype MemberKind = Field | Property | Method | Event

  datatype Member = Member(kind: MemberKind, name: string, region: Region, bodyRegion: Region)

  datatype TypeDef = TypeDef(
    kind: TypeKind,
    name: string,
    region: Region,
    bodyRegion: Region,
    nestedTypes: seq<TypeDef>,
    members: seq<Member>)

  /** IUnresolvedTypeDefinition.Methods: the members that are methods, in declaration order. */
  function Methods(t: TypeDef): (r: seq<Member>)
    ensures forall m :: m in r <==> m in t.members && m.kind == Method
  {
    OfKind(t.members, Method)
  }

  /** IUnresolvedTypeDefinition.Properties. */
  function Properties(t: TypeDef): (r: seq<Member>)
    ensures forall m :: m in r <==> m in t.members && m.kind == Property
  {
    OfKind(t.members, Property)
  }

  function OfKind(ms: seq<Member>, kind: MemberKind): (r: seq<Member>)
    ensures |r| <= |ms|
    ensures forall m :: m in r <==> m in ms && m.kind == kind
  {
    if ms == [] then []
    else (if ms[0].kind == kind then [ms[0]] else []) + OfKind(ms[1..], kind)
  }

  /** ts[k] is the first element of ts whose region contains loc. */
  predicate FirstTypeAt(ops: RegionOps, ts: seq<TypeDef>, loc: Location, k: int)
  {
    0 <= k < |ts| && ops.isInside(ts[k].region, loc) &&
    forall m :: 0 <= m < k ==> !ops.isInside(ts[m].region, loc)
  }

  /**
   * The first element of ts whose region contains loc (FirstOrDefault with
   * Region.IsInside), or None.
   */
  function FirstInside(ops: RegionOps, ts: seq<TypeDef>, loc: Location): (r: Option<TypeDef>)
    ensures r.None? <==> forall k :: 0 <= k < |ts| ==> !ops.isInside(ts[k].region, loc)
    ensures r.Some? ==> r.value in ts && exists k :: FirstTypeAt(ops, ts, loc, k) && ts[k] == r.value
  {
    if ts == [] then None
    else if ops.isInside(ts[0].region, loc) then
      assert FirstTypeAt(ops, ts, loc, 0);
      Some(ts[0])
    else
      var r := FirstInside(ops, ts[1..], loc);
      assert r.Some? ==> exists k :: FirstTypeAt(ops, ts, loc, k) && ts[k] == r.value by {
        if r.Some? {
          var k :| FirstTypeAt(ops, ts[1..], loc, k) && ts[1..][k] == r.value;
          assert FirstTypeAt(ops, ts, loc, k + 1);
        }
      }
      r
  }

  /** ms[k] is the first member whose region contains loc. */
  predicate FirstMemberAt(ops: RegionOps, ms: seq<Member>, loc: Location, k: int)
  {
    0 <= k < |ms| && ops.isInside(ms[k].region, loc) &&
    forall m :: 0 <= m < k ==> !ops.isInside(ms[m].region, loc)
  }

  /** The first member whose region contains loc, or None. */
  function FirstMemberInside(ops: RegionOps, ms: seq<Member>, loc: Location): (r: Option<Member>)
    ensures r.None? <==> forall k :: 0 <= k < |ms| ==> !ops.isInside(ms[k].region, loc)
    ensures r.Some? ==> r.value in ms && exists k :: FirstMemberAt(ops, ms, loc, k) && ms[k] == r.value
  {
    if ms == [] then None
    else if ops.isInside(ms[0].region, loc) then
      assert FirstMemberAt(ops, ms, loc, 0);
      Some(ms[0])
    else
      var r := FirstMemberInside(ops, ms[1..], loc);
      assert r.Some? ==> exists k :: FirstMemberAt(ops, ms, loc, k) && ms[k] == r.value by {
        if r.Some? {
          var k :| FirstMemberAt(ops, ms[1..], loc, k) && ms[1..][k] == r.value;
          assert FirstMemberAt(ops, ms, loc, k + 1);
        }
      }
      r
  }

  /** t followed by all of its nested types, at any depth, in declaration order. */
  function AllTypes(t: TypeDef): (r: seq<TypeDef>)
    decreases t, 1, 0
  {
    [t] + AllNested(t, 0)
  }

  /** AllTypes of t.nestedTypes[n..], concatenated. */
  function AllNested(t: TypeDef, n: nat): (r: seq<TypeDef>)
    requires n <= |t.nestedTypes|
    decreases t, 0, |t.nestedTypes| - n
  {
    if n == |t.nestedTypes| then []
    else AllTypes(t.nestedTypes[n]) + AllNested(t, n + 1)
  }

  lemma {:induction false} AllTypesNested(t: TypeDef)
    ensures t in AllTypes(t)
    ensures forall u, v :: u in AllTypes(t) && v in u.nestedTypes ==> v in AllTypes(t)
    decreases t, 1, 0
  {
    AllNestedNested(t, 0);
  }

  lemma {:induction false} AllNestedNested(t: TypeDef, n: nat)
    requires n <= |t.nestedTypes|
    ensures forall k :: n <= k < |t.nestedTypes| ==> t.nestedTypes[k] in AllNested(t, n)
    ensures forall u, v :: u in AllNested(t, n) && v in u.nestedTypes ==> v in AllNested(t, n)
    decreases t, 0, |t.nestedTypes| - n
  {
    if n < |t.nestedTypes| {
      AllTypesNested(t.nestedTypes[n]);
      AllNestedNested(t, n + 1);
    }
  }
}
