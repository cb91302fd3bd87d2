/**
 * ParsedDocument: the result of parsing one file. It collects errors,
 * comments, tag comments, preprocessor defines, conditional regions and extra
 * folds in lists that the parser appends to, and (as DefaultParsedDocument)
 * the file's top-level type definitions, which it searches by location.
 */
module ParsedDocuments {
  import opened Wrappers
  import opened TypeSystem

  /** Errors.Any(e => e.ErrorType == ErrorType.Error), scanning from the front. */
  function AnyError(errors: seq<ParseError>): (r: bool)
    ensures r <==> exists k :: 0 <= k < |errors| && errors[k].errorType == Error
  {
    if errors == [] then false
    else errors[0].errorType == Error || AnyError(errors[1..])
  }

  lemma {:induction false} AnyErrorAppend(a: seq<ParseError>, b: seq<ParseError>)
    ensures AnyError(a + b) == (AnyError(a) || AnyError(b))
  {
    if a == [] {
      assert a + b == b;
    } else {
      assert (a + b)[1..] == a[1..] + b;
      AnyErrorAppend(a[1..], b);
    }
  }

  /**
   * The innermost type definition below t that contains loc: descend into the
   * first nested type whose region contains loc for as long as there is one.
   */
  function InnermostIn(ops: RegionOps, t: TypeDef, loc: Location): (r: TypeDef)
    ensures forall v :: v in r.nestedTypes ==> !ops.isInside(v.region, loc)
    ensures r == t || ops.isInside(r.region, loc)
    decreases t
  {
    match FirstInside(ops, t.nestedTypes, loc)
    case None => t
    case Some(u) => InnermostIn(ops, u, loc)
  }

  /** DefaultParsedDocument.GetInnermostTypeDefinition, as a value. */
  function Innermost(ops: RegionOps, types: seq<TypeDef>, loc: Location): (r: Option<TypeDef>)
    ensures r.None? <==> forall k :: 0 <= k < |types| ==> !ops.isInside(types[k].region, loc)
    ensures r.Some? ==> ops.isInside(r.value.region, loc)
    ensures r.Some? ==> forall v :: v in r.value.nestedTypes ==> !ops.isInside(v.region, loc)
  {
    match FirstInside(ops, types, loc)
    case None => None
    case Some(t) => Some(InnermostIn(ops, t, loc))
  }

  lemma {:induction false} InnermostInIsNested(ops: RegionOps, t: TypeDef, loc: Location)
    ensures InnermostIn(ops, t, loc) in AllTypes(t)
    decreases t
  {
    AllTypesNested(t);
    match FirstInside(ops, t.nestedTypes, loc)
    case None =>
    case Some(u) =>
      InnermostInIsNested(ops, u, loc);
      AllTypesClosed(t, u);
  }

  /** Every type nested (at any depth) in a nested type of t is nested in t. */
  lemma {:induction false} AllTypesClosed(t: TypeDef, u: TypeDef)
    requires u in t.nestedTypes
    ensures forall w :: w in AllTypes(u) ==> w in AllTypes(t)
  {
    var n :| 0 <= n < |t.nestedTypes| && t.nestedTypes[n] == u;
    AllNestedSuffix(t, 0, n);
  }

  lemma {:induction false} AllNestedSuffix(t: TypeDef, i: nat, n: nat)
    requires i <= n < |t.nestedTypes|
    ensures forall w :: w in AllTypes(t.nestedTypes[n]) ==> w in AllNested(t, i)
    decreases n - i
  {
    if i < n {
      AllNestedSuffix(t, i + 1, n);
    }
  }

  /** The innermost type found for loc lies within the first top-level type containing loc. */
  lemma InnermostIsNested(ops: RegionOps, types: seq<TypeDef>, loc: Location)
    ensures Innermost(ops, types, loc).Some? ==>
      exists k :: FirstTypeAt(ops, types, loc, k) && Innermost(ops, types, loc).value in AllTypes(types[k])
  {
    var first := FirstInside(ops, types, loc);
    if first.Some? {
      InnermostInIsNested(ops, first.value, loc);
    }
  }

  /** DefaultParsedDocument.GetMember, as a value. */
  function MemberAt(ops: RegionOps, types: seq<TypeDef>, loc: Location): (r: Option<Member>)
    ensures r.Some? ==> ops.isInside(r.value.region, loc)
    ensures r.Some? ==> Innermost(ops, types, loc).Some? && r.value in Innermost(ops, types, loc).value.members
    ensures Innermost(ops, types, loc).None? ==> r.None?
    ensures Innermost(ops, types, loc).Some? ==>
      var ms := Innermost(ops, types, loc).value.members;
      && (r.None? <==> forall k :: 0 <= k < |ms| ==> !ops.isInside(ms[k].region, loc))
      && (r.Some? ==> exists k :: FirstMemberAt(ops, ms, loc, k) && ms[k] == r.value)
  {
    match Innermost(ops, types, loc)
    case None => None
    case Some(t) => FirstMemberInside(ops, t.members, loc)
  }

  class ParsedDocument {
    const fileName: string
    var errors: seq<ParseError>
    var comments: seq<Comment>
    var tagComments: seq<Tag>
    var defines: seq<PreProcessorDefine>
    var conditionalRegions: seq<ConditionalRegion>
    var folds: seq<FoldingRegion>
    /** DefaultParsedDocument's TopLevelTypeDefinitions. */
    var types: seq<TypeDef>

    constructor (fileName: string)
      ensures this.fileName == fileName
      ensures errors == [] && comments == [] && tagComments == [] && defines == []
      ensures conditionalRegions == [] && folds == [] && types == []
    {
      this.fileName := fileName;
      errors := [];
      comments := [];
      tagComments := [];
      defines := [];
      conditionalRegions := [];
      folds := [];
      types := [];
    }

    /** Whether some recorded error is an error rather than a warning. */
    function HasErrors(): (r: bool)
      reads this`errors
      ensures r <==> exists k :: 0 <= k < |errors| && errors[k].errorType == Error
    {
      AnyError(errors)
    }

    method AddError(error: ParseError)
      modifies this`errors
      ensures errors == old(errors) + [error]
      ensures HasErrors() == (old(HasErrors()) || error.errorType == Error)
    {
      AnyErrorAppend(errors, [error]);
      errors := errors + [error];
    }

    method AddComment(comment: Comment)
      modifies this`comments
      ensures comments == old(comments) + [comment]
    {
      comments := comments + [comment];
    }

    method AddTag(tagComment: Tag)
      modifies this`tagComments
      ensures tagComments == old(tagComments) + [tagComment]
    {
      tagComments := tagComments + [tagComment];
    }

    method AddDefine(define: PreProcessorDefine)
      modifies this`defines
      ensures defines == old(defines) + [define]
    {
      defines := defines + [define];
    }

    method AddConditionalRegion(region: ConditionalRegion)
      modifies this`conditionalRegions
      ensures conditionalRegions == old(conditionalRegions) + [region]
    {
      conditionalRegions := conditionalRegions + [region];
    }

    method AddFold(region: FoldingRegion)
      modifies this`folds
      ensures folds == old(folds) + [region]
    {
      folds := folds + [region];
    }

    /** Appends the errors one at a time, in order. */
    method AddErrors(newErrors: seq<ParseError>)
      modifies this`errors
      ensures errors == old(errors) + newErrors
      ensures HasErrors() == (old(HasErrors()) || AnyError(newErrors))
    {
      var i := 0;
      while i < |newErrors|
        invariant 0 <= i <= |newErrors|
        invariant errors == old(errors) + newErrors[..i]
      {
        AddError(newErrors[i]);
        assert newErrors[..i + 1] == newErrors[..i] + [newErrors[i]];
        i := i + 1;
      }
      assert newErrors[..i] == newErrors;
      AnyErrorAppend(old(errors), newErrors);
    }

    method AddComments(newComments: seq<Comment>)
      modifies this`comments
      ensures comments == old(comments) + newComments
    {
      comments := comments + newComments;
    }

    method AddTags(newTags: seq<Tag>)
      modifies this`tagComments
      ensures tagComments == old(tagComments) + newTags
    {
      tagComments := tagComments + newTags;
    }

    method AddDefines(newDefines: seq<PreProcessorDefine>)
      modifies this`defines
      ensures defines == old(defines) + newDefines
    {
      defines := defines + newDefines;
    }

    method AddFolds(newFolds: seq<FoldingRegion>)
      modifies this`folds
      ensures folds == old(folds) + newFolds
    {
      folds := folds + newFolds;
    }

    method AddConditionalRegions(newRegions: seq<ConditionalRegion>)
      modifies this`conditionalRegions
      ensures conditionalRegions == old(conditionalRegions) + newRegions
    {
      conditionalRegions := conditionalRegions + newRegions;
    }

    /** The first top-level type whose region contains loc. */
    function GetTopLevelTypeDefinition(ops: RegionOps, loc: Location): (r: Option<TypeDef>)
      reads this`types
      ensures r.None? <==> forall k :: 0 <= k < |types| ==> !ops.isInside(types[k].region, loc)
      ensures r.Some? ==> exists k :: FirstTypeAt(ops, types, loc, k) && types[k] == r.value
    {
      FirstInside(ops, types, loc)
    }

    method GetInnermostTypeDefinition(ops: RegionOps, loc: Location) returns (r: Option<TypeDef>)
      ensures r == Innermost(ops, types, loc)
    {
      var parent: Option<TypeDef> := None;
      var t := GetTopLevelTypeDefinition(ops, loc);
      if t.None? {
        return parent;
      }
      ghost var top := t.value;
      parent := t;
      t := FirstInside(ops, parent.value.nestedTypes, loc);
      while t.Some?
        invariant parent.Some? && InnermostIn(ops, parent.value, loc) == InnermostIn(ops, top, loc)
        invariant t == FirstInside(ops, parent.value.nestedTypes, loc)
        decreases parent.value
      {
        parent := t;
        t := FirstInside(ops, parent.value.nestedTypes, loc);
      }
      return parent;
    }

    method GetMember(ops: RegionOps, loc: Location) returns (r: Option<Member>)
      ensures r == MemberAt(ops, types, loc)
    {
      var t := GetInnermostTypeDefinition(ops, loc);
      if t.None? {
        return None;
      }
      return FirstMemberInside(ops, t.value.members, loc);
    }
  }
}
