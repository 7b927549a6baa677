/**
 * The public projection object: what it is built from (an inline lambda, or
 * the merge of two projections), the lambda it exposes, its expanded lambda,
 * and the two memo slots that keep the expanded lambda and the compiled
 * delegate once they have been computed.
 */
module Projections {
  import opened ExpressionTrees
  import Rebinding
  import opened Expansion
  import opened Merging

  /** How a projection was built: from a lambda, or as `first.MergeBindings(second)`. */
  datatype ProjDef = Inline(l: Projection) | Merged(first: ProjDef, second: ProjDef)

  /**
   * The lambda a projection exposes. A merge expands its first operand and
   * checks that operand's shape before it expands its second operand.
   */
  function ExpressionOf(d: ProjDef, o: Oracle): (r: Result<Projection>)
    ensures d.Inline? ==> r == Ok(d.l)
    ensures r.Ok? ==> r.value.outTy == OutTyOf(d)
    ensures r.Ok? && d.Merged? ==> r.value.body.MemberInit? && r.value.body.ty == OutTyOf(d)
    decreases d, 0
  {
    match d
    case Inline(l) => Ok(l)
    case Merged(a, b) =>
      var firstExpanded :- ExpandedOf(a, o);
      if !Extractable(firstExpanded.body) then Err(UnsupportedShape)
      else
        var secondExpanded :- ExpandedOf(b, o);
        MergeExpanded(firstExpanded, secondExpanded)
  }

  /**
   * The exposed lambda with its calls to other projections inlined: it keeps
   * the exposed lambda's parameter, delegate type and result type.
   */
  function ExpandedOf(d: ProjDef, o: Oracle): (r: Result<Projection>)
    ensures r.Ok? ==> ExpressionOf(d, o).Ok?
    ensures r.Ok? ==>
      var l := ExpressionOf(d, o).value;
      r.value.param == l.param && r.value.delegateTy == l.delegateTy && r.value.outTy == l.outTy
    ensures r.Ok? ==> r.value.outTy == OutTyOf(d)
    decreases d, 1
  {
    var l :- ExpressionOf(d, o);
    ExpandProjection(l, o)
  }

  /** The result type of the projection: a merge has its first operand's. */
  function OutTyOf(d: ProjDef): Ty {
    match d
    case Inline(l) => l.outTy
    case Merged(a, _) => OutTyOf(a)
  }

  class Proj {
    const def: ProjDef
    /** The lambda the compiled delegate runs, once compiled. */
    var compiled: Option<Projection>
    /** The expanded lambda, once computed. */
    var expanded: Option<Projection>
    /** The resolution each memo slot was filled under. */
    ghost var compiledUnder: Oracle
    ghost var expandedUnder: Oracle

    /** Each filled slot holds what its computation gave under the resolution it was filled under. */
    ghost predicate Valid()
      reads this
    {
      && (compiled.Some? ==> ExpressionOf(def, compiledUnder) == Ok(compiled.value))
      && (expanded.Some? ==> ExpandedOf(def, expandedUnder) == Ok(expanded.value))
    }

    /** `Proj.Create(lambda)`: an inline projection with empty memo slots. */
    constructor Create(l: Projection)
      ensures def == Inline(l) && compiled == None && expanded == None
      ensures Valid()
    {
      def := Inline(l);
      compiled := None;
      expanded := None;
    }

    /** A merged projection over the two operands' definitions, with empty memo slots. */
    constructor MergeOf(first: Proj, second: Proj)
      ensures def == Merged(first.def, second.def) && compiled == None && expanded == None
      ensures Valid()
    {
      def := Merged(first.def, second.def);
      compiled := None;
      expanded := None;
    }

    /** `MergeBindings(other)`: a new projection; neither operand changes. */
    method MergeBindings(other: Proj) returns (r: Proj)
      ensures fresh(r) && r.Valid()
      ensures r.def == Merged(def, other.def) && r.compiled == None && r.expanded == None
    {
      r := new Proj.MergeOf(this, other);
    }

    /** `MergeBindings(lambda)`: the merge with an inline projection over the lambda. */
    method MergeBindingsWith(l: Projection) returns (r: Proj)
      ensures fresh(r) && r.Valid()
      ensures r.def == Merged(def, Inline(l)) && r.compiled == None && r.expanded == None
    {
      var other := new Proj.Create(l);
      r := MergeBindings(other);
    }

    /**
     * The expanded lambda: the stored one when the slot is filled, whatever
     * the resolution is now; otherwise it is computed and, when that
     * succeeds, stored. A failure leaves the slot empty.
     */
    method GetExpandedExpression(o: Oracle) returns (r: Result<Projection>)
      requires Valid()
      modifies this
      ensures Valid()
      ensures compiled == old(compiled) && compiledUnder == old(compiledUnder)
      ensures old(expanded).Some? ==>
        r == Ok(old(expanded).value) && expanded == old(expanded) && expandedUnder == old(expandedUnder)
      ensures old(expanded).None? ==>
        && r == ExpandedOf(def, o)
        && (r.Ok? ==> expanded == Some(r.value) && expandedUnder == o)
        && (r.Err? ==> expanded == None)
    {
      if expanded.Some? {
        return Ok(expanded.value);
      }
      r := ExpandedOf(def, o);
      if r.Ok? {
        expanded := Some(r.value);
        expandedUnder := o;
      }
    }

    /** The lambda behind the compiled delegate, memoised like the expanded one; it is not expanded. */
    method GetCompiledExpression(o: Oracle) returns (r: Result<Projection>)
      requires Valid()
      modifies this
      ensures Valid()
      ensures expanded == old(expanded) && expandedUnder == old(expandedUnder)
      ensures old(compiled).Some? ==>
        r == Ok(old(compiled).value) && compiled == old(compiled) && compiledUnder == old(compiledUnder)
      ensures old(compiled).None? ==>
        && r == ExpressionOf(def, o)
        && (r.Ok? ==> compiled == Some(r.value) && compiledUnder == o)
        && (r.Err? ==> compiled == None)
    {
      if compiled.Some? {
        return Ok(compiled.value);
      }
      r := ExpressionOf(def, o);
      if r.Ok? {
        compiled := Some(r.value);
        compiledUnder := o;
      }
    }

    /** `Map(candidate)`: the compiled delegate applied to the candidate; `eval` runs a lambda on a value. */
    method Map(candidate: Value, o: Oracle, eval: (Projection, Value) -> Value) returns (r: Result<Value>)
      requires Valid()
      modifies this
      ensures Valid()
      ensures expanded == old(expanded) && expandedUnder == old(expandedUnder)
      ensures r.Ok? <==> compiled.Some?
      ensures r.Ok? ==> r.value == eval(compiled.value, candidate)
      ensures old(compiled).Some? ==> compiled == old(compiled) && compiledUnder == old(compiledUnder)
      ensures old(compiled).None? ==>
        if ExpressionOf(def, o).Ok? then compiled == Some(ExpressionOf(def, o).value)
        else r == Err(ExpressionOf(def, o).error) && compiled == None
    {
      var f := GetCompiledExpression(o);
      if f.Err? {
        return Err(f.error);
      }
      r := Ok(eval(f.value, candidate));
    }

    /** `MapIfNotNull(candidate)`: the result type's default for a null candidate, otherwise `Map`. */
    method MapIfNotNull(candidate: Value, o: Oracle, eval: (Projection, Value) -> Value) returns (r: Result<Value>)
      requires Valid()
      modifies this
      ensures Valid()
      ensures candidate == Null ==>
        && r == Ok(DefaultValue(OutTyOf(def)))
        && compiled == old(compiled) && compiledUnder == old(compiledUnder)
        && expanded == old(expanded) && expandedUnder == old(expandedUnder)
      ensures candidate != Null ==>
        && expanded == old(expanded) && expandedUnder == old(expandedUnder)
        && (r.Ok? <==> compiled.Some?)
        && (r.Ok? ==> r.value == eval(compiled.value, candidate))
        && (old(compiled).Some? ==> compiled == old(compiled) && compiledUnder == old(compiledUnder))
        && (old(compiled).None? ==>
              if ExpressionOf(def, o).Ok? then compiled == Some(ExpressionOf(def, o).value)
              else r == Err(ExpressionOf(def, o).error) && compiled == None)
    {
      if candidate == Null {
        return Ok(DefaultValue(OutTyOf(def)));
      }
      r := Map(candidate, o, eval);
    }
  }

  // ---------------------------------------------------------------------------
  // Properties of the exposed and expanded lambdas

  /**
   * A merged projection exposes one construction of the first operand's
   * result type over the first operand's parameter; its members are the
   * first operand's followed by the second operand's, in order and with
   * duplicates kept.
   */
  lemma MergedExpressionShape(a: ProjDef, b: ProjDef, o: Oracle)
    requires ExpressionOf(Merged(a, b), o).Ok?
    ensures var fa := ExpandedOf(a, o);
      var fb := ExpandedOf(b, o);
      && fa.Ok? && fb.Ok?
      && var r := ExpressionOf(Merged(a, b), o).value;
         var replaced := Rebinding.Rebind(fb.value.body, fb.value.param, Param(fa.value.param));
         && replaced.Ok?
         && r.param == fa.value.param
         && r.body == MemberInit(fa.value.outTy,
              MemberBindings(fa.value.body).value + MemberBindings(replaced.value).value)
         && MemberNames(r.body.bindings) ==
              MemberNames(MemberBindings(fa.value.body).value) + MemberNames(MemberBindings(replaced.value).value)
  {
    var fa := ExpandedOf(a, o).value;
    var fb := ExpandedOf(b, o).value;
    MergeExpandedSpec(fa, fb);
  }

  /**
   * The first operand's shape is checked before the second operand is
   * expanded: a first operand whose expanded body is neither a construction
   * nor a conditional fails the merge with the shape error, whatever the
   * second operand is.
   */
  lemma FirstShapeCheckedFirst(a: ProjDef, b: ProjDef, o: Oracle)
    requires ExpandedOf(a, o).Ok? && !Extractable(ExpandedOf(a, o).value.body)
    ensures ExpressionOf(Merged(a, b), o) == Err(UnsupportedShape)
  {
  }

  /** A merge fails with the shape error exactly when one expanded operand has a body the merge does not accept. */
  lemma MergedShapeError(a: ProjDef, b: ProjDef, o: Oracle)
    requires ExpandedOf(a, o).Ok? && ExpandedOf(b, o).Ok?
    ensures ExpressionOf(Merged(a, b), o) == Err(UnsupportedShape) <==>
      !Extractable(ExpandedOf(a, o).value.body) || !Extractable(ExpandedOf(b, o).value.body)
  {
    var fa := ExpandedOf(a, o).value;
    var fb := ExpandedOf(b, o).value;
    MergeExpandedSpec(fa, fb);
    RebindOntoParameterFacts(fa, fb);
  }

  lemma RebindOntoParameterFacts(fa: Projection, fb: Projection)
    ensures var replaced := Rebinding.Rebind(fb.body, fb.param, Param(fa.param));
      && replaced.Ok?
      && (Extractable(replaced.value) <==> Extractable(fb.body))
      && (Extractable(fa.body) && Extractable(fb.body) ==>
            MergeExpanded(fa, fb).Err? ==> MergeExpanded(fa, fb).error != UnsupportedShape)
  {
    Rebinding.RebindOntoParameterSucceeds(fb.body, fb.param, fa.param);
    Rebinding.RebindOntoParameterKeepsShape(fb.body, fb.param, fa.param);
    var replaced := Rebinding.Rebind(fb.body, fb.param, Param(fa.param)).value;
  }

  /**
   * Merging operands whose expanded lambdas have nothing left to inline gives
   * a lambda that has nothing left to inline either: rebinding onto the first
   * parameter, guarding and pairing fields add no call or conversion. So the
   * merged projection's expanded lambda is the lambda it exposes.
   */
  lemma MergedExpansionIsExposed(a: ProjDef, b: ProjDef, o: Oracle)
    requires ExpandedOf(a, o).Ok? && ExpandedOf(b, o).Ok?
    requires !Inlines(ExpandedOf(a, o).value.body, o) && !Inlines(ExpandedOf(b, o).value.body, o)
    requires ExpressionOf(Merged(a, b), o).Ok?
    ensures ExpandedOf(Merged(a, b), o) == ExpressionOf(Merged(a, b), o)
  {
    var fa, fb := ExpandedOf(a, o).value, ExpandedOf(b, o).value;
    assert ExpressionOf(Merged(a, b), o) == MergeExpanded(fa, fb);
    MergeKeepsNothingToInline(fa, fb, o);
    ExpandProjectionFixpoint(ExpressionOf(Merged(a, b), o).value, o);
  }

  lemma MergeKeepsNothingToInline(fa: Projection, fb: Projection, o: Oracle)
    requires !Inlines(fa.body, o) && !Inlines(fb.body, o)
    requires MergeExpanded(fa, fb).Ok?
    ensures !Inlines(MergeExpanded(fa, fb).value.body, o)
  {
    RebindKeepsNothingToInline(fb.body, fb.param, fa.param, o);
    var replaced := Rebinding.Rebind(fb.body, fb.param, Param(fa.param)).value;
    MemberBindingsKeepsNothingToInline(fa.body, o);
    MemberBindingsKeepsNothingToInline(replaced, o);
    NoInlinesConcat(MemberBindings(fa.body).value, MemberBindings(replaced).value, o);
  }

  /** The bindings extracted from a body with nothing to inline have nothing to inline. */
  lemma MemberBindingsKeepsNothingToInline(body: Expr, o: Oracle)
    requires !Inlines(body, o) && MemberBindings(body).Ok?
    ensures !InlinesInBindings(MemberBindings(body).value, o)
  {
    if body.Conditional? {
      var test, t, f := body.test, body.ifTrue, body.ifFalse;
      assert !Inlines(test, o) && !Inlines(t, o) && !Inlines(f, o);
      if t.MemberInit? && IsDefaultOrNull(f) {
        GuardedKeepsNothingToInline(test, t.bindings, true, o);
      } else if f.MemberInit? && IsDefaultOrNull(t) {
        GuardedKeepsNothingToInline(test, f.bindings, false, o);
      } else {
        ZipKeepsNothingToInline(test, BranchBindings(t), BranchBindings(f), o);
      }
    }
  }

  lemma {:induction false} GuardedKeepsNothingToInline(test: Expr, bs: seq<Binding>, liveOnTrue: bool, o: Oracle)
    requires !Inlines(test, o) && !InlinesInBindings(bs, o)
    requires GuardedBindings(test, bs, liveOnTrue).Ok?
    ensures !InlinesInBindings(GuardedBindings(test, bs, liveOnTrue).value, o)
    decreases bs
  {
    if bs != [] {
      var r := GuardedBindings(test, bs, liveOnTrue).value;
      GuardedKeepsNothingToInline(test, bs[1..], liveOnTrue, o);
      assert r[1..] == GuardedBindings(test, bs[1..], liveOnTrue).value;
      assert !Inlines(bs[0].value, o);
      assert !Inlines(Default(TypeOf(bs[0].value)), o);
      assert !Inlines(r[0].value, o);
    }
  }

  lemma {:induction false} ZipKeepsNothingToInline(test: Expr, ts: seq<Binding>, fs: seq<Binding>, o: Oracle)
    requires !Inlines(test, o) && !InlinesInBindings(ts, o) && !InlinesInBindings(fs, o)
    requires ZipBindings(test, ts, fs).Ok?
    ensures !InlinesInBindings(ZipBindings(test, ts, fs).value, o)
    decreases ts
  {
    if ts != [] && fs != [] {
      var r := ZipBindings(test, ts, fs).value;
      ZipKeepsNothingToInline(test, ts[1..], fs[1..], o);
      assert r[1..] == ZipBindings(test, ts[1..], fs[1..]).value;
      assert !Inlines(ts[0].value, o) && !Inlines(fs[0].value, o);
      assert !Inlines(r[0].value, o);
    }
  }

  /**
   * The merged lambda shares the first operand's parameter: the only
   * parameters it mentions are the first expanded operand's, the first
   * operand's parameter itself, and those of the second expanded operand
   * other than its own parameter.
   */
  lemma MergedParameters(a: ProjDef, b: ProjDef, o: Oracle)
    requires ExpressionOf(Merged(a, b), o).Ok?
    ensures var fa := ExpandedOf(a, o);
      var fb := ExpandedOf(b, o);
      && fa.Ok? && fb.Ok?
      && ParamsIn(ExpressionOf(Merged(a, b), o).value.body) <=
           ParamsIn(fa.value.body) + (ParamsIn(fb.value.body) - {fb.value.param}) + {fa.value.param}
  {
    MergeSharesFirstParameter(ExpandedOf(a, o).value, ExpandedOf(b, o).value);
  }
}
