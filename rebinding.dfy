/**
 * Parameter rebinding: a structural substitution that replaces every
 * reference to one parameter by a given expression and rebuilds the rest of
 * the tree unchanged. Lambda nodes have their declared parameters visited too;
 * a declared parameter equal to the old one can only be replaced by another
 * parameter, and the rebinding fails otherwise.
 */
module Rebinding {
  import opened ExpressionTrees

  /**
   * A replacement of the old parameter's type gives a tree of the input's
   * type, as the rebuilt nodes would require.
   */
  function Rebind(e: Expr, oldParam: Parameter, replacement: Expr): (r: Result<Expr>)
    ensures r.Ok? && TypeOf(replacement) == oldParam.ty ==> TypeOf(r.value) == TypeOf(e)
    decreases e
  {
    match e
    case Param(p) => if p == oldParam then Ok(replacement) else Ok(e)
    case Const(_, _) => Ok(e)
    case Member(t, m, ty) =>
      if t.None? then Ok(e)
      else
        var t' :- Rebind(t.value, oldParam, replacement);
        Ok(Member(Some(t'), m, ty))
    case New(_) => Ok(e)
    case Call(obj, m, args, ty) =>
      var obj' :- (if obj.None? then Ok(None)
                   else var o' :- Rebind(obj.value, oldParam, replacement); Ok(Some(o')));
      var args' :- RebindAll(args, oldParam, replacement);
      Ok(Call(obj', m, args', ty))
    case Unary(op, x, ty) =>
      var x' :- Rebind(x, oldParam, replacement);
      Ok(Unary(op, x', ty))
    case MemberInit(ty, bs) =>
      var bs' :- RebindBindings(bs, oldParam, replacement);
      Ok(MemberInit(ty, bs'))
    case Conditional(c, a, b) =>
      var c' :- Rebind(c, oldParam, replacement);
      var a' :- Rebind(a, oldParam, replacement);
      var b' :- Rebind(b, oldParam, replacement);
      Ok(Conditional(c', a', b'))
    case Default(_) => Ok(e)
    case Equal(a, b) =>
      var a' :- Rebind(a, oldParam, replacement);
      var b' :- Rebind(b, oldParam, replacement);
      Ok(Equal(a', b'))
    case Lambda(ps, body, ty) =>
      var body' :- Rebind(body, oldParam, replacement);
      var ps' :- RebindParams(ps, oldParam, replacement);
      Ok(Lambda(ps', body', ty))
  }

  function RebindAll(es: seq<Expr>, oldParam: Parameter, replacement: Expr): (r: Result<seq<Expr>>)
    ensures r.Ok? <==> forall i :: 0 <= i < |es| ==> Rebind(es[i], oldParam, replacement).Ok?
    ensures r.Ok? ==> |r.value| == |es| && forall i :: 0 <= i < |es| ==> r.value[i] == Rebind(es[i], oldParam, replacement).value
    ensures r.Ok? && TypeOf(replacement) == oldParam.ty ==>
      forall i :: 0 <= i < |es| ==> TypeOf(r.value[i]) == TypeOf(es[i])
    decreases es
  {
    if es == [] then Ok([])
    else
      var head :- Rebind(es[0], oldParam, replacement);
      var tail :- RebindAll(es[1..], oldParam, replacement);
      Ok([head] + tail)
  }

  function RebindBindings(bs: seq<Binding>, oldParam: Parameter, replacement: Expr): (r: Result<seq<Binding>>)
    ensures r.Ok? ==> MemberNames(r.value) == MemberNames(bs)
    decreases bs
  {
    if bs == [] then Ok([])
    else
      var head :- (match bs[0]
                   case Assign(m, v) => var v' :- Rebind(v, oldParam, replacement); Ok(Assign(m, v'))
                   case ListInit(m, items) => var items' :- RebindAll(items, oldParam, replacement); Ok(ListInit(m, items')));
      var tail :- RebindBindings(bs[1..], oldParam, replacement);
      Ok([head] + tail)
  }

  /** A lambda's declared parameters: each one equal to `oldParam` must become a parameter again. */
  function RebindParams(ps: seq<Parameter>, oldParam: Parameter, replacement: Expr): (r: Result<seq<Parameter>>)
    ensures r.Err? <==> oldParam in ps && !replacement.Param?
    ensures r.Ok? ==> |r.value| == |ps|
    ensures r.Ok? ==> forall i :: 0 <= i < |ps| ==> r.value[i] == (if ps[i] == oldParam then replacement.p else ps[i])
  {
    if ps == [] then Ok([])
    else if ps[0] == oldParam && !replacement.Param? then Err(ParameterRewrittenToNonParameter)
    else
      var tail :- RebindParams(ps[1..], oldParam, replacement);
      Ok([if ps[0] == oldParam then replacement.p else ps[0]] + tail)
  }

  /** Rebinding a lambda as a whole onto another parameter, as the merge does with its second operand. */
  function RebindProjection(l: Projection, newParam: Parameter): (r: Result<Projection>)
    ensures r.Ok? ==> r.value.param == newParam && r.value.delegateTy == l.delegateTy && r.value.outTy == l.outTy
    ensures r.Ok? && newParam.ty == l.param.ty ==> TypeOf(r.value.body) == TypeOf(l.body)
  {
    var body' :- Rebind(l.body, l.param, Param(newParam));
    Ok(Projection(newParam, body', l.delegateTy, l.outTy))
  }

  // ---------------------------------------------------------------------------
  // When rebinding fails

  /** Rebinding fails exactly when a nested lambda declares the oldParam parameter and the replacement is no parameter. */
  lemma {:induction false} RebindFailsIff(e: Expr, oldParam: Parameter, replacement: Expr)
    ensures Rebind(e, oldParam, replacement).Err? <==> oldParam in Binders(e) && !replacement.Param?
    decreases e
  {
    match e
    case Param(_) =>
    case Const(_, _) =>
    case Member(t, _, _) => if t.Some? { RebindFailsIff(t.value, oldParam, replacement); }
    case New(_) =>
    case Call(obj, _, args, _) =>
      if obj.Some? { RebindFailsIff(obj.value, oldParam, replacement); }
      RebindAllFailsIff(args, oldParam, replacement);
    case Unary(_, x, _) => RebindFailsIff(x, oldParam, replacement);
    case MemberInit(_, bs) => RebindBindingsFailsIff(bs, oldParam, replacement);
    case Conditional(c, a, b) =>
      RebindFailsIff(c, oldParam, replacement); RebindFailsIff(a, oldParam, replacement); RebindFailsIff(b, oldParam, replacement);
    case Default(_) =>
    case Equal(a, b) => RebindFailsIff(a, oldParam, replacement); RebindFailsIff(b, oldParam, replacement);
    case Lambda(ps, body, _) => RebindFailsIff(body, oldParam, replacement);
  }

  lemma {:induction false} RebindAllFailsIff(es: seq<Expr>, oldParam: Parameter, replacement: Expr)
    ensures RebindAll(es, oldParam, replacement).Err? <==> oldParam in BindersAll(es) && !replacement.Param?
    decreases es
  {
    if es != [] {
      RebindFailsIff(es[0], oldParam, replacement);
      RebindAllFailsIff(es[1..], oldParam, replacement);
    }
  }

  lemma {:induction false} RebindBindingsFailsIff(bs: seq<Binding>, oldParam: Parameter, replacement: Expr)
    ensures RebindBindings(bs, oldParam, replacement).Err? <==> oldParam in BindersInBindings(bs) && !replacement.Param?
    decreases bs
  {
    if bs != [] {
      match bs[0] {
        case Assign(_, v) => RebindFailsIff(v, oldParam, replacement);
        case ListInit(_, items) => RebindAllFailsIff(items, oldParam, replacement);
      }
      RebindBindingsFailsIff(bs[1..], oldParam, replacement);
    }
  }

  /** Rebinding onto a parameter, as the merge does, never fails. */
  lemma RebindOntoParameterSucceeds(e: Expr, oldParam: Parameter, q: Parameter)
    ensures Rebind(e, oldParam, Param(q)).Ok?
  {
    RebindFailsIff(e, oldParam, Param(q));
  }

  // ---------------------------------------------------------------------------
  // Which parameters survive

  /**
   * The parameters of the result are those of the input other than `oldParam`,
   * plus those of the replacement when `oldParam` occurred at all: every other
   * parameter survives and, if the replacement does not mention `oldParam`, no
   * occurrence of `oldParam` does.
   */
  lemma {:induction false} RebindParamsIn(e: Expr, oldParam: Parameter, replacement: Expr)
    requires Rebind(e, oldParam, replacement).Ok?
    ensures ParamsIn(Rebind(e, oldParam, replacement).value) ==
      (ParamsIn(e) - {oldParam}) + (if oldParam in ParamsIn(e) then ParamsIn(replacement) else {})
    decreases e, 1
  {
    match e
    case Param(_) =>
    case Const(_, _) =>
    case Member(t, _, _) => if t.Some? { RebindParamsIn(t.value, oldParam, replacement); }
    case New(_) =>
    case Call(_, _, _, _) => RebindCallParamsIn(e, oldParam, replacement);
    case Unary(_, x, _) => RebindParamsIn(x, oldParam, replacement);
    case MemberInit(_, bs) => RebindBindingsParamsIn(bs, oldParam, replacement);
    case Conditional(_, _, _) => RebindConditionalParamsIn(e, oldParam, replacement);
    case Default(_) =>
    case Equal(a, b) => RebindParamsIn(a, oldParam, replacement); RebindParamsIn(b, oldParam, replacement);
    case Lambda(_, _, _) => RebindLambdaParamsIn(e, oldParam, replacement);
  }

  /** With a replacement that does not mention it, no occurrence of the old parameter survives. */
  lemma RebindEliminates(e: Expr, oldParam: Parameter, replacement: Expr)
    requires Rebind(e, oldParam, replacement).Ok?
    requires oldParam !in ParamsIn(replacement)
    ensures oldParam !in ParamsIn(Rebind(e, oldParam, replacement).value)
  {
    RebindParamsIn(e, oldParam, replacement);
  }

  lemma {:induction false} RebindCallParamsIn(e: Expr, oldParam: Parameter, replacement: Expr)
    requires e.Call? && Rebind(e, oldParam, replacement).Ok?
    ensures ParamsIn(Rebind(e, oldParam, replacement).value) ==
      (ParamsIn(e) - {oldParam}) + (if oldParam in ParamsIn(e) then ParamsIn(replacement) else {})
    decreases e, 0
  {
    var args := e.args;
    RebindAllParamsIn(args, oldParam, replacement);
    if e.obj.Some? {
      RebindParamsIn(e.obj.value, oldParam, replacement);
      UnionOfRebound(ParamsIn(e.obj.value), ParamsInAll(args), oldParam, ParamsIn(replacement));
    }
  }

  lemma {:induction false} RebindConditionalParamsIn(e: Expr, oldParam: Parameter, replacement: Expr)
    requires e.Conditional? && Rebind(e, oldParam, replacement).Ok?
    ensures ParamsIn(Rebind(e, oldParam, replacement).value) ==
      (ParamsIn(e) - {oldParam}) + (if oldParam in ParamsIn(e) then ParamsIn(replacement) else {})
    decreases e, 0
  {
    RebindParamsIn(e.test, oldParam, replacement);
    RebindParamsIn(e.ifTrue, oldParam, replacement);
    RebindParamsIn(e.ifFalse, oldParam, replacement);
    UnionOfRebound(ParamsIn(e.test), ParamsIn(e.ifTrue), oldParam, ParamsIn(replacement));
    UnionOfRebound(ParamsIn(e.test) + ParamsIn(e.ifTrue), ParamsIn(e.ifFalse), oldParam, ParamsIn(replacement));
  }

  lemma {:induction false} RebindLambdaParamsIn(e: Expr, oldParam: Parameter, replacement: Expr)
    requires e.Lambda? && Rebind(e, oldParam, replacement).Ok?
    ensures ParamsIn(Rebind(e, oldParam, replacement).value) ==
      (ParamsIn(e) - {oldParam}) + (if oldParam in ParamsIn(e) then ParamsIn(replacement) else {})
    decreases e, 0
  {
    RebindParamsIn(e.body, oldParam, replacement);
    RebindParamsElements(e.params, oldParam, replacement);
    UnionOfRebound(Elements(e.params), ParamsIn(e.body), oldParam, ParamsIn(replacement));
  }

  /** The declared parameters after rebinding: `oldParam` gives way to the replacement parameter. */
  lemma RebindParamsElements(ps: seq<Parameter>, oldParam: Parameter, replacement: Expr)
    requires RebindParams(ps, oldParam, replacement).Ok?
    ensures Elements(RebindParams(ps, oldParam, replacement).value) ==
      (Elements(ps) - {oldParam}) + (if oldParam in Elements(ps) then ParamsIn(replacement) else {})
  {
    var ps' := RebindParams(ps, oldParam, replacement).value;
    var want := (Elements(ps) - {oldParam}) + (if oldParam in ps then {replacement.p} else {});
    RebindParamsElementsSub(ps, oldParam, replacement);
    RebindParamsElementsSup(ps, oldParam, replacement);
    assert Elements(ps') == want;
  }

  lemma RebindParamsElementsSub(ps: seq<Parameter>, oldParam: Parameter, replacement: Expr)
    requires RebindParams(ps, oldParam, replacement).Ok?
    ensures Elements(RebindParams(ps, oldParam, replacement).value) <=
      (Elements(ps) - {oldParam}) + (if oldParam in ps then {replacement.p} else {})
  {
    var ps' := RebindParams(ps, oldParam, replacement).value;
    forall q | q in Elements(ps')
      ensures q in (Elements(ps) - {oldParam}) + (if oldParam in ps then {replacement.p} else {})
    {
      var i :| 0 <= i < |ps'| && ps'[i] == q;
      assert ps[i] in ps;
    }
  }

  lemma RebindParamsElementsSup(ps: seq<Parameter>, oldParam: Parameter, replacement: Expr)
    requires RebindParams(ps, oldParam, replacement).Ok?
    ensures (Elements(ps) - {oldParam}) + (if oldParam in ps then {replacement.p} else {}) <=
      Elements(RebindParams(ps, oldParam, replacement).value)
  {
    var ps' := RebindParams(ps, oldParam, replacement).value;
    forall q | q in (Elements(ps) - {oldParam}) + (if oldParam in ps then {replacement.p} else {})
      ensures q in Elements(ps')
    {
      if q in Elements(ps) - {oldParam} {
        var i :| 0 <= i < |ps| && ps[i] == q;
        assert ps'[i] == q;
      } else {
        var i :| 0 <= i < |ps| && ps[i] == oldParam;
        assert ps'[i] == q;
      }
    }
  }

  /** Set algebra shared by every node with two children. */
  lemma UnionOfRebound(a: set<Parameter>, b: set<Parameter>, x: Parameter, n: set<Parameter>)
    ensures ((a - {x}) + (if x in a then n else {})) + ((b - {x}) + (if x in b then n else {}))
         == ((a + b) - {x}) + (if x in a + b then n else {})
  {
  }

  lemma {:induction false} RebindAllParamsIn(es: seq<Expr>, oldParam: Parameter, replacement: Expr)
    requires RebindAll(es, oldParam, replacement).Ok?
    ensures ParamsInAll(RebindAll(es, oldParam, replacement).value) ==
      (ParamsInAll(es) - {oldParam}) + (if oldParam in ParamsInAll(es) then ParamsIn(replacement) else {})
    decreases es
  {
    if es != [] {
      var r := RebindAll(es, oldParam, replacement).value;
      var tail := RebindAll(es[1..], oldParam, replacement).value;
      assert r[1..] == tail;
      RebindParamsIn(es[0], oldParam, replacement);
      RebindAllParamsIn(es[1..], oldParam, replacement);
      assert ParamsInAll(r) == ParamsIn(r[0]) + ParamsInAll(tail);
      assert ParamsInAll(es) == ParamsIn(es[0]) + ParamsInAll(es[1..]);
      UnionOfRebound(ParamsIn(es[0]), ParamsInAll(es[1..]), oldParam, ParamsIn(replacement));
    }
  }

  lemma {:induction false} RebindBindingsParamsIn(bs: seq<Binding>, oldParam: Parameter, replacement: Expr)
    requires RebindBindings(bs, oldParam, replacement).Ok?
    ensures ParamsInBindings(RebindBindings(bs, oldParam, replacement).value) ==
      (ParamsInBindings(bs) - {oldParam}) + (if oldParam in ParamsInBindings(bs) then ParamsIn(replacement) else {})
    decreases bs
  {
    if bs != [] {
      var r := RebindBindings(bs, oldParam, replacement).value;
      var tail := RebindBindings(bs[1..], oldParam, replacement).value;
      assert r[1..] == tail;
      var headParams := match bs[0] case Assign(_, v) => ParamsIn(v) case ListInit(_, items) => ParamsInAll(items);
      match bs[0] {
        case Assign(_, v) =>
          RebindParamsIn(v, oldParam, replacement);
          assert ParamsInBindings(r) == ParamsIn(r[0].value) + ParamsInBindings(tail);
        case ListInit(_, items) =>
          RebindAllParamsIn(items, oldParam, replacement);
          assert ParamsInBindings(r) == ParamsInAll(r[0].items) + ParamsInBindings(tail);
      }
      RebindBindingsParamsIn(bs[1..], oldParam, replacement);
      assert ParamsInBindings(bs) == headParams + ParamsInBindings(bs[1..]);
      UnionOfRebound(headParams, ParamsInBindings(bs[1..]), oldParam, ParamsIn(replacement));
    }
  }

  // ---------------------------------------------------------------------------
  // Where nothing is replaced, the tree is rebuilt unchanged

  /** A tree that does not mention the oldParam parameter comes back structurally identical. */
  lemma {:induction false} RebindAbsentIsIdentity(e: Expr, oldParam: Parameter, replacement: Expr)
    requires oldParam !in ParamsIn(e)
    ensures Rebind(e, oldParam, replacement) == Ok(e)
    decreases e
  {
    match e
    case Param(_) =>
    case Const(_, _) =>
    case Member(t, _, _) => if t.Some? { RebindAbsentIsIdentity(t.value, oldParam, replacement); }
    case New(_) =>
    case Call(obj, _, args, _) =>
      if obj.Some? { RebindAbsentIsIdentity(obj.value, oldParam, replacement); }
      RebindAllAbsentIsIdentity(args, oldParam, replacement);
    case Unary(_, x, _) => RebindAbsentIsIdentity(x, oldParam, replacement);
    case MemberInit(_, bs) => RebindBindingsAbsentIsIdentity(bs, oldParam, replacement);
    case Conditional(c, a, b) =>
      RebindAbsentIsIdentity(c, oldParam, replacement); RebindAbsentIsIdentity(a, oldParam, replacement);
      RebindAbsentIsIdentity(b, oldParam, replacement);
    case Default(_) =>
    case Equal(a, b) => RebindAbsentIsIdentity(a, oldParam, replacement); RebindAbsentIsIdentity(b, oldParam, replacement);
    case Lambda(ps, body, ty) =>
      RebindAbsentIsIdentity(body, oldParam, replacement);
      RebindParamsAbsent(ps, oldParam, replacement);
  }

  lemma RebindParamsAbsent(ps: seq<Parameter>, oldParam: Parameter, replacement: Expr)
    requires oldParam !in Elements(ps)
    ensures RebindParams(ps, oldParam, replacement) == Ok(ps)
  {
    var ps' := RebindParams(ps, oldParam, replacement).value;
    assert ps' == ps;
  }

  lemma {:induction false} RebindAllAbsentIsIdentity(es: seq<Expr>, oldParam: Parameter, replacement: Expr)
    requires oldParam !in ParamsInAll(es)
    ensures RebindAll(es, oldParam, replacement) == Ok(es)
    decreases es
  {
    if es != [] {
      RebindAbsentIsIdentity(es[0], oldParam, replacement);
      RebindAllAbsentIsIdentity(es[1..], oldParam, replacement);
      assert [es[0]] + es[1..] == es;
    }
  }

  lemma {:induction false} RebindBindingsAbsentIsIdentity(bs: seq<Binding>, oldParam: Parameter, replacement: Expr)
    requires oldParam !in ParamsInBindings(bs)
    ensures RebindBindings(bs, oldParam, replacement) == Ok(bs)
    decreases bs
  {
    if bs != [] {
      match bs[0] {
        case Assign(_, v) => RebindAbsentIsIdentity(v, oldParam, replacement);
        case ListInit(_, items) => RebindAllAbsentIsIdentity(items, oldParam, replacement);
      }
      RebindBindingsAbsentIsIdentity(bs[1..], oldParam, replacement);
      assert [bs[0]] + bs[1..] == bs;
    }
  }

  /** Rebinding a parameter to itself rebuilds the tree unchanged. */
  lemma {:induction false} RebindToItselfIsIdentity(e: Expr, oldParam: Parameter)
    ensures Rebind(e, oldParam, Param(oldParam)) == Ok(e)
    decreases e
  {
    match e
    case Param(_) =>
    case Const(_, _) =>
    case Member(t, _, _) => if t.Some? { RebindToItselfIsIdentity(t.value, oldParam); }
    case New(_) =>
    case Call(obj, _, args, _) =>
      if obj.Some? { RebindToItselfIsIdentity(obj.value, oldParam); }
      RebindAllToItselfIsIdentity(args, oldParam);
    case Unary(_, x, _) => RebindToItselfIsIdentity(x, oldParam);
    case MemberInit(_, bs) => RebindBindingsToItselfIsIdentity(bs, oldParam);
    case Conditional(c, a, b) =>
      RebindToItselfIsIdentity(c, oldParam); RebindToItselfIsIdentity(a, oldParam);
      RebindToItselfIsIdentity(b, oldParam);
    case Default(_) =>
    case Equal(a, b) => RebindToItselfIsIdentity(a, oldParam); RebindToItselfIsIdentity(b, oldParam);
    case Lambda(ps, body, _) =>
      RebindToItselfIsIdentity(body, oldParam);
      var ps' := RebindParams(ps, oldParam, Param(oldParam)).value;
      assert ps' == ps;
  }

  lemma {:induction false} RebindAllToItselfIsIdentity(es: seq<Expr>, oldParam: Parameter)
    ensures RebindAll(es, oldParam, Param(oldParam)) == Ok(es)
    decreases es
  {
    if es != [] {
      RebindToItselfIsIdentity(es[0], oldParam);
      RebindAllToItselfIsIdentity(es[1..], oldParam);
      assert [es[0]] + es[1..] == es;
    }
  }

  lemma {:induction false} RebindBindingsToItselfIsIdentity(bs: seq<Binding>, oldParam: Parameter)
    ensures RebindBindings(bs, oldParam, Param(oldParam)) == Ok(bs)
    decreases bs
  {
    if bs != [] {
      match bs[0] {
        case Assign(_, v) => RebindToItselfIsIdentity(v, oldParam);
        case ListInit(_, items) => RebindAllToItselfIsIdentity(items, oldParam);
      }
      RebindBindingsToItselfIsIdentity(bs[1..], oldParam);
      assert [bs[0]] + bs[1..] == bs;
    }
  }

  /** Rebinding onto a parameter keeps a construction a construction and a conditional a conditional. */
  lemma RebindOntoParameterKeepsShape(e: Expr, oldParam: Parameter, q: Parameter)
    ensures Rebind(e, oldParam, Param(q)).Ok?
    ensures var r := Rebind(e, oldParam, Param(q)).value;
      (r.MemberInit? <==> e.MemberInit?) && (r.Conditional? <==> e.Conditional?)
  {
    RebindOntoParameterSucceeds(e, oldParam, q);
  }
}
