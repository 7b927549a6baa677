/**
 * Call expansion: a top-down (pre-order) rewrite that inlines calls to other
 * projections. A node is tested before any of its children is visited, and a
 * node that matches is replaced without visiting its children.
 * `p.Map(arg)` on a resolvable projection becomes the projection's body with
 * its parameter rebound to `arg`; `p.MapIfNotNull(arg)` first guards that body
 * with a null test; a method-group conversion `Convert(CreateDelegate(_, p))`
 * becomes the projection's whole lambda. The inlined call's receiver and
 * argument are never expanded: the argument is spliced in as it stands, and
 * the callee's own, unexpanded lambda is used, so expansion goes one level
 * deep.
 */
module Expansion {
  import opened ExpressionTrees
  import opened Rebinding

  /**
   * What resolving a callee expression finds, standing for the reflection
   * Proj.cs performs: the lambda that a freshly constructed instance of
   * each projection type returns, and the projection held in each field of
   * each captured object. A type absent from `constructed` is not a projection
   * type; a field absent from `captured` does not hold a projection.
   */
  datatype Oracle = Oracle(constructed: map<Ty, Projection>, captured: map<(Value, string), Projection>)

  /** A field (not a property) read off a constant: the only member access that can hold a captured projection. */
  predicate CapturedField(callee: Expr) {
    callee.Member? && callee.target.Some? && callee.target.value.Const? && callee.member.Field?
  }

  /**
   * The callee shapes that resolve: `new T()` of a projection type, and a
   * field read off a constant whose value holds a projection.
   */
  function Resolve(callee: Expr, o: Oracle): (r: Option<Projection>)
    ensures r.Some? ==> callee.New? || CapturedField(callee)
    ensures callee.New? ==> (r.Some? <==> callee.ty in o.constructed)
    ensures callee.New? && callee.ty in o.constructed ==> r == Some(o.constructed[callee.ty])
    ensures CapturedField(callee) ==>
      var key := (callee.target.value.value, callee.member.name);
      (r.Some? <==> key in o.captured) && (key in o.captured ==> r == Some(o.captured[key]))
  {
    match callee
    case New(t) => if t in o.constructed then Some(o.constructed[t]) else None
    case Member(Some(Const(v, _)), Field(f), _) =>
      if (v, f) in o.captured then Some(o.captured[(v, f)]) else None
    case _ => None
  }

  predicate IsProjMapMethod(m: MethodRef) {
    m.onProj && (m.name == "Map" || m.name == "MapIfNotNull")
  }

  /**
   * The projection a `Map` or `MapIfNotNull` call node inlines, if it inlines
   * one: the call must be one of those two methods of the projection class,
   * and its receiver must resolve.
   */
  function MapCallTarget(e: Expr, o: Oracle): (r: Option<Projection>)
    ensures r.Some? ==> e.Call? && IsProjMapMethod(e.callee) && |e.args| == 1
    ensures r.Some? ==> e.obj.Some? && r == Resolve(e.obj.value, o)
    ensures e.Call? && !e.callee.onProj ==> r.None?
  {
    if e.Call? && IsProjMapMethod(e.callee) && |e.args| == 1 && e.obj.Some? then Resolve(e.obj.value, o)
    else None
  }

  /**
   * The projection the operand of a conversion designates as a method group,
   * if any: the operand is a two-argument `CreateDelegate` call whose second
   * argument resolves.
   */
  function DelegateTarget(operand: Expr, o: Oracle): (r: Option<Projection>)
    ensures r.Some? ==> operand.Call? && operand.callee.name == "CreateDelegate" && |operand.args| == 2
    ensures r.Some? ==> r == Resolve(operand.args[1], o)
    ensures r.Some? ==> operand.args[1].New? || CapturedField(operand.args[1])
  {
    if operand.Call? && operand.callee.name == "CreateDelegate" && |operand.args| == 2
    then Resolve(operand.args[1], o)
    else None
  }

  /** The node is one that expansion replaces rather than walks into. */
  predicate InlinableAt(e: Expr, o: Oracle) {
    MapCallTarget(e, o).Some? || (e.Unary? && e.op == Convert && DelegateTarget(e.operand, o).Some?)
  }

  /**
   * The callee body guarded by `param == null`, as a lambda over the same
   * parameter would carry it: the null branch is a constant holding the
   * result type's default value.
   */
  function AddNullCheck(l: Projection): (r: Result<Expr>)
    ensures r.Err? <==> l.param.ty.kind == PlainValue || TypeOf(l.body) != l.outTy
    ensures r.Ok? ==> TypeOf(r.value) == l.outTy
    ensures r.Ok? ==> ParamsIn(r.value) == ParamsIn(l.body) + {l.param}
  {
    if l.param.ty.kind == PlainValue then Err(NullConstantOfValueType)
    else if TypeOf(l.body) != l.outTy then Err(ConditionalTypeMismatch)
    else
      var test := Equal(Param(l.param), Const(Null, l.param.ty));
      var ifNull := Const(DefaultValue(l.outTy), l.outTy);
      assert ParamsIn(test) == {l.param} && ParamsIn(ifNull) == {};
      Ok(Conditional(test, ifNull, l.body))
  }

  /**
   * What a `Map` (guarded == false) or `MapIfNotNull` (guarded == true) call
   * on `l` becomes. The callee's parameter is gone, and the argument's
   * parameters take its place wherever it occurred; the guarded form always
   * mentions the argument, in its null test.
   */
  function InlineCall(l: Projection, guarded: bool, arg: Expr): (r: Result<Expr>)
    ensures r.Ok? ==>
      ParamsIn(r.value) ==
        (ParamsIn(l.body) - {l.param}) + (if guarded || l.param in ParamsIn(l.body) then ParamsIn(arg) else {})
    ensures r.Ok? && TypeOf(arg) == l.param.ty && TypeOf(l.body) == l.outTy ==> TypeOf(r.value) == l.outTy
  {
    if !guarded then
      var r := Rebind(l.body, l.param, arg);
      if r.Ok? then RebindParamsIn(l.body, l.param, arg); r else r
    else
      var checked :- AddNullCheck(l);
      var r := Rebind(checked, l.param, arg);
      if r.Ok? then RebindParamsIn(checked, l.param, arg); r else r
  }

  /**
   * Only calls and conversions are replaced: every other node keeps its kind,
   * a construction keeps its type and member names, and a lambda keeps its
   * parameters and delegate type.
   */
  function Expand(e: Expr, o: Oracle): (r: Result<Expr>)
    ensures r.Ok? && e.MemberInit? ==>
      r.value.MemberInit? && r.value.ty == e.ty && MemberNames(r.value.bindings) == MemberNames(e.bindings)
    ensures r.Ok? && e.Lambda? ==> r.value.Lambda? && r.value.params == e.params && r.value.ty == e.ty
    ensures r.Ok? && e.Conditional? ==> r.value.Conditional?
    ensures r.Ok? && e.Member? ==> r.value.Member? && r.value.member == e.member && r.value.ty == e.ty
    ensures r.Ok? && (e.Param? || e.Const? || e.New? || e.Default?) ==> r.value == e
    decreases e
  {
    match e
    case Param(_) => Ok(e)
    case Const(_, _) => Ok(e)
    case Member(t, m, ty) =>
      if t.None? then Ok(e)
      else
        var t' :- Expand(t.value, o);
        Ok(Member(Some(t'), m, ty))
    case New(_) => Ok(e)
    case Call(obj, m, args, ty) =>
      if MapCallTarget(e, o).Some? then
        InlineCall(MapCallTarget(e, o).value, m.name == "MapIfNotNull", args[0])
      else
        var obj' :- (if obj.None? then Ok(None)
                     else var x :- Expand(obj.value, o); Ok(Some(x)));
        var args' :- ExpandAll(args, o);
        Ok(Call(obj', m, args', ty))
    case Unary(op, x, ty) =>
      if op == Convert && DelegateTarget(x, o).Some? then
        Ok(AsLambda(DelegateTarget(x, o).value))
      else
        var x' :- Expand(x, o);
        Ok(Unary(op, x', ty))
    case MemberInit(ty, bs) =>
      var bs' :- ExpandBindings(bs, o);
      Ok(MemberInit(ty, bs'))
    case Conditional(c, a, b) =>
      var c' :- Expand(c, o);
      var a' :- Expand(a, o);
      var b' :- Expand(b, o);
      Ok(Conditional(c', a', b'))
    case Default(_) => Ok(e)
    case Equal(a, b) =>
      var a' :- Expand(a, o);
      var b' :- Expand(b, o);
      Ok(Equal(a', b'))
    case Lambda(ps, body, ty) =>
      var body' :- Expand(body, o);
      Ok(Lambda(ps, body', ty))
  }

  function ExpandAll(es: seq<Expr>, o: Oracle): (r: Result<seq<Expr>>)
    ensures r.Ok? <==> forall i :: 0 <= i < |es| ==> Expand(es[i], o).Ok?
    ensures r.Ok? ==> |r.value| == |es| && forall i :: 0 <= i < |es| ==> r.value[i] == Expand(es[i], o).value
    decreases es
  {
    if es == [] then Ok([])
    else
      var head :- Expand(es[0], o);
      var tail :- ExpandAll(es[1..], o);
      Ok([head] + tail)
  }

  function ExpandBindings(bs: seq<Binding>, o: Oracle): (r: Result<seq<Binding>>)
    ensures r.Ok? ==> MemberNames(r.value) == MemberNames(bs)
    decreases bs
  {
    if bs == [] then Ok([])
    else
      var head :- ExpandBinding(bs[0], o);
      var tail :- ExpandBindings(bs[1..], o);
      Ok([head] + tail)
  }

  function ExpandBinding(b: Binding, o: Oracle): (r: Result<Binding>)
    ensures r.Ok? ==> r.value.member == b.member
    decreases b
  {
    match b
    case Assign(m, v) => var v' :- Expand(v, o); Ok(Assign(m, v'))
    case ListInit(m, items) => var items' :- ExpandAll(items, o); Ok(ListInit(m, items'))
  }

  /** Expanding a projection's lambda: the body is expanded, the parameter is kept. */
  function ExpandProjection(l: Projection, o: Oracle): (r: Result<Projection>)
    ensures r.Ok? ==> r.value.param == l.param && r.value.delegateTy == l.delegateTy && r.value.outTy == l.outTy
  {
    var body' :- Expand(l.body, o);
    Ok(Projection(l.param, body', l.delegateTy, l.outTy))
  }

  // ---------------------------------------------------------------------------
  // What each node kind expands to

  /** `p.Map(arg)` on a resolvable `p = x => body` becomes `body[x := arg]`. */
  lemma ExpandMapCall(callee: Expr, arg: Expr, ty: Ty, o: Oracle)
    requires Resolve(callee, o).Some?
    ensures var l := Resolve(callee, o).value;
      var r := Expand(Call(Some(callee), MethodRef(true, "Map"), [arg], ty), o);
      && r == Rebind(l.body, l.param, arg)
      && (r.Ok? ==>
            ParamsIn(r.value) ==
            (ParamsIn(l.body) - {l.param}) + (if l.param in ParamsIn(l.body) then ParamsIn(arg) else {}))
  {
    var l := Resolve(callee, o).value;
    if Rebind(l.body, l.param, arg).Ok? {
      RebindParamsIn(l.body, l.param, arg);
    }
  }

  /**
   * `p.MapIfNotNull(arg)` on a resolvable `p = x => body` becomes
   * `arg == null ? default(result) : body[x := arg]`, where the null test
   * compares with a null constant of the parameter's type.
   */
  lemma ExpandMapIfNotNullCall(callee: Expr, arg: Expr, ty: Ty, o: Oracle)
    requires Resolve(callee, o).Some?
    ensures var l := Resolve(callee, o).value;
      var r := Expand(Call(Some(callee), MethodRef(true, "MapIfNotNull"), [arg], ty), o);
      if l.param.ty.kind == PlainValue then r == Err(NullConstantOfValueType)
      else if TypeOf(l.body) != l.outTy then r == Err(ConditionalTypeMismatch)
      else if Rebind(l.body, l.param, arg).Err? then r == Rebind(l.body, l.param, arg)
      else r == Ok(Conditional(Equal(arg, Const(Null, l.param.ty)), Const(DefaultValue(l.outTy), l.outTy),
                               Rebind(l.body, l.param, arg).value))
  {
    var l := Resolve(callee, o).value;
    var e := Call(Some(callee), MethodRef(true, "MapIfNotNull"), [arg], ty);
    assert MapCallTarget(e, o) == Some(l);
    if l.param.ty.kind != PlainValue && TypeOf(l.body) == l.outTy {
      var checked := AddNullCheck(l).value;
      assert Expand(e, o) == Rebind(checked, l.param, arg);
      assert Rebind(checked.test, l.param, arg) == Ok(Equal(arg, Const(Null, l.param.ty)));
      assert Rebind(checked.ifTrue, l.param, arg) == Ok(checked.ifTrue);
    }
  }

  /**
   * A conversion of `CreateDelegate(_, p)` with exactly two arguments and a
   * resolvable `p` becomes `p`'s whole lambda, its own parameter included.
   */
  lemma ExpandMethodGroup(info: Option<Expr>, m: MethodRef, delegateType: Expr, target: Expr, t: Ty, ty: Ty, o: Oracle)
    requires m.name == "CreateDelegate" && Resolve(target, o).Some?
    ensures var l := Resolve(target, o).value;
      Expand(Unary(Convert, Call(info, m, [delegateType, target], t), ty), o) == Ok(Lambda([l.param], l.body, l.delegateTy))
  {
  }

  /**
   * A call that is not an inlinable `Map`/`MapIfNotNull` stays in place: the
   * same method over the expanded receiver and the expanded arguments, and it
   * fails exactly when expanding the receiver or an argument fails.
   */
  lemma ExpandOtherCall(obj: Option<Expr>, m: MethodRef, args: seq<Expr>, ty: Ty, o: Oracle)
    requires MapCallTarget(Call(obj, m, args, ty), o).None?
    ensures var r := Expand(Call(obj, m, args, ty), o);
      && (r.Ok? <==> (obj.None? || Expand(obj.value, o).Ok?) && ExpandAll(args, o).Ok?)
      && (r.Ok? ==>
            r.value == Call(if obj.None? then None else Some(Expand(obj.value, o).value), m, ExpandAll(args, o).value, ty))
  {
  }

  /** Any other unary node, including a conversion of anything else, keeps its operator and type. */
  lemma ExpandOtherUnary(op: UnaryOp, x: Expr, ty: Ty, o: Oracle)
    requires op != Convert || DelegateTarget(x, o).None?
    ensures var r := Expand(Unary(op, x, ty), o);
      if Expand(x, o).Ok? then r == Ok(Unary(op, Expand(x, o).value, ty)) else r == Expand(x, o)
  {
  }

  // ---------------------------------------------------------------------------
  // Trees with nothing to inline

  /** Some node of the tree is one that expansion would replace. */
  predicate Inlines(e: Expr, o: Oracle)
    decreases e
  {
    InlinableAt(e, o) ||
    match e
    case Param(_) => false
    case Const(_, _) => false
    case Member(t, _, _) => t.Some? && Inlines(t.value, o)
    case New(_) => false
    case Call(obj, _, args, _) => (obj.Some? && Inlines(obj.value, o)) || InlinesAny(args, o)
    case Unary(_, x, _) => Inlines(x, o)
    case MemberInit(_, bs) => InlinesInBindings(bs, o)
    case Conditional(c, a, b) => Inlines(c, o) || Inlines(a, o) || Inlines(b, o)
    case Default(_) => false
    case Equal(a, b) => Inlines(a, o) || Inlines(b, o)
    case Lambda(_, body, _) => Inlines(body, o)
  }

  predicate InlinesAny(es: seq<Expr>, o: Oracle)
    decreases es
  {
    es != [] && (Inlines(es[0], o) || InlinesAny(es[1..], o))
  }

  predicate InlinesInBindings(bs: seq<Binding>, o: Oracle)
    decreases bs
  {
    bs != [] &&
    ((match bs[0]
      case Assign(_, v) => Inlines(v, o)
      case ListInit(_, items) => InlinesAny(items, o))
     || InlinesInBindings(bs[1..], o))
  }

  /** A tree with nothing to inline expands to itself. */
  lemma {:induction false} ExpandFixpoint(e: Expr, o: Oracle)
    requires !Inlines(e, o)
    ensures Expand(e, o) == Ok(e)
    decreases e
  {
    match e
    case Param(_) =>
    case Const(_, _) =>
    case Member(t, _, _) => if t.Some? { ExpandFixpoint(t.value, o); }
    case New(_) =>
    case Call(obj, _, args, _) =>
      if obj.Some? { ExpandFixpoint(obj.value, o); }
      ExpandAllFixpoint(args, o);
    case Unary(_, x, _) => ExpandFixpoint(x, o);
    case MemberInit(_, bs) => ExpandBindingsFixpoint(bs, o);
    case Conditional(c, a, b) => ExpandFixpoint(c, o); ExpandFixpoint(a, o); ExpandFixpoint(b, o);
    case Default(_) =>
    case Equal(a, b) => ExpandFixpoint(a, o); ExpandFixpoint(b, o);
    case Lambda(_, body, _) => ExpandFixpoint(body, o);
  }

  lemma {:induction false} ExpandAllFixpoint(es: seq<Expr>, o: Oracle)
    requires !InlinesAny(es, o)
    ensures ExpandAll(es, o) == Ok(es)
    decreases es
  {
    if es != [] {
      ExpandFixpoint(es[0], o);
      ExpandAllFixpoint(es[1..], o);
      assert [es[0]] + es[1..] == es;
    }
  }

  lemma {:induction false} ExpandBindingsFixpoint(bs: seq<Binding>, o: Oracle)
    requires !InlinesInBindings(bs, o)
    ensures ExpandBindings(bs, o) == Ok(bs)
    decreases bs
  {
    if bs != [] {
      match bs[0] {
        case Assign(_, v) => ExpandFixpoint(v, o);
        case ListInit(_, items) => ExpandAllFixpoint(items, o);
      }
      ExpandBindingsFixpoint(bs[1..], o);
      assert [bs[0]] + bs[1..] == bs;
    }
  }

  lemma ExpandBindingsCons(h: Binding, t: seq<Binding>, o: Oracle)
    requires ExpandBinding(h, o).Ok? && ExpandBindings(t, o).Ok?
    ensures ExpandBindings([h] + t, o) == Ok([ExpandBinding(h, o).value] + ExpandBindings(t, o).value)
  {
    var bs := [h] + t;
    assert bs[0] == h;
    assert bs[1..] == t;
  }

  lemma ExpandBindingsUncons(a: seq<Binding>, o: Oracle)
    requires a != [] && ExpandBindings(a, o).Ok?
    ensures ExpandBinding(a[0], o).Ok? && ExpandBindings(a[1..], o).Ok?
    ensures ExpandBindings(a, o).value == [ExpandBinding(a[0], o).value] + ExpandBindings(a[1..], o).value
  {
  }

  /** Binding lists expand element by element. */
  lemma {:induction false} ExpandBindingsConcat(a: seq<Binding>, b: seq<Binding>, o: Oracle)
    requires ExpandBindings(a, o).Ok? && ExpandBindings(b, o).Ok?
    ensures ExpandBindings(a + b, o) == Ok(ExpandBindings(a, o).value + ExpandBindings(b, o).value)
    decreases a
  {
    if a == [] {
      assert a + b == b;
      assert ExpandBindings(a, o).value == [];
      assert [] + ExpandBindings(b, o).value == ExpandBindings(b, o).value;
    } else {
      ExpandBindingsUncons(a, o);
      ExpandBindingsConcat(a[1..], b, o);
      ExpandBindingsCons(a[0], a[1..] + b, o);
      ConsConcat(a, b);
      var h, x, y := ExpandBinding(a[0], o).value, ExpandBindings(a[1..], o).value, ExpandBindings(b, o).value;
      ConsConcat([h] + x, y);
    }
  }

  lemma ConsConcat<T>(a: seq<T>, b: seq<T>)
    requires a != []
    ensures [a[0]] + (a[1..] + b) == a + b
  {
  }

  /** A projection whose body has nothing to inline expands to itself. */
  lemma ExpandProjectionFixpoint(l: Projection, o: Oracle)
    requires !Inlines(l.body, o)
    ensures ExpandProjection(l, o) == Ok(l)
  {
    ExpandFixpoint(l.body, o);
  }
  /** Two binding lists with nothing to inline, one after the other, have nothing to inline. */
  lemma {:induction false} NoInlinesConcat(a: seq<Binding>, b: seq<Binding>, o: Oracle)
    requires !InlinesInBindings(a, o) && !InlinesInBindings(b, o)
    ensures !InlinesInBindings(a + b, o)
    decreases a
  {
    if a == [] {
      assert a + b == b;
    } else {
      assert (a + b)[0] == a[0];
      assert (a + b)[1..] == a[1..] + b;
      NoInlinesConcat(a[1..], b, o);
    }
  }

  // ---------------------------------------------------------------------------
  // Rebinding onto a parameter adds nothing to inline

  /** A callee rebound onto a parameter resolves exactly as before: only `new` and constants resolve, and those are not rebound. */
  lemma ResolveRebound(x: Expr, oldParam: Parameter, q: Parameter, o: Oracle)
    ensures Rebind(x, oldParam, Param(q)).Ok?
    ensures Resolve(Rebind(x, oldParam, Param(q)).value, o) == Resolve(x, o)
  {
    RebindOntoParameterSucceeds(x, oldParam, q);
    if x.Member? && x.target.Some? {
      RebindOntoParameterSucceeds(x.target.value, oldParam, q);
      var t := x.target.value;
      var t' := Rebind(t, oldParam, Param(q)).value;
      assert t'.Const? <==> t.Const?;
      if t.Const? {
        assert t' == t;
      }
    }
  }

  /** Whether a node is replaced does not change when it is rebound onto a parameter. */
  lemma InlinableAtRebound(e: Expr, oldParam: Parameter, q: Parameter, o: Oracle)
    requires Rebind(e, oldParam, Param(q)).Ok?
    ensures InlinableAt(Rebind(e, oldParam, Param(q)).value, o) == InlinableAt(e, o)
  {
    var e' := Rebind(e, oldParam, Param(q)).value;
    match e
    case Call(obj, m, args, ty) =>
      if obj.Some? { ResolveRebound(obj.value, oldParam, q, o); }
      assert e'.Call? && e'.callee == m && |e'.args| == |args| && (e'.obj.Some? <==> obj.Some?);
      if obj.Some? {
        assert e'.obj.value == Rebind(obj.value, oldParam, Param(q)).value;
      }
    case Unary(op, x, ty) =>
      var x' := Rebind(x, oldParam, Param(q)).value;
      assert e' == Unary(op, x', ty);
      if x.Call? && |x.args| == 2 {
        ResolveRebound(x.args[1], oldParam, q, o);
        assert x'.Call? && x'.callee == x.callee && |x'.args| == 2;
        assert x'.args[1] == Rebind(x.args[1], oldParam, Param(q)).value;
      } else if x.Call? {
        assert x'.Call? && |x'.args| == |x.args|;
      } else {
        assert !x'.Call?;
      }
    case _ =>
  }

  /** A tree with nothing to inline still has nothing to inline once a parameter is renamed in it. */
  lemma {:induction false} RebindKeepsNothingToInline(e: Expr, oldParam: Parameter, q: Parameter, o: Oracle)
    requires !Inlines(e, o)
    ensures Rebind(e, oldParam, Param(q)).Ok?
    ensures !Inlines(Rebind(e, oldParam, Param(q)).value, o)
    decreases e
  {
    RebindOntoParameterSucceeds(e, oldParam, q);
    InlinableAtRebound(e, oldParam, q, o);
    match e
    case Param(_) =>
    case Const(_, _) =>
    case Member(t, _, _) => if t.Some? { RebindKeepsNothingToInline(t.value, oldParam, q, o); }
    case New(_) =>
    case Call(obj, _, args, _) =>
      if obj.Some? { RebindKeepsNothingToInline(obj.value, oldParam, q, o); }
      RebindAllKeepsNothingToInline(args, oldParam, q, o);
    case Unary(_, x, _) => RebindKeepsNothingToInline(x, oldParam, q, o);
    case MemberInit(_, bs) => RebindBindingsKeepsNothingToInline(bs, oldParam, q, o);
    case Conditional(c, a, b) =>
      RebindKeepsNothingToInline(c, oldParam, q, o);
      RebindKeepsNothingToInline(a, oldParam, q, o);
      RebindKeepsNothingToInline(b, oldParam, q, o);
    case Default(_) =>
    case Equal(a, b) =>
      RebindKeepsNothingToInline(a, oldParam, q, o);
      RebindKeepsNothingToInline(b, oldParam, q, o);
    case Lambda(_, body, _) => RebindKeepsNothingToInline(body, oldParam, q, o);
  }

  lemma {:induction false} RebindAllKeepsNothingToInline(es: seq<Expr>, oldParam: Parameter, q: Parameter, o: Oracle)
    requires !InlinesAny(es, o)
    ensures RebindAll(es, oldParam, Param(q)).Ok?
    ensures !InlinesAny(RebindAll(es, oldParam, Param(q)).value, o)
    decreases es
  {
    if es != [] {
      RebindKeepsNothingToInline(es[0], oldParam, q, o);
      RebindAllKeepsNothingToInline(es[1..], oldParam, q, o);
      var r := RebindAll(es, oldParam, Param(q)).value;
      assert r[1..] == RebindAll(es[1..], oldParam, Param(q)).value;
    }
  }

  lemma {:induction false} RebindBindingsKeepsNothingToInline(bs: seq<Binding>, oldParam: Parameter, q: Parameter, o: Oracle)
    requires !InlinesInBindings(bs, o)
    ensures RebindBindings(bs, oldParam, Param(q)).Ok?
    ensures !InlinesInBindings(RebindBindings(bs, oldParam, Param(q)).value, o)
    decreases bs
  {
    if bs != [] {
      match bs[0] {
        case Assign(_, v) => RebindKeepsNothingToInline(v, oldParam, q, o);
        case ListInit(_, items) => RebindAllKeepsNothingToInline(items, oldParam, q, o);
      }
      RebindBindingsKeepsNothingToInline(bs[1..], oldParam, q, o);
      var r := RebindBindings(bs, oldParam, Param(q)).value;
      assert r[1..] == RebindBindings(bs[1..], oldParam, Param(q)).value;
    }
  }
}
