/**
 * The closed set of expression-tree nodes that the projection rewriters
 * (parameter rebinding, call expansion and merging) look at, the lambda a
 * projection exposes, and the failures those rewriters can raise.
 */
module ExpressionTrees {

  datatype Option<+T> = None | Some(value: T)

  /** Every failure the rewriters raise; in Proj.cs each of them is an exception. */
  datatype Error =
    | UnsupportedShape              // a merged body that is neither a construction nor a conditional
    | UnsupportedBinding            // a binding in a guarded body that is not a member assignment
    | ParameterRewrittenToNonParameter // a lambda's own parameter would be replaced by a non-parameter
    | NullConstantOfValueType       // a null constant of a non-nullable value type
    | ConditionalTypeMismatch       // the two branches of a new conditional have different types

  datatype Result<+T> = Ok(value: T) | Err(error: Error) {
    predicate IsFailure() { Err? }
    function PropagateFailure<U>(): Result<U>
      requires Err?
    {
      Err(error)
    }
    function Extract(): T
      requires Ok?
    {
      value
    }
  }

  /** How a runtime type treats null: reference types and nullable value types accept it. */
  datatype TypeKind = Reference | NullableValue | PlainValue

  datatype Ty = Ty(name: string, kind: TypeKind)

  const BoolTy: Ty := Ty("System.Boolean", PlainValue)

  /** Values held by constant nodes: null, a literal, the zero value of a value type, an object. */
  datatype Value = Null | Literal(text: string) | Zero(of: Ty) | Object(id: nat)

  /** A parameter node; two parameters are the same node exactly when they are equal. */
  datatype Parameter = Parameter(id: nat, name: string, ty: Ty)

  datatype MemberRef = Field(name: string) | Property(name: string)

  /** A called method, by name; `onProj` says that its declaring type is built from the generic Proj<,>. */
  datatype MethodRef = MethodRef(onProj: bool, name: string)

  datatype UnaryOp = Convert | OtherUnary(name: string)

  datatype Expr =
    | Param(p: Parameter)
    | Const(value: Value, ty: Ty)
    | Member(target: Option<Expr>, member: MemberRef, ty: Ty)   // a static member has no target
    | New(ty: Ty)                                             // a constructor call without arguments
    | Call(obj: Option<Expr>, callee: MethodRef, args: seq<Expr>, ty: Ty)
    | Unary(op: UnaryOp, operand: Expr, ty: Ty)
    | MemberInit(ty: Ty, bindings: seq<Binding>)
    | Conditional(test: Expr, ifTrue: Expr, ifFalse: Expr)
    | Default(ty: Ty)
    | Equal(left: Expr, right: Expr)
    | Lambda(params: seq<Parameter>, body: Expr, ty: Ty)

  /** A member assignment, or a collection-initialiser binding (the kind the merge rejects). */
  datatype Binding = Assign(member: string, value: Expr) | ListInit(member: string, items: seq<Expr>)

  /** The one-parameter lambda a projection returns: its parameter, body, delegate type and result type. */
  datatype Projection = Projection(param: Parameter, body: Expr, delegateTy: Ty, outTy: Ty)

  function AsLambda(l: Projection): (r: Expr)
    ensures r.Lambda? && r.params == [l.param] && r.body == l.body
  {
    Lambda([l.param], l.body, l.delegateTy)
  }

  /** The static type of a node; a conditional has the type of its true branch. */
  function TypeOf(e: Expr): Ty {
    match e
    case Param(p) => p.ty
    case Const(_, t) => t
    case Member(_, _, t) => t
    case New(t) => t
    case Call(_, _, _, t) => t
    case Unary(_, _, t) => t
    case MemberInit(t, _) => t
    case Conditional(_, a, _) => TypeOf(a)
    case Default(t) => t
    case Equal(_, _) => BoolTy
    case Lambda(_, _, t) => t
  }

  /** The value `default(T)` produces: null unless T is a non-nullable value type. */
  function DefaultValue(t: Ty): (v: Value)
    ensures v == Null <==> t.kind != PlainValue
    ensures t.kind == PlainValue ==> v == Zero(t)
  {
    if t.kind == PlainValue then Zero(t) else Null
  }

  function Elements(ps: seq<Parameter>): set<Parameter> {
    set p | p in ps
  }

  /** Every parameter a tree mentions, as a node or as a lambda's declared parameter. */
  function ParamsIn(e: Expr): set<Parameter>
    decreases e
  {
    match e
    case Param(p) => {p}
    case Const(_, _) => {}
    case Member(t, _, _) => if t.Some? then ParamsIn(t.value) else {}
    case New(_) => {}
    case Call(obj, _, args, _) => (if obj.Some? then ParamsIn(obj.value) else {}) + ParamsInAll(args)
    case Unary(_, x, _) => ParamsIn(x)
    case MemberInit(_, bs) => ParamsInBindings(bs)
    case Conditional(c, a, b) => ParamsIn(c) + ParamsIn(a) + ParamsIn(b)
    case Default(_) => {}
    case Equal(a, b) => ParamsIn(a) + ParamsIn(b)
    case Lambda(ps, body, _) => Elements(ps) + ParamsIn(body)
  }

  function ParamsInAll(es: seq<Expr>): set<Parameter>
    decreases es
  {
    if es == [] then {} else ParamsIn(es[0]) + ParamsInAll(es[1..])
  }

  function ParamsInBindings(bs: seq<Binding>): set<Parameter>
    decreases bs
  {
    if bs == [] then {}
    else
      (match bs[0]
       case Assign(_, v) => ParamsIn(v)
       case ListInit(_, items) => ParamsInAll(items))
      + ParamsInBindings(bs[1..])
  }

  /** The parameters declared by the lambdas inside a tree. */
  function Binders(e: Expr): set<Parameter>
    decreases e
  {
    match e
    case Param(_) => {}
    case Const(_, _) => {}
    case Member(t, _, _) => if t.Some? then Binders(t.value) else {}
    case New(_) => {}
    case Call(obj, _, args, _) => (if obj.Some? then Binders(obj.value) else {}) + BindersAll(args)
    case Unary(_, x, _) => Binders(x)
    case MemberInit(_, bs) => BindersInBindings(bs)
    case Conditional(c, a, b) => Binders(c) + Binders(a) + Binders(b)
    case Default(_) => {}
    case Equal(a, b) => Binders(a) + Binders(b)
    case Lambda(ps, body, _) => Elements(ps) + Binders(body)
  }

  function BindersAll(es: seq<Expr>): set<Parameter>
    decreases es
  {
    if es == [] then {} else Binders(es[0]) + BindersAll(es[1..])
  }

  function BindersInBindings(bs: seq<Binding>): set<Parameter>
    decreases bs
  {
    if bs == [] then {}
    else
      (match bs[0]
       case Assign(_, v) => Binders(v)
       case ListInit(_, items) => BindersAll(items))
      + BindersInBindings(bs[1..])
  }

  /** The member names of a binding list, in order. */
  function MemberNames(bs: seq<Binding>): (names: seq<string>)
    ensures |names| == |bs|
    ensures forall i :: 0 <= i < |bs| ==> names[i] == bs[i].member
  {
    if bs == [] then [] else [bs[0].member] + MemberNames(bs[1..])
  }

  lemma {:induction false} MemberNamesConcat(a: seq<Binding>, b: seq<Binding>)
    ensures MemberNames(a + b) == MemberNames(a) + MemberNames(b)
  {
    if a != [] {
      assert (a + b)[1..] == a[1..] + b;
      MemberNamesConcat(a[1..], b);
    }
  }
}
