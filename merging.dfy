/**
 * Merging two projections of the same signature: both operands' expanded
 * bodies are reduced to ordered binding lists (a construction gives its own
 * bindings, a guarded construction gives one conditional per field), the
 * second operand is first rebound onto the first operand's parameter, and
 * the merged body is one construction carrying the first list followed by
 * the second, without removing duplicate members.
 */
module Merging {
  import opened ExpressionTrees
  import opened Rebinding

  /**
   * A null constant or a default node: the "no object" branch of a guarded
   * construction. Such a branch is never a shape the merge accepts, so at most
   * one side of a conditional is the live one; and it mentions no parameter,
   * so a guarded body's parameters are those of its test and live branch.
   */
  predicate IsDefaultOrNull(e: Expr)
    ensures IsDefaultOrNull(e) ==> !Extractable(e)
    ensures IsDefaultOrNull(e) ==> ParamsIn(e) == {}
  {
    (e.Const? && e.value == Null) || e.Default?
  }

  /** One field of a guarded construction: its value when the live branch is taken, its default otherwise. */
  function GuardValue(test: Expr, v: Expr, liveOnTrue: bool): Expr {
    if liveOnTrue then Conditional(test, v, Default(TypeOf(v)))
    else Conditional(test, Default(TypeOf(v)), v)
  }

  /** Every binding assigns a conditional on `test`. */
  predicate AllGuardedBy(bs: seq<Binding>, test: Expr) {
    forall i :: 0 <= i < |bs| ==> bs[i].Assign? && bs[i].value.Conditional? && bs[i].value.test == test
  }

  /** The bindings of the single live branch, each guarded; any other kind of binding is rejected. */
  function GuardedBindings(test: Expr, bs: seq<Binding>, liveOnTrue: bool): (r: Result<seq<Binding>>)
    ensures r.Err? ==> r.error == UnsupportedBinding
    ensures r.Ok? ==> MemberNames(r.value) == MemberNames(bs) && AllGuardedBy(r.value, test)
    decreases bs
  {
    if bs == [] then Ok([])
    else if !bs[0].Assign? then Err(UnsupportedBinding)
    else
      var rest :- GuardedBindings(test, bs[1..], liveOnTrue);
      Ok([Assign(bs[0].member, GuardValue(test, bs[0].value, liveOnTrue))] + rest)
  }

  /**
   * The bindings of two live branches paired by position, as many as the
   * shorter branch has; the member comes from the true branch.
   */
  function ZipBindings(test: Expr, ts: seq<Binding>, fs: seq<Binding>): (r: Result<seq<Binding>>)
    ensures r.Err? ==> r.error == UnsupportedBinding || r.error == ConditionalTypeMismatch
    ensures r.Ok? ==> |r.value| == (if |ts| < |fs| then |ts| else |fs|) && AllGuardedBy(r.value, test)
    ensures r.Ok? ==> MemberNames(r.value) == MemberNames(ts[..|r.value|])
    decreases ts
  {
    if ts == [] || fs == [] then Ok([])
    else if !ts[0].Assign? || !fs[0].Assign? then Err(UnsupportedBinding)
    else if TypeOf(ts[0].value) != TypeOf(fs[0].value) then Err(ConditionalTypeMismatch)
    else
      var rest :- ZipBindings(test, ts[1..], fs[1..]);
      Ok([Assign(ts[0].member, Conditional(test, ts[0].value, fs[0].value))] + rest)
  }

  /** A branch's bindings if it is a construction, and none otherwise. */
  function BranchBindings(branch: Expr): seq<Binding> {
    if branch.MemberInit? then branch.bindings else []
  }

  /**
   * The binding list of a guarded body `test ? ifTrue : ifFalse`: every field
   * is guarded by the body's own test, and a failure is never the shape error.
   */
  function ConditionalBindings(test: Expr, ifTrue: Expr, ifFalse: Expr): (r: Result<seq<Binding>>)
    ensures r.Err? ==> r.error != UnsupportedShape
    ensures r.Ok? ==> AllGuardedBy(r.value, test)
  {
    if ifTrue.MemberInit? && IsDefaultOrNull(ifFalse) then GuardedBindings(test, ifTrue.bindings, true)
    else if ifFalse.MemberInit? && IsDefaultOrNull(ifTrue) then GuardedBindings(test, ifFalse.bindings, false)
    else ZipBindings(test, BranchBindings(ifTrue), BranchBindings(ifFalse))
  }

  /** The body shapes the merge accepts at all. */
  predicate Extractable(body: Expr) {
    body.MemberInit? || body.Conditional?
  }

  /**
   * The binding list of an expanded body: a construction's own bindings, or
   * the guarded bindings of a conditional; any other body is the shape error.
   */
  function MemberBindings(body: Expr): (r: Result<seq<Binding>>)
    ensures (r.Err? && r.error == UnsupportedShape) <==> !Extractable(body)
    ensures body.MemberInit? ==> r == Ok(body.bindings)
    ensures r.Ok? && body.Conditional? ==> AllGuardedBy(r.value, body.test)
  {
    match body
    case MemberInit(_, bs) => Ok(bs)
    case Conditional(test, a, b) => ConditionalBindings(test, a, b)
    case _ => Err(UnsupportedShape)
  }

  /**
   * The merged lambda over two expanded operands. Both shape checks come
   * before any binding is examined, because Proj.cs examines bindings only
   * when it builds the merged list.
   */
  function MergeExpanded(first: Projection, second: Projection): (r: Result<Projection>)
    ensures (r.Err? && r.error == UnsupportedShape) <==> !Extractable(first.body) || !Extractable(second.body)
    ensures r.Ok? ==>
      && r.value.param == first.param && r.value.delegateTy == first.delegateTy && r.value.outTy == first.outTy
      && r.value.body.MemberInit? && r.value.body.ty == first.outTy
  {
    if !Extractable(first.body) then Err(UnsupportedShape)
    else
      RebindOntoParameterKeepsShape(second.body, second.param, first.param);
      var replaced :- RebindProjection(second, first.param);
      if !Extractable(replaced.body) then Err(UnsupportedShape)
      else
        var firstBindings :- MemberBindings(first.body);
        var secondBindings :- MemberBindings(replaced.body);
        Ok(Projection(first.param, MemberInit(first.outTy, firstBindings + secondBindings),
                      first.delegateTy, first.outTy))
  }

  /**
   * The imperative counterpart of `ConditionalBindings`: the guarded-body case
   * built step by step, with the two branch lists filled as Proj.cs fills them
   * with `AddRange`. The functional definition is the one the merge uses; this
   * method is proved to compute exactly what it computes.
   */
  method HandleConditionalBindings(conditional: Expr) returns (r: Result<seq<Binding>>)
    requires conditional.Conditional?
    ensures r == ConditionalBindings(conditional.test, conditional.ifTrue, conditional.ifFalse)
  {
    var test, ifTrue, ifFalse := conditional.test, conditional.ifTrue, conditional.ifFalse;
    if ifTrue.MemberInit? && IsDefaultOrNull(ifFalse) {
      return GuardedBindings(test, ifTrue.bindings, true);
    }
    if ifFalse.MemberInit? && IsDefaultOrNull(ifTrue) {
      return GuardedBindings(test, ifFalse.bindings, false);
    }
    var trueBindings: seq<Binding> := [];
    var falseBindings: seq<Binding> := [];
    if ifTrue.MemberInit? {
      trueBindings := trueBindings + ifTrue.bindings;
    }
    if ifFalse.MemberInit? {
      falseBindings := falseBindings + ifFalse.bindings;
    }
    assert trueBindings == BranchBindings(ifTrue) && falseBindings == BranchBindings(ifFalse);
    r := ZipBindings(test, trueBindings, falseBindings);
  }

  // ---------------------------------------------------------------------------
  // Guarded constructions with one live branch

  /**
   * A single live branch gives one guarded binding per binding, same members
   * in the same order; it fails exactly when some binding is not an assignment.
   */
  lemma {:induction false} GuardedBindingsSpec(test: Expr, bs: seq<Binding>, liveOnTrue: bool)
    ensures GuardedBindings(test, bs, liveOnTrue).Ok? <==> forall i :: 0 <= i < |bs| ==> bs[i].Assign?
    ensures GuardedBindings(test, bs, liveOnTrue).Err? ==> GuardedBindings(test, bs, liveOnTrue) == Err(UnsupportedBinding)
    ensures var r := GuardedBindings(test, bs, liveOnTrue);
      r.Ok? ==>
        && |r.value| == |bs|
        && forall i :: 0 <= i < |bs| ==>
             r.value[i] == Assign(bs[i].member, GuardValue(test, bs[i].value, liveOnTrue))
    decreases bs
  {
    if bs != [] {
      GuardedBindingsSpec(test, bs[1..], liveOnTrue);
      if !bs[0].Assign? {
        assert !(forall i :: 0 <= i < |bs| ==> bs[i].Assign?) by { assert !bs[0].Assign?; }
      } else {
        assert forall i :: 1 <= i < |bs| ==> bs[i] == bs[1..][i - 1];
      }
    }
  }

  /** With the construction on the true side each field becomes `test ? value : default`. */
  lemma GuardedOnTrue(test: Expr, ty: Ty, bs: seq<Binding>, dflt: Expr)
    requires IsDefaultOrNull(dflt)
    requires forall i :: 0 <= i < |bs| ==> bs[i].Assign?
    ensures var r := MemberBindings(Conditional(test, MemberInit(ty, bs), dflt));
      && r.Ok? && MemberNames(r.value) == MemberNames(bs)
      && forall i :: 0 <= i < |bs| ==>
           r.value[i] == Assign(bs[i].member, Conditional(test, bs[i].value, Default(TypeOf(bs[i].value))))
  {
    var e := Conditional(test, MemberInit(ty, bs), dflt);
    assert MemberBindings(e) == GuardedBindings(test, bs, true);
    GuardedBindingsSpec(test, bs, true);
    var r := GuardedBindings(test, bs, true).value;
    assert MemberNames(r) == MemberNames(bs);
  }

  /** With the construction on the false side each field becomes `test ? default : value`. */
  lemma GuardedOnFalse(test: Expr, ty: Ty, bs: seq<Binding>, dflt: Expr)
    requires IsDefaultOrNull(dflt)
    requires forall i :: 0 <= i < |bs| ==> bs[i].Assign?
    ensures var r := MemberBindings(Conditional(test, dflt, MemberInit(ty, bs)));
      && r.Ok? && MemberNames(r.value) == MemberNames(bs)
      && forall i :: 0 <= i < |bs| ==>
           r.value[i] == Assign(bs[i].member, Conditional(test, Default(TypeOf(bs[i].value)), bs[i].value))
  {
    var e := Conditional(test, dflt, MemberInit(ty, bs));
    assert !dflt.MemberInit?;
    assert ConditionalBindings(test, dflt, MemberInit(ty, bs)) == GuardedBindings(test, bs, false);
    assert MemberBindings(e) == ConditionalBindings(test, dflt, MemberInit(ty, bs));
    GuardedBindingsSpec(test, bs, false);
    var r := GuardedBindings(test, bs, false).value;
    assert MemberNames(r) == MemberNames(bs);
  }

  // ---------------------------------------------------------------------------
  // Guarded constructions with two live branches

  /**
   * Two live branches are paired by position: the result is as long as the
   * shorter branch, takes its members from the true branch, and fails exactly
   * when a paired binding is not an assignment or the pair's types differ.
   */
  lemma {:induction false} ZipBindingsSpec(test: Expr, ts: seq<Binding>, fs: seq<Binding>)
    ensures var n := if |ts| < |fs| then |ts| else |fs|;
      ZipBindings(test, ts, fs).Ok? <==>
        forall i :: 0 <= i < n ==>
          ts[i].Assign? && fs[i].Assign? && TypeOf(ts[i].value) == TypeOf(fs[i].value)
    ensures var n := if |ts| < |fs| then |ts| else |fs|;
      var r := ZipBindings(test, ts, fs);
      r.Ok? ==>
        && |r.value| == n
        && forall i :: 0 <= i < n ==>
             r.value[i] == Assign(ts[i].member, Conditional(test, ts[i].value, fs[i].value))
    ensures ZipBindings(test, ts, fs).Err? ==> ZipBindings(test, ts, fs).error != UnsupportedShape
    decreases ts
  {
    if ts != [] && fs != [] {
      ZipBindingsSpec(test, ts[1..], fs[1..]);
      if !ts[0].Assign? || !fs[0].Assign? || TypeOf(ts[0].value) != TypeOf(fs[0].value) {
        assert ZipBindings(test, ts, fs).Err?;
      } else {
        ZipBindingsStep(test, ts, fs);
      }
    }
  }

  /** One step of the pairing: a well-paired head extends the pairing of the tails. */
  lemma ZipBindingsStep(test: Expr, ts: seq<Binding>, fs: seq<Binding>)
    requires ts != [] && fs != []
    requires ts[0].Assign? && fs[0].Assign? && TypeOf(ts[0].value) == TypeOf(fs[0].value)
    requires var m := if |ts| - 1 < |fs| - 1 then |ts| - 1 else |fs| - 1;
      var rest := ZipBindings(test, ts[1..], fs[1..]);
      && (rest.Ok? <==> forall i :: 0 <= i < m ==>
            ts[1..][i].Assign? && fs[1..][i].Assign? && TypeOf(ts[1..][i].value) == TypeOf(fs[1..][i].value))
      && (rest.Ok? ==> |rest.value| == m && forall i :: 0 <= i < m ==>
            rest.value[i] == Assign(ts[1..][i].member, Conditional(test, ts[1..][i].value, fs[1..][i].value)))
    ensures var n := if |ts| < |fs| then |ts| else |fs|;
      ZipBindings(test, ts, fs).Ok? <==>
        forall i :: 0 <= i < n ==>
          ts[i].Assign? && fs[i].Assign? && TypeOf(ts[i].value) == TypeOf(fs[i].value)
    ensures var n := if |ts| < |fs| then |ts| else |fs|;
      var r := ZipBindings(test, ts, fs);
      r.Ok? ==>
        && |r.value| == n
        && forall i :: 0 <= i < n ==>
             r.value[i] == Assign(ts[i].member, Conditional(test, ts[i].value, fs[i].value))
  {
    var n := if |ts| < |fs| then |ts| else |fs|;
    var r := ZipBindings(test, ts, fs);
    var rest := ZipBindings(test, ts[1..], fs[1..]);
    assert r.Ok? <==> rest.Ok?;
    assert forall i :: 1 <= i < n ==> ts[i] == ts[1..][i - 1] && fs[i] == fs[1..][i - 1];
    if r.Ok? {
      var head := Assign(ts[0].member, Conditional(test, ts[0].value, fs[0].value));
      assert r.value == [head] + rest.value;
      forall i | 0 <= i < n
        ensures r.value[i] == Assign(ts[i].member, Conditional(test, ts[i].value, fs[i].value))
      {
        if i > 0 {
          assert r.value[i] == rest.value[i - 1];
        }
      }
    }
  }

  /**
   * A guarded body whose branches are not one construction against one
   * null/default gives no bindings at all when either branch is not a
   * construction.
   */
  lemma NoConstructionPairGivesNoBindings(test: Expr, ifTrue: Expr, ifFalse: Expr)
    requires !(ifTrue.MemberInit? && IsDefaultOrNull(ifFalse))
    requires !(ifFalse.MemberInit? && IsDefaultOrNull(ifTrue))
    requires !ifTrue.MemberInit? || !ifFalse.MemberInit?
    ensures MemberBindings(Conditional(test, ifTrue, ifFalse)) == Ok([])
  {
  }

  // ---------------------------------------------------------------------------
  // Extraction as a whole

  lemma {:induction false} ParamsInBindingsConcat(a: seq<Binding>, b: seq<Binding>)
    ensures ParamsInBindings(a + b) == ParamsInBindings(a) + ParamsInBindings(b)
    decreases a
  {
    if a == [] {
      assert a + b == b;
    } else {
      assert (a + b)[0] == a[0];
      assert (a + b)[1..] == a[1..] + b;
      ParamsInBindingsConcat(a[1..], b);
    }
  }

  lemma {:induction false} GuardedBindingsParams(test: Expr, bs: seq<Binding>, liveOnTrue: bool)
    requires GuardedBindings(test, bs, liveOnTrue).Ok?
    ensures ParamsInBindings(GuardedBindings(test, bs, liveOnTrue).value) <= ParamsIn(test) + ParamsInBindings(bs)
    decreases bs
  {
    if bs != [] {
      GuardedBindingsParams(test, bs[1..], liveOnTrue);
      GuardValueParams(test, bs[0].value, liveOnTrue);
      var head := Assign(bs[0].member, GuardValue(test, bs[0].value, liveOnTrue));
      var rest := GuardedBindings(test, bs[1..], liveOnTrue).value;
      var r := GuardedBindings(test, bs, liveOnTrue).value;
      assert r == [head] + rest;
      assert r[0] == head && r[1..] == rest;
      assert ParamsInBindings(r) == ParamsIn(head.value) + ParamsInBindings(rest);
      assert ParamsInBindings(bs) == ParamsIn(bs[0].value) + ParamsInBindings(bs[1..]);
    }
  }

  lemma GuardValueParams(test: Expr, v: Expr, liveOnTrue: bool)
    ensures ParamsIn(GuardValue(test, v, liveOnTrue)) == ParamsIn(test) + ParamsIn(v)
  {
    var d := Default(TypeOf(v));
    DefaultHasNoParams(d);
    if liveOnTrue {
      ConditionalParams(test, v, d);
    } else {
      ConditionalParams(test, d, v);
    }
  }

  lemma ConditionalParams(c: Expr, a: Expr, b: Expr)
    ensures ParamsIn(Conditional(c, a, b)) == ParamsIn(c) + ParamsIn(a) + ParamsIn(b)
  {
  }

  lemma DefaultHasNoParams(d: Expr)
    requires d.Default?
    ensures ParamsIn(d) == {}
  {
  }

  lemma {:induction false} ZipBindingsParams(test: Expr, ts: seq<Binding>, fs: seq<Binding>)
    requires ZipBindings(test, ts, fs).Ok?
    ensures ParamsInBindings(ZipBindings(test, ts, fs).value) <=
      ParamsIn(test) + ParamsInBindings(ts) + ParamsInBindings(fs)
    decreases ts
  {
    if ts != [] && fs != [] {
      ZipBindingsParams(test, ts[1..], fs[1..]);
      var head := Assign(ts[0].member, Conditional(test, ts[0].value, fs[0].value));
      var rest := ZipBindings(test, ts[1..], fs[1..]).value;
      var r := ZipBindings(test, ts, fs).value;
      assert r == [head] + rest;
      assert r[0] == head && r[1..] == rest;
      ConditionalParams(test, ts[0].value, fs[0].value);
      assert ParamsInBindings(r) == ParamsIn(head.value) + ParamsInBindings(rest);
      assert ParamsInBindings(ts) == ParamsIn(ts[0].value) + ParamsInBindings(ts[1..]);
      assert ParamsInBindings(fs) == ParamsIn(fs[0].value) + ParamsInBindings(fs[1..]);
    }
  }

  /** Extraction introduces no parameter that the body does not mention. */
  lemma MemberBindingsParams(body: Expr)
    requires MemberBindings(body).Ok?
    ensures ParamsInBindings(MemberBindings(body).value) <= ParamsIn(body)
  {
    if body.Conditional? {
      var test, a, b := body.test, body.ifTrue, body.ifFalse;
      if a.MemberInit? && IsDefaultOrNull(b) {
        GuardedBindingsParams(test, a.bindings, true);
      } else if b.MemberInit? && IsDefaultOrNull(a) {
        GuardedBindingsParams(test, b.bindings, false);
      } else {
        ZipBindingsParams(test, BranchBindings(a), BranchBindings(b));
      }
    }
  }

  // ---------------------------------------------------------------------------
  // The merged lambda

  /**
   * The merge succeeds exactly when both bodies have an accepted shape and
   * both binding lists can be built; the result is a construction of the
   * first operand's result type over the first operand's parameter whose
   * bindings are the first list followed by the second, duplicates kept.
   */
  lemma MergeExpandedSpec(first: Projection, second: Projection)
    ensures var replaced := Rebind(second.body, second.param, Param(first.param));
      && replaced.Ok?
      && (MergeExpanded(first, second).Ok? <==>
            Extractable(first.body) && Extractable(second.body) &&
            MemberBindings(first.body).Ok? && MemberBindings(replaced.value).Ok?)
    ensures !Extractable(first.body) || !Extractable(second.body) ==>
      MergeExpanded(first, second) == Err(UnsupportedShape)
    ensures var r := MergeExpanded(first, second);
      var replaced := Rebind(second.body, second.param, Param(first.param));
      r.Ok? ==>
        && r.value.param == first.param && r.value.outTy == first.outTy
        && r.value.body == MemberInit(first.outTy,
             MemberBindings(first.body).value + MemberBindings(replaced.value).value)
        && MemberNames(r.value.body.bindings) ==
           MemberNames(MemberBindings(first.body).value) + MemberNames(MemberBindings(replaced.value).value)
  {
    RebindOntoParameterKeepsShape(second.body, second.param, first.param);
    var r := MergeExpanded(first, second);
    if r.Ok? {
      var replaced := Rebind(second.body, second.param, Param(first.param)).value;
      MemberNamesConcat(MemberBindings(first.body).value, MemberBindings(replaced).value);
    }
  }

  /**
   * The merged body has one shared parameter: its parameters are among the
   * first body's, the first parameter, and the second body's other than the
   * second parameter.
   */
  lemma MergeSharesFirstParameter(first: Projection, second: Projection)
    requires MergeExpanded(first, second).Ok?
    ensures ParamsIn(MergeExpanded(first, second).value.body) <=
      ParamsIn(first.body) + (ParamsIn(second.body) - {second.param}) + {first.param}
  {
    RebindOntoParameterSucceeds(second.body, second.param, first.param);
    var replaced := Rebind(second.body, second.param, Param(first.param)).value;
    RebindParamsIn(second.body, second.param, Param(first.param));
    var b1 := MemberBindings(first.body).value;
    var b2 := MemberBindings(replaced).value;
    MemberBindingsParams(first.body);
    MemberBindingsParams(replaced);
    ParamsInBindingsConcat(b1, b2);
  }
}
