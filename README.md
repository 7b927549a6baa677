# Raffinert.Proj — a verified model of projection rewriting

Raffinert.Proj lets a program describe an object-to-object projection once,
as a LINQ expression tree `Expression<Func<TIn, TOut>>`, and then reuse it.
It can run the projection in memory, hand its expanded tree to a query
provider, nest it inside other projections through `Map`/`MapIfNotNull`, and
merge two projections of the same signature into one. This project models
the expression-rewriting core of `src/Raffinert.Proj/Proj.cs` in Dafny:

- **Parameter rebinding** (`RebindParameterVisitor`), in `rebinding.dfy`. A
  structural substitution of one parameter node by an expression over a
  closed expression datatype (`expression_trees.dfy`). A lambda's own
  declared parameter can only be replaced by another parameter.
- **Call expansion** (`MapCallVisitor`), in `expansion.dfy`. This is a
  top-down (pre-order) rewrite: a node is tested before its children are
  visited, and a node that matches is replaced without visiting them.
  - `p.Map(arg)` on a resolvable projection is replaced by that projection's
    body with its parameter rebound to `arg`.
  - `p.MapIfNotNull(arg)` becomes the same body guarded by
    `arg == null ? default : …`.
  - A method-group conversion `Convert(CreateDelegate(_, p))` is replaced by
    `p`'s whole lambda.
  - Which callee expressions resolve (`GetInnerExpression`) is an explicit
    oracle value (`Expansion.Oracle`). It maps each projection type to the
    lambda a fresh instance returns, and each captured field to the lambda of
    the projection it holds. Only `new T()` and a field read off a constant
    are looked up.
- **Merging** (`MergedProj`), in `merging.dfy`.
  - Each expanded operand body is reduced to an ordered binding list. A
    construction gives its bindings. A guarded construction gives one
    conditional per field.
  - The second operand is rebound onto the first operand's parameter.
  - The merged body is one construction: the first list followed by the
    second, duplicates kept.
  - The step that fills two lists with `AddRange` is an imperative method
    proved equal to the functional definition.
- **The façade** (`Proj<TIn, TOut>`, `InlineProj`), in `facade.dfy`.
  - A `ProjDef` value says how a projection was built.
  - The class `Projections.Proj` holds the two memo slots written with `??=`:
    the compiled delegate and the expanded lambda.
  - Its methods model `Create`, both `MergeBindings` overloads,
    `GetExpandedExpression`, `Map` and `MapIfNotNull`. Each memo slot is kept
    consistent with the function it caches.
- The tests' projections as concrete trees, in `scenarios.dfy`.

Every failure the model covers is an `Err` of the `ExpressionTrees.Error`
datatype; in Proj.cs each of them is an exception.

Behaviour of the code worth knowing before reading the contracts:

- **Expansion is one level deep.** A call is replaced by the callee's
  unexpanded `GetExpression()` (src/Raffinert.Proj/Proj.cs:284), and neither
  the spliced body nor the inlined call's receiver and argument is ever
  expanded: the argument is spliced in unexpanded
  (src/Raffinert.Proj/Proj.cs:211-222). `Scenarios.ExpansionIsOneLevel` shows
  a three-projection chain whose expansion is not a fixpoint. A tree with
  nothing left to inline is its own expansion (`Expansion.ExpandFixpoint`).
- **The null branch of `MapIfNotNull`** is a constant node holding the result
  type's default value (src/Raffinert.Proj/Proj.cs:234), not a `default` node.
- **Duplicate members are kept.** The merge concatenates the two binding lists
  without checking member names (src/Raffinert.Proj/Proj.cs:67);
  `Scenarios.MergedProductAndCategory` produces `CategoryName` twice.
- **Pairing two live branches can fail.** When both branches of a guarded
  body are constructions, a pair that is not two member assignments, or whose
  two values have different types, is an error
  (src/Raffinert.Proj/Proj.cs:138-147).

## Model

| member | source | states |
|---|---|---|
| ExpressionTrees.DefaultValue | src/Raffinert.Proj/Proj.cs:241-244 | the default value of a type is null exactly when the type is a reference or nullable type, and the type's zero instance when it is a plain value type |
| Rebinding.Rebind | src/Raffinert.Proj/Proj.cs:171-180 | a replacement of the old parameter's type gives a tree of the input's type; its failure condition and surviving parameters are `RebindFailsIff` and `RebindParamsIn` |
| Rebinding.RebindAll | src/Raffinert.Proj/Proj.cs:171-180 | a list is rebound exactly when every element is, element by element in order |
| Rebinding.RebindBindings | src/Raffinert.Proj/Proj.cs:171-180 | rebinding a construction's bindings keeps its member names in order |
| Rebinding.RebindProjection | src/Raffinert.Proj/Proj.cs:64-65 | rebinding a lambda onto a new parameter gives a lambda over that parameter with the same delegate and result types, and a body of the same type when the parameter types agree |
| Rebinding.RebindParams | src/Raffinert.Proj/Proj.cs:171-180 | a lambda's declared parameters are rebound one by one; rebinding fails exactly when the old parameter is declared and the replacement is not a parameter |
| Rebinding.RebindFailsIff | src/Raffinert.Proj/Proj.cs:171-180 | rebinding a tree fails exactly when some nested lambda declares the old parameter and the replacement is not a parameter node |
| Rebinding.RebindOntoParameterSucceeds | src/Raffinert.Proj/Proj.cs:171-180 | rebinding onto another parameter, as the merge does, never fails |
| Rebinding.RebindParamsIn | src/Raffinert.Proj/Proj.cs:171-180 | the result mentions every parameter the input did except the old one, plus the replacement's parameters if the old one occurred |
| Rebinding.RebindEliminates | src/Raffinert.Proj/Proj.cs:171-180 | when the replacement does not mention the old parameter, no occurrence of it survives |
| Rebinding.RebindAbsentIsIdentity | src/Raffinert.Proj/Proj.cs:171-180 | a tree that does not mention the old parameter is rebuilt unchanged |
| Rebinding.RebindToItselfIsIdentity | src/Raffinert.Proj/Proj.cs:171-180 | rebinding a parameter to its own node leaves every tree unchanged |
| Rebinding.RebindOntoParameterKeepsShape | src/Raffinert.Proj/Proj.cs:171-180 | rebinding onto a parameter keeps a construction a construction and a conditional a conditional |
| Expansion.Resolve | src/Raffinert.Proj/Proj.cs:246-285 | only `new T()` and a field (not a property) read off a constant can resolve; `new T()` resolves exactly when T is a projection type, to the lambda a fresh instance returns, and the field read exactly when the field holds a projection, to that projection's lambda |
| Expansion.MapCallTarget | src/Raffinert.Proj/Proj.cs:199-209 | a call inlines only when it is `Map` or `MapIfNotNull` of the projection class with one argument and a receiver, and then it inlines what the receiver resolves to; a method of another class never inlines |
| Expansion.DelegateTarget | src/Raffinert.Proj/Proj.cs:184-197 | a conversion inlines only when its operand is a two-argument `CreateDelegate` call, and then it inlines what the second argument resolves to, which is a `new` or a captured field |
| Expansion.AddNullCheck | src/Raffinert.Proj/Proj.cs:226-239 | the guarded body has the lambda's result type and mentions exactly the body's parameters plus the lambda's own parameter (the one its null test reads); it fails exactly when the parameter's type cannot hold null or the body's type is not the result type |
| Expansion.InlineCall | src/Raffinert.Proj/Proj.cs:211-222 | the inlined expression no longer mentions the callee's parameter except through the argument: its parameters are the callee body's others plus the argument's wherever the parameter occurred, and always in the guarded form; with a well-typed argument it has the callee's result type |
| Expansion.Expand | src/Raffinert.Proj/Proj.cs:182-286 | only calls and conversions are replaced: a construction keeps its type and member names, a lambda its parameters and delegate type, a conditional stays a conditional, a member access keeps its member and type, and leaves come back unchanged |
| Expansion.ExpandAll | src/Raffinert.Proj/Proj.cs:199-223 | an argument list expands exactly when every argument does, to the list of the arguments' expansions in order |
| Expansion.ExpandBindings | src/Raffinert.Proj/Proj.cs:182-286 | expanding a construction keeps its member names in order |
| Expansion.ExpandProjection | src/Raffinert.Proj/Proj.cs:44-47 | expanding a lambda keeps its parameter, delegate type and result type |
| Expansion.ExpandMapCall | src/Raffinert.Proj/Proj.cs:199-217 | `p.Map(arg)` on a resolvable `x => body` expands to `body[x := arg]`, whose parameters are the body's without `x`, plus the argument's when `x` occurred |
| Expansion.ExpandMapIfNotNullCall | src/Raffinert.Proj/Proj.cs:199-239 | `p.MapIfNotNull(arg)` expands to `arg == null ? const default(result) : body[x := arg]`, with the failure cases of the null check and of the rebinding |
| Expansion.ExpandMethodGroup | src/Raffinert.Proj/Proj.cs:184-197 | a conversion of a two-argument `CreateDelegate(_, p)` with resolvable `p` is replaced by `p`'s whole lambda, its own parameter included |
| Expansion.ExpandOtherCall | src/Raffinert.Proj/Proj.cs:199-209 | a call that does not inline stays the same call over the expanded receiver and arguments, and fails exactly when one of them does |
| Expansion.ExpandOtherUnary | src/Raffinert.Proj/Proj.cs:184-193 | any other unary node keeps its operator and type over the expanded operand |
| Expansion.ExpandFixpoint | src/Raffinert.Proj/Proj.cs:182-286 | a tree with no inlinable call or conversion expands to itself |
| Expansion.ExpandProjectionFixpoint | src/Raffinert.Proj/Proj.cs:44-47 | a lambda whose body has nothing to inline expands to itself |
| Expansion.RebindKeepsNothingToInline | src/Raffinert.Proj/Proj.cs:64-65 | renaming a parameter in a tree with nothing to inline succeeds and leaves nothing to inline |
| Merging.HandleConditionalBindings | src/Raffinert.Proj/Proj.cs:82-154 | the method that fills the two branch lists in place computes exactly the functional binding list of a guarded body |
| Merging.IsDefaultOrNull | src/Raffinert.Proj/Proj.cs:156-159 | a null constant or default node is never a construction or conditional, so at most one branch of a guarded body is taken as the live one; and it mentions no parameter |
| Merging.GuardedBindings | src/Raffinert.Proj/Proj.cs:84-121 | one-sided guarding fails only with the unsupported-binding error, keeps the member names in order, and assigns every field a conditional on the body's test |
| Merging.ZipBindings | src/Raffinert.Proj/Proj.cs:123-153 | pairing fails only with the unsupported-binding or type-mismatch error, gives as many bindings as the shorter branch with the true branch's member names, each a conditional on the body's test |
| Merging.ConditionalBindings | src/Raffinert.Proj/Proj.cs:82-154 | the bindings of a guarded body are each a conditional on its test, and its failure is never the shape error |
| Merging.GuardedBindingsSpec | src/Raffinert.Proj/Proj.cs:84-121 | one live branch gives one guarded binding per binding, same members in the same order; it fails exactly when a binding is not an assignment |
| Merging.GuardedOnTrue | src/Raffinert.Proj/Proj.cs:84-102 | with the construction on the true side and null/default on the other, each field `m = e` becomes `m = test ? e : default(type of e)` |
| Merging.GuardedOnFalse | src/Raffinert.Proj/Proj.cs:104-121 | with the construction on the false side, each field becomes `m = test ? default(type of e) : e` |
| Merging.ZipBindingsSpec | src/Raffinert.Proj/Proj.cs:123-153 | two live branches are paired by position up to the shorter one, members taken from the true side; it fails exactly on a non-assignment or a type mismatch in a pair |
| Merging.NoConstructionPairGivesNoBindings | src/Raffinert.Proj/Proj.cs:123-153 | a guarded body with a branch that is not a construction, and not one construction against null/default, gives an empty list |
| Merging.MemberBindings | src/Raffinert.Proj/Proj.cs:72-80 | extraction gives the shape error exactly when the body is neither a construction nor a conditional; a construction gives its own bindings; every binding extracted from a conditional assigns a conditional on that body's own test |
| Merging.MemberBindingsParams | src/Raffinert.Proj/Proj.cs:72-154 | the extracted bindings mention no parameter the body does not |
| Merging.MergeExpanded | src/Raffinert.Proj/Proj.cs:58-70 | the merge gives the shape error exactly when one operand body is neither a construction nor a conditional; a merged lambda is a construction of the first operand's result type over the first operand's parameter and delegate type |
| Merging.MergeExpandedSpec | src/Raffinert.Proj/Proj.cs:58-70 | the merge succeeds exactly when both shapes are accepted and both lists can be built; the result is a construction of the first result type over the first parameter with the first list followed by the second |
| Merging.MergeSharesFirstParameter | src/Raffinert.Proj/Proj.cs:62-69 | the merged body's parameters are among the first body's, the first parameter, and the second body's other than the second parameter (a subset, not an equality) |
| Projections.ExpressionOf | src/Raffinert.Proj/Proj.cs:163-169 | an inline projection exposes its lambda unchanged; every exposed lambda has the projection's declared result type, and a merged one is a construction of it |
| Projections.ExpandedOf | src/Raffinert.Proj/Proj.cs:44-47 | the expanded lambda exists only when the exposed one does, and keeps its parameter, delegate type and result type, which is the projection's declared result type |
| Projections.Proj.Create | src/Raffinert.Proj/Proj.cs:17-20 | a new inline projection over the lambda, with empty memo slots |
| Projections.Proj.MergeOf | src/Raffinert.Proj/Proj.cs:56 | a new merged projection over the two operands' definitions, with empty memo slots |
| Projections.Proj.MergeBindings | src/Raffinert.Proj/Proj.cs:22-25 | returns a fresh merged projection over this projection and the other one |
| Projections.Proj.MergeBindingsWith | src/Raffinert.Proj/Proj.cs:27-30 | returns a fresh merge of this projection with an inline projection over the lambda |
| Projections.Proj.GetExpandedExpression | src/Raffinert.Proj/Proj.cs:42-47 | returns the stored expansion when there is one; otherwise computes it and stores it on success; the compiled slot is untouched |
| Projections.Proj.GetCompiledExpression | src/Raffinert.Proj/Proj.cs:36-40 | the lambda behind the compiled delegate is the unexpanded exposed lambda, computed once and stored on success |
| Projections.Proj.Map | src/Raffinert.Proj/Proj.cs:32 | the result is the evaluator applied to the memoised compiled lambda and the candidate, or the failure of computing that lambda |
| Projections.Proj.MapIfNotNull | src/Raffinert.Proj/Proj.cs:34 | a null candidate gives the result type's default and changes no memo slot; any other candidate gives `Map`'s result with `Map`'s effect on the compiled slot: a filled slot is kept, an empty one is filled with the exposed lambda, or the failure to compute it is returned |
| Projections.MergedExpressionShape | src/Raffinert.Proj/Proj.cs:58-70 | a merged projection exposes one construction over the first expanded operand's parameter whose member names are the first operand's followed by the second's |
| Projections.FirstShapeCheckedFirst | src/Raffinert.Proj/Proj.cs:60-63 | a first operand of unsupported shape fails the merge with the shape error whatever the second operand is |
| Projections.MergedShapeError | src/Raffinert.Proj/Proj.cs:58-80 | with both operands expanded, the merge fails with the shape error exactly when one body is neither a construction nor a conditional |
| Projections.MergedExpansionIsExposed | src/Raffinert.Proj/Proj.cs:44-70 | when both operands' expanded lambdas have nothing left to inline, the merged projection's expanded lambda is the lambda it exposes |
| Projections.MergeKeepsNothingToInline | src/Raffinert.Proj/Proj.cs:58-70 | merging two expanded lambdas with nothing to inline gives a body with nothing to inline |
| Projections.MergedParameters | src/Raffinert.Proj/Proj.cs:62-69 | the merged lambda's parameters are among the first expanded operand's, its parameter, and the second's other than its own parameter (a subset: two constructions with no bound members mention none) |
| Scenarios.LinkedByMapIfNotNull | tests/Raffinert.Proj.IntegrationTests/ProjTests.cs:80-112 | a captured category projection used through `MapIfNotNull` expands to `p.Category == null ? null : new CategoryDto { … over p.Category }` |
| Scenarios.MergedProductAndCategory | tests/Raffinert.Proj.IntegrationTests/ProjTests.cs:212-248 | the merged flat projection is the product's four members followed by the category's two, each guarded by `product.Category == null ? default :`, and equals its own expansion |
| Scenarios.NestedSelectWithMapCall | tests/Raffinert.Proj.IntegrationTests/ProjTests.cs:319 | `Select(p1 => new ProductProj().Map(p1))` expands to `Select(p1 => new ProductDto { … over p1 })` |
| Scenarios.NestedSelectWithMethodGroup | tests/Raffinert.Proj.IntegrationTests/ProjTests.cs:320 | `Select(new ProductProj().Map)` expands to `Select` over ProductProj's own lambda, whose parameter `p` is a different node from the outer `p` |
| Scenarios.ExpansionIsOneLevel | src/Raffinert.Proj/Proj.cs:211-222 | expanding a call to a projection whose body calls a third projection leaves that inner call in place, so a second expansion changes the tree again |

## Left out

- Compilation and evaluation (`Compile()`, invoking the delegate) are not modelled. `Map` takes the evaluator as a function parameter.
- `Expansion.Resolve` replaces reflection (`DynamicInvoke`, `FieldInfo.GetValue`, `IsAssignableFrom`, the generic type-definition test) with the explicit `Oracle`. An exception thrown while constructing or reading a projection is not modelled.
- `Activator.CreateInstance` for a value type's default is the abstract value `Zero(type)`.
- A `new` of a projection type with constructor arguments is not modelled. The datatype's `New` node has no arguments.
- Expression nodes outside the closed datatype are not modelled: other binary operators, `ListInit`, `Invoke`, nested member bindings as their own kind, and so on. `ListInit` bindings stand for every binding that is not a member assignment.
- The type validation done by the .NET node factories is not modelled, except the branch-type check of `Expression.Condition` and the null-constant check of `Expression.Constant`. This covers `Expression.Bind`, `MemberInit`, `Lambda` and `Update` after rebinding.
- `AddNullCheck`'s test that the lambda has exactly one parameter is not modelled. A `Projection` always has exactly one.
- The `Proj<,>` declaring-type test is a flag on the called method (`MethodRef.onProj`). The model also requires one argument for an inlined `Map`/`MapIfNotNull`, which both methods always have.
- Projections.Proj.MergeOf: the operands are kept as `ProjDef` values, not object references. A merged projection therefore neither reads nor fills its operands' own memo slots. Under an unchanged oracle the results are identical; the sharing of those slots is not modelled.
- User subclasses overriding `GetExpression` are modelled as inline projections over the lambda they return.
- `MapToExisting` / `GetMapToExistingExpression` (called at tests/Raffinert.Proj.IntegrationTests/ProjTests.cs:169,190) are not defined in Proj.cs and are not modelled.
- `src/Raffinert.Proj/Extensions/Enumerable.cs` and `src/Raffinert.Proj/DebugHelpers/ProjDebugView.cs` are not modelled: the first is an adapter over `Map`, the second a debugger view.
- MergeExpanded: a construction node carries no constructor call. The merge's rebuilding of the body as a parameterless `new TOut()` (src/Raffinert.Proj/Proj.cs:68) is therefore not modelled. Neither is its failure when `TOut` has no parameterless constructor, nor its dropping of the first operand's constructor arguments.
- Expand: constructor arguments inside a construction are not modelled, so calls in them are not inlined.
- Concurrent calls and the benign race on the `??=` memo fields are not modelled.
