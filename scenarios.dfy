/**
 * The integration tests' projections as concrete trees, with what the model
 * computes for them, and a chain of three projections showing that
 * expansion inlines one level only.
 */
module Scenarios {
  import opened ExpressionTrees
  import opened Rebinding
  import opened Expansion
  import opened Merging
  import opened Projections

  const StringTy := Ty("System.String", Reference)
  const IntTy := Ty("System.Int32", PlainValue)
  const DecimalTy := Ty("System.Decimal", PlainValue)
  const ProductTy := Ty("Product", Reference)
  const CategoryTy := Ty("Category", Reference)
  const ProductsTy := Ty("ICollection<Product>", Reference)
  const ProductDtoTy := Ty("ProductDto", Reference)
  const CategoryDtoTy := Ty("CategoryDto", Reference)
  const FlatProductDtoTy := Ty("FlatProductDto", Reference)
  const ProductProjTy := Ty("ProductProj", Reference)
  /** What `MethodInfo.CreateDelegate` returns, before the conversion to the delegate type. */
  const DelegateTy := Ty("System.Delegate", Reference)
  const CategoryProjTy := Ty("CategoryProj", Reference)
  const ClosureTy := Ty("DisplayClass", Reference)
  const MethodInfoTy := Ty("System.Reflection.MethodInfo", Reference)
  const TypeTy := Ty("System.Type", Reference)
  const ProductMapTy := Ty("Func<Product, ProductDto>", Reference)
  const CategoryMapTy := Ty("Func<Category, CategoryDto>", Reference)
  const CategoryFlatMapTy := Ty("Func<Category, FlatProductDto>", Reference)
  const ProductFlatMapTy := Ty("Func<Product, FlatProductDto>", Reference)
  const EnumerableDtoTy := Ty("IEnumerable<ProductDto>", Reference)

  function Prop(target: Expr, name: string, ty: Ty): Expr {
    Member(Some(target), Property(name), ty)
  }

  const p := Parameter(0, "p", ProductTy)
  const p1 := Parameter(1, "p1", ProductTy)
  const category := Parameter(2, "category", CategoryTy)
  const product := Parameter(3, "product", ProductTy)
  /** The parameter of `ProductProj`'s own lambda: named `p`, but a different node from the outer `p`. */
  const productProjParam := Parameter(4, "p", ProductTy)

  function CategoryName(x: Expr): Expr {
    Prop(x, "Name", StringTy)
  }

  function IsFruit(x: Expr): Expr {
    Equal(CategoryName(x), Const(Literal("Fruit"), StringTy))
  }

  /** `category => new CategoryDto { Name = category.Name, IsFruit = category.Name == "Fruit" }` */
  const categoryLambda := Projection(category,
    MemberInit(CategoryDtoTy, [Assign("Name", CategoryName(Param(category))),
                               Assign("IsFruit", IsFruit(Param(category)))]),
    CategoryMapTy, CategoryDtoTy)

  function ProductDtoOf(x: Expr): seq<Binding> {
    [Assign("Id", Prop(x, "Id", IntTy)), Assign("Name", Prop(x, "Name", StringTy)), Assign("Price", Prop(x, "Price", DecimalTy))]
  }

  /** `p => new ProductDto { Id = p.Id, Name = p.Name, Price = p.Price }` */
  const productProjLambda := Projection(productProjParam, MemberInit(ProductDtoTy, ProductDtoOf(Param(productProjParam))),
                                        ProductMapTy, ProductDtoTy)

  /** `categoryProj`, a local captured by the test's closure object. */
  const capturedCategoryProj := Member(Some(Const(Object(0), ClosureTy)), Field("categoryProj"), CategoryProjTy)

  const testOracle := Oracle(map[ProductProjTy := productProjLambda],
                             map[(Object(0), "categoryProj") := categoryLambda])

  // ---------------------------------------------------------------------------
  // Linking two projections with MapIfNotNull

  /** `p => new ProductDto { Id = p.Id, Name = p.Name, Price = p.Price, Category = categoryProj.MapIfNotNull(p.Category) }` */
  const linkedLambda := Projection(p,
    MemberInit(ProductDtoTy, ProductDtoOf(Param(p)) +
      [Assign("Category", Call(Some(capturedCategoryProj), MethodRef(true, "MapIfNotNull"),
                               [Prop(Param(p), "Category", CategoryTy)], CategoryDtoTy))]),
    ProductMapTy, ProductDtoTy)

  /**
   * The expanded lambda nests the category construction under a null test
   * of `p.Category`, with a null constant on the null side.
   */
  lemma LinkedByMapIfNotNull()
    ensures var pc := Prop(Param(p), "Category", CategoryTy);
      ExpandProjection(linkedLambda, testOracle) == Ok(Projection(p,
        MemberInit(ProductDtoTy, ProductDtoOf(Param(p)) +
          [Assign("Category",
             Conditional(Equal(pc, Const(Null, CategoryTy)),
                         Const(Null, CategoryDtoTy),
                         MemberInit(CategoryDtoTy, [Assign("Name", CategoryName(pc)), Assign("IsFruit", IsFruit(pc))])))]),
        ProductMapTy, ProductDtoTy))
  {
    var pc := Prop(Param(p), "Category", CategoryTy);
    var call := Call(Some(capturedCategoryProj), MethodRef(true, "MapIfNotNull"), [pc], CategoryDtoTy);
    LinkedCallExpands();
    ProductDtoOfFixed(Param(p), testOracle);
    ExpandBindingsFixpoint(ProductDtoOf(Param(p)), testOracle);
    assert ExpandBindings([], testOracle) == Ok([]);
    ExpandAssignCons("Category", call, [], testOracle);
    assert [Assign("Category", call)] + [] == [Assign("Category", call)];
    assert [Assign("Category", GuardedCategory(pc))] + [] == [Assign("Category", GuardedCategory(pc))];
    ExpandBindingsConcat(ProductDtoOf(Param(p)), [Assign("Category", call)], testOracle);
    var expanded := MemberInit(ProductDtoTy, ProductDtoOf(Param(p)) + [Assign("Category", GuardedCategory(pc))]);
    assert Expand(linkedLambda.body, testOracle) == Ok(expanded);
  }

  /** `x == null ? null : new CategoryDto { Name = x.Name, IsFruit = x.Name == "Fruit" }` */
  function GuardedCategory(x: Expr): Expr {
    Conditional(Equal(x, Const(Null, CategoryTy)), Const(Null, CategoryDtoTy),
                MemberInit(CategoryDtoTy, [Assign("Name", CategoryName(x)), Assign("IsFruit", IsFruit(x))]))
  }

  lemma LinkedCallExpands()
    ensures var pc := Prop(Param(p), "Category", CategoryTy);
      Expand(Call(Some(capturedCategoryProj), MethodRef(true, "MapIfNotNull"), [pc], CategoryDtoTy), testOracle)
        == Ok(GuardedCategory(pc))
  {
    var pc := Prop(Param(p), "Category", CategoryTy);
    ExpandMapIfNotNullCall(capturedCategoryProj, pc, CategoryDtoTy, testOracle);
    RebindCategoryFields(Param(category), category, pc);
    RebindAssignPair("Name", CategoryName(Param(category)), "IsFruit", IsFruit(Param(category)), category, pc);
    var dto := MemberInit(CategoryDtoTy, [Assign("Name", CategoryName(pc)), Assign("IsFruit", IsFruit(pc))]);
    assert Rebind(categoryLambda.body, category, pc) == Ok(dto);
  }

  // ---------------------------------------------------------------------------
  // Merging two projections

  /** `category => new FlatProductDto { CategoryIsFruit = category.Name == "Fruit", CategoryName = category.Name }` */
  const flatCategoryLambda := Projection(category,
    MemberInit(FlatProductDtoTy, [Assign("CategoryIsFruit", IsFruit(Param(category))),
                                  Assign("CategoryName", CategoryName(Param(category)))]),
    CategoryFlatMapTy, FlatProductDtoTy)

  const mergeOracle := Oracle(map[], map[(Object(0), "categoryProj") := flatCategoryLambda])

  function FlatProductOf(x: Expr): seq<Binding> {
    [Assign("Id", Prop(x, "Id", IntTy)), Assign("Name", Prop(x, "Name", StringTy)),
     Assign("Price", Prop(x, "Price", DecimalTy)), Assign("CategoryName", Const(Literal(""), StringTy))]
  }

  /** `product => new FlatProductDto { Id = product.Id, Name = product.Name, Price = product.Price, CategoryName = "" }` */
  const flatProductLambda := Projection(product, MemberInit(FlatProductDtoTy, FlatProductOf(Param(product))),
                                        ProductFlatMapTy, FlatProductDtoTy)

  /** `p => categoryProj.MapIfNotNull(p.Category)` */
  const categoryOfProductLambda := Projection(p,
    Call(Some(capturedCategoryProj), MethodRef(true, "MapIfNotNull"), [Prop(Param(p), "Category", CategoryTy)], FlatProductDtoTy),
    ProductFlatMapTy, FlatProductDtoTy)

  const mergedDef := Merged(Inline(flatProductLambda), Inline(categoryOfProductLambda))

  /** The second operand's bindings as the merge guards them: `test ? default : value`. */
  function GuardedCategoryOf(x: Expr): seq<Binding> {
    var test := Equal(Prop(x, "Category", CategoryTy), Const(Null, CategoryTy));
    [Assign("CategoryIsFruit", Conditional(test, Default(BoolTy), IsFruit(Prop(x, "Category", CategoryTy)))),
     Assign("CategoryName", Conditional(test, Default(StringTy), CategoryName(Prop(x, "Category", CategoryTy))))]
  }

  /** The second operand after expansion: `p => p.Category == null ? null : new FlatProductDto { ... }` over `p`. */
  function SecondExpanded(): Projection {
    var pc := Prop(Param(p), "Category", CategoryTy);
    Projection(p,
      Conditional(Equal(pc, Const(Null, CategoryTy)), Const(Null, FlatProductDtoTy),
        MemberInit(FlatProductDtoTy, [Assign("CategoryIsFruit", IsFruit(pc)), Assign("CategoryName", CategoryName(pc))])),
      ProductFlatMapTy, FlatProductDtoTy)
  }

  function MergedExpected(): Projection {
    Projection(product, MemberInit(FlatProductDtoTy, FlatProductOf(Param(product)) + GuardedCategoryOf(Param(product))),
               ProductFlatMapTy, FlatProductDtoTy)
  }

  lemma MergeFirstOperand()
    ensures ExpandedOf(Inline(flatProductLambda), mergeOracle) == Ok(flatProductLambda)
  {
    FlatProductOfFixed(Param(product), mergeOracle);
    ExpandProjectionFixpoint(flatProductLambda, mergeOracle);
  }

  lemma MergeSecondOperand()
    ensures ExpandedOf(Inline(categoryOfProductLambda), mergeOracle) == Ok(SecondExpanded())
  {
    var pc := Prop(Param(p), "Category", CategoryTy);
    ExpandMapIfNotNullCall(capturedCategoryProj, pc, FlatProductDtoTy, mergeOracle);
    RebindCategoryFields(Param(category), category, pc);
    RebindAssignPair("CategoryIsFruit", IsFruit(Param(category)), "CategoryName", CategoryName(Param(category)), category, pc);
  }

  /** The second operand's body rebound onto `product`. */
  function ReboundSecondBody(): Expr {
    var qc := Prop(Param(product), "Category", CategoryTy);
    Conditional(Equal(qc, Const(Null, CategoryTy)), Const(Null, FlatProductDtoTy),
      MemberInit(FlatProductDtoTy, [Assign("CategoryIsFruit", IsFruit(qc)), Assign("CategoryName", CategoryName(qc))]))
  }

  lemma SecondRebound()
    ensures RebindProjection(SecondExpanded(), product) ==
      Ok(Projection(product, ReboundSecondBody(), ProductFlatMapTy, FlatProductDtoTy))
  {
    var second := SecondExpanded();
    var pc := Prop(Param(p), "Category", CategoryTy);
    var qc := Prop(Param(product), "Category", CategoryTy);
    assert Rebind(pc, p, Param(product)) == Ok(qc);
    RebindCategoryFields(pc, p, Param(product));
    RebindAssignPair("CategoryIsFruit", IsFruit(pc), "CategoryName", CategoryName(pc), p, Param(product));
    var test := Equal(qc, Const(Null, CategoryTy));
    assert Rebind(Equal(pc, Const(Null, CategoryTy)), p, Param(product)) == Ok(test);
    assert Rebind(second.body, p, Param(product)) == Ok(ReboundSecondBody());
  }

  lemma ReboundSecondBindings()
    ensures MemberBindings(ReboundSecondBody()) == Ok(GuardedCategoryOf(Param(product)))
  {
    var qc := Prop(Param(product), "Category", CategoryTy);
    var overQ := MemberInit(FlatProductDtoTy, [Assign("CategoryIsFruit", IsFruit(qc)), Assign("CategoryName", CategoryName(qc))]);
    var test := Equal(qc, Const(Null, CategoryTy));
    GuardedBindingsSpec(test, overQ.bindings, false);
    var guarded := GuardedBindings(test, overQ.bindings, false);
    var want := GuardedCategoryOf(Param(product));
    assert TypeOf(IsFruit(qc)) == BoolTy && TypeOf(CategoryName(qc)) == StringTy;
    assert guarded.value[0] == want[0] && guarded.value[1] == want[1];
    assert guarded.value == want;
    assert MemberBindings(ReboundSecondBody()) == GuardedBindings(test, overQ.bindings, false);
  }

  lemma MergeOfExpandedOperands()
    ensures MergeExpanded(flatProductLambda, SecondExpanded()) == Ok(MergedExpected())
  {
    SecondRebound();
    ReboundSecondBindings();
    assert MemberBindings(flatProductLambda.body) == Ok(FlatProductOf(Param(product)));
  }

  lemma MergedExposed()
    ensures ExpressionOf(mergedDef, mergeOracle) == Ok(MergedExpected())
  {
    MergeFirstOperand();
    assert Extractable(flatProductLambda.body);
    MergeSecondOperand();
    MergeOfExpandedOperands();
  }

  /**
   * The merged projection takes the first operand's parameter, keeps the
   * first operand's four members, and appends the second operand's two, each
   * as `product.Category == null ? default : value`, so that `CategoryName`
   * appears twice; and its expanded lambda is the lambda it exposes.
   */
  lemma MergedProductAndCategory()
    ensures ExpressionOf(mergedDef, mergeOracle) == Ok(Projection(product,
      MemberInit(FlatProductDtoTy, FlatProductOf(Param(product)) + GuardedCategoryOf(Param(product))),
      ProductFlatMapTy, FlatProductDtoTy))
    ensures ExpandedOf(mergedDef, mergeOracle) == ExpressionOf(mergedDef, mergeOracle)
  {
    MergedExposed();
    MergeFirstOperand();
    MergeSecondOperand();
    FlatProductOfFixed(Param(product), mergeOracle);
    SecondExpandedFixed();
    MergedExpansionIsExposed(Inline(flatProductLambda), Inline(categoryOfProductLambda), mergeOracle);
  }

  /** The second operand's expanded body has nothing left to inline. */
  lemma SecondExpandedFixed()
    ensures !Inlines(SecondExpanded().body, mergeOracle)
  {
    var pc := Prop(Param(p), "Category", CategoryTy);
    assert !Inlines(pc, mergeOracle);
    assert !Inlines(CategoryName(pc), mergeOracle);
    assert !Inlines(IsFruit(pc), mergeOracle);
    var bs := [Assign("CategoryIsFruit", IsFruit(pc)), Assign("CategoryName", CategoryName(pc))];
    assert !InlinesInBindings(bs[1..], mergeOracle);
    assert !InlinesInBindings(bs, mergeOracle);
    assert !Inlines(Equal(pc, Const(Null, CategoryTy)), mergeOracle);
  }

  // ---------------------------------------------------------------------------
  // A projection used inside a nested Select

  function ProductsOf(x: Expr): Expr {
    Prop(Prop(x, "Category", CategoryTy), "Products", ProductsTy)
  }

  function FirstOfSelect(source: Expr, selector: Expr): Expr {
    Call(None, MethodRef(false, "FirstOrDefault"),
         [Call(None, MethodRef(false, "Select"), [source, selector], EnumerableDtoTy)], ProductDtoTy)
  }

  /** `p => p.Category.Products.Select(p1 => new ProductProj().Map(p1)).FirstOrDefault()` */
  const nestedMapLambda := Projection(p,
    FirstOfSelect(ProductsOf(Param(p)),
      Lambda([p1], Call(Some(New(ProductProjTy)), MethodRef(true, "Map"), [Param(p1)], ProductDtoTy), ProductMapTy)),
    ProductMapTy, ProductDtoTy)

  /** The call inside the selector is replaced by the construction over `p1`. */
  lemma NestedSelectWithMapCall()
    ensures ExpandProjection(nestedMapLambda, testOracle) == Ok(Projection(p,
      FirstOfSelect(ProductsOf(Param(p)), Lambda([p1], MemberInit(ProductDtoTy, ProductDtoOf(Param(p1))), ProductMapTy)),
      ProductMapTy, ProductDtoTy))
  {
    var source := ProductsOf(Param(p));
    ExpandFixpoint(source, testOracle);
    var call := Call(Some(New(ProductProjTy)), MethodRef(true, "Map"), [Param(p1)], ProductDtoTy);
    NestedMapCallExpands();
    ExpandFirstOfSelect(source, Lambda([p1], call, ProductMapTy), testOracle);
  }

  lemma NestedMapCallExpands()
    ensures Expand(Call(Some(New(ProductProjTy)), MethodRef(true, "Map"), [Param(p1)], ProductDtoTy), testOracle)
      == Ok(MemberInit(ProductDtoTy, ProductDtoOf(Param(p1))))
  {
    ExpandMapCall(New(ProductProjTy), Param(p1), ProductDtoTy, testOracle);
    RebindProductDtoOf(Param(productProjParam), productProjParam, Param(p1));
  }

  /** `p => p.Category.Products.Select(new ProductProj().Map).FirstOrDefault()`: the method group as a delegate conversion. */
  const methodGroupLambda := Projection(p,
    FirstOfSelect(ProductsOf(Param(p)),
      Unary(Convert, Call(Some(Const(Object(1), MethodInfoTy)), MethodRef(false, "CreateDelegate"),
                          [Const(Literal("Func<Product, ProductDto>"), TypeTy), New(ProductProjTy)], DelegateTy),
            ProductMapTy)),
    ProductMapTy, ProductDtoTy)

  /**
   * The conversion is replaced by `ProductProj`'s whole lambda, whose
   * parameter is its own `p` and not the outer one.
   */
  lemma NestedSelectWithMethodGroup()
    ensures var r := ExpandProjection(methodGroupLambda, testOracle);
      && r == Ok(Projection(p,
           FirstOfSelect(ProductsOf(Param(p)),
             Lambda([productProjParam], MemberInit(ProductDtoTy, ProductDtoOf(Param(productProjParam))), ProductMapTy)),
           ProductMapTy, ProductDtoTy))
      && productProjParam != p && productProjParam.name == p.name
  {
    var source := ProductsOf(Param(p));
    ExpandFixpoint(source, testOracle);
    var delegateCall := Call(Some(Const(Object(1), MethodInfoTy)), MethodRef(false, "CreateDelegate"),
                             [Const(Literal("Func<Product, ProductDto>"), TypeTy), New(ProductProjTy)], DelegateTy);
    ExpandMethodGroup(Some(Const(Object(1), MethodInfoTy)), MethodRef(false, "CreateDelegate"),
                      Const(Literal("Func<Product, ProductDto>"), TypeTy), New(ProductProjTy), DelegateTy, ProductMapTy, testOracle);
    ExpandFirstOfSelect(source, Unary(Convert, delegateCall, ProductMapTy), testOracle);
  }

  // ---------------------------------------------------------------------------
  // Steps of the concrete computations, one list cell at a time

  lemma RebindCategoryFields(x: Expr, v: Parameter, r: Expr)
    requires Rebind(x, v, r).Ok?
    ensures Rebind(CategoryName(x), v, r) == Ok(CategoryName(Rebind(x, v, r).value))
    ensures Rebind(IsFruit(x), v, r) == Ok(IsFruit(Rebind(x, v, r).value))
  {
    RebindProp(x, "Name", StringTy, v, r);
    assert Rebind(Const(Literal("Fruit"), StringTy), v, r) == Ok(Const(Literal("Fruit"), StringTy));
    RebindEqualNode(CategoryName(x), Const(Literal("Fruit"), StringTy), v, r);
  }

  lemma RebindProp(x: Expr, name: string, ty: Ty, v: Parameter, r: Expr)
    requires Rebind(x, v, r).Ok?
    ensures Rebind(Prop(x, name, ty), v, r) == Ok(Prop(Rebind(x, v, r).value, name, ty))
  {
  }

  lemma RebindEqualNode(a: Expr, b: Expr, v: Parameter, r: Expr)
    requires Rebind(a, v, r).Ok? && Rebind(b, v, r).Ok?
    ensures Rebind(Equal(a, b), v, r) == Ok(Equal(Rebind(a, v, r).value, Rebind(b, v, r).value))
  {
  }

  lemma RebindAssignCons(m: string, x: Expr, rest: seq<Binding>, v: Parameter, r: Expr)
    requires Rebind(x, v, r).Ok? && RebindBindings(rest, v, r).Ok?
    ensures RebindBindings([Assign(m, x)] + rest, v, r) ==
      Ok([Assign(m, Rebind(x, v, r).value)] + RebindBindings(rest, v, r).value)
  {
    var bs := [Assign(m, x)] + rest;
    assert bs[0] == Assign(m, x);
    assert bs[1..] == rest;
  }

  lemma RebindAssignPair(m1: string, x1: Expr, m2: string, x2: Expr, v: Parameter, r: Expr)
    requires Rebind(x1, v, r).Ok? && Rebind(x2, v, r).Ok?
    ensures RebindBindings([Assign(m1, x1), Assign(m2, x2)], v, r) ==
      Ok([Assign(m1, Rebind(x1, v, r).value), Assign(m2, Rebind(x2, v, r).value)])
  {
    var b1, b2 := Assign(m1, Rebind(x1, v, r).value), Assign(m2, Rebind(x2, v, r).value);
    assert RebindBindings([], v, r) == Ok([]);
    RebindAssignCons(m2, x2, [], v, r);
    assert [Assign(m2, x2)] + [] == [Assign(m2, x2)];
    assert [b2] + [] == [b2];
    assert RebindBindings([Assign(m2, x2)], v, r) == Ok([b2]);
    RebindAssignCons(m1, x1, [Assign(m2, x2)], v, r);
    assert [Assign(m1, x1)] + [Assign(m2, x2)] == [Assign(m1, x1), Assign(m2, x2)];
    assert [b1] + [b2] == [b1, b2];
  }

  lemma RebindProductDtoOf(x: Expr, v: Parameter, r: Expr)
    requires Rebind(x, v, r).Ok?
    ensures RebindBindings(ProductDtoOf(x), v, r) == Ok(ProductDtoOf(Rebind(x, v, r).value))
  {
    var x' := Rebind(x, v, r).value;
    var bs, cs := ProductDtoOf(x), ProductDtoOf(x');
    RebindProp(x, "Id", IntTy, v, r);
    RebindProp(x, "Name", StringTy, v, r);
    RebindProp(x, "Price", DecimalTy, v, r);
    RebindAssignPair("Name", bs[1].value, "Price", bs[2].value, v, r);
    RebindAssignCons("Id", bs[0].value, [bs[1], bs[2]], v, r);
    assert [bs[0]] + [bs[1], bs[2]] == bs && [cs[0]] + [cs[1], cs[2]] == cs;
  }

  lemma ExpandAssignCons(m: string, x: Expr, rest: seq<Binding>, o: Oracle)
    requires Expand(x, o).Ok? && ExpandBindings(rest, o).Ok?
    ensures ExpandBindings([Assign(m, x)] + rest, o) ==
      Ok([Assign(m, Expand(x, o).value)] + ExpandBindings(rest, o).value)
  {
    var bs := [Assign(m, x)] + rest;
    assert bs[0] == Assign(m, x);
    assert bs[1..] == rest;
  }

  lemma NoInlinesAssignCons(m: string, x: Expr, rest: seq<Binding>, o: Oracle)
    requires !Inlines(x, o) && !InlinesInBindings(rest, o)
    ensures !InlinesInBindings([Assign(m, x)] + rest, o)
  {
    var bs := [Assign(m, x)] + rest;
    assert bs[0] == Assign(m, x);
    assert bs[1..] == rest;
  }

  lemma ProductDtoOfFixed(x: Expr, o: Oracle)
    requires !Inlines(x, o)
    ensures !InlinesInBindings(ProductDtoOf(x), o)
  {
    var bs := ProductDtoOf(x);
    assert !InlinesInBindings([], o);
    NoInlinesAssignCons("Price", bs[2].value, [], o);
    NoInlinesAssignCons("Name", bs[1].value, [bs[2]], o);
    NoInlinesAssignCons("Id", bs[0].value, [bs[1], bs[2]], o);
    assert [bs[0]] + [bs[1], bs[2]] == bs;
    assert [bs[1]] + [bs[2]] == [bs[1], bs[2]];
    assert [bs[2]] + [] == [bs[2]];
  }

  lemma ExpandAllCons(x: Expr, rest: seq<Expr>, o: Oracle)
    requires Expand(x, o).Ok? && ExpandAll(rest, o).Ok?
    ensures ExpandAll([x] + rest, o) == Ok([Expand(x, o).value] + ExpandAll(rest, o).value)
  {
    var es := [x] + rest;
    assert es[0] == x;
    assert es[1..] == rest;
  }

  lemma ExpandAllPair(x: Expr, y: Expr, o: Oracle)
    requires Expand(x, o).Ok? && Expand(y, o).Ok?
    ensures ExpandAll([x, y], o) == Ok([Expand(x, o).value, Expand(y, o).value])
  {
    var x', y' := Expand(x, o).value, Expand(y, o).value;
    assert ExpandAll([], o) == Ok([]);
    ExpandAllCons(y, [], o);
    assert [y] + [] == [y] && [y'] + [] == [y'];
    ExpandAllCons(x, [y], o);
    assert [x] + [y] == [x, y] && [x'] + [y'] == [x', y'];
  }

  lemma ExpandFirstOfSelect(source: Expr, selector: Expr, o: Oracle)
    requires Expand(source, o).Ok? && Expand(selector, o).Ok?
    ensures Expand(FirstOfSelect(source, selector), o) ==
      Ok(FirstOfSelect(Expand(source, o).value, Expand(selector, o).value))
  {
    var select := Call(None, MethodRef(false, "Select"), [source, selector], EnumerableDtoTy);
    ExpandAllPair(source, selector, o);
    var select' := select.(args := [Expand(source, o).value, Expand(selector, o).value]);
    assert Expand(select, o) == Ok(select');
    assert ExpandAll([], o) == Ok([]);
    ExpandAllCons(select, [], o);
    assert [select] + [] == [select] && [select'] + [] == [select'];
  }

  lemma FlatProductOfFixed(x: Expr, o: Oracle)
    requires !Inlines(x, o)
    ensures !InlinesInBindings(FlatProductOf(x), o)
  {
    var bs := FlatProductOf(x);
    assert !InlinesInBindings([], o);
    NoInlinesAssignCons("CategoryName", bs[3].value, [], o);
    NoInlinesAssignCons("Price", bs[2].value, [bs[3]], o);
    NoInlinesAssignCons("Name", bs[1].value, [bs[2], bs[3]], o);
    NoInlinesAssignCons("Id", bs[0].value, [bs[1], bs[2], bs[3]], o);
    assert [bs[0]] + [bs[1], bs[2], bs[3]] == bs;
    assert [bs[1]] + [bs[2], bs[3]] == [bs[1], bs[2], bs[3]];
    assert [bs[2]] + [bs[3]] == [bs[2], bs[3]];
    assert [bs[3]] + [] == [bs[3]];
  }

  // ---------------------------------------------------------------------------
  // Expansion is one level deep

  const chainParam := Parameter(5, "x", ProductTy)
  const innerTy := Ty("InnerProj", Reference)
  const middleTy := Ty("MiddleProj", Reference)

  /** `x => new InnerProj().Map(x)` is the middle projection's lambda; the inner one constructs a DTO. */
  const middleLambda := Projection(chainParam,
    Call(Some(New(innerTy)), MethodRef(true, "Map"), [Param(chainParam)], ProductDtoTy), ProductMapTy, ProductDtoTy)

  const chainOracle := Oracle(map[innerTy := productProjLambda, middleTy := middleLambda], map[])

  /** `p => new MiddleProj().Map(p)` */
  const outerLambda := Projection(p,
    Call(Some(New(middleTy)), MethodRef(true, "Map"), [Param(p)], ProductDtoTy), ProductMapTy, ProductDtoTy)

  /**
   * Expanding the outer lambda splices in the middle lambda's unexpanded
   * body, so the result still calls the inner projection, and a second
   * expansion changes it again.
   */
  lemma ExpansionIsOneLevel()
    ensures var once := ExpandProjection(outerLambda, chainOracle);
      && once == Ok(Projection(p, Call(Some(New(innerTy)), MethodRef(true, "Map"), [Param(p)], ProductDtoTy),
                              ProductMapTy, ProductDtoTy))
      && Inlines(once.value.body, chainOracle)
      && ExpandProjection(once.value, chainOracle) != once
  {
    ExpandMapCall(New(middleTy), Param(p), ProductDtoTy, chainOracle);
    var innerCall := Call(Some(New(innerTy)), MethodRef(true, "Map"), [Param(p)], ProductDtoTy);
    assert [Param(chainParam)][1..] == [];
    assert RebindAll([], chainParam, Param(p)) == Ok([]);
    assert [Param(p)] + [] == [Param(p)];
    assert RebindAll([Param(chainParam)], chainParam, Param(p)) == Ok([Param(p)]);
    assert Rebind(middleLambda.body, chainParam, Param(p)) == Ok(innerCall);
    assert InlinableAt(innerCall, chainOracle);
    ExpandMapCall(New(innerTy), Param(p), ProductDtoTy, chainOracle);
    RebindOntoParameterSucceeds(productProjLambda.body, productProjParam, p);
    RebindOntoParameterKeepsShape(productProjLambda.body, productProjParam, p);
  }
}
