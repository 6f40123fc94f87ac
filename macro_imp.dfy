/**
  The hook-to-component transformer of the `hook_component` attribute macro
  (packages/hooks-yew-derive/src/macro_imp.rs): it rewrites a hook-shaped
  function definition into a component definition. The emitted code is
  modelled as a structured `GeneratedComponent` record instead of tokens.
 */
module MacroImp {
  import opened Wrappers
  import opened Syntax

  // ---------------------------------------------------------------------
  // Path resolution
  // ---------------------------------------------------------------------

  /** The macro's options; each one overrides a default path. */
  datatype HookComponentArgs = HookComponentArgs(
    hooksYewPath: Option<Path>,
    yewPath: Option<Path>,
    hooksCorePath: Option<Path>,
    hookMacroPath: Option<Path>)

  const NoOverrides := HookComponentArgs(None, None, None, None)

  /** The four paths the generated code refers to. */
  datatype ResolvedPaths = ResolvedPaths(hooksYew: Path, yew: Path, hooksCore: Path, hookMacro: Path)

  /** `::hooks_yew` */
  const DefaultHooksYewPath := Path(true, [PlainSegment("hooks_yew")], false)

  /** `<base>::__private::<name>`, keeping the base's leading colon and segments. */
  function PrivatePath(base: Path, name: Ident): (r: Path)
    ensures r.leadingColon == base.leadingColon && !r.trailingPunct
    ensures |r.segments| == |base.segments| + 2
    ensures r.segments[..|base.segments|] == base.segments
    ensures r.segments[|base.segments|] == PlainSegment("__private")
    ensures r.segments[|base.segments| + 1] == PlainSegment(name)
  {
    PushSegment(PushSegment(base, PlainSegment("__private")), PlainSegment(name))
  }

  function ResolvePaths(args: HookComponentArgs): ResolvedPaths {
    var hooksYew := if args.hooksYewPath.Some? then args.hooksYewPath.value else DefaultHooksYewPath;
    ResolvedPaths(
      hooksYew,
      if args.yewPath.Some? then args.yewPath.value else PrivatePath(hooksYew, "yew"),
      if args.hooksCorePath.Some? then args.hooksCorePath.value else PrivatePath(hooksYew, "hooks_core"),
      if args.hookMacroPath.Some? then args.hookMacroPath.value else PrivatePath(hooksYew, "hook_macro"))
  }

  /** `::hooks_yew::__private::<name>` */
  function DefaultPrivatePath(name: Ident): Path {
    Path(true, [PlainSegment("hooks_yew"), PlainSegment("__private"), PlainSegment(name)], false)
  }

  /** Without options every path is derived from `::hooks_yew`. */
  lemma DefaultPaths()
    ensures ResolvePaths(NoOverrides) == ResolvedPaths(
      DefaultHooksYewPath,
      DefaultPrivatePath("yew"),
      DefaultPrivatePath("hooks_core"),
      DefaultPrivatePath("hook_macro"))
  {
    var r := ResolvePaths(NoOverrides);
    assert r.yew.segments == DefaultPrivatePath("yew").segments;
    assert r.hooksCore.segments == DefaultPrivatePath("hooks_core").segments;
    assert r.hookMacro.segments == DefaultPrivatePath("hook_macro").segments;
  }

  /** Overriding one derived path changes that path and no other. */
  lemma OverrideReplacesOnlyThatPath(args: HookComponentArgs, p: Path)
    ensures ResolvePaths(args.(yewPath := Some(p))) == ResolvePaths(args).(yew := p)
    ensures ResolvePaths(args.(hooksCorePath := Some(p))) == ResolvePaths(args).(hooksCore := p)
    ensures ResolvePaths(args.(hookMacroPath := Some(p))) == ResolvePaths(args).(hookMacro := p)
  {
  }

  /** The paths that are not overridden follow an overridden `hooks_yew_path`. */
  lemma DerivedPathsFollowHooksYewPath(args: HookComponentArgs, base: Path)
    ensures var r := ResolvePaths(args.(hooksYewPath := Some(base)));
      && r.hooksYew == base
      && (args.yewPath.None? ==> r.yew == PrivatePath(base, "yew"))
      && (args.hooksCorePath.None? ==> r.hooksCore == PrivatePath(base, "hooks_core"))
      && (args.hookMacroPath.None? ==> r.hookMacro == PrivatePath(base, "hook_macro"))
  {
  }

  // ---------------------------------------------------------------------
  // Attribute partition
  // ---------------------------------------------------------------------

  /** The path `inline`, written without `::`, arguments or trailing separator. */
  predicate PathIsInline(p: Path) {
    && !p.leadingColon
    && |p.segments| == 1
    && !p.trailingPunct
    && p.segments[0].arguments.NoArguments?
    && p.segments[0].ident == "inline"
  }

  const InlinePath := Path(false, [PlainSegment("inline")], false)

  /** `PathIsInline` accepts exactly one path. */
  lemma PathIsInlineExactly(p: Path)
    ensures PathIsInline(p) <==> p == InlinePath
  {
    if PathIsInline(p) {
      assert p.segments == [PlainSegment("inline")];
    }
  }

  /** An attribute that configures the generated struct rather than the function. */
  predicate GoesToStruct(a: Attribute) {
    a.style == Outer && !PathIsInline(a.path)
  }

  /** The attributes, in their order, that go to the struct (`toStruct`) or stay on the function. */
  function Partition(attrs: seq<Attribute>, toStruct: bool): seq<Attribute> {
    if attrs == [] then []
    else
      var last := attrs[|attrs| - 1];
      Partition(attrs[..|attrs| - 1], toStruct) + (if GoesToStruct(last) == toStruct then [last] else [])
  }

  /** Partition distributes over concatenation, so relative order is kept. */
  lemma {:induction false} PartitionConcat(a: seq<Attribute>, c: seq<Attribute>, toStruct: bool)
    ensures Partition(a + c, toStruct) == Partition(a, toStruct) + Partition(c, toStruct)
    decreases |c|
  {
    if c == [] {
      assert a + c == a;
    } else {
      var c' := c[..|c| - 1];
      assert (a + c)[..|a + c| - 1] == a + c';
      PartitionConcat(a, c', toStruct);
    }
  }

  /** Every attribute lands in exactly one of the two lists. */
  lemma {:induction false} PartitionSplits(a: seq<Attribute>)
    ensures multiset(Partition(a, true)) + multiset(Partition(a, false)) == multiset(a)
    ensures |Partition(a, true)| + |Partition(a, false)| == |a|
  {
    if a != [] {
      var a', last := a[..|a| - 1], a[|a| - 1];
      PartitionSplits(a');
      assert a == a' + [last];
      if GoesToStruct(last) {
        assert Partition(a, true) == Partition(a', true) + [last];
        assert Partition(a, false) == Partition(a', false);
      } else {
        assert Partition(a, true) == Partition(a', true);
        assert Partition(a, false) == Partition(a', false) + [last];
      }
    }
  }

  /** An attribute is in a list iff it is an input attribute of that list's kind. */
  lemma {:induction false} PartitionMembership(a: seq<Attribute>, x: Attribute, toStruct: bool)
    ensures x in Partition(a, toStruct) <==> x in a && GoesToStruct(x) == toStruct
  {
    if a != [] {
      var a' := a[..|a| - 1];
      PartitionMembership(a', x, toStruct);
      assert a == a' + [a[|a| - 1]];
    }
  }

  // ---------------------------------------------------------------------
  // Types and the return type
  // ---------------------------------------------------------------------

  /** `()` */
  function TypeTuple0(): Type {
    Tuple([])
  }

  /** `&()` */
  function RefTypeTuple0(): Type {
    Reference(None, false, TypeTuple0())
  }

  /** `<yew_path>::Html` */
  function TypeYewHtml(yewPath: Path): Type {
    TypePath(PushSegment(yewPath, PlainSegment("Html")))
  }

  /** A return type the macro fills in: none written, or `-> _`. */
  predicate IsElided(output: ReturnType) {
    output.Default? || output == Explicit(Infer)
  }

  /** Fill an elided return type with `<yew_path>::Html`; leave any other as it is. */
  function AutoFnOutputYewHtml(output: ReturnType, yewPath: Path): (r: ReturnType)
    ensures !IsElided(r)
    ensures IsElided(output) ==> r == Explicit(TypeYewHtml(yewPath))
    ensures !IsElided(output) ==> r == output
  {
    match output
    case Default => Explicit(TypeYewHtml(yewPath))
    case Explicit(ty) => if ty.Infer? then Explicit(TypeYewHtml(yewPath)) else output
  }

  /** Filling the return type twice is the same as filling it once. */
  lemma AutoFnOutputIdempotent(output: ReturnType, yewPath: Path)
    ensures AutoFnOutputYewHtml(AutoFnOutputYewHtml(output, yewPath), yewPath)
         == AutoFnOutputYewHtml(output, yewPath)
  {
  }

  // ---------------------------------------------------------------------
  // Signature analysis
  // ---------------------------------------------------------------------

  /** The shape the single argument must have: `pat: &Props`. */
  predicate TakesProps(arg: FnArg) {
    arg.Typed? && arg.ty.Reference?
  }

  /** The referenced type of the first argument, if it is a reference. */
  function FirstArgProps(arg: FnArg): Option<Type> {
    match arg
    case Receiver(_, _) => None
    case Typed(_, ty) => if ty.Reference? then Some(ty.elem) else None
  }

  /** Where a diagnostic points: the whole argument list or one argument. */
  datatype Span = InputsSpan(inputs: seq<FnArg>) | ArgSpan(arg: FnArg)

  datatype Diagnostic = Diagnostic(message: string, span: Span)

  const TooManyArgsMessage := "type_tuple_0() one optional argument is allowed"
  const FirstArgMessage := "first argument must be `&Props`"

  // ---------------------------------------------------------------------
  // The generated component
  // ---------------------------------------------------------------------

  /** The zero-argument `use_html` that forwards to `use_impl_html(&())`. */
  datatype Forwarder = Forwarder(
    attrs: seq<Attribute>,
    vis: Visibility,
    ident: Ident,
    output: Type,
    callee: Ident,
    argumentType: Type)

  /** The `impl Component for ...` block. */
  datatype ComponentImpl = ComponentImpl(
    traitPath: Path,
    message: Type,
    properties: Type,
    /** `create` wraps `Box::pin(Self::<createCallee>())` in a new adapter */
    createCallee: Ident,
    adapterType: Type,
    /** the adapter methods `view`, `changed` and `rendered` delegate to */
    viewDelegate: Ident,
    changedDelegate: Ident,
    renderedDelegate: Ident)

  /**
    The header of an impl block, `impl <afterImpl> [<trait> for] <afterFor>
    <selfType><selfGenerics> <whereClause>`, with the pieces of
    `split_for_impl` that land in each position.
   */
  datatype ImplHeader = ImplHeader(
    afterImpl: seq<string>,
    afterFor: seq<string>,
    selfType: Ident,
    selfGenerics: seq<string>,
    whereClause: seq<string>)

  /** An impl header as Rust accepts it: nothing may stand between `for` and the self type. */
  predicate WellPlacedHeader(h: ImplHeader) {
    h.afterFor == []
  }

  /**
    The struct, its inherent impl block and its `Component` impl. The struct
    carries the generic parameters and, after its field, the where clause.
   */
  datatype GeneratedComponent = GeneratedComponent(
    structAttrs: seq<Attribute>,
    vis: Visibility,
    ident: Ident,
    generics: Generics,
    field: Type,
    inherentImpl: ImplHeader,
    forwarder: Option<Forwarder>,
    hookFn: ItemFn,
    componentImpl: ImplHeader,
    component: ComponentImpl)

  /** `#[<hook_macro_path>(hooks_core_path = "<hooks_core_path>")]` */
  function HookAttr(paths: ResolvedPaths): Attribute {
    Attribute(Outer, paths.hookMacro, StringifiedPath(paths.hooksCore))
  }

  /** `<hooks_yew_path>::PinBoxDynHookComponent::<Props>` */
  function AdapterType(hooksYew: Path, props: Type): Type {
    TypePath(PushSegment(hooksYew, PathSegment("PinBoxDynHookComponent", AngleBracketed([props]))))
  }

  /** `::core::primitive::bool` */
  const BoolType := TypePath(Path(true, [PlainSegment("core"), PlainSegment("primitive"), PlainSegment("bool")], false))

  function ComponentImplFor(paths: ResolvedPaths, props: Type, fnIdent: Ident): ComponentImpl {
    ComponentImpl(
      PushSegment(paths.yew, PlainSegment("Component")),
      BoolType,
      props,
      fnIdent,
      AdapterType(paths.hooksYew, props),
      "view",
      "changed",
      "rendered")
  }

  /** `#[inline]` and `#[allow(dead_code)]` on the forwarder. */
  const InlineAttr := Attribute(Outer, InlinePath, Verbatim(""))
  const AllowDeadCodeAttr := Attribute(Outer, Path(false, [PlainSegment("allow")], false), Verbatim("(dead_code)"))

  // ---------------------------------------------------------------------
  // The transformation
  // ---------------------------------------------------------------------

  /** The `for attr in item_fn.attrs` loop: struct-facing and function-facing attributes. */
  method PartitionAttrs(attrs: seq<Attribute>) returns (structAttrs: seq<Attribute>, fnAttrs: seq<Attribute>)
    ensures structAttrs == Partition(attrs, true)
    ensures fnAttrs == Partition(attrs, false)
  {
    structAttrs, fnAttrs := [], [];
    var i := 0;
    while i < |attrs|
      invariant 0 <= i <= |attrs|
      invariant structAttrs == Partition(attrs[..i], true)
      invariant fnAttrs == Partition(attrs[..i], false)
    {
      var attr := attrs[i];
      assert attrs[..i + 1][..i] == attrs[..i];
      if attr.style == Outer && !PathIsInline(attr.path) {
        structAttrs := structAttrs + [attr];
      } else {
        fnAttrs := fnAttrs + [attr];
      }
      i := i + 1;
    }
    assert attrs[..i] == attrs;
  }

  /**
    The signature analysis of `transform_item_fn`: the rewritten inputs, the
    props type, whether the argument list was empty, and the diagnostics it
    pushed, in order.
   */
  method AnalyzeSignature(inputs: seq<FnArg>)
    returns (newInputs: seq<FnArg>, propsTy: Type, argsIsEmpty: bool, errors: seq<Diagnostic>)
    ensures argsIsEmpty <==> inputs == []
    // zero arguments: `_: &()` is synthesized and the props are `()`
    ensures inputs == [] ==>
      newInputs == [Typed(Wild, RefTypeTuple0())] && propsTy == TypeTuple0() && errors == []
    // otherwise the inputs stay and `&T` gives `T`, anything else falls back to `()`
    ensures inputs != [] ==>
      newInputs == inputs && propsTy == (if TakesProps(inputs[0]) then inputs[0].ty.elem else TypeTuple0())
    ensures errors == [] <==> |inputs| == 0 || (|inputs| == 1 && TakesProps(inputs[0]))
    ensures inputs != [] ==>
      |errors| == (if |inputs| > 1 then 1 else 0) + (if TakesProps(inputs[0]) then 0 else 1)
    ensures |errors| <= 2
    ensures |inputs| > 1 ==> errors[0] == Diagnostic(TooManyArgsMessage, InputsSpan(inputs))
    ensures inputs != [] && !TakesProps(inputs[0]) ==>
      errors[|errors| - 1] == Diagnostic(FirstArgMessage, ArgSpan(inputs[0]))
    // the rewritten inputs describe a one-argument hook for the props type
    ensures |newInputs| >= 1
    ensures errors == [] ==> FirstArgProps(newInputs[0]) == Some(propsTy)
  {
    errors := [];
    if inputs == [] {
      newInputs := [Typed(Wild, RefTypeTuple0())];
      propsTy, argsIsEmpty := TypeTuple0(), true;
    } else {
      newInputs := inputs;
      argsIsEmpty := false;
      if |inputs| > 1 {
        errors := errors + [Diagnostic(TooManyArgsMessage, InputsSpan(inputs))];
      }
      var firstArg := inputs[0];
      match FirstArgProps(firstArg)
      case Some(t) =>
        propsTy := t;
      case None =>
        errors := errors + [Diagnostic(FirstArgMessage, ArgSpan(firstArg))];
        propsTy := TypeTuple0();
    }
  }

  /**
    `HookComponentArgs::transform_item_fn`: the component definition and the
    accumulated diagnostics (`None` when there are none).
   */
  method TransformItemFn(args: HookComponentArgs, itemFn: ItemFn)
    returns (out: GeneratedComponent, error: Option<seq<Diagnostic>>)
    // the struct: name, visibility and generics of the function, the outer non-inline attributes
    ensures out.ident == itemFn.sig.ident && out.vis == itemFn.vis && out.generics == itemFn.sig.generics
    ensures out.structAttrs == Partition(itemFn.attrs, true)
    // the function keeps the other attributes, then gets the hook attribute
    ensures out.hookFn.attrs == Partition(itemFn.attrs, false) + [HookAttr(ResolvePaths(args))]
    ensures var last := out.hookFn.attrs[|out.hookFn.attrs| - 1];
      && last.style == Outer
      && last.path == ResolvePaths(args).hookMacro
      && last.tokens == StringifiedPath(ResolvePaths(args).hooksCore)
    ensures out.hookFn.sig.generics == EmptyGenerics && out.hookFn.block == itemFn.block
    ensures out.hookFn.sig.output == AutoFnOutputYewHtml(itemFn.sig.output, ResolvePaths(args).yew)
    // the impl blocks: the inherent impl puts the parameters after `impl`, the
    // `Component` impl puts them after `for`; neither repeats the where clause
    ensures out.inherentImpl.afterImpl == itemFn.sig.generics.params && out.inherentImpl.afterFor == []
    ensures out.componentImpl.afterImpl == [] && out.componentImpl.afterFor == itemFn.sig.generics.params
    ensures out.inherentImpl.selfType == out.componentImpl.selfType == out.ident
    ensures out.inherentImpl.selfGenerics == out.componentImpl.selfGenerics == itemFn.sig.generics.params
    ensures out.inherentImpl.whereClause == [] && out.componentImpl.whereClause == []
    // zero arguments: `_: &()` is synthesized, the function is hidden behind a forwarder
    ensures itemFn.sig.inputs == [] ==>
      && out.component.properties == TypeTuple0()
      && out.hookFn.sig.inputs == [Typed(Wild, RefTypeTuple0())]
      && out.hookFn.sig.ident == "use_impl_html"
      && out.hookFn.vis == Inherited
      && out.forwarder == Some(Forwarder(
           [HookAttr(ResolvePaths(args)), InlineAttr, AllowDeadCodeAttr],
           itemFn.vis, "use_html", TypeYewHtml(ResolvePaths(args).yew),
           out.hookFn.sig.ident, out.hookFn.sig.inputs[0].ty))
      && error == None
    // one or more arguments: the function itself becomes `use_html`
    ensures itemFn.sig.inputs != [] ==>
      && out.hookFn.sig.inputs == itemFn.sig.inputs
      && out.hookFn.sig.ident == "use_html"
      && out.hookFn.vis == itemFn.vis
      && out.forwarder == None
      && out.component.properties ==
           (if TakesProps(itemFn.sig.inputs[0]) then itemFn.sig.inputs[0].ty.elem else TypeTuple0())
    // diagnostics
    ensures error.None? <==> |itemFn.sig.inputs| == 0 || (|itemFn.sig.inputs| == 1 && TakesProps(itemFn.sig.inputs[0]))
    ensures error.Some? ==>
      && itemFn.sig.inputs != []
      && |error.value| == (if |itemFn.sig.inputs| > 1 then 1 else 0) + (if TakesProps(itemFn.sig.inputs[0]) then 0 else 1)
      && 1 <= |error.value| <= 2
    ensures |itemFn.sig.inputs| > 1 ==>
      error.Some? && error.value[0] == Diagnostic(TooManyArgsMessage, InputsSpan(itemFn.sig.inputs))
    ensures itemFn.sig.inputs != [] && !TakesProps(itemFn.sig.inputs[0]) ==>
      error.Some? && error.value[|error.value| - 1] == Diagnostic(FirstArgMessage, ArgSpan(itemFn.sig.inputs[0]))
    // the rewritten function is itself a well-formed one-argument hook for the same props type
    ensures |out.hookFn.sig.inputs| >= 1
    ensures error.None? ==> FirstArgProps(out.hookFn.sig.inputs[0]) == Some(out.component.properties)
    // the component impl
    ensures out.component.createCallee == out.hookFn.sig.ident
    ensures out.field == out.component.adapterType == AdapterType(ResolvePaths(args).hooksYew, out.component.properties)
    ensures out.component == ComponentImplFor(ResolvePaths(args), out.component.properties, out.hookFn.sig.ident)
  {
    var paths := ResolvePaths(args);
    var item := itemFn;

    var generics := item.sig.generics;
    item := item.(sig := item.sig.(generics := EmptyGenerics));
    var vis := item.vis;

    var structAttrs, fnAttrs := PartitionAttrs(item.attrs);
    item := item.(attrs := fnAttrs);

    var newInputs, propsTy, argsIsEmpty, errors := AnalyzeSignature(item.sig.inputs);
    item := item.(sig := item.sig.(inputs := newInputs));

    var ident := item.sig.ident;
    item := item.(sig := item.sig.(ident := if argsIsEmpty then "use_impl_html" else "use_html"));

    var hookAttr := HookAttr(paths);
    var forwarder := if argsIsEmpty
      then Some(Forwarder([hookAttr, InlineAttr, AllowDeadCodeAttr], vis, "use_html",
                          TypeYewHtml(paths.yew), "use_impl_html", RefTypeTuple0()))
      else None;

    item := item.(attrs := item.attrs + [hookAttr]);
    if argsIsEmpty {
      item := item.(vis := Inherited);
    }
    item := item.(sig := item.sig.(output := AutoFnOutputYewHtml(item.sig.output, paths.yew)));

    // `split_for_impl`: the where clause is emitted on the struct only
    var inherentImpl := ImplHeader(generics.params, [], ident, generics.params, []);
    var componentImpl := ImplHeader([], generics.params, ident, generics.params, []);

    out := GeneratedComponent(
      structAttrs, vis, ident, generics, AdapterType(paths.hooksYew, propsTy),
      inherentImpl, forwarder, item, componentImpl, ComponentImplFor(paths, propsTy, item.sig.ident));
    error := if errors == [] then None else Some(errors);
  }
}
