/**
  The contract between the generated `Component` impl and the adapter it
  delegates to: which adapter methods the generated code calls.
 */
module GeneratedContract {
  import opened Syntax
  import MacroImp

  /** The methods `PinBoxDynHookComponent` defines (packages/hooks-yew/src/lib.rs). */
  const AdapterMethods: set<string> := {"new", "view", "rendered", "erased_changed"}

  /**
    The generated `view` and `rendered` call adapter methods that exist, but
    the generated `changed` calls `changed`, which the adapter does not define:
    its method of that role is `erased_changed`.
   */
  lemma GeneratedDelegates(paths: MacroImp.ResolvedPaths, props: Type, fnIdent: Ident)
    ensures var c := MacroImp.ComponentImplFor(paths, props, fnIdent);
      && c.viewDelegate in AdapterMethods
      && c.renderedDelegate in AdapterMethods
      && c.changedDelegate !in AdapterMethods
      && c.changedDelegate != "erased_changed"
  {
  }

  /**
    For a hook with generic parameters, the generated `Component` impl puts
    them after `for` (`impl <yew>::Component for <T> Comp<T>`), where Rust
    accepts none, while the inherent impl puts them after `impl`. Neither impl
    repeats the struct's where clause.
   */
  method GenericComponentImpl(args: MacroImp.HookComponentArgs, itemFn: ItemFn)
    returns (out: MacroImp.GeneratedComponent)
    requires itemFn.sig.generics.params != []
    ensures MacroImp.WellPlacedHeader(out.inherentImpl) && out.inherentImpl.afterImpl != []
    ensures !MacroImp.WellPlacedHeader(out.componentImpl) && out.componentImpl.afterImpl == []
    ensures out.generics.wherePredicates == itemFn.sig.generics.wherePredicates
    ensures out.inherentImpl.whereClause == [] && out.componentImpl.whereClause == []
  {
    var error;
    out, error := MacroImp.TransformItemFn(args, itemFn);
  }
}
