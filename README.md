# hooks-yew in Dafny

A model of the two coupled halves of hooks-yew:

- the `hook_component` attribute macro's transformer
  (`HookComponentArgs::transform_item_fn` and its helpers), which rewrites a
  hook-shaped function into a yew component definition;
- the runtime adapter `PinBoxDynHookComponent`, which owns the pinned hook,
  renders it, and keeps at most one poll task per component alive, cancelled
  through the strong and weak counts of a shared `Rc<()>` token.

Files:

- `wrappers.dfy`: `Option`.
- `syntax.dfy` (module `Syntax`): the subset of the `syn` syntax tree the
  transformer reads and writes (paths, attributes, types, arguments, return
  types, visibility, signatures, function items).
- `macro_imp.dfy` (module `MacroImp`): path resolution, the attribute
  partition, type helpers, return-type filling, and the transformation
  itself. The emitted code is a `GeneratedComponent` record: struct
  attributes, visibility, name, generics, field type, optional zero-argument
  forwarder, the rewritten hook function and the `Component` impl.
  `transform_item_fn` takes its `ItemFn` by value and changes it step by
  step; `TransformItemFn` does the same on a local copy. Its attribute loop
  carries the invariants that tie both lists to `Partition`.
- `hooks_yew.dfy` (module `HooksYew`): the adapter as a class. `rcs[k]` holds the
  strong and weak counts of the k-th `Rc<()>` the adapter created. A handle
  to that allocation is the index `k`. The futures sent through the
  component's scope form the list `tasks`, and the scheduler decides when to
  poll each one (`PollStep`). The hook is an object with a render function
  and a poll function supplied from outside. Its call counters record every
  call made into it.
- `generated_contract.dfy` (module `GeneratedContract`): which adapter
  methods the generated `Component` impl calls.

Three behaviours of the code that a reader might not expect. In all three, the
model follows the code:

- When `rendered` re-arms polling after a completed task, it reuses the token
  it already holds (`Rc::downgrade(ac)`, packages/hooks-yew/src/lib.rs:37-39).
  It does not create a fresh token. `Rendered` keeps `abortControl` unchanged
  in that case.
- The generated `changed` calls `self.0.changed()`
  (packages/hooks-yew-derive/src/macro_imp.rs:206-209). The adapter only
  defines `erased_changed` (packages/hooks-yew/src/lib.rs:74-77). The adapter
  operation is modelled as `ErasedChanged`, and `GeneratedDelegates` records
  that `changed` is not one of the adapter's methods.
- The `Component` impl is emitted as `impl <yew>::Component for <impl
  generics> <Ident><type generics>` (packages/hooks-yew-derive/src/macro_imp.rs:184):
  the impl generics stand after `for`, not after `impl`. For a hook with
  generic parameters that header is not valid Rust; this was read from the
  text, not compiled. Only the struct gets the where clause (:174-176); the
  inherent impl (:178) and the `Component` impl (:184) both leave it out.
  `TransformItemFn` records where each block puts the generics, and
  `GenericComponentImpl` states the difference.

## Model

| member | source | states |
|---|---|---|
| `MacroImp.PrivatePath` | packages/hooks-yew-derive/src/macro_imp.rs:249-262 | the result keeps the base's leading colon and all its segments, then adds exactly `__private` and the name as plain segments, and ends without a trailing separator |
| `MacroImp.DefaultPaths` | packages/hooks-yew-derive/src/macro_imp.rs:32-49 | with no options, `hooks_yew_path` is `::hooks_yew`, and the yew, hooks_core and hook_macro paths are `::hooks_yew::__private::<name>` |
| `MacroImp.OverrideReplacesOnlyThatPath` | packages/hooks-yew-derive/src/macro_imp.rs:39-49 | an override for the yew, hooks_core or hook_macro path replaces that path and leaves the other three as they were |
| `MacroImp.DerivedPathsFollowHooksYewPath` | packages/hooks-yew-derive/src/macro_imp.rs:32-49 | an overridden `hooks_yew_path` is used as given, and every derived path without an override is `private_path` of it |
| `MacroImp.PathIsInlineExactly` | packages/hooks-yew-derive/src/macro_imp.rs:242-247 | `path_is_inline` holds iff the path is exactly `inline`: no leading colon, one segment without arguments, no trailing separator |
| `MacroImp.PartitionConcat` | packages/hooks-yew-derive/src/macro_imp.rs:57-67 | the partition of a concatenation is the concatenation of the partitions, so each list keeps the attributes' relative order |
| `MacroImp.PartitionSplits` | packages/hooks-yew-derive/src/macro_imp.rs:57-67 | the struct list and the function list are together a permutation of the input attributes, so each attribute lands in exactly one |
| `MacroImp.PartitionMembership` | packages/hooks-yew-derive/src/macro_imp.rs:59-66 | an attribute is in the struct list iff it is an input attribute that is Outer and not `inline`, and in the function list iff it is an input attribute that is not |
| `MacroImp.PartitionAttrs` | packages/hooks-yew-derive/src/macro_imp.rs:57-69 | the loop's struct list and function list are exactly the two halves of `Partition` of the input attributes |
| `MacroImp.AnalyzeSignature` | packages/hooks-yew-derive/src/macro_imp.rs:71-119 | with no arguments: a single `_: &()` input is synthesized, props are `()`, no diagnostics; otherwise the inputs stay, a first argument `&T` gives props `T` and anything else (a receiver or a non-reference) falls back to `()`; no diagnostics iff there is at most one argument and it is `&T`; more than one argument gives the "one optional argument" diagnostic over all inputs first, a bad first argument gives the "first argument must be `&Props`" diagnostic over that argument last, so between 0 and 2 in all; the rewritten inputs start with a `&Props` argument for the props when there is no diagnostic |
| `MacroImp.AutoFnOutputYewHtml` | packages/hooks-yew-derive/src/macro_imp.rs:222-240 | the result is never elided; a missing return type or `-> _` becomes `<yew_path>::Html`; any other return type is unchanged |
| `MacroImp.AutoFnOutputIdempotent` | packages/hooks-yew-derive/src/macro_imp.rs:226-240 | filling the return type twice gives the same result as filling it once |
| `MacroImp.TransformItemFn` | packages/hooks-yew-derive/src/macro_imp.rs:26-219 | struct name, visibility and generics come from the function; struct attributes and the function's attributes are the partition of the input's attributes, and the hook attribute (path `hook_macro_path`, argument the stringified `hooks_core_path`) is appended last; the function gets empty generics and the filled return type. With no arguments: props `()`, a single `_: &()` input, name `use_impl_html`, visibility inherited, a `use_html` forwarder with the original visibility that calls it, and no diagnostics. With arguments: inputs unchanged, name `use_html`, no forwarder, visibility unchanged, and props `T` for a first argument `&T`, otherwise `()`. Diagnostics: none iff there is at most one argument and it is `&T`; otherwise one or two, the "one optional argument" one (spanning all inputs) first and the "first argument must be `&Props`" one (spanning the first argument) last. The rewritten function is again a well-formed one-argument hook for the same props. The struct keeps the generic parameters and the where clause; the inherent impl puts the parameters after `impl`, the `Component` impl puts them after `for`, and neither impl has the where clause. `create` calls the renamed function, and `Properties` and the field's adapter type use the computed props |
| `HooksYew.HoldersUpdate` | packages/hooks-yew/src/lib.rs:65-67 | replacing one task changes a token's holder count by that task's own old and new handles only |
| `HooksYew.LiveTasksAreCurrentHolders` | packages/hooks-yew/src/lib.rs:37-48 | when the adapter is the only strong holder of any token, the live tasks are exactly the tasks holding its current token |
| `HooksYew.AtMostOneLiveTask` | packages/hooks-yew/src/lib.rs:37-54 | under the adapter's invariant at most one task is live, and none once the adapter holds no token |
| `HooksYew.ScheduleKeepsConsistent` | packages/hooks-yew/src/lib.rs:37-39 | re-arming a token with no weak observer yields counts (1, 1) and exactly one holder, and keeps the invariant |
| `HooksYew.PendingTaskHoldsToken` | packages/hooks-yew/src/lib.rs:37-42 | a current token that is not re-armed is held by exactly one pending task |
| `HooksYew.FreshTokenKeepsConsistent` | packages/hooks-yew/src/lib.rs:43-47 | creating a token and scheduling one task on it yields counts (1, 1) and exactly one holder, and keeps the invariant |
| `HooksYew.FinishKeepsConsistent` | packages/hooks-yew/src/lib.rs:55-67 | a task that finishes held a weak count of at least one, and releasing its handle keeps the invariant |
| `HooksYew.DropKeepsConsistent` | packages/hooks-yew/src/lib.rs:74-77 | dropping the adapter's strong reference keeps the invariant with no current token |
| `HooksYew.PinBoxDynHookComponent.constructor` | packages/hooks-yew/src/lib.rs:15-20 | stores the hook, `abort_control` is None, and no token or task exists |
| `HooksYew.PinBoxDynHookComponent.View` | packages/hooks-yew/src/lib.rs:24-30 | requires that no borrow is outstanding; returns the hook's render result for the props and changes nothing else |
| `HooksYew.PinBoxDynHookComponent.Rendered` | packages/hooks-yew/src/lib.rs:32-54 | with no token: a new token with strong 1 is stored and one task holding a weak handle is scheduled (weak 1); with a token whose counts are strong 1, weak 0: the same token is reused and one task is scheduled; otherwise nothing changes; afterwards exactly one task holds the current token |
| `HooksYew.PinBoxDynHookComponent.PollStep` | packages/hooks-yew/src/lib.rs:54-70 | on a token with strong 0: returns Ready(false), the hook is untouched and the task finishes; on a live token: the component exists, the hook's poll result is returned as it is, Ready releases the task's weak handle and Pending keeps everything |
| `HooksYew.PinBoxDynHookComponent.FinishTask` | packages/hooks-yew/src/lib.rs:65-69 | the task's outcome is recorded, its weak handle is released (weak count one lower), and nothing else changes |
| `HooksYew.PinBoxDynHookComponent.DropAbortControl` | packages/hooks-yew/src/lib.rs:75 | `abort_control` becomes None and the token it held loses its strong count; tasks are unchanged and all of them then see strong 0 |
| `HooksYew.PinBoxDynHookComponent.ErasedChanged` | packages/hooks-yew/src/lib.rs:74-77 | returns true, `abort_control` becomes None, the adapter's strong count is dropped, and every pending task then sees strong 0 |
| `HooksYew.PinBoxDynHookComponent.Destroy` | packages/hooks-yew/src/lib.rs:8-11 | dropping the component drops its token: the token's strong count becomes 0, every other count and the task list stay as they were, and every pending task sees strong 0 |
| `HooksYew.RenderedTwice` | packages/hooks-yew/src/lib.rs:37-54 | two `rendered` calls with no poll in between schedule at most one task, exactly one if none was pending, and leave exactly one live task |
| `HooksYew.WakeAfterDestroy` | packages/hooks-yew/src/lib.rs:55-57 | for any valid mounted adapter and any unfinished task, polling that task after the component is destroyed returns Ready(false) without a render or poll call into the hook |
| `HooksYew.ChangedThenRendered` | packages/hooks-yew/src/lib.rs:74-77 | after `erased_changed`, the next `rendered` creates a fresh token and schedules a task, even if a task was pending on the old token |
| `GeneratedContract.GenericComponentImpl` | packages/hooks-yew-derive/src/macro_imp.rs:135-184 | for a hook with generic parameters, the inherent impl header is well placed, the `Component` impl header has the parameters after `for`, and only the struct carries the where clause |
| `GeneratedContract.GeneratedDelegates` | packages/hooks-yew-derive/src/macro_imp.rs:196-214 | the generated `view` and `rendered` call adapter methods that exist; the generated `changed` calls `changed`, which is not one of them |

## Left out

- packages/hooks-yew-derive/src/lib.rs (option parsing, input parsing, writing out the errors) is not part of this model: it is glue around foreign library calls.
- Token emission (`quote!`, `quote_spanned!`), spans, and the text of `to_token_stream().to_string()`: the output is a record, and the hooks_core argument is the abstract `StringifiedPath(path)`.
- darling's option parsing and the `Default` derivation: the options arrive as an already parsed `HookComponentArgs`.
- `generics.split_for_impl()`: the generic parameters are opaque text. The type generics (the parameter names without bounds) are modelled as the same parameter list, and the where clause is given only to the struct, as the code emits it.
- The signature flags `const`, `async`, `unsafe`, the ABI and variadics: the transformer passes them through, and `Signature` does not carry them.
- The generated `update`, which returns the message unchanged, and the arguments the generated `view` and `rendered` pass (`ctx.props()`, the `|comp| &comp.0` projection): `ComponentImpl` records only which adapter method each one calls.
- The accumulated error is modelled as the list of its diagnostics (`None` when empty), not as darling's combined error value.
- yew's `Component` trait, `Context`, `Scope::send_future`, the message sent when a task completes, and the virtual DOM: the scope is the `tasks` list, and `Html` is an abstract value.
- The hook engine (`dyn_hook!`, `erased_use_hook`, `poll_next_update` internals): an object whose render and poll answers come from given functions.
- `Pin<Box<..>>` memory, real wakers and the executor. The scheduler may poll any unfinished task at any time. Once a future returns Ready, the scheduler drops it, which releases the weak handle it still holds.
- `RefCell` panics: the exclusive borrow is a precondition (`!borrowed`) on `View` and on a `PollStep` that reaches the hook.
- Several components sharing one scheduler: each adapter has its own task list.
