/**
  The hook lifecycle adapter `PinBoxDynHookComponent`
  (packages/hooks-yew/src/lib.rs): it owns the pinned hook, renders it, and
  keeps at most one poll task alive per component, cancelled through the
  strong and weak counts of a shared `Rc<()>` token.

  The reference-counted allocations are modelled explicitly: `rcs[k]` holds
  the strong and weak counts of the k-th `Rc<()>` the adapter created, and a
  handle to it is the index `k`. The futures the adapter sends through the
  component's scope are the list `tasks`; the scheduler chooses when to
  poll each one.
 */
module HooksYew {
  import opened Wrappers

  /** A rendered virtual-DOM value (`yew::Html`), left abstract. */
  datatype Html = Html(id: nat)

  datatype Poll<T> = Pending | Ready(value: T)

  /**
    The dynamically typed hook behind `RefCell<Pin<Box<..>>>`. What it
    renders and what each poll answers are given from outside (the hook
    engine is not modelled); the counters record every call made into it.
   */
  class DynHook<Props> {
    /** the result of the n-th render for the given props */
    const renderFn: (nat, Props) -> Html
    /** the answer of the n-th `poll_next_update` */
    const pollFn: nat -> Poll<bool>
    var renderCalls: nat
    var pollCalls: nat

    constructor (renderFn: (nat, Props) -> Html, pollFn: nat -> Poll<bool>)
      ensures this.renderFn == renderFn && this.pollFn == pollFn
      ensures renderCalls == 0 && pollCalls == 0
    {
      this.renderFn := renderFn;
      this.pollFn := pollFn;
      renderCalls := 0;
      pollCalls := 0;
    }

    /** `erased_use_hook((props,))` */
    method ErasedUseHook(props: Props) returns (html: Html)
      modifies this
      ensures html == renderFn(old(renderCalls), props)
      ensures renderCalls == old(renderCalls) + 1 && pollCalls == old(pollCalls)
    {
      html := renderFn(renderCalls, props);
      renderCalls := renderCalls + 1;
    }

    /** `HookPollNextUpdate::poll_next_update` */
    method PollNextUpdate() returns (r: Poll<bool>)
      modifies this
      ensures r == pollFn(old(pollCalls))
      ensures pollCalls == old(pollCalls) + 1 && renderCalls == old(renderCalls)
    {
      r := pollFn(pollCalls);
      pollCalls := pollCalls + 1;
    }
  }

  /** The counters of one `Rc<()>` allocation. */
  datatype RcCounts = RcCounts(strong: nat, weak: nat)

  /**
    A future sent through the scope: the weak handle it captured (`None` once
    released) and its result once it has returned `Ready`.
   */
  datatype PollTask = PollTask(weak: Option<nat>, outcome: Option<bool>)

  /** How many tasks hold a weak handle to allocation `k`. */
  function Holders(tasks: seq<PollTask>, k: nat): nat {
    if tasks == [] then 0
    else Holders(tasks[..|tasks| - 1], k) + (if tasks[|tasks| - 1].weak == Some(k) then 1 else 0)
  }

  /** A task whose token still has a strong holder: polling it touches the hook. */
  predicate IsLive(t: PollTask, rcs: seq<RcCounts>) {
    t.weak.Some? && t.weak.value < |rcs| && rcs[t.weak.value].strong > 0
  }

  function LiveTasks(tasks: seq<PollTask>, rcs: seq<RcCounts>): nat {
    if tasks == [] then 0
    else LiveTasks(tasks[..|tasks| - 1], rcs) + (if IsLive(tasks[|tasks| - 1], rcs) then 1 else 0)
  }

  /**
    The adapter's invariant over its token `ac`, the allocations and the tasks:
    the only strong holder of any token is the adapter itself, weak counts are
    exactly the handles the tasks hold, and at most one task holds the
    current token.
   */
  ghost predicate Consistent(ac: Option<nat>, rcs: seq<RcCounts>, tasks: seq<PollTask>) {
    && (ac.Some? ==> ac.value < |rcs|)
    && (forall i :: 0 <= i < |tasks| ==>
          && (tasks[i].weak.Some? ==> tasks[i].weak.value < |rcs|)
          && (tasks[i].weak.None? <==> tasks[i].outcome.Some?))
    && (forall k :: 0 <= k < |rcs| ==>
          rcs[k].strong == (if ac == Some(k) then 1 else 0) && rcs[k].weak == Holders(tasks, k))
    && (ac.Some? ==> Holders(tasks, ac.value) <= 1)
  }

  /** Releasing the weak handle of allocation `k` (dropping a `Weak`). */
  predicate WeakReleased(before: seq<RcCounts>, k: nat, after: seq<RcCounts>) {
    k < |before| && before[k].weak > 0 && after == before[k := before[k].(weak := before[k].weak - 1)]
  }

  /** Replacing task `i` changes the holder count of `k` by its own contribution only. */
  lemma {:induction false} HoldersUpdate(tasks: seq<PollTask>, i: nat, t: PollTask, k: nat)
    requires i < |tasks|
    ensures Holders(tasks[i := t], k) + (if tasks[i].weak == Some(k) then 1 else 0)
         == Holders(tasks, k) + (if t.weak == Some(k) then 1 else 0)
    decreases |tasks|
  {
    var n := |tasks|;
    if i == n - 1 {
      assert tasks[i := t][..n - 1] == tasks[..n - 1];
    } else {
      assert tasks[i := t][..n - 1] == tasks[..n - 1][i := t];
      HoldersUpdate(tasks[..n - 1], i, t, k);
    }
  }

  /** No task holds an allocation that does not exist yet. */
  lemma {:induction false} HoldersOfNewAllocation(tasks: seq<PollTask>, k: nat)
    requires forall i :: 0 <= i < |tasks| && tasks[i].weak.Some? ==> tasks[i].weak.value < k
    ensures Holders(tasks, k) == 0
  {
    if tasks != [] {
      HoldersOfNewAllocation(tasks[..|tasks| - 1], k);
    }
  }

  /** When the adapter is the only strong holder, the live tasks are those holding its token. */
  lemma {:induction false} LiveTasksAreCurrentHolders(ac: Option<nat>, rcs: seq<RcCounts>, tasks: seq<PollTask>)
    requires forall k :: 0 <= k < |rcs| ==> rcs[k].strong == (if ac == Some(k) then 1 else 0)
    ensures LiveTasks(tasks, rcs) == if ac.Some? && ac.value < |rcs| then Holders(tasks, ac.value) else 0
  {
    if tasks != [] {
      LiveTasksAreCurrentHolders(ac, rcs, tasks[..|tasks| - 1]);
    }
  }

  /** "At most one live poll task per adapter." */
  lemma AtMostOneLiveTask(ac: Option<nat>, rcs: seq<RcCounts>, tasks: seq<PollTask>)
    requires Consistent(ac, rcs, tasks)
    ensures LiveTasks(tasks, rcs) <= 1
    ensures ac.None? ==> LiveTasks(tasks, rcs) == 0
  {
    LiveTasksAreCurrentHolders(ac, rcs, tasks);
  }

  /** Scheduling a task on a token nobody observes keeps the invariant. */
  lemma ScheduleKeepsConsistent(k: nat, rcs: seq<RcCounts>, tasks: seq<PollTask>)
    requires Consistent(Some(k), rcs, tasks) && rcs[k].weak == 0
    ensures Consistent(Some(k), rcs[k := RcCounts(1, 1)], tasks + [PollTask(Some(k), None)])
    ensures Holders(tasks + [PollTask(Some(k), None)], k) == 1
  {
    var tasks' := tasks + [PollTask(Some(k), None)];
    assert tasks'[..|tasks|] == tasks;
  }

  /** A token that cannot be re-armed is held by exactly one pending task. */
  lemma PendingTaskHoldsToken(k: nat, rcs: seq<RcCounts>, tasks: seq<PollTask>)
    requires Consistent(Some(k), rcs, tasks) && !(rcs[k].weak == 0 && rcs[k].strong == 1)
    ensures Holders(tasks, k) == 1
  {
    assert rcs[k].strong == 1;
  }

  /** Scheduling a task on a fresh token keeps the invariant. */
  lemma FreshTokenKeepsConsistent(rcs: seq<RcCounts>, tasks: seq<PollTask>)
    requires Consistent(None, rcs, tasks)
    ensures Consistent(Some(|rcs|), rcs + [RcCounts(1, 1)], tasks + [PollTask(Some(|rcs|), None)])
    ensures Holders(tasks + [PollTask(Some(|rcs|), None)], |rcs|) == 1
  {
    var tasks' := tasks + [PollTask(Some(|rcs|), None)];
    assert tasks'[..|tasks|] == tasks;
    HoldersOfNewAllocation(tasks, |rcs|);
  }

  /** A finishing task releases its handle and keeps the invariant. */
  lemma FinishKeepsConsistent(ac: Option<nat>, rcs: seq<RcCounts>, tasks: seq<PollTask>, i: nat, b: bool)
    requires Consistent(ac, rcs, tasks) && i < |tasks| && tasks[i].weak.Some?
    ensures var k := tasks[i].weak.value;
      && rcs[k].weak > 0
      && Consistent(ac, rcs[k := rcs[k].(weak := rcs[k].weak - 1)], tasks[i := PollTask(None, Some(b))])
  {
    var k := tasks[i].weak.value;
    var tasks' := tasks[i := PollTask(None, Some(b))];
    forall m | 0 <= m < |rcs|
      ensures Holders(tasks', m) == Holders(tasks, m) - (if m == k then 1 else 0)
    {
      HoldersUpdate(tasks, i, PollTask(None, Some(b)), m);
    }
  }

  /** Dropping the adapter's strong reference keeps the invariant. */
  lemma DropKeepsConsistent(k: nat, rcs: seq<RcCounts>, tasks: seq<PollTask>)
    requires Consistent(Some(k), rcs, tasks)
    ensures Consistent(None, rcs[k := RcCounts(0, rcs[k].weak)], tasks)
  {
  }

  class PinBoxDynHookComponent<Props> {
    /** the pinned hook; the box is never replaced */
    const hook: DynHook<Props>
    /** the `RefCell`'s borrow flag */
    var borrowed: bool
    /** `abort_control: Option<Rc<()>>`, as the index of the allocation */
    var abortControl: Option<nat>
    /** the counters of every `Rc<()>` this adapter created */
    var rcs: seq<RcCounts>
    /** the futures this adapter sent through the scope */
    var tasks: seq<PollTask>
    /** the component still exists, so `get_component()` returns it */
    var mounted: bool

    ghost predicate Valid()
      reads this
    {
      Consistent(abortControl, rcs, tasks) && (!mounted ==> abortControl.None?)
    }

    /** The current token has no weak observer: the last task already completed. */
    ghost predicate CanRearm()
      reads this
    {
      abortControl.Some? && abortControl.value < |rcs| && rcs[abortControl.value] == RcCounts(1, 0)
    }

    /** Polling task `i` would reach the hook. */
    ghost predicate TaskIsLive(i: nat)
      reads this
    {
      i < |tasks| && IsLive(tasks[i], rcs)
    }

    /** `PinBoxDynHookComponent::new` */
    constructor (hook: DynHook<Props>)
      ensures Valid() && this.hook == hook
      ensures abortControl == None && rcs == [] && tasks == [] && mounted && !borrowed
    {
      this.hook := hook;
      borrowed := false;
      abortControl := None;
      rcs := [];
      tasks := [];
      mounted := true;
    }

    /** `view`: renders the hook for `props` under an exclusive borrow. */
    method View(props: Props) returns (html: Html)
      requires Valid() && mounted && !borrowed
      modifies this, hook
      ensures Valid() && !borrowed
      ensures abortControl == old(abortControl) && rcs == old(rcs) && tasks == old(tasks) && mounted == old(mounted)
      ensures html == hook.renderFn(old(hook.renderCalls), props)
      ensures hook.renderCalls == old(hook.renderCalls) + 1 && hook.pollCalls == old(hook.pollCalls)
    {
      borrowed := true;
      html := hook.ErasedUseHook(props);
      borrowed := false;
    }

    /** `rendered`: schedules a poll task unless one is already pending on the current token. */
    method Rendered()
      requires Valid() && mounted
      modifies this
      ensures Valid() && mounted && borrowed == old(borrowed)
      ensures old(abortControl).None? ==>
        && abortControl == Some(|old(rcs)|)
        && rcs == old(rcs) + [RcCounts(1, 1)]
        && tasks == old(tasks) + [PollTask(Some(|old(rcs)|), None)]
      ensures old(CanRearm()) ==>
        && abortControl == old(abortControl)
        && rcs == old(rcs)[old(abortControl).value := RcCounts(1, 1)]
        && tasks == old(tasks) + [PollTask(old(abortControl), None)]
      ensures old(abortControl).Some? && !old(CanRearm()) ==>
        abortControl == old(abortControl) && rcs == old(rcs) && tasks == old(tasks)
      // afterwards exactly one task observes the current token
      ensures abortControl.Some? && Holders(tasks, abortControl.value) == 1
    {
      // the new state is built on locals and stored at the end
      var ac, counts, scheduled := abortControl, rcs, tasks;
      var weak: Option<nat>;
      match ac {
        case Some(k) =>
          if counts[k].weak == 0 && counts[k].strong == 1 {
            ScheduleKeepsConsistent(k, counts, scheduled);
            counts := counts[k := counts[k].(weak := counts[k].weak + 1)];  // Rc::downgrade(ac)
            weak := Some(k);
          } else {
            PendingTaskHoldsToken(k, counts, scheduled);
            weak := None;
          }
        case None =>
          FreshTokenKeepsConsistent(counts, scheduled);
          var k := |counts|;
          counts := counts + [RcCounts(1, 0)];  // Rc::new(())
          counts := counts[k := RcCounts(1, 1)];  // Rc::downgrade
          ac := Some(k);
          weak := Some(k);
      }
      if weak.Some? {
        scheduled := scheduled + [PollTask(weak, None)];  // scope.send_future
      }
      abortControl, rcs, tasks := ac, counts, scheduled;
    }

    /**
      One poll of task `i` by the scheduler (the `poll_fn` closure, plus the
      scheduler dropping the future once it returned `Ready`).
     */
    method PollStep(i: nat) returns (r: Poll<bool>)
      requires Valid() && i < |tasks| && tasks[i].outcome.None?
      requires TaskIsLive(i) ==> !borrowed
      modifies this, hook
      ensures Valid()
      ensures abortControl == old(abortControl) && mounted == old(mounted) && borrowed == old(borrowed)
      ensures |tasks| == |old(tasks)| && forall j :: 0 <= j < |tasks| && j != i ==> tasks[j] == old(tasks[j])
      // the owner is gone: answer "no re-render" without touching the component or the hook
      ensures !old(TaskIsLive(i)) ==>
        && r == Ready(false)
        && unchanged(hook)
        && tasks[i] == PollTask(None, Some(false))
        && WeakReleased(old(rcs), old(tasks[i].weak.value), rcs)
      // the owner is alive: the component exists and the hook's answer is returned as it is
      ensures old(TaskIsLive(i)) ==>
        && old(mounted)
        && r == hook.pollFn(old(hook.pollCalls))
        && hook.pollCalls == old(hook.pollCalls) + 1 && hook.renderCalls == old(hook.renderCalls)
      ensures old(TaskIsLive(i)) && r.Ready? ==>
        tasks[i] == PollTask(None, Some(r.value)) && WeakReleased(old(rcs), old(tasks[i].weak.value), rcs)
      ensures old(TaskIsLive(i)) && r.Pending? ==>
        tasks == old(tasks) && rcs == old(rcs)
    {
      var k := tasks[i].weak.value;
      if rcs[k].strong == 0 {
        // `weak.strong_count() == 0`: the owner is gone
        FinishTask(i, false);
        r := Ready(false);
      } else {
        assert mounted;  // `s.get_component().unwrap()` succeeds
        borrowed := true;
        r := hook.PollNextUpdate();
        borrowed := false;
        if r.Ready? {
          FinishTask(i, r.value);  // `mem::take(&mut weak)`
        }
      }
    }

    /** Task `i` completes with `b` and its weak handle is released. */
    method FinishTask(i: nat, b: bool)
      requires Valid() && i < |tasks| && tasks[i].weak.Some?
      modifies this
      ensures Valid()
      ensures abortControl == old(abortControl) && mounted == old(mounted) && borrowed == old(borrowed)
      ensures tasks == old(tasks)[i := PollTask(None, Some(b))]
      ensures WeakReleased(old(rcs), old(tasks[i].weak.value), rcs)
    {
      var k := tasks[i].weak.value;
      FinishKeepsConsistent(abortControl, rcs, tasks, i, b);
      rcs, tasks := rcs[k := rcs[k].(weak := rcs[k].weak - 1)], tasks[i := PollTask(None, Some(b))];
    }

    /** `abort_control.take()` followed by dropping the taken `Rc`. */
    method DropAbortControl()
      requires Valid()
      modifies this
      ensures Consistent(abortControl, rcs, tasks) && abortControl.None?
      ensures tasks == old(tasks) && mounted == old(mounted) && borrowed == old(borrowed)
      ensures old(abortControl).None? ==> rcs == old(rcs)
      ensures old(abortControl).Some? ==>
        rcs == old(rcs)[old(abortControl).value := RcCounts(0, old(rcs)[old(abortControl).value].weak)]
      ensures forall j :: 0 <= j < |tasks| && tasks[j].weak.Some? ==> rcs[tasks[j].weak.value].strong == 0
    {
      if abortControl.Some? {
        var k := abortControl.value;
        DropKeepsConsistent(k, rcs, tasks);
        rcs := rcs[k := RcCounts(0, rcs[k].weak)];
        abortControl := None;
      }
    }

    /** `erased_changed`: forgets the token and always asks for a re-render. */
    method ErasedChanged() returns (changed: bool)
      requires Valid()
      modifies this
      ensures Valid() && changed && abortControl.None?
      ensures tasks == old(tasks) && mounted == old(mounted) && borrowed == old(borrowed)
      ensures old(abortControl).None? ==> rcs == old(rcs)
      ensures old(abortControl).Some? ==>
        rcs == old(rcs)[old(abortControl).value := RcCounts(0, old(rcs)[old(abortControl).value].weak)]
      // every pending task sees no strong holder on its next poll
      ensures forall j :: 0 <= j < |tasks| && tasks[j].weak.Some? ==> rcs[tasks[j].weak.value].strong == 0
    {
      DropAbortControl();
      changed := true;
    }

    /** The component is destroyed: the adapter and its token are dropped. */
    method Destroy()
      requires Valid() && mounted
      modifies this
      ensures Valid() && !mounted && abortControl.None?
      ensures tasks == old(tasks) && borrowed == old(borrowed)
      ensures old(abortControl).None? ==> rcs == old(rcs)
      ensures old(abortControl).Some? ==>
        rcs == old(rcs)[old(abortControl).value := RcCounts(0, old(rcs)[old(abortControl).value].weak)]
      ensures forall j :: 0 <= j < |tasks| && tasks[j].weak.Some? ==> rcs[tasks[j].weak.value].strong == 0
    {
      DropAbortControl();
      mounted := false;
    }
  }

  /** Two `rendered` calls with no poll in between schedule at most one task, and leave exactly one live. */
  method RenderedTwice<Props>(c: PinBoxDynHookComponent<Props>)
    requires c.Valid() && c.mounted
    modifies c
    ensures c.Valid()
    ensures |c.tasks| == |old(c.tasks)| + (if old(c.abortControl).None? || old(c.CanRearm()) then 1 else 0)
    ensures LiveTasks(c.tasks, c.rcs) == 1
  {
    c.Rendered();
    c.Rendered();
    LiveTasksAreCurrentHolders(c.abortControl, c.rcs, c.tasks);
  }

  /** A task woken after its component was destroyed completes without calling into the hook. */
  method WakeAfterDestroy<Props>(c: PinBoxDynHookComponent<Props>, i: nat) returns (r: Poll<bool>)
    requires c.Valid() && c.mounted && i < |c.tasks| && c.tasks[i].outcome.None?
    modifies c, c.hook
    ensures r == Ready(false)
    ensures c.hook.renderCalls == old(c.hook.renderCalls) && c.hook.pollCalls == old(c.hook.pollCalls)
  {
    c.Destroy();
    r := c.PollStep(i);
  }

  /** After `erased_changed`, the next `rendered` schedules a fresh task even if one was pending. */
  method ChangedThenRendered<Props>(c: PinBoxDynHookComponent<Props>)
    requires c.Valid() && c.mounted
    modifies c
    ensures c.Valid()
    ensures |c.tasks| == |old(c.tasks)| + 1 && |c.rcs| == |old(c.rcs)| + 1
    ensures c.abortControl == Some(|old(c.rcs)|)
  {
    var changed := c.ErasedChanged();
    c.Rendered();
  }
}
