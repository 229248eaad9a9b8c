/**
 Kernel stacks under CONFIG_VMAP_STACK: allocation from the per-CPU cache or the page allocator, freeing
 into the cache, draining the cache of a CPU that went down, and the way `dup_task_struct` handles the
 stack fields. Every atomic access is a step of its own, so any number of such operations interleave.
 */
module ThreadStacks {
  import opened Basics

  const NR_CACHED_STACKS := 2

  /** The fields of a task that matter here. A stack is identified with its vm area; `refs` is its reference count. */
  datatype Task = Task(stack: Option<nat>, area: Option<nat>, dead: bool, refs: nat)

  /** A CPU that is down has its cache drained slot by slot; `Freed` is between the free and the clearing. */
  datatype Mode = Online | Draining(slot: nat) | Freed(slot: nat)

  datatype Cpu = Cpu(slots: seq<Option<nat>>, mode: Mode)

  /** Where an operation is, with its local variables. */
  datatype Pc =
    | Idle
    | Allocating(tsk: nat, orig: nat, slot: nat)
    | Taken(tsk: nat, orig: nat, got: nat)
    | Charging(tsk: nat, orig: nat, stack: nat)
    | Copying(tsk: nat, orig: nat, stack: nat, area: Option<nat>)
    | Restoring(tsk: nat, stack: nat, area: Option<nat>, failed: bool)
    | Ready(tsk: nat, stack: nat)
    | Freeing(tsk: nat, slot: nat, unborn: bool)
    | Released(tsk: nat, unborn: bool)

  /** `published` are the tasks others may know, `running` those of them that have not given up their stack. */
  datatype State = State(cpus: seq<Cpu>, tasks: map<nat, Task>, published: set<nat>, running: set<nat>,
                         agents: seq<Pc>, live: set<nat>)

  /** The atomic steps, with what the environment chooses. An agent may be on another CPU at each step. */
  datatype Step =
    | StartDup(a: nat, orig: nat, tsk: nat, garbage: Task)
    | Exchange(a: nat, cpu: nat)
    | Vmalloc(a: nat, x: Option<nat>)
    | Store(a: nat)
    | Charge(a: nat, ok: bool)
    | Copy(a: nat, copied: bool, failed: bool)
    | Restore(a: nat)
    | Publish(a: nat)
    | CompareExchange(a: nat, cpu: nat)
    | Vfree(a: nat)
    | Forget(a: nat)
    | Die(t: nat)
    | Get(t: nat)
    | Put(a: nat, t: nat)
    | TakeDown(cpu: nat)
    | DrainSlot(cpu: nat)
    | ClearSlot(cpu: nat)
    | BringUp(cpu: nat)

  // ---------- the step relation ----------

  ghost predicate OnlineCpu(s: State, cpu: nat)
  {
    cpu < |s.cpus| && s.cpus[cpu].mode == Online && |s.cpus[cpu].slots| == NR_CACHED_STACKS
  }

  ghost predicate Forks(pc: Pc, t: nat)
  {
    (pc.Allocating? || pc.Taken? || pc.Charging? || pc.Copying?) && pc.orig == t
  }

  ghost predicate Enabled(s: State, step: Step)
  {
    match step
    case StartDup(a, orig, tsk, _) =>
      && a < |s.agents| && s.agents[a].Idle? && orig in s.running && orig in s.tasks && !s.tasks[orig].dead
      && tsk !in s.tasks
    case Exchange(a, cpu) =>
      a < |s.agents| && s.agents[a].Allocating? && s.agents[a].slot < NR_CACHED_STACKS && OnlineCpu(s, cpu)
    case Vmalloc(a, x) =>
      a < |s.agents| && s.agents[a].Allocating? && s.agents[a].slot == NR_CACHED_STACKS
      && (x.Some? ==> x.value !in s.live)
    case Store(a) => a < |s.agents| && s.agents[a].Taken? && s.agents[a].tsk in s.tasks
    case Charge(a, _) => a < |s.agents| && s.agents[a].Charging? && s.agents[a].tsk in s.tasks
    case Copy(a, copied, failed) =>
      a < |s.agents| && s.agents[a].Copying? && s.agents[a].tsk in s.tasks && s.agents[a].orig in s.tasks
      && (copied || failed)
    case Restore(a) => a < |s.agents| && s.agents[a].Restoring? && s.agents[a].tsk in s.tasks
    case Publish(a) => a < |s.agents| && s.agents[a].Ready?
    case CompareExchange(a, cpu) =>
      a < |s.agents| && s.agents[a].Freeing? && s.agents[a].slot < NR_CACHED_STACKS && OnlineCpu(s, cpu)
      && s.agents[a].tsk in s.tasks
    case Vfree(a) =>
      a < |s.agents| && s.agents[a].Freeing? && s.agents[a].slot == NR_CACHED_STACKS && s.agents[a].tsk in s.tasks
      && s.tasks[s.agents[a].tsk].stack.Some?
    case Forget(a) => a < |s.agents| && s.agents[a].Released? && s.agents[a].tsk in s.tasks
    case Die(t) => t in s.running && t in s.tasks && forall a :: 0 <= a < |s.agents| ==> !Forks(s.agents[a], t)
    case Get(t) => t in s.published && t in s.tasks && s.tasks[t].refs > 0
    case Put(a, t) => a < |s.agents| && s.agents[a].Idle? && t in s.published && t in s.tasks
    case TakeDown(cpu) => OnlineCpu(s, cpu)
    case DrainSlot(cpu) => cpu < |s.cpus| && s.cpus[cpu].mode.Draining? && s.cpus[cpu].mode.slot < |s.cpus[cpu].slots|
    case ClearSlot(cpu) => cpu < |s.cpus| && s.cpus[cpu].mode.Freed? && s.cpus[cpu].mode.slot < |s.cpus[cpu].slots|
    case BringUp(cpu) => cpu < |s.cpus| && s.cpus[cpu].mode == Draining(NR_CACHED_STACKS)
  }

  function SetPc(s: State, a: nat, pc: Pc): (r: State)
    requires a < |s.agents|
  {
    s.(agents := s.agents[a := pc])
  }

  function SetSlot(s: State, cpu: nat, i: nat, v: Option<nat>): (r: State)
    requires cpu < |s.cpus| && i < |s.cpus[cpu].slots|
  {
    s.(cpus := s.cpus[cpu := s.cpus[cpu].(slots := s.cpus[cpu].slots[i := v])])
  }

  function SetMode(s: State, cpu: nat, mode: Mode): (r: State)
    requires cpu < |s.cpus|
  {
    s.(cpus := s.cpus[cpu := s.cpus[cpu].(mode := mode)])
  }

  function SetTask(s: State, t: nat, task: Task): (r: State)
  {
    s.(tasks := s.tasks[t := task])
  }

  /** The last reference to the stack of a dead task is dropped. */
  predicate Releases(s: State, t: nat)
  {
    t in s.tasks && s.tasks[t].refs == 1 && s.tasks[t].dead
  }

  function Apply(s: State, step: Step): (r: State)
    requires Enabled(s, step)
  {
    match step
    case StartDup(a, orig, tsk, garbage) => SetPc(SetTask(s, tsk, garbage), a, Allocating(tsk, orig, 0))
    case Exchange(a, cpu) =>
      var pc := s.agents[a];
      var got := s.cpus[cpu].slots[pc.slot];
      SetPc(SetSlot(s, cpu, pc.slot, None), a,
            if got.None? then Allocating(pc.tsk, pc.orig, pc.slot + 1) else Taken(pc.tsk, pc.orig, got.value))
    case Vmalloc(a, x) =>
      var pc := s.agents[a];
      if x.None? then SetPc(s, a, Released(pc.tsk, true))
      else SetPc(s.(live := s.live + {x.value}), a, Taken(pc.tsk, pc.orig, x.value))
    case Store(a) =>
      var pc := s.agents[a];
      SetPc(SetTask(s, pc.tsk, s.tasks[pc.tsk].(area := Some(pc.got), stack := Some(pc.got))), a,
            Charging(pc.tsk, pc.orig, pc.got))
    case Charge(a, ok) =>
      var pc := s.agents[a];
      SetPc(s, a, if ok then Copying(pc.tsk, pc.orig, pc.stack, s.tasks[pc.tsk].area) else Freeing(pc.tsk, 0, true))
    case Copy(a, copied, failed) =>
      var pc := s.agents[a];
      SetPc(if copied then SetTask(s, pc.tsk, s.tasks[pc.orig]) else s, a, Restoring(pc.tsk, pc.stack, pc.area, failed))
    case Restore(a) =>
      var pc := s.agents[a];
      SetPc(SetTask(s, pc.tsk, s.tasks[pc.tsk].(stack := Some(pc.stack), area := pc.area, refs := 1)), a,
            if pc.failed then Freeing(pc.tsk, 0, true) else Ready(pc.tsk, pc.stack))
    case Publish(a) =>
      var tsk := s.agents[a].tsk;
      SetPc(s.(running := s.running + {tsk}, published := s.published + {tsk}), a, Idle)
    case CompareExchange(a, cpu) =>
      var pc := s.agents[a];
      if s.cpus[cpu].slots[pc.slot].Some? then SetPc(s, a, Freeing(pc.tsk, pc.slot + 1, pc.unborn))
      else SetPc(SetSlot(s, cpu, pc.slot, s.tasks[pc.tsk].area), a, Released(pc.tsk, pc.unborn))
    case Vfree(a) =>
      var pc := s.agents[a];
      SetPc(s.(live := s.live - {s.tasks[pc.tsk].stack.value}), a, Released(pc.tsk, pc.unborn))
    case Forget(a) =>
      var pc := s.agents[a];
      SetPc(if pc.unborn then s.(tasks := s.tasks - {pc.tsk})
            else SetTask(s, pc.tsk, s.tasks[pc.tsk].(stack := None, area := None)), a, Idle)
    case Die(t) => SetTask(s, t, s.tasks[t].(dead := true))
    case Get(t) => SetTask(s, t, s.tasks[t].(refs := s.tasks[t].refs + 1))
    case Put(a, t) =>
      if s.tasks[t].refs == 0 then s
      else
        var r := SetTask(s, t, s.tasks[t].(refs := s.tasks[t].refs - 1));
        if Releases(s, t) then SetPc(r.(running := r.running - {t}), a, Freeing(t, 0, false)) else r
    case TakeDown(cpu) => SetMode(s, cpu, Draining(0))
    case DrainSlot(cpu) =>
      var i := s.cpus[cpu].mode.slot;
      var x := s.cpus[cpu].slots[i];
      if x.None? then SetMode(s, cpu, Draining(i + 1))
      else SetMode(s.(live := s.live - {x.value}), cpu, Freed(i))
    case ClearSlot(cpu) =>
      var i := s.cpus[cpu].mode.slot;
      SetMode(SetSlot(s, cpu, i, None), cpu, Draining(i + 1))
    case BringUp(cpu) => SetMode(s, cpu, Online)
  }

  // ---------- who holds a stack ----------

  datatype Place = Slot(cpu: nat, i: nat) | Of(t: nat) | Hand(a: nat)

  /** The stack an operation is working on. While it frees, it knows it only through the task's fields. */
  function InHand(s: State, pc: Pc): (x: Option<nat>)
  {
    match pc
    case Taken(_, _, got) => Some(got)
    case Charging(_, _, stack) => Some(stack)
    case Copying(_, _, stack, _) => Some(stack)
    case Restoring(_, stack, _, _) => Some(stack)
    case Ready(_, stack) => Some(stack)
    case Freeing(tsk, _, _) => if tsk in s.tasks then s.tasks[tsk].stack else None
    case _ => None
  }

  ghost predicate Holds(s: State, x: nat, p: Place)
  {
    match p
    case Slot(c, i) =>
      c < |s.cpus| && i < |s.cpus[c].slots| && s.cpus[c].slots[i] == Some(x) && s.cpus[c].mode != Freed(i)
    case Of(t) => t in s.running && t in s.tasks && s.tasks[t].stack == Some(x)
    case Hand(a) => a < |s.agents| && InHand(s, s.agents[a]) == Some(x)
  }

  // ---------- the invariant ----------

  ghost predicate EmptyBefore(slots: seq<Option<nat>>, n: nat)
  {
    forall i :: 0 <= i < |slots| && i < n ==> slots[i].None?
  }

  ghost predicate CpuOk(cpu: Cpu)
  {
    && |cpu.slots| == NR_CACHED_STACKS
    && (cpu.mode.Draining? ==> cpu.mode.slot <= NR_CACHED_STACKS && EmptyBefore(cpu.slots, cpu.mode.slot))
    && (cpu.mode.Freed? ==> cpu.mode.slot < NR_CACHED_STACKS && EmptyBefore(cpu.slots, cpu.mode.slot))
  }

  ghost predicate SameFields(task: Task, x: Option<nat>)
  {
    task.stack == task.area == x && x.Some?
  }

  /** The operation builds a task, or gives one up that never got to be known. */
  ghost predicate Unborn(pc: Pc)
  {
    match pc
    case Idle => false
    case Freeing(_, _, unborn) => unborn
    case Released(_, unborn) => unborn
    case _ => true
  }

  ghost predicate PcOk(s: State, pc: Pc)
  {
    && (!pc.Idle? ==> pc.tsk in s.tasks && pc.tsk !in s.running)
    && (Unborn(pc) ==> pc.tsk !in s.published)
    && (pc.Allocating? || pc.Taken? || pc.Charging? || pc.Copying? ==>
          pc.orig in s.running && pc.orig in s.tasks && !s.tasks[pc.orig].dead)
    && (pc.Allocating? ==> pc.slot <= NR_CACHED_STACKS)
    && (pc.Charging? ==> SameFields(s.tasks[pc.tsk], Some(pc.stack)))
    && (pc.Copying? || pc.Restoring? ==> pc.area == Some(pc.stack))
    && (pc.Restoring? && !pc.failed ==> !s.tasks[pc.tsk].dead)
    && (pc.Ready? ==> SameFields(s.tasks[pc.tsk], Some(pc.stack)) && s.tasks[pc.tsk].refs == 1 && !s.tasks[pc.tsk].dead)
    && (pc.Freeing? ==> pc.slot <= NR_CACHED_STACKS && SameFields(s.tasks[pc.tsk], s.tasks[pc.tsk].stack))
  }

  ghost predicate RunningOk(s: State, t: nat)
  {
    t in s.tasks && SameFields(s.tasks[t], s.tasks[t].stack)
  }

  /** Whoever can still drop a reference finds the task with its stack. */
  ghost predicate PublishedOk(s: State, t: nat)
  {
    t in s.tasks && (s.tasks[t].refs > 0 ==> t in s.running)
  }

  ghost predicate Tidy(s: State)
  {
    && s.running <= s.published
    && (forall t :: t in s.published ==> PublishedOk(s, t))
    && (forall c :: 0 <= c < |s.cpus| ==> CpuOk(s.cpus[c]))
    && (forall t :: t in s.running ==> RunningOk(s, t))
    && (forall a :: 0 <= a < |s.agents| ==> PcOk(s, s.agents[a]))
    && (forall a, b :: 0 <= a < b < |s.agents| && !s.agents[a].Idle? && !s.agents[b].Idle? ==>
          s.agents[a].tsk != s.agents[b].tsk)
  }

  /** The live stacks are those of `owner`, and each is held where `owner` says and nowhere else. */
  ghost predicate Owned(s: State, owner: map<nat, Place>)
  {
    && owner.Keys == s.live
    && (forall x, p :: Holds(s, x, p) ==> x in owner && owner[x] == p)
    && (forall x :: x in owner ==> Holds(s, x, owner[x]))
  }

  ghost predicate Inv(s: State, owner: map<nat, Place>)
  {
    Tidy(s) && Owned(s, owner)
  }

  /** How the holder of one stack changes in a step. */
  ghost function Pass(s: State, owner: map<nat, Place>, step: Step): (r: map<nat, Place>)
    requires Enabled(s, step)
  {
    match step
    case Exchange(a, cpu) =>
      var got := s.cpus[cpu].slots[s.agents[a].slot];
      if got.Some? then owner[got.value := Hand(a)] else owner
    case Vmalloc(a, x) => if x.Some? then owner[x.value := Hand(a)] else owner
    case Publish(a) => owner[s.agents[a].stack := Of(s.agents[a].tsk)]
    case CompareExchange(a, cpu) =>
      var area := s.tasks[s.agents[a].tsk].area;
      if s.cpus[cpu].slots[s.agents[a].slot].None? && area.Some?
      then owner[area.value := Slot(cpu, s.agents[a].slot)] else owner
    case Vfree(a) => owner - {s.tasks[s.agents[a].tsk].stack.value}
    case Put(a, t) =>
      if Releases(s, t) && s.tasks[t].stack.Some? then owner[s.tasks[t].stack.value := Hand(a)] else owner
    case DrainSlot(cpu) =>
      var x := s.cpus[cpu].slots[s.cpus[cpu].mode.slot];
      if x.Some? then owner - {x.value} else owner
    case _ => owner
  }

  // ---------- the structure is kept ----------

  /** A step of one operation on its own task. */
  lemma OwnTaskTidy(s: State, r: State, a: nat)
    requires Tidy(s) && a < |s.agents| == |r.agents| && !s.agents[a].Idle?
    requires r.agents == s.agents[a := r.agents[a]] && r.running == s.running && r.published == s.published
    requires forall c :: 0 <= c < |r.cpus| ==> CpuOk(r.cpus[c])
    requires forall t :: t in s.tasks && t != s.agents[a].tsk ==> t in r.tasks && r.tasks[t] == s.tasks[t]
    requires r.agents[a].Idle? || r.agents[a].tsk == s.agents[a].tsk
    requires PcOk(r, r.agents[a])
    requires s.agents[a].tsk in s.published ==> PublishedOk(r, s.agents[a].tsk)
    ensures Tidy(r)
  {
    assert PcOk(s, s.agents[a]);
    forall t | t in r.running
      ensures RunningOk(r, t)
    {
      assert RunningOk(s, t);
    }
    forall t | t in r.published
      ensures PublishedOk(r, t)
    {
      assert PublishedOk(s, t);
    }
    forall b | 0 <= b < |r.agents|
      ensures PcOk(r, r.agents[b])
    {
      assert PcOk(s, s.agents[b]);
    }
  }

  lemma StartTidy(s: State, step: Step)
    requires Tidy(s) && Enabled(s, step) && step.StartDup?
    ensures Tidy(Apply(s, step))
  {
    var r := Apply(s, step);
    forall t | t in r.running
      ensures RunningOk(r, t)
    {
      assert RunningOk(s, t);
    }
    forall t | t in r.published
      ensures PublishedOk(r, t)
    {
      assert PublishedOk(s, t);
    }
    forall b | 0 <= b < |r.agents|
      ensures PcOk(r, r.agents[b])
    {
      assert PcOk(s, s.agents[b]);
    }
  }

  lemma RunningTidy(s: State, step: Step)
    requires Tidy(s) && Enabled(s, step) && (step.Publish? || step.Die? || step.Get? || step.Put?)
    ensures Tidy(Apply(s, step))
  {
    var r := Apply(s, step);
    if step.Put? {
      assert PublishedOk(s, step.t) && (step.t in s.running ==> RunningOk(s, step.t));
    }
    forall t | t in r.running
      ensures RunningOk(r, t)
    {
      assert t in s.running ==> RunningOk(s, t);
    }
    forall t | t in r.published
      ensures PublishedOk(r, t)
    {
      assert t in s.published ==> PublishedOk(s, t);
    }
    forall b | 0 <= b < |r.agents|
      ensures PcOk(r, r.agents[b])
    {
      assert PcOk(s, s.agents[b]);
    }
  }

  lemma CpuTidy(s: State, step: Step)
    requires Tidy(s) && Enabled(s, step) && (step.TakeDown? || step.DrainSlot? || step.ClearSlot? || step.BringUp?)
    ensures Tidy(Apply(s, step))
  {
    var r := Apply(s, step);
    forall t | t in r.running
      ensures RunningOk(r, t)
    {
      assert RunningOk(s, t);
    }
    forall t | t in r.published
      ensures PublishedOk(r, t)
    {
      assert PublishedOk(s, t);
    }
    forall b | 0 <= b < |r.agents|
      ensures PcOk(r, r.agents[b])
    {
      assert PcOk(s, s.agents[b]);
    }
    forall c | 0 <= c < |r.cpus|
      ensures CpuOk(r.cpus[c])
    {
      assert CpuOk(s.cpus[c]);
    }
  }

  lemma TidyKept(s: State, step: Step)
    requires Tidy(s) && Enabled(s, step)
    ensures Tidy(Apply(s, step))
  {
    if step.StartDup? {
      StartTidy(s, step);
    } else if step.Publish? || step.Die? || step.Get? || step.Put? {
      RunningTidy(s, step);
    } else if step.TakeDown? || step.DrainSlot? || step.ClearSlot? || step.BringUp? {
      CpuTidy(s, step);
    } else if step.Exchange? || step.Vmalloc? || step.Store? || step.Charge? {
      AllocateTidy(s, step);
    } else if step.Copy? || step.Restore? {
      CopyTidy(s, step);
    } else {
      FreeTidy(s, step);
    }
  }

  lemma AllocateTidy(s: State, step: Step)
    requires Tidy(s) && Enabled(s, step) && (step.Exchange? || step.Vmalloc? || step.Store? || step.Charge?)
    ensures Tidy(Apply(s, step))
  {
    assert PcOk(s, s.agents[step.a]);
    OwnTaskTidy(s, Apply(s, step), step.a);
  }

  lemma CopyTidy(s: State, step: Step)
    requires Tidy(s) && Enabled(s, step) && (step.Copy? || step.Restore?)
    ensures Tidy(Apply(s, step))
  {
    assert PcOk(s, s.agents[step.a]);
    OwnTaskTidy(s, Apply(s, step), step.a);
  }

  lemma FreeTidy(s: State, step: Step)
    requires Tidy(s) && Enabled(s, step) && (step.CompareExchange? || step.Vfree? || step.Forget?)
    ensures Tidy(Apply(s, step))
  {
    assert PcOk(s, s.agents[step.a]);
    assert s.agents[step.a].tsk in s.published ==> PublishedOk(s, s.agents[step.a].tsk);
    OwnTaskTidy(s, Apply(s, step), step.a);
  }

  // ---------- every stack keeps exactly one holder ----------

  ghost predicate Same(s: State, r: State)
  {
    r.live == s.live && forall y, q :: Holds(r, y, q) <==> Holds(s, y, q)
  }

  ghost predicate Moves(s: State, r: State, x: nat, p: Place)
  {
    r.live == s.live + {x} && forall y, q :: Holds(r, y, q) <==> if y == x then q == p else Holds(s, y, q)
  }

  ghost predicate Drops(s: State, r: State, x: nat)
  {
    r.live == s.live - {x} && forall y, q :: Holds(r, y, q) <==> y != x && Holds(s, y, q)
  }

  lemma Only(s: State, owner: map<nat, Place>, x: nat, p: Place)
    requires Owned(s, owner) && Holds(s, x, p)
    ensures x in s.live && forall q :: Holds(s, x, q) ==> q == p
  {
    hide Holds;
  }

  lemma ExchangeMoves(s: State, owner: map<nat, Place>, a: nat, cpu: nat)
    requires Inv(s, owner) && Enabled(s, Exchange(a, cpu))
    ensures var got := s.cpus[cpu].slots[s.agents[a].slot]; var r := Apply(s, Exchange(a, cpu));
            if got.Some? then Moves(s, r, got.value, Hand(a)) else Same(s, r)
  {
    var i := s.agents[a].slot;
    var got := s.cpus[cpu].slots[i];
    var r := Apply(s, Exchange(a, cpu));
    if got.Some? {
      assert Holds(s, got.value, Slot(cpu, i));
      Only(s, owner, got.value, Slot(cpu, i));
      forall y, q
        ensures Holds(r, y, q) <==> if y == got.value then q == Hand(a) else Holds(s, y, q)
      {
        assert y == got.value && Holds(s, y, q) ==> q == Slot(cpu, i);
        match q
        case Slot(c, j) =>
        case Of(t) =>
        case Hand(b) =>
      }
    } else {
      forall y, q
        ensures Holds(r, y, q) <==> Holds(s, y, q)
      {
        match q
        case Slot(c, j) =>
        case Of(t) =>
        case Hand(b) =>
      }
    }
  }

  lemma VmallocMoves(s: State, owner: map<nat, Place>, a: nat, x: Option<nat>)
    requires Inv(s, owner) && Enabled(s, Vmalloc(a, x))
    ensures var r := Apply(s, Vmalloc(a, x)); if x.Some? then Moves(s, r, x.value, Hand(a)) else Same(s, r)
  {
    var r := Apply(s, Vmalloc(a, x));
    forall y, q
      ensures Holds(r, y, q) <==> if x.Some? && y == x.value then q == Hand(a) else Holds(s, y, q)
    {
      assert Holds(s, y, q) ==> y in s.live;
      match q
      case Slot(c, j) =>
      case Of(t) =>
      case Hand(b) =>
    }
  }

  /** The steps of `dup_task_struct` that write only to the task being built keep what it has in hand. */
  lemma BuildSame(s: State, step: Step)
    requires Tidy(s) && Enabled(s, step) && (step.Store? || step.Charge? || step.Copy? || step.Restore?)
    ensures Same(s, Apply(s, step))
  {
    var r := Apply(s, step);
    assert PcOk(s, s.agents[step.a]);
    forall y, q
      ensures Holds(r, y, q) <==> Holds(s, y, q)
    {
      match q
      case Slot(c, j) =>
      case Of(t) =>
      case Hand(b) =>
        assert b < |s.agents| ==> PcOk(s, s.agents[b]);
    }
  }

  /** A task struct that is new or given up has no part in it. */
  lemma BoundarySame(s: State, step: Step)
    requires Tidy(s) && Enabled(s, step) && (step.StartDup? || step.Forget?)
    ensures Same(s, Apply(s, step))
  {
    var r := Apply(s, step);
    assert PcOk(s, s.agents[step.a]);
    forall y, q
      ensures Holds(r, y, q) <==> Holds(s, y, q)
    {
      match q
      case Slot(c, j) =>
      case Of(t) =>
        assert t in s.running ==> RunningOk(s, t);
      case Hand(b) =>
        assert b < |s.agents| ==> PcOk(s, s.agents[b]);
    }
  }

  lemma PublishMoves(s: State, owner: map<nat, Place>, a: nat)
    requires Inv(s, owner) && Enabled(s, Publish(a))
    ensures Moves(s, Apply(s, Publish(a)), s.agents[a].stack, Of(s.agents[a].tsk))
  {
    var x := s.agents[a].stack;
    var r := Apply(s, Publish(a));
    assert PcOk(s, s.agents[a]);
    assert Holds(s, x, Hand(a));
    Only(s, owner, x, Hand(a));
    forall y, q
      ensures Holds(r, y, q) <==> if y == x then q == Of(s.agents[a].tsk) else Holds(s, y, q)
    {
      assert y == x && Holds(s, y, q) ==> q == Hand(a);
      match q
      case Slot(c, j) =>
      case Of(t) =>
      case Hand(b) =>
    }
  }

  lemma FreeingHolds(s: State, owner: map<nat, Place>, a: nat)
    requires Inv(s, owner) && a < |s.agents| && s.agents[a].Freeing?
    ensures s.agents[a].tsk in s.tasks && s.agents[a].slot <= NR_CACHED_STACKS
    ensures var task := s.tasks[s.agents[a].tsk];
            && task.stack.Some? && task.area == task.stack && task.stack.value in s.live
            && Holds(s, task.stack.value, Hand(a)) && forall q :: Holds(s, task.stack.value, q) ==> q == Hand(a)
  {
    assert PcOk(s, s.agents[a]);
    Only(s, owner, s.tasks[s.agents[a].tsk].stack.value, Hand(a));
  }

  lemma CompareExchangeMoves(s: State, owner: map<nat, Place>, a: nat, cpu: nat)
    requires Inv(s, owner) && Enabled(s, CompareExchange(a, cpu))
    ensures var i, area := s.agents[a].slot, s.tasks[s.agents[a].tsk].area;
            var r := Apply(s, CompareExchange(a, cpu));
            && area.Some?
            && if s.cpus[cpu].slots[i].None? then Moves(s, r, area.value, Slot(cpu, i)) else Same(s, r)
  {
    FreeingHolds(s, owner, a);
    hide Inv;
    if s.cpus[cpu].slots[s.agents[a].slot].None? {
      CacheMoves(s, a, cpu);
    } else {
      CacheTaken(s, a, cpu);
    }
  }

  lemma CacheMoves(s: State, a: nat, cpu: nat)
    requires Enabled(s, CompareExchange(a, cpu)) && s.cpus[cpu].slots[s.agents[a].slot].None?
    requires var task := s.tasks[s.agents[a].tsk];
             && task.stack.Some? && task.area == task.stack && task.stack.value in s.live
             && Holds(s, task.stack.value, Hand(a)) && forall q :: Holds(s, task.stack.value, q) ==> q == Hand(a)
    ensures Moves(s, Apply(s, CompareExchange(a, cpu)), s.tasks[s.agents[a].tsk].area.value,
                  Slot(cpu, s.agents[a].slot))
  {
    var i, x := s.agents[a].slot, s.tasks[s.agents[a].tsk].stack.value;
    var r := Apply(s, CompareExchange(a, cpu));
    forall y, q
      ensures Holds(r, y, q) <==> if y == x then q == Slot(cpu, i) else Holds(s, y, q)
    {
      assert y == x && Holds(s, y, q) ==> q == Hand(a);
      match q
      case Slot(c, j) =>
      case Of(t) =>
      case Hand(b) =>
    }
  }

  lemma CacheTaken(s: State, a: nat, cpu: nat)
    requires Enabled(s, CompareExchange(a, cpu)) && s.cpus[cpu].slots[s.agents[a].slot].Some?
    ensures Same(s, Apply(s, CompareExchange(a, cpu)))
  {
    var r := Apply(s, CompareExchange(a, cpu));
    forall y, q
      ensures Holds(r, y, q) <==> Holds(s, y, q)
    {
      match q
      case Slot(c, j) =>
      case Of(t) =>
      case Hand(b) =>
    }
  }

  lemma VfreeDrops(s: State, owner: map<nat, Place>, a: nat)
    requires Inv(s, owner) && Enabled(s, Vfree(a))
    ensures Drops(s, Apply(s, Vfree(a)), s.tasks[s.agents[a].tsk].stack.value)
  {
    var x := s.tasks[s.agents[a].tsk].stack.value;
    var r := Apply(s, Vfree(a));
    assert Holds(s, x, Hand(a));
    Only(s, owner, x, Hand(a));
    forall y, q
      ensures Holds(r, y, q) <==> y != x && Holds(s, y, q)
    {
      assert y == x && Holds(s, y, q) ==> q == Hand(a);
      match q
      case Slot(c, j) =>
      case Of(t) =>
      case Hand(b) =>
    }
  }

  lemma PutMoves(s: State, owner: map<nat, Place>, a: nat, t: nat)
    requires Inv(s, owner) && Enabled(s, Put(a, t))
    ensures var r := Apply(s, Put(a, t));
            if Releases(s, t) then s.tasks[t].stack.Some? && Moves(s, r, s.tasks[t].stack.value, Hand(a))
            else Same(s, r)
  {
    assert PublishedOk(s, t);
    var r := Apply(s, Put(a, t));
    if Releases(s, t) {
      assert RunningOk(s, t);
      var x := s.tasks[t].stack.value;
      assert Holds(s, x, Of(t));
      Only(s, owner, x, Of(t));
      forall y, q
        ensures Holds(r, y, q) <==> if y == x then q == Hand(a) else Holds(s, y, q)
      {
        assert y == x && Holds(s, y, q) ==> q == Of(t);
        match q
        case Slot(c, j) =>
        case Of(u) =>
        case Hand(b) =>
      }
    } else {
      forall y, q
        ensures Holds(r, y, q) <==> Holds(s, y, q)
      {
        match q
        case Slot(c, j) =>
        case Of(u) =>
        case Hand(b) =>
      }
    }
  }

  lemma DrainDrops(s: State, owner: map<nat, Place>, cpu: nat)
    requires Inv(s, owner) && Enabled(s, DrainSlot(cpu))
    ensures var x := s.cpus[cpu].slots[s.cpus[cpu].mode.slot]; var r := Apply(s, DrainSlot(cpu));
            if x.Some? then Drops(s, r, x.value) else Same(s, r)
  {
    var i := s.cpus[cpu].mode.slot;
    var x := s.cpus[cpu].slots[i];
    var r := Apply(s, DrainSlot(cpu));
    if x.Some? {
      assert Holds(s, x.value, Slot(cpu, i));
      Only(s, owner, x.value, Slot(cpu, i));
    }
    forall y, q
      ensures Holds(r, y, q) <==> (x.Some? ==> y != x.value) && Holds(s, y, q)
    {
      assert x.Some? && y == x.value && Holds(s, y, q) ==> q == Slot(cpu, i);
      match q
      case Slot(c, j) =>
      case Of(t) =>
      case Hand(b) =>
    }
  }

  lemma QuietSame(s: State, step: Step)
    requires Tidy(s) && Enabled(s, step)
    requires step.Die? || step.Get? || step.TakeDown? || step.ClearSlot? || step.BringUp?
    ensures Same(s, Apply(s, step))
  {
    var r := Apply(s, step);
    forall y, q
      ensures Holds(r, y, q) <==> Holds(s, y, q)
    {
      match q
      case Slot(c, j) =>
      case Of(t) =>
      case Hand(b) =>
    }
  }

  lemma OwnedAfter(s: State, r: State, owner: map<nat, Place>, x: nat, p: Place)
    requires Owned(s, owner)
    ensures Same(s, r) ==> Owned(r, owner)
    ensures Moves(s, r, x, p) ==> Owned(r, owner[x := p])
    ensures Drops(s, r, x) ==> Owned(r, owner - {x})
  {
    hide Holds;
  }

  lemma OwnedKept(s: State, owner: map<nat, Place>, step: Step)
    requires Inv(s, owner) && Enabled(s, step)
    ensures Owned(Apply(s, step), Pass(s, owner, step))
  {
    hide Tidy, Owned, Same, Moves, Drops, Apply;
    var r := Apply(s, step);
    match step
    case Exchange(a, cpu) =>
      ExchangeMoves(s, owner, a, cpu);
      var got := s.cpus[cpu].slots[s.agents[a].slot];
      OwnedAfter(s, r, owner, if got.Some? then got.value else 0, Hand(a));
    case Vmalloc(a, x) =>
      VmallocMoves(s, owner, a, x);
      OwnedAfter(s, r, owner, if x.Some? then x.value else 0, Hand(a));
    case Publish(a) =>
      PublishMoves(s, owner, a);
      OwnedAfter(s, r, owner, s.agents[a].stack, Of(s.agents[a].tsk));
    case CompareExchange(a, cpu) =>
      CompareExchangeMoves(s, owner, a, cpu);
      OwnedAfter(s, r, owner, s.tasks[s.agents[a].tsk].area.value, Slot(cpu, s.agents[a].slot));
    case Vfree(a) =>
      VfreeDrops(s, owner, a);
      OwnedAfter(s, r, owner, s.tasks[s.agents[a].tsk].stack.value, Hand(a));
    case Put(a, t) =>
      PutMoves(s, owner, a, t);
      OwnedAfter(s, r, owner, if Releases(s, t) then s.tasks[t].stack.value else 0, Hand(a));
    case DrainSlot(cpu) =>
      DrainDrops(s, owner, cpu);
      var x := s.cpus[cpu].slots[s.cpus[cpu].mode.slot];
      OwnedAfter(s, r, owner, if x.Some? then x.value else 0, Slot(cpu, 0));
    case StartDup(_, _, _, _) => BoundarySame(s, step); OwnedAfter(s, r, owner, 0, Hand(0));
    case Store(_) => BuildSame(s, step); OwnedAfter(s, r, owner, 0, Hand(0));
    case Charge(_, _) => BuildSame(s, step); OwnedAfter(s, r, owner, 0, Hand(0));
    case Copy(_, _, _) => BuildSame(s, step); OwnedAfter(s, r, owner, 0, Hand(0));
    case Restore(_) => BuildSame(s, step); OwnedAfter(s, r, owner, 0, Hand(0));
    case Forget(_) => BoundarySame(s, step); OwnedAfter(s, r, owner, 0, Hand(0));
    case _ => QuietSame(s, step); OwnedAfter(s, r, owner, 0, Hand(0));
  }

  // ---------- whole runs ----------

  /** The states a run passes through, if each of its steps is possible where it is taken. */
  ghost predicate Possible(s: State, run: seq<Step>)
    decreases |run|
  {
    run == [] || (Enabled(s, run[0]) && Possible(Apply(s, run[0]), run[1..]))
  }

  ghost function After(s: State, run: seq<Step>): (r: State)
    requires Possible(s, run)
    decreases |run|
  {
    if run == [] then s else After(Apply(s, run[0]), run[1..])
  }

  /** Some tasks with a stack of their own, empty caches, nothing under way. */
  ghost predicate Initial(s: State)
  {
    && s.live == (set t | t in s.running && t in s.tasks && s.tasks[t].stack.Some? :: s.tasks[t].stack.value)
    && s.published == s.running && (forall t :: t in s.running ==> RunningOk(s, t))
    && (forall t, u :: t in s.running && u in s.running && t in s.tasks && u in s.tasks && t != u ==>
          s.tasks[t].stack != s.tasks[u].stack)
    && (forall c :: 0 <= c < |s.cpus| ==> s.cpus[c] == Cpu([None, None], Online))
    && (forall a :: 0 <= a < |s.agents| ==> s.agents[a].Idle?)
  }

  lemma InitialInv(s: State) returns (owner: map<nat, Place>)
    requires Initial(s)
    ensures Inv(s, owner)
  {
    var holder := (x: nat) requires x in s.live =>
      var t :| t in s.running && t in s.tasks && s.tasks[t].stack == Some(x); t;
    owner := map x | x in s.live :: Of(holder(x));
    forall x, p | Holds(s, x, p)
      ensures x in owner && owner[x] == p
    {
      match p
      case Slot(c, i) =>
      case Of(t) => assert x in s.live;
      case Hand(a) =>
    }
  }

  ghost predicate Sound(s: State)
  {
    && (forall x :: x in s.live ==> exists p :: Holds(s, x, p))
    && (forall x, p :: Holds(s, x, p) ==> x in s.live)
    && (forall x, p, q :: Holds(s, x, p) && Holds(s, x, q) ==> p == q)
  }

  lemma InvSound(s: State, owner: map<nat, Place>)
    requires Inv(s, owner)
    ensures Sound(s)
  {
    hide Holds, Tidy;
  }

  lemma {:induction false} RunInv(s: State, owner: map<nat, Place>, run: seq<Step>) returns (owner': map<nat, Place>)
    requires Inv(s, owner) && Possible(s, run)
    ensures Inv(After(s, run), owner')
    decreases |run|
  {
    hide Tidy, Owned, Apply, Enabled;
    owner' := owner;
    if run != [] {
      TidyKept(s, run[0]);
      OwnedKept(s, owner, run[0]);
      owner' := RunInv(Apply(s, run[0]), Pass(s, owner, run[0]), run[1..]);
    }
  }

  /** In every state of every run each live stack has exactly one holder, and no dead one has any. */
  lemma OneHolder(s: State, run: seq<Step>)
    requires Initial(s) && Possible(s, run)
    ensures Sound(After(s, run))
  {
    hide Initial, Possible;
    var owner := InitialInv(s);
    owner := RunInv(s, owner, run);
    InvSound(After(s, run), owner);
  }

  /** What an operation that is under way does next, on the CPU it happens to be on. */
  function NextStep(s: State, a: nat, cpu: nat): (step: Step)
    requires a < |s.agents| && !s.agents[a].Idle?
  {
    match s.agents[a]
    case Allocating(_, _, slot) => if slot < NR_CACHED_STACKS then Exchange(a, cpu) else Vmalloc(a, None)
    case Taken(_, _, _) => Store(a)
    case Charging(_, _, _) => Charge(a, true)
    case Copying(_, _, _, _) => Copy(a, true, false)
    case Restoring(_, _, _, _) => Restore(a)
    case Ready(_, _) => Publish(a)
    case Freeing(_, slot, _) => if slot < NR_CACHED_STACKS then CompareExchange(a, cpu) else Vfree(a)
    case Released(_, _) => Forget(a)
  }

  /** No run reaches a point where an operation meets a missing task, a missing stack or a slot out of range. */
  lemma NoneStuck(s: State, run: seq<Step>, a: nat, cpu: nat)
    requires Initial(s) && Possible(s, run)
    ensures var m := After(s, run);
            a < |m.agents| && !m.agents[a].Idle? && cpu < |m.cpus| && m.cpus[cpu].mode.Online? ==>
              Enabled(m, NextStep(m, a, cpu))
  {
    var owner := InitialInv(s);
    owner := RunInv(s, owner, run);
    hide Initial, Possible, After, Owned;
    var m := After(s, run);
    if a < |m.agents| && !m.agents[a].Idle? && cpu < |m.cpus| && m.cpus[cpu].mode.Online? {
      assert PcOk(m, m.agents[a]) && CpuOk(m.cpus[cpu]);
    }
  }

  /** Whoever drops the last reference to a dead task finds it with its stack, and nobody else working on it. */
  lemma ReleasedOnce(s: State, run: seq<Step>, t: nat)
    requires Initial(s) && Possible(s, run)
    ensures var m := After(s, run);
            t in m.published && Releases(m, t) ==>
              && t in m.running && m.tasks[t].stack.Some?
              && forall a :: 0 <= a < |m.agents| && !m.agents[a].Idle? ==> m.agents[a].tsk != t
  {
    var owner := InitialInv(s);
    owner := RunInv(s, owner, run);
    hide Initial, Possible, After, Owned;
    var m := After(s, run);
    if t in m.published && Releases(m, t) {
      assert PublishedOk(m, t) && RunningOk(m, t);
      assert forall a :: 0 <= a < |m.agents| ==> PcOk(m, m.agents[a]);
    }
  }

  /** The stack a step gives back to the page allocator. */
  function Frees(s: State, step: Step): (x: Option<nat>)
    requires Enabled(s, step)
  {
    match step
    case Vfree(a) => s.tasks[s.agents[a].tsk].stack
    case DrainSlot(cpu) => s.cpus[cpu].slots[s.cpus[cpu].mode.slot]
    case _ => None
  }

  /**
   Whatever happened before, a step that frees a stack frees a live one, once, and never the stack of a
   running task; and no step writes to the stack fields of a running task.
   */
  lemma FreesAreSafe(s: State, run: seq<Step>, step: Step)
    requires Initial(s) && Possible(s, run) && Enabled(After(s, run), step)
    ensures var m := After(s, run); var x := Frees(m, step);
            && (x.Some? ==> x.value in m.live && Apply(m, step).live == m.live - {x.value})
            && (x.Some? ==> forall t :: t in m.running && t in m.tasks ==> m.tasks[t].stack != x)
            && forall t :: t in m.running ==>
                 t in m.tasks && t in Apply(m, step).tasks && Apply(m, step).tasks[t].stack == m.tasks[t].stack
                 && Apply(m, step).tasks[t].area == m.tasks[t].area
  {
    var owner := InitialInv(s);
    owner := RunInv(s, owner, run);
    hide Initial, Possible, After;
    FreeIsSafe(After(s, run), owner, step);
  }

  lemma FreeIsSafe(m: State, owner: map<nat, Place>, step: Step)
    requires Inv(m, owner) && Enabled(m, step)
    ensures var x := Frees(m, step);
            && (x.Some? ==> x.value in m.live && Apply(m, step).live == m.live - {x.value})
            && (x.Some? ==> forall t :: t in m.running && t in m.tasks ==> m.tasks[t].stack != x)
    ensures forall t :: t in m.running ==>
              t in m.tasks && t in Apply(m, step).tasks && Apply(m, step).tasks[t].stack == m.tasks[t].stack
              && Apply(m, step).tasks[t].area == m.tasks[t].area
  {
    if step.Vfree? {
      var x := Frees(m, step).value;
      assert Holds(m, x, Hand(step.a));
      Only(m, owner, x, Hand(step.a));
      assert forall t :: t in m.running && t in m.tasks && m.tasks[t].stack == Some(x) ==> Holds(m, x, Of(t));
    } else if step.DrainSlot? && Frees(m, step).Some? {
      var x := Frees(m, step).value;
      var p := Slot(step.cpu, m.cpus[step.cpu].mode.slot);
      assert Holds(m, x, p);
      Only(m, owner, x, p);
      assert forall t :: t in m.running && t in m.tasks && m.tasks[t].stack == Some(x) ==> Holds(m, x, Of(t));
    }
    RunningUntouched(m, step);
  }

  lemma RunningUntouched(m: State, step: Step)
    requires Tidy(m) && Enabled(m, step)
    ensures forall t :: t in m.running ==>
              t in m.tasks && t in Apply(m, step).tasks && Apply(m, step).tasks[t].stack == m.tasks[t].stack
              && Apply(m, step).tasks[t].area == m.tasks[t].area
  {
    forall t | t in m.running
      ensures t in m.tasks && t in Apply(m, step).tasks && Apply(m, step).tasks[t].stack == m.tasks[t].stack
      ensures Apply(m, step).tasks[t].area == m.tasks[t].area
    {
      assert RunningOk(m, t);
      if step.Store? || step.Copy? || step.Restore? || step.Forget? {
        assert PcOk(m, m.agents[step.a]);
      }
    }
  }
}
