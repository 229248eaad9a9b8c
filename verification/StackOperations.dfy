/**
 What one operation does when nothing interferes on its CPU: an allocation takes the first cached stack, a stack
 that is freed goes to the first empty slot, and `dup_task_struct` publishes a task with its own stack or gives
 everything back; and a CPU that comes up again has an empty cache.
 */
module StackOperations {
  import opened Basics
  import opened ThreadStacks

  type Slots = seq<Option<nat>>

  lemma RunCons(m: State, step: Step, rest: seq<Step>)
    requires Enabled(m, step) && Possible(Apply(m, step), rest)
    ensures Possible(m, [step] + rest) && After(m, [step] + rest) == After(Apply(m, step), rest)
  {
    assert ([step] + rest)[1..] == rest;
    hide Apply, Enabled;
  }

  lemma RunNone(m: State)
    ensures Possible(m, []) && After(m, []) == m
  {
  }

  // ---------- allocation ----------

  /** The place of the first cached stack, or the number of slots. */
  function FirstCached(slots: Slots): (i: nat)
    requires |slots| == NR_CACHED_STACKS
    ensures i <= NR_CACHED_STACKS && (i < NR_CACHED_STACKS ==> slots[i].Some?)
    ensures forall j :: 0 <= j < i ==> slots[j].None?
  {
    if slots[0].Some? then 0 else if slots[1].Some? then 1 else 2
  }

  /** The place of the first empty slot, or the number of slots. */
  function FirstEmpty(slots: Slots): (i: nat)
    requires |slots| == NR_CACHED_STACKS
    ensures i <= NR_CACHED_STACKS && (i < NR_CACHED_STACKS ==> slots[i].None?)
    ensures forall j :: 0 <= j < i ==> slots[j].Some?
  {
    if slots[0].None? then 0 else if slots[1].None? then 1 else 2
  }

  /** The run repeats one step. */
  ghost predicate Repeats(run: seq<Step>, step: Step)
  {
    forall i :: 0 <= i < |run| ==> run[i] == step
  }

  lemma SetPcTwice(m: State, a: nat, p: Pc, q: Pc)
    requires a < |m.agents|
    ensures SetPc(SetPc(m, a, p), a, q) == SetPc(m, a, q)
  {
    assert m.agents[a := p][a := q] == m.agents[a := q];
  }

  ghost predicate Scanning(m: State, a: nat, cpu: nat, i: nat)
  {
    && OnlineCpu(m, cpu) && a < |m.agents| && m.agents[a].Allocating? && m.agents[a].slot == i <= NR_CACHED_STACKS
    && forall j :: 0 <= j < i ==> m.cpus[cpu].slots[j].None?
  }

  lemma ExchangeEmpty(m: State, a: nat, cpu: nat, i: nat)
    requires Scanning(m, a, cpu, i) && i < NR_CACHED_STACKS && m.cpus[cpu].slots[i].None?
    ensures Enabled(m, Exchange(a, cpu))
    ensures Scanning(Apply(m, Exchange(a, cpu)), a, cpu, i + 1)
    ensures Apply(m, Exchange(a, cpu)) == SetPc(m, a, Allocating(m.agents[a].tsk, m.agents[a].orig, i + 1))
  {
    assert m.cpus[cpu].slots[i := None] == m.cpus[cpu].slots;
    assert m.cpus[cpu := m.cpus[cpu]] == m.cpus;
  }

  lemma ExchangeFull(m: State, a: nat, cpu: nat, i: nat)
    requires Scanning(m, a, cpu, i) && i < NR_CACHED_STACKS && m.cpus[cpu].slots[i].Some?
    ensures Enabled(m, Exchange(a, cpu))
    ensures Apply(m, Exchange(a, cpu))
            == SetPc(SetSlot(m, cpu, i, None), a, Taken(m.agents[a].tsk, m.agents[a].orig, m.cpus[cpu].slots[i].value))
  {
  }

  /** The scan of the cache: the first cached stack is taken; if there is none the cache is left as it was. */
  lemma {:induction false} ScanCache(m: State, a: nat, cpu: nat, i: nat) returns (run: seq<Step>)
    requires Scanning(m, a, cpu, i)
    ensures Repeats(run, Exchange(a, cpu)) && Possible(m, run)
    ensures var k, pc := FirstCached(m.cpus[cpu].slots), m.agents[a];
            After(m, run)
            == if k == NR_CACHED_STACKS then SetPc(m, a, Allocating(pc.tsk, pc.orig, NR_CACHED_STACKS))
               else SetPc(SetSlot(m, cpu, k, None), a, Taken(pc.tsk, pc.orig, m.cpus[cpu].slots[k].value))
    decreases NR_CACHED_STACKS - i
  {
    var k, pc := FirstCached(m.cpus[cpu].slots), m.agents[a];
    if i == NR_CACHED_STACKS {
      run := [];
      assert m.agents[a := pc] == m.agents;
    } else if m.cpus[cpu].slots[i].Some? {
      ExchangeFull(m, a, cpu, i);
      run := [Exchange(a, cpu)] + [];
      RunNone(Apply(m, Exchange(a, cpu)));
      RunCons(m, Exchange(a, cpu), []);
    } else {
      ExchangeEmpty(m, a, cpu, i);
      var next := Apply(m, Exchange(a, cpu));
      hide Apply, Enabled, Possible, After;
      var rest := ScanCache(next, a, cpu, i + 1);
      RunCons(m, Exchange(a, cpu), rest);
      run := [Exchange(a, cpu)] + rest;
      SetPcTwice(m, a, next.agents[a], Allocating(pc.tsk, pc.orig, NR_CACHED_STACKS));
      if k < NR_CACHED_STACKS {
        SetPcTwice(SetSlot(m, cpu, k, None), a, next.agents[a], Taken(pc.tsk, pc.orig, m.cpus[cpu].slots[k].value));
      }
    }
  }

  /** An allocation begins with the first slot. */
  lemma StartScans(m: State, a: nat, cpu: nat, orig: nat, tsk: nat, garbage: Task)
    requires Enabled(m, StartDup(a, orig, tsk, garbage)) && OnlineCpu(m, cpu)
    ensures var r := Apply(m, StartDup(a, orig, tsk, garbage));
            Scanning(r, a, cpu, 0) && r == SetPc(SetTask(m, tsk, garbage), a, Allocating(tsk, orig, 0))
  {
  }

  /**
   A new task gets the first stack cached on its CPU, and only if there is none a new one from the page allocator;
   where that fails too it gets none.
   */
  lemma Allocates(m: State, a: nat, cpu: nat, orig: nat, tsk: nat, garbage: Task) returns (run: seq<Step>)
    requires Enabled(m, StartDup(a, orig, tsk, garbage)) && OnlineCpu(m, cpu)
    ensures Repeats(run, Exchange(a, cpu)) && Possible(m, [StartDup(a, orig, tsk, garbage)] + run)
    ensures var r, slots := After(m, [StartDup(a, orig, tsk, garbage)] + run), m.cpus[cpu].slots;
            var k, m0 := FirstCached(slots), SetTask(m, tsk, garbage);
            && (k < NR_CACHED_STACKS ==> r == SetPc(SetSlot(m0, cpu, k, None), a, Taken(tsk, orig, slots[k].value)))
            && (k == NR_CACHED_STACKS ==> r == SetPc(m0, a, Allocating(tsk, orig, NR_CACHED_STACKS)))
  {
    StartScans(m, a, cpu, orig, tsk, garbage);
    var step := StartDup(a, orig, tsk, garbage);
    var s1 := Apply(m, step);
    hide Apply, Enabled, Possible, After, Repeats;
    run := ScanCache(s1, a, cpu, 0);
    RunCons(m, step, run);
    var m0, k := SetTask(m, tsk, garbage), FirstCached(m.cpus[cpu].slots);
    SetPcTwice(m0, a, s1.agents[a], Allocating(tsk, orig, NR_CACHED_STACKS));
    if k < NR_CACHED_STACKS {
      SetPcTwice(SetSlot(m0, cpu, k, None), a, s1.agents[a], Taken(tsk, orig, m.cpus[cpu].slots[k].value));
    }
  }

  /** The page allocator, asked only after the whole cache. */
  lemma AllocatesNew(m: State, a: nat, x: Option<nat>)
    requires a < |m.agents| && m.agents[a].Allocating? && (x.Some? ==> x.value !in m.live)
    ensures Enabled(m, Vmalloc(a, x)) <==> m.agents[a].slot == NR_CACHED_STACKS
    ensures Enabled(m, Vmalloc(a, x)) ==>
              var r, pc := Apply(m, Vmalloc(a, x)), m.agents[a];
              && r.agents[a] == (if x.Some? then Taken(pc.tsk, pc.orig, x.value) else Released(pc.tsk, true))
              && r.live == m.live + (if x.Some? then {x.value} else {})
              && r.cpus == m.cpus && r.tasks == m.tasks
  {
  }

  // ---------- freeing ----------

  ghost predicate Returning(m: State, a: nat, cpu: nat, i: nat, t: nat, unborn: bool, x: nat)
  {
    && OnlineCpu(m, cpu) && a < |m.agents| && m.agents[a] == Freeing(t, i, unborn) && i <= NR_CACHED_STACKS
    && t in m.tasks && m.tasks[t].stack == m.tasks[t].area == Some(x)
    && forall j :: 0 <= j < i ==> m.cpus[cpu].slots[j].Some?
  }

  lemma CompareFull(m: State, a: nat, cpu: nat, i: nat, t: nat, unborn: bool, x: nat)
    requires Returning(m, a, cpu, i, t, unborn, x) && i < NR_CACHED_STACKS && m.cpus[cpu].slots[i].Some?
    ensures Enabled(m, CompareExchange(a, cpu))
    ensures Returning(Apply(m, CompareExchange(a, cpu)), a, cpu, i + 1, t, unborn, x)
    ensures Apply(m, CompareExchange(a, cpu)) == SetPc(m, a, Freeing(t, i + 1, unborn))
  {
  }

  lemma CompareEmpty(m: State, a: nat, cpu: nat, i: nat, t: nat, unborn: bool, x: nat)
    requires Returning(m, a, cpu, i, t, unborn, x) && i < NR_CACHED_STACKS && m.cpus[cpu].slots[i].None?
    ensures Enabled(m, CompareExchange(a, cpu))
    ensures Apply(m, CompareExchange(a, cpu)) == SetPc(SetSlot(m, cpu, i, Some(x)), a, Released(t, unborn))
  {
  }

  lemma ReturnsNowhere(m: State, a: nat, cpu: nat, t: nat, unborn: bool, x: nat)
    requires Returning(m, a, cpu, NR_CACHED_STACKS, t, unborn, x)
    ensures Enabled(m, Vfree(a)) && Apply(m, Vfree(a)) == SetPc(m.(live := m.live - {x}), a, Released(t, unborn))
  {
  }

  /** The state in which the stack `x` has been put away. */
  function PutAway(m: State, cpu: nat, x: nat): (r: State)
    requires cpu < |m.cpus| && |m.cpus[cpu].slots| == NR_CACHED_STACKS
    ensures r.agents == m.agents && r.tasks == m.tasks
  {
    var k := FirstEmpty(m.cpus[cpu].slots);
    if k == NR_CACHED_STACKS then m.(live := m.live - {x}) else SetSlot(m, cpu, k, Some(x))
  }

  /** A freed stack goes to the first empty slot of its CPU, and only if there is none back to the page allocator. */
  lemma {:induction false} Returns(m: State, a: nat, cpu: nat, i: nat, t: nat, unborn: bool, x: nat)
    returns (run: seq<Step>)
    requires Returning(m, a, cpu, i, t, unborn, x)
    ensures forall j :: 0 <= j < |run| ==> run[j] == CompareExchange(a, cpu) || run[j] == Vfree(a)
    ensures Possible(m, run) && After(m, run) == SetPc(PutAway(m, cpu, x), a, Released(t, unborn))
    decreases NR_CACHED_STACKS - i
  {
    var step := if i == NR_CACHED_STACKS then Vfree(a) else CompareExchange(a, cpu);
    var rest: seq<Step> := [];
    if i == NR_CACHED_STACKS {
      ReturnsNowhere(m, a, cpu, t, unborn, x);
      RunNone(Apply(m, step));
    } else if m.cpus[cpu].slots[i].None? {
      CompareEmpty(m, a, cpu, i, t, unborn, x);
      RunNone(Apply(m, step));
    } else {
      CompareFull(m, a, cpu, i, t, unborn, x);
      var next := Apply(m, step);
      hide Apply, Enabled, Possible, After;
      rest := Returns(next, a, cpu, i + 1, t, unborn, x);
      SetPcTwice(PutAway(m, cpu, x), a, next.agents[a], Released(t, unborn));
    }
    hide Apply, Enabled, Possible, After;
    RunCons(m, step, rest);
    run := [step] + rest;
  }

  /** At the end a task that was never published is gone, and one that was has no stack any more. */
  lemma Forgets(m: State, a: nat, t: nat, unborn: bool)
    requires a < |m.agents| && m.agents[a] == Released(t, unborn) && t in m.tasks
    ensures Enabled(m, Forget(a))
    ensures var r := Apply(m, Forget(a));
            && r.agents[a].Idle? && r.cpus == m.cpus && r.live == m.live
            && (forall u :: u in m.tasks && u != t ==> u in r.tasks && r.tasks[u] == m.tasks[u])
            && if unborn then t !in r.tasks else t in r.tasks && r.tasks[t].stack.None? && r.tasks[t].area.None?
  {
  }

  // ---------- dup_task_struct ----------

  /** From the stack in hand to the published task: it has that stack and one reference, and is alive. */
  lemma Duplicates(m: State, a: nat)
    requires Tidy(m) && a < |m.agents| && m.agents[a].Taken?
    ensures var run := [Store(a), Charge(a, true), Copy(a, true, false), Restore(a), Publish(a)];
            && Possible(m, run)
            && var r, t, x := After(m, run), m.agents[a].tsk, m.agents[a].got;
            && t in r.tasks && r.tasks[t] == Task(Some(x), Some(x), false, 1)
            && t in r.published && t in r.running && a < |r.agents| && r.agents[a].Idle?
            && r.cpus == m.cpus && r.live == m.live
  {
    assert PcOk(m, m.agents[a]);
    var t, orig, x := m.agents[a].tsk, m.agents[a].orig, m.agents[a].got;
    hide Possible, After, Tidy;
    var s1 := Apply(m, Store(a));
    var s2 := Apply(s1, Charge(a, true));
    var s3 := Apply(s2, Copy(a, true, false));
    var s4 := Apply(s3, Restore(a));
    var s5 := Apply(s4, Publish(a));
    RunNone(s5);
    RunCons(s4, Publish(a), []);
    RunCons(s3, Restore(a), [Publish(a)]);
    RunCons(s2, Copy(a, true, false), [Restore(a), Publish(a)]);
    RunCons(s1, Charge(a, true), [Copy(a, true, false), Restore(a), Publish(a)]);
    RunCons(m, Store(a), [Charge(a, true), Copy(a, true, false), Restore(a), Publish(a)]);
  }

  /** Where the charge or the copy fails, the very stack that was allocated is freed, from the first slot on. */
  lemma GivesUp(m: State, a: nat, cpu: nat, charged: bool, copied: bool)
    requires Tidy(m) && a < |m.agents| && m.agents[a].Taken? && OnlineCpu(m, cpu)
    ensures var run := [Store(a), Charge(a, charged)] + if charged then [Copy(a, copied, true), Restore(a)] else [];
            && Possible(m, run)
            && Returning(After(m, run), a, cpu, 0, m.agents[a].tsk, true, m.agents[a].got)
            && After(m, run).cpus == m.cpus && After(m, run).live == m.live
  {
    assert PcOk(m, m.agents[a]);
    hide Possible, After, Tidy;
    var s1 := Apply(m, Store(a));
    var s2 := Apply(s1, Charge(a, charged));
    RunNone(s2);
    var rest: seq<Step> := [];
    if charged {
      var s3 := Apply(s2, Copy(a, copied, true));
      var s4 := Apply(s3, Restore(a));
      RunNone(s4);
      RunCons(s3, Restore(a), []);
      RunCons(s2, Copy(a, copied, true), [Restore(a)]);
      rest := [Copy(a, copied, true), Restore(a)];
      assert [Copy(a, copied, true)] + [Restore(a)] == rest;
    }
    RunCons(s1, Charge(a, charged), rest);
    RunCons(m, Store(a), [Charge(a, charged)] + rest);
    assert [Store(a)] + ([Charge(a, charged)] + rest) == [Store(a), Charge(a, charged)] + rest;
  }

  // ---------- a CPU that goes down ----------

  /** In every run a CPU that comes up again has an empty cache. */
  lemma ComesUpEmpty(s: State, run: seq<Step>, cpu: nat)
    requires Initial(s) && Possible(s, run)
    ensures var m := After(s, run);
            Enabled(m, BringUp(cpu)) ==> m.cpus[cpu].slots == [None, None]
  {
    var owner := InitialInv(s);
    owner := RunInv(s, owner, run);
    hide Initial, Possible, After, Owned;
    var m := After(s, run);
    if Enabled(m, BringUp(cpu)) {
      assert CpuOk(m.cpus[cpu]);
    }
  }
}
