/**
 The reference count of a stack over whole runs: from the publication of its task on it is one plus the references
 taken minus those dropped, and the stack of a dead task is released by exactly the step that drops the last.
 */
module StackRefs {
  import opened Basics
  import opened ThreadStacks

  // ---------- counting over the steps alone ----------

  predicate IsGet(step: Step, t: nat)
  {
    step == Get(t)
  }

  predicate IsPut(step: Step, t: nat)
  {
    step.Put? && step.t == t
  }

  function Gets(run: seq<Step>, t: nat): (n: nat)
    decreases |run|
  {
    if run == [] then 0 else (if IsGet(run[0], t) then 1 else 0) + Gets(run[1..], t)
  }

  function Puts(run: seq<Step>, t: nat): (n: nat)
    decreases |run|
  {
    if run == [] then 0 else (if IsPut(run[0], t) then 1 else 0) + Puts(run[1..], t)
  }

  /** From a count of `b`; a count that has reached zero stays there. */
  function Balance(b: nat, run: seq<Step>, t: nat): (n: nat)
    decreases |run|
  {
    if run == [] then b else Balance(Next(b, run[0], t), run[1..], t)
  }

  function Next(b: nat, step: Step, t: nat): (n: nat)
  {
    if b > 0 && IsGet(step, t) then b + 1 else if b > 0 && IsPut(step, t) then b - 1 else b
  }

  lemma {:induction false} ZeroStays(run: seq<Step>, t: nat)
    ensures Balance(0, run, t) == 0
    decreases |run|
  {
    if run != [] {
      ZeroStays(run[1..], t);
    }
  }

  /** While it is positive the count is what was taken less what was given back. */
  lemma {:induction false} BalanceCounts(b: nat, run: seq<Step>, t: nat)
    ensures Balance(b, run, t) > 0 ==> Balance(b, run, t) == b + Gets(run, t) - Puts(run, t)
    decreases |run|
  {
    if run != [] {
      if Next(b, run[0], t) == 0 {
        ZeroStays(run[1..], t);
      } else {
        BalanceCounts(Next(b, run[0], t), run[1..], t);
      }
    }
  }

  /** Step `k` gives back the last reference. */
  ghost predicate LastGiven(b: nat, run: seq<Step>, t: nat, k: nat)
  {
    k < |run| && IsPut(run[k], t) && Balance(b, run[..k], t) == 1
  }

  ghost predicate Died(run: seq<Step>, t: nat)
  {
    Die(t) in run
  }

  lemma PrefixCons(run: seq<Step>, k: nat)
    requires 0 < k <= |run|
    ensures run[..k][0] == run[0] && run[..k][1..] == run[1..][..k - 1]
  {
  }

  lemma BalanceStep(b: nat, run: seq<Step>, t: nat, k: nat)
    requires 0 < k <= |run|
    ensures Balance(b, run[..k], t) == Balance(Next(b, run[0], t), run[1..][..k - 1], t)
  {
    PrefixCons(run, k);
  }

  /** The count is zero exactly when a last reference was given back, by one step. */
  lemma {:induction false} ZeroIffLastGiven(b: nat, run: seq<Step>, t: nat) returns (last: nat)
    requires b > 0
    ensures Balance(b, run, t) == 0 <==> LastGiven(b, run, t, last)
    ensures forall k :: LastGiven(b, run, t, k) ==> k == last
    decreases |run|
  {
    last := 0;
    if run != [] {
      var b1, rest := Next(b, run[0], t), run[1..];
      forall k | 0 < k <= |run|
        ensures Balance(b, run[..k], t) == Balance(b1, rest[..k - 1], t)
      {
        BalanceStep(b, run, t, k);
      }
      assert run[..0] == [] && forall k :: 0 < k < |run| ==> run[k] == rest[k - 1];
      if b1 == 0 {
        ZeroAfter(b, run, t);
      } else {
        var l := ZeroIffLastGiven(b1, rest, t);
        last := l + 1;
        LastShift(b, run, t, b1, l);
      }
    }
  }

  lemma ZeroAfter(b: nat, run: seq<Step>, t: nat)
    requires b > 0 && run != [] && Next(b, run[0], t) == 0
    ensures Balance(b, run, t) == 0 && LastGiven(b, run, t, 0)
    ensures forall k :: LastGiven(b, run, t, k) ==> k == 0
  {
    ZeroStays(run[1..], t);
    forall k | 0 < k < |run|
      ensures Balance(b, run[..k], t) == 0
    {
      BalanceStep(b, run, t, k);
      ZeroStays(run[1..][..k - 1], t);
    }
  }

  lemma LastShift(b: nat, run: seq<Step>, t: nat, b1: nat, l: nat)
    requires b > 0 && run != [] && b1 == Next(b, run[0], t) > 0
    requires forall k :: LastGiven(b1, run[1..], t, k) ==> k == l
    requires Balance(b1, run[1..], t) == 0 <==> LastGiven(b1, run[1..], t, l)
    ensures Balance(b, run, t) == 0 <==> LastGiven(b, run, t, l + 1)
    ensures forall k :: LastGiven(b, run, t, k) ==> k == l + 1
  {
    forall k | 0 < k < |run|
      ensures LastGiven(b, run, t, k) <==> LastGiven(b1, run[1..], t, k - 1)
    {
      BalanceStep(b, run, t, k);
    }
    assert !LastGiven(b, run, t, 0);
  }

  // ---------- the count of a task ----------

  ghost predicate Quiet(step: Step)
  {
    || step.Exchange? || step.Vmalloc? || step.Charge? || step.CompareExchange? || step.Vfree? || step.Publish?
    || step.TakeDown? || step.DrainSlot? || step.ClearSlot? || step.BringUp?
  }

  lemma QuietTasks(m: State, step: Step)
    requires Enabled(m, step) && Quiet(step)
    ensures Apply(m, step).tasks == m.tasks && m.published <= Apply(m, step).published
  {
  }

  /** Steps that build or give up a task do not touch those that others know. */
  lemma OwnTasks(m: State, step: Step, t: nat)
    requires Tidy(m) && Enabled(m, step) && t in m.published
    requires step.StartDup? || step.Store? || step.Copy? || step.Restore?
    ensures t in m.tasks && t in Apply(m, step).tasks && Apply(m, step).tasks[t] == m.tasks[t]
    ensures Apply(m, step).published == m.published
  {
    assert PublishedOk(m, t);
    assert PcOk(m, m.agents[step.a]);
  }

  lemma ForgetTasks(m: State, a: nat, t: nat)
    requires Tidy(m) && Enabled(m, Forget(a)) && t in m.published
    ensures t in m.tasks && t in Apply(m, Forget(a)).tasks && Apply(m, Forget(a)).published == m.published
    ensures Apply(m, Forget(a)).tasks[t].refs == m.tasks[t].refs
    ensures Apply(m, Forget(a)).tasks[t].dead == m.tasks[t].dead
  {
    assert PublishedOk(m, t);
    assert PcOk(m, m.agents[a]);
  }

  lemma CountTasks(m: State, step: Step, t: nat)
    requires Enabled(m, step) && t in m.published && t in m.tasks && (step.Die? || step.Get? || step.Put?)
    ensures t in Apply(m, step).published && t in Apply(m, step).tasks
    ensures Apply(m, step).tasks[t].refs == Next(m.tasks[t].refs, step, t)
    ensures Apply(m, step).tasks[t].dead == (m.tasks[t].dead || step == Die(t))
  {
  }

  /** What a step does to a task that others know: only `Get`, `Put` and `Die` on it matter. */
  lemma StepRefs(m: State, step: Step, t: nat)
    requires Tidy(m) && Enabled(m, step) && t in m.published
    ensures t in m.tasks && t in Apply(m, step).published && t in Apply(m, step).tasks
    ensures Apply(m, step).tasks[t].refs == Next(m.tasks[t].refs, step, t)
    ensures Apply(m, step).tasks[t].dead == (m.tasks[t].dead || step == Die(t))
  {
    assert PublishedOk(m, t);
    hide Tidy, Apply, Enabled;
    if Quiet(step) {
      QuietTasks(m, step);
    } else if step.Forget? {
      ForgetTasks(m, step.a, t);
    } else if step.Die? || step.Get? || step.Put? {
      CountTasks(m, step, t);
    } else {
      OwnTasks(m, step, t);
    }
  }

  lemma {:induction false} RunRefs(m: State, run: seq<Step>, t: nat)
    requires Tidy(m) && t in m.published && Possible(m, run)
    ensures var r := After(m, run);
            && Tidy(r) && t in m.tasks && t in r.published && t in r.tasks
            && r.tasks[t].refs == Balance(m.tasks[t].refs, run, t)
            && r.tasks[t].dead == (m.tasks[t].dead || Died(run, t))
    decreases |run|
  {
    if run == [] {
      assert PublishedOk(m, t);
    } else {
      TidyKept(m, run[0]);
      StepRefs(m, run[0], t);
      hide Tidy, Apply, Enabled, Next;
      RunRefs(Apply(m, run[0]), run[1..], t);
      assert run == [run[0]] + run[1..];
    }
  }

  /** A task enters the world alive, with its stack and one reference to it. */
  lemma PublishedFresh(m: State, a: nat)
    requires Tidy(m) && Enabled(m, Publish(a))
    ensures var t, r := m.agents[a].tsk, Apply(m, Publish(a));
            && t !in m.published && t in r.published && t in r.running && t in r.tasks
            && r.tasks[t].refs == 1 && !r.tasks[t].dead && r.tasks[t].stack == Some(m.agents[a].stack)
            && r.agents[a].Idle?
  {
    assert PcOk(m, m.agents[a]);
  }

  lemma {:induction false} RunTidy(m: State, run: seq<Step>)
    requires Tidy(m) && Possible(m, run)
    ensures Tidy(After(m, run))
    decreases |run|
  {
    if run != [] {
      TidyKept(m, run[0]);
      hide Tidy, Apply, Enabled;
      RunTidy(Apply(m, run[0]), run[1..]);
    }
  }

  lemma InitialTidy(s: State)
    requires Initial(s)
    ensures Tidy(s)
  {
    var owner := InitialInv(s);
  }

  /**
   In every run: from its publication on, the count of a task's stack is one plus the references taken minus those
   given back, until that is zero; and the task is dead exactly if it died.
   */
  lemma RefsCounted(s: State, pre: seq<Step>, a: nat, post: seq<Step>)
    requires Initial(s) && Possible(s, pre) && Enabled(After(s, pre), Publish(a))
    requires Possible(Apply(After(s, pre), Publish(a)), post)
    ensures var t, r := After(s, pre).agents[a].tsk, After(Apply(After(s, pre), Publish(a)), post);
            && t in r.tasks && r.tasks[t].refs == Balance(1, post, t)
            && (r.tasks[t].refs > 0 ==> r.tasks[t].refs == 1 + Gets(post, t) - Puts(post, t))
            && (r.tasks[t].dead <==> Died(post, t))
  {
    InitialTidy(s);
    RunTidy(s, pre);
    var m := After(s, pre);
    hide Initial, Possible, After, Tidy, Apply, Enabled;
    PublishedFresh(m, a);
    TidyKept(m, Publish(a));
    RunRefs(Apply(m, Publish(a)), post, m.agents[a].tsk);
    BalanceCounts(1, post, m.agents[a].tsk);
  }

  // ---------- release ----------

  /** The step begins to free the stack of `t`, whose count it has brought to zero. */
  ghost predicate Releasing(m: State, step: Step, t: nat)
  {
    && Enabled(m, step) && IsPut(step, t) && step.a < |Apply(m, step).agents|
    && Apply(m, step).agents[step.a] == Freeing(t, 0, false)
  }

  lemma ReleasingIff(m: State, step: Step, t: nat)
    requires Tidy(m) && Enabled(m, step) && t in m.published
    ensures t in m.tasks
    ensures Releasing(m, step, t) <==> IsPut(step, t) && m.tasks[t].refs == 1 && m.tasks[t].dead
    ensures Releasing(m, step, t) ==>
              t in m.running && t !in Apply(m, step).running && Apply(m, step).tasks[t].refs == 0
  {
    assert PublishedOk(m, t);
  }

  lemma {:induction false} PossiblePrefix(m: State, run: seq<Step>, k: nat)
    requires Possible(m, run) && k <= |run|
    ensures Possible(m, run[..k])
    ensures k < |run| ==> Enabled(After(m, run[..k]), run[k])
    decreases |run|
  {
    if k > 0 {
      PrefixCons(run, k);
      hide Apply, Enabled;
      PossiblePrefix(Apply(m, run[0]), run[1..], k - 1);
    }
  }

  /** Step `k` of a run releases `t` exactly if it gives back the last reference and the task had died before. */
  lemma ReleasedWhen(m: State, run: seq<Step>, t: nat, k: nat)
    requires Tidy(m) && t in m.published && t in m.tasks && m.tasks[t].refs == 1 && !m.tasks[t].dead
    requires Possible(m, run) && k < |run|
    ensures Possible(m, run[..k])
    ensures Releasing(After(m, run[..k]), run[k], t) <==> LastGiven(1, run, t, k) && Died(run[..k], t)
  {
    PossiblePrefix(m, run, k);
    hide Possible, After, Tidy, Apply, Enabled, Releasing;
    RunRefs(m, run[..k], t);
    ReleasingIff(After(m, run[..k]), run[k], t);
  }

  /**
   In every run: when all references to the stack of a published task have been given back, one step gave back the
   last of them. If the task had died by then, that step and no other releases the stack; otherwise none does.
   */
  lemma ReleasedExactlyOnce(s: State, pre: seq<Step>, a: nat, post: seq<Step>) returns (last: nat)
    requires Initial(s) && Possible(s, pre) && Enabled(After(s, pre), Publish(a))
    requires Possible(Apply(After(s, pre), Publish(a)), post)
    ensures var t, m := After(s, pre).agents[a].tsk, Apply(After(s, pre), Publish(a));
            && (Balance(1, post, t) == 0 <==> LastGiven(1, post, t, last))
            && forall k :: 0 <= k < |post| ==>
                 && Possible(m, post[..k])
                 && (Releasing(After(m, post[..k]), post[k], t) <==>
                     k == last && Balance(1, post, t) == 0 && Died(post[..k], t))
  {
    InitialTidy(s);
    RunTidy(s, pre);
    var p := After(s, pre);
    hide Initial, Possible, After, Tidy, Apply, Enabled, Releasing, LastGiven, Died, Balance;
    PublishedFresh(p, a);
    TidyKept(p, Publish(a));
    var t, m := p.agents[a].tsk, Apply(p, Publish(a));
    last := ZeroIffLastGiven(1, post, t);
    forall k | 0 <= k < |post|
      ensures Possible(m, post[..k])
      ensures Releasing(After(m, post[..k]), post[k], t) <==>
              k == last && Balance(1, post, t) == 0 && Died(post[..k], t)
    {
      ReleasedWhen(m, post, t, k);
    }
  }
}
