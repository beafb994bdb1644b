/** Whole runs of the blocking protocol, from boot and under any interleaving of CPUs. */
module SchedRuns {
  import opened Machine
  import opened SchedModel
  import opened SchedInv

  // ---- Boot and runs ------------------------------------------------------------------------------

  /** After boot on `n` CPUs: thread 0 runs on CPU 0, idle thread c+1 belongs to CPU c and runs on every
      other CPU. Mutexes are free, processes live, all queues empty. */
  function Boot(n: nat, ms: set<Mid>, ps: set<Pid>): Sys {
    Sys(map t | 0 <= t <= n :: BootThread(t),
        [],
        seq(n, c => if c == 0 then 0 else c + 1),
        seq(n, c => c + 1),
        seq(n, _ => None),
        map m | m in ms :: Mutex(false, None, []),
        map p | p in ps :: Process(false, []),
        multiset{},
        map m | m in ms :: {},
        multiset{},
        multiset{})
  }

  function BootThread(t: Tid): Thread { Thread(Running, t != 1, t != 0, Normal) }

  lemma BootOk(n: nat, ms: set<Mid>, ps: set<Pid>)
    requires n >= 1
    ensures Inv(Boot(n, ms, ps))
  {
    BootCpus(n, ms, ps);
    BootLists(n, ms, ps);
    hide CpuOk, Lists;
  }

  lemma BootLists(n: nat, ms: set<Mid>, ps: set<Pid>)
    ensures Lists(Boot(n, ms, ps))
  {}

  lemma BootCpus(n: nat, ms: set<Mid>, ps: set<Pid>)
    requires n >= 1
    ensures CpuOk(Boot(n, ms, ps))
  {
    var s := Boot(n, ms, ps);
    forall t | t in s.threads && s.threads[t].onCpu ensures t in s.current {
      assert s.current[if t == 0 then 0 else t - 1] == t;
    }
    forall t | t in s.threads && s.threads[t].idle ensures t in s.idle { assert s.idle[t - 1] == t; }
  }

  ghost predicate Runs(s: Sys, steps: seq<Step>)
    decreases |steps|
  {
    steps == [] || (Enabled(s, steps[0]) && Runs(Apply(s, steps[0]), steps[1..]))
  }

  ghost function After(s: Sys, steps: seq<Step>): Sys
    requires Runs(s, steps)
    decreases |steps|
  {
    if steps == [] then s else After(Apply(s, steps[0]), steps[1..])
  }

  /** The invariant holds throughout every run. */
  lemma {:induction false} RunKeepsInv(s: Sys, steps: seq<Step>)
    requires Inv(s) && Runs(s, steps)
    ensures Inv(After(s, steps))
    decreases |steps|
  {
    hide Inv, Enabled, Apply;
    if steps != [] {
      StepKeepsInv(s, steps[0]);
      RunKeepsInv(Apply(s, steps[0]), steps[1..]);
    }
  }

  // ---- What the invariant means ------------------------------------------------------------------------

  /** No thread is current on two CPUs or queued twice; the queued threads are exactly the READY ones,
      off-CPU and current nowhere; on_cpu holds exactly for the current threads. */
  ghost predicate OnePlace(s: Sys) {
    && (forall c, d :: 0 <= c < |s.current| && 0 <= d < |s.current| && s.current[c] == s.current[d] ==> c == d)
    && (forall i, j :: 0 <= i < |s.rq| && 0 <= j < |s.rq| && s.rq[i] == s.rq[j] ==> i == j)
    && (forall t :: t in s.rq ==>
          t in s.threads && s.threads[t].state == Ready && !s.threads[t].onCpu && t !in s.current)
    && (forall t :: t in s.threads ==> (s.threads[t].onCpu <==> t in s.current))
    && (forall t :: t in s.current ==> t in s.threads)
    && (forall t :: t in s.threads && s.threads[t].state == Ready ==> t in s.rq)
  }

  /** `t` is linked nowhere: not current, not queued, on no wait list, in no waker's hands. */
  ghost predicate Unlinked(s: Sys, t: Tid) {
    && t !in s.current && t !in s.rq
    && (forall m :: m in s.mutexes ==> t !in s.mutexes[m].waiters)
    && (forall p :: p in s.procs ==> t !in s.procs[p].waitq)
    && (forall w: Tid :: t !in PendOf(s, w))
  }

  /** At most one thread holds a mutex, and it is the recorded owner. */
  ghost predicate OneHolder(s: Sys) {
    forall m, t, u :: m in s.mutexes && m in s.holds && t in s.holds[m] && u in s.holds[m] ==>
      t == u && s.mutexes[m].locked && s.mutexes[m].owner == Some(t)
  }

  /** A thread popped from mutex m's list that has yet to retest it: runnable, or about to be made so. */
  ghost predicate Retesting(s: Sys, m: Mid, t: Tid) {
    && t in s.threads && s.threads[t].pc == LockWait(m) && m in s.mutexes && t !in s.mutexes[m].waiters
    && (|| s.threads[t].state == Ready || s.threads[t].state == Running
        || (s.threads[t].state == Blocked && InHands(s, t)))
  }

  ghost predicate NoLostWakeup(s: Sys) {
    forall m :: m in s.mutexes && s.mutexes[m].waiters != [] && !s.mutexes[m].locked ==>
      exists t: Tid :: Retesting(s, m, t)
  }

  /** Process wait: no queue once exited; one enqueueing per thread, matched by one wake-up unless the
      thread is blocked still; and if blocked still on an exited process, it is in a waker's hands. */
  ghost predicate WaitExact(s: Sys) {
    && (forall p :: p in s.procs && s.procs[p].exited ==> s.procs[p].waitq == [])
    && (forall t: Tid, p: Pid :: s.woken[(t, p)] <= s.enqueued[(t, p)] <= 1)
    && (forall t: Tid, p: Pid ::
          p in s.procs && s.procs[p].exited && s.enqueued[(t, p)] == 1 && s.woken[(t, p)] == 0 ==> InHands(s, t))
  }

  /** A blocked thread is on the list that it waits on, or about to be woken. */
  ghost predicate NoneForgotten(s: Sys) {
    forall t :: t in s.threads && s.threads[t].state == Blocked ==>
      || (exists m :: m in s.mutexes && t in s.mutexes[m].waiters)
      || (exists p :: p in s.procs && t in s.procs[p].waitq)
      || InHands(s, t)
  }

  lemma InvNoneForgotten(s: Sys)
    requires Inv(s)
    ensures NoneForgotten(s)
  {
    hide Core, SpinOk, WaitOk, PendOk, MutexOk, ExitOk, InHands;
    forall t | t in s.threads && s.threads[t].state == Blocked
      ensures || (exists m :: m in s.mutexes && t in s.mutexes[m].waiters)
              || (exists p :: p in s.procs && t in s.procs[p].waitq)
              || InHands(s, t)
    {
      assert Blk(s, t);
    }
  }

  lemma InvOnePlace(s: Sys)
    requires Inv(s)
    ensures OnePlace(s)
  {}

  /** A thread that is dead and off its CPU, or gone, is linked nowhere. */
  lemma GoneUnlinked(s: Sys, t: Tid)
    requires Inv(s) && (DeadOff(s, t) || t in s.freed)
    ensures Unlinked(s, t)
  {
    hide Core, SpinOk, WaitOk, PendOk, HandsOk, MutexOk, ExitOk, Blk, PendOf, DeadOff;
    GoneOffCpu(s, t);
    AwakeUnlinked(s, t);
  }

  lemma AwakeUnlinked(s: Sys, t: Tid)
    requires WaitOk(s) && PendOk(s) && !Blk(s, t)
    ensures forall m :: m in s.mutexes ==> t !in s.mutexes[m].waiters
    ensures forall p :: p in s.procs ==> t !in s.procs[p].waitq
    ensures forall w: Tid :: t !in PendOf(s, w)
  {}

  lemma GoneOffCpu(s: Sys, t: Tid)
    requires Core(s) && (DeadOff(s, t) || t in s.freed)
    ensures t !in s.current && t !in s.rq && !Blk(s, t)
  {}

  lemma InvMutex(s: Sys)
    requires Inv(s)
    ensures OneHolder(s) && NoLostWakeup(s)
  {
    hide CpuOk, RqOk, ReapOk, SpinOk, ExitOk;
    forall m | m in s.mutexes && s.mutexes[m].waiters != [] && !s.mutexes[m].locked
      ensures exists t: Tid :: Retesting(s, m, t)
    {
      var t: Tid :| WaitPc(s, t) == LockWait(m) && !Queued(s, t);
      assert ThreadOk(s.threads[t]);
      assert Blk(s, t) ==> InHands(s, t);
      assert Retesting(s, m, t);
    }
  }

  lemma InvWait(s: Sys)
    requires Inv(s)
    ensures WaitExact(s)
  {}

  // ---- Safety over every run from boot --------------------------------------------------------------------

  /** On any number of CPUs and under any interleaving of steps. */
  lemma EveryRunIsSafe(n: nat, ms: set<Mid>, ps: set<Pid>, steps: seq<Step>)
    requires n >= 1 && Runs(Boot(n, ms, ps), steps)
    ensures var s := After(Boot(n, ms, ps), steps);
      && OnePlace(s) && OneHolder(s) && NoLostWakeup(s) && WaitExact(s) && NoneForgotten(s)
      && (forall t: Tid :: s.freed[t] <= 1)
      && (forall t: Tid :: DeadOff(s, t) || t in s.freed ==> Unlinked(s, t))
  {
    var s := After(Boot(n, ms, ps), steps);
    BootOk(n, ms, ps);
    RunKeepsInv(Boot(n, ms, ps), steps);
    hide Boot, Runs, After, OnePlace, OneHolder, NoLostWakeup, WaitExact, NoneForgotten, Unlinked, DeadOff;
    InvOnePlace(s);
    InvMutex(s);
    InvWait(s);
    InvNoneForgotten(s);
    assert forall t: Tid :: s.freed[t] <= 1 by { assert ReapOk(s); }
    forall t: Tid | DeadOff(s, t) || t in s.freed ensures Unlinked(s, t) { GoneUnlinked(s, t); }
  }

  /** The reaper frees a thread that is dead, off its CPU, linked nowhere, and was not freed before. */
  lemma ReapIsSafe(s: Sys, c: nat)
    requires Inv(s) && Enabled(s, TickReap(c))
    ensures var t, s' := s.reap[c].value, Apply(s, TickReap(c));
      DeadOff(s, t) && Unlinked(s, t) && s.freed[t] == 0 && s'.freed[t] == 1 && t !in s'.threads
  {
    hide Lists, SpinOk, CpuOk, RqOk, StateOk;
    GoneUnlinked(s, s.reap[c].value);
  }

  /** A thread that died on CPU c is retired by c's next switch, and stays c's to free whatever the other
      CPUs do, until c's reaper runs: then it is freed. */
  lemma DeadIsFreed(s: Sys, c: nat, steps: seq<Step>)
    requires Inv(s) && Enabled(s, TickSwitch(c)) && s.threads[s.current[c]].state == Dead
    requires Runs(Apply(s, TickSwitch(c)), steps) && TickReap(c) !in steps
    ensures var s1 := After(Apply(s, TickSwitch(c)), steps);
      Enabled(s1, TickReap(c)) && s1.freed[s.current[c]] == 0 && Apply(s1, TickReap(c)).freed[s.current[c]] == 1
  {
    var s0, t := Apply(s, TickSwitch(c)), s.current[c];
    StepKeepsInv(s, TickSwitch(c));
    assert c < |s0.reap| && s0.reap[c] == Some(t);
    hide Apply, Enabled;
    SlotKept(s0, c, steps);
    RunKeepsInv(s0, steps);
    ReapReady(After(s0, steps), c);
    ReapIsSafe(After(s0, steps), c);
  }

  /** A thread that ends does not run again: one switch takes it off its CPU, and it is freed after that. */
  lemma EndsAndIsFreed(s: Sys, c: nat, steps: seq<Step>)
    requires Inv(s) && Enabled(s, Die(c)) && s.reap[c].None?
    ensures Enabled(Apply(s, Die(c)), TickSwitch(c))
    ensures var s0 := Apply(Apply(s, Die(c)), TickSwitch(c));
      Runs(s0, steps) && TickReap(c) !in steps ==>
        Enabled(After(s0, steps), TickReap(c))
        && Apply(After(s0, steps), TickReap(c)).freed[s.current[c]] == s.freed[s.current[c]] + 1
  {
    var s1 := Apply(s, Die(c));
    StepKeepsInv(s, Die(c));
    EndedReady(s, c);
    var s0 := Apply(s1, TickSwitch(c));
    if Runs(s0, steps) && TickReap(c) !in steps {
      hide Inv, Apply, Enabled, Runs, After;
      DeadIsFreed(s1, c, steps);
    }
  }

  lemma EndedReady(s: Sys, c: nat)
    requires Inv(s) && Enabled(s, Die(c)) && s.reap[c].None?
    ensures var s1 := Apply(s, Die(c));
      && Enabled(s1, TickSwitch(c)) && s1.current[c] == s.current[c] && s1.threads[s.current[c]].state == Dead
      && s.freed[s.current[c]] == 0
  {
    hide Lists, SpinOk, IdleOk;
  }

  // ---- What the calls achieve -----------------------------------------------------------------------------

  /** mutex_lock and its try form: on a free mutex the caller becomes its one holder. On a locked one the holder
      stays; the try form changes nothing, and the other blocks the caller on the mutex. */
  lemma LockOutcome(s: Sys, c: nat, m: Mid, a: Step)
    requires Inv(s) && (a == LockTest(c, m) || a == TryLock(c, m)) && Enabled(s, a)
    ensures var t, s' := s.current[c], Apply(s, a);
      && t in s'.threads && m in s'.mutexes && m in s'.holds && s'.mutexes[m].locked
      && if !s.mutexes[m].locked then s'.holds[m] == {t} && s'.threads[t].pc == Normal && s'.threads[t].state == Running
         else
           && s'.holds[m] == s.holds[m] && s'.mutexes[m].owner == s.mutexes[m].owner
           && (a.TryLock? ==> s' == s)
           && (a.LockTest? ==> s'.threads[t].state == Blocked && t in s'.mutexes[m].waiters)
  {
    hide Core, SpinOk, WaitOk, PendOk, HandsOk, ExitOk;
  }

  /** mutex_unlock: nobody holds the mutex; and if threads wait for it, one of them is going to try again. */
  lemma UnlockOutcome(s: Sys, c: nat, m: Mid)
    requires Inv(s) && Enabled(s, Unlock(c, m))
    ensures var s' := Apply(s, Unlock(c, m));
      && m in s'.mutexes && m in s'.holds && !s'.mutexes[m].locked && s'.holds[m] == {}
      && (s.mutexes[m].waiters != [] ==> exists t: Tid :: t in s.mutexes[m].waiters && Retesting(s', m, t))
  {
    var s', me := Apply(s, Unlock(c, m)), s.current[c];
    if s.mutexes[m].waiters != [] { PoppedRetests(s, c, m); }
    hide Core, SpinOk, WaitOk, PendOk, HandsOk, ExitOk, Retesting;
  }

  lemma PoppedRetests(s: Sys, c: nat, m: Mid)
    requires Inv(s) && Enabled(s, Unlock(c, m)) && s.mutexes[m].waiters != []
    ensures s.mutexes[m].waiters[0] in s.mutexes[m].waiters
    ensures Retesting(Apply(s, Unlock(c, m)), m, s.mutexes[m].waiters[0])
  {
    hide Core, SpinOk, PendOk, HandsOk, ExitOk, MutexOk;
    var s', me, t := Apply(s, Unlock(c, m)), s.current[c], s.mutexes[m].waiters[0];
    assert Blk(s, t) && WaitPc(s, t) == LockWait(m);
    assert t in PendOf(s', me);
    assert NoDup(s.mutexes[m].waiters);
  }

  /** process_mark_exited: the process has exited, nobody is left on its queue, and all that were are about to be
      woken. process_wait on an exited process returns. */
  lemma ExitOutcome(s: Sys, c: nat, p: Pid)
    requires Inv(s) && p in s.procs
    ensures Enabled(s, MarkExited(c, p)) ==>
      var s' := Apply(s, MarkExited(c, p));
      && p in s'.procs && s'.procs[p].exited && s'.procs[p].waitq == []
      && forall t :: t in s.procs[p].waitq ==> InHands(s', t)
    ensures Enabled(s, WaitTest(c, p)) ==>
      var t, s' := s.current[c], Apply(s, WaitTest(c, p));
      if s.procs[p].exited then s' == At(s, c, Normal)
      else t in s'.threads && s'.threads[t].state == Blocked && p in s'.procs && t in s'.procs[p].waitq
  {
    hide Core, SpinOk, WaitOk, PendOk, HandsOk, MutexOk, ExitOk;
    if Enabled(s, MarkExited(c, p)) {
      var s', me := Apply(s, MarkExited(c, p)), s.current[c];
      assert PendOf(s', me) == s.procs[p].waitq;
    }
  }

  lemma ReapReady(s: Sys, c: nat)
    requires Core(s) && c < |s.reap| && s.reap[c].Some?
    ensures Enabled(s, TickReap(c))
  {}

  lemma {:induction false} SlotKept(s: Sys, c: nat, steps: seq<Step>)
    requires Runs(s, steps) && c < |s.reap| && s.reap[c].Some? && TickReap(c) !in steps
    ensures var s' := After(s, steps); c < |s'.reap| && s'.reap[c] == s.reap[c]
    decreases |steps|
  {
    if steps != [] {
      var s1 := Apply(s, steps[0]);
      assert c < |s1.reap| && s1.reap[c] == s.reap[c];
      SlotKept(s1, c, steps[1..]);
    }
  }

  // ---- No thread blocks on an exited process --------------------------------------------------------------

  /** Once p has exited it stays so, and no run enqueues anything on it. */
  lemma {:induction false} NoBlockAfterExit(s: Sys, steps: seq<Step>, p: Pid, t: Tid)
    requires Runs(s, steps) && p in s.procs && s.procs[p].exited
    ensures var s' := After(s, steps);
      p in s'.procs && s'.procs[p].exited && s'.enqueued[(t, p)] == s.enqueued[(t, p)]
    decreases |steps|
  {
    if steps != [] {
      var s1 := Apply(s, steps[0]);
      assert p in s1.procs && s1.procs[p].exited && s1.enqueued[(t, p)] == s.enqueued[(t, p)];
      NoBlockAfterExit(s1, steps[1..], p, t);
    }
  }

  /** When p has exited and no waker has threads left in hand, every thread ever enqueued on p was woken
      exactly once. */
  lemma AllWokenOnce(s: Sys, p: Pid, t: Tid)
    requires Inv(s) && p in s.procs && s.procs[p].exited && (forall w: Tid :: PendOf(s, w) == [])
    ensures s.woken[(t, p)] == s.enqueued[(t, p)] <= 1
  {}

  /** A waker never spins for ever: one switch of the CPU that its target still occupies ends the wait. */
  lemma SpinEnds(s: Sys, me: Tid, c: nat)
    requires Inv(s) && me in s.threads && s.threads[me].pc.Spin? && Enabled(s, TickSwitch(c))
    requires s.current[c] == s.threads[me].pc.w
    ensures var s' := Apply(s, TickSwitch(c));
      && me in s'.threads && s'.threads[me].pc == s.threads[me].pc
      && !OnCpu(s', s.threads[me].pc.w) && Blk(s', s.threads[me].pc.w)
  {
    hide Lists, CpuOk, RqOk, StateOk, ReapOk, Switch, SpinOk;
    var w, s' := s.threads[me].pc.w, Switch(s, c);
    SpinTarget(s, me);
    CoreSwitch(s, s', c);
    if s' != s {
      NextNotBlocked(s, s', c, s'.current[c]);
    } else {
      StaysOnlyIfRunning(s, c);
    }
  }

  lemma SpinTarget(s: Sys, me: Tid)
    requires Inv(s) && me in s.threads && s.threads[me].pc.Spin?
    ensures Blk(s, s.threads[me].pc.w)
  {
    hide Core, WaitOk, PendOk, HandsOk, MutexOk, ExitOk, SpinOk;
    TargetBlocked(s, me);
  }

  lemma StaysOnlyIfRunning(s: Sys, c: nat)
    requires Core(s) && Enabled(s, TickSwitch(c)) && Switch(s, c) == s
    ensures s.threads[s.current[c]].state == Running
  {}

  // ---- Round robin -----------------------------------------------------------------------------------------

  ghost function Switches(steps: seq<Step>): nat
    ensures Switches(steps) <= |steps|
  {
    if steps == [] then 0 else Switches(steps[1..]) + if steps[0].TickSwitch? then 1 else 0
  }

  /** One step: a switch takes the head; every other step leaves the queue as a prefix of the new one, and a new
      or woken thread is at its end. */
  lemma QueueStep(s: Sys, a: Step)
    requires Inv(s) && Enabled(s, a)
    ensures var s' := Apply(s, a);
      && (if a.TickSwitch? then s.rq != [] ==> s'.current[a.c] == s.rq[0] && s.rq[1..] <= s'.rq else s.rq <= s'.rq)
      && (a.Create? ==> s'.rq == s.rq + [a.t])
      && (a.WakeEnqueue? ==> s'.rq == s.rq + [s.threads[s.current[a.c]].pc.w])
  {
    hide CpuOk, RqOk, StateOk, ReapOk, Lists, SpinOk, Switch;
    if a.TickSwitch? && s.rq != [] { HeadTaken(s, a.c); }
  }

  lemma HeadTaken(s: Sys, c: nat)
    requires Core(s) && Enabled(s, TickSwitch(c)) && s.rq != []
    ensures var s' := Switch(s, c); c < |s'.current| && s'.current[c] == s.rq[0] && s.rq[1..] <= s'.rq
  {}

  /** A thread at index k of the run queue is current on some CPU right after the (k+1)-th switch from
      now on, and until then it only moves up. */
  lemma {:induction false} RoundRobin(s: Sys, steps: seq<Step>, k: nat) returns (n: nat)
    requires Inv(s) && Runs(s, steps) && k < |s.rq|
    ensures Switches(steps) <= k ==>
      var q := After(s, steps).rq; k - Switches(steps) < |q| && q[k - Switches(steps)] == s.rq[k]
    ensures Switches(steps) > k ==>
      && 0 < n <= |steps| && steps[n - 1].TickSwitch? && Switches(steps[..n]) == k + 1 && Runs(s, steps[..n])
      && var s' := After(s, steps[..n]);
      steps[n - 1].c < |s'.current| && s'.current[steps[n - 1].c] == s.rq[k]
    decreases |steps|
  {
    hide Inv, Enabled, Apply;
    n := 0;
    if steps != [] {
      var a, s1, rest := steps[0], Apply(s, steps[0]), steps[1..];
      StepKeepsInv(s, a);
      QueueStep(s, a);
      if a.TickSwitch? && k == 0 {
        n := 1;
        assert steps[..1] == [a];
        SwitchHasCpu(s, a);
      } else {
        var k1 := if a.TickSwitch? then k - 1 else k;
        assert k1 < |s1.rq| && s1.rq[k1] == s.rq[k];
        var n1 := RoundRobin(s1, rest, k1);
        n := n1 + 1;
        if Switches(steps) > k {
          assert steps[..n][1..] == rest[..n1] && steps[..n][0] == a;
        }
      }
    }
  }

  lemma SwitchHasCpu(s: Sys, a: Step)
    requires Enabled(s, a) && a.TickSwitch?
    ensures a.c < |Apply(s, a).current|
  {}
}
