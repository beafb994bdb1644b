/** What every interleaving of the protocol's steps keeps. */
module SchedInv {
  import opened Machine
  import opened SchedModel

  ghost predicate NoDup(l: seq<Tid>) { forall i, j :: 0 <= i < j < |l| ==> l[i] != l[j] }

  // ---- The invariant, by concern ----------------------------------------------------------------

  /** CPUs: distinct current threads; on_cpu holds exactly for them; each CPU has its own idle thread,
      which runs nowhere else. */
  ghost predicate CpuOk(s: Sys) { CurrentOk(s) && IdleOk(s) }

  ghost predicate CurrentOk(s: Sys) {
    && |s.current| == |s.idle| == |s.reap|
    && (forall c :: 0 <= c < |s.current| ==> s.current[c] in s.threads && s.threads[s.current[c]].onCpu)
    && NoDup(s.current)
    && (forall t :: t in s.threads && s.threads[t].onCpu ==> t in s.current)
  }

  ghost predicate IdleOk(s: Sys) {
    && (forall c :: 0 <= c < |s.idle| ==> s.idle[c] in s.threads && s.threads[s.idle[c]].idle)
    && NoDup(s.idle)
    && (forall t :: t in s.threads && s.threads[t].idle ==> t in s.idle)
    && (forall c, d :: 0 <= c < |s.idle| && 0 <= d < |s.current| && s.current[d] == s.idle[c] ==> c == d)
  }

  /** The run queue: no repeats, exactly the READY threads, all off-CPU and none idle. */
  ghost predicate RqOk(s: Sys) {
    && NoDup(s.rq)
    && (forall t :: t in s.rq ==>
          t in s.threads && s.threads[t].state == Ready && !s.threads[t].onCpu && !s.threads[t].idle)
    && (forall t :: t in s.threads && s.threads[t].state == Ready ==> t in s.rq)
  }

  /** Run states against program points. */
  ghost predicate StateOk(s: Sys) {
    forall t :: t in s.threads ==> ThreadOk(s.threads[t])
  }

  ghost predicate ThreadOk(th: Thread) {
    && (th.idle ==> th.state == Running && th.pc == Normal)
    && (!th.idle && th.state == Running ==> th.onCpu)
    && (th.state == Blocked ==> th.pc.LockWait? || th.pc.ExitWait?)
    && (th.state == Dead ==> th.pc == Normal)
  }

  /** Dead threads: on their CPU, or in exactly one reap slot; freed at most once and then gone. */
  ghost predicate ReapOk(s: Sys) {
    && (forall c :: 0 <= c < |s.reap| && s.reap[c].Some? ==> DeadOff(s, s.reap[c].value))
    && (forall c, d :: 0 <= c < d < |s.reap| && s.reap[c].Some? ==> s.reap[c] != s.reap[d])
    && (forall t: Tid :: DeadOff(s, t) ==> Some(t) in s.reap)
    && (forall t: Tid :: s.freed[t] <= 1 && (t in s.threads ==> t !in s.freed))
  }

  ghost predicate DeadOff(s: Sys, t: Tid) { t in s.threads && s.threads[t].state == Dead && !s.threads[t].onCpu }

  // What the waiting protocol sees of a thread.

  ghost predicate Blk(s: Sys, t: Tid) { t in s.threads && s.threads[t].state == Blocked }

  /** The wait that a thread is in, blocked or woken and yet to retest; Normal if none. */
  ghost function WaitPc(s: Sys, t: Tid): Pc {
    if t in s.threads && (s.threads[t].pc.LockWait? || s.threads[t].pc.ExitWait?) then s.threads[t].pc else Normal
  }

  /** The detached threads that a thread has yet to wake. */
  ghost function PendOf(s: Sys, t: Tid): seq<Tid> { if t in s.threads then Pend(s.threads[t].pc) else [] }

  /** Wait lists: no repeats, only threads blocked on that very mutex or process; an exited process has
      an empty queue. */
  ghost predicate WaitOk(s: Sys) {
    && (forall m :: m in s.mutexes ==> NoDup(s.mutexes[m].waiters))
    && (forall m, t :: m in s.mutexes && t in s.mutexes[m].waiters ==> Blk(s, t) && WaitPc(s, t) == LockWait(m))
    && (forall p :: p in s.procs ==> NoDup(s.procs[p].waitq) && (s.procs[p].exited ==> s.procs[p].waitq == []))
    && (forall p, t :: p in s.procs && t in s.procs[p].waitq ==> Blk(s, t) && WaitPc(s, t) == ExitWait(p))
  }

  /** Whether `t` is on the wait list that its program point names. */
  ghost predicate Queued(s: Sys, t: Tid) {
    match WaitPc(s, t)
    case LockWait(m) => m in s.mutexes && t in s.mutexes[m].waiters
    case ExitWait(p) => p in s.procs && t in s.procs[p].waitq
    case _ => false
  }

  /** Detached threads about to be woken: still blocked, off every list, and in one waker's hands only. */
  ghost predicate PendOk(s: Sys) {
    && (forall w: Tid :: NoDup(PendOf(s, w)))
    && (forall w: Tid, t :: t in PendOf(s, w) ==> Blk(s, t) && !Queued(s, t))
    && (forall w: Tid, v: Tid, t :: t in PendOf(s, w) && t in PendOf(s, v) ==> w == v)
  }

  /** No blocked thread is forgotten: it is on its list, or in a waker's hands. */
  ghost predicate HandsOk(s: Sys) {
    forall t: Tid :: Blk(s, t) ==> Queued(s, t) || InHands(s, t)
  }

  ghost predicate InHands(s: Sys, t: Tid) { exists w: Tid :: t in PendOf(s, w) }

  /** Mutual exclusion, and no lost wake-up: a mutex with waiters is locked, or some thread was popped
      from its list and has yet to retest it. */
  ghost predicate MutexOk(s: Sys) {
    && (forall m :: m in s.mutexes <==> m in s.holds)
    && (forall m :: m in s.mutexes ==>
          if s.mutexes[m].locked then s.mutexes[m].owner.Some? && s.holds[m] == {s.mutexes[m].owner.value}
          else s.mutexes[m].owner == None && s.holds[m] == {})
    && (forall m :: m in s.mutexes && s.mutexes[m].waiters != [] && !s.mutexes[m].locked ==> Retester(s, m))
  }

  ghost predicate Retester(s: Sys, m: Mid) { exists t: Tid :: WaitPc(s, t) == LockWait(m) && !Queued(s, t) }

  /** Process wait: a thread past the queue waits for an exited process; each enqueueing is matched by
      one wake-up or by the thread being blocked still, and happens at most once. */
  ghost predicate ExitOk(s: Sys) {
    && (forall t: Tid :: WaitPc(s, t).ExitWait? && !Queued(s, t) ==>
          WaitPc(s, t).p in s.procs && s.procs[WaitPc(s, t).p].exited)
    && (forall t: Tid, p: Pid :: s.enqueued[(t, p)] == s.woken[(t, p)] + StillBlocked(s, t, p))
    && (forall t: Tid, p: Pid :: s.enqueued[(t, p)] <= 1)
    && (forall t: Tid, p: Pid :: p !in s.procs || !s.procs[p].exited ==> s.woken[(t, p)] == 0)
  }

  ghost function StillBlocked(s: Sys, t: Tid, p: Pid): nat {
    if Blk(s, t) && WaitPc(s, t) == ExitWait(p) then 1 else 0
  }

  /** A waker past its spin saw its target off-CPU, and there it stays. */
  ghost predicate SpinOk(s: Sys) {
    forall w :: w in s.threads && s.threads[w].pc.Enqueue? && s.threads[w].pc.w in s.threads ==>
      !s.threads[s.threads[w].pc.w].onCpu
  }

  ghost predicate Inv(s: Sys) {
    Core(s) && Lists(s) && SpinOk(s)
  }

  ghost predicate Lists(s: Sys) { WaitOk(s) && PendOk(s) && HandsOk(s) && MutexOk(s) && ExitOk(s) }

  // ---- Preservation: CPUs, queue, states, reaping ---------------------------------------------------

  ghost predicate Core(s: Sys) { CpuOk(s) && RqOk(s) && StateOk(s) && ReapOk(s) }

  /** A step that only moves the running thread `t` to another program point, or blocks or kills it. */
  lemma CoreLocal(s: Sys, s': Sys, t: Tid, th: Thread)
    requires Core(s) && t in s.threads && s.threads[t].state == Running && !s.threads[t].idle
    requires s'.threads == s.threads[t := th] && ThreadOk(th) && th.state != Ready && th.onCpu && !th.idle
    requires s'.rq == s.rq && s'.current == s.current && s'.idle == s.idle && s'.reap == s.reap && s'.freed == s.freed
    ensures Core(s')
  {
    assert t !in s.rq;
  }

  /** A thread that is off-CPU, and new or blocked, becomes READY at the tail of the queue. */
  lemma CoreReady(s: Sys, s': Sys, t: Tid, th: Thread)
    requires Core(s) && th.state == Ready && !th.onCpu && !th.idle
    requires t !in s.freed
    requires t in s.threads ==> s.threads[t].state == Blocked && !s.threads[t].onCpu && !s.threads[t].idle
    requires s'.threads == s.threads[t := th] && s'.rq == s.rq + [t]
    requires s'.current == s.current && s'.idle == s.idle && s'.reap == s.reap && s'.freed == s.freed
    ensures Core(s')
  {
    assert t !in s.rq && t !in s.current && t !in s.idle;
    QueuedLast(s, s', t, th);
    hide RqOk;
  }

  lemma QueuedLast(s: Sys, s': Sys, t: Tid, th: Thread)
    requires RqOk(s) && t !in s.rq && th.state == Ready && !th.onCpu && !th.idle
    requires s'.threads == s.threads[t := th] && s'.rq == s.rq + [t]
    ensures RqOk(s')
  {}

  /** A dead thread is freed. */
  lemma CoreReap(s: Sys, s': Sys, c: nat)
    requires Core(s) && c < |s.reap| && s.reap[c].Some?
    requires s'.threads == s.threads - {s.reap[c].value} && s'.reap == s.reap[c := None]
    requires s'.freed == s.freed + multiset{s.reap[c].value}
    requires s'.current == s.current && s'.idle == s.idle && s'.rq == s.rq
    ensures Core(s')
  {
    var d := s.reap[c].value;
    assert ThreadOk(s.threads[d]);
    assert d !in s.current && d !in s.rq && d !in s.idle;
    forall t: Tid | DeadOff(s', t) ensures Some(t) in s'.reap {
      assert DeadOff(s, t);
      var e :| 0 <= e < |s.reap| && s.reap[e] == Some(t);
      assert s'.reap[e] == Some(t);
    }
  }

  // ---- The context switch ---------------------------------------------------------------------------

  /** What Switch does when the thread changes: `cur` leaves CPU `c` and `next` arrives. */
  ghost predicate Switched(s: Sys, s': Sys, c: nat, next: Tid)
    requires Cpu(s, c)
  {
    var cur := s.current[c];
    var th := s.threads[cur];
    var again := th.state == Running && !th.idle;
    && next in s.threads && next != cur
    && s'.threads == s.threads[cur := th.(onCpu := false, state := if again then Ready else th.state)]
                              [next := s.threads[next].(onCpu := true, state := Running)]
    && s'.current == s.current[c := next]
    && s'.reap == (if th.state == Dead then s.reap[c := Some(cur)] else s.reap)
    && (if s.rq == [] then !again && next == s.idle[c] && s'.rq == []
        else next == s.rq[0] && s'.rq == s.rq[1..] + if again then [cur] else [])
    && s' == s.(threads := s'.threads, current := s'.current, reap := s'.reap, rq := s'.rq)
  }

  /** A switch either keeps the running thread and changes nothing, or is as above. */
  lemma SwitchCases(s: Sys, c: nat)
    requires Cpu(s, c) && (forall t :: t in s.rq ==> t in s.threads)
    requires s.current[c] !in s.rq && s.threads[s.current[c]].onCpu
    requires s.threads[s.idle[c]].state == Running && s.threads[s.idle[c]].idle
    ensures var s' := Switch(s, c);
      var next := s'.current[c];
      if next == s.current[c] then s' == s && s.rq == [] else Switched(s, s', c, next)
  {}

  lemma SwitchCpu(s: Sys, s': Sys, c: nat, next: Tid)
    requires CpuOk(s) && Cpu(s, c) && Switched(s, s', c, next)
    requires !s.threads[next].onCpu && (s.threads[next].idle ==> next == s.idle[c])
    ensures CpuOk(s')
  {
    var cur := s.current[c];
    assert next !in s.current;
    NoDupPut(s.current, c, next);
    assert forall d :: 0 <= d < |s'.current| && d != c ==> s'.current[d] == s.current[d] && s.current[d] != cur;
    assert s'.current[c] == next;
    SwitchIdle(s, s', c, next);
    hide NoDup, IdleOk;
    forall t | t in s'.threads && s'.threads[t].onCpu ensures t in s'.current { StillCurrent(s, s', c, next, t); }
  }

  lemma SwitchIdle(s: Sys, s': Sys, c: nat, next: Tid)
    requires CpuOk(s) && Cpu(s, c) && Switched(s, s', c, next) && (s.threads[next].idle ==> next == s.idle[c])
    ensures IdleOk(s')
  {
    assert forall d :: 0 <= d < |s'.current| && d != c ==> s'.current[d] == s.current[d];
    hide NoDup;
    forall d, e | 0 <= d < |s'.idle| && 0 <= e < |s'.current| && s'.current[e] == s'.idle[d] ensures d == e {
      assert e == c ==> s.threads[s.idle[d]].idle;
      IdleOnce(s, d, c);
    }
  }

  lemma IdleOnce(s: Sys, d: nat, c: nat)
    requires IdleOk(s) && d < |s.idle| && c < |s.idle|
    ensures s.idle[d] == s.idle[c] ==> d == c
  {}

  lemma NoDupPut(l: seq<Tid>, c: nat, t: Tid)
    requires NoDup(l) && c < |l| && t !in l
    ensures NoDup(l[c := t])
  {}

  lemma StillCurrent(s: Sys, s': Sys, c: nat, next: Tid, t: Tid)
    requires CpuOk(s) && Cpu(s, c) && Switched(s, s', c, next) && t in s'.threads && s'.threads[t].onCpu
    ensures t in s'.current
  {
    assert s'.current[c] == next;
    if t != next {
      assert t != s.current[c] && s.threads[t].onCpu;
      var d :| 0 <= d < |s.current| && s.current[d] == t;
      assert s'.current[d] == t;
    }
  }

  lemma SwitchRq(s: Sys, s': Sys, c: nat, next: Tid)
    requires RqOk(s) && Cpu(s, c) && Switched(s, s', c, next) && s.current[c] !in s.rq
    requires s.threads[s.current[c]].state != Ready && (s.rq == [] ==> s.threads[next].state != Ready)
    ensures RqOk(s')
  {}

  lemma SwitchReap(s: Sys, s': Sys, c: nat, next: Tid)
    requires ReapOk(s) && Cpu(s, c) && Switched(s, s', c, next) && s.reap[c].None?
    requires s.threads[s.current[c]].onCpu && s.threads[next].state != Dead
    ensures ReapOk(s')
  {
    var cur := s.current[c];
    var died := s.threads[cur].state == Dead;
    assert !DeadOff(s, cur);
    forall t: Tid ensures DeadOff(s', t) <==> DeadOff(s, t) || (t == cur && died) {}
    assert s'.freed == s.freed && s'.threads.Keys == s.threads.Keys;
    hide Switched, DeadOff;
    ReapSlots(s, s', c, cur, died);
  }

  lemma ReapSlots(s: Sys, s': Sys, c: nat, cur: Tid, died: bool)
    requires ReapOk(s) && c < |s.reap| && s.reap[c].None? && !DeadOff(s, cur)
    requires s'.reap == (if died then s.reap[c := Some(cur)] else s.reap)
    requires forall t: Tid :: DeadOff(s', t) <==> DeadOff(s, t) || (t == cur && died)
    requires s'.freed == s.freed && s'.threads.Keys == s.threads.Keys
    ensures ReapOk(s')
  {
    hide DeadOff;
    forall t: Tid | DeadOff(s', t) ensures Some(t) in s'.reap {
      if t == cur && died {
        assert s'.reap[c] == Some(cur);
      } else {
        assert DeadOff(s, t);
        var d :| 0 <= d < |s.reap| && s.reap[d] == Some(t);
        assert s'.reap[d] == Some(t);
      }
    }
    forall d, e | 0 <= d < e < |s'.reap| && s'.reap[d].Some? ensures s'.reap[d] != s'.reap[e] {
      assert d != c ==> s'.reap[d] == s.reap[d];
      assert e != c ==> s'.reap[e] == s.reap[e];
    }
  }

  lemma CoreSwitch(s: Sys, s': Sys, c: nat)
    requires Core(s) && Cpu(s, c) && (forall t :: t in s.rq ==> t in s.threads) && s.reap[c].None? && s' == Switch(s, c)
    ensures Core(s')
    ensures s' == s || Switched(s, s', c, s'.current[c])
    ensures s.rq != [] ==> s'.current[c] == s.rq[0]
  {
    hide CpuOk, RqOk, ReapOk, StateOk, Switch;
    CurrentFacts(s, c);
    SwitchCases(s, c);
    if s' != s {
      var next := s'.current[c];
      NextIsFree(s, s', c, next);
      SwitchCpu(s, s', c, next);
      SwitchRq(s, s', c, next);
      SwitchReap(s, s', c, next);
      SwitchStates(s, s', c, next);
    }
  }

  lemma CurrentFacts(s: Sys, c: nat)
    requires Core(s) && Cpu(s, c)
    ensures var cur := s.current[c];
      && cur !in s.rq && s.threads[cur].onCpu && s.threads[cur].state != Ready
      && s.threads[s.idle[c]].state == Running && s.threads[s.idle[c]].idle
  {}

  lemma SwitchStates(s: Sys, s': Sys, c: nat, next: Tid)
    requires StateOk(s) && Cpu(s, c) && Switched(s, s', c, next) && s.threads[next].state != Dead
    requires s.threads[next].idle ==> next == s.idle[c]
    requires s.rq == [] || s.threads[next].state == Ready
    ensures StateOk(s')
  {}

  lemma NextIsFree(s: Sys, s': Sys, c: nat, next: Tid)
    requires Core(s) && Cpu(s, c) && Switched(s, s', c, next)
    ensures !s.threads[next].onCpu && (s.threads[next].idle ==> next == s.idle[c]) && s.threads[next].state != Dead
    ensures if s.rq == [] then s.threads[next].state != Ready else s.threads[next].state == Ready
  {}

  // ---- Preservation: the waiting protocol ---------------------------------------------------------------

  ghost predicate SameView(s: Sys, s': Sys, t: Tid) {
    Blk(s', t) == Blk(s, t) && WaitPc(s', t) == WaitPc(s, t) && PendOf(s', t) == PendOf(s, t)
  }

  /** The waiting protocol depends only on the views, the lists and the counts. */
  lemma ListsFrame(s: Sys, s': Sys)
    requires Lists(s) && forall t: Tid :: SameView(s, s', t)
    requires s'.mutexes == s.mutexes && s'.procs == s.procs && s'.holds == s.holds
    requires s'.enqueued == s.enqueued && s'.woken == s.woken
    ensures Lists(s')
  {
    hide Blk, WaitPc, PendOf, NoDup;
    forall t: Tid
      ensures Blk(s', t) == Blk(s, t) && WaitPc(s', t) == WaitPc(s, t) && PendOf(s', t) == PendOf(s, t)
      ensures Queued(s', t) == Queued(s, t)
    {
      assert SameView(s, s', t);
    }
    forall t: Tid | Blk(s', t) && !Queued(s', t) ensures InHands(s', t) {
      assert SameView(s, s', t) && InHands(s, t);
      var w: Tid :| t in PendOf(s, w);
      assert SameView(s, s', w);
    }
    forall m | m in s'.mutexes && s'.mutexes[m].waiters != [] && !s'.mutexes[m].locked ensures Retester(s', m) {
      var t: Tid :| WaitPc(s, t) == LockWait(m) && !Queued(s, t);
      assert SameView(s, s', t);
    }
  }

  /** All threads but `me` look the same to the waiting protocol, and stand on the same lists. */
  ghost predicate OthersSame(s: Sys, s': Sys, me: Tid) {
    forall t: Tid :: t != me ==> SameView(s, s', t) && Queued(s', t) == Queued(s, t)
  }

  /** Wakers other than `me` keep their hands full. */
  lemma HandsFrame(s: Sys, s': Sys, me: Tid)
    requires HandsOk(s) && (Blk(s', me) ==> Queued(s', me))
    requires forall t: Tid :: t != me ==> Blk(s', t) == Blk(s, t) && Queued(s', t) == Queued(s, t)
    requires forall w: Tid :: PendOf(s', w) == PendOf(s, w)
    ensures HandsOk(s')
  {}

  /** Threads due to retest other mutexes than `m` are as before. */
  ghost predicate OtherWaitersSame(s: Sys, s': Sys, m: Mid) {
    forall t: Tid :: WaitPc(s, t).LockWait? && WaitPc(s, t).m != m ==>
      WaitPc(s', t) == WaitPc(s, t) && Queued(s', t) == Queued(s, t)
  }

  /** Threads in process wait are as before. */
  ghost predicate ExitersSame(s: Sys, s': Sys) {
    && (forall t: Tid :: WaitPc(s', t).ExitWait? ==>
          WaitPc(s, t) == WaitPc(s', t) && Queued(s', t) == Queued(s, t) && Blk(s', t) == Blk(s, t))
    && (forall t: Tid :: Blk(s, t) && WaitPc(s, t).ExitWait? ==> WaitPc(s', t) == WaitPc(s, t))
  }

  lemma PendFrame(s: Sys, s': Sys, me: Tid)
    requires PendOk(s) && !Blk(s, me) && OthersSame(s, s', me) && PendOf(s', me) == PendOf(s, me)
    ensures PendOk(s')
  {
    hide Blk, Queued, PendOf, WaitPc;
    forall t: Tid ensures PendOf(s', t) == PendOf(s, t) { assert t != me ==> SameView(s, s', t); }
    forall w: Tid, t | t in PendOf(s', w) ensures Blk(s', t) && !Queued(s', t) {
      assert t in PendOf(s, w) && t != me && SameView(s, s', t);
    }
  }

  lemma ExitFrame(s: Sys, s': Sys)
    requires ExitOk(s) && ExitersSame(s, s')
    requires s'.procs == s.procs && s'.enqueued == s.enqueued && s'.woken == s.woken
    ensures ExitOk(s')
  {}

  /** Mutexes other than `m` are untouched; `m` has its owner as holder, and a wake-up under way if needed. */
  lemma MutexFrame(s: Sys, s': Sys, m: Mid)
    requires MutexOk(s) && m in s.mutexes && OtherWaitersSame(s, s', m)
    requires s'.mutexes.Keys == s.mutexes.Keys && s'.holds.Keys == s.holds.Keys
    requires forall n :: n in s.mutexes && n != m ==> s'.mutexes[n] == s.mutexes[n] && s'.holds[n] == s.holds[n]
    requires if s'.mutexes[m].locked then s'.mutexes[m].owner.Some? && s'.holds[m] == {s'.mutexes[m].owner.value}
             else s'.mutexes[m].owner == None && s'.holds[m] == {}
    requires s'.mutexes[m].waiters == [] || s'.mutexes[m].locked || Retester(s', m)
    ensures MutexOk(s')
  {
    hide Queued, WaitPc;
    forall n | n in s.mutexes && n != m && Retester(s, n) ensures Retester(s', n) {
      var t: Tid :| WaitPc(s, t) == LockWait(n) && !Queued(s, t);
      assert WaitPc(s', t) == LockWait(n) && !Queued(s', t);
    }
    hide Retester;
    forall n | n in s'.mutexes ensures n in s'.holds {}
  }

  // ---- Steps on mutexes --------------------------------------------------------------------------------

  /** The running thread `me` goes on mutex m's list: at once blocked, queued, and bound to retest. */
  lemma LockBlock(s: Sys, s': Sys, me: Tid, m: Mid)
    requires Lists(s) && m in s.mutexes && s.mutexes[m].locked
    requires !Blk(s, me) && PendOf(s, me) == [] && (WaitPc(s, me) == Normal || WaitPc(s, me) == LockWait(m))
    requires Blk(s', me) && PendOf(s', me) == [] && WaitPc(s', me) == LockWait(m)
    requires forall t: Tid :: t != me ==> SameView(s, s', t)
    requires s'.mutexes == s.mutexes[m := s.mutexes[m].(waiters := [me] + s.mutexes[m].waiters)]
    requires s'.procs == s.procs && s'.holds == s.holds && s'.enqueued == s.enqueued && s'.woken == s.woken
    ensures Lists(s')
  {
    hide Blk, WaitPc, PendOf, PendOk, MutexOk, ExitOk, HandsOk, Retester;
    forall t: Tid | t != me ensures SameView(s, s', t) && Queued(s', t) == Queued(s, t) {}
    assert me in s'.mutexes[m].waiters && Queued(s', me);
    WaitersChanged(s, s', me, m);
    OwnerIsHolder(s, m);
    hide WaitOk, Queued, SameView;
    LockFrames(s, s', me, m);
  }

  lemma OwnerIsHolder(s: Sys, m: Mid)
    requires MutexOk(s) && m in s.mutexes
    ensures m in s.holds
    ensures if s.mutexes[m].locked then s.mutexes[m].owner.Some? && s.holds[m] == {s.mutexes[m].owner.value}
            else s.mutexes[m].owner == None && s.holds[m] == {}
  {}

  /** Mutex m's list gains `me`, or loses its head, or is as before. */
  lemma WaitersChanged(s: Sys, s': Sys, me: Tid, m: Mid)
    requires WaitOk(s) && m in s.mutexes && !Blk(s, me)
    requires forall t: Tid :: t != me ==> SameView(s, s', t)
    requires s'.mutexes.Keys == s.mutexes.Keys && s'.procs == s.procs
    requires forall n :: n in s.mutexes && n != m ==> s'.mutexes[n].waiters == s.mutexes[n].waiters
    requires var l, l' := s.mutexes[m].waiters, s'.mutexes[m].waiters;
      || l' == l || (l != [] && l' == l[1..])
      || (l' == [me] + l && Blk(s', me) && WaitPc(s', me) == LockWait(m))
    ensures WaitOk(s')
  {
    hide Blk, WaitPc, PendOf;
    var l, l' := s.mutexes[m].waiters, s'.mutexes[m].waiters;
    assert me !in l;
    assert NoDup(l');
    forall t | t in l' ensures t in l || (t == me && l' == [me] + l) {}
    forall n, t | n in s'.mutexes && t in s'.mutexes[n].waiters ensures Blk(s', t) && WaitPc(s', t) == LockWait(n) {
      if t != me { assert SameView(s, s', t); }
    }
    forall p, t | p in s'.procs && t in s'.procs[p].waitq ensures Blk(s', t) && WaitPc(s', t) == ExitWait(p) {
      assert SameView(s, s', t);
    }
  }

  /** `me` takes the free mutex m. */
  lemma LockTaken(s: Sys, s': Sys, me: Tid, m: Mid)
    requires Lists(s) && m in s.mutexes && m in s.holds && !s.mutexes[m].locked
    requires !Blk(s, me) && PendOf(s, me) == [] && (WaitPc(s, me) == Normal || WaitPc(s, me) == LockWait(m))
    requires !Blk(s', me) && PendOf(s', me) == [] && WaitPc(s', me) == Normal
    requires forall t: Tid :: t != me ==> SameView(s, s', t)
    requires s'.mutexes == s.mutexes[m := s.mutexes[m].(locked := true, owner := Some(me))]
    requires s'.holds == s.holds[m := s.holds[m] + {me}]
    requires s'.procs == s.procs && s'.enqueued == s.enqueued && s'.woken == s.woken
    ensures Lists(s')
  {
    hide Blk, WaitPc, PendOf, PendOk, MutexOk, ExitOk, HandsOk, Retester;
    forall t: Tid | t != me ensures SameView(s, s', t) && Queued(s', t) == Queued(s, t) {}
    WaitersChanged(s, s', me, m);
    OwnerIsHolder(s, m);
    hide WaitOk, Queued, SameView;
    LockFrames(s, s', me, m);
  }

  /** `me` gives up mutex m, which nobody waits for. */
  lemma LockReleased(s: Sys, s': Sys, me: Tid, m: Mid)
    requires Lists(s) && m in s.mutexes && m in s.holds && me in s.holds[m] && s.mutexes[m].waiters == []
    requires !Blk(s, me) && WaitPc(s, me) == Normal
    requires forall t: Tid :: SameView(s, s', t)
    requires s'.mutexes == s.mutexes[m := s.mutexes[m].(locked := false, owner := None)]
    requires s'.holds == s.holds[m := s.holds[m] - {me}]
    requires s'.procs == s.procs && s'.enqueued == s.enqueued && s'.woken == s.woken
    ensures Lists(s')
  {
    hide Blk, WaitPc, PendOf, PendOk, MutexOk, ExitOk, HandsOk, Retester;
    forall t: Tid ensures SameView(s, s', t) && Queued(s', t) == Queued(s, t) {}
    assert SameView(s, s', me);
    WaitersChanged(s, s', me, m);
    OwnerIsHolder(s, m);
    hide WaitOk, Queued, SameView;
    LockFrames(s, s', me, m);
  }

  /** `me` gives up mutex m and takes the first waiter into its hands. */
  lemma LockHandedOn(s: Sys, s': Sys, me: Tid, m: Mid)
    requires Lists(s) && m in s.mutexes && m in s.holds && me in s.holds[m] && s.mutexes[m].waiters != []
    requires !Blk(s, me) && PendOf(s, me) == [] && WaitPc(s, me) == Normal
    requires !Blk(s', me) && PendOf(s', me) == [s.mutexes[m].waiters[0]] && WaitPc(s', me) == Normal
    requires forall t: Tid :: t != me ==> SameView(s, s', t)
    requires s'.mutexes == s.mutexes[m := Mutex(false, None, s.mutexes[m].waiters[1..])]
    requires s'.holds == s.holds[m := s.holds[m] - {me}]
    requires s'.procs == s.procs && s'.enqueued == s.enqueued && s'.woken == s.woken
    ensures Lists(s')
  {
    hide Blk, WaitPc, PendOf, PendOk, MutexOk, ExitOk, HandsOk;
    var w := s.mutexes[m].waiters[0];
    WaitersChanged(s, s', me, m);
    OwnerIsHolder(s, m);
    HeadPopped(s, s', me, m);
    assert Retester(s', m);
    forall t: Tid | t != me
      ensures Blk(s', t) == Blk(s, t) && PendOf(s', t) == PendOf(s, t) && WaitPc(s', t) == WaitPc(s, t)
    {
      assert SameView(s, s', t);
    }
    hide WaitOk, Queued, SameView, Retester;
    HandsTaken(s, s', me, [w]);
    ExitFrame(s, s');
    MutexFrame(s, s', m);
  }

  lemma HeadPopped(s: Sys, s': Sys, me: Tid, m: Mid)
    requires WaitOk(s) && m in s.mutexes && s.mutexes[m].waiters != [] && !Blk(s, me) && WaitPc(s', me) == Normal
    requires WaitPc(s, me) == Normal
    requires s'.mutexes == s.mutexes[m := Mutex(false, None, s.mutexes[m].waiters[1..])] && s'.procs == s.procs
    requires forall t: Tid :: t != me ==> SameView(s, s', t)
    ensures var w := s.mutexes[m].waiters[0];
      && w != me && Blk(s, w) && WaitPc(s, w) == LockWait(m) && WaitPc(s', w) == LockWait(m) && Queued(s, w)
      && !Queued(s', w)
      && (forall t: Tid :: t != w ==> Queued(s', t) == Queued(s, t))
  {
    hide Blk, PendOf;
    var l := s.mutexes[m].waiters;
    var w := l[0];
    assert w in l;
    assert SameView(s, s', w);
    assert w !in l[1..];
    forall t: Tid | t != w ensures Queued(s', t) == Queued(s, t) {
      assert t in l <==> t in l[1..];
      if t != me { assert SameView(s, s', t); }
    }
  }

  /** `me` takes the threads of `l` off their list into its hands. */
  lemma HandsTaken(s: Sys, s': Sys, me: Tid, l: seq<Tid>)
    requires PendOk(s) && HandsOk(s) && !Blk(s, me) && !Blk(s', me) && PendOf(s, me) == [] && PendOf(s', me) == l
    requires NoDup(l)
    requires forall t: Tid :: t != me ==> Blk(s', t) == Blk(s, t) && PendOf(s', t) == PendOf(s, t)
    requires forall t: Tid :: t in l ==> Blk(s, t) && Queued(s, t) && !Queued(s', t)
    requires forall t: Tid :: t !in l ==> Queued(s', t) == Queued(s, t)
    ensures PendOk(s') && HandsOk(s')
  {}

  /** The parts of a mutex step that only need the others to be the same. */
  lemma LockFrames(s: Sys, s': Sys, me: Tid, m: Mid)
    requires Lists(s) && m in s.mutexes && !Blk(s, me) && OthersSame(s, s', me)
    requires PendOf(s', me) == PendOf(s, me) && !WaitPc(s', me).ExitWait? && (Blk(s', me) ==> Queued(s', me))
    requires WaitPc(s, me) == Normal || WaitPc(s, me) == LockWait(m)
    requires s'.mutexes.Keys == s.mutexes.Keys && s'.holds.Keys == s.holds.Keys
    requires forall n :: n in s.mutexes && n != m ==> s'.mutexes[n] == s.mutexes[n] && s'.holds[n] == s.holds[n]
    requires if s'.mutexes[m].locked then s'.mutexes[m].owner.Some? && s'.holds[m] == {s'.mutexes[m].owner.value}
             else s'.mutexes[m].owner == None && s'.holds[m] == {}
    requires s'.mutexes[m].waiters == [] || s'.mutexes[m].locked || Retester(s', m)
    requires s'.procs == s.procs && s'.enqueued == s.enqueued && s'.woken == s.woken
    ensures PendOk(s') && HandsOk(s') && MutexOk(s') && ExitOk(s')
  {
    hide Blk, WaitPc, PendOf, PendOk, MutexOk, ExitOk, HandsOk, Queued, Retester, WaitOk;
    forall t: Tid | t != me
      ensures PendOf(s', t) == PendOf(s, t) && Blk(s', t) == Blk(s, t) && WaitPc(s', t) == WaitPc(s, t)
      ensures Queued(s', t) == Queued(s, t)
    {
      assert SameView(s, s', t);
    }
    PendFrame(s, s', me);
    HandsFrame(s, s', me);
    ExitFrame(s, s');
    MutexFrame(s, s', m);
  }

  // ---- Steps on processes ----------------------------------------------------------------------------------

  /** The queue of process p gains `me`. */
  lemma QueueGains(s: Sys, s': Sys, me: Tid, p: Pid)
    requires WaitOk(s) && p in s.procs && !s.procs[p].exited && !Blk(s, me) && Blk(s', me)
    requires WaitPc(s', me) == ExitWait(p)
    requires forall t: Tid :: t != me ==> SameView(s, s', t)
    requires s'.mutexes == s.mutexes && s'.procs == s.procs[p := s.procs[p].(waitq := [me] + s.procs[p].waitq)]
    ensures WaitOk(s')
  {
    hide Blk, WaitPc, PendOf;
    assert me !in s.procs[p].waitq;
    forall n, t | n in s'.mutexes && t in s'.mutexes[n].waiters ensures Blk(s', t) && WaitPc(s', t) == LockWait(n) {
      assert t != me;
      assert SameView(s, s', t);
    }
    forall q, t | q in s'.procs && t in s'.procs[q].waitq ensures Blk(s', t) && WaitPc(s', t) == ExitWait(q) {
      assert t in s.procs[q].waitq || (t == me && q == p);
      assert t != me ==> SameView(s, s', t);
    }
  }

  /** `me` blocks on a process that has not exited. */
  lemma ExitBlock(s: Sys, s': Sys, me: Tid, p: Pid)
    requires Lists(s) && p in s.procs && !s.procs[p].exited
    requires !Blk(s, me) && PendOf(s, me) == [] && (WaitPc(s, me) == Normal || WaitPc(s, me) == ExitWait(p))
    requires Blk(s', me) && PendOf(s', me) == [] && WaitPc(s', me) == ExitWait(p)
    requires forall t: Tid :: t != me ==> SameView(s, s', t)
    requires s'.mutexes == s.mutexes && s'.holds == s.holds
    requires s'.procs == s.procs[p := s.procs[p].(waitq := [me] + s.procs[p].waitq)]
    requires s'.enqueued == s.enqueued + multiset{(me, p)} && s'.woken == s.woken
    ensures Lists(s')
  {
    hide Blk, WaitPc, PendOf, PendOk, MutexOk, ExitOk, HandsOk, Retester;
    forall t: Tid | t != me ensures SameView(s, s', t) && Queued(s', t) == Queued(s, t) {}
    assert me in s'.procs[p].waitq && Queued(s', me);
    QueueGains(s, s', me, p);
    hide WaitOk, Queued;
    forall t: Tid | t != me
      ensures PendOf(s', t) == PendOf(s, t) && Blk(s', t) == Blk(s, t) && WaitPc(s', t) == WaitPc(s, t)
    {
      assert SameView(s, s', t);
    }
    hide SameView;
    PendFrame(s, s', me);
    HandsFrame(s, s', me);
    MutexesKept(s, s');
    ExitGains(s, s', me, p);
  }

  /** No mutex changed, nor any thread waiting for one. */
  lemma MutexesKept(s: Sys, s': Sys)
    requires MutexOk(s) && s'.mutexes == s.mutexes && s'.holds == s.holds
    requires forall t: Tid :: WaitPc(s, t).LockWait? ==> WaitPc(s', t) == WaitPc(s, t) && Queued(s', t) == Queued(s, t)
    ensures MutexOk(s')
  {}

  lemma ExitGains(s: Sys, s': Sys, me: Tid, p: Pid)
    requires ExitOk(s) && p in s.procs && !s.procs[p].exited && !Blk(s, me) && Blk(s', me)
    requires WaitPc(s', me) == ExitWait(p)
    requires Queued(s', me) && s'.procs == s.procs[p := s.procs[p].(waitq := [me] + s.procs[p].waitq)]
    requires forall t: Tid :: t != me ==>
      Blk(s', t) == Blk(s, t) && WaitPc(s', t) == WaitPc(s, t) && Queued(s', t) == Queued(s, t)
    requires s'.enqueued == s.enqueued + multiset{(me, p)} && s'.woken == s.woken
    ensures ExitOk(s')
  {}

  /** `me` finds the process exited and leaves. */
  lemma ExitDone(s: Sys, s': Sys, me: Tid)
    requires Lists(s) && !Blk(s, me) && !Blk(s', me) && PendOf(s, me) == [] && PendOf(s', me) == []
    requires !WaitPc(s, me).LockWait? && WaitPc(s', me) == Normal
    requires forall t: Tid :: t != me ==> SameView(s, s', t)
    requires s'.mutexes == s.mutexes && s'.holds == s.holds && s'.procs == s.procs
    requires s'.enqueued == s.enqueued && s'.woken == s.woken
    ensures Lists(s')
  {
    hide Blk, WaitPc, PendOf, PendOk, MutexOk, ExitOk, HandsOk, Retester;
    forall t: Tid | t != me
      ensures SameView(s, s', t) && Queued(s', t) == Queued(s, t)
      ensures PendOf(s', t) == PendOf(s, t) && Blk(s', t) == Blk(s, t) && WaitPc(s', t) == WaitPc(s, t)
    {}
    assert WaitOk(s');
    hide WaitOk, Queued, SameView;
    PendFrame(s, s', me);
    HandsFrame(s, s', me);
    MutexesKept(s, s');
    ExitFrame(s, s');
  }

  /** Process p exits: `me` takes its whole queue into its hands. */
  lemma QueueDetached(s: Sys, s': Sys, me: Tid, p: Pid)
    requires Lists(s) && p in s.procs && !Blk(s, me) && PendOf(s, me) == [] && WaitPc(s, me) == Normal
    requires !Blk(s', me) && PendOf(s', me) == s.procs[p].waitq && WaitPc(s', me) == Normal
    requires forall t: Tid :: t != me ==> SameView(s, s', t)
    requires s'.mutexes == s.mutexes && s'.holds == s.holds && s'.procs == s.procs[p := Process(true, [])]
    requires s'.enqueued == s.enqueued && s'.woken == s.woken
    ensures Lists(s')
  {
    hide Blk, WaitPc, PendOf, PendOk, MutexOk, ExitOk, HandsOk, Retester;
    var l := s.procs[p].waitq;
    forall t: Tid | t != me
      ensures PendOf(s', t) == PendOf(s, t) && Blk(s', t) == Blk(s, t) && WaitPc(s', t) == WaitPc(s, t)
    {
      assert SameView(s, s', t);
    }
    assert me !in l;
    forall t: Tid | t in l ensures Blk(s, t) && Queued(s, t) && !Queued(s', t) && WaitPc(s, t) == ExitWait(p) {}
    forall t: Tid | t !in l ensures Queued(s', t) == Queued(s, t) {}
    assert WaitOk(s');
    hide WaitOk, Queued, SameView;
    HandsTaken(s, s', me, l);
    MutexesKept(s, s');
    ExitsNow(s, s', me, p, l);
  }

  lemma ExitsNow(s: Sys, s': Sys, me: Tid, p: Pid, l: seq<Tid>)
    requires ExitOk(s) && p in s.procs && !Blk(s, me) && !Blk(s', me) && WaitPc(s', me) == Normal
    requires forall t: Tid :: t != me ==> Blk(s', t) == Blk(s, t) && WaitPc(s', t) == WaitPc(s, t)
    requires forall t: Tid :: if t in l then WaitPc(s, t) == ExitWait(p) else Queued(s', t) == Queued(s, t)
    requires s'.procs == s.procs[p := Process(true, [])] && s'.enqueued == s.enqueued && s'.woken == s.woken
    ensures ExitOk(s')
  {}

  /** `me` makes the first thread in its hands READY. */
  lemma Woke(s: Sys, s': Sys, me: Tid, w: Tid, rest: seq<Tid>)
    requires Lists(s) && me != w && !Blk(s, me) && !Blk(s', me) && WaitPc(s, me) == WaitPc(s', me) == Normal
    requires PendOf(s, me) == [w] + rest && PendOf(s', me) == rest
    requires !Blk(s', w) && WaitPc(s', w) == WaitPc(s, w) && PendOf(s', w) == PendOf(s, w)
    requires forall t: Tid :: t != me && t != w ==> SameView(s, s', t)
    requires s'.mutexes == s.mutexes && s'.holds == s.holds && s'.procs == s.procs && s'.enqueued == s.enqueued
    requires s'.woken == if WaitPc(s, w).ExitWait? then s.woken + multiset{(w, WaitPc(s, w).p)} else s.woken
    ensures Lists(s')
  {
    hide Blk, WaitPc, PendOf, MutexOk, ExitOk, HandsOk, Retester;
    assert PendOf(s, me)[0] == w;
    assert Blk(s, w) && !Queued(s, w);
    forall t: Tid
      ensures WaitPc(s', t) == WaitPc(s, t) && Queued(s', t) == Queued(s, t)
      ensures t != me ==> PendOf(s', t) == PendOf(s, t)
      ensures t != w ==> Blk(s', t) == Blk(s, t)
    {
      if t != me && t != w { assert SameView(s, s', t); }
    }
    assert w !in rest by { forall i | 0 <= i < |rest| ensures rest[i] != w { assert PendOf(s, me)[i + 1] == rest[i]; } }
    assert WaitOk(s');
    hide SameView, WaitOk;
    HandsLess(s, s', me, w, rest);
    hide PendOk, Queued;
    MutexesKept(s, s');
    WokenOnce(s, s', w);
  }

  lemma HandsLess(s: Sys, s': Sys, me: Tid, w: Tid, rest: seq<Tid>)
    requires PendOk(s) && HandsOk(s) && PendOf(s, me) == [w] + rest && PendOf(s', me) == rest && w !in rest
    requires !Blk(s', w)
    requires forall t: Tid ::
      && Queued(s', t) == Queued(s, t) && (t != me ==> PendOf(s', t) == PendOf(s, t))
      && (t != w ==> Blk(s', t) == Blk(s, t))
    ensures PendOk(s') && HandsOk(s')
  {
    hide Blk, Queued, PendOf;
    assert w in PendOf(s, me);
    forall u: Tid, t | t in PendOf(s', u) ensures t in PendOf(s, u) && t != w {
      if u == me {
        assert t in rest;
      } else {
        assert t in PendOf(s, u);
        assert w in PendOf(s, u) ==> u == me;
      }
    }
    forall i, j | 0 <= i < j < |rest| ensures rest[i] != rest[j] {
      assert PendOf(s, me)[i + 1] == rest[i] && PendOf(s, me)[j + 1] == rest[j];
    }
    forall t: Tid | Blk(s', t) && !Queued(s', t) ensures InHands(s', t) {
      assert t != w && InHands(s, t);
      var u: Tid :| t in PendOf(s, u);
      assert t in PendOf(s', u);
    }
  }

  lemma WokenOnce(s: Sys, s': Sys, w: Tid)
    requires ExitOk(s) && Blk(s, w) && !Blk(s', w) && !Queued(s, w)
    requires forall t: Tid ::
      && WaitPc(s', t) == WaitPc(s, t) && Queued(s', t) == Queued(s, t)
      && (t != w ==> Blk(s', t) == Blk(s, t))
    requires s'.procs == s.procs && s'.enqueued == s.enqueued
    requires s'.woken == if WaitPc(s, w).ExitWait? then s.woken + multiset{(w, WaitPc(s, w).p)} else s.woken
    ensures ExitOk(s')
  {}

  // ---- Every step keeps the invariant --------------------------------------------------------------------

  /** No blocked thread is put on a CPU, and a new spin is over only for a thread that is off. */
  lemma SpinKept(s: Sys, s': Sys)
    requires SpinOk(s) && PendOk(s)
    requires forall t :: t in s'.threads && s'.threads[t].onCpu && Blk(s, t) ==> s.threads[t].onCpu
    requires forall w :: w in s'.threads && s'.threads[w].pc.Enqueue? ==>
      (w in s.threads && s.threads[w].pc == s'.threads[w].pc) || !OnCpu(s', s'.threads[w].pc.w)
    ensures SpinOk(s')
  {
    hide PendOk;
    forall w | w in s'.threads && s'.threads[w].pc.Enqueue? && s'.threads[w].pc.w in s'.threads
      ensures !s'.threads[s'.threads[w].pc.w].onCpu
    {
      if w in s.threads && s.threads[w].pc == s'.threads[w].pc { TargetBlocked(s, w); }
    }
  }

  /** The thread that a waker is dealing with is blocked. */
  lemma TargetBlocked(s: Sys, w: Tid)
    requires PendOk(s) && w in s.threads && (s.threads[w].pc.Enqueue? || s.threads[w].pc.Spin?)
    ensures Blk(s, s.threads[w].pc.w) && !Queued(s, s.threads[w].pc.w) && s.threads[w].pc.w in PendOf(s, w)
  {
    hide Queued, Blk, PendOf, NoDup;
    InPend(s, w);
  }

  lemma InPend(s: Sys, w: Tid)
    requires w in s.threads && (s.threads[w].pc.Enqueue? || s.threads[w].pc.Spin?)
    ensures s.threads[w].pc.w in PendOf(s, w)
  {}

  ghost predicate OnCpu(s: Sys, t: Tid) { t in s.threads && s.threads[t].onCpu }

  /** A step that touches only the thread `me`, which is running before it and off no CPU after it. */
  lemma LocalStep(s: Sys, s': Sys, c: nat, th: Thread)
    requires Inv(s) && Active(s, c) && s'.threads == s.threads[s.current[c] := th]
    requires ThreadOk(th) && th.state != Ready && th.onCpu && !th.idle && (th.pc.Enqueue? ==> !OnCpu(s', th.pc.w))
    requires s'.rq == s.rq && s'.current == s.current && s'.idle == s.idle && s'.reap == s.reap && s'.freed == s.freed
    ensures Core(s') && SpinOk(s') && !Blk(s, s.current[c])
    ensures forall t: Tid :: t != s.current[c] ==> SameView(s, s', t)
  {
    CoreLocal(s, s', s.current[c], th);
    assert !Blk(s, s.current[c]) && OnCpu(s, s.current[c]);
    hide Core, CpuOk, RqOk, StateOk, ReapOk;
    SpinKept(s, s');
    hide Lists, SpinOk;
    forall t: Tid | t != s.current[c] ensures SameView(s, s', t) {}
  }

  lemma KeepLockTest(s: Sys, c: nat, m: Mid)
    requires Inv(s) && Enabled(s, LockTest(c, m))
    ensures Inv(Apply(s, LockTest(c, m)))
  {
    hide CpuOk, RqOk, StateOk, ReapOk, WaitOk, PendOk, HandsOk, MutexOk, ExitOk;
    var s', me := Apply(s, LockTest(c, m)), s.current[c];
    assert OnCpu(s, me) by { CurrentOn(s, c); }
    LocalStep(s, s', c, s'.threads[me]);
    if s.mutexes[m].locked { LockBlock(s, s', me, m); } else { LockTaken(s, s', me, m); }
  }

  lemma CurrentOn(s: Sys, c: nat)
    requires Core(s) && Cpu(s, c)
    ensures OnCpu(s, s.current[c]) && ThreadOk(s.threads[s.current[c]])
  {}

  lemma KeepTryLock(s: Sys, c: nat, m: Mid)
    requires Inv(s) && Enabled(s, TryLock(c, m))
    ensures Inv(Apply(s, TryLock(c, m)))
  {
    hide CpuOk, RqOk, StateOk, ReapOk, WaitOk, PendOk, HandsOk, MutexOk, ExitOk;
    var s', me := Apply(s, TryLock(c, m)), s.current[c];
    if !s.mutexes[m].locked {
      assert OnCpu(s, me) by { CurrentOn(s, c); }
      LocalStep(s, s', c, s'.threads[me]);
      LockTaken(s, s', me, m);
    }
  }

  lemma KeepUnlock(s: Sys, c: nat, m: Mid)
    requires Inv(s) && Enabled(s, Unlock(c, m))
    ensures Inv(Apply(s, Unlock(c, m)))
  {
    hide CpuOk, RqOk, StateOk, ReapOk, WaitOk, PendOk, HandsOk, MutexOk, ExitOk;
    var s', me := Apply(s, Unlock(c, m)), s.current[c];
    assert OnCpu(s, me) by { CurrentOn(s, c); }
    assert s'.threads == s.threads[me := s'.threads[me]];
    LocalStep(s, s', c, s'.threads[me]);
    if s.mutexes[m].waiters == [] {
      assert SameView(s, s', me);
      LockReleased(s, s', me, m);
    } else {
      assert Pend(s'.threads[me].pc) == [s.mutexes[m].waiters[0]];
      LockHandedOn(s, s', me, m);
    }
  }

  lemma KeepWaitTest(s: Sys, c: nat, p: Pid)
    requires Inv(s) && Enabled(s, WaitTest(c, p))
    ensures Inv(Apply(s, WaitTest(c, p)))
  {
    hide CpuOk, RqOk, StateOk, ReapOk, WaitOk, PendOk, HandsOk, MutexOk, ExitOk;
    var s', me := Apply(s, WaitTest(c, p)), s.current[c];
    assert OnCpu(s, me) by { CurrentOn(s, c); }
    LocalStep(s, s', c, s'.threads[me]);
    if s.procs[p].exited { ExitDone(s, s', me); } else { ExitBlock(s, s', me, p); }
  }

  lemma KeepMarkExited(s: Sys, c: nat, p: Pid)
    requires Inv(s) && Enabled(s, MarkExited(c, p))
    ensures Inv(Apply(s, MarkExited(c, p)))
  {
    hide CpuOk, RqOk, StateOk, ReapOk, WaitOk, PendOk, HandsOk, MutexOk, ExitOk;
    var s', me := Apply(s, MarkExited(c, p)), s.current[c];
    assert OnCpu(s, me) by { CurrentOn(s, c); }
    LocalStep(s, s', c, s'.threads[me]);
    QueueDetached(s, s', me, p);
  }

  /** Steps that leave the waiting protocol as it is: looking at the next thread to wake, and dying. */
  lemma KeepWaker(s: Sys, c: nat, a: Step)
    requires a == DrainNext(c) || a == SpinDone(c) || a == Die(c)
    requires Inv(s) && Enabled(s, a)
    ensures Inv(Apply(s, a))
  {
    hide CpuOk, RqOk, StateOk, ReapOk, WaitOk, PendOk, HandsOk, MutexOk, ExitOk;
    var s', me := Apply(s, a), s.current[c];
    assert OnCpu(s, me) by { CurrentOn(s, c); }
    LocalStep(s, s', c, s'.threads[me]);
    WakerView(s, c, a);
    ListsFrame(s, s');
  }

  lemma WakerView(s: Sys, c: nat, a: Step)
    requires a == DrainNext(c) || a == SpinDone(c) || a == Die(c)
    requires Enabled(s, a)
    ensures SameView(s, Apply(s, a), s.current[c])
  {
    if a.DrainNext? {
      var l := s.threads[s.current[c]].pc.list;
      assert l != [] ==> [l[0]] + l[1..] == l;
    }
  }

  lemma KeepWakeEnqueue(s: Sys, c: nat)
    requires Inv(s) && Enabled(s, WakeEnqueue(c))
    ensures Inv(Apply(s, WakeEnqueue(c)))
  {
    hide CpuOk, RqOk, StateOk, ReapOk, WaitOk, PendOk, HandsOk, MutexOk, ExitOk;
    var s', me := Apply(s, WakeEnqueue(c)), s.current[c];
    var pc := s.threads[me].pc;
    var mid := At(s, c, if pc.rest == [] then Normal else Drain(pc.rest));
    CurrentOn(s, c);
    WokenIsOff(s, me);
    LocalStep(s, mid, c, mid.threads[me]);
    CoreReady(mid, s', pc.w, s'.threads[pc.w]) by { BlockedIsOld(s, pc.w); }
    SpinKept(s, s');
    forall t: Tid | t != me && t != pc.w ensures SameView(s, s', t) { assert SameView(s, mid, t); }
    Woke(s, s', me, pc.w, pc.rest);
  }

  /** The thread that a waker is about to queue: blocked, and off its CPU. */
  lemma WokenIsOff(s: Sys, me: Tid)
    requires Inv(s) && me in s.threads && s.threads[me].pc.Enqueue? && s.threads[me].state == Running
    ensures var w := s.threads[me].pc.w; Blk(s, w) && !OnCpu(s, w) && w != me
  {
    hide Core, WaitOk, PendOk, HandsOk, MutexOk, ExitOk;
    TargetBlocked(s, me);
  }

  lemma BlockedIsOld(s: Sys, t: Tid)
    requires Core(s) && Blk(s, t)
    ensures t !in s.freed && !s.threads[t].idle
  {}

  lemma KeepCreate(s: Sys, t: Tid)
    requires Inv(s) && Enabled(s, Create(t))
    ensures Inv(Apply(s, Create(t)))
  {
    hide CpuOk, RqOk, StateOk, ReapOk, WaitOk, PendOk, HandsOk, MutexOk, ExitOk;
    var s' := Apply(s, Create(t));
    CoreReady(s, s', t, s'.threads[t]);
    SpinKept(s, s');
    ListsFrame(s, s');
  }

  lemma KeepReap(s: Sys, c: nat)
    requires Inv(s) && Enabled(s, TickReap(c))
    ensures Inv(Apply(s, TickReap(c)))
  {
    hide CpuOk, RqOk, StateOk, WaitOk, PendOk, HandsOk, MutexOk, ExitOk;
    var s', d := Apply(s, TickReap(c)), s.reap[c].value;
    CoreReap(s, s', c);
    assert ThreadOk(s.threads[d]) by { assert StateOk(s); DeadIsOk(s, d); }
    hide ReapOk;
    SpinKept(s, s');
    ListsFrame(s, s');
  }

  lemma DeadIsOk(s: Sys, d: Tid)
    requires StateOk(s) && d in s.threads
    ensures ThreadOk(s.threads[d])
  {}

  lemma KeepSwitch(s: Sys, c: nat)
    requires Inv(s) && Enabled(s, TickSwitch(c))
    ensures Inv(Apply(s, TickSwitch(c)))
  {
    hide CpuOk, RqOk, StateOk, ReapOk, WaitOk, PendOk, HandsOk, MutexOk, ExitOk, Switch;
    var s', cur := Apply(s, TickSwitch(c)), s.current[c];
    CoreSwitch(s, s', c);
    if s' != s {
      var next := s'.current[c];
      NextNotBlocked(s, s', c, next);
      SpinKept(s, s');
      forall t: Tid ensures SameView(s, s', t) {}
      ListsFrame(s, s');
    }
  }

  lemma NextNotBlocked(s: Sys, s': Sys, c: nat, next: Tid)
    requires Core(s) && Cpu(s, c) && Switched(s, s', c, next)
    ensures !Blk(s, next)
  {}

  /** Each step of the protocol, on any CPU, keeps the whole invariant. */
  lemma StepKeepsInv(s: Sys, a: Step)
    requires Inv(s) && Enabled(s, a)
    ensures Inv(Apply(s, a))
  {
    hide Inv, Enabled, Apply;
    match a
    case Create(t) => KeepCreate(s, t);
    case TickReap(c) => KeepReap(s, c);
    case TickSwitch(c) => KeepSwitch(s, c);
    case LockTest(c, m) => KeepLockTest(s, c, m);
    case TryLock(c, m) => KeepTryLock(s, c, m);
    case Unlock(c, m) => KeepUnlock(s, c, m);
    case WaitTest(c, p) => KeepWaitTest(s, c, p);
    case MarkExited(c, p) => KeepMarkExited(s, c, p);
    case DrainNext(c) => KeepWaker(s, c, a);
    case SpinDone(c) => KeepWaker(s, c, a);
    case WakeEnqueue(c) => KeepWakeEnqueue(s, c);
    case Die(c) => KeepWaker(s, c, a);
  }
}
