/** The kernel's own data: threads linked through run_next and wait_next, list heads, per-CPU arrays.
    Each method is one critical section of kernel/sched/sched.c, kernel/sync/mutex.c or
    kernel/proc/process.c, and refines one step of the protocol. */
module SchedKernel {
  import opened Machine
  import opened SchedModel
  import opened SchedInv
  import SchedRuns

  type Ptr = Option<Tid>

  datatype MutexObj = MutexObj(locked: bool, owner: Ptr, waiters: Ptr)

  /** The scheduling fields of a thread; the two link fields are kept beside them. */
  datatype Tcb = Tcb(state: RunState, onCpu: bool, isIdle: bool)

  datatype ProcObj = ProcObj(exited: bool, waitQueue: Ptr)

  /** The local variables of a thread inside blocking or waking code. `seen`: on_cpu was read as false. */
  datatype Local =
    | Plain
    | Locking(m: Mid)
    | Waiting(p: Pid)
    | Draining(w: Ptr)
    | Waking(t: Tid, nxt: Ptr, seen: bool)

  // ---- Linked lists -----------------------------------------------------------------------------

  /** `l` is the list that starts at `head` and follows `next` to NULL. */
  ghost predicate Chain(next: map<Tid, Ptr>, head: Ptr, l: seq<Tid>)
    ensures Chain(next, head, l) ==> (head == None <==> l == []) && (l != [] ==> head == Some(l[0]))
  {
    && head == First(l)
    && forall i :: 0 <= i < |l| ==> l[i] in next && next[l[i]] == First(l[i + 1..])
  }

  function First(l: seq<Tid>): Ptr { if l == [] then None else Some(l[0]) }

  function Last(l: seq<Tid>): Ptr { if l == [] then None else Some(l[|l| - 1]) }

  lemma ChainKept(next: map<Tid, Ptr>, head: Ptr, l: seq<Tid>, t: Tid, v: Ptr)
    requires Chain(next, head, l) && t !in l
    ensures Chain(next[t := v], head, l)
  {}

  lemma ChainPush(next: map<Tid, Ptr>, head: Ptr, l: seq<Tid>, t: Tid)
    requires Chain(next, head, l) && t !in l
    ensures Chain(next[t := head], Some(t), [t] + l)
  {}

  lemma ChainPop(next: map<Tid, Ptr>, head: Ptr, l: seq<Tid>)
    requires Chain(next, head, l) && l != []
    ensures head == Some(l[0]) && l[0] in next && Chain(next, next[l[0]], l[1..])
  {}

  /** Linking a new thread behind the last one. */
  lemma ChainAppend(next: map<Tid, Ptr>, head: Ptr, l: seq<Tid>, t: Tid)
    requires Chain(next, head, l) && NoDup(l) && t !in l
    ensures var n := next[t := None];
      Chain(if l == [] then n else n[l[|l| - 1] := Some(t)], if l == [] then Some(t) else head, l + [t])
  {}

  // ---- How the kernel's data represents a state of the protocol ------------------------------------------

  ghost predicate LocksMatch(mutexes: map<Mid, MutexObj>, next: map<Tid, Ptr>, am: map<Mid, Mutex>) {
    && mutexes.Keys == am.Keys
    && forall m :: m in am ==>
         && mutexes[m].locked == am[m].locked && mutexes[m].owner == am[m].owner
         && Chain(next, mutexes[m].waiters, am[m].waiters)
  }

  ghost predicate ProcsMatch(procs: map<Pid, ProcObj>, next: map<Tid, Ptr>, ap: map<Pid, Process>) {
    && procs.Keys == ap.Keys
    && forall p :: p in ap ==> procs[p].exited == ap[p].exited && Chain(next, procs[p].waitQueue, ap[p].waitq)
  }

  /** A thread's locals against its program point; a detached list is a chain like any other. */
  ghost predicate LocalMatches(f: Local, next: map<Tid, Ptr>, pc: Pc) {
    match pc
    case Normal => f == Plain
    case LockWait(m) => f == Locking(m)
    case ExitWait(p) => f == Waiting(p)
    case Drain(l) => f.Draining? && Chain(next, f.w, l)
    case Spin(w, rest) => f.Waking? && f.t == w && !f.seen && Chain(next, f.nxt, rest)
    case Enqueue(w, rest) => f.Waking? && f.t == w && f.seen && Chain(next, f.nxt, rest)
  }

  ghost predicate LocalsMatch(locals: map<Tid, Local>, next: map<Tid, Ptr>, ts: map<Tid, Thread>) {
    locals.Keys == ts.Keys && forall t :: t in ts ==> LocalMatches(locals[t], next, ts[t].pc)
  }

  ghost predicate ThreadsMatch(tcbs: map<Tid, Tcb>, ts: map<Tid, Thread>) {
    && tcbs.Keys == ts.Keys
    && forall t :: t in ts ==> tcbs[t] == TcbOf(ts[t])
  }

  function TcbOf(th: Thread): Tcb { Tcb(th.state, th.onCpu, th.idle) }

  // ---- Writing wait_next of a thread that is on no list ---------------------------------------------------

  /** The threads whose wait_next some chain goes through. */
  ghost predicate Threaded(s: Sys, t: Tid) {
    || (exists m :: m in s.mutexes && t in s.mutexes[m].waiters)
    || (exists p :: p in s.procs && t in s.procs[p].waitq)
    || (exists w :: w in s.threads && t in Behind(s.threads[w].pc))
  }

  /** The part of a detached list that is still linked: all but the thread being woken. */
  ghost function Behind(pc: Pc): seq<Tid> {
    match pc
    case Drain(l) => l
    case Spin(_, rest) => rest
    case Enqueue(_, rest) => rest
    case _ => []
  }

  /** Everything that is linked through wait_next, and the links. */
  datatype Links = Links(
    mutexes: map<Mid, MutexObj>,
    procs: map<Pid, ProcObj>,
    locals: map<Tid, Local>,
    next: map<Tid, Ptr>)

  ghost predicate ListsMatch(d: Links, s: Sys) {
    && LocksMatch(d.mutexes, d.next, s.mutexes) && ProcsMatch(d.procs, d.next, s.procs)
    && LocalsMatch(d.locals, d.next, s.threads)
  }

  /** The kernel's values show a protocol state that satisfies the invariant. */
  ghost predicate Shows(tcbs: map<Tid, Tcb>, d: Links, s: Sys)
  {
    Inv(s) && ThreadsMatch(tcbs, s.threads) && ListsMatch(d, s)
  }

  lemma NextWritten(d: Links, s: Sys, t: Tid, v: Ptr)
    requires ListsMatch(d, s) && !Threaded(s, t)
    ensures ListsMatch(d.(next := d.next[t := v]), s)
  {
    hide Chain;
    forall m | m in s.mutexes ensures Chain(d.next[t := v], d.mutexes[m].waiters, s.mutexes[m].waiters) {
      ChainKept(d.next, d.mutexes[m].waiters, s.mutexes[m].waiters, t, v);
    }
    forall p | p in s.procs ensures Chain(d.next[t := v], d.procs[p].waitQueue, s.procs[p].waitq) {
      ChainKept(d.next, d.procs[p].waitQueue, s.procs[p].waitq, t, v);
    }
    forall w | w in s.threads ensures LocalMatches(d.locals[w], d.next[t := v], s.threads[w].pc) {
      LocalKept(d.locals[w], d.next, s.threads[w].pc, t, v);
    }
  }

  lemma LocalKept(f: Local, next: map<Tid, Ptr>, pc: Pc, t: Tid, v: Ptr)
    requires LocalMatches(f, next, pc) && t !in Behind(pc)
    ensures LocalMatches(f, next[t := v], pc)
  {
    hide Chain;
    match pc
    case Drain(l) => ChainKept(next, f.w, l, t, v);
    case Spin(w, rest) => ChainKept(next, f.nxt, rest, t, v);
    case Enqueue(w, rest) => ChainKept(next, f.nxt, rest, t, v);
    case _ =>
  }

  /** A thread that is not blocked is on no list. */
  lemma AwakeIsLoose(s: Sys, t: Tid)
    requires Lists(s) && !Blk(s, t)
    ensures !Threaded(s, t)
  {
    hide Blk, Queued, HandsOk, MutexOk, ExitOk;
    forall w | w in s.threads ensures t !in Behind(s.threads[w].pc) {
      assert forall x: Tid :: x in Behind(s.threads[w].pc) ==> x in PendOf(s, w);
    }
  }

  /** The thread being woken is on no list. */
  lemma WokenIsLoose(s: Sys, me: Tid)
    requires Lists(s) && me in s.threads && (s.threads[me].pc.Spin? || s.threads[me].pc.Enqueue?)
    ensures !Threaded(s, s.threads[me].pc.w)
  {
    hide Blk, HandsOk, MutexOk, ExitOk, WaitOk, Queued, PendOk;
    var t := s.threads[me].pc.w;
    TargetBlocked(s, me);
    OffLists(s, t);
    forall w | w in s.threads ensures t !in Behind(s.threads[w].pc) { NotBehind(s, me, w); }
  }

  lemma OffLists(s: Sys, t: Tid)
    requires WaitOk(s) && !Queued(s, t)
    ensures forall m :: m in s.mutexes ==> t !in s.mutexes[m].waiters
    ensures forall p :: p in s.procs ==> t !in s.procs[p].waitq
  {}

  lemma NotBehind(s: Sys, me: Tid, w: Tid)
    requires PendOk(s) && me in s.threads && (s.threads[me].pc.Spin? || s.threads[me].pc.Enqueue?) && w in s.threads
    ensures s.threads[me].pc.w !in Behind(s.threads[w].pc)
  {
    hide Blk, Queued;
    var t := s.threads[me].pc.w;
    assert PendOf(s, me)[0] == t;
    forall i | 0 <= i < |Behind(s.threads[me].pc)| ensures Behind(s.threads[me].pc)[i] != t {
      assert PendOf(s, me)[i + 1] == Behind(s.threads[me].pc)[i];
    }
    assert t in Behind(s.threads[w].pc) ==> t in PendOf(s, w);
  }

  // ---- The lists after each kind of change ---------------------------------------------------------------

  /** Program points and lists are as before. */
  lemma MatchSame(d: Links, s: Sys, s': Sys)
    requires ListsMatch(d, s) && s'.mutexes == s.mutexes && s'.procs == s.procs
    requires s'.threads.Keys == s.threads.Keys && forall t :: t in s.threads ==> s'.threads[t].pc == s.threads[t].pc
    ensures ListsMatch(d, s')
  {}

  /** One thread moves to another program point. */
  lemma MatchMoved(d: Links, s: Sys, s': Sys,
                   t: Tid, f: Local)
    requires ListsMatch(d, s) && s'.mutexes == s.mutexes && s'.procs == s.procs
    requires t in s'.threads && s'.threads == s.threads[t := s'.threads[t]] && LocalMatches(f, d.next, s'.threads[t].pc)
    ensures ListsMatch(d.(locals := d.locals[t := f]), s')
  {}

  /** One mutex changes. */
  lemma MatchLock(d: Links, s: Sys, s': Sys,
                  m: Mid, mu: MutexObj)
    requires ListsMatch(d, s) && m in s.mutexes && m in s'.mutexes
    requires s'.mutexes == s.mutexes[m := s'.mutexes[m]] && s'.procs == s.procs && s'.threads == s.threads
    requires mu.locked == s'.mutexes[m].locked && mu.owner == s'.mutexes[m].owner
    requires Chain(d.next, mu.waiters, s'.mutexes[m].waiters)
    ensures ListsMatch(d.(mutexes := d.mutexes[m := mu]), s')
  {}

  /** One process changes. */
  lemma MatchProc(d: Links, s: Sys, s': Sys,
                  p: Pid, pr: ProcObj)
    requires ListsMatch(d, s) && p in s.procs && p in s'.procs
    requires s'.procs == s.procs[p := s'.procs[p]] && s'.mutexes == s.mutexes && s'.threads == s.threads
    requires pr.exited == s'.procs[p].exited && Chain(d.next, pr.waitQueue, s'.procs[p].waitq)
    ensures ListsMatch(d.(procs := d.procs[p := pr]), s')
  {}

  lemma CurrentLoose(s: Sys, c: nat)
    requires Inv(s) && Active(s, c)
    ensures !Threaded(s, s.current[c])
  {
    assert !Blk(s, s.current[c]);
    AwakeIsLoose(s, s.current[c]);
  }

  // ---- Threads and CPUs after each kind of change ----------------------------------------------------------

  lemma ThreadPut(tcbs: map<Tid, Tcb>, ts: map<Tid, Thread>, t: Tid, th: Thread)
    requires ThreadsMatch(tcbs, ts)
    ensures ThreadsMatch(tcbs[t := TcbOf(th)], ts[t := th])
    ensures t in ts && TcbOf(th) == TcbOf(ts[t]) ==> ThreadsMatch(tcbs, ts[t := th])
  {}

  function RequeueTcb(tcbs: map<Tid, Tcb>, cur: Tid): map<Tid, Tcb>
    requires cur in tcbs
  {
    if tcbs[cur].state == Running && !tcbs[cur].isIdle then tcbs[cur := tcbs[cur].(state := Ready)] else tcbs
  }

  function HandOverTcb(tcbs: map<Tid, Tcb>, cur: Tid, next: Tid): map<Tid, Tcb>
    requires cur in tcbs && next in tcbs
  {
    var t1 := tcbs[next := tcbs[next].(state := Running)];
    var t2 := if cur != next then t1[cur := t1[cur].(onCpu := false)] else t1;
    t2[next := t2[next].(onCpu := true)]
  }

  lemma SwitchMatches(tcbs: map<Tid, Tcb>, ts: map<Tid, Thread>, cur: Tid, next: Tid)
    requires ThreadsMatch(tcbs, ts) && cur in ts && next in ts
    ensures ThreadsMatch(HandOverTcb(RequeueTcb(tcbs, cur), cur, next), HandOver(Requeue(ts, cur), cur, next))
  {}

  lemma SwitchKeepsPcs(s: Sys, c: nat)
    requires Enabled(s, TickSwitch(c))
    ensures var s' := Apply(s, TickSwitch(c));
      && s'.threads.Keys == s.threads.Keys && (forall t :: t in s.threads ==> s'.threads[t].pc == s.threads[t].pc)
      && s'.mutexes == s.mutexes && s'.procs == s.procs && s'.idle == s.idle
  {}

  lemma ReapMatches(tcbs: map<Tid, Tcb>, d: Links, s: Sys, c: nat)
    requires Enabled(s, TickReap(c)) && ThreadsMatch(tcbs, s.threads) && ListsMatch(d, s)
    ensures var dead, s' := s.reap[c].value, Apply(s, TickReap(c));
      && ThreadsMatch(tcbs - {dead}, s'.threads)
      && ListsMatch(d.(locals := d.locals - {dead}), s')
  {}

  function BootTcbs(n: nat): map<Tid, Tcb> { map t | 0 <= t <= n :: TcbOf(SchedRuns.BootThread(t)) }

  function BootLocals(n: nat): map<Tid, Local> { map t | t in BootTcbs(n) :: Plain }

  function BootMutexes(ms: set<Mid>): map<Mid, MutexObj> { map m | m in ms :: MutexObj(false, None, None) }

  function BootProcs(ps: set<Pid>): map<Pid, ProcObj> { map p | p in ps :: ProcObj(false, None) }

  lemma BootShows(n: nat, ms: set<Mid>, ps: set<Pid>)
    requires n >= 1
    ensures Shows(BootTcbs(n), Links(BootMutexes(ms), BootProcs(ps), BootLocals(n), map[]), SchedRuns.Boot(n, ms, ps))
  {
    hide Inv;
    SchedRuns.BootOk(n, ms, ps);
  }

  // ---- The kernel ------------------------------------------------------------------------------------------

  class Kernel {
    var rqHead: Ptr
    var rqTail: Ptr
    var runNext: map<Tid, Ptr>
    var waitNext: map<Tid, Ptr>
    var tcbs: map<Tid, Tcb>
    var locals: map<Tid, Local>
    var cpuCurrent: seq<Tid>
    var cpuIdle: seq<Tid>
    var reapPending: seq<Ptr>
    var mutexes: map<Mid, MutexObj>
    var procs: map<Pid, ProcObj>
    ghost var abs: Sys

    /** The data represents a protocol state that satisfies the invariant. */
    ghost predicate Valid()
      reads this
    {
      && Shows(tcbs, Links(mutexes, procs, locals, waitNext), abs)
      && RunQueue(abs.rq)
      && cpuCurrent == abs.current && cpuIdle == abs.idle && reapPending == abs.reap
    }

    ghost predicate RunQueue(q: seq<Tid>)
      reads this`runNext, this`rqHead, this`rqTail
    {
      Chain(runNext, rqHead, q) && rqTail == Last(q)
    }

    /** sched_init on the first CPU and sched_ap_enter on the others. */
    constructor (n: nat, ms: set<Mid>, ps: set<Pid>)
      requires n >= 1
      ensures Valid() && abs == SchedRuns.Boot(n, ms, ps)
    {
      hide Shows, BootTcbs, BootLocals, BootMutexes, BootProcs;
      rqHead, rqTail, runNext, waitNext := None, None, map[], map[];
      tcbs, locals, mutexes, procs := BootTcbs(n), BootLocals(n), BootMutexes(ms), BootProcs(ps);
      cpuCurrent := seq(n, c => if c == 0 then 0 else c + 1);
      cpuIdle := seq(n, c => c + 1);
      reapPending := seq(n, _ => None);
      abs := SchedRuns.Boot(n, ms, ps);
      new;
      BootShows(n, ms, ps);
    }

    // -- Run queue

    method RqAdd(t: Tid, ghost q: seq<Tid>)
      requires RunQueue(q) && NoDup(q) && t !in q
      modifies this`runNext, this`rqHead, this`rqTail
      ensures RunQueue(q + [t])
    {
      ChainAppend(runNext, rqHead, q, t);
      hide Chain;
      runNext := runNext[t := None];
      if rqTail.Some? {
        runNext := runNext[rqTail.value := Some(t)];
      } else {
        rqHead := Some(t);
      }
      rqTail := Some(t);
    }

    method RqTake(ghost q: seq<Tid>) returns (t: Ptr)
      requires RunQueue(q) && NoDup(q)
      modifies this`runNext, this`rqHead, this`rqTail
      ensures t == First(q) && RunQueue(if q == [] then [] else q[1..])
    {
      if rqHead == None {
        return None;
      }
      ChainPop(runNext, rqHead, q);
      ChainKept(runNext, runNext[q[0]], q[1..], q[0], None) by { assert forall i :: 0 < i < |q| ==> q[i] != q[0]; }
      hide Chain;
      t := rqHead;
      rqHead := runNext[t.value];
      if rqHead == None {
        rqTail := None;
      }
      runNext := runNext[t.value := None];
    }

    /** A new thread, off-CPU and READY, goes to the tail of the run queue. */
    method SchedAdd(t: Tid)
      requires Valid() && Enabled(abs, Create(t))
      modifies this
      ensures Valid() && abs == Apply(old(abs), Create(t))
    {
      hide Shows, Chain, Apply, Enabled;
      CreateStep(tcbs, Links(mutexes, procs, locals, waitNext), abs, t);
      tcbs := tcbs[t := Tcb(Ready, false, false)];
      locals := locals[t := Plain];
      RqAdd(t, abs.rq);
      abs := Apply(abs, Create(t));
    }

    /** sched_tick, first part: the thread that died a tick ago goes. */
    method Reap(c: nat)
      requires Valid() && Enabled(abs, TickReap(c))
      modifies this
      ensures Valid() && abs == Apply(old(abs), TickReap(c))
    {
      hide Shows, Chain, Apply, Enabled;
      ReapStep(tcbs, Links(mutexes, procs, locals, waitNext), abs, c);
      var dead := reapPending[c].value;
      reapPending := reapPending[c := None];
      tcbs, locals := tcbs - {dead}, locals - {dead};
      abs := Apply(abs, TickReap(c));
    }

    /** The current thread of CPU `c` goes back to the queue if it was preempted, or on to the reaper if dead. */
    method PutBack(c: nat, ghost q: seq<Tid>)
      requires c < |cpuCurrent| && c < |reapPending| && cpuCurrent[c] in tcbs
      requires RunQueue(q) && NoDup(q) && cpuCurrent[c] !in q
      modifies this`tcbs, this`reapPending, this`runNext, this`rqHead, this`rqTail
      ensures tcbs == RequeueTcb(old(tcbs), cpuCurrent[c])
      ensures var cur, th := cpuCurrent[c], old(tcbs)[cpuCurrent[c]];
        && RunQueue(if th.state == Running && !th.isIdle then q + [cur] else q)
        && reapPending == if th.state == Dead then old(reapPending)[c := Some(cur)] else old(reapPending)
    {
      hide Chain;
      var cur := cpuCurrent[c];
      if tcbs[cur].state == Running && !tcbs[cur].isIdle {
        tcbs := tcbs[cur := tcbs[cur].(state := Ready)];
        RqAdd(cur, q);
      } else if tcbs[cur].state == Dead {
        reapPending := reapPending[c := Some(cur)];
      }
    }

    /** `next` runs on CPU `c`; the on_cpu mark moves to it. */
    method TakeOver(c: nat, next: Tid)
      requires c < |cpuCurrent| && cpuCurrent[c] in tcbs && next in tcbs
      modifies this`tcbs, this`cpuCurrent
      ensures tcbs == HandOverTcb(old(tcbs), old(cpuCurrent)[c], next) && cpuCurrent == old(cpuCurrent)[c := next]
    {
      var cur := cpuCurrent[c];
      tcbs := tcbs[next := tcbs[next].(state := Running)];
      if cur != next {
        tcbs := tcbs[cur := tcbs[cur].(onCpu := false)];
      }
      tcbs := tcbs[next := tcbs[next].(onCpu := true)];
      cpuCurrent := cpuCurrent[c := next];
    }

    /** sched_tick, second part: requeue or retire the current thread, take the next, hand over on_cpu. */
    method Switch(c: nat)
      requires Valid() && Enabled(abs, TickSwitch(c))
      modifies this
      ensures Valid() && abs == Apply(old(abs), TickSwitch(c))
    {
      hide Shows, Chain, Apply, Enabled, Requeue, RequeueTcb, HandOver, HandOverTcb, NoDup, RunQueue;
      SwitchStep(tcbs, Links(mutexes, procs, locals, waitNext), abs, c);
      assert Again(abs, c) <==> tcbs[cpuCurrent[c]].state == Running && !tcbs[cpuCurrent[c]].isIdle;
      Dispatch(c, abs.rq, Requeued(abs, c));
      abs := Apply(abs, TickSwitch(c));
    }

    method Dispatch(c: nat, ghost q: seq<Tid>, ghost q': seq<Tid>)
      requires c < |cpuCurrent| && c < |reapPending| && c < |cpuIdle| && cpuCurrent[c] in tcbs
      requires RunQueue(q) && NoDup(q) && cpuCurrent[c] !in q && NoDup(q')
      requires var cur := cpuCurrent[c]; q' == if tcbs[cur].state == Running && !tcbs[cur].isIdle then q + [cur] else q
      requires (if q' == [] then cpuIdle[c] else q'[0]) in tcbs
      modifies this`tcbs, this`reapPending, this`runNext, this`rqHead, this`rqTail, this`cpuCurrent
      ensures var cur, next := old(cpuCurrent)[c], if q' == [] then cpuIdle[c] else q'[0];
        && cpuCurrent == old(cpuCurrent)[c := next]
        && tcbs == HandOverTcb(RequeueTcb(old(tcbs), cur), cur, next)
        && reapPending == if old(tcbs)[cur].state == Dead then old(reapPending)[c := Some(cur)] else old(reapPending)
      ensures RunQueue(if q' == [] then [] else q'[1..])
    {
      hide Chain, NoDup, HandOverTcb, RunQueue;
      PutBack(c, q);
      var head := RqTake(q');
      TakeOver(c, if head == None then cpuIdle[c] else head.value);
    }

    // -- Mutexes

    /** mutex_lock, from acquiring the spinlock to taking the mutex or blocking. */
    method LockOrBlock(c: nat, m: Mid) returns (taken: bool)
      requires Valid() && Enabled(abs, LockTest(c, m))
      modifies this
      ensures Valid() && abs == Apply(old(abs), LockTest(c, m))
      ensures m in old(mutexes) && taken == !old(mutexes)[m].locked
    {
      hide Shows, Chain, Apply, Enabled;
      LockSame(tcbs, Links(mutexes, procs, locals, waitNext), abs, c, m, LockTest(c, m));
      taken := !mutexes[m].locked;
      if taken {
        TakeLock(c, m, LockTest(c, m));
      } else {
        BlockOn(c, m);
      }
    }

    /** The mutex is free: the thread becomes its owner. */
    method TakeLock(c: nat, m: Mid, ghost a: Step)
      requires Valid() && (a == LockTest(c, m) || a == SchedModel.TryLock(c, m)) && Enabled(abs, a)
      requires m in abs.mutexes && !abs.mutexes[m].locked
      modifies this
      ensures Valid() && abs == Apply(old(abs), a)
    {
      hide Shows, Chain, Apply, Enabled;
      LockTakeStep(tcbs, Links(mutexes, procs, locals, waitNext), abs, c, m, a);
      var t := cpuCurrent[c];
      mutexes := mutexes[m := mutexes[m].(locked := true, owner := Some(t))];
      locals := locals[t := Plain];
      abs := Apply(abs, a);
    }

    /** It is not: the thread goes to the head of the waiters. */
    method BlockOn(c: nat, m: Mid)
      requires Valid() && Enabled(abs, LockTest(c, m)) && m in abs.mutexes && abs.mutexes[m].locked
      modifies this
      ensures Valid() && abs == Apply(old(abs), LockTest(c, m))
    {
      hide Shows, Chain, Apply, Enabled;
      LockBlockStep(tcbs, Links(mutexes, procs, locals, waitNext), abs, c, m);
      var t := cpuCurrent[c];
      waitNext := waitNext[t := mutexes[m].waiters];
      mutexes := mutexes[m := mutexes[m].(waiters := Some(t))];
      tcbs := tcbs[t := tcbs[t].(state := Blocked)];
      locals := locals[t := Locking(m)];
      abs := Apply(abs, LockTest(c, m));
    }

    method TryLock(c: nat, m: Mid) returns (taken: bool)
      requires Valid() && Enabled(abs, SchedModel.TryLock(c, m))
      modifies this
      ensures Valid() && abs == Apply(old(abs), SchedModel.TryLock(c, m))
      ensures m in old(mutexes) && taken == !old(mutexes)[m].locked
    {
      hide Shows, Chain, Apply, Enabled;
      LockSame(tcbs, Links(mutexes, procs, locals, waitNext), abs, c, m, SchedModel.TryLock(c, m));
      taken := !mutexes[m].locked;
      if taken {
        TakeLock(c, m, SchedModel.TryLock(c, m));
      } else {
        TryFails(abs, c, m);
      }
    }

    /** mutex_unlock up to the call of sched_wake: open the mutex and pop the head of its list. */
    method Unlock(c: nat, m: Mid)
      requires Valid() && Enabled(abs, SchedModel.Unlock(c, m))
      modifies this
      ensures Valid() && abs == Apply(old(abs), SchedModel.Unlock(c, m))
    {
      hide Shows, Chain, Apply, Enabled;
      LockSame(tcbs, Links(mutexes, procs, locals, waitNext), abs, c, m, SchedModel.Unlock(c, m));
      if mutexes[m].waiters != None {
        PopWaiter(c, m);
      } else {
        UnlockStep(tcbs, Links(mutexes, procs, locals, waitNext), abs, c, m);
        mutexes := mutexes[m := MutexObj(false, None, None)];
        abs := Apply(abs, SchedModel.Unlock(c, m));
      }
    }

    method PopWaiter(c: nat, m: Mid)
      requires Valid() && Enabled(abs, SchedModel.Unlock(c, m)) && m in abs.mutexes && abs.mutexes[m].waiters != []
      modifies this
      ensures Valid() && abs == Apply(old(abs), SchedModel.Unlock(c, m))
    {
      hide Shows, Chain, Apply, Enabled;
      UnlockPopStep(tcbs, Links(mutexes, procs, locals, waitNext), abs, c, m);
      var t, woken := cpuCurrent[c], mutexes[m].waiters.value;
      mutexes := mutexes[m := MutexObj(false, None, waitNext[woken])];
      waitNext := waitNext[woken := None];
      locals := locals[t := Waking(woken, None, false)];
      abs := Apply(abs, SchedModel.Unlock(c, m));
    }

    // -- Process wait

    /** process_wait, from acquiring the spinlock to leaving or blocking. */
    method WaitOrReturn(c: nat, p: Pid) returns (done: bool)
      requires Valid() && Enabled(abs, WaitTest(c, p))
      modifies this
      ensures Valid() && abs == Apply(old(abs), WaitTest(c, p))
      ensures p in old(procs) && done == old(procs)[p].exited
    {
      hide Shows, Chain, Apply, Enabled;
      ProcSame(tcbs, Links(mutexes, procs, locals, waitNext), abs, c, p, WaitTest(c, p));
      done := procs[p].exited;
      if done {
        WaitDoneStep(tcbs, Links(mutexes, procs, locals, waitNext), abs, c, p);
        locals := locals[cpuCurrent[c] := Plain];
        abs := Apply(abs, WaitTest(c, p));
      } else {
        WaitFor(c, p);
      }
    }

    /** The process runs on: the thread goes to the head of its wait queue. */
    method WaitFor(c: nat, p: Pid)
      requires Valid() && Enabled(abs, WaitTest(c, p)) && p in abs.procs && !abs.procs[p].exited
      modifies this
      ensures Valid() && abs == Apply(old(abs), WaitTest(c, p))
    {
      hide Shows, Chain, Apply, Enabled;
      WaitBlockStep(tcbs, Links(mutexes, procs, locals, waitNext), abs, c, p);
      var t := cpuCurrent[c];
      waitNext := waitNext[t := procs[p].waitQueue];
      procs := procs[p := procs[p].(waitQueue := Some(t))];
      tcbs := tcbs[t := tcbs[t].(state := Blocked)];
      locals := locals[t := Waiting(p)];
      abs := Apply(abs, WaitTest(c, p));
    }

    /** process_mark_exited up to its loop: set exited and detach the queue. */
    method MarkExited(c: nat, p: Pid)
      requires Valid() && Enabled(abs, SchedModel.MarkExited(c, p))
      modifies this
      ensures Valid() && abs == Apply(old(abs), SchedModel.MarkExited(c, p))
    {
      hide Shows, Chain, Apply, Enabled;
      ProcSame(tcbs, Links(mutexes, procs, locals, waitNext), abs, c, p, SchedModel.MarkExited(c, p));
      MarkExitedStep(tcbs, Links(mutexes, procs, locals, waitNext), abs, c, p);
      var t := cpuCurrent[c];
      locals := locals[t := Draining(procs[p].waitQueue)];
      procs := procs[p := ProcObj(true, None)];
      abs := Apply(abs, SchedModel.MarkExited(c, p));
    }

    /** The loop of process_mark_exited: at NULL it ends; else it saves the link, clears it, and goes to wake. */
    method NextToWake(c: nat)
      requires Valid() && Enabled(abs, DrainNext(c))
      modifies this
      ensures Valid() && abs == Apply(old(abs), DrainNext(c))
    {
      hide Shows, Chain, Apply, Enabled;
      DrainSame(tcbs, Links(mutexes, procs, locals, waitNext), abs, c);
      var t := cpuCurrent[c];
      var w := locals[t].w;
      if w == None {
        DrainDoneStep(tcbs, Links(mutexes, procs, locals, waitNext), abs, c);
        locals := locals[t := Plain];
      } else {
        DrainStep(tcbs, Links(mutexes, procs, locals, waitNext), abs, c);
        var nxt := waitNext[w.value];
        waitNext := waitNext[w.value := None];
        locals := locals[t := Waking(w.value, nxt, false)];
      }
      abs := Apply(abs, DrainNext(c));
    }

    // -- sched_wake

    /** One turn of the spin on on_cpu. */
    method SpinOnce(c: nat) returns (off: bool)
      requires Valid() && Active(abs, c) && abs.threads[abs.current[c]].pc.Spin?
      modifies this
      ensures Valid() && off == Enabled(old(abs), SpinDone(c))
      ensures abs == if off then Apply(old(abs), SpinDone(c)) else old(abs)
    {
      hide Shows, Chain, Apply;
      SpinSame(tcbs, Links(mutexes, procs, locals, waitNext), abs, c);
      var t := cpuCurrent[c];
      if tcbs[locals[t].t].onCpu {
        return false;
      }
      SpinDoneStep(tcbs, Links(mutexes, procs, locals, waitNext), abs, c);
      locals := locals[t := locals[t].(seen := true)];
      abs := Apply(abs, SpinDone(c));
      off := true;
    }

    /** The locked part of sched_wake. */
    method Wake(c: nat)
      requires Valid() && Enabled(abs, WakeEnqueue(c))
      modifies this
      ensures Valid() && abs == Apply(old(abs), WakeEnqueue(c))
    {
      hide Shows, Chain, Apply, Enabled;
      WakeStep(tcbs, Links(mutexes, procs, locals, waitNext), abs, c);
      var t := cpuCurrent[c];
      var w, nxt := locals[t].t, locals[t].nxt;
      tcbs := tcbs[w := tcbs[w].(state := Ready)];
      RqAdd(w, abs.rq);
      locals := locals[t := if nxt == None then Plain else Draining(nxt)];
      abs := Apply(abs, WakeEnqueue(c));
    }

    /** The current thread of CPU `c` marks itself dead. */
    method Die(c: nat)
      requires Valid() && Enabled(abs, SchedModel.Die(c))
      modifies this
      ensures Valid() && abs == Apply(old(abs), SchedModel.Die(c))
    {
      hide Shows, Chain, Apply, Enabled;
      DieStep(tcbs, Links(mutexes, procs, locals, waitNext), abs, c);
      var t := cpuCurrent[c];
      tcbs := tcbs[t := tcbs[t].(state := Dead)];
      abs := Apply(abs, SchedModel.Die(c));
    }
  }

  /** A mutex operation of the thread on CPU `c` sees the protocol's mutex. */
  lemma LockSame(tcbs: map<Tid, Tcb>, d: Links, s: Sys, c: nat, m: Mid, a: Step)
    requires a == LockTest(c, m) || a == TryLock(c, m) || a == Unlock(c, m)
    requires Enabled(s, a) && Shows(tcbs, d, s)
    ensures c < |s.current| && m in s.mutexes && m in d.mutexes && d.mutexes[m].locked == s.mutexes[m].locked
    ensures d.mutexes[m].waiters == None <==> s.mutexes[m].waiters == []
    ensures s.current[c] in tcbs && s.current[c] in s.threads
  {}

  lemma TryFails(s: Sys, c: nat, m: Mid)
    requires Enabled(s, TryLock(c, m)) && s.mutexes[m].locked
    ensures Apply(s, TryLock(c, m)) == s
  {}

  lemma NewNotQueued(s: Sys, t: Tid)
    requires Inv(s) && t !in s.threads
    ensures t !in s.rq && NoDup(s.rq)
  {}

  lemma NoDupPlus(s: Sys, c: nat)
    requires Inv(s) && Cpu(s, c)
    ensures NoDup(s.rq) && s.current[c] !in s.rq && NoDup(s.rq + [s.current[c]])
  {}

  // ---- The steps on the kernel's values --------------------------------------------------------------------

  lemma CreateStep(tcbs: map<Tid, Tcb>, d: Links, s: Sys, t: Tid)
    requires Enabled(s, Create(t))
    requires Shows(tcbs, d, s)
    ensures var s' := Apply(s, Create(t));
      && t !in s.rq && NoDup(s.rq)
      && s'.rq == s.rq + [t] && s'.current == s.current && s'.idle == s.idle && s'.reap == s.reap
      && Shows(tcbs[t := Tcb(Ready, false, false)], d.(locals := d.locals[t := Plain]), s')
  {
    hide Inv, Chain, ListsMatch, ThreadsMatch;
    var s' := Apply(s, Create(t));
    StepKeepsInv(s, Create(t));
    NewNotQueued(s, t);
    MatchMoved(d, s, s', t, Plain);
    ThreadPut(tcbs, s.threads, t, s'.threads[t]);
  }

  lemma ReapStep(tcbs: map<Tid, Tcb>, d: Links, s: Sys, c: nat)
    requires Enabled(s, TickReap(c))
    requires Shows(tcbs, d, s)
    ensures var s' := Apply(s, TickReap(c));
      && c < |s.reap| && s.reap[c].Some?
      && s'.rq == s.rq && s'.current == s.current && s'.idle == s.idle && s'.reap == s.reap[c := None]
      && Shows(tcbs - {s.reap[c].value}, d.(locals := d.locals - {s.reap[c].value}), s')
  {
    StepKeepsInv(s, TickReap(c));
    ReapMatches(tcbs, d, s, c);
    hide Inv, Chain, ListsMatch, ThreadsMatch;
  }

  lemma SwitchStep(tcbs: map<Tid, Tcb>, d: Links, s: Sys, c: nat)
    requires Enabled(s, TickSwitch(c))
    requires Shows(tcbs, d, s)
    ensures var s' := Apply(s, TickSwitch(c));
      && Cpu(s, c) && Me(s, c) in tcbs && Next(s, c) in tcbs && tcbs[Me(s, c)] == TcbOf(s.threads[Me(s, c)])
      && NoDup(s.rq) && s.current[c] !in s.rq && NoDup(Requeued(s, c))
      && s'.rq == (if Requeued(s, c) == [] then [] else Requeued(s, c)[1..])
      && s'.current == s.current[c := Next(s, c)] && s'.idle == s.idle
      && s'.reap == (if s.threads[Me(s, c)].state == Dead then s.reap[c := Some(Me(s, c))] else s.reap)
      && Shows(HandOverTcb(RequeueTcb(tcbs, Me(s, c)), Me(s, c), Next(s, c)), d, s')
  {
    hide Inv, Chain, ListsMatch, Requeue, RequeueTcb, HandOver, HandOverTcb, NoDup;
    StepKeepsInv(s, TickSwitch(c));
    NoDupPlus(s, c);
    assert Next(s, c) in s.threads;
    SwitchMatches(tcbs, s.threads, Me(s, c), Next(s, c));
    SwitchKeepsPcs(s, c);
    MatchSame(d, s, Apply(s, TickSwitch(c)));
  }

  /** A step that leaves the run queue and the CPUs alone. */
  ghost predicate SameCpus(s: Sys, s': Sys) {
    s'.rq == s.rq && s'.current == s.current && s'.idle == s.idle && s'.reap == s.reap
  }

  lemma LockBlockStep(tcbs: map<Tid, Tcb>, d: Links, s: Sys, c: nat, m: Mid)
    requires Enabled(s, LockTest(c, m)) && s.mutexes[m].locked
    requires Shows(tcbs, d, s)
    ensures c < |s.current|
    ensures var t, s' := s.current[c], Apply(s, LockTest(c, m));
      && SameCpus(s, s') && t in tcbs && m in d.mutexes
      && Shows(tcbs[t := tcbs[t].(state := Blocked)],
               d.(mutexes := d.mutexes[m := d.mutexes[m].(waiters := Some(t))], locals := d.locals[t := Locking(m)],
                  next := d.next[t := d.mutexes[m].waiters]), s')
  {
    hide Inv, Chain, LocalsMatch, ProcsMatch;
    var t, s' := s.current[c], Apply(s, LockTest(c, m));
    StepKeepsInv(s, LockTest(c, m));
    CurrentLoose(s, c);
    var mu := d.mutexes[m].(waiters := Some(t));
    assert t !in s.mutexes[m].waiters;
    ChainPush(d.next, d.mutexes[m].waiters, s.mutexes[m].waiters, t);
    NextWritten(d, s, t, d.mutexes[m].waiters);
    ThreadPut(tcbs, s.threads, t, s'.threads[t]);
    var n, s1 := d.next[t := d.mutexes[m].waiters], s.(mutexes := s'.mutexes);
    hide LocksMatch, ListsMatch, ThreadsMatch;
    MatchLock(d.(next := n), s, s1, m, mu);
    MatchMoved(d.(mutexes := d.mutexes[m := mu], next := n), s1, s', t, Locking(m));
  }

  lemma LockTakeStep(tcbs: map<Tid, Tcb>, d: Links, s: Sys, c: nat, m: Mid, a: Step)
    requires a == LockTest(c, m) || a == TryLock(c, m)
    requires Enabled(s, a) && !s.mutexes[m].locked
    requires Shows(tcbs, d, s)
    ensures c < |s.current|
    ensures var t, s' := s.current[c], Apply(s, a);
      && SameCpus(s, s') && m in d.mutexes
      && Shows(tcbs, d.(mutexes := d.mutexes[m := d.mutexes[m].(locked := true, owner := Some(t))],
                        locals := d.locals[t := Plain]), s')
  {
    hide Inv, Chain, LocalsMatch, ProcsMatch;
    var t, s' := s.current[c], Apply(s, a);
    StepKeepsInv(s, a);
    var mu, s1 := d.mutexes[m].(locked := true, owner := Some(t)), s.(mutexes := s'.mutexes);
    ThreadPut(tcbs, s.threads, t, s'.threads[t]);
    MatchLock(d, s, s1, m, mu);
    hide LocksMatch, ListsMatch, ThreadsMatch;
    MatchMoved(d.(mutexes := d.mutexes[m := mu]), s1, s', t, Plain);
  }

  lemma ProcSame(tcbs: map<Tid, Tcb>, d: Links, s: Sys, c: nat, p: Pid, a: Step)
    requires a == WaitTest(c, p) || a == MarkExited(c, p)
    requires Enabled(s, a) && Shows(tcbs, d, s)
    ensures c < |s.current| && p in s.procs && p in d.procs && d.procs[p].exited == s.procs[p].exited
    ensures s.current[c] in tcbs && s.current[c] in s.threads
  {}

  lemma UnlockStep(tcbs: map<Tid, Tcb>, d: Links, s: Sys, c: nat, m: Mid)
    requires Enabled(s, Unlock(c, m)) && s.mutexes[m].waiters == []
    requires Shows(tcbs, d, s)
    ensures var s' := Apply(s, Unlock(c, m));
      SameCpus(s, s') && Shows(tcbs, d.(mutexes := d.mutexes[m := MutexObj(false, None, None)]), s')
  {
    hide Inv, LocalsMatch, ProcsMatch;
    StepKeepsInv(s, Unlock(c, m));
    NullChain(d.next);
    hide Chain;
    MatchLock(d, s, Apply(s, Unlock(c, m)), m, MutexObj(false, None, None));
  }

  lemma UnlockPopStep(tcbs: map<Tid, Tcb>, d: Links, s: Sys, c: nat, m: Mid)
    requires Enabled(s, Unlock(c, m)) && s.mutexes[m].waiters != []
    requires Shows(tcbs, d, s)
    ensures c < |s.current| && m in d.mutexes && d.mutexes[m].waiters.Some? && d.mutexes[m].waiters.value in d.next
    ensures var t, w, s' := s.current[c], d.mutexes[m].waiters.value, Apply(s, Unlock(c, m));
      && SameCpus(s, s')
      && Shows(tcbs, d.(mutexes := d.mutexes[m := MutexObj(false, None, d.next[w])],
                        locals := d.locals[t := Waking(w, None, false)], next := d.next[w := None]), s')
  {
    hide Inv, LocalsMatch, ProcsMatch, Chain, ThreadsMatch;
    var t, s' := s.current[c], Apply(s, Unlock(c, m));
    StepKeepsInv(s, Unlock(c, m));
    var w, s1 := s.mutexes[m].waiters[0], s.(mutexes := s'.mutexes);
    NullChain(d.next);
    ChainPop(d.next, d.mutexes[m].waiters, s.mutexes[m].waiters);
    var mu := MutexObj(false, None, d.next[w]);
    MatchLock(d, s, s1, m, mu);
    ThreadPut(tcbs, s.threads, t, s'.threads[t]);
    hide LocksMatch, ListsMatch;
    MatchMoved(d.(mutexes := d.mutexes[m := mu]), s1, s', t, Waking(w, None, false));
    WokenLoose(s', t);
    NextWritten(d.(mutexes := d.mutexes[m := mu], locals := d.locals[t := Waking(w, None, false)]), s', w, None);
  }

  lemma NullChain(next: map<Tid, Ptr>)
    ensures Chain(next, None, [])
  {}

  lemma WokenLoose(s: Sys, me: Tid)
    requires Inv(s) && me in s.threads && (s.threads[me].pc.Spin? || s.threads[me].pc.Enqueue?)
    ensures !Threaded(s, s.threads[me].pc.w)
  {
    hide Core, SpinOk, Threaded;
    WokenIsLoose(s, me);
  }

  lemma WaitBlockStep(tcbs: map<Tid, Tcb>, d: Links, s: Sys, c: nat, p: Pid)
    requires Enabled(s, WaitTest(c, p)) && !s.procs[p].exited
    requires Shows(tcbs, d, s)
    ensures c < |s.current|
    ensures var t, s' := s.current[c], Apply(s, WaitTest(c, p));
      && SameCpus(s, s') && t in tcbs && p in d.procs
      && Shows(tcbs[t := tcbs[t].(state := Blocked)],
               d.(procs := d.procs[p := d.procs[p].(waitQueue := Some(t))], locals := d.locals[t := Waiting(p)],
                  next := d.next[t := d.procs[p].waitQueue]), s')
  {
    hide Inv, Chain, LocalsMatch, LocksMatch;
    var t, s' := s.current[c], Apply(s, WaitTest(c, p));
    StepKeepsInv(s, WaitTest(c, p));
    CurrentLoose(s, c);
    var pr := d.procs[p].(waitQueue := Some(t));
    assert t !in s.procs[p].waitq;
    ChainPush(d.next, d.procs[p].waitQueue, s.procs[p].waitq, t);
    NextWritten(d, s, t, d.procs[p].waitQueue);
    ThreadPut(tcbs, s.threads, t, s'.threads[t]);
    var n, s1 := d.next[t := d.procs[p].waitQueue], s.(procs := s'.procs);
    hide ProcsMatch, ListsMatch, ThreadsMatch;
    MatchProc(d.(next := n), s, s1, p, pr);
    MatchMoved(d.(procs := d.procs[p := pr], next := n), s1, s', t, Waiting(p));
  }

  lemma WaitDoneStep(tcbs: map<Tid, Tcb>, d: Links, s: Sys, c: nat, p: Pid)
    requires Enabled(s, WaitTest(c, p)) && s.procs[p].exited
    requires Shows(tcbs, d, s)
    ensures var t, s' := s.current[c], Apply(s, WaitTest(c, p));
      SameCpus(s, s') && Shows(tcbs, d.(locals := d.locals[t := Plain]), s')
  {
    hide Inv, Chain, ListsMatch;
    var t, s' := s.current[c], Apply(s, WaitTest(c, p));
    StepKeepsInv(s, WaitTest(c, p));
    ThreadPut(tcbs, s.threads, t, s'.threads[t]);
    hide ThreadsMatch;
    MatchMoved(d, s, s', t, Plain);
  }

  lemma MarkExitedStep(tcbs: map<Tid, Tcb>, d: Links, s: Sys, c: nat, p: Pid)
    requires Enabled(s, MarkExited(c, p))
    requires Shows(tcbs, d, s)
    ensures p in d.procs
    ensures var t, s' := s.current[c], Apply(s, MarkExited(c, p));
      && SameCpus(s, s')
      && Shows(tcbs, d.(procs := d.procs[p := ProcObj(true, None)],
                        locals := d.locals[t := Draining(d.procs[p].waitQueue)]), s')
  {
    hide Inv, LocalsMatch, LocksMatch, Chain;
    var t, s' := s.current[c], Apply(s, MarkExited(c, p));
    StepKeepsInv(s, MarkExited(c, p));
    ThreadPut(tcbs, s.threads, t, s'.threads[t]);
    NullChain(d.next);
    var s1 := s.(procs := s'.procs);
    MatchProc(d, s, s1, p, ProcObj(true, None));
    assert Chain(d.next, d.procs[p].waitQueue, s.procs[p].waitq);
    hide ProcsMatch, ListsMatch, ThreadsMatch;
    MatchMoved(d.(procs := d.procs[p := ProcObj(true, None)]), s1, s', t, Draining(d.procs[p].waitQueue));
  }

  /** The locals of the thread on CPU `c`. */
  lemma LocalSame(tcbs: map<Tid, Tcb>, d: Links, s: Sys, c: nat)
    requires Cpu(s, c)
    requires Shows(tcbs, d, s)
    ensures s.current[c] in d.locals && LocalMatches(d.locals[s.current[c]], d.next, s.threads[s.current[c]].pc)
    ensures s.current[c] in tcbs
  {}

  lemma DrainSame(tcbs: map<Tid, Tcb>, d: Links, s: Sys, c: nat)
    requires Enabled(s, DrainNext(c)) && Shows(tcbs, d, s)
    ensures c < |s.current| && s.current[c] in d.locals && d.locals[s.current[c]].Draining? && s.current[c] in s.threads
    ensures s.threads[s.current[c]].pc.Drain?
    ensures d.locals[s.current[c]].w == None <==> s.threads[s.current[c]].pc.list == []
  {
    hide Inv, Chain, ListsMatch;
    LocalSame(tcbs, d, s, c);
  }

  lemma DrainDoneStep(tcbs: map<Tid, Tcb>, d: Links, s: Sys, c: nat)
    requires Enabled(s, DrainNext(c)) && s.threads[s.current[c]].pc.list == []
    requires Shows(tcbs, d, s)
    ensures var t, s' := s.current[c], Apply(s, DrainNext(c));
      SameCpus(s, s') && Shows(tcbs, d.(locals := d.locals[t := Plain]), s')
  {
    hide Inv, Chain, ListsMatch;
    var t, s' := s.current[c], Apply(s, DrainNext(c));
    StepKeepsInv(s, DrainNext(c));
    ThreadPut(tcbs, s.threads, t, s'.threads[t]);
    hide ThreadsMatch;
    MatchMoved(d, s, s', t, Plain);
  }

  lemma DrainStep(tcbs: map<Tid, Tcb>, d: Links, s: Sys, c: nat)
    requires Enabled(s, DrainNext(c)) && s.threads[s.current[c]].pc.list != []
    requires Shows(tcbs, d, s)
    ensures var t := s.current[c];
      t in d.locals && d.locals[t].Draining? && d.locals[t].w.Some? && d.locals[t].w.value in d.next
    ensures var t, s' := s.current[c], Apply(s, DrainNext(c));
      var w := d.locals[t].w.value;
      && SameCpus(s, s')
      && Shows(tcbs, d.(locals := d.locals[t := Waking(w, d.next[w], false)], next := d.next[w := None]), s')
  {
    hide Inv, Chain, ListsMatch;
    var t, s' := s.current[c], Apply(s, DrainNext(c));
    var l := s.threads[t].pc.list;
    StepKeepsInv(s, DrainNext(c));
    LocalSame(tcbs, d, s, c);
    ChainPop(d.next, d.locals[t].w, l);
    var w := l[0];
    ThreadPut(tcbs, s.threads, t, s'.threads[t]);
    hide ThreadsMatch;
    MatchMoved(d, s, s', t, Waking(w, d.next[w], false));
    WokenLoose(s', t);
    NextWritten(d.(locals := d.locals[t := Waking(w, d.next[w], false)]), s', w, None);
  }

  lemma SpinSame(tcbs: map<Tid, Tcb>, d: Links, s: Sys, c: nat)
    requires Active(s, c) && s.threads[s.current[c]].pc.Spin?
    requires Shows(tcbs, d, s)
    ensures var t, w := s.current[c], s.threads[s.current[c]].pc.w;
      && t in d.locals && d.locals[t].Waking? && d.locals[t].t == w
      && w in s.threads && w in tcbs && tcbs[w].onCpu == s.threads[w].onCpu
  {
    hide Inv, Chain, ListsMatch;
    LocalSame(tcbs, d, s, c);
    WakingIsThread(s, s.current[c]);
  }

  lemma WakingIsThread(s: Sys, me: Tid)
    requires Inv(s) && me in s.threads && (s.threads[me].pc.Spin? || s.threads[me].pc.Enqueue?)
    ensures Blk(s, s.threads[me].pc.w)
  {
    hide Core, WaitOk, PendOk, HandsOk, MutexOk, ExitOk, SpinOk;
    TargetBlocked(s, me);
  }

  lemma SpinDoneStep(tcbs: map<Tid, Tcb>, d: Links, s: Sys, c: nat)
    requires Enabled(s, SpinDone(c))
    requires Shows(tcbs, d, s)
    ensures var t, s' := s.current[c], Apply(s, SpinDone(c));
      && t in d.locals && d.locals[t].Waking?
      && SameCpus(s, s') && Shows(tcbs, d.(locals := d.locals[t := d.locals[t].(seen := true)]), s')
  {
    hide Inv, Chain, ListsMatch;
    var t, s' := s.current[c], Apply(s, SpinDone(c));
    StepKeepsInv(s, SpinDone(c));
    LocalSame(tcbs, d, s, c);
    ThreadPut(tcbs, s.threads, t, s'.threads[t]);
    hide ThreadsMatch;
    MatchMoved(d, s, s', t, d.locals[t].(seen := true));
  }

  lemma WakeStep(tcbs: map<Tid, Tcb>, d: Links, s: Sys, c: nat)
    requires Enabled(s, WakeEnqueue(c))
    requires Shows(tcbs, d, s)
    ensures c < |s.current| && s.current[c] in d.locals && d.locals[s.current[c]].Waking?
    ensures d.locals[s.current[c]].t in tcbs
    ensures var t, s' := s.current[c], Apply(s, WakeEnqueue(c));
      var w, nxt := d.locals[t].t, d.locals[t].nxt;
      && w !in s.rq && NoDup(s.rq) && s'.rq == s.rq + [w] && s'.current == s.current && s'.idle == s.idle
      && s'.reap == s.reap
      && Shows(tcbs[w := tcbs[w].(state := Ready)],
               d.(locals := d.locals[t := if nxt == None then Plain else Draining(nxt)]), s')
  {
    hide Inv, Chain, ListsMatch, ThreadsMatch, Apply, Enabled, Blk;
    StepKeepsInv(s, WakeEnqueue(c));
    WakeEffect(s, c);
    var t, s' := s.current[c], Apply(s, WakeEnqueue(c));
    var pc := s.threads[t].pc;
    LocalSame(tcbs, d, s, c);
    var f := if d.locals[t].nxt == None then Plain else Draining(d.locals[t].nxt);
    var s1 := At(s, c, if pc.rest == [] then Normal else Drain(pc.rest));
    WokenTcb(tcbs, s, s1, t, pc.w);
    MatchMoved(d, s, s1, t, f);
    MatchSame(d.(locals := d.locals[t := f]), s1, s');
  }

  /** What waking does to the protocol state: the waker moves on, and its target is READY at the tail. */
  lemma WakeEffect(s: Sys, c: nat)
    requires Inv(s) && Enabled(s, WakeEnqueue(c))
    ensures Cpu(s, c) && s.threads[s.current[c]].pc.Enqueue?
    ensures var t, s' := s.current[c], Apply(s, WakeEnqueue(c));
      var pc := s.threads[t].pc;
      var s1 := At(s, c, if pc.rest == [] then Normal else Drain(pc.rest));
      && pc.w in s.threads && pc.w != t && pc.w !in s.rq && NoDup(s.rq)
      && s'.rq == s.rq + [pc.w] && s'.current == s.current && s'.idle == s.idle && s'.reap == s.reap
      && s'.mutexes == s.mutexes && s'.procs == s.procs
      && s'.threads == s1.threads[pc.w := s1.threads[pc.w].(state := Ready)]
  {
    hide Inv;
    var t := s.current[c];
    WakingIsThread(s, t);
    BlockedNotQueued(s, s.threads[t].pc.w);
  }

  lemma WokenTcb(tcbs: map<Tid, Tcb>, s: Sys, s1: Sys, t: Tid, w: Tid)
    requires ThreadsMatch(tcbs, s.threads) && t in s.threads && w in s.threads && t != w
    requires t in s1.threads && s1.threads == s.threads[t := s1.threads[t]]
    requires TcbOf(s1.threads[t]) == TcbOf(s.threads[t])
    ensures w in tcbs
    ensures ThreadsMatch(tcbs[w := tcbs[w].(state := Ready)], s1.threads[w := s1.threads[w].(state := Ready)])
  {}

  lemma BlockedNotQueued(s: Sys, t: Tid)
    requires Inv(s) && Blk(s, t)
    ensures t !in s.rq && NoDup(s.rq)
  {}

  lemma DieStep(tcbs: map<Tid, Tcb>, d: Links, s: Sys, c: nat)
    requires Enabled(s, Die(c))
    requires Shows(tcbs, d, s)
    ensures c < |s.current| && s.current[c] in tcbs
    ensures var t, s' := s.current[c], Apply(s, Die(c));
      SameCpus(s, s') && Shows(tcbs[t := tcbs[t].(state := Dead)], d, s')
  {
    hide Inv, Chain, ListsMatch;
    var t, s' := s.current[c], Apply(s, Die(c));
    StepKeepsInv(s, Die(c));
    ThreadPut(tcbs, s.threads, t, s'.threads[t]);
    hide ThreadsMatch;
    MatchSame(d, s, s');
  }
}
