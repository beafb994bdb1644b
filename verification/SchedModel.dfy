/** The SMP blocking protocol as a step system: run queue, on_cpu hand-off, mutexes, process wait and
    deferred reaping. One step is one spinlock critical section, or one unlocked access
    (kernel/sched/sched.c, kernel/sync/mutex.c, kernel/proc/process.c). */
module SchedModel {
  import opened Machine

  type Tid = nat
  type Mid = nat
  type Pid = nat

  datatype RunState = Ready | Running | Blocked | Dead

  /** Where a thread stands in the code that can block or wake.
      LockWait/ExitWait: enqueued itself (or was woken since) and has yet to retest.
      Drain: holds a detached list of threads to wake, the next not yet looked at.
      Spin: waits until `w` has left its CPU. Enqueue: saw that, and has yet to queue `w`. */
  datatype Pc =
    | Normal
    | LockWait(m: Mid)
    | ExitWait(p: Pid)
    | Drain(list: seq<Tid>)
    | Spin(w: Tid, rest: seq<Tid>)
    | Enqueue(w: Tid, rest: seq<Tid>)

  datatype Thread = Thread(state: RunState, onCpu: bool, idle: bool, pc: Pc)

  datatype Mutex = Mutex(locked: bool, owner: Option<Tid>, waiters: seq<Tid>)

  datatype Process = Process(exited: bool, waitq: seq<Tid>)

  /** The state. The last four fields record history: threads freed so far, who holds each mutex by
      its own account, and how often each thread was enqueued on, and woken from, each process. */
  datatype Sys = Sys(
    threads: map<Tid, Thread>,
    rq: seq<Tid>,
    current: seq<Tid>,             // per CPU
    idle: seq<Tid>,                // per CPU
    reap: seq<Option<Tid>>,        // per CPU
    mutexes: map<Mid, Mutex>,
    procs: map<Pid, Process>,
    freed: multiset<Tid>,
    holds: map<Mid, set<Tid>>,
    enqueued: multiset<(Tid, Pid)>,
    woken: multiset<(Tid, Pid)>)

  datatype Step =
    | Create(t: Tid)               // sched_add of a new thread
    | TickReap(c: nat)             // sched_tick: free the thread that died a tick ago
    | TickSwitch(c: nat)           // sched_tick: requeue, pick, hand over on_cpu
    | LockTest(c: nat, m: Mid)     // mutex_lock: test; take it or enqueue and block
    | TryLock(c: nat, m: Mid)
    | Unlock(c: nat, m: Mid)
    | WaitTest(c: nat, p: Pid)     // process_wait: test; return or enqueue and block
    | MarkExited(c: nat, p: Pid)   // process_mark_exited: set exited, detach the queue
    | DrainNext(c: nat)            // ... read the next link, begin sched_wake
    | SpinDone(c: nat)             // sched_wake: on_cpu seen false
    | WakeEnqueue(c: nat)          // sched_wake: READY and onto the run queue
    | Die(c: nat)                  // state = THREAD_DEAD

  // ---- Steps --------------------------------------------------------------------------------

  predicate Cpu(s: Sys, c: nat) {
    c < |s.current| && c < |s.reap| && c < |s.idle| && s.current[c] in s.threads && s.idle[c] in s.threads
  }

  /** The thread on CPU `c` is executing its own code (idle threads only halt). */
  predicate Active(s: Sys, c: nat) {
    Cpu(s, c) && s.threads[s.current[c]].state == Running && !s.threads[s.current[c]].idle
  }

  function Pend(pc: Pc): seq<Tid> {
    match pc
    case Drain(l) => l
    case Spin(w, rest) => [w] + rest
    case Enqueue(w, rest) => [w] + rest
    case _ => []
  }

  predicate Enabled(s: Sys, a: Step) {
    match a
    case Create(t) => t !in s.threads && t !in s.freed
    case TickReap(c) => Cpu(s, c) && s.reap[c].Some?
    case TickSwitch(c) => Cpu(s, c) && s.reap[c].None? && forall t :: t in s.rq ==> t in s.threads
    case LockTest(c, m) =>
      Active(s, c) && m in s.mutexes && m in s.holds && (s.threads[s.current[c]].pc in {Normal, LockWait(m)})
    case TryLock(c, m) => Active(s, c) && m in s.mutexes && m in s.holds && s.threads[s.current[c]].pc == Normal
    case Unlock(c, m) =>
      && Active(s, c) && m in s.mutexes && m in s.holds && s.threads[s.current[c]].pc == Normal
      && s.current[c] in s.holds[m]
    case WaitTest(c, p) => Active(s, c) && p in s.procs && (s.threads[s.current[c]].pc in {Normal, ExitWait(p)})
    case MarkExited(c, p) => Active(s, c) && p in s.procs && s.threads[s.current[c]].pc == Normal
    case DrainNext(c) => Active(s, c) && s.threads[s.current[c]].pc.Drain?
    case SpinDone(c) =>
      Active(s, c) && s.threads[s.current[c]].pc.Spin? && s.threads[s.current[c]].pc.w in s.threads
      && !s.threads[s.threads[s.current[c]].pc.w].onCpu
    case WakeEnqueue(c) =>
      Active(s, c) && s.threads[s.current[c]].pc.Enqueue? && s.threads[s.current[c]].pc.w in s.threads
    case Die(c) => Active(s, c) && s.threads[s.current[c]].pc == Normal
  }

  function Me(s: Sys, c: nat): Tid
    requires Cpu(s, c)
  {
    s.current[c]
  }

  function With(s: Sys, t: Tid, th: Thread): Sys { s.(threads := s.threads[t := th]) }

  function At(s: Sys, c: nat, pc: Pc): Sys
    requires Cpu(s, c)
  {
    With(s, Me(s, c), s.threads[Me(s, c)].(pc := pc))
  }

  function Acquire(s: Sys, c: nat, m: Mid): Sys
    requires Cpu(s, c) && m in s.mutexes && m in s.holds
  {
    var t := Me(s, c);
    At(s, c, Normal).(mutexes := s.mutexes[m := s.mutexes[m].(locked := true, owner := Some(t))],
                      holds := s.holds[m := s.holds[m] + {t}])
  }

  /** The current thread of CPU `c` was preempted, so it goes back to the queue. */
  predicate Again(s: Sys, c: nat)
    requires Cpu(s, c)
  {
    s.threads[Me(s, c)].state == Running && !s.threads[Me(s, c)].idle
  }

  function Requeued(s: Sys, c: nat): seq<Tid>
    requires Cpu(s, c)
  {
    if Again(s, c) then s.rq + [Me(s, c)] else s.rq
  }

  /** The thread to run next on CPU `c`: the head of the queue, or else the CPU's idle thread. */
  function Next(s: Sys, c: nat): Tid
    requires Cpu(s, c)
  {
    if Requeued(s, c) == [] then s.idle[c] else Requeued(s, c)[0]
  }

  /** A preempted thread becomes READY. */
  function Requeue(ts: map<Tid, Thread>, cur: Tid): map<Tid, Thread>
    requires cur in ts
  {
    if ts[cur].state == Running && !ts[cur].idle then ts[cur := ts[cur].(state := Ready)] else ts
  }

  /** `next` becomes RUNNING and takes the on_cpu mark over from `cur`. */
  function HandOver(ts: map<Tid, Thread>, cur: Tid, next: Tid): map<Tid, Thread>
    requires cur in ts && next in ts
  {
    var ts1 := ts[next := ts[next].(state := Running)];
    var ts2 := if cur != next then ts1[cur := ts1[cur].(onCpu := false)] else ts1;
    ts2[next := ts2[next].(onCpu := true)]
  }

  /** The current thread of CPU `c` is requeued, retired or left blocked; the next one takes over. */
  function Switch(s: Sys, c: nat): Sys
    requires Cpu(s, c) && forall t :: t in s.rq ==> t in s.threads
  {
    var cur, next := Me(s, c), Next(s, c);
    s.(threads := HandOver(Requeue(s.threads, cur), cur, next),
       rq := if Requeued(s, c) == [] then [] else Requeued(s, c)[1..],
       current := s.current[c := next],
       reap := if s.threads[cur].state == Dead then s.reap[c := Some(cur)] else s.reap)
  }

  function Apply(s: Sys, a: Step): Sys
    requires Enabled(s, a)
  {
    match a
    case Create(t) => With(s, t, Thread(Ready, false, false, Normal)).(rq := s.rq + [t])
    case TickReap(c) =>
      s.(threads := s.threads - {s.reap[c].value}, reap := s.reap[c := None],
         freed := s.freed + multiset{s.reap[c].value})
    case TickSwitch(c) => Switch(s, c)
    case LockTest(c, m) =>
      var t := Me(s, c);
      if s.mutexes[m].locked then
        With(s, t, s.threads[t].(state := Blocked, pc := LockWait(m))).(
          mutexes := s.mutexes[m := s.mutexes[m].(waiters := [t] + s.mutexes[m].waiters)])
      else Acquire(s, c, m)
    case TryLock(c, m) => if s.mutexes[m].locked then s else Acquire(s, c, m)
    case Unlock(c, m) =>
      var t, mu := Me(s, c), s.mutexes[m];
      var open := mu.(locked := false, owner := None);
      var s1 := s.(holds := s.holds[m := s.holds[m] - {t}]);
      if mu.waiters == [] then s1.(mutexes := s.mutexes[m := open])
      else At(s1, c, Spin(mu.waiters[0], [])).(mutexes := s.mutexes[m := open.(waiters := mu.waiters[1..])])
    case WaitTest(c, p) =>
      var t := Me(s, c);
      if s.procs[p].exited then At(s, c, Normal)
      else
        With(s, t, s.threads[t].(state := Blocked, pc := ExitWait(p))).(
          procs := s.procs[p := s.procs[p].(waitq := [t] + s.procs[p].waitq)],
          enqueued := s.enqueued + multiset{(t, p)})
    case MarkExited(c, p) => At(s, c, Drain(s.procs[p].waitq)).(procs := s.procs[p := Process(true, [])])
    case DrainNext(c) =>
      var l := s.threads[Me(s, c)].pc.list;
      if l == [] then At(s, c, Normal) else At(s, c, Spin(l[0], l[1..]))
    case SpinDone(c) =>
      var pc := s.threads[Me(s, c)].pc;
      At(s, c, Enqueue(pc.w, pc.rest))
    case WakeEnqueue(c) =>
      var pc := s.threads[Me(s, c)].pc;
      var s1 := At(s, c, if pc.rest == [] then Normal else Drain(pc.rest));
      var w := s1.threads[pc.w];
      With(s1, pc.w, w.(state := Ready)).(
        rq := s.rq + [pc.w],
        woken := if w.pc.ExitWait? then s.woken + multiset{(pc.w, w.pc.p)} else s.woken)
    case Die(c) => With(s, Me(s, c), s.threads[Me(s, c)].(state := Dead))
  }
}
