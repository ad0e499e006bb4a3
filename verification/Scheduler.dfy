/** The dispatch loop, work stealing, exit, join and detach (internal/apth_sched.c, core/apth_join.c,
    core/apth_detach.c) as a machine of workers that take queue locks and ownership locks one at a time. */
module Scheduler {
  import opened Basics
  import opened ThreadQueues

  /** A transfer between two queues; without a thread it pops the front of `from`. */
  datatype Move = Move(th: Option<Tid>, from: QId, to: QId, front: bool)

  datatype Lock = QueueLock(q: QId) | OwnershipLock(t: Tid)

  /** Where a worker stands; everything between two lock acquisitions is one step. */
  datatype Pc =
    | Head                                       // at the head of the dispatch loop
    | Transferring(m: Move, locks: nat)          // holding that many of the transfer's two locks
    | StealWants(victim: QId)
    | StealPopped(victim: QId, t: Tid)           // t is off the victim's queue, whose lock is held
    | StealOwns(t: Tid)                          // t is in flight under its ownership lock
    | StealPushed(t: Tid)                        // t is in the thief's queue, its ownership lock still held
    | Running(t: Tid)
    | Back(t: Tid)                               // t has yielded
    | Dropping(t: Tid)                           // t is detached and has exited
    | Creating(t: Tid, child: Tid)
    | JoinWants(t: Tid, tid: Tid)
    | JoinOwns(t: Tid, tid: Tid, q: QId)
    | Reaping(t: Tid, tid: Tid)                  // tid is off the terminated queue, about to be freed
    | Panic
  {
    /** The thread that the worker's running queue should hold. */
    function Cur(): Option<Tid> {
      match this
      case Running(t) => Some(t)
      case Back(t) => Some(t)
      case Dropping(t) => Some(t)
      case Creating(t, _) => Some(t)
      case JoinWants(t, _) => Some(t)
      case JoinOwns(t, _, _) => Some(t)
      case Reaping(t, _) => Some(t)
      case Transferring(m, _) => if m.from.kind == RunningQ then m.th else None
      case _ => None
    }

    /** The thread that the worker holds outside every queue. */
    function Carried(): Option<Tid> {
      match this
      case StealPopped(_, t) => Some(t)
      case StealOwns(t) => Some(t)
      case Creating(_, child) => Some(child)
      case Reaping(_, tid) => Some(tid)
      case _ => None
    }

    /** The thread that the worker is about to take off a terminated queue. */
    function Target(): Option<Tid> {
      match this
      case JoinWants(_, tid) => Some(tid)
      case JoinOwns(_, tid, _) => Some(tid)
      case Reaping(_, tid) => Some(tid)
      case _ => None
    }
  }

  /** The addresses of the queues, by which a transfer orders its two locks. */
  type Layout = QId -> int

  function First(m: Move, addr: Layout): QId {
    if addr(m.from) < addr(m.to) then m.from else m.to
  }

  function Second(m: Move, addr: Layout): QId {
    if addr(m.from) < addr(m.to) then m.to else m.from
  }

  function Holds(w: nat, p: Pc, addr: Layout): set<Lock> {
    match p
    case Transferring(m, locks) =>
      if locks == 0 then {} else if locks == 1 then {QueueLock(First(m, addr))}
      else {QueueLock(m.from), QueueLock(m.to)}
    case StealPopped(victim, _) => {QueueLock(victim)}
    case StealOwns(t) => {OwnershipLock(t)}
    case StealPushed(t) => {OwnershipLock(t)}
    case JoinOwns(_, tid, _) => {OwnershipLock(tid)}
    case _ => {}
  }

  function Wants(w: nat, p: Pc, d: Data, addr: Layout): Option<Lock> {
    match p
    case Transferring(m, locks) =>
      if locks == 0 then Some(QueueLock(First(m, addr)))
      else if locks == 1 then Some(QueueLock(Second(m, addr)))
      else None
    case StealWants(victim) => Some(QueueLock(victim))
    case StealPopped(_, t) => Some(OwnershipLock(t))
    case StealOwns(_) => Some(QueueLock(Q(w, ReadyQ)))
    case Dropping(_) => Some(QueueLock(Q(w, RunningQ)))
    case Creating(_, child) => Some(QueueLock(Q(d.At(child).sched, NewQ)))
    case JoinWants(_, tid) => Some(OwnershipLock(tid))
    case JoinOwns(_, _, q) => Some(QueueLock(q))
    case _ => None
  }

  /** n workers. The rest is history: what each thread exited with and each join delivered, the TCBs freed, and the
      threads whose joinid was written, by a claim or by a detach. */
  datatype System = System(n: nat, d: Data, pc: map<nat, Pc>, exits: map<Tid, int>, joins: map<Tid, int>,
                           freed: seq<Tid>, written: seq<Tid>, claims: set<Tid>, detaches: set<Tid>)

  datatype Action =
    | Go                                         // take the wanted lock, if any, and run to the next point
    | BeginMove(m: Move)
    | BeginSteal(victim: QId)
    | YieldReady
    | YieldWait
    | Exit(value: int)
    | Create(child: Tid, sched: nat, detached: bool)
    | Detach(tid: Tid)
    | Claim(tid: Tid, spurious: bool)            // the weak compare-and-swap may fail spuriously
    | Proceed                                    // a claimed thread was found TERMINATED

  /** The transfers a scheduler begins at its loop head. */
  predicate HeadMove(d: Data, w: nat, m: Move) {
    && m.from.sched == w && m.to.sched == w
    && match m.th
       case None =>
         || (m.from.kind == NewQ && m.to.kind == ReadyQ && !m.front)
         || (m.from.kind == WakedQ && m.to.kind == ReadyQ && m.front)
         || (m.from.kind == ReadyQ && m.to.kind == RunningQ && !m.front)
       case Some(t) =>
         // the event manager readies a waiting thread, one that joins only when its target has terminated
         && m.from.kind == WaitingQ && m.to.kind == ReadyQ && t in d.List(m.from)
         && (d.At(t).joining.Some? ==> d.At(d.At(t).joining.value).state == TERMINATED)
  }

  predicate Free(s: System, l: Lock, addr: Layout) {
    forall b :: b in s.pc ==> l !in Holds(b, s.pc[b], addr)
  }

  predicate Enabled(s: System, w: nat, a: Action, addr: Layout) {
    w in s.pc &&
    var p := s.pc[w];
    match a
    case Go =>
      && !p.Head? && !p.Running? && !p.Panic?
      && (Wants(w, p, s.d, addr).Some? ==> Free(s, Wants(w, p, s.d, addr).value, addr))
    case BeginMove(m) => p == Head && HeadMove(s.d, w, m)
    case BeginSteal(victim) => p == Head && victim.kind == ReadyQ && victim.sched < s.n && victim.sched != w
    case YieldWait => p.Running?
    case Proceed =>
      p.Running? && s.d.At(p.t).joining.Some? && s.d.At(s.d.At(p.t).joining.value).state == TERMINATED
    case YieldReady => p.Running? && s.d.At(p.t).joining.None?
    case Exit(_) => p.Running? && s.d.At(p.t).joining.None?
    case Create(child, sched, _) =>
      p.Running? && s.d.At(p.t).joining.None? && child !in s.d.tcb && child !in s.freed && sched < s.n
    case Detach(tid) => p.Running? && s.d.At(p.t).joining.None? && tid in s.d.tcb
    case Claim(tid, _) => p.Running? && s.d.At(p.t).joining.None? && tid in s.d.tcb
  }

  /** The retire switch after a thread has yielded. */
  function Retire(d: Data, w: nat, t: Tid): (Data, Pc) {
    var b, from := d.At(t), Q(w, RunningQ);
    if b.exited then
      (d, if b.joinid == Some(t) then Dropping(t)
          else Transferring(Move(Some(t), from, Q(w, TerminatedQ), false), 0))
    else match b.state
      case RUNNING =>
        (d.Set(t, b.(state := READY)), Transferring(Move(Some(t), from, Q(w, ReadyQ), false), 0))
      case WAITING => (d, Transferring(Move(Some(t), from, Q(w, WaitingQ), false), 0))
      case _ => (d, Panic)
  }

  /** A transfer holding both locks moves its thread and releases them. */
  function FinishMove(d: Data, m: Move): (Data, Pc) {
    if m.th.None? && d.List(m.from) == [] then (d, Head)
    else
      var t := if m.th.Some? then m.th.value else d.List(m.from)[0];
      (d.Transfer(t, m.from, m.to, m.front), if m.to.kind == RunningQ then Running(t) else Head)
  }

  /** The victim's queue gives up its back thread unless that would empty it. */
  function StealPop(d: Data, victim: QId): (Data, Pc) {
    var l := d.List(victim);
    if l == [] || d.Size(victim) <= 1 then (d, Head)
    else (d.Remove(l[|l| - 1], victim), StealPopped(victim, l[|l| - 1]))
  }

  /** The data and the program point after a step that leaves history alone. */
  function Advance(d: Data, w: nat, p: Pc): (Data, Pc) {
    match p
    case Transferring(m, locks) => if locks < 2 then (d, Transferring(m, locks + 1)) else FinishMove(d, m)
    case StealWants(victim) => StealPop(d, victim)
    case StealPopped(_, t) => (d.Set(t, d.At(t).(sched := w, state := READY)), StealOwns(t))
    case StealOwns(t) => (d.Push(t, Q(w, ReadyQ), true), StealPushed(t))
    case StealPushed(_) => (d, Head)
    case Back(t) => Retire(d, w, t)
    case Creating(t, child) => (d.Push(child, Q(d.At(child).sched, NewQ), false), Running(t))
    case JoinWants(t, tid) => (d, JoinOwns(t, tid, Q(d.At(tid).sched, TerminatedQ)))
    case JoinOwns(t, tid, q) =>
      if d.At(tid).queue != Some(q) then (d.Set(t, d.At(t).(joining := None)), Running(t))
      else (d.Remove(tid, q).Set(tid, d.At(tid).(queue := None)), Reaping(t, tid))
    case _ => (d, p)
  }

  function NextGo(s: System, w: nat): System
    requires w in s.pc
  {
    var p := s.pc[w];
    match p
    case Dropping(t) =>
      var d := s.d.Remove(t, Q(w, RunningQ));
      s.(d := d.(tcb := d.tcb - {t}), pc := s.pc[w := Head], freed := s.freed + [t])
    case Reaping(t, tid) =>
      var d := s.d.Set(t, s.d.At(t).(joining := None));
      s.(d := d.(tcb := d.tcb - {tid}), pc := s.pc[w := Running(t)],
         joins := s.joins[tid := s.d.At(tid).joinArg], freed := s.freed + [tid])
    case _ =>
      var (d, p') := Advance(s.d, w, p);
      s.(d := d, pc := s.pc[w := p'])
  }

  /** apth_join up to its compare-and-swap: EINVAL and EDEADLK leave everything as it was. */
  function NextClaim(s: System, t: Tid, tid: Tid, spurious: bool): System {
    var b := s.d.At(tid);
    if b.joinid.Some? || tid == t || s.d.At(t).joinid == Some(tid) || spurious then s
    else
      var d := s.d.Set(tid, b.(joinid := Some(t)));
      s.(d := d.Set(t, d.At(t).(joining := Some(tid))), written := s.written + [tid], claims := s.claims + {tid})
  }

  function NextDetach(s: System, tid: Tid): System {
    var b := s.d.At(tid);
    if b.joinid.Some? then s
    else s.(d := s.d.Set(tid, b.(joinid := Some(tid))), written := s.written + [tid], detaches := s.detaches + {tid})
  }

  function Next(s: System, w: nat, a: Action): System
    requires w in s.pc
  {
    var p := s.pc[w];
    var t := if p.Cur().Some? then p.Cur().value else 0;
    match a
    case Go => NextGo(s, w)
    case BeginMove(m) =>
      var d := if m.th.Some? then s.d.Set(m.th.value, s.d.At(m.th.value).(state := READY)) else s.d;
      s.(d := d, pc := s.pc[w := Transferring(m, 0)])
    case BeginSteal(victim) => s.(pc := s.pc[w := StealWants(victim)])
    case YieldReady => s.(pc := s.pc[w := Back(t)])
    case YieldWait => s.(d := s.d.Set(t, s.d.At(t).(state := WAITING)), pc := s.pc[w := Back(t)])
    case Exit(value) =>
      s.(d := s.d.Set(t, s.d.At(t).(exited := true, joinArg := value)), pc := s.pc[w := Back(t)],
         exits := s.exits[t := value])
    case Create(child, sched, detached) =>
      s.(d := s.d.Set(child, Tcb(None, sched, NEW, if detached then Some(child) else None, None, false, 0)),
         pc := s.pc[w := Creating(t, child)])
    case Detach(tid) => NextDetach(s, tid)
    case Claim(tid, spurious) => NextClaim(s, t, tid, spurious)
    case Proceed => s.(pc := s.pc[w := JoinWants(t, if s.d.At(t).joining.Some? then s.d.At(t).joining.value else 0)])
  }
}
