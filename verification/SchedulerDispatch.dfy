/** What a scheduler that begins a transfer at its loop head ends with, whatever the other workers do meanwhile. */
module SchedulerDispatch {
  import opened Basics
  import opened ThreadQueues
  import opened Scheduler
  import opened SchedulerSafety
  import opened SchedulerSteps
  import opened SchedulerTheorems
  import opened SchedulerDetach
  import opened SchedulerAnswers

  // ----- what other workers leave alone

  /** A thread that was first still is. */
  predicate SameFirst(l: seq<Tid>, l': seq<Tid>) {
    l != [] ==> l' != [] && l'[0] == l[0]
  }

  /** Apart from stealing, a step of another worker at most adds to the back of a queue from which threads start. */
  lemma AdvanceKeepsFirst(d: Data, n: nat, b: nat, p: Pc, q: QId)
    requires PcInv(d, n, b, p) && !p.StealWants? && q.sched != b && q.kind != TerminatedQ
    ensures SameFirst(d.List(q), Advance(d, b, p).0.List(q))
  {
    hide Minus;
  }

  lemma GoKeepsFirst(s: System, addr: Layout, b: nat, q: QId)
    requires Inv(s, addr) && b in s.pc && q.sched != b && q.kind != TerminatedQ
    ensures SameFirst(s.d.List(q), NextGo(s, b).d.List(q))
  {
    Mine(s, addr, b);
    hide Inv, PcInv, Partition, Advance, Minus;
    if s.pc[b].StealWants? {
      hide NextGo;
      StealTakes(s, addr, b, s.pc[b].victim);
    } else if !s.pc[b].Dropping? && !s.pc[b].Reaping? {
      AdvanceKeepsFirst(s.d, s.n, b, s.pc[b], q);
    }
  }

  lemma OthersKeepFirst(s: System, addr: Layout, b: nat, a: Action, q: QId)
    requires Inv(s, addr) && Enabled(s, b, a, addr) && q.sched != b && q.kind != TerminatedQ
    ensures SameFirst(s.d.List(q), Next(s, b, a).d.List(q))
  {
    hide Inv, NextGo, Free, Wants;
    if a.Go? {
      GoKeepsFirst(s, addr, b, q);
    }
  }

  // ----- transfers from the loop head

  /** Worker w is moving x by the transfer m and holds that many of its locks. */
  ghost predicate Moving(s: System, w: nat, m: Move, x: Tid, locks: nat) {
    && w in s.pc && s.pc[w] == Transferring(m, locks)
    && m.from.sched == w && m.from.kind != TerminatedQ && m.from != m.to
    && (m.th == Some(x) || (m.th.None? && s.d.List(m.from) != [] && s.d.List(m.from)[0] == x))
  }

  /** x is at the back or front of the queue it was to go to, and runs if that is the running queue. */
  ghost predicate Moved(s: System, w: nat, to: QId, front: bool, x: Tid) {
    && w in s.pc && s.pc[w] == (if to.kind == RunningQ then Running(x) else Head)
    && s.d.At(x).state == StateOf(to.kind) && s.d.At(x).queue == Some(to)
    && var l := s.d.List(to);
    && l != [] && l[if front then 0 else |l| - 1] == x
  }

  lemma MovingStep(s: System, addr: Layout, w: nat, a: Action, m: Move, x: Tid, locks: nat)
    requires Enabled(s, w, a, addr) && Moving(s, w, m, x, locks) && locks <= 2
    ensures if locks < 2 then Moving(Next(s, w, a), w, m, x, locks + 1) else Moved(Next(s, w, a), w, m.to, m.front, x)
  {
    hide Free, Wants, NextGo;
    OnlyGo(s, addr, w, a);
    if locks < 2 {
      LockStep(s, w, m, locks);
    } else {
      FinishStep(s, w, m);
    }
  }

  lemma {:induction false} MovesOn(s: System, more: seq<Step>, addr: Layout, w: nat, m: Move, x: Tid, locks: nat)
    requires Inv(s, addr) && Run(s, more, addr) && Moving(s, w, m, x, locks) && locks <= 2
    requires EndsWithStep(more, w, 3 - locks)
    ensures Moved(After(s, more, addr), w, m.to, m.front, x)
    decreases |more|
  {
    hide Inv, Next, Moved, Free, Wants;
    RestEnds(more, w, 3 - locks);
    var b, a := more[0].w, more[0].a;
    StepKeepsInv(s, addr, b, a);
    if b == w {
      MovingStep(s, addr, w, a, m, x, locks);
      if locks < 2 {
        MovesOn(Next(s, b, a), more[1..], addr, w, m, x, locks + 1);
      } else {
        assert After(s, more, addr) == Next(s, b, a);
      }
    } else {
      OthersStay(s, addr, b, a, w);
      OthersKeepFirst(s, addr, b, a, m.from);
      MovesOn(Next(s, b, a), more[1..], addr, w, m, x, locks);
    }
  }

  /** Worker w is at its loop head in a reachable state. */
  ghost predicate AtHead(n: nat, main: Tid, steps: seq<Step>, addr: Layout, w: nat) {
    && n > 0 && Run(Init(n, main), steps, addr)
    && var s := After(Init(n, main), steps, addr);
    && w in s.pc && s.pc[w] == Head
  }

  /** A scheduler at its loop head can make its first new or woken thread ready, at the back and at the front, and run
      its first ready one: the thread that is first when it begins gets there three steps later. */
  lemma FirstGoesTo(n: nat, main: Tid, steps: seq<Step>, addr: Layout, w: nat, kind: Kind, more: seq<Step>)
    requires AtHead(n, main, steps, addr, w) && (kind == NewQ || kind == WakedQ || kind == ReadyQ)
    requires After(Init(n, main), steps, addr).d.List(Q(w, kind)) != []
    ensures var s := After(Init(n, main), steps, addr);
            var to, front := Q(w, if kind == ReadyQ then RunningQ else ReadyQ), kind == WakedQ;
            var a := BeginMove(Move(None, Q(w, kind), to, front));
            && Enabled(s, w, a, addr)
            && (Run(Next(s, w, a), more, addr) && EndsWithStep(more, w, 3) ==>
                  Moved(After(Next(s, w, a), more, addr), w, to, front, s.d.List(Q(w, kind))[0]))
  {
    hide Inv, Init, Moved, NextGo, Free, Wants;
    var s := After(Init(n, main), steps, addr);
    ReachableHolds(n, main, steps, addr);
    var m := Move(None, Q(w, kind), Q(w, if kind == ReadyQ then RunningQ else ReadyQ), kind == WakedQ);
    StepKeepsInv(s, addr, w, BeginMove(m));
    if Run(Next(s, w, BeginMove(m)), more, addr) && EndsWithStep(more, w, 3) {
      MovesOn(Next(s, w, BeginMove(m)), more, addr, w, m, s.d.List(Q(w, kind))[0], 0);
    }
  }

  /** It can make a waiting thread ready at either end, unless that one joins a thread which has not terminated. */
  lemma WaiterGoesTo(n: nat, main: Tid, steps: seq<Step>, addr: Layout, w: nat, x: Tid, front: bool, more: seq<Step>)
    requires AtHead(n, main, steps, addr, w) && x in After(Init(n, main), steps, addr).d.List(Q(w, WaitingQ))
    ensures var s := After(Init(n, main), steps, addr);
            var a, j := BeginMove(Move(Some(x), Q(w, WaitingQ), Q(w, ReadyQ), front)), s.d.At(x).joining;
            && (Enabled(s, w, a, addr) <==> j.None? || s.d.At(j.value).state == TERMINATED)
            && (Enabled(s, w, a, addr) && Run(Next(s, w, a), more, addr) && EndsWithStep(more, w, 3) ==>
                  Moved(After(Next(s, w, a), more, addr), w, Q(w, ReadyQ), front, x))
  {
    hide Inv, Init, Moved, NextGo, Free, Wants;
    var s := After(Init(n, main), steps, addr);
    ReachableHolds(n, main, steps, addr);
    var m := Move(Some(x), Q(w, WaitingQ), Q(w, ReadyQ), front);
    if Enabled(s, w, BeginMove(m), addr) && Run(Next(s, w, BeginMove(m)), more, addr) && EndsWithStep(more, w, 3) {
      StepKeepsInv(s, addr, w, BeginMove(m));
      MovesOn(Next(s, w, BeginMove(m)), more, addr, w, m, x, 0);
    }
  }
}
