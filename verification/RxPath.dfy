/** The receive path of the AccNet driver (complete_recv, alloc_recv and post_recv in accnet.c)
    against its device, as a machine of atomic steps.

    A poll takes up to `budget` completed buffers out of the ring and then posts fresh buffers until
    the device's FIFO of 64 is full again; packets arrive at any time in between. */
module RxPath {
  import SkbRing

  const FIFO_DEPTH: int := 64
  const CQ_CAPACITY: nat := SkbRing.CAPACITY

  // What the poll is doing; polls never run concurrently.
  datatype Pc = Idle | Receiving(left: int) | Refilling(left: int)

  /** `req` buffers are at the device, `comp` are filled and not yet read.  `cq` is the ring of buffers,
      numbered in the order of posting; `fault` is set if an empty ring is popped or a completion is
      read that is not there. */
  datatype State = State(req: nat, comp: nat, cq: seq<nat>, pc: Pc, fault: bool, posted: nat, delivered: seq<nat>)

  // Opening the device posts the first buffers.
  const INIT := State(0, 0, [], Refilling(64), false, 0, [])

  datatype Step = Device | BeginPoll | ReceiveOne | BeginRefill | PostOne | EndRefill

  predicate Enabled(s: State, step: Step) {
    match step
    case Device => s.req > 0
    case BeginPoll => s.pc.Idle?
    case ReceiveOne => s.pc.Receiving? && s.pc.left > 0
    case BeginRefill => s.pc.Receiving? && s.pc.left <= 0
    case PostOne => s.pc.Refilling? && s.pc.left > 0
    case EndRefill => s.pc.Refilling? && s.pc.left <= 0
  }

  function Next(budget: nat, s: State, step: Step): State
    requires Enabled(s, step)
  {
    match step
    case Device => s.(req := s.req - 1, comp := s.comp + 1)
    case BeginPoll => s.(pc := Receiving(if budget < s.comp % 0x10000 then budget else s.comp % 0x10000))
    case ReceiveOne =>
      if s.comp == 0 || s.cq == [] then s.(fault := true)
      else s.(comp := s.comp - 1, cq := s.cq[1..], delivered := s.delivered + [s.cq[0]], pc := Receiving(s.pc.left - 1))
    case BeginRefill => s.(pc := Refilling(FIFO_DEPTH - s.req % 0x10000))
    case PostOne =>
      s.(req := s.req + 1, posted := s.posted + 1, pc := Refilling(s.pc.left - 1),
         cq := if |s.cq| < CQ_CAPACITY then s.cq + [s.posted] else s.cq)
    case EndRefill => s.(pc := Idle)
  }

  function UpTo(n: nat): (r: seq<nat>)
    ensures |r| == n && forall i :: 0 <= i < n ==> r[i] == i
  {
    if n == 0 then [] else UpTo(n - 1) + [n - 1]
  }

  /** Conservation: buffers at the device and unread completions are the buffers in the ring, and
      buffers are delivered in the order in which they were posted. */
  predicate Law(s: State) {
    && s.req + s.comp == |s.cq|
    && s.delivered + s.cq == UpTo(s.posted)
  }

  // Twice the FIFO is all that ever accumulates, if polls keep up.
  predicate PcInv(s: State) {
    match s.pc
    case Idle => s.req + s.comp <= 2 * FIFO_DEPTH
    case Receiving(left) => 0 <= left <= s.comp && s.comp - left + s.req <= FIFO_DEPTH && |s.cq| <= 2 * FIFO_DEPTH
    case Refilling(left) => s.req + left <= FIFO_DEPTH && s.req + s.comp + left <= 2 * FIFO_DEPTH && left >= 0
  }

  predicate Inv(s: State) {
    !s.fault && Law(s) && PcInv(s) && s.req <= FIFO_DEPTH
  }

  /** With a budget of at least 64 every step keeps the invariant: the ring, which holds 255, never
      holds more than 128 buffers. */
  lemma StepInv(budget: nat, s: State, step: Step)
    requires Inv(s) && Enabled(s, step) && budget >= FIFO_DEPTH
    ensures Inv(Next(budget, s, step)) && |s.cq| <= 2 * FIFO_DEPTH
  {
    match step {
      case PostOne => PostInv(budget, s);
      case ReceiveOne => ReceiveInv(budget, s);
      case _ =>
    }
  }

  lemma PostInv(budget: nat, s: State)
    requires Inv(s) && Enabled(s, PostOne)
    ensures Inv(Next(budget, s, PostOne)) && |s.cq| <= 2 * FIFO_DEPTH
  {
    assert s.delivered + (s.cq + [s.posted]) == s.delivered + s.cq + [s.posted];
  }

  lemma ReceiveInv(budget: nat, s: State)
    requires Inv(s) && Enabled(s, ReceiveOne)
    ensures Inv(Next(budget, s, ReceiveOne)) && |s.cq| <= 2 * FIFO_DEPTH
  {
    assert s.delivered + [s.cq[0]] + s.cq[1..] == s.delivered + s.cq;
  }

  // ---------------------------------------------------------------- whole runs

  // The state after taking, from the start, those of the steps that are possible.
  function After(budget: nat, steps: seq<Step>): State {
    if steps == [] then INIT
    else
      var s := After(budget, steps[..|steps| - 1]);
      if Enabled(s, steps[|steps| - 1]) then Next(budget, s, steps[|steps| - 1]) else s
  }

  lemma {:induction false} RunInv(budget: nat, steps: seq<Step>)
    requires budget >= FIFO_DEPTH
    ensures Inv(After(budget, steps)) && |After(budget, steps).cq| <= 2 * FIFO_DEPTH
  {
    if steps != [] {
      var n := |steps| - 1;
      RunInv(budget, steps[..n]);
      var s := After(budget, steps[..n]);
      if Enabled(s, steps[n]) {
        StepInv(budget, s, steps[n]);
      }
      var s' := After(budget, steps);
      assert |s'.cq| == s'.req + s'.comp;
    }
  }

  // ---------------------------------------------------------------- polls that do not keep up

  // States of which only the counts matter.
  predicate Counts(s: State, pc: Pc, req: nat, comp: nat, size: nat) {
    s.pc == pc && s.req == req && s.comp == comp && |s.cq| == size
  }

  function Capped(n: nat): nat { if n < CQ_CAPACITY then n else CQ_CAPACITY }

  lemma Extend(budget: nat, steps: seq<Step>, step: Step) returns (steps': seq<Step>)
    requires Enabled(After(budget, steps), step)
    ensures After(budget, steps') == Next(budget, After(budget, steps), step)
  {
    steps' := steps + [step];
    assert steps'[..|steps|] == steps;
  }

  lemma {:induction false} DeviceMany(budget: nat, steps: seq<Step>, pc: Pc, req: nat, comp: nat, size: nat, n: nat) returns (steps': seq<Step>)
    requires Counts(After(budget, steps), pc, req, comp, size) && n <= req
    ensures Counts(After(budget, steps'), pc, req - n, comp + n, size)
    decreases n
  {
    steps' := steps;
    if n > 0 {
      steps' := Extend(budget, steps, Device);
      steps' := DeviceMany(budget, steps', pc, req - 1, comp + 1, size, n - 1);
    }
  }

  lemma {:induction false} ReceiveMany(budget: nat, steps: seq<Step>, req: nat, comp: nat, size: nat, n: nat) returns (steps': seq<Step>)
    requires Counts(After(budget, steps), Receiving(n), req, comp, size) && n <= comp && n <= size
    ensures Counts(After(budget, steps'), Receiving(0), req, comp - n, size - n)
    decreases n
  {
    steps' := steps;
    if n > 0 {
      steps' := Extend(budget, steps, ReceiveOne);
      steps' := ReceiveMany(budget, steps', req, comp - 1, size - 1, n - 1);
    }
  }

  lemma {:induction false} PostMany(budget: nat, steps: seq<Step>, req: nat, comp: nat, size: nat, n: nat) returns (steps': seq<Step>)
    requires Counts(After(budget, steps), Refilling(n), req, comp, size) && size <= CQ_CAPACITY
    ensures Counts(After(budget, steps'), Refilling(0), req + n, comp, Capped(size + n))
    decreases n
  {
    steps' := steps;
    if n > 0 {
      steps' := Extend(budget, steps, PostOne);
      steps' := PostMany(budget, steps', req + 1, comp, Capped(size + 1), n - 1);
    }
  }

  // The device fills all 64 buffers, and a poll takes only `budget` of them before refilling.
  lemma Round(budget: nat, steps: seq<Step>, comp: nat) returns (steps': seq<Step>)
    requires budget < FIFO_DEPTH && comp + 64 <= CQ_CAPACITY
    requires Counts(After(budget, steps), Idle, 64, comp, 64 + comp)
    ensures Counts(After(budget, steps'), Idle, 64, comp + 64 - budget, Capped(128 + comp - budget))
  {
    steps' := DeviceMany(budget, steps, Idle, 64, comp, 64 + comp, 64);
    steps' := Extend(budget, steps', BeginPoll);
    steps' := ReceiveMany(budget, steps', 0, comp + 64, 64 + comp, budget);
    steps' := Extend(budget, steps', BeginRefill);
    steps' := PostMany(budget, steps', 0, comp + 64 - budget, 64 + comp - budget, 64);
    steps' := Extend(budget, steps', EndRefill);
  }

  lemma {:induction false} Rounds(budget: nat, steps: seq<Step>, comp: nat) returns (steps': seq<Step>)
    requires budget < FIFO_DEPTH && comp + 64 <= CQ_CAPACITY
    requires Counts(After(budget, steps), Idle, 64, comp, 64 + comp)
    ensures !Law(After(budget, steps'))
    decreases CQ_CAPACITY - comp
  {
    steps' := Round(budget, steps, comp);
    if 128 + comp - budget <= CQ_CAPACITY {
      steps' := Rounds(budget, steps', comp + 64 - budget);
    }
  }

  /** The ring keeps up with the device in every run exactly if the poll budget is at least 64, the
      depth of the device's FIFO; with any smaller budget some run drops a buffer from the ring. */
  lemma RxBudget(budget: nat)
    ensures (forall steps: seq<Step> :: Law(After(budget, steps))) <==> budget >= 64
  {
    if budget >= FIFO_DEPTH {
      forall steps: seq<Step>
        ensures Law(After(budget, steps))
      {
        RunInv(budget, steps);
      }
    } else {
      var steps := PostMany(budget, [], 0, 0, 0, 64);
      steps := Extend(budget, steps, EndRefill);
      steps := Rounds(budget, steps, 0);
    }
  }

  /** And then nothing goes wrong: no empty ring is popped, no missing completion is read, at most
      64 buffers are posted, and the ring is never more than half full. */
  lemma RxSafety(budget: nat, steps: seq<Step>)
    requires budget >= FIFO_DEPTH
    ensures var s := After(budget, steps);
            !s.fault && s.req <= FIFO_DEPTH && |s.cq| <= 2 * FIFO_DEPTH <= CQ_CAPACITY
  {
    RunInv(budget, steps);
  }
}
