/** Interrupt masking and NAPI scheduling in the AccNet driver (the two interrupt handlers,
    accnet_schedule, accnet_poll and accnet_open in accnet.c), as a machine of atomic steps.

    An interrupt handler masks its interrupt and schedules a poll; a poll that runs out of work
    completes and then unmasks both interrupts.  The transmit function may schedule a poll too.
    NAPI itself is its two flags: SCHED, set while a poll is owed or under way, and MISSED, set when
    a poll is requested in that time. */
module Napi {

  // Who may schedule a poll, and how far each has got: past masking, or past napi_schedule_prep.
  datatype Caller = TxIsr | RxIsr | Xmit
  datatype Pc = Out | Requesting | Prepared

  /** `queued`: the poll is on the list of polls to run.  `polling`: it runs and owns NAPI.
      `unmasking`: polls that have completed and are about to unmask.  `openSteps` counts the unmasking
      steps accnet_open has done.  `asked` records that a poll was requested and none has started. */
  datatype State = State(
    txOn: bool, rxOn: bool, sched: bool, missed: bool, queued: bool, polling: bool,
    tx: Pc, rx: Pc, xmit: Pc, unmasking: nat, openSteps: nat, asked: bool)

  const INIT := State(false, false, false, false, false, false, Out, Out, Out, 0, 0, false)

  datatype Step =
    | Open | Interrupt(rx: bool) | Transmit | Prep(who: Caller) | Enqueue(who: Caller)
    | StartPoll | PollMore | PollDone | Unmask

  function At(s: State, who: Caller): Pc {
    match who case TxIsr => s.tx case RxIsr => s.rx case Xmit => s.xmit
  }

  function Put(s: State, who: Caller, pc: Pc): State {
    match who case TxIsr => s.(tx := pc) case RxIsr => s.(rx := pc) case Xmit => s.(xmit := pc)
  }

  predicate Enabled(s: State, step: Step) {
    match step
    case Open => s.openSteps < 2
    case Interrupt(rx) => (if rx then s.rx else s.tx) == Out
    case Transmit => s.xmit == Out
    case Prep(who) => At(s, who) == Requesting
    case Enqueue(who) => At(s, who) == Prepared
    case StartPoll => s.queued && !s.polling
    case PollMore => s.polling
    case PollDone => s.polling
    case Unmask => s.unmasking > 0
  }

  function Next(s: State, step: Step): State
    requires Enabled(s, step)
  {
    match step
    // accnet_open enables receive interrupts, then transmit interrupts.
    case Open => if s.openSteps == 0 then s.(rxOn := true, openSteps := 1) else s.(txOn := true, openSteps := 2)
    case Interrupt(rx) => if rx then s.(rxOn := false, rx := Requesting) else s.(txOn := false, tx := Requesting)
    case Transmit => s.(xmit := Requesting)
    // napi_schedule_prep
    case Prep(who) =>
      if s.sched then Put(s.(missed := true, asked := true), who, Out)
      else Put(s.(sched := true, asked := true), who, Prepared)
    // __napi_schedule
    case Enqueue(who) => Put(s.(queued := true), who, Out)
    case StartPoll => s.(queued := false, polling := true, asked := false)
    // The budget is used up: the poll stays scheduled.
    case PollMore => s.(polling := false, queued := true)
    // napi_complete_done, which schedules again if a request was missed.
    case PollDone =>
      s.(polling := false, sched := s.missed, queued := s.missed, missed := false, unmasking := s.unmasking + 1)
    case Unmask => s.(txOn := true, rxOn := true, unmasking := s.unmasking - 1)
  }

  // ---------------------------------------------------------------- invariant

  function Count(b: bool): nat { if b then 1 else 0 }

  // The holders of NAPI: the list, the running poll, or a caller about to put it on the list.
  function Owners(s: State): nat {
    Count(s.queued) + Count(s.polling) + Count(s.tx == Prepared) + Count(s.rx == Prepared) + Count(s.xmit == Prepared)
  }

  // A handler is about to schedule a poll.
  predicate AboutToSchedule(s: State) {
    s.tx == Requesting || s.rx == Requesting
  }

  /** A masked interrupt will be seen to: a poll is scheduled, a handler is about to schedule one, or a
      poll is about to unmask. */
  predicate Covered(s: State) {
    s.sched || AboutToSchedule(s) || s.unmasking > 0
  }

  // A request for a poll is answered by a poll that starts later.
  predicate Answered(s: State) {
    s.asked ==> s.queued || s.tx == Prepared || s.rx == Prepared || s.xmit == Prepared || (s.polling && s.missed)
  }

  predicate Inv(s: State) {
    && Owners(s) == Count(s.sched)
    && (s.missed ==> s.sched)
    && Answered(s)
    && (!s.rxOn ==> s.openSteps < 1 || Covered(s))
    && (!s.txOn ==> s.openSteps < 2 || Covered(s))
  }

  lemma PrepInv(s: State, who: Caller)
    requires Inv(s) && Enabled(s, Prep(who))
    ensures Inv(Next(s, Prep(who)))
  {
    match who {
      case TxIsr =>
      case RxIsr =>
      case Xmit =>
    }
  }

  lemma EnqueueInv(s: State, who: Caller)
    requires Inv(s) && Enabled(s, Enqueue(who))
    ensures Inv(Next(s, Enqueue(who)))
  {
    match who {
      case TxIsr =>
      case RxIsr =>
      case Xmit =>
    }
  }

  lemma PollInv(s: State, step: Step)
    requires Inv(s) && Enabled(s, step) && (step.StartPoll? || step.PollMore? || step.PollDone?)
    ensures Inv(Next(s, step))
  {
  }

  lemma InterruptInv(s: State, rx: bool)
    requires Inv(s) && Enabled(s, Interrupt(rx))
    ensures Inv(Next(s, Interrupt(rx)))
  {
  }

  lemma MaskInv(s: State, step: Step)
    requires Inv(s) && Enabled(s, step) && (step.Open? || step.Transmit? || step.Unmask?)
    ensures Inv(Next(s, step))
  {
  }

  lemma StepInv(s: State, step: Step)
    requires Inv(s) && Enabled(s, step)
    ensures Inv(Next(s, step))
  {
    match step {
      case Prep(who) => PrepInv(s, who);
      case Enqueue(who) => EnqueueInv(s, who);
      case StartPoll => PollInv(s, step);
      case PollMore => PollInv(s, step);
      case PollDone => PollInv(s, step);
      case Open => MaskInv(s, step);
      case Interrupt(rx) => InterruptInv(s, rx);
      case Transmit => MaskInv(s, step);
      case Unmask => MaskInv(s, step);
    }
  }

  /** Who masks and unmasks what: a handler masks its own interrupt, a poll that is done unmasks both,
      opening unmasks one after the other, and nothing else touches the mask. */
  lemma MaskedBy(s: State, step: Step)
    requires Enabled(s, step)
    ensures var s' := Next(s, step);
            match step
            case Interrupt(rx) => if rx then !s'.rxOn && s'.txOn == s.txOn else !s'.txOn && s'.rxOn == s.rxOn
            case Unmask => s'.txOn && s'.rxOn
            case Open => s'.rxOn == (s.openSteps == 0 || s.rxOn) && s'.txOn == (s.openSteps == 1 || s.txOn)
            case _ => s'.txOn == s.txOn && s'.rxOn == s.rxOn
  {
    match step {
      case Prep(who) => match who { case TxIsr => case RxIsr => case Xmit => }
      case Enqueue(who) => match who { case TxIsr => case RxIsr => case Xmit => }
      case _ =>
    }
  }

  // The state after taking, from the start, those of the steps that are possible.
  function After(steps: seq<Step>): State {
    if steps == [] then INIT
    else
      var s := After(steps[..|steps| - 1]);
      if Enabled(s, steps[|steps| - 1]) then Next(s, steps[|steps| - 1]) else s
  }

  lemma {:induction false} RunInv(steps: seq<Step>)
    ensures Inv(After(steps))
  {
    if steps != [] {
      var n := |steps| - 1;
      RunInv(steps[..n]);
      if Enabled(After(steps[..n]), steps[n]) {
        StepInv(After(steps[..n]), steps[n]);
      }
    }
  }

  predicate Safe(s: State) {
    && (s.openSteps == 2 && (!s.txOn || !s.rxOn) ==> Covered(s))
    && Owners(s) == Count(s.sched)
    && Answered(s)
  }

  /** In every interleaving on an open device a masked interrupt is covered, NAPI has one owner while
      it is scheduled and none otherwise, so polls never overlap, and no request is lost. */
  lemma {:induction false} NapiSafety(steps: seq<Step>)
    ensures Safe(After(steps))
  {
    RunInv(steps);
    InvSafe(After(steps));
  }

  lemma InvSafe(s: State)
    requires Inv(s)
    ensures Safe(s)
  {
  }

  // ---------------------------------------------------------------- progress

  // Steps that the driver owes, as opposed to those of the environment; a poll finds no more work.
  predicate Owed(step: Step) {
    step.Prep? || step.Enqueue? || step.StartPoll? || step.PollDone? || step.Unmask?
  }

  function PcWork(pc: Pc): nat {
    match pc case Out => 0 case Requesting => 8 case Prepared => 4
  }

  // How many owed steps are left, at most.
  function Work(s: State): nat {
    PcWork(s.tx) + PcWork(s.rx) + PcWork(s.xmit) + 4 * Count(s.missed) + 3 * Count(s.queued) + 2 * Count(s.polling) + s.unmasking
  }

  lemma CallerWorkDrops(s: State, who: Caller)
    requires Inv(s)
    ensures Enabled(s, Prep(who)) ==> Work(Next(s, Prep(who))) < Work(s)
    ensures Enabled(s, Enqueue(who)) ==> Work(Next(s, Enqueue(who))) < Work(s)
  {
    match who {
      case TxIsr =>
      case RxIsr =>
      case Xmit =>
    }
  }

  lemma WorkDrops(s: State, step: Step)
    requires Inv(s) && Enabled(s, step) && Owed(step)
    ensures Work(Next(s, step)) < Work(s)
  {
    match step {
      case Prep(who) => CallerWorkDrops(s, who);
      case Enqueue(who) => CallerWorkDrops(s, who);
      case _ =>
    }
  }

  lemma SomethingOwed(s: State) returns (step: Step)
    requires Inv(s) && s.openSteps == 2 && (!s.txOn || !s.rxOn)
    ensures Enabled(s, step) && Owed(step)
  {
    step := if s.tx == Requesting then Prep(TxIsr)
            else if s.rx == Requesting then Prep(RxIsr)
            else if s.xmit == Requesting then Prep(Xmit)
            else if s.tx == Prepared then Enqueue(TxIsr)
            else if s.rx == Prepared then Enqueue(RxIsr)
            else if s.xmit == Prepared then Enqueue(Xmit)
            else if s.polling then PollDone
            else if s.queued then StartPoll
            else Unmask;
  }

  // The steps, all of them owed, are possible one after the other from s and end in s'.
  predicate Leads(s: State, steps: seq<Step>, s': State)
    decreases |steps|
  {
    if steps == [] then s == s'
    else Owed(steps[0]) && Enabled(s, steps[0]) && Leads(Next(s, steps[0]), steps[1..], s')
  }

  lemma LeadsOn(s: State, step: Step, rest: seq<Step>, s': State)
    requires Owed(step) && Enabled(s, step) && Leads(Next(s, step), rest, s')
    ensures Leads(s, [step] + rest, s')
  {
    assert ([step] + rest)[1..] == rest;
  }

  lemma StaysOpen(s: State, step: Step)
    requires Enabled(s, step) && Owed(step)
    ensures Next(s, step).openSteps == s.openSteps
  {
    match step {
      case Prep(who) => match who { case TxIsr => case RxIsr => case Xmit => }
      case Enqueue(who) => match who { case TxIsr => case RxIsr => case Xmit => }
      case StartPoll =>
      case PollDone =>
      case Unmask =>
    }
  }

  /** From every reachable state of an open device, the steps the driver owes lead to a state in which
      both interrupts are enabled. */
  lemma {:induction false} Unmasked(s: State) returns (steps: seq<Step>, s': State)
    requires Inv(s) && s.openSteps == 2
    ensures Inv(s') && s'.txOn && s'.rxOn
    ensures |steps| <= Work(s) && Leads(s, steps, s')
    decreases Work(s)
  {
    if s.txOn && s.rxOn {
      steps, s' := [], s;
    } else {
      var step := SomethingOwed(s);
      var next := Next(s, step);
      assert Inv(next) by { StepInv(s, step); }
      assert Work(next) < Work(s) by { WorkDrops(s, step); }
      StaysOpen(s, step);
      var rest;
      rest, s' := Unmasked(next);
      LeadsOn(s, step, rest, s');
      steps := [step] + rest;
    }
  }
}
