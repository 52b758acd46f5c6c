/** The transmit path of the AccNet driver (accnet_start_xmit, post_send and complete_send in
    accnet.c) against its device, as a machine of atomic steps.

    Transmission and completion hold the transmit lock, so at most one of them is in progress; the
    device turns requests into completions at any time in between. */
module TxPath {
  import SkbRing

  const REQ_DEPTH: int := 64       // entries of the device's request FIFO
  const CQ_CAPACITY: nat := SkbRing.CAPACITY
  const MAX_FRAGS: nat := 17       // MAX_SKB_FRAGS of the kernel

  datatype Skb = Skb(id: nat, frags: nat) {
    function Segs(): nat { frags + 1 }
  }

  // What the holder of the transmit lock is doing.
  datatype Pc =
    | Unlocked
    | Posting(skb: Skb, sent: nat)      // writing requests, then pushing the buffer
    | Completing(n: nat)                // at the head of the loop, with n completions to account for
    | Reading(n: nat, seen: nat)        // reading the completions of the oldest buffer
    | Waking                            // past the loop

  /** `fault` is set if the driver inspects an empty ring or reads a completion that is not there;
      `accepted`, `freed` and `finished` record history. */
  datatype State = State(
    req: nat, comp: nat, cq: seq<Skb>, pc: Pc, stopped: bool,
    fault: bool, accepted: seq<Skb>, freed: seq<Skb>, finished: nat)

  const INIT := State(0, 0, [], Unlocked, false, false, [], [], 0)

  datatype Step = Device | Xmit(skb: Skb) | PostSegment | Push | BeginComplete | Examine | ReadOne | Free | Wake

  predicate Enabled(s: State, step: Step) {
    match step
    case Device => s.req > 0
    case Xmit(skb) => s.pc.Unlocked? && skb.frags <= MAX_FRAGS
    case PostSegment => s.pc.Posting? && s.pc.sent < s.pc.skb.Segs()
    case Push => s.pc.Posting? && s.pc.sent == s.pc.skb.Segs()
    case BeginComplete => s.pc.Unlocked?
    case Examine => s.pc.Completing?
    case ReadOne => s.pc.Reading? && s.cq != [] && s.pc.seen < s.cq[0].Segs()
    case Free => s.pc.Reading? && s.cq != [] && s.pc.seen == s.cq[0].Segs()
    case Wake => s.pc.Waking?
  }

  function Next(s: State, step: Step): State
    requires Enabled(s, step)
  {
    match step
    case Device => s.(req := s.req - 1, comp := s.comp + 1, finished := s.finished + 1)
    case Xmit(skb) =>
      if REQ_DEPTH - s.req % 0x10000 >= skb.Segs() then s.(pc := Posting(skb, 0), accepted := s.accepted + [skb])
      else s.(stopped := true)
    case PostSegment => s.(req := s.req + 1, pc := Posting(s.pc.skb, s.pc.sent + 1))
    case Push =>
      s.(cq := if |s.cq| < CQ_CAPACITY then s.cq + [s.pc.skb] else s.cq,
         pc := Unlocked,
         stopped := s.stopped || REQ_DEPTH - s.req % 0x10000 < MAX_FRAGS)
    case BeginComplete => s.(pc := Completing(s.comp % 0x10000))
    case Examine =>
      if s.pc.n == 0 then s.(pc := Waking)
      else if s.cq == [] then s.(fault := true)
      else if s.cq[0].Segs() > s.pc.n then s.(pc := Waking)
      else s.(pc := Reading(s.pc.n, 0))
    case ReadOne =>
      if s.comp == 0 then s.(fault := true)
      else s.(comp := s.comp - 1, pc := Reading(s.pc.n, s.pc.seen + 1))
    case Free =>
      var n := if s.pc.n >= s.cq[0].Segs() then s.pc.n - s.cq[0].Segs() else 0;
      s.(cq := s.cq[1..], freed := s.freed + [s.cq[0]], pc := Completing(n))
    case Wake =>
      s.(pc := Unlocked, stopped := s.stopped && REQ_DEPTH - s.req % 0x10000 < MAX_FRAGS)
  }

  function Segments(q: seq<Skb>): nat {
    if q == [] then 0 else Segments(q[..|q| - 1]) + q[|q| - 1].Segs()
  }

  function Posted(s: State): nat { if s.pc.Posting? then s.pc.sent else 0 }
  function Seen(s: State): nat { if s.pc.Reading? then s.pc.seen else 0 }
  function InHand(s: State): seq<Skb> { if s.pc.Posting? then [s.pc.skb] else [] }

  /** Conservation: requests at the device and unread completions are the segments of the buffers in
      the ring. */
  predicate Law(s: State) {
    s.req + s.comp + Seen(s) == Segments(s.cq) + Posted(s)
  }

  predicate PcInv(s: State) {
    match s.pc
    case Posting(skb, sent) => sent <= skb.Segs() && s.req + (skb.Segs() - sent) <= REQ_DEPTH && skb.frags <= MAX_FRAGS
    case Completing(n) => n <= s.comp
    case Reading(n, seen) => s.cq != [] && seen <= s.cq[0].Segs() <= n && n - seen <= s.comp
    case _ => true
  }

  // A stopped queue is not forgotten: work is left that ends in waking it.
  predicate WillWake(s: State) {
    s.stopped ==> s.req > 0 || s.comp > 0 || s.pc != Unlocked
  }

  // An awake queue has room for MAX_FRAGS segments, unless a packet is being posted.
  predicate Room(s: State) {
    !s.stopped && !s.pc.Posting? ==> REQ_DEPTH - s.req >= MAX_FRAGS
  }

  predicate Inv(s: State) {
    && WillWake(s) && Room(s)
    && !s.fault && Law(s) && PcInv(s)
    && s.req <= REQ_DEPTH && |s.cq| <= CQ_CAPACITY
    && (forall i :: 0 <= i < |s.cq| ==> s.cq[i].frags <= MAX_FRAGS)
    && s.freed + s.cq + InHand(s) == s.accepted
    && s.finished == Segments(s.freed) + s.comp + Seen(s)
  }

  lemma SegmentsPush(q: seq<Skb>, x: Skb)
    ensures Segments(q + [x]) == Segments(q) + x.Segs()
  {
    assert (q + [x])[..|q|] == q;
  }

  lemma {:induction false} SegmentsPop(q: seq<Skb>)
    requires q != []
    ensures Segments(q) == q[0].Segs() + Segments(q[1..])
  {
    var n := |q| - 1;
    if n > 0 {
      SegmentsPop(q[..n]);
      assert q[..n][1..] == q[1..][..n - 1];
    }
  }

  lemma {:induction false} SegmentsBound(q: seq<Skb>)
    requires forall i :: 0 <= i < |q| ==> q[i].frags <= MAX_FRAGS
    ensures Segments(q) <= |q| * (MAX_FRAGS + 1)
  {
    if q != [] {
      SegmentsBound(q[..|q| - 1]);
    }
  }

  // The counts never outgrow the 16 bits that are read.
  lemma CountsFit(s: State)
    requires Inv(s)
    ensures s.req % 0x10000 == s.req && s.comp % 0x10000 == s.comp
  {
    SegmentsBound(s.cq);
  }

  // A push is dropped if the ring is full.
  predicate Overflows(s: State, step: Step) {
    step == Push && |s.cq| >= CQ_CAPACITY
  }

  lemma PushInv(s: State)
    requires Inv(s) && Enabled(s, Push) && |s.cq| < CQ_CAPACITY
    ensures Inv(Next(s, Push))
  {
    SegmentsPush(s.cq, s.pc.skb);
    assert s.freed + (s.cq + [s.pc.skb]) == s.freed + s.cq + [s.pc.skb];
  }

  lemma FreeInv(s: State)
    requires Inv(s) && Enabled(s, Free)
    ensures Inv(Next(s, Free))
  {
    SegmentsPop(s.cq);
    SegmentsPush(s.freed, s.cq[0]);
    assert s.freed + [s.cq[0]] + s.cq[1..] == s.freed + s.cq;
  }

  // An empty ring is never inspected: completions to account for mean segments in the ring.
  lemma ExamineInv(s: State)
    requires Inv(s) && Enabled(s, Examine)
    ensures Inv(Next(s, Examine))
  {
    if s.pc.n > 0 {
      assert Segments([]) == 0;
    }
  }

  lemma XmitInv(s: State, skb: Skb)
    requires Inv(s) && Enabled(s, Xmit(skb))
    ensures Inv(Next(s, Xmit(skb)))
  {
    CountsFit(s);
    assert s.freed + s.cq + [] + [skb] == s.freed + s.cq + [skb];
  }

  /** Every step keeps the invariant, unless it pushes onto a full ring. */
  lemma StepInv(s: State, step: Step)
    requires Inv(s) && Enabled(s, step) && !Overflows(s, step)
    ensures Inv(Next(s, step))
  {
    match step {
      case Push => PushInv(s);
      case Examine => ExamineInv(s);
      case Free => FreeInv(s);
      case Xmit(skb) => XmitInv(s, skb);
      case BeginComplete => CountsFit(s);
      case Device =>
      case PostSegment =>
      case ReadOne =>
      case Wake =>
    }
  }

  /** Pushing onto a full ring is exactly what breaks the law. */
  lemma PushKeepsLaw(s: State)
    requires Inv(s) && Enabled(s, Push)
    ensures Law(Next(s, Push)) <==> |s.cq| < CQ_CAPACITY
  {
    SegmentsPush(s.cq, s.pc.skb);
  }

  // ---------------------------------------------------------------- whole runs

  // The state after taking, from the start, those of the steps that are possible.
  function After(steps: seq<Step>): State {
    if steps == [] then INIT
    else
      var s := After(steps[..|steps| - 1]);
      if Enabled(s, steps[|steps| - 1]) then Next(s, steps[|steps| - 1]) else s
  }

  // All the steps are possible.
  predicate Runs(steps: seq<Step>) {
    steps == [] ||
    (Runs(steps[..|steps| - 1]) && Enabled(After(steps[..|steps| - 1]), steps[|steps| - 1]))
  }

  predicate NeverOverflows(steps: seq<Step>) {
    steps == [] ||
    (NeverOverflows(steps[..|steps| - 1]) && !Overflows(After(steps[..|steps| - 1]), steps[|steps| - 1]))
  }

  lemma {:induction false} RunInv(steps: seq<Step>)
    requires Runs(steps) && NeverOverflows(steps)
    ensures Inv(After(steps))
  {
    if steps != [] {
      var n := |steps| - 1;
      RunInv(steps[..n]);
      StepInv(After(steps[..n]), steps[n]);
    }
  }

  /** After every run without ring overflow: requests and unread completions are the segments in the
      ring; the request FIFO is never overfilled; the driver has never inspected an empty ring nor
      read a missing completion; a stopped queue still has work ahead that can wake it; buffers are
      freed in the order in which they were accepted, each once, and only after the device has
      completed all their segments. */
  lemma {:induction false} TxSafety(steps: seq<Step>)
    requires Runs(steps) && NeverOverflows(steps)
    ensures Safe(After(steps))
  {
    RunInv(steps);
    InvSafe(After(steps));
  }

  predicate Safe(s: State) {
    && WillWake(s) && Law(s) && s.req <= REQ_DEPTH && !s.fault
    && s.freed + s.cq + InHand(s) == s.accepted
    && Segments(s.freed) <= s.finished
  }

  lemma InvSafe(s: State)
    requires Inv(s)
    ensures Safe(s)
  {
  }

  ghost predicate AlwaysLawful(steps: seq<Step>) {
    forall n: nat {:trigger steps[..n]} :: n <= |steps| ==> Law(After(steps[..n]))
  }

  lemma AlwaysLawfulStep(steps: seq<Step>)
    requires steps != []
    ensures AlwaysLawful(steps) <==> AlwaysLawful(steps[..|steps| - 1]) && Law(After(steps))
  {
    var m := |steps| - 1;
    assert steps[..m + 1] == steps;
    assert forall n: nat :: n <= m ==> steps[..m][..n] == steps[..n];
    if AlwaysLawful(steps) {
      forall n: nat | n <= m
        ensures Law(After(steps[..m][..n]))
      {
        assert Law(After(steps[..n]));
      }
    }
    if AlwaysLawful(steps[..m]) && Law(After(steps)) {
      forall n: nat | n <= m + 1
        ensures Law(After(steps[..n]))
      {
        if n <= m {
          assert Law(After(steps[..m][..n]));
        }
      }
    }
  }

  /** In every run the law holds throughout exactly if no buffer is pushed onto a full ring. */
  lemma {:induction false} LawIffNoOverflow(steps: seq<Step>)
    requires Runs(steps)
    ensures AlwaysLawful(steps) <==> NeverOverflows(steps)
  {
    if steps != [] {
      var m := |steps| - 1;
      LawIffNoOverflow(steps[..m]);
      AlwaysLawfulStep(steps);
      if NeverOverflows(steps[..m]) {
        RunInv(steps[..m]);
        LawAfterStep(After(steps[..m]), steps[m]);
      }
    }
  }

  lemma LawAfterStep(s: State, step: Step)
    requires Inv(s) && Enabled(s, step)
    ensures Law(Next(s, step)) <==> !Overflows(s, step)
  {
    if step == Push {
      PushKeepsLaw(s);
    } else {
      StepInv(s, step);
    }
  }

  /** When packets are accepted, and when the queue is stopped and woken: a packet exactly if its segments
      fit the request FIFO of 64 entries; the queue stops when a packet is refused or leaves room for
      less than 17 segments, and wakes after a completion that finds room for 17. */
  lemma QueueFlow(s: State, skb: Skb)
    requires Inv(s)
    ensures Enabled(s, Xmit(skb)) ==>
              var s' := Next(s, Xmit(skb));
              if s.req + skb.frags + 1 <= 64 then s' == s.(pc := Posting(skb, 0), accepted := s.accepted + [skb])
              else s' == s.(stopped := true)
    ensures Enabled(s, Push) ==> (Next(s, Push).stopped <==> s.stopped || s.req > 47)
    ensures Enabled(s, Wake) ==> (Next(s, Wake).stopped <==> s.stopped && s.req > 47)
  {
    CountsFit(s);
  }

  /** What an awake queue accepts: every packet with fewer than MAX_FRAGS fragments, and one with that
      many exactly if there is room for one segment more than the driver makes sure of. */
  lemma AwakeAccepts(s: State, skb: Skb)
    requires Inv(s) && s.pc == Unlocked && !s.stopped && skb.frags <= MAX_FRAGS
    ensures Next(s, Xmit(skb)).pc == Posting(skb, 0) <==> skb.frags < MAX_FRAGS || REQ_DEPTH - s.req > MAX_FRAGS
    ensures Next(s, Xmit(skb)).stopped <==> Next(s, Xmit(skb)).pc == Unlocked
  {
    CountsFit(s);
  }

  // ---------------------------------------------------------------- what completing frees

  // The steps lead from s to s'.
  predicate Leads(s: State, steps: seq<Step>, s': State)
    decreases |steps|
  {
    if steps == [] then s == s' else Enabled(s, steps[0]) && Leads(Next(s, steps[0]), steps[1..], s')
  }

  predicate IsCall(step: Step) { step == Examine || step == ReadOne || step == Free }

  lemma {:induction false} SegmentsMonotone(q: seq<Skb>, j: nat, k: nat)
    requires j <= k <= |q|
    ensures Segments(q[..j]) + (k - j) <= Segments(q[..k])
    decreases k
  {
    if j < k {
      SegmentsMonotone(q, j, k - 1);
      assert q[..k] == q[..k - 1] + [q[k - 1]];
      SegmentsPush(q[..k - 1], q[k - 1]);
    }
  }

  // While a call of complete_send is under way that found c completions and buffers q: the first j of
  // them have been freed.
  predicate During(q: seq<Skb>, c: nat, freed: seq<Skb>, s: State, j: nat) {
    && j <= |q| && s.freed == freed + q[..j] && s.cq == q[j..]
    && match s.pc
       case Completing(n) => n + Segments(q[..j]) == c
       case Reading(n, _) => n + Segments(q[..j]) == c && j < |q| && q[j].Segs() <= n
       case Waking => Segments(q[..j]) <= c && (j < |q| ==> Segments(q[..j + 1]) > c)
       case _ => false
  }

  lemma DuringExamine(q: seq<Skb>, c: nat, freed: seq<Skb>, s: State, j: nat)
    requires Inv(s) && During(q, c, freed, s, j) && Enabled(s, Examine)
    ensures During(q, c, freed, Next(s, Examine), j)
  {
    ExamineInv(s);
    if j < |q| {
      assert q[..j + 1] == q[..j] + [q[j]];
      SegmentsPush(q[..j], q[j]);
    }
  }

  lemma DuringFree(q: seq<Skb>, c: nat, freed: seq<Skb>, s: State, j: nat)
    requires Inv(s) && During(q, c, freed, s, j) && Enabled(s, Free)
    ensures During(q, c, freed, Next(s, Free), j + 1)
  {
    assert q[..j + 1] == q[..j] + [q[j]];
    SegmentsPush(q[..j], q[j]);
    assert q[j..][1..] == q[j + 1..];
    assert freed + q[..j] + [q[j]] == freed + q[..j + 1];
  }

  lemma DuringStep(q: seq<Skb>, c: nat, freed: seq<Skb>, s: State, j: nat, step: Step) returns (j': nat)
    requires Inv(s) && During(q, c, freed, s, j) && Enabled(s, step) && step != Wake
    ensures Inv(Next(s, step)) && During(q, c, freed, Next(s, step), j')
  {
    StepInv(s, step);
    j' := j;
    if step == Examine {
      DuringExamine(q, c, freed, s, j);
    } else if step == Free {
      DuringFree(q, c, freed, s, j);
      j' := j + 1;
    }
  }

  lemma {:induction false} DuringRun(q: seq<Skb>, c: nat, freed: seq<Skb>, s: State, j: nat, steps: seq<Step>, s': State) returns (j': nat)
    requires Inv(s) && During(q, c, freed, s, j) && Leads(s, steps, s') && Wake !in steps
    ensures Inv(s') && During(q, c, freed, s', j')
    decreases |steps|
  {
    j' := j;
    if steps != [] {
      j' := DuringStep(q, c, freed, s, j, steps[0]);
      j' := DuringRun(q, c, freed, Next(s, steps[0]), j', steps[1..], s');
    }
  }

  // Buffers are freed in order, as many as the completions found at the start account for.
  predicate FreesAll(s: State, s': State) {
    var k := |s'.freed| - |s.freed|;
    && 0 <= k <= |s.cq| && s'.freed == s.freed + s.cq[..k] && s'.cq == s.cq[k..]
    && Segments(s.cq[..k]) <= s.comp && (k < |s.cq| ==> Segments(s.cq[..k + 1]) > s.comp)
  }

  /** A call of complete_send, whatever the device does meanwhile, frees exactly the longest run of
      oldest buffers whose segments the completions found at its start account for; if the device has
      nothing left to do, it empties the ring. */
  lemma CompleteSendFrees(s: State, middle: seq<Step>, s1: State)
    requires Inv(s) && s.pc == Unlocked && Wake !in middle
    requires Leads(Next(s, BeginComplete), middle, s1) && Enabled(s1, Wake)
    ensures FreesAll(s, Next(s1, Wake))
    ensures s.req == 0 ==> Next(s1, Wake).cq == []
  {
    CallBegins(s);
    var k := DuringRun(s.cq, s.comp, s.freed, Next(s, BeginComplete), 0, middle, s1);
    CallEnds(s, s1, k);
  }

  lemma CallBegins(s: State)
    requires Inv(s) && s.pc == Unlocked
    ensures Inv(Next(s, BeginComplete)) && During(s.cq, s.comp, s.freed, Next(s, BeginComplete), 0)
  {
    CountsFit(s);
    StepInv(s, BeginComplete);
    assert s.cq[..0] == [] && s.freed + [] == s.freed;
  }

  lemma CallEnds(s: State, s1: State, k: nat)
    requires Inv(s) && s.pc == Unlocked && Enabled(s1, Wake) && During(s.cq, s.comp, s.freed, s1, k)
    ensures FreesAll(s, Next(s1, Wake))
    ensures s.req == 0 ==> Next(s1, Wake).cq == []
  {
    assert s.cq[..|s.cq|] == s.cq;
    if k < |s.cq| {
      SegmentsMonotone(s.cq, k + 1, |s.cq|);
    }
  }

  // That is the largest number the completions account for.
  lemma LongestRun(s: State, s': State, k: nat)
    requires FreesAll(s, s') && k <= |s.cq| && Segments(s.cq[..k]) <= s.comp
    ensures k <= |s'.freed| - |s.freed|
  {
    var j := |s'.freed| - |s.freed|;
    if k > j {
      SegmentsMonotone(s.cq, j + 1, k);
    }
  }

  // ---------------------------------------------------------------- calls return

  function CallWork(s: State): nat {
    match s.pc
    case Completing(n) => 4 * n + 3
    case Reading(n, seen) => if seen <= n then 4 * n + 2 - seen else 0
    case Waking => 1
    case _ => 0
  }

  /** Every call returns: it always has a next step, each of its steps lowers the work left, and the
      device's do not raise it. */
  lemma CallProceeds(s: State) returns (step: Step)
    requires Inv(s) && (s.pc.Completing? || s.pc.Reading? || s.pc.Waking?)
    ensures Enabled(s, step) && (IsCall(step) || step == Wake) && (step == Wake <==> s.pc == Waking)
    ensures CallWork(Next(s, step)) < CallWork(s)
    ensures s.req > 0 ==> CallWork(Next(s, Device)) == CallWork(s)
  {
    step := match s.pc
            case Completing(_) => Examine
            case Reading(_, seen) => if seen < s.cq[0].Segs() then ReadOne else Free
            case _ => Wake;
    if step == Examine {
      ExamineInv(s);
    }
  }

  lemma {:induction false} CallRuns(s: State) returns (middle: seq<Step>, s': State)
    requires Inv(s) && (s.pc.Completing? || s.pc.Reading? || s.pc.Waking?)
    ensures Leads(s, middle, s') && Wake !in middle && s'.pc == Waking && s'.req == s.req && s'.accepted == s.accepted && Inv(s')
    decreases CallWork(s)
  {
    if s.pc == Waking {
      middle, s' := [], s;
    } else {
      var step := CallProceeds(s);
      StepInv(s, step);
      var rest;
      rest, s' := CallRuns(Next(s, step));
      middle := [step] + rest;
      assert middle[1..] == rest;
    }
  }

  lemma {:induction false} DeviceFinishes(s: State) returns (steps: seq<Step>, s': State)
    requires Inv(s) && s.pc == Unlocked
    ensures Leads(s, steps, s') && Inv(s') && s'.pc == Unlocked && s'.req == 0 && s'.accepted == s.accepted
    decreases s.req
  {
    if s.req == 0 {
      steps, s' := [], s;
    } else {
      StepInv(s, Device);
      var rest;
      rest, s' := DeviceFinishes(Next(s, Device));
      steps := [Device] + rest;
      assert steps[1..] == rest;
    }
  }

  lemma {:induction false} LeadsOn(s: State, steps: seq<Step>, s': State, more: seq<Step>, s'': State)
    requires Leads(s, steps, s') && Leads(s', more, s'')
    ensures Leads(s, steps + more, s'')
    decreases |steps|
  {
    if steps == [] {
      assert steps + more == more;
    } else {
      LeadsOn(Next(s, steps[0]), steps[1..], s', more, s'');
      assert (steps + more)[1..] == steps[1..] + more;
    }
  }

  /** No accepted buffer is stuck: once the device is done, one more call frees them all. */
  lemma AllFreed(s: State) returns (steps: seq<Step>, s': State)
    requires Inv(s) && s.pc == Unlocked
    ensures Leads(s, steps, s') && s'.freed == s.accepted && s'.pc == Unlocked
  {
    var device, s0 := DeviceFinishes(s);
    StepInv(s0, BeginComplete);
    var middle, s1 := CallRuns(Next(s0, BeginComplete));
    CompleteSendFrees(s0, middle, s1);
    s' := Next(s1, Wake);
    LeadsOn(Next(s0, BeginComplete), middle, s1, [Wake], s');
    LeadsOn(s0, [BeginComplete], Next(s0, BeginComplete), middle + [Wake], s');
    LeadsOn(s, device, s0, [BeginComplete] + (middle + [Wake]), s');
    steps := device + ([BeginComplete] + (middle + [Wake]));
    StepInv(s1, Wake);
    assert s'.freed + [] + [] == s'.freed;
  }

  // ---------------------------------------------------------------- the ring can overflow

  lemma Extend(steps: seq<Step>, step: Step)
    requires Runs(steps) && Enabled(After(steps), step)
    ensures Runs(steps + [step]) && After(steps + [step]) == Next(After(steps), step)
  {
    assert (steps + [step])[..|steps|] == steps;
  }

  // Sends one packet without fragments, while the device is idle.
  lemma SendOne(before: seq<Step>, skb: Skb) returns (steps: seq<Step>)
    requires Runs(before) && After(before).pc == Unlocked && After(before).req == 0 && skb.frags == 0
    ensures Runs(steps)
    ensures var s, s' := After(before), After(steps);
            && s'.pc == Unlocked && s'.req == 1 && s'.comp == s.comp
            && s'.cq == (if |s.cq| < CQ_CAPACITY then s.cq + [skb] else s.cq)
  {
    Extend(before, Xmit(skb));
    steps := before + [Xmit(skb)];
    Extend(steps, PostSegment);
    steps := steps + [PostSegment];
    Extend(steps, Push);
    steps := steps + [Push];
  }

  // The device has finished k packets, but nobody has processed its completions.
  predicate Unprocessed(s: State, k: nat) {
    s.pc == Unlocked && s.req == 0 && s.comp == k && |s.cq| == k && Segments(s.cq) == k
  }

  lemma OneMore(before: seq<Step>, k: nat) returns (steps: seq<Step>)
    requires Runs(before) && Unprocessed(After(before), k) && k < CQ_CAPACITY
    ensures Runs(steps) && Unprocessed(After(steps), k + 1)
  {
    SegmentsPush(After(before).cq, Skb(k, 0));
    var sent := SendOne(before, Skb(k, 0));
    Extend(sent, Device);
    steps := sent + [Device];
  }

  lemma {:induction false} Unattended(k: nat) returns (steps: seq<Step>)
    requires k <= CQ_CAPACITY
    ensures Runs(steps) && Unprocessed(After(steps), k)
  {
    if k == 0 {
      steps := [];
    } else {
      var before := Unattended(k - 1);
      steps := OneMore(before, k - 1);
    }
  }

  /** Nothing in the driver keeps the ring from overflowing: the 256th packet that completes
      unattended is dropped from the ring, and the law fails from then on. */
  lemma OverflowReachable() returns (steps: seq<Step>)
    ensures Runs(steps) && !Law(After(steps))
  {
    steps := Unattended(CQ_CAPACITY);
    steps := SendOne(steps, Skb(0, 0));
  }
}
