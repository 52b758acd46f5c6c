/** The sense-reversing barrier of test/bare/util.h as a machine of atomic steps.

    Each core repeatedly calls `barrier`.  A call flips the core's own sense, adds one to the
    shared counter, and then either resets the counter and publishes its sense (last arriver)
    or spins until the shared sense equals its own.  Any core may take the next step, so a run
    is any interleaving, over any number of calls. */
module Barrier {
  import opened Common

  // Where a core is inside `barrier`; `Outside` is between two calls.
  datatype Pc = Outside | AtAdd | AtReset | AtPublish | AtSpin

  // `calls`, `arrived` and `returned` count calls begun, fetch-and-adds done and calls finished.
  datatype Core = Core(pc: Pc, threadSense: bool, calls: nat, arrived: nat, returned: nat)

  // `episodes` counts how often the shared sense has been published; the code does not store it.
  datatype State = State(cores: seq<Core>, sense: bool, count: int, episodes: nat)

  predicate Init(s: State) {
    && 0 < |s.cores|
    && (forall i :: 0 <= i < |s.cores| ==> s.cores[i] == Core(Outside, false, 0, 0, 0))
    && !s.sense && s.count == 0 && s.episodes == 0
  }

  function Return(c: Core): Core {
    c.(pc := Outside, returned := c.returned + 1)
  }

  /** The atomic step core `i` takes next; a spinning core that is not released stays put. */
  function Step(s: State, i: nat): (s': State)
    requires i < |s.cores|
  {
    var c := s.cores[i];
    match c.pc
    case Outside =>
      s.(cores := s.cores[i := c.(pc := AtAdd, threadSense := !c.threadSense, calls := c.calls + 1)])
    case AtAdd =>
      var pc := if s.count == |s.cores| - 1 then AtReset else AtSpin;
      s.(cores := s.cores[i := c.(pc := pc, arrived := c.arrived + 1)], count := s.count + 1)
    case AtReset =>
      s.(cores := s.cores[i := c.(pc := AtPublish)], count := 0)
    case AtPublish =>
      s.(cores := s.cores[i := Return(c)], sense := c.threadSense, episodes := s.episodes + 1)
    case AtSpin =>
      if s.sense == c.threadSense then s.(cores := s.cores[i := Return(c)]) else s
  }

  // ---------------------------------------------------------------- inductive invariant

  predicate Odd(n: nat) { n % 2 == 1 }

  // Number of cores that have arrived more than `e` times.
  function Arrivals(cores: seq<Core>, e: nat): (n: nat)
    ensures n <= |cores|
  {
    if cores == [] then 0
    else Arrivals(cores[..|cores| - 1], e) + (if cores[|cores| - 1].arrived > e then 1 else 0)
  }

  /** What is known of one core when `e` episodes are complete. */
  predicate CoreInv(c: Core, e: nat) {
    && c.threadSense == Odd(c.calls)
    && match c.pc
       case Outside => c.calls == c.arrived == c.returned == e
       case AtAdd => c.arrived == c.returned == e && c.calls == e + 1
       case AtReset => c.returned == e && c.calls == c.arrived == e + 1
       case AtPublish => c.returned == e && c.calls == c.arrived == e + 1
       case AtSpin => c.calls == c.arrived == c.returned + 1 && (c.arrived == e || c.arrived == e + 1)
  }

  // Core `i` is the last arriver of the current episode and has not published yet.
  predicate Closing(s: State, i: nat)
    requires i < |s.cores|
  {
    s.cores[i].pc == AtReset || s.cores[i].pc == AtPublish
  }

  predicate NoneClosing(s: State) {
    forall i: nat :: i < |s.cores| ==> !Closing(s, i)
  }

  predicate ClosedBy(s: State, i: nat)
    requires i < |s.cores|
  {
    && Closing(s, i)
    && s.count == (if s.cores[i].pc == AtReset then |s.cores| else 0)
    && (forall j :: 0 <= j < |s.cores| ==> s.cores[j].arrived == s.episodes + 1)
    && (forall j: nat :: j < |s.cores| && j != i ==> s.cores[j].pc == AtSpin)
  }

  predicate CoresInv(s: State) {
    forall i :: 0 <= i < |s.cores| ==> CoreInv(s.cores[i], s.episodes)
  }

  // `count` is the number of arrivals of the current episode, until the last arriver resets it.
  predicate CountInv(s: State) {
    && (forall i: nat :: i < |s.cores| && Closing(s, i) ==> ClosedBy(s, i))
    && (NoneClosing(s) ==> s.count == Arrivals(s.cores, s.episodes) < |s.cores|)
  }

  predicate Inv(s: State) {
    0 < |s.cores| && s.sense == Odd(s.episodes) && CoresInv(s) && CountInv(s)
  }

  lemma {:induction false} ArrivalsUpdate(cores: seq<Core>, e: nat, i: nat, c: Core)
    requires i < |cores|
    ensures Arrivals(cores[i := c], e) ==
            Arrivals(cores, e) + (if c.arrived > e then 1 else 0) - (if cores[i].arrived > e then 1 else 0)
  {
    var n := |cores| - 1;
    if i == n {
      assert cores[i := c][..n] == cores[..n];
    } else {
      assert cores[i := c][..n] == cores[..n][i := c];
      ArrivalsUpdate(cores[..n], e, i, c);
    }
  }

  lemma {:induction false} ArrivalsExtremes(cores: seq<Core>, e: nat)
    ensures Arrivals(cores, e) == |cores| <==> forall i :: 0 <= i < |cores| ==> cores[i].arrived > e
    ensures Arrivals(cores, e) == 0 <==> forall i :: 0 <= i < |cores| ==> cores[i].arrived <= e
  {
    if cores != [] {
      var n := |cores| - 1;
      ArrivalsExtremes(cores[..n], e);
      assert forall i :: 0 <= i < n ==> cores[..n][i] == cores[i];
    }
  }

  lemma InitInv(s: State)
    requires Init(s)
    ensures Inv(s)
  {
    ArrivalsExtremes(s.cores, 0);
  }

  // While some core has not arrived, no core is closing the episode.
  lemma LaggardMeansNoneClosing(s: State, i: nat)
    requires Inv(s) && i < |s.cores| && s.cores[i].arrived != s.episodes + 1
    ensures NoneClosing(s)
  {
  }

  lemma AddCount(s: State, i: nat)
    requires Inv(s) && i < |s.cores| && s.cores[i].pc == AtAdd
    ensures CountInv(Step(s, i))
  {
    var s' := Step(s, i);
    var e := s.episodes;
    LaggardMeansNoneClosing(s, i);
    ArrivalsUpdate(s.cores, e, i, s'.cores[i]);
    ArrivalsExtremes(s'.cores, e);
    if s'.cores[i].pc == AtReset {
      forall j: nat | j < |s.cores| && j != i
        ensures s'.cores[j].pc == AtSpin && s'.cores[j].arrived == e + 1
      {
        assert CoreInv(s.cores[j], e) && !Closing(s, j) && s'.cores[j].arrived > e;
      }
      assert ClosedBy(s', i);
      assert forall j: nat :: j < |s'.cores| && Closing(s', j) ==> j == i;
    } else {
      assert forall j: nat :: j < |s.cores| && j != i ==> Closing(s', j) == Closing(s, j);
    }
  }

  lemma PublishCount(s: State, i: nat)
    requires Inv(s) && i < |s.cores| && s.cores[i].pc == AtPublish
    ensures CountInv(Step(s, i))
  {
    var s' := Step(s, i);
    assert ClosedBy(s, i);
    ArrivalsExtremes(s'.cores, s'.episodes);
    assert NoneClosing(s');
  }

  lemma ResetCount(s: State, i: nat)
    requires Inv(s) && i < |s.cores| && s.cores[i].pc == AtReset
    ensures CountInv(Step(s, i))
  {
    var s' := Step(s, i);
    assert ClosedBy(s, i);
    assert ClosedBy(s', i);
    assert forall j: nat :: j < |s'.cores| && Closing(s', j) ==> j == i;
  }

  // Replacing a core by one with as many arrivals leaves the count right.
  lemma QuietKeeps(s: State, i: nat, c: Core)
    requires CountInv(s) && NoneClosing(s) && i < |s.cores| && c.arrived == s.cores[i].arrived
    requires c.pc != AtReset && c.pc != AtPublish
    ensures CountInv(s.(cores := s.cores[i := c]))
  {
    var s' := s.(cores := s.cores[i := c]);
    ArrivalsUpdate(s.cores, s.episodes, i, c);
    forall j: nat | j < |s'.cores|
      ensures !Closing(s', j)
    {
      assert !Closing(s, j);
    }
  }

  // Entering, and leaving the spin loop, change neither the counter nor any arrival count.
  lemma QuietCount(s: State, i: nat)
    requires Inv(s) && i < |s.cores| && (s.cores[i].pc == Outside || s.cores[i].pc == AtSpin)
    ensures CountInv(Step(s, i))
  {
    if Step(s, i) != s {
      assert CoreInv(s.cores[i], s.episodes);
      LaggardMeansNoneClosing(s, i);
      QuietKeeps(s, i, Step(s, i).cores[i]);
    }
  }

  lemma StepCores(s: State, i: nat)
    requires Inv(s) && i < |s.cores|
    ensures var s' := Step(s, i); CoresInv(s') && s'.sense == Odd(s'.episodes)
  {
    var s' := Step(s, i);
    assert CoreInv(s.cores[i], s.episodes);
    if s.cores[i].pc == AtPublish {
      assert ClosedBy(s, i);
    }
    forall j: nat | j < |s.cores| && j != i
      ensures CoreInv(s'.cores[j], s'.episodes)
    {
      assert CoreInv(s.cores[j], s.episodes);
    }
  }

  /** Every atomic step of every core keeps the invariant. */
  lemma StepInv(s: State, i: nat)
    requires Inv(s) && i < |s.cores|
    ensures Inv(Step(s, i))
  {
    StepCores(s, i);
    match s.cores[i].pc {
      case AtAdd => AddCount(s, i);
      case AtPublish => PublishCount(s, i);
      case AtReset => ResetCount(s, i);
      case Outside => QuietCount(s, i);
      case AtSpin => QuietCount(s, i);
    }
  }

  // ---------------------------------------------------------------- safety over all runs

  predicate Schedule(sched: seq<nat>, n: nat) {
    forall t :: 0 <= t < |sched| ==> sched[t] < n
  }

  /** The state after letting the cores step in the order `sched` lists them. */
  function Exec(s: State, sched: seq<nat>): (s': State)
    requires Schedule(sched, |s.cores|)
    ensures |s'.cores| == |s.cores|
  {
    if sched == [] then s
    else Step(Exec(s, sched[..|sched| - 1]), sched[|sched| - 1])
  }

  lemma {:induction false} ExecInv(s: State, sched: seq<nat>)
    requires Inv(s) && Schedule(sched, |s.cores|)
    ensures Inv(Exec(s, sched))
  {
    if sched != [] {
      var n := |sched| - 1;
      ExecInv(s, sched[..n]);
      StepInv(Exec(s, sched[..n]), sched[n]);
    }
  }

  /** No core has returned from its k-th call unless every core has arrived at its k-th call,
      and cores are never more than one episode apart. */
  lemma BarrierSafety(s0: State, sched: seq<nat>, i: nat, j: nat)
    requires Init(s0) && Schedule(sched, |s0.cores|) && i < |s0.cores| && j < |s0.cores|
    ensures var cores := Exec(s0, sched).cores;
            && cores[i].returned <= cores[j].arrived
            && cores[i].calls <= cores[j].calls + 1
            && cores[i].arrived <= cores[j].arrived + 1
            && cores[i].returned <= cores[j].returned + 1
  {
    InitInv(s0);
    ExecInv(s0, sched);
    var s := Exec(s0, sched);
    assert CoreInv(s.cores[i], s.episodes) && CoreInv(s.cores[j], s.episodes);
  }

  // Core `i` closes the episode while every other core waits for its publication.
  predicate OthersWait(s: State, i: nat)
    requires i < |s.cores|
  {
    forall j: nat :: j < |s.cores| && j != i ==> s.cores[j].pc == AtSpin && s.sense != s.cores[j].threadSense
  }

  lemma ClosingWaits(s: State, i: nat)
    requires Inv(s) && i < |s.cores| && Closing(s, i)
    ensures ClosedBy(s, i) && OthersWait(s, i)
  {
    assert ClosedBy(s, i);
    forall j: nat | j < |s.cores| && j != i
      ensures s.cores[j].pc == AtSpin && s.sense != s.cores[j].threadSense
    {
      assert CoreInv(s.cores[j], s.episodes);
    }
  }

  /** `count` is the number of cores that arrived in the current episode; from the moment it is
      about to be reset until the publication, every other core waits in its spin loop. */
  lemma BarrierCount(s0: State, sched: seq<nat>, i: nat)
    requires Init(s0) && Schedule(sched, |s0.cores|) && i < |s0.cores|
    ensures var s := Exec(s0, sched);
            && (s.cores[i].pc == AtReset ==> s.count == |s.cores| && OthersWait(s, i))
            && (s.cores[i].pc == AtPublish ==> s.count == 0 && OthersWait(s, i))
            && (NoneClosing(s) ==> s.count == Arrivals(s.cores, s.episodes) < |s.cores|)
  {
    InitInv(s0);
    ExecInv(s0, sched);
    if Closing(Exec(s0, sched), i) {
      ClosingWaits(Exec(s0, sched), i);
    }
  }

  // ---------------------------------------------------------------- progress

  // Atomic steps core `c` still needs to return from its k-th call, once released.
  function Weight(c: Core, k: nat): nat {
    if c.returned >= k then 0
    else match c.pc
      case Outside => 5
      case AtAdd => 4
      case AtReset => 3
      case AtPublish => 2
      case AtSpin => 1
  }

  function Work(cores: seq<Core>, k: nat): nat {
    if cores == [] then 0 else Work(cores[..|cores| - 1], k) + Weight(cores[|cores| - 1], k)
  }

  lemma {:induction false} WorkUpdate(cores: seq<Core>, k: nat, i: nat, c: Core)
    requires i < |cores|
    ensures Work(cores[i := c], k) == Work(cores, k) + Weight(c, k) - Weight(cores[i], k)
  {
    var n := |cores| - 1;
    if i == n {
      assert cores[i := c][..n] == cores[..n];
    } else {
      assert cores[i := c][..n] == cores[..n][i := c];
      WorkUpdate(cores[..n], k, i, c);
    }
  }

  predicate AllCalled(s: State, k: nat) {
    forall i :: 0 <= i < |s.cores| ==> s.cores[i].calls >= k
  }

  predicate AllReturned(s: State, k: nat) {
    forall i :: 0 <= i < |s.cores| ==> s.cores[i].returned >= k
  }

  // Core `i` has yet to return from its k-th call and its next step brings that closer.
  predicate Helpful(s: State, k: nat, i: nat)
    requires i < |s.cores|
  {
    var c := s.cores[i];
    && c.returned < k
    && (c.pc == AtAdd || Closing(s, i) || (c.pc == AtSpin && s.sense == c.threadSense))
  }

  /** Deadlock freedom: while some core has not returned from a call all cores have made,
      some core inside the barrier can advance. */
  lemma SomeoneCanAdvance(s: State, k: nat) returns (i: nat)
    requires Inv(s) && AllCalled(s, k) && !AllReturned(s, k)
    ensures i < |s.cores| && Helpful(s, k, i)
  {
    i :| i < |s.cores| && s.cores[i].returned < k;
    assert CoreInv(s.cores[i], s.episodes);
    if !Helpful(s, k, i) {
      // `i` spins unreleased: its episode is open, so a core is closing it or has yet to arrive.
      if j: nat :| j < |s.cores| && Closing(s, j) {
        assert CoreInv(s.cores[j], s.episodes);
        i := j;
      } else {
        ArrivalsExtremes(s.cores, s.episodes);
        var j :| 0 <= j < |s.cores| && s.cores[j].arrived <= s.episodes;
        assert CoreInv(s.cores[j], s.episodes) && s.cores[j].calls >= k;
        i := j;
      }
    }
  }

  lemma WorkStep(s: State, k: nat, i: nat)
    requires Inv(s) && AllCalled(s, k) && i < |s.cores|
    ensures var s' := Step(s, i);
            && AllCalled(s', k)
            && Work(s'.cores, k) <= Work(s.cores, k)
            && (Helpful(s, k, i) ==> Work(s'.cores, k) < Work(s.cores, k))
  {
    assert CoreInv(s.cores[i], s.episodes);
    var s' := Step(s, i);
    if s' != s {
      WorkUpdate(s.cores, k, i, s'.cores[i]);
    }
  }

  lemma HelpfulPersists(s: State, k: nat, i: nat, j: nat)
    requires Inv(s) && i < |s.cores| && j < |s.cores| && i != j && Helpful(s, k, i)
    ensures Helpful(Step(s, j), k, i)
  {
    assert CoreInv(s.cores[i], s.episodes);
    if Closing(s, i) {
      assert ClosedBy(s, i);
    } else {
      LaggardMeansNoneClosing(s, i);
      assert !Closing(s, j);
    }
  }

  // An endless run: step t is taken by core `sched(t)`.
  ghost predicate Follows(run: nat -> State, sched: nat -> nat, t: nat) {
    sched(t) < |run(t).cores| && run(t + 1) == Step(run(t), sched(t))
  }

  ghost predicate Run(run: nat -> State, sched: nat -> nat) {
    Init(run(0)) && forall t: nat :: Follows(run, sched, t)
  }

  ghost predicate RunsOrRests(run: nat -> State, sched: nat -> nat, i: nat, t: nat) {
    sched(t) == i || (i < |run(t).cores| && run(t).cores[i].pc == Outside)
  }

  ghost predicate RunsAfter(run: nat -> State, sched: nat -> nat, i: nat, t: nat) {
    exists u: nat :: t <= u && RunsOrRests(run, sched, i, u)
  }

  /** No core stays inside the barrier for ever without being given a step. */
  ghost predicate Fair(run: nat -> State, sched: nat -> nat) {
    forall i: nat, t: nat :: i < |run(0).cores| ==> RunsAfter(run, sched, i, t)
  }

  lemma {:induction false} SameCores(run: nat -> State, sched: nat -> nat, t: nat)
    requires Run(run, sched)
    ensures |run(t).cores| == |run(0).cores|
  {
    if t > 0 {
      SameCores(run, sched, t - 1);
      assert Follows(run, sched, t - 1);
    }
  }

  lemma {:induction false} RunInv(run: nat -> State, sched: nat -> nat, t: nat)
    requires Run(run, sched)
    ensures Inv(run(t))
  {
    if t == 0 {
      InitInv(run(0));
    } else {
      RunInv(run, sched, t - 1);
      assert Follows(run, sched, t - 1);
      StepInv(run(t - 1), sched(t - 1));
    }
  }

  lemma RunStep(run: nat -> State, sched: nat -> nat, k: nat, i: nat, t: nat)
    requires Run(run, sched) && AllCalled(run(t), k) && i < |run(t).cores| && Helpful(run(t), k, i)
    ensures AllCalled(run(t + 1), k) && i < |run(t + 1).cores|
    ensures Work(run(t + 1).cores, k) <= Work(run(t).cores, k)
    ensures if sched(t) == i then Work(run(t + 1).cores, k) < Work(run(t).cores, k)
            else Helpful(run(t + 1), k, i)
  {
    assert Follows(run, sched, t);
    RunInv(run, sched, t);
    WorkStep(run(t), k, sched(t));
    if sched(t) != i {
      HelpfulPersists(run(t), k, i, sched(t));
    }
  }

  // From `t` on, the helpful core `i` stays helpful until it runs, which lowers the work left.
  lemma {:induction false} WorkDrops(run: nat -> State, sched: nat -> nat, k: nat, i: nat, t: nat, u: nat) returns (v: nat)
    requires Run(run, sched) && t <= u && RunsOrRests(run, sched, i, u)
    requires AllCalled(run(t), k) && i < |run(t).cores| && Helpful(run(t), k, i)
    ensures t < v && AllCalled(run(v), k)
    ensures Work(run(v).cores, k) < Work(run(t).cores, k)
    decreases u - t
  {
    RunStep(run, sched, k, i, t);
    if sched(t) == i {
      v := t + 1;
    } else {
      v := WorkDrops(run, sched, k, i, t + 1, u);
    }
  }

  /** Progress: in any fair run, once every core has called the barrier k times, every core
      eventually returns from its k-th call. */
  lemma {:induction false} BarrierProgress(run: nat -> State, sched: nat -> nat, k: nat, t: nat) returns (u: nat)
    requires Run(run, sched) && Fair(run, sched) && AllCalled(run(t), k)
    ensures t <= u && AllReturned(run(u), k)
    decreases Work(run(t).cores, k)
  {
    if AllReturned(run(t), k) {
      u := t;
    } else {
      RunInv(run, sched, t);
      var i := SomeoneCanAdvance(run(t), k);
      SameCores(run, sched, t);
      assert RunsAfter(run, sched, i, t);
      var w: nat :| t <= w && RunsOrRests(run, sched, i, w);
      var v := WorkDrops(run, sched, k, i, t, w);
      u := BarrierProgress(run, sched, k, v);
    }
  }

  // ---------------------------------------------------------------- fair runs exist

  // The state after t steps in which n cores take turns.
  ghost function InTurn(n: nat, t: nat): (s: State)
    requires n > 0
    ensures |s.cores| == n
  {
    if t == 0 then State(seq(n, _ => Core(Outside, false, 0, 0, 0)), false, 0, 0)
    else Step(InTurn(n, t - 1), (t - 1) % n)
  }

  lemma NextTurn(n: nat, i: nat, t: nat) returns (u: nat)
    requires i < n
    ensures t <= u <= t + 2 * n && u % n == i
  {
    u := if t % n <= i then t + (i - t % n) else t + (n - t % n) + i;
    var q := t / n;
    assert t == n * q + t % n;
    if t % n <= i {
      assert u == n * q + i;
      ModIs(q, i, n);
    } else {
      assert u == n * (q + 1) + i;
      ModIs(q + 1, i, n);
    }
  }

  /** Fair runs exist for every number of cores: let them take turns. */
  lemma TurnsAreFair(n: nat) returns (run: nat -> State, sched: nat -> nat)
    requires n > 0
    ensures Run(run, sched) && Fair(run, sched) && |run(0).cores| == n && (forall t: nat :: sched(t) == t % n)
  {
    run, sched := (t: nat) => InTurn(n, t), (t: nat) => t % n;
    assert forall t: nat :: Follows(run, sched, t);
    forall i: nat, t: nat | i < n
      ensures RunsAfter(run, sched, i, t)
    {
      var u := NextTurn(n, i, t);
      assert RunsOrRests(run, sched, i, u);
    }
  }

  lemma {:induction false} CountsKept(run: nat -> State, sched: nat -> nat, i: nat, t: nat, u: nat)
    requires Run(run, sched) && t <= u && i < |run(0).cores|
    ensures i < |run(t).cores| && i < |run(u).cores|
    ensures run(t).cores[i].calls <= run(u).cores[i].calls
    ensures run(t).cores[i].returned <= run(u).cores[i].returned
    decreases u - t
  {
    SameCores(run, sched, t);
    if t < u {
      assert Follows(run, sched, t);
      CountsKept(run, sched, i, t + 1, u);
    }
  }

  // A core that takes a step after its k-th return has called once more.
  lemma CallsOnTurn(run: nat -> State, sched: nat -> nat, k: nat, i: nat, t: nat, w: nat, u: nat)
    requires Run(run, sched) && t <= w < u && i < |run(0).cores| && sched(w) == i && AllReturned(run(t), k)
    ensures i < |run(u).cores| && run(u).cores[i].calls > k
  {
    CountsKept(run, sched, i, t, w);
    RunInv(run, sched, w);
    assert CoreInv(run(w).cores[i], run(w).episodes);
    assert Follows(run, sched, w);
    CountsKept(run, sched, i, w + 1, u);
  }

  lemma AllCallAgain(n: nat, run: nat -> State, sched: nat -> nat, k: nat, t: nat) returns (u: nat)
    requires n > 0 && Run(run, sched) && |run(0).cores| == n && (forall t: nat :: sched(t) == t % n)
    requires AllReturned(run(t), k)
    ensures AllCalled(run(u), k + 1)
  {
    u := t + 2 * n + 1;
    SameCores(run, sched, u);
    forall i | 0 <= i < n
      ensures run(u).cores[i].calls >= k + 1
    {
      var w := NextTurn(n, i, t);
      CallsOnTurn(run, sched, k, i, t, w, u);
    }
  }

  /** Cores that take turns return from every one of endlessly many calls. */
  lemma {:induction false} TurnsReturn(n: nat, run: nat -> State, sched: nat -> nat, k: nat) returns (t: nat)
    requires n > 0 && Run(run, sched) && Fair(run, sched) && |run(0).cores| == n && (forall t: nat :: sched(t) == t % n)
    ensures AllReturned(run(t), k)
  {
    if k == 0 {
      t := 0;
    } else {
      t := TurnsReturn(n, run, sched, k - 1);
      t := AllCallAgain(n, run, sched, k - 1, t);
      t := BarrierProgress(run, sched, k, t);
    }
  }
}
