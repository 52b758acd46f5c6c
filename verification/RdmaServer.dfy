/** The RDMA echo server that records timestamps (boards/default/app/rdma/server_ts.c).

    Every received message is echoed.  The time of each receive waits in a queue until the echo has
    been sent, and then forms a row with the time of the send.  The queue lives in a window of an
    array that moves, is compacted and grows. */
module RdmaServer {
  import opened Common

  const DEPTH: nat := 256        // receives posted at the start; depth of the send and receive queues
  const CQ_DEPTH: nat := 512     // depth of the completion queue

  datatype Kind = Recv | Send | Other

  // A work completion, with the time at which it is handled.
  datatype Completion = Completion(success: bool, kind: Kind, time: nat)

  datatype Row = Row(idx: nat, rxTime: nat, txTime: nat)

  // ---------------------------------------------------------------- the program, on values

  datatype Log = Log(rxq: seq<nat>, rows: seq<Row>)

  /** What handling one completion does. */
  function Handle(log: Log, c: Completion): Log {
    match c.kind
    case Recv => log.(rxq := log.rxq + [c.time])
    case Send =>
      var rxTime := if log.rxq == [] then c.time else log.rxq[0];
      Log(if log.rxq == [] then [] else log.rxq[1..], log.rows + [Row(|log.rows|, rxTime, c.time)])
    case Other => log
  }

  function HandleAll(log: Log, cs: seq<Completion>): Log {
    if cs == [] then log else Handle(HandleAll(log, cs[..|cs| - 1]), cs[|cs| - 1])
  }

  // ---------------------------------------------------------------- the program, in place

  class Server {
    var rxq: array<nat>
    var rxqHead: nat
    var rxqSize: nat
    var rows: array<Row>
    var rowsSize: nat

    ghost predicate Valid()
      reads this
    {
      rxqHead + rxqSize <= rxq.Length && rowsSize <= rows.Length
    }

    ghost function Contents(): Log
      requires Valid()
      reads this, rxq, rows
    {
      Log(rxq[rxqHead..rxqHead + rxqSize], rows[..rowsSize])
    }

    constructor ()
      ensures Valid() && Contents() == Log([], []) && fresh(rxq) && fresh(rows)
    {
      rxq, rxqHead, rxqSize := new nat[0], 0, 0;
      rows, rowsSize := new Row[0](_ => Row(0, 0, 0)), 0;
    }

    method RxqGrowAndCompact()
      requires Valid()
      modifies this`rxq, this`rxqHead
      ensures Valid() && fresh(rxq) && rxqHead == 0 && rxqSize < rxq.Length
      ensures Contents() == old(Contents())
    {
      var newcap := if rxq.Length != 0 then rxq.Length * 2 else 4096;
      var n := new nat[newcap](_ => 0);
      for i := 0 to rxqSize
        modifies n
        invariant forall k :: 0 <= k < i ==> n[k] == rxq[rxqHead + k]
      {
        n[i] := rxq[rxqHead + i];
      }
      rxq, rxqHead := n, 0;
    }

    method RxqPush(time: nat)
      requires Valid()
      modifies this`rxq, this`rxqHead, this`rxqSize, rxq
      ensures Valid() && (rxq == old(rxq) || fresh(rxq))
      ensures Contents() == old(Contents()).(rxq := old(Contents()).rxq + [time])
    {
      if rxq.Length == 0 || rxqHead + rxqSize >= rxq.Length {
        RxqGrowAndCompact();
      }
      rxq[rxqHead + rxqSize] := time;
      rxqSize := rxqSize + 1;
    }

    /** Takes the oldest time off the queue, unless it is empty. */
    method RxqPop() returns (time: Option<nat>)
      requires Valid()
      modifies this`rxq, this`rxqHead, this`rxqSize
      ensures Valid() && (rxq == old(rxq) || fresh(rxq))
      ensures time.None? <==> old(Contents()).rxq == []
      ensures Contents().rows == old(Contents()).rows
      ensures if time.None? then Contents().rxq == [] else [time.value] + Contents().rxq == old(Contents()).rxq
    {
      if rxqSize == 0 {
        return None;
      }
      time := Some(rxq[rxqHead]);
      rxqHead := rxqHead + 1;
      rxqSize := rxqSize - 1;
      if rxqHead > 65536 && rxqSize < rxq.Length / 4 {
        RxqGrowAndCompact();
      }
    }

    method RowsReserve(need: nat)
      requires Valid()
      modifies this`rows
      ensures Valid() && rows.Length >= need && (rows == old(rows) || fresh(rows))
      ensures Contents() == old(Contents())
    {
      if need <= rows.Length {
        return;
      }
      var ncap := if rows.Length != 0 then rows.Length * 2 else 16384;
      while ncap < need
        invariant ncap > 0 && ncap >= rows.Length
        decreases need - ncap
      {
        ncap := ncap * 2;
      }
      var previous := rows;
      rows := new Row[ncap](i requires 0 <= i < ncap reads previous => if i < previous.Length then previous[i] else Row(0, 0, 0));
      assert rows[..rowsSize] == previous[..rowsSize];
    }

    method RowsPush(r: Row)
      requires Valid()
      modifies this`rows, this`rowsSize, rows
      ensures Valid() && (rows == old(rows) || fresh(rows))
      ensures Contents() == old(Contents()).(rows := old(Contents()).rows + [r])
    {
      if rowsSize + 1 > rows.Length {
        RowsReserve(rowsSize + 1);
      }
      rows[rowsSize] := r;
      rowsSize := rowsSize + 1;
    }

    method HandleCompletion(c: Completion)
      requires Valid()
      modifies this, rxq, rows
      ensures Valid() && (rxq == old(rxq) || fresh(rxq)) && (rows == old(rows) || fresh(rows))
      ensures Contents() == Handle(old(Contents()), c)
    {
      if c.kind == Recv {
        RxqPush(c.time);
      } else if c.kind == Send {
        var idx := rowsSize;
        var rxTime := RxqPop();
        RowsPush(Row(idx, if rxTime.None? then c.time else rxTime.value, c.time));
      }
    }

    /** The poll loop: handles completions until one reports an error. */
    method Serve(cs: seq<Completion>) returns (n: nat)
      requires Valid()
      modifies this, rxq, rows
      ensures n <= |cs| && (n < |cs| ==> !cs[n].success) && (forall i :: 0 <= i < n ==> cs[i].success)
      ensures Valid() && Contents() == HandleAll(old(Contents()), cs[..n])
    {
      n := 0;
      while n < |cs| && cs[n].success
        invariant n <= |cs| && forall i :: 0 <= i < n ==> cs[i].success
        invariant Valid() && (rxq == old(rxq) || fresh(rxq)) && (rows == old(rows) || fresh(rows))
        invariant Contents() == HandleAll(old(Contents()), cs[..n])
      {
        HandleCompletion(cs[n]);
        assert cs[..n + 1][..n] == cs[..n];
        n := n + 1;
      }
    }
  }

  // ---------------------------------------------------------------- the program and its device

  /** `recvs` and `sends` are the work requests at the device, `cq` its completions in order;
      `rxTimes` and `txTimes` record when receives and sends were handled. */
  datatype State = State(recvs: nat, sends: nat, cq: seq<Kind>, log: Log, rxTimes: seq<nat>, txTimes: seq<nat>)

  const INIT := State(DEPTH, 0, [], Log([], []), [], [])

  // A message arrives, an echo has been sent, or the program handles the oldest completion.
  datatype Step = Arrive | Sent | Poll(time: nat)

  predicate Enabled(s: State, step: Step) {
    match step
    case Arrive => s.recvs > 0
    case Sent => s.sends > 0
    case Poll(_) => s.cq != []
  }

  function Next(s: State, step: Step): State
    requires Enabled(s, step)
  {
    match step
    case Arrive => s.(recvs := s.recvs - 1, cq := s.cq + [Recv])
    case Sent => s.(sends := s.sends - 1, cq := s.cq + [Send])
    case Poll(time) =>
      var log := Handle(s.log, Completion(true, s.cq[0], time));
      var s1 := s.(cq := s.cq[1..], log := log);
      match s.cq[0]
      case Recv => s1.(sends := s.sends + 1, rxTimes := s.rxTimes + [time])  // echo
      case Send => s1.(recvs := s.recvs + 1, txTimes := s.txTimes + [time])  // post another receive
      case Other => s1
  }

  function Count(cq: seq<Kind>, k: Kind): nat {
    if cq == [] then 0 else Count(cq[1..], k) + (if cq[0] == k then 1 else 0)
  }

  lemma {:induction false} CountPush(cq: seq<Kind>, k: Kind, x: Kind)
    ensures Count(cq + [x], k) == Count(cq, k) + (if x == k then 1 else 0)
  {
    if cq == [] {
      assert cq + [x] == [x];
    } else {
      assert (cq + [x])[1..] == cq[1..] + [x];
      CountPush(cq[1..], k, x);
    }
  }

  lemma {:induction false} CountAll(cq: seq<Kind>)
    requires forall i :: 0 <= i < |cq| ==> cq[i] != Other
    ensures Count(cq, Recv) + Count(cq, Send) == |cq|
  {
    if cq != [] {
      CountAll(cq[1..]);
    }
  }

  // Receives posted and sends outstanding, as far as the program has seen.
  function PostedRecvs(s: State): nat { s.recvs + Count(s.cq, Recv) }
  function OutstandingSends(s: State): nat { s.sends + Count(s.cq, Send) }

  /** Row k holds the times of the k-th receive and of the k-th send. */
  predicate Paired(s: State) {
    && |s.log.rows| == |s.txTimes| <= |s.rxTimes|
    && forall k :: 0 <= k < |s.log.rows| ==> s.log.rows[k] == Row(k, s.rxTimes[k], s.txTimes[k])
  }

  predicate Inv(s: State) {
    && PostedRecvs(s) + OutstandingSends(s) == DEPTH
    && (forall i :: 0 <= i < |s.cq| ==> s.cq[i] != Other)
    && Paired(s)
    && s.log.rxq == s.rxTimes[|s.log.rows|..]
    && |s.log.rxq| == OutstandingSends(s)
  }

  lemma PollInv(s: State, time: nat)
    requires Inv(s) && s.cq != []
    ensures Inv(Next(s, Poll(time)))
    ensures s.cq[0] == Send ==> s.log.rxq != []
  {
    assert Count(s.cq, s.cq[0]) > 0;
    var s' := Next(s, Poll(time));
    assert forall i :: 0 <= i < |s'.cq| ==> s'.cq[i] == s.cq[i + 1];
  }

  lemma StepInv(s: State, step: Step)
    requires Inv(s) && Enabled(s, step)
    ensures Inv(Next(s, step))
  {
    match step {
      case Arrive =>
        CountPush(s.cq, Recv, Recv);
        CountPush(s.cq, Send, Recv);
      case Sent =>
        CountPush(s.cq, Recv, Send);
        CountPush(s.cq, Send, Send);
      case Poll(time) =>
        PollInv(s, time);
    }
  }

  // The state after taking, from the start, those of the steps that are possible.
  function After(steps: seq<Step>): State {
    if steps == [] then INIT
    else
      var s := After(steps[..|steps| - 1]);
      if Enabled(s, steps[|steps| - 1]) then Next(s, steps[|steps| - 1]) else s
  }

  lemma {:induction false} RunInv(steps: seq<Step>)
    ensures Inv(After(steps))
  {
    if steps != [] {
      var n := |steps| - 1;
      RunInv(steps[..n]);
      if Enabled(After(steps[..n]), steps[n]) {
        StepInv(After(steps[..n]), steps[n]);
      }
    }
  }

  predicate Safe(s: State) {
    && PostedRecvs(s) + OutstandingSends(s) == 256
    && s.recvs <= 256 && s.sends <= 256 && |s.cq| <= 512
    && (s.cq != [] && s.cq[0] == Send ==> s.log.rxq != [])
    && Paired(s) && s.log.rxq == s.rxTimes[|s.log.rows|..]
  }

  /** Over every run of the server: posted receives and outstanding sends add up to 256, so no queue
      exceeds its declared depth; the time queue holds the times of the receives not yet in a row and
      is never empty when a send completes; and row k pairs the k-th receive with the k-th send. */
  lemma ServerSafety(steps: seq<Step>)
    ensures Safe(After(steps))
  {
    RunInv(steps);
    InvSafe(After(steps));
  }

  lemma InvSafe(s: State)
    requires Inv(s)
    ensures Safe(s)
  {
    CountAll(s.cq);
    if s.cq != [] {
      PollInv(s, 0);
    }
  }
}
