/** The byte-addressed UDP rings of the loopback experiment (boards/default/lib/udp_exp.c).

    Software and device share a head and a tail register per ring, both modulo its size, and keep one
    byte empty.  Software fills the transmit ring and the device drains it; for the receive ring it is
    the other way round.  Both sides run concurrently. */
module UdpRing {
  import opened Common

  const TWO_32: nat := 0x1_0000_0000

  // 32-bit unsigned addition.
  function Add32(a: nat, b: nat): nat { (a + b) % TWO_32 }

  /** Advancing an index, as the source computes it. */
  function Next32(i: nat, n: nat, size: nat): nat
    requires size > 0
  {
    Add32(i, n) % size
  }

  // What the size registers can hold, other than nothing.
  predicate RingSize(size: nat) { 0 < size < TWO_32 }

  /** The sum is taken in 32 bits before the remainder, so the index comes out right exactly if it
      does not leave them. */
  lemma Next32Is(i: nat, n: nat, size: nat)
    requires RingSize(size) && i < size && n <= size
    ensures Next32(i, n, size) == if i + n < size then i + n
                                  else if i + n < TWO_32 then (i + n) % size else i + n - TWO_32
    ensures Next32(i, n, size) == (i + n) % size <==> i + n < TWO_32
  {
    if i + n < size {
      ModIs(0, i + n, size);
    } else if i + n >= TWO_32 {
      ModIs(1, i + n - TWO_32, TWO_32);
      ModIs(0, i + n - TWO_32, size);
      PastTheEnd(i + n, size);
    }
  }

  lemma PastTheEnd(x: nat, size: nat)
    requires size <= x < 2 * size
    ensures x % size == x - size
  {
    ModIs(1, x - size, size);
  }

  // Chunks for which no index leaves 32 bits.
  predicate Fits(size: nat, chunk: nat) { size - 1 + chunk < TWO_32 }

  /** Every index advances rightly exactly for these; otherwise the last one does not. */
  lemma AdvancesIff(size: nat, chunk: nat)
    requires RingSize(size) && chunk <= size
    ensures (forall i: nat :: i < size ==> Next32(i, chunk, size) == (i + chunk) % size) <==> Fits(size, chunk)
  {
    forall i: nat | i < size
      ensures Next32(i, chunk, size) == (i + chunk) % size <==> i + chunk < TWO_32
    {
      Next32Is(i, chunk, size);
    }
    Next32Is(size - 1, chunk, size);
  }

  /** ring_free_bytes */
  function FreeBytes(head: nat, tail: nat, size: nat): int {
    if tail >= head then size - (tail - head) - 1 else head - tail - 1
  }

  /** Bytes published in a receive ring and not yet consumed. */
  function Available(head: nat, tail: nat, size: nat): int {
    if tail >= head then tail - head else size - (head - tail)
  }

  // ---------------------------------------------------------------- indices and counters

  lemma SumOfMultiples(x: nat, y: nat, n: nat)
    requires n > 0 && x % n == 0 && y % n == 0
    ensures (x + y) % n == 0
  {
    assert x == n * (x / n) && y == n * (y / n);
    assert x + y == n * (x / n + y / n);
    ModIs(x / n + y / n, 0, n);
  }

  lemma NextMultiple(x: nat, y: nat, n: nat)
    requires n > 0 && x % n == 0 && y % n == 0 && x < y
    ensures x + n <= y && (x + n) % n == 0
  {
    assert x == n * (x / n) && y == n * (y / n);
    assert y - x == n * (y / n - x / n);
    MultipleIsLarge(n, x / n - y / n);
    SumOfMultiples(x, n, n);
  }

  lemma ModAdd(x: nat, d: nat, n: nat)
    requires d < n
    ensures (x + d) % n == if x % n + d < n then x % n + d else x % n + d - n
  {
    var q, r := x / n, x % n;
    assert x == n * q + r;
    if r + d < n {
      ModIs(q, r + d, n);
    } else {
      ModIs(q + 1, r + d - n, n);
      assert n * (q + 1) == n * q + n;
      assert x + d == n * (q + 1) + (r + d - n);
    }
  }

  // What the ever-growing counters of bytes consumed and bytes published look like in the registers.
  predicate Shows(head: nat, tail: nat, size: nat, consumed: nat, published: nat) {
    && size > 0 && head == consumed % size && tail == published % size
    && consumed <= published < consumed + size
  }

  /** With one byte kept empty, the registers determine how much the ring holds. */
  lemma RegistersDetermine(head: nat, tail: nat, size: nat, consumed: nat, published: nat)
    requires Shows(head, tail, size, consumed, published)
    ensures FreeBytes(head, tail, size) == size - 1 - (published - consumed)
    ensures Available(head, tail, size) == published - consumed
  {
    ModAdd(consumed, published - consumed, size);
  }

  // ---------------------------------------------------------------- how much to send

  function Min(a: nat, b: nat): nat { if a < b then a else b }

  function WholeChunks(n: nat, chunk: nat): (q: nat)
    requires chunk > 0
    ensures q <= n
  {
    n - n % chunk
  }

  /** The bytes one call sends. */
  function Quota(size: nat, free: nat, need: nat, chunk: nat): nat
    requires chunk > 0
  {
    WholeChunks(Min(Min(size / 2, free), need), chunk)
  }

  /** It is the largest whole number of chunks within half the ring, the free space and the need. */
  lemma QuotaIsLargest(size: nat, free: nat, need: nat, chunk: nat, k: nat)
    requires chunk > 0
    ensures var q := Quota(size, free, need, chunk);
            && q % chunk == 0 && q <= size / 2 && q <= free && q <= need
            && (chunk * k <= size / 2 && chunk * k <= free && chunk * k <= need ==> chunk * k <= q)
  {
    WholeChunksLargest(Min(Min(size / 2, free), need), chunk, k);
  }

  lemma WholeChunksLargest(n: nat, chunk: nat, k: nat)
    requires chunk > 0
    ensures WholeChunks(n, chunk) % chunk == 0
    ensures chunk * k <= n ==> chunk * k <= WholeChunks(n, chunk)
  {
    var m := n / chunk;
    assert n == chunk * m + n % chunk;
    ModIs(m, 0, chunk);
    if k > m {
      TimesMonotone(chunk, m + 1, k);
    } else {
      TimesMonotone(chunk, k, m);
    }
  }

  lemma TimesMonotone(chunk: nat, i: nat, j: nat)
    requires i <= j
    ensures chunk * i <= chunk * j
    ensures i > 0 ==> chunk * i == chunk * (i - 1) + chunk
  {
    assert chunk * (j - i) >= 0;
  }

  // Bytes in whole chunks from the tail to the first index at or past the end of the ring.
  function ToEnd(size: nat, tail: nat, chunk: nat): nat
    requires tail < size && chunk > 0
  {
    WholeChunks(size - tail + chunk - 1, chunk)
  }

  lemma ToEndIs(size: nat, tail: nat, chunk: nat)
    requires tail < size && chunk > 0
    ensures ToEnd(size, tail, chunk) % chunk == 0 && size - tail <= ToEnd(size, tail, chunk) < size - tail + chunk
  {
    WholeChunksLargest(size - tail + chunk - 1, chunk, 0);
  }

  /** Filling the ring steps over its end, and that step leaves 32 bits. */
  predicate Wraps(size: nat, tail: nat, chunk: nat, quota: nat)
    requires tail < size && chunk > 0
  {
    ToEnd(size, tail, chunk) <= quota && tail + ToEnd(size, tail, chunk) >= TWO_32
  }

  // It never does with chunks that fit, nor with chunks that exceed half the ring: those are not sent.
  lemma NeverWraps(size: nat, tail: nat, chunk: nat, quota: nat)
    requires tail < size && chunk > 0 && quota % chunk == 0 && quota <= size / 2
    requires Fits(size, chunk) || chunk > size / 2
    ensures !Wraps(size, tail, chunk, quota)
  {
    ToEndIs(size, tail, chunk);
    if quota > 0 {
      NextMultiple(0, quota, chunk);
    }
  }

  /** Every other chunk does: filling one from the last index of the ring leaves 32 bits. */
  lemma LastIndexWraps(size: nat, chunk: nat)
    requires RingSize(size) && 0 < chunk <= size / 2 && !Fits(size, chunk)
    ensures Wraps(size, size - 1, chunk, chunk)
  {
    ToEndIs(size, size - 1, chunk);
    NextMultiple(0, ToEnd(size, size - 1, chunk), chunk);
  }

  // Where the tail is after `sent` bytes, if the first index past the end is `end` bytes away.
  function Stepped(size: nat, tail: nat, end: nat, sent: nat): int {
    if sent < end then tail + sent else if tail + end < TWO_32 then tail + sent - size else tail + sent - TWO_32
  }

  lemma StepTail(size: nat, tail: nat, end: nat, chunk: nat, sent: nat, quota: nat)
    requires RingSize(size) && tail < size && size - tail <= end < size - tail + chunk
    requires sent < end ==> sent + chunk == end || sent + 2 * chunk <= end
    requires sent + chunk <= quota <= size / 2
    ensures 0 <= Stepped(size, tail, end, sent) < size
    ensures Next32(Stepped(size, tail, end, sent), chunk, size) == Stepped(size, tail, end, sent + chunk)
  {
    var i := Stepped(size, tail, end, sent);
    Next32Is(i, chunk, size);
    if size <= i + chunk < TWO_32 {
      PastTheEnd(i + chunk, size);
    }
  }

  // The tail ends up where it should exactly if no step leaves 32 bits.
  lemma SteppedRight(size: nat, tail: nat, chunk: nat, quota: nat)
    requires RingSize(size) && tail < size && chunk > 0 && quota % chunk == 0 && quota <= size / 2
    ensures var t := Stepped(size, tail, ToEnd(size, tail, chunk), quota);
            t >= 0 && (t == (tail + quota) % size <==> !Wraps(size, tail, chunk, quota))
  {
    var end := ToEnd(size, tail, chunk);
    ToEndIs(size, tail, chunk);
    if quota < end {
      NextMultiple(quota, end, chunk);
      ModIs(0, tail + quota, size);
    } else {
      PastTheEnd(tail + quota, size);
    }
  }

  lemma NoWrapOfNothing(size: nat, tail: nat, chunk: nat)
    requires tail < size && chunk > 0
    ensures !Wraps(size, tail, chunk, 0)
  {
    ToEndIs(size, tail, chunk);
  }

  lemma SameIndex(x: nat, d: nat, size: nat)
    requires d < size
    ensures (x + d) % size == (x % size + d) % size
  {
    ModAdd(x, d, size);
    ModAdd(x % size, d, size);
    ModIs(0, x % size, size);
  }

  // ---------------------------------------------------------------- the rings

  class Ring {
    const size: nat
    var head: nat
    var tail: nat
    ghost var consumed: nat
    ghost var published: nat

    constructor (size: nat)
      requires RingSize(size)
      ensures Valid() && this.size == size && consumed == published == 0
    {
      this.size := size;
      head, tail, consumed, published := 0, 0, 0, 0;
    }

    ghost predicate Valid()
      reads this
    {
      RingSize(size) && Shows(head, tail, size, consumed, published)
    }

    /** The consuming side takes up to n bytes. */
    method Consume(n: nat)
      requires Valid()
      modifies this`head, this`consumed
      ensures Valid() && consumed == old(consumed) + Min(n, published - old(consumed))
    {
      RegistersDetermine(head, tail, size, consumed, published);
      var taken := Min(n, Available(head, tail, size));
      ModAdd(consumed, taken, size);
      head := if head + taken < size then head + taken else head + taken - size;
      consumed := consumed + taken;
    }

    /** The publishing side adds up to n bytes, as far as there is room. */
    method Publish(n: nat)
      requires Valid()
      modifies this`tail, this`published
      ensures Valid() && published == old(published) + Min(n, size - 1 - (old(published) - consumed))
    {
      RegistersDetermine(head, tail, size, consumed, published);
      var added := Min(n, FreeBytes(head, tail, size));
      ModAdd(published, added, size);
      tail := if tail + added < size then tail + added else tail + added - size;
      published := published + added;
    }

    /** try_fill_tx, while the device takes up to `drained` bytes between its reading the registers and
        its writing the tail.  The tail shows what has been sent exactly if no step over the end of the
        ring leaves 32 bits. */
    method TryFill(chunk: nat, need: nat, drained: nat) returns (sent: nat)
      requires Valid() && chunk > 0
      modifies this
      ensures sent == Quota(size, size - 1 - (old(published) - old(consumed)), need, chunk)
      ensures sent <= need && sent <= size / 2 && sent % chunk == 0
      ensures published == old(published) + sent
      ensures consumed == old(consumed) + Min(drained, old(published) - old(consumed))
      ensures Valid() <==> !Wraps(size, old(tail), chunk, sent)
    {
      RegistersDetermine(head, tail, size, consumed, published);
      var free := FreeBytes(head, tail, size);
      var quota := ChooseQuota(free, need, chunk);
      Consume(drained);
      if quota == 0 {
        NoWrapOfNothing(size, tail, chunk);
        return 0;
      }
      var newTail;
      sent, newTail := Advance(chunk, quota);
      tail := newTail;
      published := published + sent;
    }

    static method WholeChunksOf(n: nat, chunk: nat) returns (q: nat)
      requires chunk > 0
      ensures q == WholeChunks(n, chunk) && q % chunk == 0
    {
      q := n - n % chunk;
      WholeChunksLargest(n, chunk, 0);
    }

    method ChooseQuota(free: nat, need: nat, chunk: nat) returns (quota: nat)
      requires chunk > 0
      ensures quota == Quota(size, free, need, chunk)
      ensures quota <= free && quota <= need && quota <= size / 2 && quota % chunk == 0
    {
      quota := size / 2;
      if quota > free {
        quota := free;
      }
      if quota > need {
        quota := need;
      }
      assert quota == Min(Min(size / 2, free), need);
      quota := WholeChunksOf(quota, chunk);
    }

    // Steps the tail over `quota` bytes, chunk by chunk.
    method Advance(chunk: nat, quota: nat) returns (sent: nat, newTail: nat)
      requires Valid() && chunk > 0 && quota % chunk == 0 && quota <= size / 2
      ensures sent == quota
      ensures newTail == (published + quota) % size <==> !Wraps(size, tail, chunk, quota)
    {
      sent, newTail := 0, tail;
      ghost var end := ToEnd(size, tail, chunk);
      ToEndIs(size, tail, chunk);
      while sent < quota
        invariant sent <= quota && sent % chunk == 0
        invariant newTail == Stepped(size, tail, end, sent)
        decreases quota - sent
      {
        NextMultiple(sent, quota, chunk);
        if sent < end {
          NextMultiple(sent, end, chunk);
        }
        if sent + chunk < end {
          NextMultiple(sent + chunk, end, chunk);
        }
        StepTail(size, tail, end, chunk, sent, quota);
        newTail := Next32(newTail, chunk, size);
        sent := sent + chunk;
      }
      SteppedRight(size, tail, chunk, quota);
      SameIndex(published, quota, size);
    }

    /** drain_rx, while the device publishes up to `arrived` bytes after its reading the registers. */
    method Drain(arrived: nat) returns (bytes: nat)
      requires Valid()
      modifies this
      ensures Valid() && bytes == old(published) - old(consumed) && consumed == old(published)
      ensures old(published) <= published <= old(published) + arrived
    {
      RegistersDetermine(head, tail, size, consumed, published);
      var seenTail := tail;
      bytes := Available(head, tail, size);
      ghost var seen := published;
      Publish(arrived);
      if bytes != 0 {
        head := seenTail;
        consumed := seen;
      }
    }
  }

  // ---------------------------------------------------------------- the experiment

  // What the device does during one iteration: bytes it sends and bytes that arrive.
  datatype Traffic = Traffic(drained: nat, arrived: nat, drainedMeanwhile: nat, arrivedMeanwhile: nat)

  /** One iteration takes the total from `before` to `after`, when the device had taken `taken` bytes: it
      adds the quota for what is free and still needed. */
  predicate Fill(size: nat, published0: nat, chunk: nat, target: nat, before: nat, after: nat, taken: nat)
    requires chunk > 0
  {
    && taken <= published0 + before <= taken + size - 1
    && after == before + if before < target then Quota(size, size - 1 - (published0 + before - taken), target - before, chunk) else 0
  }

  // Each of the iterations has done just that.
  ghost predicate Fills(totals: seq<nat>, taken: seq<nat>, n: nat, size: nat, published0: nat, chunk: nat, target: nat)
    requires chunk > 0
  {
    && |totals| == n + 1 && |taken| == n && totals[0] == 0
    && forall i :: 0 <= i < n ==> Fill(size, published0, chunk, target, totals[i], totals[i + 1], taken[i])
  }

  /** test_loopback_throughput, which runs for n iterations before it is interrupted or done.  In each it
      sends the quota, so whole chunks and never more than the target; what it counts is exactly what it
      has published and consumed; and what it has consumed is exactly what had been published when it
      last looked: `seen` records how much that was in each iteration. */
  method Loopback(tx: Ring, rx: Ring, chunk: nat, target: nat, traffic: seq<Traffic>)
      returns (totalTx: nat, totalRx: nat, n: nat, ghost seen: seq<nat>, ghost totals: seq<nat>, ghost taken: seq<nat>)
    requires tx != rx && tx.Valid() && rx.Valid() && chunk > 0 && (Fits(tx.size, chunk) || chunk > tx.size / 2)
    modifies tx, rx
    ensures tx.Valid() && rx.Valid() && n <= |traffic| && (n < |traffic| ==> totalRx >= target)
    ensures totalTx <= target && totalTx % chunk == 0 && tx.published == old(tx.published) + totalTx
    ensures Fills(totals, taken, n, tx.size, old(tx.published), chunk, target) && totals[n] == totalTx
    ensures rx.consumed == old(rx.consumed) + totalRx
    ensures Looks(seen, n, old(rx.consumed), old(rx.published), rx.consumed, rx.published)
    ensures n > 0 ==> rx.published <= seen[n - 1] + traffic[n - 1].arrivedMeanwhile
  {
    totalTx, totalRx, n, seen, totals, taken := 0, 0, 0, [], [0], [];
    while n < |traffic| && totalRx < target
      invariant n <= |traffic| && tx.Valid() && rx.Valid()
      invariant totalTx <= target && totalTx % chunk == 0 && tx.published == old(tx.published) + totalTx
      invariant Fills(totals, taken, n, tx.size, old(tx.published), chunk, target) && totals[n] == totalTx
      invariant rx.consumed == old(rx.consumed) + totalRx
      invariant Looks(seen, n, old(rx.consumed), old(rx.published), rx.consumed, rx.published)
      invariant n > 0 ==> rx.published <= seen[n - 1] + traffic[n - 1].arrivedMeanwhile
    {
      tx.Consume(traffic[n].drained);
      rx.Publish(traffic[n].arrived);
      taken := taken + [tx.consumed];
      totalTx := Send(tx, chunk, target, totalTx, traffic[n].drainedMeanwhile, old(tx.published));
      totals := totals + [totalTx];
      seen := seen + [rx.published];
      var justRx := rx.Drain(traffic[n].arrivedMeanwhile);
      totalRx := totalRx + justRx;
      n := n + 1;
    }
  }

  // Each look finds at least what the one before found, and what the last one found is consumed.
  ghost predicate Looks(seen: seq<nat>, n: nat, consumed0: nat, published0: nat, consumed: nat, published: nat) {
    && |seen| == n
    && (forall i, j :: 0 <= i < j < n ==> seen[i] <= seen[j])
    && if n == 0 then consumed == consumed0 && published == published0
       else published0 <= seen[0] && consumed == seen[n - 1] <= published
  }

  // The sending half of an iteration, with chunks that keep the ring valid.
  method Send(tx: Ring, chunk: nat, target: nat, before: nat, drained: nat, ghost published0: nat) returns (after: nat)
    requires tx.Valid() && chunk > 0 && (Fits(tx.size, chunk) || chunk > tx.size / 2)
    requires before <= target && before % chunk == 0 && tx.published == published0 + before
    modifies tx
    ensures tx.Valid() && after <= target && after % chunk == 0 && tx.published == published0 + after
    ensures Fill(tx.size, published0, chunk, target, before, after, old(tx.consumed))
  {
    after := before;
    if before < target {
      ghost var tail := tx.tail;
      var sent := tx.TryFill(chunk, target - before, drained);
      NeverWraps(tx.size, tail, chunk, sent);
      SumOfMultiples(before, sent, chunk);
      after := before + sent;
    }
  }
}
