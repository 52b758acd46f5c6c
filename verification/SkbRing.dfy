/** The ring of socket buffers of the AccNet driver (sk_buff_cq_* in accnet.c).

    Indices are advanced with `& (CONFIG_ACCNET_RING_SIZE - 1)` although the size, 1280, is not a
    power of two. */
module SkbRing {
  import opened Common

  const RING_SIZE: nat := 1280
  const USED: nat := 256      // the entries that are ever used
  const CAPACITY: nat := 255

  // Bitwise and.
  function BitAnd(x: nat, y: nat): (r: nat) {
    if x == 0 || y == 0 then 0 else (x % 2) * (y % 2) + 2 * BitAnd(x / 2, y / 2)
  }

  function Next(i: nat): nat { BitAnd(i + 1, RING_SIZE - 1) }

  // The lowest k bits of y are set.
  predicate Ones(y: nat, k: nat) {
    k == 0 || (y % 2 == 1 && Ones(y / 2, k - 1))
  }

  lemma {:induction false} LowBits(x: nat, y: nat, k: nat)
    requires Ones(y, k) && x < Pow2(k)
    ensures BitAnd(x, y) == x
    decreases k
  {
    if x > 0 {
      LowBits(x / 2, y / 2, k - 1);
    }
  }

  /** The mask keeps eight low bits and bit ten, so indices wrap at 256, not at 1280. */
  lemma NextWraps(i: nat)
    requires i < USED
    ensures Next(i) == if i + 1 < USED then i + 1 else 0
  {
    assert Ones(1279, 8);
    assert Pow2(8) == USED;
    if i + 1 < USED {
      LowBits(i + 1, RING_SIZE - 1, 8);
    } else {
      assert BitAnd(256, 1279) == 0;
    }
  }

  class Ring<T> {
    const entries: array<T>
    var head: nat
    var tail: nat

    ghost predicate Valid()
      reads this
    {
      entries.Length == RING_SIZE && head < USED && tail < USED
    }

    /** What the ring holds, oldest first. */
    ghost function Contents(): seq<T>
      requires Valid()
      reads this, entries
    {
      if tail <= head then entries[tail..head] else entries[tail..USED] + entries[..head]
    }

    constructor (blank: T)
      ensures Valid() && Contents() == [] && fresh(entries)
    {
      entries := new T[RING_SIZE](_ => blank);
      head, tail := 0, 0;
    }

    /** A bounded FIFO of 255 elements: a push is dropped exactly if the ring is full. */
    method Push(x: T) returns (ok: bool)
      requires Valid()
      modifies this, entries
      ensures Valid()
      ensures ok <==> |old(Contents())| < CAPACITY
      ensures Contents() == if ok then old(Contents()) + [x] else old(Contents())
    {
      NextWraps(head);
      if Next(head) == tail {
        return false;
      }
      entries[head] := x;
      head := Next(head);
      return true;
    }

    method Pop() returns (x: Option<T>)
      requires Valid()
      modifies this
      ensures Valid()
      ensures x.None? <==> old(Contents()) == []
      ensures if x.None? then Contents() == [] else [x.value] + Contents() == old(Contents())
    {
      if head == tail {
        return None;
      }
      NextWraps(tail);
      x := Some(entries[tail]);
      tail := Next(tail);
    }
  }
}
