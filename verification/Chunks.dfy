/**
 Reading a stream in pieces of somebody else's choosing.

 A network may answer the k-th read with any number of octets, from one up to what
 the buffer and the stream allow. `offers(k)` stands for that choice, so a statement
 that holds for every `offers` holds for every chunking of the stream.
 */
module Chunks {
  import opened Bytes

  /** How many octets a read yields: any number that fits, and none only if there is no room or nothing left. */
  function ReadSize(offer: nat, space: nat, left: nat): (n: nat)
    ensures n <= space && n <= left
    ensures n == 0 <==> space == 0 || left == 0
    ensures 1 <= offer <= space && offer <= left ==> n == offer
  {
    var most := if space < left then space else left;
    if offer == 0 && most > 0 then 1 else if offer < most then offer else most
  }

  /** The index, in a buffer refilled from the start when full, just after the p-th octet. */
  function Slot(p: nat, capacity: nat): (i: nat)
    requires p > 0 && capacity > 0
    ensures 1 <= i <= capacity
  {
    if p <= capacity then p else Slot(p - capacity, capacity)
  }

  /** The room such a buffer has for the next read. */
  function Space(p: nat, capacity: nat): (n: nat)
    requires capacity > 0
    ensures 1 <= n <= capacity
  {
    if p == 0 || Slot(p, capacity) == capacity then capacity else capacity - Slot(p, capacity)
  }

  /** How many octets have arrived after k reads into such a buffer. */
  function Received(total: nat, offers: nat -> nat, capacity: nat, k: nat): (r: nat)
    requires capacity > 0
    ensures r <= total
  {
    if k == 0 then 0
    else
      var r := Received(total, offers, capacity, k - 1);
      r + ReadSize(offers(k - 1), Space(r, capacity), total - r)
  }

  lemma ReceivedNext(total: nat, offers: nat -> nat, capacity: nat, k: nat)
    requires capacity > 0
    ensures var r := Received(total, offers, capacity, k);
      Received(total, offers, capacity, k + 1) == r + ReadSize(offers(k), Space(r, capacity), total - r)
  {}

  lemma {:induction false} ReceivedMonotone(total: nat, offers: nat -> nat, capacity: nat, j: nat, k: nat)
    requires capacity > 0 && j <= k
    ensures Received(total, offers, capacity, j) <= Received(total, offers, capacity, k)
  {
    if j < k {
      ReceivedMonotone(total, offers, capacity, j, k - 1);
    }
  }

  lemma {:induction false} SlotAdvance(p: nat, n: nat, capacity: nat)
    requires p > 0 && capacity > 0 && Slot(p, capacity) + n <= capacity
    ensures Slot(p + n, capacity) == Slot(p, capacity) + n
  {
    if p > capacity {
      SlotAdvance(p - capacity, n, capacity);
    }
  }

  lemma {:induction false} SlotWrap(p: nat, n: nat, capacity: nat)
    requires p > 0 && capacity > 0 && Slot(p, capacity) == capacity && 1 <= n <= capacity
    ensures Slot(p + n, capacity) == n
  {
    if p > capacity {
      SlotWrap(p - capacity, n, capacity);
    }
  }

  /** In closed form, the slot of the p-th octet is ((p - 1) mod capacity) + 1. */
  lemma {:induction false} SlotIsRemainder(p: nat, capacity: nat)
    requires p > 0 && capacity > 0
    ensures Slot(p, capacity) == (p - 1) % capacity + 1
  {
    if p <= capacity {
      SmallRemainder(p - 1, capacity);
    } else {
      SlotIsRemainder(p - capacity, capacity);
      RemainderStep(p - 1 - capacity, capacity);
    }
  }

  lemma SmallRemainder(x: nat, n: nat)
    requires x < n
    ensures x % n == x
  {}

  lemma RemainderStep(x: nat, n: nat)
    requires n > 0
    ensures (x + n) % n == x % n
  {
    RemainderUnique(x + n, n, x / n + 1, x % n);
  }

  lemma RemainderUnique(a: nat, n: nat, q: int, r: nat)
    requires r < n && a == q * n + r
    ensures a % n == r
  {
    var k := q - a / n;
    assert k * n == a % n - r;
    NotBetween(k, n);
  }

  /** Something to read from: a file, or a connection whose peer sends `stream` and then closes. */
  class Input {
    const stream: seq<byte>
    const offers: nat -> nat
    var taken: nat
    var calls: nat

    ghost predicate Valid()
      reads this
    {
      taken <= |stream|
    }

    constructor (stream: seq<byte>, offers: nat -> nat)
      ensures Valid() && this.stream == stream && this.offers == offers
      ensures taken == 0 && calls == 0
    {
      this.stream := stream;
      this.offers := offers;
      taken := 0;
      calls := 0;
    }

    /** One read of at most `space` octets. */
    method Take(space: nat) returns (chunk: seq<byte>)
      requires Valid()
      modifies this
      ensures Valid() && taken == old(taken) + |chunk| && calls == old(calls) + 1
      ensures |chunk| == ReadSize(offers(old(calls)), space, |stream| - old(taken))
      ensures chunk == stream[old(taken)..taken]
    {
      var n := ReadSize(offers(calls), space, |stream| - taken);
      chunk := stream[taken..taken + n];
      taken := taken + n;
      calls := calls + 1;
    }

    /** One read into buf, from index `from` on. */
    method Read(buf: array<byte>, from: nat) returns (n: nat)
      requires Valid() && from <= buf.Length
      modifies this, buf
      ensures Valid() && taken == old(taken) + n && calls == old(calls) + 1
      ensures n == ReadSize(offers(old(calls)), buf.Length - from, |stream| - old(taken))
      ensures buf[from..from + n] == stream[old(taken)..taken]
      ensures buf[..from] == old(buf[..from]) && buf[from + n..] == old(buf[from + n..])
    {
      var chunk := Take(buf.Length - from);
      n := |chunk|;
      forall i | 0 <= i < n {
        buf[from + i] := chunk[i];
      }
    }
  }

  /** The sending end of a connection. */
  class Output {
    var sent: seq<byte>

    constructor ()
      ensures sent == []
    {
      sent := [];
    }

    method WriteAll(data: seq<byte>)
      modifies this
      ensures sent == old(sent) + data
    {
      sent := sent + data;
    }
  }
}
