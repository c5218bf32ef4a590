/** The ring of sent pings and its statistics. */
module PingRing {
  import opened Bytes
  import opened PingStatistics

  /** The slots of the ring and the values of its 16-bit sequence number. */
  const WINDOW := 32
  const CYCLE := 65536

  /** The latest of the pings 0..count-1 that fell into the slot. */
  function Latest(count: nat, slot: nat): nat
    requires slot < WINDOW && slot < count
  {
    slot + WINDOW * ((count - 1 - slot) / WINDOW)
  }

  /** The sequence number a slot shows after `count` pings. */
  function SlotSequence(count: nat, slot: nat): Word
    requires slot < WINDOW
  {
    if count <= slot then 0 else Latest(count, slot) % CYCLE
  }

  /** The sequence number is that of one of the last 32 pings. */
  ghost predicate Recent(count: nat, sequence: Word) {
    exists n: nat :: IsRecent(count, n) && n % CYCLE == sequence
  }

  predicate IsRecent(count: nat, n: nat) {
    n < count && count <= n + WINDOW
  }

  lemma LatestIsRecent(count: nat, slot: nat)
    requires slot < WINDOW && slot < count
    ensures IsRecent(count, Latest(count, slot)) && Latest(count, slot) % WINDOW == slot
  {
    var q, r := (count - 1 - slot) / WINDOW, (count - 1 - slot) % WINDOW;
    assert count - 1 - slot == WINDOW * q + r;
    assert (slot + WINDOW * q) % WINDOW == slot;
  }

  /** Only one of the last 32 pings fell into the slot. */
  lemma RecentIsLatest(count: nat, n: nat)
    requires IsRecent(count, n)
    ensures n % WINDOW < count && n == Latest(count, n % WINDOW)
  {
    LatestIsRecent(count, n % WINDOW);
    var m := Latest(count, n % WINDOW);
    assert m % WINDOW == n % WINDOW && -WINDOW < m - n < WINDOW;
  }

  lemma RemainderIsUnique(n: nat, q: nat, r: nat)
    requires n == WINDOW * q + r && r < WINDOW
    ensures n % WINDOW == r
  {
  }

  lemma SequenceKeepsSlot(n: nat)
    ensures n % CYCLE % WINDOW == n % WINDOW
  {
    var q, m := n / CYCLE, n % CYCLE;
    assert n == WINDOW * (2048 * q + m / WINDOW) + m % WINDOW;
    RemainderIsUnique(n, 2048 * q + m / WINDOW, m % WINDOW);
  }

  /** A slot shows a reply's sequence number exactly if it is that of a recent ping; before the
      first ping, exactly if it is 0. */
  lemma SlotMatchesExactlyRecent(count: nat, sequence: Word)
    ensures SlotSequence(count, sequence % WINDOW) == sequence
       <==> if count == 0 then sequence == 0 else Recent(count, sequence)
    ensures forall n: nat :: IsRecent(count, n) && n % CYCLE == sequence ==>
              sequence % WINDOW < count && n == Latest(count, sequence % WINDOW)
  {
    var slot := sequence % WINDOW;
    forall n: nat | IsRecent(count, n) && n % CYCLE == sequence
      ensures slot < count && n == Latest(count, slot)
    {
      SequenceKeepsSlot(n);
      RecentIsLatest(count, n);
    }
    if count > slot {
      LatestIsRecent(count, slot);
    }
  }

  /** One more ping overwrites its own slot only. */
  lemma OneMorePing(count: nat, slot: nat)
    requires slot < WINDOW
    ensures slot == count % WINDOW ==> Latest(count + 1, slot) == count
    ensures slot != count % WINDOW && slot < count ==> Latest(count + 1, slot) == Latest(count, slot)
    ensures slot != count % WINDOW && slot >= count ==> slot > count
  {
    if slot == count % WINDOW {
      RecentIsLatest(count + 1, count);
    } else if slot < count {
      LatestIsRecent(count, slot);
      var m := Latest(count, slot);
      assert (m + WINDOW) % WINDOW == m % WINDOW;
      RecentIsLatest(count + 1, m);
    }
  }

  /** `PingHelper`. The clock is a parameter. */
  class PingHelper {
    var sequence: Word
    var pingData: array<PingSendData>
    /** The timestamps of the pings since the last start. */
    ghost var sent: seq<int>

    ghost predicate Valid() reads this, pingData {
      && pingData.Length == WINDOW
      && sequence == |sent| % CYCLE
      && UpToDate(pingData[..], sent)
    }

    constructor ()
      ensures Valid() && sent == [] && fresh(pingData)
    {
      sequence := 0;
      pingData := new PingSendData[WINDOW](_ => UNUSED);
      sent := [];
    }

    method Start()
      requires Valid()
      modifies this, pingData
      ensures Valid() && sent == [] && sequence == 0 && pingData == old(pingData)
      ensures forall i :: 0 <= i < WINDOW ==> pingData[i] == UNUSED
    {
      sequence := 0;
      sent := [];
      for i := 0 to WINDOW
        invariant pingData == old(pingData) && pingData.Length == WINDOW && sequence == 0 && sent == []
        invariant forall j :: 0 <= j < i ==> pingData[j] == UNUSED
      {
        pingData[i] := PingSendData(-1, -1, 0);
      }
    }

    method NextPing(now: int)
      requires Valid()
      modifies this, pingData
      ensures Valid() && pingData == old(pingData)
      ensures sent == old(sent) + [now]
      ensures pingData[..] == old(pingData[..])[old(|sent|) % WINDOW := PingSendData(now, -1, old(|sent|) % CYCLE)]
    {
      var index := sequence % WINDOW;
      SequenceKeepsSlot(|sent|);
      RingAfterPing(pingData[..], sent, now);
      pingData[index] := PingSendData(now, -1, sequence);
      sent := sent + [now];
      sequence := (sequence + 1) % CYCLE;
    }

    /** Returns whether the reply was taken, in which case its latency is signalled. */
    method PingReceived(reply: Word, now: int) returns (taken: bool)
      requires Valid()
      modifies pingData
      ensures Valid()
      ensures taken <==> if sent == [] then reply == 0 else Recent(|sent|, reply)
      ensures !taken ==> pingData[..] == old(pingData[..])
      ensures taken ==>
                pingData[..] == old(pingData[..])[reply % WINDOW :=
                  old(pingData[reply % WINDOW]).(latency := now - old(pingData[reply % WINDOW]).timestamp)]
      ensures forall n: nat :: IsRecent(|sent|, n) && n % CYCLE == reply ==>
                taken && pingData[reply % WINDOW].latency == now - sent[n]
    {
      var index := reply % WINDOW;
      SlotMatchesExactlyRecent(|sent|, reply);
      assert SlotIsUpToDate(pingData[index], sent, index);
      taken := pingData[index].sequence == reply;
      if taken {
        var sendTime := pingData[index].timestamp;
        pingData[index] := pingData[index].(latency := now - sendTime);
      }
    }
  }

  /** A used slot holds the latest ping that fell into it; an unused one is as initialised. */
  ghost predicate SlotIsUpToDate(data: PingSendData, sent: seq<int>, slot: nat)
    requires slot < WINDOW
  {
    && data.sequence == SlotSequence(|sent|, slot)
    && data.timestamp == (if |sent| <= slot then -1 else LatestIsSent(|sent|, slot); sent[Latest(|sent|, slot)])
  }

  ghost predicate UpToDate(ring: seq<PingSendData>, sent: seq<int>) {
    |ring| == WINDOW && forall i :: 0 <= i < WINDOW ==> SlotIsUpToDate(ring[i], sent, i)
  }

  lemma RingAfterPing(ring: seq<PingSendData>, sent: seq<int>, now: int)
    requires UpToDate(ring, sent)
    ensures UpToDate(ring[|sent| % WINDOW := PingSendData(now, -1, |sent| % CYCLE)], sent + [now])
  {
    var next := ring[|sent| % WINDOW := PingSendData(now, -1, |sent| % CYCLE)];
    forall i | 0 <= i < WINDOW
      ensures SlotIsUpToDate(next[i], sent + [now], i)
    {
      SlotAfterPing(ring[i], sent, now, i);
    }
  }

  lemma SlotAfterPing(data: PingSendData, sent: seq<int>, now: int, slot: nat)
    requires slot < WINDOW && SlotIsUpToDate(data, sent, slot)
    ensures SlotIsUpToDate(if slot == |sent| % WINDOW then PingSendData(now, -1, |sent| % CYCLE) else data,
                           sent + [now], slot)
  {
    OneMorePing(|sent|, slot);
  }

  lemma LatestIsSent(count: nat, slot: nat)
    requires slot < WINDOW && slot < count
    ensures Latest(count, slot) < count
  {
    LatestIsRecent(count, slot);
  }
}
