/** Packing socket addresses into a BSD routing message and finding them again. */
module RouteMessage {
  import opened Bytes

  /** The size of the address union and of the message's address space. */
  const UNION_SIZE := 128
  const SPACE_SIZE := 512

  /** A length rounded up to whole 32-bit words; an empty address takes one word. */
  function RoundUp(n: nat): nat {
    if n > 0 then 1 + ((n - 1) / 4 * 4 + 3) else 4
  }

  /** It is the least number of whole words, and at least one, that holds the length. */
  lemma RoundUpIsLeast(n: nat)
    ensures RoundUp(n) % 4 == 0 && RoundUp(n) >= 4 && RoundUp(n) >= n
    ensures forall m: nat :: m % 4 == 0 && m >= 4 && m >= n ==> RoundUp(n) <= m
  {
  }

  /** Address unions: the first byte is the length, the second the family. */
  predicate Union(u: seq<Byte>) {
    |u| == UNION_SIZE
  }

  /** The six addresses in the order of their bits: destination, gateway, netmask, cloning mask,
      interface name, interface address. None is longer than its union. */
  predicate SixAddresses(so: seq<seq<Byte>>) {
    |so| == 6 && forall i :: 0 <= i < 6 ==> Union(so[i]) && so[i][0] <= UNION_SIZE
  }

  /** The number of bytes an address takes in a message. */
  function Room(u: seq<Byte>): (n: nat)
    requires Union(u) && u[0] <= UNION_SIZE
    ensures 4 <= n <= UNION_SIZE && u[0] <= n
  {
    RoundUp(u[0])
  }

  /** Where the address with bit `i` goes: after all flagged addresses with lower bits. */
  function Offset(flags: set<nat>, so: seq<seq<Byte>>, i: nat): nat
    requires SixAddresses(so)
  {
    if i == 0 then 0
    else Offset(flags, so, i - 1) + if i - 1 < 6 && i - 1 in flags then Room(so[i - 1]) else 0
  }

  lemma {:induction false} OffsetGrows(flags: set<nat>, so: seq<seq<Byte>>, i: nat, j: nat)
    requires SixAddresses(so) && i <= j
    ensures Offset(flags, so, i) <= Offset(flags, so, j)
    ensures i < j && i < 6 && i in flags ==> Offset(flags, so, i) + Room(so[i]) <= Offset(flags, so, j)
    decreases j
  {
    if i == j {
    } else {
      OffsetGrows(flags, so, i, j - 1);
    }
  }

  /** The address, rounded up, lies in the buffer at the offset. */
  ghost predicate HoldsAt(buffer: seq<Byte>, at: nat, u: seq<Byte>)
    requires Union(u) && u[0] <= UNION_SIZE
  {
    at + Room(u) <= |buffer| && buffer[at..at + Room(u)] == u[..Room(u)]
  }

  /** The flagged addresses with bits below `upTo` lie in the buffer one after the other. */
  ghost predicate Packed(buffer: seq<Byte>, flags: set<nat>, so: seq<seq<Byte>>, upTo: nat)
    requires SixAddresses(so)
  {
    forall i: nat :: i < upTo && i < 6 && i in flags ==> HoldsAt(buffer, Offset(flags, so, i), so[i])
  }

  lemma HoldsInPrefix(before: seq<Byte>, after: seq<Byte>, cp: nat, at: nat, u: seq<Byte>)
    requires Union(u) && u[0] <= UNION_SIZE && HoldsAt(before, at, u)
    requires cp <= |before| && cp <= |after| && before[..cp] == after[..cp] && at + Room(u) <= cp
    ensures HoldsAt(after, at, u)
  {
    assert before[at..at + Room(u)] == before[..cp][at..at + Room(u)];
    assert after[at..at + Room(u)] == after[..cp][at..at + Room(u)];
  }

  lemma PackedOneMore(before: seq<Byte>, after: seq<Byte>, flags: set<nat>, so: seq<seq<Byte>>, i: nat)
    requires SixAddresses(so) && i < 6 && i in flags && Packed(before, flags, so, i)
    requires var cp, l := Offset(flags, so, i), Room(so[i]);
             cp + l <= |before| && after == before[..cp] + so[i][..l] + before[cp + l..]
    ensures Packed(after, flags, so, i + 1)
    ensures Zeros(before, Offset(flags, so, i)) ==> Zeros(after, Offset(flags, so, i + 1))
  {
    var cp, l := Offset(flags, so, i), Room(so[i]);
    assert after[cp..cp + l] == so[i][..l];
    forall j: nat | j < i && j in flags
      ensures HoldsAt(after, Offset(flags, so, j), so[j])
    {
      OffsetGrows(flags, so, j, i);
      assert before[..cp] == after[..cp];
      HoldsInPrefix(before, after, cp, Offset(flags, so, j), so[j]);
    }
  }

  method CopyIn(u: seq<Byte>, space: array<Byte>, cp: nat, l: nat)
    requires l <= |u| && cp + l <= space.Length
    modifies space
    ensures space[..] == old(space[..cp]) + u[..l] + old(space[cp + l..])
  {
    for k := 0 to l
      invariant space[..] == old(space[..cp]) + u[..k] + old(space[cp + k..])
    {
      space[cp + k] := u[k];
    }
  }

  /** `bzero` of the message. */
  method Clear(space: array<Byte>)
    modifies space
    ensures Zeros(space[..], 0)
  {
    for k := 0 to space.Length
      invariant forall j :: 0 <= j < k ==> space[j] == 0
    {
      space[k] := 0;
    }
  }

  /** Nothing but zeros from the offset on. */
  ghost predicate Zeros(buffer: seq<Byte>, from: nat) {
    forall j :: from <= j < |buffer| ==> buffer[j] == 0
  }

  /** The writer of `rtmsg`: each flagged address is copied at the cursor. Returns `rtm_msglen`. */
  method Pack(flags: set<nat>, so: seq<seq<Byte>>, space: array<Byte>, header: nat) returns (msgLen: nat)
    requires space.Length == SPACE_SIZE && SixAddresses(so) && Offset(flags, so, 6) <= SPACE_SIZE
    modifies space
    ensures Packed(space[..], flags, so, 6)
    ensures msgLen == header + Offset(flags, so, 6)
    ensures Zeros(space[..], Offset(flags, so, 6))
  {
    Clear(space);
    var cp := 0;
    for i := 0 to 6
      invariant cp == Offset(flags, so, i)
      invariant Packed(space[..], flags, so, i)
      invariant Zeros(space[..], cp)
    {
      if i in flags {
        OffsetGrows(flags, so, i, 6);
        var l := RoundUp(so[i][0]);
        ghost var before := space[..];
        CopyIn(so[i], space, cp, l);
        PackedOneMore(before, space[..], flags, so, i);
        cp := cp + l;
      }
    }
    msgLen := header + cp;
  }

  /** A reader at the offset sees the address: its length, and as many of its bytes. */
  ghost predicate ReadsBack(buffer: seq<Byte>, at: nat, u: seq<Byte>)
    requires Union(u) && u[0] <= UNION_SIZE
  {
    at + u[0] <= |buffer| && buffer[at..at + u[0]] == u[..u[0]]
  }

  lemma AddressIsReadable(buffer: seq<Byte>, at: nat, u: seq<Byte>)
    requires Union(u) && u[0] <= UNION_SIZE && HoldsAt(buffer, at, u)
    ensures at < |buffer| && buffer[at] == u[0]
    ensures ReadsBack(buffer, at, u)
  {
    var n, l := Room(u), u[0];
    assert buffer[at] == buffer[at..at + n][0];
    assert buffer[at..at + l] == buffer[at..at + n][..l];
    assert u[..l] == u[..n][..l];
  }

  /** One step of the reader: the address of a flagged bit is at the cursor. */
  lemma ReaderIsInStep(flags: set<nat>, buffer: seq<Byte>, so: seq<seq<Byte>>, i: nat)
    requires SixAddresses(so) && Packed(buffer, flags, so, 6) && i in flags && i < 6
    ensures var cp := Offset(flags, so, i);
            && cp < |buffer| && cp + RoundUp(buffer[cp]) == Offset(flags, so, i + 1)
            && ReadsBack(buffer, cp, so[i])
  {
    AddressIsReadable(buffer, Offset(flags, so, i), so[i]);
  }

  /** Every address found is where the writer put it, and reads back. */
  ghost predicate AllReadBack(found: map<nat, nat>, flags: set<nat>, buffer: seq<Byte>, so: seq<seq<Byte>>)
    requires SixAddresses(so)
  {
    forall i :: i in found ==> i < 6 && found[i] == Offset(flags, so, i) && ReadsBack(buffer, found[i], so[i])
  }

  /** The reader of `pmsg_addrs` and `print_getmsg`: it walks the 32 bits and advances by the length
      it finds. Returns where it found the address of each flag, and where it stopped. */
  method Unpack(flags: set<nat>, buffer: seq<Byte>, ghost so: seq<seq<Byte>>)
      returns (found: map<nat, nat>, cp: nat)
    requires SixAddresses(so) && Packed(buffer, flags, so, 6) && forall i :: i in flags ==> i < 6
    ensures cp == Offset(flags, so, 6)
    ensures found.Keys == flags && AllReadBack(found, flags, buffer, so)
  {
    found, cp := map[], 0;
    for i := 0 to 32
      invariant cp == Offset(flags, so, i)
      invariant forall j: nat :: j in found <==> j in flags && j < i
      invariant AllReadBack(found, flags, buffer, so)
    {
      if i in flags {
        ReaderIsInStep(flags, buffer, so, i);
        found := found[i := cp];
        cp := cp + RoundUp(buffer[cp]);
      }
    }
    OffsetSettles(flags, so, 32);
    assert forall j :: j in found.Keys <==> j in flags;
  }

  lemma {:induction false} OffsetSettles(flags: set<nat>, so: seq<seq<Byte>>, i: nat)
    requires SixAddresses(so) && i >= 6
    ensures Offset(flags, so, i) == Offset(flags, so, 6)
  {
    if i == 6 {
    } else {
      OffsetSettles(flags, so, i - 1);
    }
  }

  /** Packing and unpacking: each flagged address is found where it was put, with the length and
      the bytes it was put with. */
  method RoundTrip(flags: set<nat>, so: seq<seq<Byte>>) returns (found: map<nat, nat>, space: array<Byte>)
    requires SixAddresses(so) && Offset(flags, so, 6) <= SPACE_SIZE && forall i :: i in flags ==> i < 6
    ensures found.Keys == flags && fresh(space)
    ensures AllReadBack(found, flags, space[..], so)
  {
    space := new Byte[SPACE_SIZE];
    var _ := Pack(flags, so, space, 0);
    var end;
    found, end := Unpack(flags, space[..], so);
  }

  /** A byte of a mask as a reader sees it: zero from the mask's length on. */
  function Extended(mask: seq<Byte>, j: nat): Byte
    requires j < |mask|
  {
    if j < mask[0] then mask[j] else 0
  }

  /** The trimming loop of `mask_addr`. Zero-extended, the trimmed mask is the mask it was, apart
      from its length byte, and no shorter length would do. */
  method TrimMask(mask: array<Byte>)
    requires mask.Length == UNION_SIZE && mask[0] <= UNION_SIZE
    modifies mask
    ensures mask[1..] == old(mask[1..])
    ensures mask[0] <= old(mask[0])
    ensures forall j :: 1 <= j < old(mask[0]) ==> Extended(mask[..], j) == old(mask[j])
    ensures mask[0] > 0 ==> mask[0] >= 2 && mask[mask[0] - 1] != 0
  {
    var cp: nat := mask[0];
    mask[0] := 0;
    while cp > 0
      invariant cp <= old(mask[0])
      invariant mask[0] == 0 && mask[1..] == old(mask[1..])
      invariant forall j :: 1 <= j < UNION_SIZE ==> mask[j] == old(mask[j])
      invariant forall j :: 1 <= j < old(mask[0]) && cp <= j ==> mask[j] == 0
    {
      cp := cp - 1;
      if mask[cp] != 0 {
        mask[0] := cp + 1;
        break;
      }
    }
  }

  /** Bitwise conjunction of bytes. */
  function And(a: Byte, b: Byte): Byte {
    ((a as bv8) & (b as bv8)) as int
  }

  /** The rest of `mask_addr` for a destination that is not an Internet address: what lies beyond
      the trimmed mask is cleared, what lies under it is masked. The destination's family survives
      if and only if the mask has a byte that is not zero, or the destination is empty. */
  method MaskDestination(mask: seq<Byte>, dst: array<Byte>)
    requires Union(mask) && dst.Length == UNION_SIZE
    requires mask[0] != 1 && mask[0] < UNION_SIZE && dst[0] < UNION_SIZE
    modifies dst
    ensures dst[0] == old(dst[0])
    ensures dst[1] == old(dst[1]) <==> mask[0] > 0 || old(dst[0]) == 0 || old(dst[1]) == 0
    ensures forall k :: 2 <= k < UNION_SIZE ==>
              dst[k] == if k <= mask[0] then And(old(dst[k]), mask[k])
                        else if k <= old(dst[0]) then 0 else old(dst[k])
  {
    var cp1: nat, cp2: nat := mask[0] + 1, dst[0] + 1;
    while cp2 > cp1
      invariant cp2 <= old(dst[0]) + 1
      invariant cp2 >= cp1 || cp2 == old(dst[0]) + 1
      invariant forall k :: cp2 <= k <= old(dst[0]) ==> dst[k] == 0
      invariant forall k :: 0 <= k < UNION_SIZE && !(cp2 <= k <= old(dst[0])) ==> dst[k] == old(dst[k])
    {
      cp2 := cp2 - 1;
      dst[cp2] := 0;
    }
    ghost var cleared := dst[..];
    cp2 := mask[0] + 1;
    while cp1 > 2
      invariant cp1 == cp2 <= mask[0] + 1
      invariant cp1 >= 2 || cp1 == mask[0] + 1
      invariant forall k :: 0 <= k < UNION_SIZE ==>
                  dst[k] == if cp1 <= k <= mask[0] then And(cleared[k], mask[k]) else cleared[k]
    {
      cp1, cp2 := cp1 - 1, cp2 - 1;
      dst[cp1] := And(dst[cp1], mask[cp2]);
    }
  }
}
