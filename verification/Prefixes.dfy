/** Address prefixes: containment, longest-prefix match, and the daemon's sort by prefix length. */
module Prefixes {
  import opened Addresses
  import opened Bytes
  import opened Powers

  /** The addresses under a prefix are those that agree with it in its leading bits. */
  predicate SameLeading(a: nat, b: nat, width: nat, length: int) {
    if length <= 0 then true
    else if length >= width then a == b
    else a / Pow2(width - length) == b / Pow2(width - length)
  }

  /** `IPAddress::contains`. */
  predicate Contains(p: IpAddress, d: HostAddress) {
    match (p.address, d)
    case (Ipv4(a), Ipv4(b)) => SameLeading(a, b, 32, p.prefixLength)
    case (Ipv6(a), Ipv6(b)) => SameLeading(a, b, 128, p.prefixLength)
    case _ => false
  }

  /** The length of the longest listed prefix that contains the address, if any does. */
  function Longest(ranges: seq<IpAddress>, d: HostAddress): Option<int> {
    if ranges == [] then None
    else
      var rest := Longest(ranges[1..], d);
      if !Contains(ranges[0], d) then rest
      else if rest.None? || rest.value <= ranges[0].prefixLength then Some(ranges[0].prefixLength)
      else rest
  }

  /** The length of the first listed prefix that contains the address, if any does. */
  function FirstMatch(ranges: seq<IpAddress>, d: HostAddress): Option<int> {
    if ranges == [] then None
    else if Contains(ranges[0], d) then Some(ranges[0].prefixLength)
    else FirstMatch(ranges[1..], d)
  }

  ghost predicate IsLongest(ranges: seq<IpAddress>, d: HostAddress, best: Option<int>) {
    match best
    case None => forall p :: p in ranges ==> !Contains(p, d)
    case Some(n) =>
      && (exists p :: p in ranges && Contains(p, d) && p.prefixLength == n)
      && (forall p :: p in ranges && Contains(p, d) ==> p.prefixLength <= n)
  }

  lemma {:induction false} LongestIsLongest(ranges: seq<IpAddress>, d: HostAddress)
    ensures IsLongest(ranges, d, Longest(ranges, d))
  {
    if ranges == [] {
    } else {
      var rest := ranges[1..];
      LongestIsLongest(rest, d);
      assert forall p :: p in ranges <==> p == ranges[0] || p in rest;
      assert ranges[0] in ranges;
    }
  }

  lemma LongestIsUnique(ranges: seq<IpAddress>, d: HostAddress, a: Option<int>, b: Option<int>)
    requires IsLongest(ranges, d, a) && IsLongest(ranges, d, b)
    ensures a == b
  {
    if a.Some? && b.Some? {
      var p :| p in ranges && Contains(p, d) && p.prefixLength == a.value;
      var q :| q in ranges && Contains(q, d) && q.prefixLength == b.value;
    }
  }

  /** Longer prefixes come first. */
  ghost predicate Sorted(ranges: seq<IpAddress>) {
    forall i, j :: 0 <= i < j < |ranges| ==> ranges[i].prefixLength >= ranges[j].prefixLength
  }

  lemma {:induction false} FirstMatchIsLongestWhenSorted(ranges: seq<IpAddress>, d: HostAddress)
    requires Sorted(ranges)
    ensures IsLongest(ranges, d, FirstMatch(ranges, d))
  {
    if ranges == [] {
    } else {
      var rest := ranges[1..];
      FirstMatchIsLongestWhenSorted(rest, d);
      assert forall p :: p in ranges <==> p == ranges[0] || p in rest;
      assert ranges[0] in ranges;
      if Contains(ranges[0], d) {
        forall p | p in ranges
          ensures p.prefixLength <= ranges[0].prefixLength
        {
          var i :| 0 <= i < |ranges| && ranges[i] == p;
        }
      }
    }
  }

  /** On any sorted rearrangement of a list, taking the first match is longest-prefix match on the
      list as it was. */
  lemma FirstMatchIsLongestPrefixMatch(ranges: seq<IpAddress>, sorted: seq<IpAddress>, d: HostAddress)
    requires Sorted(sorted) && multiset(sorted) == multiset(ranges)
    ensures FirstMatch(sorted, d) == Longest(ranges, d) == Longest(sorted, d)
  {
    SameElements(sorted, ranges);
    FirstMatchIsLongestWhenSorted(sorted, d);
    LongestIsLongest(ranges, d);
    LongestIsLongest(sorted, d);
    LongestIsUnique(ranges, d, FirstMatch(sorted, d), Longest(ranges, d));
    LongestIsUnique(ranges, d, Longest(sorted, d), Longest(ranges, d));
  }

  lemma SameElements(a: seq<IpAddress>, b: seq<IpAddress>)
    requires multiset(a) == multiset(b)
    ensures forall p :: p in a <==> p in b
  {
    forall p: IpAddress
      ensures p in a <==> p in b
    {
      assert p in a <==> p in multiset(a);
      assert p in b <==> p in multiset(b);
    }
  }

  /** The sort by decreasing prefix length. */
  method SortByPrefixLength(ranges: seq<IpAddress>) returns (sorted: seq<IpAddress>)
    ensures Sorted(sorted) && multiset(sorted) == multiset(ranges)
  {
    sorted := [];
    for i := 0 to |ranges|
      invariant Sorted(sorted) && multiset(sorted) == multiset(ranges[..i])
    {
      assert ranges[..i + 1] == ranges[..i] + [ranges[i]];
      sorted := Insert(sorted, ranges[i]);
    }
    assert ranges[..|ranges|] == ranges;
  }

  method Insert(sorted: seq<IpAddress>, p: IpAddress) returns (r: seq<IpAddress>)
    requires Sorted(sorted)
    ensures Sorted(r) && multiset(r) == multiset(sorted) + multiset{p}
  {
    var i := 0;
    while i < |sorted| && sorted[i].prefixLength >= p.prefixLength
      invariant 0 <= i <= |sorted|
      invariant forall j :: 0 <= j < i ==> sorted[j].prefixLength >= p.prefixLength
    {
      i := i + 1;
    }
    r := sorted[..i] + [p] + sorted[i..];
    InsertIsSorted(sorted, p, i);
    assert multiset(sorted[..i] + sorted[i..]) == multiset(sorted[..i]) + multiset(sorted[i..]);
    assert sorted == sorted[..i] + sorted[i..];
  }

  lemma InsertIsSorted(sorted: seq<IpAddress>, p: IpAddress, i: nat)
    requires Sorted(sorted) && i <= |sorted|
    requires forall j :: 0 <= j < i ==> sorted[j].prefixLength >= p.prefixLength
    requires i < |sorted| ==> sorted[i].prefixLength < p.prefixLength
    ensures Sorted(sorted[..i] + [p] + sorted[i..])
  {
    var r := sorted[..i] + [p] + sorted[i..];
    assert forall j :: 0 <= j < i ==> r[j] == sorted[j];
    assert forall j :: i < j < |r| ==> r[j] == sorted[j - 1];
  }

  /** An address that every shorter prefix has in common with `a`, and the prefix of this length has not. */
  lemma SiblingAddress(a: Word32, length: int) returns (b: Word32)
    requires 1 <= length <= 32
    ensures !SameLeading(a, b, 32, length)
    ensures forall shorter :: shorter < length ==> SameLeading(a, b, 32, shorter)
  {
    var n := Sibling(a, 32 - length);
    SharedLeading(a, n, length);
    b := n;
  }

  lemma SharedLeading(a: Word32, n: nat, length: int)
    requires 1 <= length <= 32 && a / Pow2(33 - length) == n / Pow2(33 - length)
    ensures n <= 0xffff_ffff
    ensures forall shorter :: shorter < length ==> SameLeading(a, n, 32, shorter)
  {
    Pow2Of32();
    LargerQuotients(a, n, 33 - length, 32);
    forall shorter | 0 < shorter < length
      ensures SameLeading(a, n, 32, shorter)
    {
      LargerQuotients(a, n, 33 - length, 32 - shorter);
    }
  }
}
