/** Taking prefixes out of prefixes, as `IPAddress::excludeAddresses` does for either family. */
module PrefixSubtraction {
  import opened Addresses
  import opened Powers
  import opened Prefixes

  /** A prefix of addresses of `width` bits: 32 or 128. Bits below the prefix may be set. */
  datatype Prefix = Prefix(bits: nat, length: nat)

  predicate InWidth(p: Prefix, width: nat) {
    p.length <= width && p.bits < Pow2(width)
  }

  /** The number of addresses under the prefix. */
  function Size(p: Prefix, width: nat): (n: nat)
    ensures n >= 1
  {
    if p.length <= width then Pow2(width - p.length) else 1
  }

  /** The host bits: those below the prefix. */
  function Offset(p: Prefix, width: nat): nat {
    p.bits % Size(p, width)
  }

  /** The first address under the prefix. */
  function Base(p: Prefix, width: nat): (b: nat)
    ensures b + Offset(p, width) == p.bits
  {
    DivisionIs(p.bits, Size(p, width));
    Size(p, width) * (p.bits / Size(p, width))
  }

  /** The addresses under a prefix are an interval. */
  predicate Spans(p: Prefix, width: nat, d: nat) {
    Base(p, width) <= d < Base(p, width) + Size(p, width)
  }

  lemma SpansItself(p: Prefix, width: nat)
    ensures Spans(p, width, p.bits)
  {
  }

  lemma QuotientSpans(p: Prefix, width: nat, d: nat)
    ensures Spans(p, width, d) <==> p.bits / Size(p, width) == d / Size(p, width)
  {
    var size := Size(p, width);
    QuotientInterval(size, p.bits / size, d / size, d % size);
  }

  /** `IPAddress::contains` is membership in the interval. */
  lemma ContainsIsSpans(p: Prefix, width: nat, d: nat)
    requires InWidth(p, width) && d < Pow2(width)
    ensures SameLeading(p.bits, d, width, p.length) <==> Spans(p, width, d)
  {
    QuotientSpans(p, width, d);
    if p.length == 0 {
      QuotientIs(p.bits, Pow2(width), 0);
      QuotientIs(d, Pow2(width), 0);
    }
  }

  /** `IPAddress::subnets` below the longest length: the next bit as it is, and set. */
  function LowerHalf(p: Prefix): Prefix {
    Prefix(p.bits, p.length + 1)
  }

  function UpperHalf(p: Prefix, width: nat): Prefix
    requires p.length < width
  {
    Prefix(if Clear(p, width) then p.bits + Half(p, width) else p.bits, p.length + 1)
  }

  function Half(p: Prefix, width: nat): nat
    requires p.length < width
  {
    Pow2(width - p.length - 1)
  }

  /** The next bit is not set. */
  predicate Clear(p: Prefix, width: nat)
    requires p.length < width
  {
    Offset(p, width) < Half(p, width)
  }

  lemma HalfFloor(n: nat, half: nat)
    requires half >= 1
    ensures var b := if n % (2 * half) < half then 0 else half;
            half * (n / half) == 2 * half * (n / (2 * half)) + b && n % half == n % (2 * half) - b
  {
    var q := n / half;
    var h, b := q / 2, q % 2;
    HalfQuotient(n, half);
    assert half * q == 2 * half * h + half * b by {
      assert q == 2 * h + b;
      assert half * (2 * h + b) == half * (2 * h) + half * b;
    }
    assert half * b == if b == 0 then 0 else half;
  }

  /** The lower and the upper half split the interval if the next bit is clear; otherwise both
      are the upper half. They keep the host bits below. */
  lemma HalvesSplit(p: Prefix, width: nat)
    requires p.length < width
    ensures var lo, hi, half := LowerHalf(p), UpperHalf(p, width), Half(p, width);
            && Size(p, width) == 2 * half && Size(lo, width) == Size(hi, width) == half
            && Base(hi, width) == Base(p, width) + half
            && Base(lo, width) == Base(p, width) + (if Clear(p, width) then 0 else half)
            && (Clear(p, width) ==> Offset(lo, width) == Offset(hi, width) == Offset(p, width))
            && (!Clear(p, width) ==> lo == hi)
  {
    var half := Half(p, width);
    HalfFloor(p.bits, half);
    if Clear(p, width) {
      NextQuotient(p.bits, half);
      assert half * (p.bits / half + 1) == half * (p.bits / half) + half;
    }
  }

  lemma HalvesFit(p: Prefix, width: nat)
    requires InWidth(p, width) && p.length < width
    ensures InWidth(LowerHalf(p), width) && InWidth(UpperHalf(p, width), width)
  {
    BaseFits(p, width);
    HalvesSplit(p, width);
  }

  lemma MultipleHasNoRest(size: nat, k: nat)
    requires size >= 1
    ensures (size * k) % size == 0
  {
    var n := size * k;
    QuotientInterval(size, k, n / size, n % size);
  }

  lemma MultiplesGap(size: nat, a: nat, b: nat)
    requires size >= 1 && a % size == 0 && b % size == 0 && a < b
    ensures a + size <= b
  {
    var i, j := a / size, b / size;
    assert a == size * i && b == size * j;
    assert j <= i ==> size * j <= size * i;
    ProductGap(size, i, j);
  }

  lemma BaseFits(p: Prefix, width: nat)
    requires InWidth(p, width)
    ensures Base(p, width) + Size(p, width) <= Pow2(width)
  {
    Pow2Adds(width - p.length, p.length);
    FloorFits(p.bits, Size(p, width), Pow2(p.length));
  }

  lemma FloorFits(n: nat, size: nat, k: nat)
    requires size >= 1 && n < size * k
    ensures size * (n / size) + size <= size * k
  {
    var q := n / size;
    DivisionIs(n, size);
    ProductGrows(size, k, if q < k then k else q);
    ProductGap(size, q, k);
  }

  /** `IPAddress::subnetOf`. */
  predicate SubnetOf(ip: Prefix, other: Prefix, width: nat) {
    ip.length >= other.length && SameLeading(other.bits, ip.bits, width, other.length)
  }

  ghost predicate InSome(ps: seq<Prefix>, width: nat, d: nat) {
    exists i :: 0 <= i < |ps| && Spans(ps[i], width, d)
  }

  ghost predicate Disjoint(p: Prefix, q: Prefix, width: nat) {
    Base(p, width) + Size(p, width) <= Base(q, width) || Base(q, width) + Size(q, width) <= Base(p, width)
  }

  ghost predicate AllInWidth(ps: seq<Prefix>, width: nat) {
    forall i :: 0 <= i < |ps| ==> InWidth(ps[i], width)
  }

  /** Prefixes within the width, no two of which share an address. */
  ghost predicate Parts(ps: seq<Prefix>, width: nat) {
    && AllInWidth(ps, width)
    && (forall i, j :: 0 <= i < j < |ps| ==> Disjoint(ps[i], ps[j], width))
  }

  /** The parts and the remaining prefix make up the whole, without overlap. */
  ghost predicate MakesUp(ps: seq<Prefix>, left: Prefix, whole: Prefix, width: nat) {
    && Parts(ps + [left], width)
    && (forall d: nat :: Spans(whole, width, d) <==> Spans(left, width, d) || InSome(ps, width, d))
  }

  /** The prefixes have the same host bits. */
  ghost predicate AllOffset(ps: seq<Prefix>, width: nat, offset: nat) {
    forall i :: 0 <= i < |ps| ==> Offset(ps[i], width) == offset
  }

  /** Splitting what is left and setting one half aside. */
  lemma SetAside(ps: seq<Prefix>, left: Prefix, whole: Prefix, keep: Prefix, aside: Prefix, width: nat)
    requires MakesUp(ps, left, whole, width) && left.length < width && Clear(left, width)
    requires (keep, aside) == (LowerHalf(left), UpperHalf(left, width))
          || (aside, keep) == (LowerHalf(left), UpperHalf(left, width))
    ensures MakesUp(ps + [aside], keep, whole, width)
  {
    var all := ps + [left];
    assert all[|ps|] == left;
    HalvesSplit(left, width);
    HalvesFit(left, width);
    var now := ps + [aside] + [keep];
    forall i | 0 <= i < |ps|
      ensures InWidth(ps[i], width)
      ensures Disjoint(ps[i], aside, width) && Disjoint(ps[i], keep, width)
    {
      assert all[i] == ps[i];
      assert Disjoint(all[i], all[|ps|], width);
    }
    forall i, j | 0 <= i < j < |now|
      ensures Disjoint(now[i], now[j], width)
    {
      if j < |ps| {
        assert Disjoint(all[i], all[j], width);
      }
    }
    forall d: nat
      ensures Spans(whole, width, d) <==> Spans(keep, width, d) || InSome(ps + [aside], width, d)
    {
      OneMorePart(ps, aside, width, d);
    }
  }

  lemma OneMorePart(ps: seq<Prefix>, p: Prefix, width: nat, d: nat)
    ensures InSome(ps + [p], width, d) <==> InSome(ps, width, d) || Spans(p, width, d)
  {
    var more := ps + [p];
    assert more[|ps|] == p;
    assert forall i :: 0 <= i < |ps| ==> more[i] == ps[i];
  }

  /** Prefixes of one length with a common address have the same interval. */
  lemma SameLengthSameBase(p: Prefix, q: Prefix, width: nat)
    requires p.length == q.length && Spans(p, width, q.bits)
    ensures Base(p, width) == Base(q, width)
  {
    QuotientSpans(p, width, q.bits);
  }

  /** Of the two halves, the one to go down into. */
  lemma Choose(left: Prefix, ip: Prefix, width: nat)
    requires InWidth(left, width) && InWidth(ip, width) && left.length < width && Spans(left, width, ip.bits)
    ensures SubnetOf(ip, LowerHalf(left), width) <==> left.length < ip.length && Spans(LowerHalf(left), width, ip.bits)
    ensures SubnetOf(ip, UpperHalf(left, width), width) <==> left.length < ip.length && Spans(UpperHalf(left, width), width, ip.bits)
    ensures Clear(left, width) ==> Spans(LowerHalf(left), width, ip.bits) || Spans(UpperHalf(left, width), width, ip.bits)
  {
    HalvesSplit(left, width);
    HalvesFit(left, width);
    ContainsIsSpans(LowerHalf(left), width, ip.bits);
    ContainsIsSpans(UpperHalf(left, width), width, ip.bits);
  }

  /** A half that spans the prefix without being it. */
  lemma Descend(half: Prefix, ip: Prefix, width: nat)
    requires half.length <= ip.length <= width && half != ip && Spans(half, width, ip.bits)
    ensures half.length < width
    ensures half.length == ip.length ==> Offset(half, width) != Offset(ip, width)
  {
    if half.length == ip.length {
      SameLengthSameBase(half, ip, width);
    }
  }

  /** Host bits that also fit a longer prefix leave the next bit clear. */
  lemma SmallOffsetIsClear(left: Prefix, ip: Prefix, width: nat)
    requires left.length < ip.length <= width && Offset(left, width) == Offset(ip, width)
    ensures Clear(left, width)
  {
    Pow2Grows(width - ip.length, width - left.length - 1);
  }

  /** What is set aside and what is left make up the whole and have its host bits. */
  ghost predicate Intact(ps: seq<Prefix>, left: Prefix, whole: Prefix, width: nat) {
    && MakesUp(ps, left, whole, width)
    && Offset(left, width) == Offset(whole, width) && AllOffset(ps, width, Offset(whole, width))
  }

  /** Either nothing went wrong so far, or the host bits differ and what is set aside covers the
      address that was to be taken out. */
  ghost predicate Around(ps: seq<Prefix>, left: Prefix, whole: Prefix, ip: Prefix, width: nat) {
    || Intact(ps, left, whole, width)
    || (Offset(whole, width) != Offset(ip, width) && InSome(ps, width, ip.bits))
  }

  lemma StartsIntact(whole: Prefix, width: nat)
    requires InWidth(whole, width)
    ensures Intact([], whole, whole, width)
  {
    assert [] + [whole] == [whole];
  }

  lemma OneHalfAside(ps: seq<Prefix>, left: Prefix, whole: Prefix, keep: Prefix, aside: Prefix, width: nat)
    requires Intact(ps, left, whole, width) && left.length < width && Clear(left, width)
    requires (keep, aside) == (LowerHalf(left), UpperHalf(left, width))
          || (aside, keep) == (LowerHalf(left), UpperHalf(left, width))
    ensures Intact(ps + [aside], keep, whole, width)
  {
    SetAside(ps, left, whole, keep, aside, width);
    HalvesSplit(left, width);
  }

  /** Going down into the half that spans the prefix. */
  lemma StepsDown(ps: seq<Prefix>, left: Prefix, whole: Prefix, ip: Prefix, keep: Prefix, aside: Prefix, width: nat)
    requires Around(ps, left, whole, ip, width) && left.length < ip.length <= width
    requires (keep, aside) == (LowerHalf(left), UpperHalf(left, width))
          || (aside, keep) == (LowerHalf(left), UpperHalf(left, width))
    requires Spans(keep, width, ip.bits)
    ensures Around(ps + [aside], keep, whole, ip, width)
  {
    OneMorePart(ps, aside, width, ip.bits);
    if Intact(ps, left, whole, width) {
      if Clear(left, width) {
        OneHalfAside(ps, left, whole, keep, aside, width);
      } else {
        HalvesSplit(left, width);
        if Offset(whole, width) == Offset(ip, width) {
          SmallOffsetIsClear(left, ip, width);
        }
      }
    }
  }

  /** The last step: the half that is the prefix is left out, the other is set aside. */
  lemma EndsWith(ps: seq<Prefix>, left: Prefix, whole: Prefix, ip: Prefix, aside: Prefix, width: nat)
    requires Around(ps, left, whole, ip, width) && left.length < width
    requires (ip, aside) == (LowerHalf(left), UpperHalf(left, width))
          || (aside, ip) == (LowerHalf(left), UpperHalf(left, width))
    ensures Around(ps + [aside], ip, whole, ip, width)
    ensures Offset(whole, width) != Offset(ip, width) ==> InSome(ps + [aside], width, ip.bits)
  {
    SpansItself(ip, width);
    StepsDown(ps, left, whole, ip, ip, aside, width);
  }

  /** A result that covers the address does not make up the whole with its prefix. */
  lemma CoveredTwice(ps: seq<Prefix>, ip: Prefix, whole: Prefix, width: nat)
    requires InSome(ps, width, ip.bits)
    ensures !MakesUp(ps, ip, whole, width)
  {
    SpansItself(ip, width);
    var i :| 0 <= i < |ps| && Spans(ps[i], width, ip.bits);
    var all := ps + [ip];
    assert all[i] == ps[i] && all[|ps|] == ip;
    assert !Disjoint(all[i], all[|ps|], width);
  }

  /** `IPAddress::excludeAddresses(ip)`: the rest of a prefix after taking out one inside it; `None`
      stands for the failed assertion. The result and the prefix make up the whole, without overlap,
      if and only if the two have the same host bits; otherwise the assertion fails or the result
      still covers the address that was to be taken out. */
  method ExcludeOne(whole: Prefix, ip: Prefix, width: nat) returns (r: Option<seq<Prefix>>)
    requires InWidth(whole, width) && InWidth(ip, width)
    requires whole.length <= ip.length && whole != ip && Spans(whole, width, ip.bits)
    ensures Offset(whole, width) == Offset(ip, width) <==> r.Some? && MakesUp(r.value, ip, whole, width)
    ensures Offset(whole, width) == Offset(ip, width) ==> AllOffset(r.value, width, Offset(ip, width))
    ensures Offset(whole, width) != Offset(ip, width) && r.Some? ==> InSome(r.value, width, ip.bits)
  {
    Descend(whole, ip, width);
    StartsIntact(whole, width);
    var left, result := whole, [];
    while LowerHalf(left) != ip && UpperHalf(left, width) != ip
      invariant InWidth(left, width) && left.length < width && whole.length <= left.length <= ip.length
      invariant Spans(left, width, ip.bits) && Around(result, left, whole, ip, width)
      invariant left.length == ip.length ==> Offset(whole, width) != Offset(ip, width)
      decreases ip.length - left.length
    {
      Choose(left, ip, width);
      HalvesFit(left, width);
      var lo, hi := LowerHalf(left), UpperHalf(left, width);
      if SubnetOf(ip, lo, width) {
        StepsDown(result, left, whole, ip, lo, hi, width);
        Descend(lo, ip, width);
        result := result + [hi];
        left := lo;
      } else if SubnetOf(ip, hi, width) {
        StepsDown(result, left, whole, ip, hi, lo, width);
        Descend(hi, ip, width);
        result := result + [lo];
        left := hi;
      } else {
        NoHalfSpans(result, left, whole, ip, width);
        return None;
      }
    }
    if LowerHalf(left) == ip {
      EndsWith(result, left, whole, ip, UpperHalf(left, width), width);
      result := result + [UpperHalf(left, width)];
    } else {
      EndsWith(result, left, whole, ip, LowerHalf(left), width);
      result := result + [LowerHalf(left)];
    }
    if Offset(whole, width) != Offset(ip, width) {
      CoveredTwice(result, ip, whole, width);
    }
    return Some(result);
  }

  /** Neither half spans the prefix only if the host bits differ. */
  lemma NoHalfSpans(ps: seq<Prefix>, left: Prefix, whole: Prefix, ip: Prefix, width: nat)
    requires Around(ps, left, whole, ip, width) && left.length <= ip.length <= width && left.length < width
    requires left.length == ip.length || !Clear(left, width)
    requires left.length == ip.length ==> Offset(whole, width) != Offset(ip, width)
    ensures Offset(whole, width) != Offset(ip, width)
  {
    if left.length < ip.length && Offset(whole, width) == Offset(ip, width) {
      SmallOffsetIsClear(left, ip, width);
    }
  }

  // ---- lists

  /** Prefixes within the width that all have the given host bits; canonical ones have none. */
  ghost predicate Alike(ps: seq<Prefix>, width: nat, offset: nat) {
    AllInWidth(ps, width) && AllOffset(ps, width, offset)
  }

  lemma SizesNest(p: Prefix, q: Prefix, width: nat)
    requires p.length <= q.length <= width
    ensures Base(p, width) % Size(q, width) == 0 && (Base(p, width) + Size(p, width)) % Size(q, width) == 0
  {
    SizeIsProduct(p, q, width);
    NestedMultiples(Base(p, width), Size(p, width), Size(q, width), Pow2(q.length - p.length), p.bits / Size(p, width));
  }

  lemma SizeIsProduct(p: Prefix, q: Prefix, width: nat)
    requires p.length <= q.length <= width
    ensures Size(p, width) == Size(q, width) * Pow2(q.length - p.length)
  {
    Pow2Adds(width - q.length, q.length - p.length);
  }

  lemma NestedMultiples(n: nat, big: nat, small: nat, k: nat, m: nat)
    requires small >= 1 && big == small * k && n == big * m
    ensures n % small == 0 && (n + big) % small == 0
  {
    ProductLaws(small, k, m);
    MultipleHasNoRest(small, k * m);
    MultipleHasNoRest(small, k * m + k);
  }

  lemma ProductLaws(a: nat, b: nat, c: nat)
    ensures a * b * c == a * (b * c)
    ensures a * (b * c) + a * b == a * (b * c + b)
  {
  }

  /** Of two prefixes the longer lies inside the shorter or apart from it, and its own address tells
      which. */
  lemma InsideOrApart(p: Prefix, q: Prefix, width: nat)
    requires p.length <= q.length <= width
    ensures Spans(p, width, q.bits) ==>
              Base(p, width) <= Base(q, width) && Base(q, width) + Size(q, width) <= Base(p, width) + Size(p, width)
    ensures !Spans(p, width, q.bits) ==> Disjoint(p, q, width)
  {
    var b, size := Base(q, width), Size(q, width);
    SizesNest(p, q, width);
    MultipleHasNoRest(size, q.bits / size);
    if Spans(p, width, q.bits) {
      if b < Base(p, width) {
        MultiplesGap(size, b, Base(p, width));
      }
      MultiplesGap(size, b, Base(p, width) + Size(p, width));
    } else if q.bits < Base(p, width) {
      MultiplesGap(size, b, Base(p, width));
    } else if b < Base(p, width) + Size(p, width) {
      MultiplesGap(size, b, Base(p, width) + Size(p, width));
    }
  }

  /** `IPAddress::overlaps`. */
  predicate Overlaps(p: Prefix, q: Prefix, width: nat) {
    if p.length < q.length then SameLeading(p.bits, q.bits, width, p.length)
    else SameLeading(q.bits, p.bits, width, q.length)
  }

  /** What is left of one prefix after taking another with the same host bits out. */
  method ExcludeFrom(p: Prefix, e: Prefix, width: nat) returns (rest: seq<Prefix>)
    requires InWidth(p, width) && InWidth(e, width) && Offset(p, width) == Offset(e, width)
    ensures Alike(rest, width, Offset(e, width))
    ensures forall d: nat :: InSome(rest, width, d) <==> Spans(p, width, d) && !Spans(e, width, d)
  {
    ContainsIsSpans(p, width, e.bits);
    ContainsIsSpans(e, width, p.bits);
    if p.length < e.length {
      InsideOrApart(p, e, width);
    } else {
      InsideOrApart(e, p, width);
    }
    if !Overlaps(p, e, width) {
      rest := [p];
      assert rest[0] == p;
    } else if SubnetOf(e, p, width) && e != p {
      var r := ExcludeOne(p, e, width);
      rest := r.value;
      RestOf(rest, e, p, width);
    } else {
      rest := [];
    }
  }

  lemma RestOf(rest: seq<Prefix>, e: Prefix, p: Prefix, width: nat)
    requires MakesUp(rest, e, p, width)
    ensures AllInWidth(rest, width)
    ensures forall d: nat :: InSome(rest, width, d) <==> Spans(p, width, d) && !Spans(e, width, d)
  {
    var all := rest + [e];
    assert all[|rest|] == e;
    forall i | 0 <= i < |rest|
      ensures InWidth(rest[i], width) && Disjoint(rest[i], e, width)
    {
      assert all[i] == rest[i];
      assert Disjoint(all[i], all[|rest|], width);
    }
  }

  lemma InSomeJoins(a: seq<Prefix>, b: seq<Prefix>, width: nat, d: nat)
    ensures InSome(a + b, width, d) <==> InSome(a, width, d) || InSome(b, width, d)
  {
    var c := a + b;
    assert forall i :: 0 <= i < |a| ==> c[i] == a[i];
    assert forall i :: 0 <= i < |b| ==> c[|a| + i] == b[i];
  }

  /** Taking one prefix out of every prefix of a list. */
  method ExcludeFromAll(ps: seq<Prefix>, e: Prefix, width: nat) returns (rest: seq<Prefix>)
    requires InWidth(e, width) && Alike(ps, width, Offset(e, width))
    ensures Alike(rest, width, Offset(e, width))
    ensures forall d: nat :: InSome(rest, width, d) <==> InSome(ps, width, d) && !Spans(e, width, d)
  {
    rest := [];
    for k := 0 to |ps|
      invariant Alike(rest, width, Offset(e, width))
      invariant forall d: nat :: InSome(rest, width, d) <==> InSome(ps[..k], width, d) && !Spans(e, width, d)
    {
      var more := ExcludeFrom(ps[k], e, width);
      ghost var before := rest;
      rest := rest + more;
      forall d: nat
        ensures InSome(rest, width, d) <==> InSome(ps[..k + 1], width, d) && !Spans(e, width, d)
      {
        InSomeJoins(before, more, width, d);
        InSomeJoins(ps[..k], [ps[k]], width, d);
        assert ps[..k + 1] == ps[..k] + [ps[k]];
        assert InSome([ps[k]], width, d) <==> Spans(ps[k], width, d) by {
          assert [ps[k]][0] == ps[k];
        }
      }
    }
    assert ps[..|ps|] == ps;
  }

  /** `IPAddress::excludeAddresses(sourceList, excludeList)`: the result covers exactly the addresses
      that some source prefix covers and no excluded prefix does, if all have the same host bits. */
  method ExcludeAddresses(source: seq<Prefix>, excluded: seq<Prefix>, width: nat, ghost offset: nat) returns (results: seq<Prefix>)
    requires Alike(source, width, offset) && Alike(excluded, width, offset)
    ensures Alike(results, width, offset)
    ensures forall d: nat :: InSome(results, width, d) <==> InSome(source, width, d) && !InSome(excluded, width, d)
  {
    results := source;
    for k := 0 to |excluded|
      invariant Alike(results, width, offset)
      invariant forall d: nat :: InSome(results, width, d) <==> InSome(source, width, d) && !InSome(excluded[..k], width, d)
    {
      ghost var before := results;
      results := ExcludeFromAll(results, excluded[k], width);
      forall d: nat
        ensures InSome(results, width, d) <==> InSome(source, width, d) && !InSome(excluded[..k + 1], width, d)
      {
        InSomeJoins(excluded[..k], [excluded[k]], width, d);
        assert excluded[..k + 1] == excluded[..k] + [excluded[k]];
        assert InSome([excluded[k]], width, d) <==> Spans(excluded[k], width, d) by {
          assert [excluded[k]][0] == excluded[k];
        }
        assert InSome(results, width, d) <==> InSome(before, width, d) && !Spans(excluded[k], width, d);
      }
    }
    assert excluded[..|excluded|] == excluded;
  }
}
