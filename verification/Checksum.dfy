/** The Internet checksum of `PingSender::inetChecksum`, against sections 1 and 2 of RFC 1071. */
module Checksum {
  import opened Bytes

  /** The largest value of the signed 32-bit accumulator. */
  const MAX_INT := 0x7fff_ffff

  /** Two adjacent bytes as a 16-bit word of a little-endian or a big-endian host. */
  function HostWord(first: Byte, second: Byte, little: bool): Word {
    if little then first + 256 * second else 256 * first + second
  }

  /** The message as host words; an odd last byte is padded with a zero byte. */
  function Words(data: seq<Byte>, little: bool): seq<Word> {
    if |data| == 0 then []
    else if |data| == 1 then [HostWord(data[0], 0, little)]
    else [HostWord(data[0], data[1], little)] + Words(data[2..], little)
  }

  function Sum(words: seq<Word>): nat {
    if words == [] then 0 else words[0] + Sum(words[1..])
  }

  /** Ones' complement addition: a carry out of the top bit is added back at the bottom. */
  function OnesAdd(a: Word, b: Word): Word {
    if a + b >= 65536 then a + b - 65535 else a + b
  }

  /** The ones' complement sum of the words. */
  function OnesSum(words: seq<Word>): Word {
    if words == [] then 0 else OnesAdd(words[0], OnesSum(words[1..]))
  }

  /** The ones' complement of a word. */
  function Complement(w: Word): Word {
    65535 - w
  }

  /** The checksum that the standard asks for. */
  function ChecksumOf(data: seq<Byte>, little: bool): Word {
    Complement(OnesSum(Words(data, little)))
  }

  /** The 16-bit value a sum folds to: 0 for 0, and otherwise the residue modulo 65535 in 1..65535. */
  function Fold(n: nat): Word {
    if n == 0 then 0 else (n - 1) % 65535 + 1
  }

  lemma FoldIsUnique(n: nat, w: Word, k: int)
    requires n == w + 65535 * k
    requires w == 0 <==> n == 0
    ensures Fold(n) == w
  {
    if n > 0 {
      assert 0 <= w - 1 < 65535;
      assert n - 1 == (w - 1) + 65535 * k;
    }
  }

  lemma FoldStep(n: nat) returns (k: int)
    ensures n == Fold(n) + 65535 * k
    ensures Fold(n) == 0 <==> n == 0
  {
    k := if n == 0 then 0 else (n - 1) / 65535;
  }

  /** Ones' complement addition is addition with the carries folded back at the end. */
  lemma {:induction false} OnesSumIsFoldedSum(words: seq<Word>)
    ensures OnesSum(words) == Fold(Sum(words))
  {
    if words == [] {
    } else {
      OnesSumIsFoldedSum(words[1..]);
      var rest := Sum(words[1..]);
      var k := FoldStep(rest);
      var s := OnesAdd(words[0], Fold(rest));
      var j := if words[0] + Fold(rest) >= 65536 then k + 1 else k;
      assert Sum(words) == s + 65535 * j;
      FoldIsUnique(Sum(words), s, j);
    }
  }

  /** The two folds of the accumulator and the truncated complement. */
  function TwoFolds(sum: nat): Word {
    var once := sum / 65536 + sum % 65536;
    var twice := once + once / 65536;
    Complement(twice % 65536)
  }

  /** Two folds are enough for every value of the accumulator. */
  lemma TwoFoldsSuffice(sum: nat)
    requires sum <= MAX_INT
    ensures TwoFolds(sum) == Complement(Fold(sum))
  {
    var hi, lo := sum / 65536, sum % 65536;
    var once := hi + lo;
    assert sum == once + 65535 * hi;
    assert once < 2 * 65536;
    if once < 65536 {
      FoldIsUnique(sum, once, hi);
    } else {
      FoldIsUnique(sum, once - 65535, hi + 1);
    }
  }

  /** The largest sum of a message of `n` bytes. */
  function MaxSum(n: nat, little: bool): nat {
    65535 * (n / 2) + if n % 2 == 0 then 0 else HostWord(255, 0, little)
  }

  lemma {:induction false} SumIsBounded(data: seq<Byte>, little: bool)
    ensures Sum(Words(data, little)) <= MaxSum(|data|, little)
    ensures (forall i :: 0 <= i < |data| ==> data[i] == 255) ==>
              Sum(Words(data, little)) == MaxSum(|data|, little)
  {
    if |data| >= 2 {
      SumIsBounded(data[2..], little);
      assert Words(data, little)[1..] == Words(data[2..], little);
    } else if |data| == 1 {
      assert Words(data, little)[1..] == [];
    }
  }

  /** The longest message that cannot overflow the accumulator. */
  const LONGEST_LITTLE := 65537
  const LONGEST_BIG := 65536

  predicate Fits(n: nat, little: bool) {
    n <= if little then LONGEST_LITTLE else LONGEST_BIG
  }

  /** The accumulator holds the sum of every message of `n` bytes if and only if `n` is at most
      65536, or 65537 on a little-endian host. */
  lemma AccumulatorHoldsExactlyWhenFits(n: nat, little: bool)
    ensures (forall data: seq<Byte> :: |data| == n ==> Sum(Words(data, little)) <= MAX_INT) <==> Fits(n, little)
  {
    if Fits(n, little) {
      forall data: seq<Byte> | |data| == n
        ensures Sum(Words(data, little)) <= MAX_INT
      {
        SumIsBounded(data, little);
        assert n / 2 <= 32768;
      }
    } else {
      var full: seq<Byte> := seq(n, _ => 255);
      SumIsBounded(full, little);
      assert n / 2 >= 32768;
      assert Sum(Words(full, little)) > MAX_INT;
    }
  }

  lemma {:induction false} SumSplits(data: seq<Byte>, little: bool, i: nat)
    requires i % 2 == 0 && i <= |data|
    ensures Sum(Words(data, little)) == Sum(Words(data[..i], little)) + Sum(Words(data[i..], little))
  {
    if i == 0 {
      assert data[i..] == data;
    } else {
      var d := data[2..];
      SumSplits(d, little, i - 2);
      assert data[..i][2..] == d[..i - 2] && data[i..] == d[i - 2..];
      assert Words(data, little)[1..] == Words(d, little);
      assert Words(data[..i], little)[1..] == Words(d[..i - 2], little);
    }
  }

  lemma SumOfPair(data: seq<Byte>, little: bool, i: nat)
    requires i % 2 == 0 && i + 2 <= |data|
    ensures Sum(Words(data[..i + 2], little)) == Sum(Words(data[..i], little)) + HostWord(data[i], data[i + 1], little)
  {
    var head := data[..i + 2];
    SumSplits(head, little, i);
    assert head[..i] == data[..i] && head[i..] == [data[i], data[i + 1]];
    assert Words(head[i..], little) == [HostWord(data[i], data[i + 1], little)];
    assert [HostWord(data[i], data[i + 1], little)][1..] == [];
  }

  lemma PrefixFits(data: seq<Byte>, little: bool, w: nat)
    requires Fits(|data|, little) && w <= |data|
    ensures Sum(Words(data[..w], little)) <= MAX_INT
  {
    SumIsBounded(data[..w], little);
    assert w / 2 <= 32768;
  }

  /** The loop over 16-bit words, with the odd byte mopped up; no addition overflows. */
  method AddWords(data: seq<Byte>, little: bool) returns (sum: nat)
    requires Fits(|data|, little)
    ensures sum == Sum(Words(data, little)) <= MAX_INT
  {
    var left, w := |data|, 0;
    sum := 0;
    while left > 1
      invariant 0 <= left <= |data| && w == |data| - left && w % 2 == 0
      invariant sum == Sum(Words(data[..w], little)) <= MAX_INT
    {
      SumOfPair(data, little, w);
      PrefixFits(data, little, w + 2);
      sum := sum + HostWord(data[w], data[w + 1], little);
      w := w + 2;
      left := left - 2;
    }
    PrefixFits(data, little, |data|);
    assert data[..|data|] == data;
    if left == 1 {
      SumOfOdd(data, little, w);
      sum := sum + HostWord(data[w], 0, little);
    }
  }

  lemma SumOfOdd(data: seq<Byte>, little: bool, w: nat)
    requires w % 2 == 0 && |data| == w + 1
    ensures Sum(Words(data, little)) == Sum(Words(data[..w], little)) + HostWord(data[w], 0, little)
  {
    SumSplits(data, little, w);
    assert data[w..] == [data[w]];
    assert Words([data[w]], little) == [HostWord(data[w], 0, little)];
    assert [HostWord(data[w], 0, little)][1..] == [];
  }

  /** The sum of the words, folded twice and complemented. */
  method InetChecksum(data: seq<Byte>, little: bool) returns (answer: Word)
    requires Fits(|data|, little)
    ensures answer == ChecksumOf(data, little)
  {
    var sum := AddWords(data, little);
    TwoFoldsSuffice(sum);
    OnesSumIsFoldedSum(Words(data, little));
    sum := sum / 65536 + sum % 65536;
    sum := sum + sum / 65536;
    answer := 65535 - sum % 65536;
  }

  /** The bytes of a word exchanged. */
  function Swap(w: Word): Word {
    w % 256 * 256 + w / 256
  }

  lemma SwapOfParts(hi: Byte, lo: Byte)
    ensures Swap(256 * hi + lo) == 256 * lo + hi
  {
    assert (256 * hi + lo) / 256 == hi && (256 * hi + lo) % 256 == lo;
  }

  lemma SwapIsMultiplication(w: Word)
    ensures 256 * w == Swap(w) + 65535 * (w / 256)
    ensures Swap(w) == 0 <==> w == 0
    ensures Swap(Complement(w)) == Complement(Swap(w))
  {
    var hi: Byte, lo: Byte := w / 256, w % 256;
    assert w == 256 * hi + lo;
    SwapOfParts(hi, lo);
    SwapOfParts(255 - hi, 255 - lo);
  }

  lemma HostWordSwaps(a: Byte, b: Byte)
    ensures HostWord(a, b, false) == Swap(HostWord(a, b, true))
  {
  }

  /** The sum of swapped words is 256 times the sum, up to a multiple of 65535. */
  lemma {:induction false} SumOfSwapped(data: seq<Byte>) returns (k: int)
    ensures 256 * Sum(Words(data, true)) == Sum(Words(data, false)) + 65535 * k
    ensures Sum(Words(data, true)) == 0 <==> Sum(Words(data, false)) == 0
    decreases |data|
  {
    if |data| == 0 {
      k := 0;
    } else {
      var second, rest := if |data| == 1 then 0 else data[1], if |data| == 1 then [] else data[2..];
      var w := HostWord(data[0], second, true);
      HostWordSwaps(data[0], second);
      SwapIsMultiplication(w);
      var j := SumOfSwapped(rest);
      assert Words(data, true)[1..] == Words(rest, true);
      assert Words(data, false)[1..] == Words(rest, false);
      k := j + w / 256;
    }
  }

  /** Byte-order independence: hosts of either byte order compute the same two bytes. */
  lemma ByteOrderIndependent(data: seq<Byte>)
    ensures ChecksumOf(data, false) == Swap(ChecksumOf(data, true))
  {
    var le, be := Sum(Words(data, true)), Sum(Words(data, false));
    OnesSumIsFoldedSum(Words(data, true));
    OnesSumIsFoldedSum(Words(data, false));
    var k := SumOfSwapped(data);
    var j := FoldStep(le);
    var f := Fold(le);
    SwapIsMultiplication(f);
    var m := 256 * j + f / 256 - k;
    assert be == Swap(f) + 65535 * m;
    FoldIsUnique(be, Swap(f), m);
  }

  /** A word as the host stores it. */
  function Stored(w: Word, little: bool): seq<Byte> {
    if little then [w % 256, w / 256] else [w / 256, w % 256]
  }

  /** The message with a word stored at an even offset. */
  function WithField(data: seq<Byte>, at: nat, w: Word, little: bool): seq<Byte>
    requires at + 2 <= |data|
  {
    data[..at] + Stored(w, little) + data[at + 2..]
  }

  lemma SumWithField(data: seq<Byte>, at: nat, w: Word, little: bool)
    requires at % 2 == 0 && at + 2 <= |data|
    ensures Sum(Words(WithField(data, at, w, little), little))
         == Sum(Words(data[..at], little)) + w + Sum(Words(data[at + 2..], little))
  {
    var d := WithField(data, at, w, little);
    SumSplits(d, little, at + 2);
    SumOfPair(d, little, at);
    assert d[..at] == data[..at] && d[at + 2..] == data[at + 2..];
    assert HostWord(d[at], d[at + 1], little) == w;
  }

  /** Storing the checksum in a zeroed, aligned 16-bit field makes the recomputed checksum 0. */
  lemma StoredChecksumVerifies(data: seq<Byte>, at: nat, little: bool)
    requires at % 2 == 0 && at + 2 <= |data|
    ensures var zeroed := WithField(data, at, 0, little);
            ChecksumOf(WithField(zeroed, at, ChecksumOf(zeroed, little), little), little) == 0
  {
    var zeroed := WithField(data, at, 0, little);
    ZeroedOnce(data, at, little);
    SealedVerifies(zeroed, at, little);
  }

  lemma ZeroedOnce(data: seq<Byte>, at: nat, little: bool)
    requires at + 2 <= |data|
    ensures WithField(WithField(data, at, 0, little), at, 0, little) == WithField(data, at, 0, little)
  {
  }

  lemma SealedVerifies(zeroed: seq<Byte>, at: nat, little: bool)
    requires at % 2 == 0 && at + 2 <= |zeroed| && WithField(zeroed, at, 0, little) == zeroed
    ensures ChecksumOf(WithField(zeroed, at, ChecksumOf(zeroed, little), little), little) == 0
  {
    var c := ChecksumOf(zeroed, little);
    SumWithField(zeroed, at, c, little);
    SumWithField(zeroed, at, 0, little);
    ComplementVerifies(Words(zeroed, little), Words(WithField(zeroed, at, c, little), little));
  }

  lemma ComplementVerifies(words: seq<Word>, sealed: seq<Word>)
    requires Sum(sealed) == Sum(words) + Complement(OnesSum(words))
    ensures Complement(OnesSum(sealed)) == 0
  {
    OnesSumIsFoldedSum(words);
    OnesSumIsFoldedSum(sealed);
    var k := FoldStep(Sum(words));
    FoldIsUnique(Sum(sealed), 65535, k);
  }

  /** The numerical example of section 3 of RFC 1071: the bytes 00 01 f2 03 f4 f5 f6 f7 sum to ddf2 in
      network order and to f2dd in the other. */
  lemma StandardExample()
    ensures var data: seq<Byte> := [0x00, 0x01, 0xf2, 0x03, 0xf4, 0xf5, 0xf6, 0xf7];
            && Words(data, false) == [0x0001, 0xf203, 0xf4f5, 0xf6f7]
            && ChecksumOf(data, false) == 65535 - 0xddf2 && ChecksumOf(data, true) == 65535 - 0xf2dd
  {
    var data: seq<Byte> := [0x00, 0x01, 0xf2, 0x03, 0xf4, 0xf5, 0xf6, 0xf7];
    var words: seq<Word> := [0x0001, 0xf203, 0xf4f5, 0xf6f7];
    WordsOf(0xf6, 0xf7, []);
    WordsOf(0xf4, 0xf5, [0xf6, 0xf7]);
    WordsOf(0xf2, 0x03, [0xf4, 0xf5, 0xf6, 0xf7]);
    WordsOf(0x00, 0x01, [0xf2, 0x03, 0xf4, 0xf5, 0xf6, 0xf7]);
    assert [0x00, 0x01] + [0xf2, 0x03, 0xf4, 0xf5, 0xf6, 0xf7] == data;
    assert [0xf2, 0x03] + [0xf4, 0xf5, 0xf6, 0xf7] == [0xf2, 0x03, 0xf4, 0xf5, 0xf6, 0xf7];
    assert [0xf4, 0xf5] + [0xf6, 0xf7] == [0xf4, 0xf5, 0xf6, 0xf7] && [0xf6, 0xf7] + [] == [0xf6, 0xf7];
    assert Words(data, false) == words;
    OnesSumOf(0xf6f7, []);
    assert [0xf6f7] + [] == [0xf6f7];
    OnesSumOf(0xf4f5, [0xf6f7]);
    assert [0xf4f5] + [0xf6f7] == [0xf4f5, 0xf6f7];
    OnesSumOf(0xf203, [0xf4f5, 0xf6f7]);
    assert [0xf203] + [0xf4f5, 0xf6f7] == [0xf203, 0xf4f5, 0xf6f7];
    OnesSumOf(0x0001, [0xf203, 0xf4f5, 0xf6f7]);
    assert [0x0001] + [0xf203, 0xf4f5, 0xf6f7] == words;
    ByteOrderIndependent(data);
    SwapIsMultiplication(ChecksumOf(data, true));
  }

  lemma OnesSumOf(word: Word, words: seq<Word>)
    ensures OnesSum([word] + words) == OnesAdd(word, OnesSum(words))
  {
    assert ([word] + words)[1..] == words;
  }

  lemma WordsOf(first: Byte, second: Byte, data: seq<Byte>)
    ensures Words([first, second] + data, false) == [HostWord(first, second, false)] + Words(data, false)
  {
    assert ([first, second] + data)[2..] == data;
  }
}
