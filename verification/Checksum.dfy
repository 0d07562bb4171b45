// The Internet checksum as the load balancer computes it, in the byte order of the host, and
// as a receiver verifies it: section 3.1 of RFC 791 and section 1 of RFC 1071.

module Checksum {

  type Byte = x: nat | x < 256

  // A 16-bit word as a host of either byte order loads it.
  function Word(lo: Byte, hi: Byte, big: bool): nat {
    if big then 256 * lo + hi else lo + 256 * hi
  }

  // The bytes of a 16-bit word as a host of either byte order stores it.
  function StoredWord(w: nat, big: bool): (b: seq<Byte>)
    requires w < 0x1_0000
    ensures |b| == 2 && Word(b[0], b[1], big) == w
  {
    if big then [w / 256, w % 256] else [w % 256, w / 256]
  }

  // The sum of the words of s; an odd byte at the end counts by itself.
  function WordSum(s: seq<Byte>, big: bool): nat {
    if s == [] then 0
    else if |s| == 1 then s[0]
    else Word(s[0], s[1], big) + WordSum(s[2..], big)
  }

  // One round of adding the carries back in.
  function Fold(sum: nat): nat {
    sum % 0x1_0000 + sum / 0x1_0000
  }

  // Two rounds leave 16 bits of any sum below 2^32, and change nothing modulo 2^16 - 1.
  lemma TwoFoldsSuffice(sum: nat)
    requires sum < 0x1_0000_0000
    ensures Fold(Fold(sum)) < 0x1_0000
    ensures Fold(Fold(sum)) % 0xffff == sum % 0xffff
    ensures Fold(Fold(sum)) <= sum && (sum > 0 ==> Fold(Fold(sum)) > 0)
  {
    FoldKeepsRemainder(sum);
    FoldKeepsRemainder(Fold(sum));
  }

  lemma FoldKeepsRemainder(sum: nat)
    ensures Fold(sum) % 0xffff == sum % 0xffff && Fold(sum) <= sum && (sum > 0 ==> Fold(sum) > 0)
  {
    var q, r := sum / 0x1_0000, sum % 0x1_0000;
    assert sum == (q + r) + 0xffff * q;
    RemainderOfMultiple(q + r, q);
  }

  lemma {:induction false} RemainderOfMultiple(a: nat, q: nat)
    ensures (a + 0xffff * q) % 0xffff == a % 0xffff
    decreases q
  {
    if q > 0 {
      RemainderOfMultiple(a, q - 1);
      assert a + 0xffff * q == (a + 0xffff * (q - 1)) + 0xffff;
    }
  }

  lemma {:induction false} SumBound(s: seq<Byte>, big: bool)
    ensures WordSum(s, big) <= 0x8000 * (|s| + 1)
    decreases |s|
  {
    if |s| >= 2 {
      SumBound(s[2..], big);
    }
  }

  lemma WordSumStep(s: seq<Byte>, at: nat, n: nat, big: bool)
    requires at + n <= |s| && n >= 2
    ensures WordSum(s[at..at + n], big) == Word(s[at], s[at + 1], big) + WordSum(s[at + 2..at + n], big)
  {
    assert s[at..at + n][2..] == s[at + 2..at + n];
  }

  lemma WordSumEnd(s: seq<Byte>, at: nat, n: nat, big: bool)
    requires at + n <= |s| && n <= 1
    ensures WordSum(s[at..at + n], big) == if n == 1 then s[at] else 0
  {
    assert n == 1 ==> s[at..at + n] == [s[at]];
  }

  // Sums up a stretch of the buffer, folds the carries twice and complements.
  method IpChecksum(buf: array<Byte>, start: nat, size: nat, big: bool) returns (check: nat)
    requires start + size <= buf.Length
    ensures check == 0xffff - Fold(Fold(WordSum(buf[start..start + size], big))) % 0x1_0000
  {
    hide Word, WordSum;
    ghost var bytes := buf[..];
    assert bytes[start..start + size] == buf[start..start + size];
    var sum, at, bufsz := 0, start, size;
    while bufsz > 1
      invariant 0 <= bufsz <= size && at + bufsz == start + size
      invariant sum + WordSum(bytes[at..at + bufsz], big) == WordSum(bytes[start..start + size], big)
    {
      WordSumStep(bytes, at, bufsz, big);
      sum := sum + Word(buf[at], buf[at + 1], big);
      at, bufsz := at + 2, bufsz - 2;
    }
    WordSumEnd(bytes, at, bufsz, big);
    if bufsz == 1 {
      sum := sum + buf[at];
    }
    sum := sum % 0x1_0000 + sum / 0x1_0000;
    sum := sum % 0x1_0000 + sum / 0x1_0000;
    check := 0xffff - sum % 0x1_0000;
  }

  // The reader's side: ones' complement addition of the words in network order.
  function OnesAdd(a: nat, b: nat): nat {
    if a + b > 0xffff then a + b - 0xffff else a + b
  }

  function OnesSum(s: seq<Byte>): (r: nat)
    ensures r <= 0xffff
  {
    if |s| < 2 then 0 else OnesAdd(Word(s[0], s[1], true), OnesSum(s[2..]))
  }

  // A header verifies if its words add up to all ones.
  predicate HeaderVerifies(s: seq<Byte>) {
    OnesSum(s) == 0xffff
  }

  // The reader's sum agrees with the plain sum modulo 2^16 - 1, and is zero only for zeros.
  lemma {:induction false} OnesSumIsSum(s: seq<Byte>)
    requires |s| % 2 == 0
    ensures OnesSum(s) % 0xffff == WordSum(s, true) % 0xffff
    ensures OnesSum(s) == 0 <==> WordSum(s, true) == 0
    decreases |s|
  {
    if s != [] {
      OnesSumIsSum(s[2..]);
      OnesAddRemainder(Word(s[0], s[1], true), OnesSum(s[2..]), WordSum(s[2..], true));
    }
  }

  lemma OnesAddRemainder(w: nat, a: nat, b: nat)
    requires a % 0xffff == b % 0xffff && (a == 0 <==> b == 0)
    ensures OnesAdd(w, a) % 0xffff == (w + b) % 0xffff && (OnesAdd(w, a) == 0 <==> w + b == 0)
  {
    SameRemainderAfterAdding(a, b, w);
  }

  // Exactly the positive multiples of 2^16 - 1 verify.
  lemma VerifiesExactly(s: seq<Byte>)
    requires |s| % 2 == 0
    ensures HeaderVerifies(s) <==> WordSum(s, true) > 0 && WordSum(s, true) % 0xffff == 0
  {
    OnesSumIsSum(s);
  }

  // Swapping the bytes of every word multiplies the sum by 2^8 modulo 2^16 - 1.
  lemma {:induction false} ByteOrderOfSum(s: seq<Byte>)
    requires |s| % 2 == 0
    ensures (256 * WordSum(s, false)) % 0xffff == WordSum(s, true) % 0xffff
    ensures WordSum(s, false) == 0 <==> WordSum(s, true) == 0
    decreases |s|
  {
    if s != [] {
      ByteOrderOfSum(s[2..]);
      ByteOrderOfWord(s[0], s[1], WordSum(s[2..], false), WordSum(s[2..], true));
    }
  }

  lemma ByteOrderOfWord(lo: nat, hi: nat, x: nat, y: nat)
    requires (256 * x) % 0xffff == y % 0xffff
    ensures (256 * (lo + 256 * hi + x)) % 0xffff == (256 * lo + hi + y) % 0xffff
  {
    assert 256 * (lo + 256 * hi + x) == (256 * lo + hi + 256 * x) + 0xffff * hi;
    RemainderOfMultiple(256 * lo + hi + 256 * x, hi);
    SameRemainderAfterAdding(256 * x, y, 256 * lo + hi);
  }

  lemma SameRemainderAfterAdding(a: nat, b: nat, c: nat)
    requires a % 0xffff == b % 0xffff
    ensures (c + a) % 0xffff == (c + b) % 0xffff
  {
    var p, q := a / 0xffff, b / 0xffff;
    RemainderOfMultiple(c + a % 0xffff, p);
    RemainderOfMultiple(c + b % 0xffff, q);
  }

  // Replacing one word changes the sum by the difference.
  lemma {:induction false} SumAfterStore(s: seq<Byte>, i: nat, b: seq<Byte>, big: bool)
    requires |s| % 2 == 0 && i % 2 == 0 && i + 2 <= |s| && |b| == 2
    ensures WordSum(s[i := b[0]][i + 1 := b[1]], big) + Word(s[i], s[i + 1], big) ==
            WordSum(s, big) + Word(b[0], b[1], big)
    decreases |s|
  {
    var t := s[i := b[0]][i + 1 := b[1]];
    if i == 0 {
      assert t[2..] == s[2..];
    } else {
      SumAfterStore(s[2..], i - 2, b, big);
      assert t[2..] == s[2..][i - 2 := b[0]][i - 1 := b[1]];
    }
  }

  // Storing the computed checksum in a zeroed field makes the header verify, whatever the byte
  // order of the host.
  lemma StoredChecksumVerifies(h: seq<Byte>, i: nat, big: bool, check: nat, b: seq<Byte>)
    requires |h| % 2 == 0 && |h| <= 0xffff && i % 2 == 0 && i + 2 <= |h| && h[i] == 0 && h[i + 1] == 0
    requires check == 0xffff - Fold(Fold(WordSum(h, big))) % 0x1_0000 && b == StoredWord(check, big)
    ensures HeaderVerifies(h[i := b[0]][i + 1 := b[1]])
  {
    var t := h[i := b[0]][i + 1 := b[1]];
    SumBound(h, big);
    SumAfterStore(h, i, b, big);
    hide WordSum;
    assert Word(h[i], h[i + 1], big) == 0;
    ComplementCompletes(WordSum(h, big), check);
    if !big {
      ByteOrderOfSum(t);
      MultipleStaysMultiple(WordSum(t, big));
    }
    VerifiesExactly(t);
  }

  // A sum and the complement of its two folds add up to a positive multiple of 2^16 - 1.
  lemma ComplementCompletes(sum: nat, check: nat)
    requires sum < 0x1_0000_0000 && check == 0xffff - Fold(Fold(sum)) % 0x1_0000
    ensures sum + check > 0 && (sum + check) % 0xffff == 0
  {
    TwoFoldsSuffice(sum);
    var f := Fold(Fold(sum));
    DifferenceOfEqualRemainders(sum, f);
    assert sum + check == (sum - f) + 0xffff;
  }

  lemma DifferenceOfEqualRemainders(a: nat, b: nat)
    requires b <= a && a % 0xffff == b % 0xffff
    ensures (a - b) % 0xffff == 0
  {
  }

  lemma MultipleStaysMultiple(a: nat)
    requires a % 0xffff == 0
    ensures (256 * a) % 0xffff == 0
  {
    var q := a / 0xffff;
    assert 256 * a == 0 + 0xffff * (256 * q);
    RemainderOfMultiple(0, 256 * q);
  }
}
