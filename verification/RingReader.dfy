// The reader of a perf ring buffer: records that the kernel has written between tail and head
// are handed to a callback in order, as one piece each even if they wrap around the end.

module RingReader {
  import opened Checksum

  const U64_SIZE: nat := 0x1_0000_0000_0000_0000
  const HEADER_SIZE: nat := 8

  datatype Verdict = Continue | Done | Error

  // Where position i of the stream lies in a ring of n bytes.
  function Place(i: nat, n: nat): (p: nat)
    requires n > 0
    ensures p < n
  {
    i % n
  }

  // The n bytes from position `from` on; positions count on beyond the end of the ring.
  function Stretch(ring: seq<Byte>, from: nat, n: nat): (s: seq<Byte>)
    requires |ring| > 0
    ensures |s| == n && forall i :: 0 <= i < n ==> s[i] == ring[Place(from + i, |ring|)]
  {
    seq(n, i requires 0 <= i < n => ring[Place(from + i, |ring|)])
  }

  function Flatten(records: seq<seq<Byte>>): seq<Byte> {
    if records == [] then [] else records[0] + Flatten(records[1..])
  }

  // The size that a record's header announces, in the last of its four fields.
  function SizeField(lo: Byte, hi: Byte): nat {
    Word(lo, hi, false)
  }

  predicate IsRecord(r: seq<Byte>) {
    |r| >= HEADER_SIZE && |r| % 8 == 0 && SizeField(r[6], r[7]) == |r|
  }

  // What the kernel writes: four bytes of type, two of flags, the low 16 bits of the size of the whole with the
  // lower byte first, and the data.
  function Event(typ: seq<Byte>, flags: seq<Byte>, data: seq<Byte>): (r: seq<Byte>)
    requires |typ| == 4 && |flags| == 2
  {
    typ + flags + [(8 + |data|) % 0x100, (8 + |data|) / 0x100 % 0x100] + data
  }

  // Such an event is a record exactly if its size fits into 16 bits and is a multiple of eight.
  lemma EventIsRecord(typ: seq<Byte>, flags: seq<Byte>, data: seq<Byte>)
    requires |typ| == 4 && |flags| == 2
    ensures IsRecord(Event(typ, flags, data)) <==> |data| <= 0xfff7 && |data| % 8 == 0
  {
    var r := Event(typ, flags, data);
    assert |r| == 8 + |data|;
    assert r[6] == (8 + |data|) % 0x100 && r[7] == (8 + |data|) / 0x100 % 0x100;
  }

  predicate AreRecords(records: seq<seq<Byte>>) {
    forall i :: 0 <= i < |records| ==> IsRecord(records[i])
  }

  // A ring size for which masking with size - 1 is the remainder.
  predicate IsRingSize(n: nat) {
    8 <= n < U64_SIZE && n % 8 == 0 && U64_SIZE % n == 0
  }

  // Exactly `records` lie between tail and head.
  ghost predicate Holds(ring: seq<Byte>, tail: nat, head: nat, records: seq<seq<Byte>>) {
    IsRingSize(|ring|) && tail < U64_SIZE && head < U64_SIZE && tail % 8 == 0 && AreRecords(records) &&
    |Flatten(records)| <= |ring| &&
    head == (tail + |Flatten(records)|) % U64_SIZE && Stretch(ring, tail, |Flatten(records)|) == Flatten(records)
  }

  // There is one way to write a as n times a quotient plus a remainder.
  lemma PlaceIsUnique(a: nat, n: nat, q: int, r: nat)
    requires n > 0 && r < n && a == n * q + r
    ensures Place(a, n) == r
  {
    var d, m := a / n, a % n;
    assert n * d + m == n * q + r;
    if d > q {
      assert n * (d - q) == n * d - n * q;
      MulAtLeast(n, d - q);
    } else if d < q {
      assert n * (q - d) == n * q - n * d;
      MulAtLeast(n, q - d);
    }
  }

  lemma MulAtLeast(n: nat, k: nat)
    requires k >= 1
    ensures n * k >= n
  {
    assert n * k == n + n * (k - 1);
  }

  lemma MulAssociates(a: int, b: int, c: int)
    ensures a * b * c == a * (b * c)
  {
  }

  // Shifting a position by whole rounds does not move its place.
  lemma RoundsKeepPlace(a: nat, n: nat, k: nat)
    requires n > 0
    ensures Place(a + n * k, n) == Place(a, n)
  {
    var q, r := a / n, a % n;
    assert a + n * k == n * (q + k) + r;
    PlaceIsUnique(a + n * k, n, q + k, r);
  }

  // Wrapping the position counter does not move the place in the ring.
  lemma WrapKeepsPlace(n: nat, x: nat)
    requires n > 0 && U64_SIZE % n == 0
    ensures Place(x % U64_SIZE, n) == Place(x, n)
  {
    var q, d := U64_SIZE / n, x / U64_SIZE;
    assert U64_SIZE == n * q;
    MulAssociates(n, q, d);
    assert x == x % U64_SIZE + n * (q * d);
    RoundsKeepPlace(x % U64_SIZE, n, q * d);
  }

  lemma PlacePlus(a: nat, b: nat, i: nat, n: nat)
    requires n > 0 && Place(a, n) == Place(b, n)
    ensures Place(a + i, n) == Place(b + i, n)
  {
    var p, q := a / n, b / n;
    assert a + i == (a % n + i) + n * p;
    assert b + i == (b % n + i) + n * q;
    RoundsKeepPlace(a % n + i, n, p);
    RoundsKeepPlace(b % n + i, n, q);
  }

  // Positions that agree modulo the ring size show the same bytes.
  lemma StretchWraps(ring: seq<Byte>, from: nat, n: nat)
    requires IsRingSize(|ring|)
    ensures Stretch(ring, from % U64_SIZE, n) == Stretch(ring, from, n)
  {
    var w := from % U64_SIZE;
    WrapKeepsPlace(|ring|, from);
    var s, t := Stretch(ring, w, n), Stretch(ring, from, n);
    forall i | 0 <= i < n ensures s[i] == t[i] {
      PlacePlus(w, from, i, |ring|);
    }
  }

  lemma StretchSplits(ring: seq<Byte>, from: nat, a: nat, b: nat)
    requires |ring| > 0
    ensures Stretch(ring, from, a + b) == Stretch(ring, from, a) + Stretch(ring, from + a, b)
  {
    var s, t := Stretch(ring, from, a + b), Stretch(ring, from, a) + Stretch(ring, from + a, b);
    forall i | 0 <= i < a + b ensures s[i] == t[i] {
      if i >= a {
        assert from + a + (i - a) == from + i;
      }
    }
  }

  // Advancing the counter by a record, and then by the rest, is advancing it by all.
  lemma CounterAdvances(tail: nat, n: nat, rest: nat)
    ensures ((tail + n) % U64_SIZE + rest) % U64_SIZE == (tail + n + rest) % U64_SIZE
  {
  }

  lemma CounterMoves(tail: nat, n: nat)
    requires tail < U64_SIZE && 0 < n < U64_SIZE
    ensures (tail + n) % U64_SIZE != tail
  {
  }

  lemma FlattenParts(records: seq<seq<Byte>>)
    requires records != []
    ensures |Flatten(records)| == |records[0]| + |Flatten(records[1..])|
    ensures Flatten(records)[..|records[0]|] == records[0]
    ensures Flatten(records)[|records[0]|..] == Flatten(records[1..])
  {
  }

  // The first record is the stretch at the tail; consuming it leaves the others.
  lemma FirstRecord(ring: seq<Byte>, tail: nat, head: nat, records: seq<seq<Byte>>)
    requires Holds(ring, tail, head, records) && records != []
    ensures head != tail && |records[0]| <= |ring| && IsRecord(records[0]) && IsRingSize(|ring|) && tail % 8 == 0
    ensures Stretch(ring, tail, |records[0]|) == records[0]
    ensures Holds(ring, (tail + |records[0]|) % U64_SIZE, head, records[1..])
  {
    var n, rest := |records[0]|, |Flatten(records[1..])|;
    assert IsRecord(records[0]);
    FlattenParts(records);
    StretchSplits(ring, tail, n, rest);
    var s := Stretch(ring, tail, n) + Stretch(ring, tail + n, rest);
    assert s[..n] == Stretch(ring, tail, n) && s[n..] == Stretch(ring, tail + n, rest);
    StretchWraps(ring, tail + n, rest);
    CounterAdvances(tail, n, rest);
    CounterMoves(tail, n + rest);
    Aligned(tail, n);
  }

  lemma Aligned(tail: nat, n: nat)
    requires tail % 8 == 0 && n % 8 == 0
    ensures ((tail + n) % U64_SIZE) % 8 == 0
  {
  }

  lemma NoRecords(ring: seq<Byte>, tail: nat, head: nat, records: seq<seq<Byte>>)
    requires Holds(ring, tail, head, records)
    ensures head == tail <==> records == []
  {
    if records != [] {
      FirstRecord(ring, tail, head, records);
    }
  }

  // The record that comes after the first n, which start at `tail`.
  lemma NextRecord(ring: seq<Byte>, tail: nat, at: nat, head: nat, records: seq<seq<Byte>>, n: nat)
    requires n <= |records| && Holds(ring, at, head, records[n..]) && at != head
    requires at == (tail + |Flatten(records[..n])|) % U64_SIZE
    ensures n < |records| && IsRecord(records[n]) && |records[n]| <= |ring| && IsRingSize(|ring|) && at % 8 == 0
    ensures Stretch(ring, at, |records[n]|) == records[n]
    ensures Holds(ring, (at + |records[n]|) % U64_SIZE, head, records[n + 1..])
    ensures (at + |records[n]|) % U64_SIZE == (tail + |Flatten(records[..n + 1])|) % U64_SIZE
  {
    var rest := records[n..];
    NoRecords(ring, at, head, rest);
    FirstRecord(ring, at, head, rest);
    assert rest[1..] == records[n + 1..] && rest[0] == records[n];
    FlattenOne(records[..n], records[n]);
    assert records[..n] + [records[n]] == records[..n + 1];
    CounterAdvances(tail, |Flatten(records[..n])|, |records[n]|);
  }

  // A header never wraps, since positions and sizes are multiples of eight.
  lemma HeaderFits(size: nat, tail: nat)
    requires size >= 8 && size % 8 == 0 && tail % 8 == 0
    ensures Place(tail, size) + HEADER_SIZE <= size
  {
    var q, d, r := size / 8, tail / size, tail % size;
    MulAssociates(8, q, d);
    assert tail == size * d + r && size == 8 * q;
    assert r == 8 * (tail / 8 - q * d);
  }

  // A stretch that does not reach the end is a piece of the ring; otherwise it continues at the start.
  lemma StretchPieces(ring: seq<Byte>, from: nat, n: nat)
    requires |ring| > 0 && n <= |ring|
    ensures var at := Place(from, |ring|);
            Stretch(ring, from, n) ==
            if at + n <= |ring| then ring[at..at + n] else ring[at..] + ring[..at + n - |ring|]
  {
    var at := Place(from, |ring|);
    var s := Stretch(ring, from, n);
    forall i | 0 <= i < n ensures s[i] == ring[if at + i < |ring| then at + i else at + i - |ring|] {
      PlaceAround(from, i, |ring|);
    }
  }

  lemma PlaceAround(from: nat, i: nat, n: nat)
    requires n > 0 && i < n
    ensures var at := Place(from, n); Place(from + i, n) == if at + i < n then at + i else at + i - n
  {
    var at := Place(from, n);
    PlaceIsUnique(at, n, 0, at);
    PlacePlus(from, at, i, n);
    PlaceIsUnique(at + i, n, if at + i < n then 0 else 1, if at + i < n then at + i else at + i - n);
  }

  class RingReader {
    const ring: array<Byte>
    // Counters of all bytes ever written and read.
    var head: nat
    var tail: nat
    // Where a record that wraps is put together.
    var copyMem: array<Byte>

    constructor (ring: array<Byte>, head: nat, tail: nat)
      ensures this.ring == ring && this.head == head && this.tail == tail && fresh(copyMem)
    {
      this.ring, this.head, this.tail := ring, head, tail;
      copyMem := new Byte[0];
    }

    // Hands the records to the callback until it stops or none are left. The records up to the one
    // it stopped at are consumed, and `seen` is what it was shown.
    method Read(fn: seq<Byte> -> Verdict, ghost records: seq<seq<Byte>>) returns (ret: Verdict, seen: seq<seq<Byte>>)
      requires ring != copyMem && Holds(ring[..], tail, head, records)
      modifies this`tail, this`copyMem, copyMem
      ensures ring != copyMem && ring[..] == old(ring[..])
      ensures seen <= records && Holds(ring[..], tail, head, records[|seen|..])
      ensures tail == (old(tail) + |Flatten(seen)|) % U64_SIZE
      ensures forall i :: 0 <= i < |seen| - 1 ==> fn(seen[i]).Continue?
      ensures if ret.Continue? then seen == records && (seen != [] ==> fn(seen[|seen| - 1]).Continue?)
              else seen != [] && ret == fn(seen[|seen| - 1])
    {
      var dataHead: nat, dataTail: nat := head, tail;
      ret, seen := Continue, [];
      assert records[0..] == records;
      hide Holds, Stretch, Flatten, IsRecord, IsRingSize;
      assert Flatten([]) == [] by {
        FlattenNothing();
      }
      while dataHead != dataTail
        modifies this`copyMem, copyMem
        invariant ring != copyMem && ring[..] == old(ring[..]) && (copyMem == old(copyMem) || fresh(copyMem))
        invariant ret.Continue? && |seen| <= |records| && seen == records[..|seen|]
        invariant Holds(ring[..], dataTail, head, records[|seen|..])
        invariant dataTail == (old(tail) + |Flatten(seen)|) % U64_SIZE
        invariant forall i :: 0 <= i < |seen| ==> fn(seen[i]).Continue?
        decreases |records| - |seen|
      {
        NextRecord(ring[..], old(tail), dataTail, head, records, |seen|);
        var size, record := FetchRecord(dataTail, records[|seen|]);
        assert seen + [record] == records[..|seen| + 1];
        ret := fn(record);
        seen := seen + [record];
        dataTail := (dataTail + size) % U64_SIZE;
        if !ret.Continue? {
          break;
        }
      }
      if ret.Continue? {
        NoRecords(ring[..], dataTail, head, records[|seen|..]);
      }
      tail := dataTail;
    }

    // The record at a position, in one piece.
    method FetchRecord(at: nat, ghost record: seq<Byte>) returns (size: nat, r: seq<Byte>)
      requires ring != copyMem && IsRingSize(ring.Length) && at % 8 == 0 && IsRecord(record) && |record| <= ring.Length
      requires Stretch(ring[..], at, |record|) == record
      modifies this`copyMem, copyMem
      ensures ring != copyMem && ring[..] == old(ring[..]) && (copyMem == old(copyMem) || fresh(copyMem))
      ensures size == |record| && r == record
    {
      HeaderFits(ring.Length, at);
      StretchPieces(ring[..], at, |record|);
      var pos := Place(at, ring.Length);
      assert record[6] == ring[pos + 6] && record[7] == ring[pos + 7];
      size := SizeField(ring[pos + 6], ring[pos + 7]);
      if pos + size <= ring.Length {
        r := ring[pos..pos + size];
        return;
      }
      var first := ring.Length - pos;
      if copyMem.Length < size {
        copyMem := new Byte[size];
      }
      forall i | 0 <= i < first {
        copyMem[i] := ring[pos + i];
      }
      forall i | 0 <= i < size - first {
        copyMem[first + i] := ring[i];
      }
      r := copyMem[..size];
      assert r == record;
    }
  }

  lemma FlattenNothing()
    ensures Flatten([]) == []
  {
  }

  lemma {:induction false} FlattenOne(records: seq<seq<Byte>>, r: seq<Byte>)
    ensures Flatten(records + [r]) == Flatten(records) + r
    decreases |records|
  {
    if records == [] {
      assert [r][1..] == [];
      assert records + [r] == [r];
    } else {
      FlattenOne(records[1..], r);
      assert (records + [r])[1..] == records[1..] + [r];
    }
  }
}
