// The type section as memory and the types as a sequence: compacting one compacts the other.

module SectionRecords {
  import opened Checksum
  import opened BtfFile
  import opened TypeSection
  import opened Renumber

  // The records from `at` on, each read by `decode`.
  ghost function RecordsFrom<T>(ws: seq<Word32>, big: bool, at: nat, decode: seq<Word32> -> T): (ts: seq<T>)
    requires Index(ws, big, at).Some?
    ensures |ts| == |Index(ws, big, at).value|
    decreases |Index(ws, big, at).value|
  {
    var offs := Index(ws, big, at).value;
    if offs == [] then []
    else
      RecordAt(ws, big, at, offs);
      var size := SizeAt(ws, big, at);
      [decode(ws[at..at + size])] + RecordsFrom(ws, big, at + size, decode)
  }

  function Selected<T>(ts: seq<T>, keep: seq<bool>): seq<T>
    requires |ts| == |keep|
  {
    if ts == [] then []
    else
      var n := |ts| - 1;
      Selected(ts[..n], keep[..n]) + if keep[n] then [ts[n]] else []
  }

  lemma {:induction false} SelectedHead<T>(ts: seq<T>, keep: seq<bool>)
    requires |ts| == |keep| >= 1
    ensures Selected(ts, keep) == (if keep[0] then [ts[0]] else []) + Selected(ts[1..], keep[1..])
    decreases |ts|
  {
    var n := |ts| - 1;
    if n > 0 {
      SelectedHead(ts[..n], keep[..n]);
      assert ts[..n][1..] == ts[1..][..n - 1] && keep[..n][1..] == keep[1..][..n - 1];
    }
  }

  lemma FirstRecord<T>(ws: seq<Word32>, big: bool, at: nat, decode: seq<Word32> -> T)
    requires at + 3 <= |ws| && RestWords(ws[at + 1], big).Some? && at + SizeAt(ws, big, at) <= |ws|
    requires Index(ws, big, at + SizeAt(ws, big, at)).Some?
    ensures var size := SizeAt(ws, big, at);
            Index(ws, big, at) == Some([at] + Index(ws, big, at + size).value) &&
            RecordsFrom(ws, big, at, decode) == [decode(ws[at..at + size])] + RecordsFrom(ws, big, at + size, decode)
  {
  }

  lemma NoRecord<T>(ws: seq<Word32>, big: bool, decode: seq<Word32> -> T)
    ensures Index(ws, big, |ws|) == Some([]) && RecordsFrom(ws, big, |ws|, decode) == []
  {
  }

  // A record in front of a section comes first, and the others stay what they are.
  lemma {:induction false} Behind<T>(r: seq<Word32>, rest: seq<Word32>, big: bool, at: nat, decode: seq<Word32> -> T)
    requires at <= |rest| && Index(rest, big, at).Some?
    ensures Index(r + rest, big, |r| + at).Some?
    ensures RecordsFrom(r + rest, big, |r| + at, decode) == RecordsFrom(rest, big, at, decode)
    decreases |rest| - at
  {
    hide RestWords, Index, RecordsFrom;
    var all := r + rest;
    var offs := Index(rest, big, at).value;
    IndexHead(rest, big, at, offs);
    if offs == [] {
      NoRecord(all, big, decode);
      NoRecord(rest, big, decode);
    } else {
      assert all[|r| + at + 1] == rest[at + 1];
      var size := SizeAt(rest, big, at);
      Behind(r, rest, big, at + size, decode);
      FirstRecord(rest, big, at, decode);
      FirstRecord(all, big, |r| + at, decode);
      SliceBehind(r, rest, at, size);
    }
  }

  lemma SliceBehind(r: seq<Word32>, rest: seq<Word32>, at: nat, size: nat)
    requires at + size <= |rest|
    ensures (r + rest)[|r| + at..|r| + at + size] == rest[at..at + size]
  {
  }

  lemma InFront<T>(r: seq<Word32>, rest: seq<Word32>, big: bool, decode: seq<Word32> -> T)
    requires IsRecord(r, big) && Index(rest, big, 0).Some?
    ensures Index(r + rest, big, 0).Some?
    ensures RecordsFrom(r + rest, big, 0, decode) == [decode(r)] + RecordsFrom(rest, big, 0, decode)
  {
    hide RestWords, Index, RecordsFrom;
    Behind(r, rest, big, 0, decode);
    var all := r + rest;
    assert all[1] == r[1];
    assert all[0..|r|] == r;
    FirstRecord(all, big, 0, decode);
  }

  // The kept words hold exactly the kept records.
  lemma {:induction false} KeptRecords<T>(ws: seq<Word32>, big: bool, at: nat, keep: seq<bool>,
                                          decode: seq<Word32> -> T)
    requires Index(ws, big, at).Some? && |Index(ws, big, at).value| == |keep|
    ensures Index(KeptWords(ws, big, at, keep), big, 0).Some?
    ensures RecordsFrom(KeptWords(ws, big, at, keep), big, 0, decode) ==
            Selected(RecordsFrom(ws, big, at, decode), keep)
    decreases |keep|
  {
    hide RestWords, Index, RecordsFrom;
    var offs := Index(ws, big, at).value;
    var none: seq<Word32> := [];
    if keep == [] {
      NoRecord(none, big, decode);
    } else {
      KeptStep(ws, big, at, offs, keep);
      RecordAt(ws, big, at, offs);
      var size := SizeAt(ws, big, at);
      KeptRecords(ws, big, at + size, keep[1..], decode);
      FirstRecord(ws, big, at, decode);
      var kept := KeptWords(ws, big, at + size, keep[1..]);
      hide KeptWords, SizeAt;
      SelectedHead(RecordsFrom(ws, big, at, decode), keep);
      hide Selected;
      if keep[0] {
        InFront(ws[at..at + size], kept, big, decode);
      } else {
        assert none + kept == kept;
      }
    }
  }

  // Which of the types behind void are canonical.
  function CanonicalFlags(m: seq<nat>): (keep: seq<bool>)
    requires |m| >= 1
    ensures |keep| == |m| - 1
  {
    seq(|m| - 1, i requires 0 <= i < |m| - 1 => m[i + 1] == i + 1)
  }

  lemma {:induction false} SelectedKept<T>(ts: seq<T>, m: seq<nat>, i: nat)
    requires |ts| == |m| - 1 && 1 <= i <= |m|
    ensures |Selected(ts[..i - 1], CanonicalFlags(m)[..i - 1])| == |Kept(m, i)| - 1
    ensures forall j :: 1 <= j < |Kept(m, i)| ==>
      1 <= Kept(m, i)[j] <= |ts| && Selected(ts[..i - 1], CanonicalFlags(m)[..i - 1])[j - 1] == ts[Kept(m, i)[j] - 1]
  {
    if i > 1 {
      SelectedKept(ts, m, i - 1);
      assert ts[..i - 1][..i - 2] == ts[..i - 2];
      assert CanonicalFlags(m)[..i - 1][..i - 2] == CanonicalFlags(m)[..i - 2];
    }
  }
}
