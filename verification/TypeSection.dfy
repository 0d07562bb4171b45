// Compaction of the type section as memory: the records that are kept move together in place, and
// the index of their offsets stays exact.

module TypeSection {
  import opened Checksum
  import opened BtfFile

  // The words of the type that starts at `at`.
  function SizeAt(ws: seq<Word32>, big: bool, at: nat): nat
    requires at + 3 <= |ws| && RestWords(ws[at + 1], big).Some?
  {
    3 + RestWords(ws[at + 1], big).value
  }

  // The records that are kept among those from `at` on, one behind the other.
  function KeptWords(ws: seq<Word32>, big: bool, at: nat, keep: seq<bool>): seq<Word32>
    requires Index(ws, big, at).Some? && |Index(ws, big, at).value| == |keep|
    decreases |keep|
  {
    if keep == [] then []
    else
      var size := SizeAt(ws, big, at);
      (if keep[0] then ws[at..at + size] else []) + KeptWords(ws, big, at + size, keep[1..])
  }

  // A section that is one well-formed record.
  predicate IsRecord(r: seq<Word32>, big: bool) {
    |r| >= 3 && RestWords(r[1], big).Some? && |r| == 3 + RestWords(r[1], big).value
  }

  // A record behind a well-formed section is found at the section's end.
  lemma {:induction false} IndexAppends(a: seq<Word32>, big: bool, at: nat, r: seq<Word32>)
    requires at <= |a| && Index(a, big, at).Some? && IsRecord(r, big)
    ensures Index(a + r, big, at) == Some(Index(a, big, at).value + [|a|])
    decreases |a| - at
  {
    hide RestWords;
    var ar := a + r;
    if at == |a| {
      assert ar[at + 1] == r[1];
      IndexFails(ar, big, |ar|);
      var none: seq<nat> := [];
      assert [at] + none == [at] && none + [|a|] == [|a|];
      assert Index(ar, big, at) == Some([at] + Index(ar, big, |ar|).value);
    } else {
      assert at + 3 <= |a| && ar[at + 1] == a[at + 1];
      var n := RestWords(a[at + 1], big).value;
      IndexAppends(a, big, at + 3 + n, r);
      var rest := Index(a, big, at + 3 + n).value;
      assert [at] + (rest + [|a|]) == ([at] + rest) + [|a|];
      assert Index(a, big, at) == Some([at] + rest);
    }
  }

  lemma RecordAt(ws: seq<Word32>, big: bool, at: nat, offs: seq<nat>)
    requires Index(ws, big, at) == Some(offs) && offs != []
    ensures offs[0] == at && at + 3 <= |ws| && RestWords(ws[at + 1], big).Some? && at + SizeAt(ws, big, at) <= |ws|
    ensures Index(ws, big, at + SizeAt(ws, big, at)) == Some(offs[1..])
    ensures IsRecord(ws[at..at + SizeAt(ws, big, at)], big)
  {
    IndexHead(ws, big, at, offs);
    assert ws[at..at + SizeAt(ws, big, at)][1] == ws[at + 1];
  }

  // The state of compaction at record i: `done` are the words kept so far, and nothing from the
  // record on has been touched.
  ghost predicate Compacting(was: seq<Word32>, big: bool, offs: seq<nat>, now: seq<Word32>, at: nat, p: nat) {
    |now| == |was| && p <= at <= |was| && Index(was, big, at) == Some(offs) && now[at..] == was[at..] &&
    Index(now[..p], big, 0).Some?
  }

  // Moves `size` words from `at` down to p; the two places may overlap.
  method MoveWords(types: array<Word32>, p: nat, at: nat, size: nat)
    requires p <= at && at + size <= types.Length
    modifies types
    ensures types[..p + size] == old(types[..p]) + old(types[at..at + size])
    ensures types[at + size..] == old(types[at + size..])
  {
    ghost var was := types[..];
    forall k | 0 <= k < size {
      types[p + k] := types[at + k];
    }
    MovedDown(was, types[..], p, at, size);
  }

  lemma MovedDown(was: seq<Word32>, now: seq<Word32>, p: nat, at: nat, size: nat)
    requires p <= at && at + size <= |was| == |now|
    requires forall k :: p <= k < p + size ==> now[k] == was[at + (k - p)]
    requires forall k :: 0 <= k < |now| && !(p <= k < p + size) ==> now[k] == was[k]
    ensures now[..p + size] == was[..p] + was[at..at + size] && now[at + size..] == was[at + size..]
  {
    assert now[..p] == was[..p];
    assert now[p..p + size] == was[at..at + size];
    assert now[..p + size] == now[..p] + now[p..p + size];
  }

  // A record has been moved: it is found at its new place, and the later ones are untouched.
  lemma RecordMoved(was: seq<Word32>, big: bool, offs: seq<nat>, now: seq<Word32>, at: nat, p: nat, next: seq<Word32>)
    requires Compacting(was, big, offs, now, at, p) && offs != [] && |next| == |now|
    requires at + 3 <= |was| && RestWords(was[at + 1], big).Some? && at + SizeAt(was, big, at) <= |was|
    requires var size := SizeAt(was, big, at);
             next[..p + size] == now[..p] + was[at..at + size] && next[at + size..] == now[at + size..]
    ensures var size := SizeAt(was, big, at);
            Compacting(was, big, offs[1..], next, at + size, p + size) &&
            Index(next[..p + size], big, 0) == Some(Index(now[..p], big, 0).value + [p])
  {
    var size := SizeAt(was, big, at);
    RecordAt(was, big, at, offs);
    IndexAppends(now[..p], big, 0, was[at..at + size]);
    hide Index, RestWords;
    assert now[at + size..] == now[at..][size..] == was[at..][size..] == was[at + size..];
  }

  // Compaction stands before record i, which starts at `at`.
  ghost predicate Stands(was: seq<Word32>, big: bool, index: seq<nat>, keep: seq<bool>, now: seq<Word32>,
                         offs: seq<nat>, i: nat, at: nat, nr: nat, len: nat) {
    nr <= i <= |index| == |keep| == |offs| && Index(was, big, 0).Some? && |Index(was, big, 0).value| == |keep| &&
    Compacting(was, big, index[i..], now, at, len) && offs[i..] == index[i..] &&
    Index(now[..len], big, 0) == Some(offs[..nr]) &&
    KeptWords(was, big, 0, keep) == now[..len] + KeptWords(was, big, at, keep[i..])
  }

  lemma StandsAtStart(was: seq<Word32>, big: bool, index: seq<nat>, keep: seq<bool>)
    requires Index(was, big, 0) == Some(index) && |keep| == |index|
    ensures Stands(was, big, index, keep, was, index, 0, 0, 0, 0)
  {
    IndexFails(was[..0], big, 0);
    assert index[0..] == index && keep[0..] == keep;
  }

  lemma KeptStep(ws: seq<Word32>, big: bool, at: nat, offs: seq<nat>, keep: seq<bool>)
    requires Index(ws, big, at) == Some(offs) && |offs| == |keep| && offs != []
    ensures at + 3 <= |ws| && RestWords(ws[at + 1], big).Some? && at + SizeAt(ws, big, at) <= |ws|
    ensures Index(ws, big, at + SizeAt(ws, big, at)) == Some(offs[1..])
    ensures KeptWords(ws, big, at, keep) ==
            (if keep[0] then ws[at..at + SizeAt(ws, big, at)] else []) +
            KeptWords(ws, big, at + SizeAt(ws, big, at), keep[1..])
  {
    RecordAt(ws, big, at, offs);
  }

  // What the next record is.
  lemma StandsBefore(was: seq<Word32>, big: bool, index: seq<nat>, keep: seq<bool>, now: seq<Word32>, offs: seq<nat>,
                     i: nat, at: nat, nr: nat, len: nat)
    requires Stands(was, big, index, keep, now, offs, i, at, nr, len) && i < |index|
    ensures offs[i] == at && len <= at && at + 3 <= |was| == |now| && now[at + 1] == was[at + 1]
    ensures RestWords(was[at + 1], big).Some? && at + SizeAt(was, big, at) <= |was|
    ensures now[at..at + SizeAt(was, big, at)] == was[at..at + SizeAt(was, big, at)]
  {
    RecordAt(was, big, at, index[i..]);
    var size := SizeAt(was, big, at);
    assert offs[i] == offs[i..][0];
    assert now[at + 1] == now[at..][1] == was[at..][1];
    assert now[at..at + size] == now[at..][..size] == was[at..][..size];
  }

  lemma StandsAfterSkip(was: seq<Word32>, big: bool, index: seq<nat>, keep: seq<bool>, now: seq<Word32>, offs: seq<nat>,
                        i: nat, at: nat, nr: nat, len: nat)
    requires Stands(was, big, index, keep, now, offs, i, at, nr, len) && i < |index| && !keep[i]
    requires at + 3 <= |was| && RestWords(was[at + 1], big).Some?
    ensures Stands(was, big, index, keep, now, offs, i + 1, at + SizeAt(was, big, at), nr, len)
  {
    hide RestWords;
    KeptStep(was, big, at, index[i..], keep[i..]);
    RecordSkipped(was, big, index[i..], now, at, len);
    hide Index, KeptWords, Compacting, SizeAt;
    Tail(index, i);
    Tail(keep, i);
    Tail(offs, i);
  }

  // A record has been left out: the later ones are untouched.
  lemma RecordSkipped(was: seq<Word32>, big: bool, offs: seq<nat>, now: seq<Word32>, at: nat, p: nat)
    requires Compacting(was, big, offs, now, at, p) && offs != []
    requires at + 3 <= |was| && RestWords(was[at + 1], big).Some? && at + SizeAt(was, big, at) <= |was|
    ensures Compacting(was, big, offs[1..], now, at + SizeAt(was, big, at), p)
  {
    RecordAt(was, big, at, offs);
    SameSuffix(now, was, at, SizeAt(was, big, at));
  }

  lemma Tail<T>(s: seq<T>, i: nat)
    requires i < |s|
    ensures s[i..][1..] == s[i + 1..]
  {
  }

  lemma SameSuffix(s: seq<Word32>, t: seq<Word32>, i: nat, n: nat)
    requires i + n <= |s| == |t| && s[i..] == t[i..]
    ensures s[i + n..] == t[i + n..]
  {
    assert s[i + n..] == s[i..][n..];
    assert t[i + n..] == t[i..][n..];
  }

  // Offset nr is noted before those of the records that are still to come.
  lemma NotedOffset(offs: seq<nat>, i: nat, nr: nat, len: nat)
    requires nr <= i < |offs|
    ensures offs[nr := len][i + 1..] == offs[i..][1..]
    ensures offs[nr := len][..nr + 1] == offs[..nr] + [len]
  {
  }

  lemma StandsAfterMove(was: seq<Word32>, big: bool, index: seq<nat>, keep: seq<bool>, now: seq<Word32>, offs: seq<nat>,
                        i: nat, at: nat, nr: nat, len: nat, next: seq<Word32>)
    requires Stands(was, big, index, keep, now, offs, i, at, nr, len) && i < |index| && keep[i] && |next| == |now|
    requires at + 3 <= |was| && RestWords(was[at + 1], big).Some? && at + SizeAt(was, big, at) <= |was|
    requires var size := SizeAt(was, big, at);
             next[..len + size] == now[..len] + was[at..at + size] && next[at + size..] == now[at + size..]
    ensures nr < |offs|
    ensures var size := SizeAt(was, big, at);
            Stands(was, big, index, keep, next, offs[nr := len], i + 1, at + size, nr + 1, len + size)
  {
    hide RestWords;
    var size := SizeAt(was, big, at);
    KeptStep(was, big, at, index[i..], keep[i..]);
    RecordMoved(was, big, index[i..], now, at, len, next);
    hide Index, KeptWords, Compacting, SizeAt;
    Tail(index, i);
    Tail(keep, i);
    NotedOffset(offs, i, nr, len);
    var more := KeptWords(was, big, at + size, keep[i + 1..]);
    assert now[..len] + (was[at..at + size] + more) == next[..len + size] + more;
  }

  lemma SkipRecord(was: seq<Word32>, big: bool, index: seq<nat>, keep: seq<bool>, now: seq<Word32>, offs: seq<nat>,
                   i: nat, at: nat, nr: nat, len: nat) returns (next: nat)
    requires Stands(was, big, index, keep, now, offs, i, at, nr, len) && i < |index| == |keep| && !keep[i]
    ensures Stands(was, big, index, keep, now, offs, i + 1, next, nr, len)
  {
    StandsBefore(was, big, index, keep, now, offs, i, at, nr, len);
    StandsAfterSkip(was, big, index, keep, now, offs, i, at, nr, len);
    next := at + SizeAt(was, big, at);
  }

  lemma SizeIs(ws: seq<Word32>, big: bool, at: nat)
    requires at + 3 <= |ws| && RestWords(ws[at + 1], big).Some?
    ensures SizeAt(ws, big, at) == 3 + RestWords(ws[at + 1], big).value
  {
  }

  // Moves record i to where the next kept one belongs, and notes its new offset.
  method KeepRecord(types: array<Word32>, offs: array<nat>, big: bool, i: nat, nr: nat, len: nat,
                    ghost was: seq<Word32>, ghost index: seq<nat>, keep: seq<bool>, ghost at: nat) returns (size: nat)
    requires i < offs.Length == |index| && |keep| == |index| && keep[i]
    requires Stands(was, big, index, keep, types[..], offs[..], i, at, nr, len)
    modifies types, offs
    ensures Stands(was, big, index, keep, types[..], offs[..], i + 1, at + size, nr + 1, len + size)
  {
    hide Stands, RestWords, Index, KeptWords, SizeAt;
    StandsBefore(was, big, index, keep, types[..], offs[..], i, at, nr, len);
    SizeIs(was, big, at);
    size := 3 + RestWords(types[offs[i] + 1], big).value;
    ghost var now := types[..];
    MoveWords(types, len, offs[i], size);
    assert types[..][..len + size] == now[..len] + was[at..at + size];
    StandsAfterMove(was, big, index, keep, now, offs[..], i, at, nr, len, types[..]);
    offs[nr] := len;
  }

  // Moves the kept records together. The section that remains consists of exactly those, in order,
  // and the offsets of the first `nr` types are exactly where they now start.
  method Compact(types: array<Word32>, offs: array<nat>, keep: seq<bool>, big: bool) returns (nr: nat, len: nat)
    requires Index(types[..], big, 0) == Some(offs[..]) && |keep| == offs.Length
    modifies types, offs
    ensures nr <= offs.Length && len <= types.Length
    ensures types[..len] == KeptWords(old(types[..]), big, 0, keep)
    ensures Index(types[..len], big, 0) == Some(offs[..nr])
  {
    ghost var was, index := types[..], offs[..];
    ghost var at: nat := 0;
    nr, len := 0, 0;
    StandsAtStart(was, big, index, keep);
    hide Index, KeptWords, RestWords, Stands;
    for i := 0 to offs.Length
      invariant Stands(was, big, index, keep, types[..], offs[..], i, at, nr, len)
    {
      if keep[i] {
        var size := KeepRecord(types, offs, big, i, nr, len, was, index, keep, at);
        nr := nr + 1;
        len := len + size;
        at := at + size;
      } else {
        at := SkipRecord(was, big, index, keep, types[..], offs[..], i, at, nr, len);
      }
    }
    StandsAtEnd(was, big, index, keep, types[..], offs[..], at, nr, len);
  }

  lemma StandsAtEnd(was: seq<Word32>, big: bool, index: seq<nat>, keep: seq<bool>, now: seq<Word32>, offs: seq<nat>,
                    at: nat, nr: nat, len: nat)
    requires Stands(was, big, index, keep, now, offs, |index|, at, nr, len)
    ensures nr <= |offs| && len <= |now| && Index(now[..len], big, 0) == Some(offs[..nr])
    ensures Index(was, big, 0).Some? && |Index(was, big, 0).value| == |keep| &&
            now[..len] == KeptWords(was, big, 0, keep)
  {
  }
}
