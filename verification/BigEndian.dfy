// Numbers written with their most significant byte first, as the server reads them from datagrams.

module BigEndian {
  import opened Checksum

  type Data = seq<Byte>

  function Number(data: Data): nat {
    if data == [] then 0 else 256 * Number(data[..|data| - 1]) + data[|data| - 1]
  }

  // 256 to the power n.
  function Power(n: nat): nat {
    if n == 0 then 1 else 256 * Power(n - 1)
  }

  lemma OneByte(b: Byte)
    ensures Number([b]) == b
  {
    assert [b][..0] == [];
  }

  // The bytes in front count for as many powers of 256 as there are bytes behind them.
  lemma {:induction false} InFront(xs: Data, ys: Data)
    ensures Number(xs + ys) == Number(xs) * Power(|ys|) + Number(ys)
    decreases |ys|
  {
    if ys == [] {
      assert xs + ys == xs;
    } else {
      var n := |ys| - 1;
      InFront(xs, ys[..n]);
      assert (xs + ys)[..|xs + ys| - 1] == xs + ys[..n];
      var p := Power(n);
      assert Number(xs) * (256 * p) == 256 * (Number(xs) * p);
    }
  }

  lemma {:induction false} Below(data: Data)
    ensures Number(data) < Power(|data|)
    decreases |data|
  {
    if data != [] {
      Below(data[..|data| - 1]);
    }
  }

  // Of two numbers of one length, the one that is larger in the first byte in which they differ is larger.
  lemma FirstDifference(xs: Data, ys: Data, k: nat)
    requires |xs| == |ys| && k < |xs| && xs[..k] == ys[..k] && xs[k] < ys[k]
    ensures Number(xs) < Number(ys)
  {
    var p := Power(|xs| - k - 1);
    SplitAt(xs, k);
    SplitAt(ys, k);
    Below(xs[k + 1..]);
    Snoc(xs, k);
    Snoc(ys, k);
    hide Number, Power;
    Monotone(Number(xs[..k + 1]) + 1, Number(ys[..k + 1]), p);
  }

  lemma SplitAt(xs: Data, k: nat)
    requires k < |xs|
    ensures Number(xs) == Number(xs[..k + 1]) * Power(|xs| - k - 1) + Number(xs[k + 1..])
  {
    InFront(xs[..k + 1], xs[k + 1..]);
    hide Number, Power;
    assert xs == xs[..k + 1] + xs[k + 1..];
  }

  lemma Snoc(xs: Data, k: nat)
    requires k < |xs|
    ensures Number(xs[..k + 1]) == Number(xs[..k]) * 256 + xs[k]
  {
    assert xs[..k + 1][..k] == xs[..k];
  }

  lemma Monotone(a: nat, b: nat, p: nat)
    requires a <= b
    ensures a * p <= b * p
  {
  }
}
