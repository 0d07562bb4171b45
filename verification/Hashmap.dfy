// The growing hash multimap: bucket chains, insertion strategies, growth, search,
// deletion and the iteration over all entries of one key.

module Hashmap {

  const HASHMAP_MIN_CAP_BITS: nat := 2
  const GOLDEN: nat := 11400714819323198485
  // Arrays of more than 2^60 bucket pointers exceed a 64-bit address space.
  const MAX_CAP_BITS: nat := 60

  datatype Entry<K, V> = Entry(key: K, value: V)
  datatype Strategy = Add | Set | Update | Append
  datatype Outcome = Done | Eexist | Enoent | Enomem
  datatype Option<T> = None | Some(value: T)

  function Pow2(n: nat): (r: nat)
    ensures r >= 1
  {
    if n == 0 then 1 else 2 * Pow2(n - 1)
  }

  lemma {:induction false} Pow2Sum(a: nat, b: nat)
    ensures Pow2(a + b) == Pow2(a) * Pow2(b)
  {
    if a > 0 {
      Pow2Sum(a - 1, b);
    }
  }

  lemma {:induction false} Pow2Monotone(a: nat, b: nat)
    requires a <= b
    ensures Pow2(a) <= Pow2(b)
    decreases b
  {
    if a < b {
      Pow2Monotone(a, b - 1);
    }
  }

  lemma LargestCap()
    ensures Pow2(MAX_CAP_BITS) >= 0x1_0000_0000
  {
    assert Pow2(4) == 16;
    hide Pow2;
    Pow2Sum(4, 4);
    Pow2Sum(8, 8);
    Pow2Sum(16, 16);
    Pow2Monotone(32, 60);
  }

  // Multiplicative hashing: the upper `bits` bits of a 64-bit product.
  function HashBits(h: nat, bits: nat): (r: nat)
    requires bits <= 64
    ensures r < Pow2(bits)
  {
    hide Pow2;
    if bits == 0 then 0 else
    UpperBitsBelow(Wrapped(h), bits);
    Wrapped(h) / Pow2(64 - bits)
  }

  function Wrapped(h: nat): (r: nat)
    ensures r < Pow2(64)
  {
    (h * GOLDEN) % Pow2(64)
  }

  lemma UpperBitsBelow(x: nat, bits: nat)
    requires bits <= 64 && x < Pow2(64)
    ensures x / Pow2(64 - bits) < Pow2(bits)
  {
    Pow2Sum(64 - bits, bits);
    QuotientBelow(x, Pow2(64 - bits), Pow2(bits));
  }

  lemma QuotientBelow(x: nat, low: nat, high: nat)
    requires low > 0 && x < low * high
    ensures x / low < high
  {
    var q := x / low;
    assert x == low * q + x % low;
    if q >= high {
      MulMonotone(low, high, q);
      assert false;
    }
  }

  lemma MulMonotone(low: nat, a: nat, b: nat)
    requires a <= b
    ensures low * a <= low * b
  {
  }

  // All entries of a bucket array.
  function Flat<T>(bs: seq<seq<T>>): multiset<T> {
    if bs == [] then multiset{} else multiset(bs[0]) + Flat(bs[1..])
  }

  lemma {:induction false} FlatUpdate<T>(bs: seq<seq<T>>, b: nat, chain: seq<T>)
    requires b < |bs|
    ensures multiset(bs[b]) <= Flat(bs)
    ensures Flat(bs[b := chain]) == Flat(bs) - multiset(bs[b]) + multiset(chain)
  {
    var us := bs[b := chain];
    if b == 0 {
      assert us[1..] == bs[1..];
    } else {
      FlatUpdate(bs[1..], b - 1, chain);
      assert us[1..] == bs[1..][b - 1 := chain];
    }
  }

  lemma FlatHead<T>(bs: seq<seq<T>>)
    requires bs != []
    ensures Flat(bs) == multiset(bs[0]) + Flat(bs[1..])
  {
  }

  lemma FlatNothing<T>()
    ensures Flat<T>([]) == multiset{}
  {
  }

  lemma {:induction false} FlatExtend<T>(bs: seq<seq<T>>, i: nat)
    requires i < |bs|
    ensures Flat(bs[..i + 1]) == Flat(bs[..i]) + multiset(bs[i])
  {
    hide Flat;
    FlatHead(bs[..i + 1]);
    if i == 0 {
      assert bs[..1][1..] == [] && bs[..0] == [];
      FlatNothing<T>();
    } else {
      FlatExtend(bs[1..], i - 1);
      FlatHead(bs[..i]);
      assert bs[..i + 1][1..] == bs[1..][..i] && bs[..i][1..] == bs[1..][..i - 1];
    }
  }

  // An entry found in one bucket only is counted there.
  lemma {:induction false} FlatCount<T>(bs: seq<seq<T>>, h: nat, e: T)
    requires h < |bs|
    requires forall b :: 0 <= b < |bs| && b != h ==> e !in bs[b]
    ensures Flat(bs)[e] == multiset(bs[h])[e]
  {
    if h == 0 {
      FlatAbsent(bs[1..], e);
    } else {
      assert e !in bs[0];
      FlatCount(bs[1..], h - 1, e);
    }
  }

  lemma {:induction false} FlatAbsent<T>(bs: seq<seq<T>>, e: T)
    requires forall b :: 0 <= b < |bs| ==> e !in bs[b]
    ensures e !in Flat(bs)
  {
    if bs != [] {
      assert e !in bs[0];
      FlatAbsent(bs[1..], e);
    }
  }

  lemma {:induction false} FlatEmpty<T>(bs: seq<seq<T>>)
    requires forall b :: 0 <= b < |bs| ==> bs[b] == []
    ensures Flat(bs) == multiset{}
  {
    if bs != [] {
      FlatEmpty(bs[1..]);
    }
  }

  // The chain elements that match, in chain order.
  function Select<T>(s: seq<T>, p: T -> bool): seq<T> {
    if s == [] then [] else
    Select(s[..|s| - 1], p) + (if p(s[|s| - 1]) then [s[|s| - 1]] else [])
  }

  lemma {:induction false} SelectCount<T>(s: seq<T>, p: T -> bool, e: T)
    ensures multiset(Select(s, p))[e] == if p(e) then multiset(s)[e] else 0
  {
    if s != [] {
      SelectCount(s[..|s| - 1], p, e);
      assert s == s[..|s| - 1] + [s[|s| - 1]];
    }
  }

  class Hashmap<K(!new, ==), V(!new, ==)> {
    const hashFn: K -> nat
    const equalFn: (K, K) -> bool
    var buckets: seq<seq<Entry<K, V>>>
    var cap: nat
    var capBits: nat
    var sz: nat

    // What the callbacks owe the map: equal keys hash equally.
    ghost predicate KeysOk() {
      forall a, b :: equalFn(a, b) ==> hashFn(a) == hashFn(b)
    }

    // Every entry sits in the bucket that its hash selects.
    ghost predicate InPlace(bs: seq<seq<Entry<K, V>>>, bits: nat) {
      bits <= 64 &&
      forall b, i :: 0 <= b < |bs| && 0 <= i < |bs[b]| ==> HashBits(hashFn(bs[b][i].key), bits) == b
    }

    ghost predicate Valid()
      reads this
    {
      |buckets| == cap &&
      (cap == 0 ==> capBits == 0) &&
      (cap != 0 ==> HASHMAP_MIN_CAP_BITS <= capBits <= MAX_CAP_BITS && cap == Pow2(capBits)) &&
      InPlace(buckets, capBits) &&
      sz == |Flat(buckets)| &&
      sz * 4 / 3 <= cap
    }

    // The abstract value of the map: the multiset of its entries.
    ghost function Entries(): multiset<Entry<K, V>>
      reads this
    {
      Flat(buckets)
    }

    ghost predicate HasKey(key: K)
      reads this
    {
      exists e :: e in Entries() && equalFn(e.key, key)
    }

    constructor (hashFn: K -> nat, equalFn: (K, K) -> bool)
      ensures this.hashFn == hashFn && this.equalFn == equalFn
      ensures Valid() && Entries() == multiset{}
    {
      this.hashFn := hashFn;
      this.equalFn := equalFn;
      buckets := [];
      cap, capBits, sz := 0, 0, 0;
    }

    lemma PushEntry(bs: seq<seq<Entry<K, V>>>, bits: nat, e: Entry<K, V>)
      requires InPlace(bs, bits) && |bs| == Pow2(bits)
      ensures var h := HashBits(hashFn(e.key), bits);
              var us := bs[h := [e] + bs[h]];
              InPlace(us, bits) && Flat(us) == Flat(bs) + multiset{e} && |Flat(us)| == |Flat(bs)| + 1
    {
      hide Pow2, Flat;
      var h := HashBits(hashFn(e.key), bits);
      hide HashBits;
      FlatUpdate(bs, h, [e] + bs[h]);
    }

    lemma ReplaceEntry(bs: seq<seq<Entry<K, V>>>, bits: nat, h: nat, at: nat, e: Entry<K, V>)
      requires InPlace(bs, bits) && h < |bs| && at < |bs[h]|
      requires hashFn(bs[h][at].key) == hashFn(e.key)
      ensures var us := bs[h := bs[h][at := e]];
              InPlace(us, bits) && Flat(us) == Flat(bs) - multiset{bs[h][at]} + multiset{e} &&
              |Flat(us)| == |Flat(bs)|
    {
      hide HashBits, Flat;
      FlatUpdate(bs, h, bs[h][at := e]);
      assert multiset(bs[h][at := e]) == multiset(bs[h]) - multiset{bs[h][at]} + multiset{e};
    }

    lemma DropEntry(bs: seq<seq<Entry<K, V>>>, bits: nat, h: nat, at: nat)
      requires InPlace(bs, bits) && h < |bs| && at < |bs[h]|
      ensures var us := bs[h := bs[h][..at] + bs[h][at + 1..]];
              InPlace(us, bits) && Flat(us) == Flat(bs) - multiset{bs[h][at]} &&
              |Flat(us)| == |Flat(bs)| - 1
    {
      hide HashBits, Flat;
      var chain := bs[h];
      assert chain == chain[..at] + [chain[at]] + chain[at + 1..];
      FlatUpdate(bs, h, chain[..at] + chain[at + 1..]);
    }

    method NeedsToGrow() returns (r: bool)
      requires Valid()
      ensures !r <==> cap != 0 && (sz + 1) * 4 / 3 <= cap
    {
      return cap == 0 || (sz + 1) * 4 / 3 > cap;
    }

    // A map of at most 2^31 entries can always grow.
    lemma HasRoom()
      requires Valid() && sz <= 0x8000_0000
      ensures !(capBits == MAX_CAP_BITS && (sz + 1) * 4 / 3 > cap)
    {
      LargestCap();
    }

    lemma SizeIsCount()
      requires Valid()
      ensures sz == |Entries()|
    {
    }

    lemma GrownCap(newBits: nat)
      requires Valid() && (cap == 0 || (sz + 1) * 4 / 3 > cap)
      requires newBits == if capBits == 0 then 2 else capBits + 1
      ensures Pow2(newBits) > cap && (sz + 1) * 4 / 3 <= Pow2(newBits)
    {
      assert Pow2(2) == 4;
      Pow2Monotone(2, newBits);
    }

    // Relinks every entry into twice the number of buckets, unless no such array can exist.
    method Grow() returns (ok: bool)
      requires Valid() && (cap == 0 || (sz + 1) * 4 / 3 > cap)
      modifies this
      ensures Valid() && Entries() == old(Entries()) && sz == old(sz)
      ensures ok <==> old(capBits) < MAX_CAP_BITS
      ensures if ok then cap > old(cap) && (sz + 1) * 4 / 3 <= cap else cap == old(cap)
    {
      hide HashBits, Pow2, Flat;
      var newCapBits := capBits + 1;
      if newCapBits < HASHMAP_MIN_CAP_BITS {
        newCapBits := HASHMAP_MIN_CAP_BITS;
      }
      if newCapBits > MAX_CAP_BITS {
        return false;
      }
      var newCap := Pow2(newCapBits);
      GrownCap(newCapBits);
      var newBuckets: seq<seq<Entry<K, V>>> := seq(newCap, i => []);
      FlatEmpty(newBuckets);
      FlatEmpty(buckets[..0]);
      for bkt := 0 to cap
        invariant unchanged(this)
        invariant |newBuckets| == newCap && InPlace(newBuckets, newCapBits)
        invariant Flat(newBuckets) == Flat(buckets[..bkt])
      {
        var chain := buckets[bkt];
        for i := 0 to |chain|
          invariant unchanged(this)
          invariant |newBuckets| == newCap && InPlace(newBuckets, newCapBits)
          invariant Flat(newBuckets) == Flat(buckets[..bkt]) + multiset(chain[..i])
        {
          var cur := chain[i];
          var h := HashBits(hashFn(cur.key), newCapBits);
          PushEntry(newBuckets, newCapBits, cur);
          newBuckets := newBuckets[h := [cur] + newBuckets[h]];
          assert chain[..i + 1] == chain[..i] + [cur];
        }
        assert chain[..|chain|] == chain;
        FlatExtend(buckets, bkt);
      }
      assert buckets[..cap] == buckets;
      cap, capBits, buckets := newCap, newCapBits, newBuckets;
      ok := true;
    }

    // The first entry of bucket `hash` with an equal key.
    method FindEntry(key: K, hash: nat) returns (found: bool, at: nat)
      requires Valid() && KeysOk() && hash == HashBits(hashFn(key), capBits)
      ensures found ==> cap != 0 && hash < cap && at < |buckets[hash]| && equalFn(buckets[hash][at].key, key)
      ensures found <==> HasKey(key)
      ensures found ==> forall j :: 0 <= j < at ==> !equalFn(buckets[hash][j].key, key)
    {
      found, at := false, 0;
      if cap == 0 {
        return;
      }
      while at < |buckets[hash]|
        invariant at <= |buckets[hash]|
        invariant forall j :: 0 <= j < at ==> !equalFn(buckets[hash][j].key, key)
      {
        if equalFn(buckets[hash][at].key, key) {
          EntryInBucket(hash, at);
          return true, at;
        }
        at := at + 1;
      }
      forall e | e in Entries() ensures !equalFn(e.key, key) {
        if equalFn(e.key, key) {
          BucketHolds(e);
        }
      }
    }

    lemma EntryInBucket(b: nat, i: nat)
      requires b < |buckets| && i < |buckets[b]|
      ensures buckets[b][i] in Entries()
    {
      FlatUpdate(buckets, b, []);
      assert buckets[b][i] in multiset(buckets[b]);
    }

    // All copies of an entry sit in the one bucket its hash selects.
    lemma BucketHolds(e: Entry<K, V>)
      requires Valid() && cap != 0
      ensures Entries()[e] == multiset(buckets[HashBits(hashFn(e.key), capBits)])[e]
    {
      FlatCount(buckets, HashBits(hashFn(e.key), capBits), e);
    }

    // Adds an entry at the head of its chain, growing the map first if it is too full.
    method AddEntry(key: K, value: V) returns (ok: bool)
      requires Valid()
      modifies this
      ensures Valid()
      ensures Entries() == if ok then old(Entries()) + multiset{Entry(key, value)} else old(Entries())
      ensures !ok <==> old(capBits == MAX_CAP_BITS && (sz + 1) * 4 / 3 > cap)
    {
      hide HashBits, Pow2, Flat;
      var grow := NeedsToGrow();
      if grow {
        ok := Grow();
        if !ok {
          return;
        }
      }
      var h := HashBits(hashFn(key), capBits);
      PushEntry(buckets, capBits, Entry(key, value));
      buckets := buckets[h := [Entry(key, value)] + buckets[h]];
      sz := sz + 1;
      ok := true;
    }

    // Inserts by strategy. A replaced or blocking entry is handed back.
    method Insert(key: K, value: V, strategy: Strategy) returns (r: Outcome, prior: Option<Entry<K, V>>)
      requires Valid() && KeysOk()
      modifies this
      ensures Valid()
      ensures prior.Some? <==> strategy != Append && old(HasKey(key))
      ensures prior.Some? ==> prior.value in old(Entries()) && equalFn(prior.value.key, key)
      ensures r == if prior.Some? && strategy == Add then Eexist
                   else if prior.None? && strategy == Update then Enoent
                   else if prior.None? && old(capBits == MAX_CAP_BITS && (sz + 1) * 4 / 3 > cap) then Enomem
                   else Done
      ensures Entries() == if r != Done then old(Entries())
                           else if prior.Some? then old(Entries()) - multiset{prior.value} + multiset{Entry(key, value)}
                           else old(Entries()) + multiset{Entry(key, value)}
    {
      hide HashBits, Pow2, Flat;
      prior := None;
      var h := HashBits(hashFn(key), capBits);
      if strategy != Append {
        var found, at := FindEntry(key, h);
        if found {
          var chain := buckets[h];
          EntryInBucket(h, at);
          prior := Some(chain[at]);
          if strategy == Set || strategy == Update {
            ReplaceEntry(buckets, capBits, h, at, Entry(key, value));
            buckets := buckets[h := chain[at := Entry(key, value)]];
            return Done, prior;
          } else {
            return Eexist, prior;
          }
        }
      }
      if strategy == Update {
        return Enoent, prior;
      }
      var ok := AddEntry(key, value);
      r := if ok then Done else Enomem;
    }

    method Find(key: K) returns (found: bool, value: Option<V>)
      requires Valid() && KeysOk()
      ensures found == value.Some?
      ensures found <==> HasKey(key)
      ensures found ==> exists k :: Entry(k, value.value) in Entries() && equalFn(k, key)
    {
      var h := HashBits(hashFn(key), capBits);
      var at;
      found, at := FindEntry(key, h);
      if !found {
        return false, None;
      }
      EntryInBucket(h, at);
      assert buckets[h][at] == Entry(buckets[h][at].key, buckets[h][at].value);
      return true, Some(buckets[h][at].value);
    }

    method Delete(key: K) returns (found: bool, prior: Option<Entry<K, V>>)
      requires Valid() && KeysOk()
      modifies this
      ensures Valid() && found == prior.Some?
      ensures found <==> old(HasKey(key))
      ensures found ==> prior.value in old(Entries()) && equalFn(prior.value.key, key)
      ensures Entries() == if found then old(Entries()) - multiset{prior.value} else old(Entries())
    {
      hide HashBits, Pow2, Flat;
      var h := HashBits(hashFn(key), capBits);
      var at;
      found, at := FindEntry(key, h);
      if !found {
        return false, None;
      }
      var chain := buckets[h];
      EntryInBucket(h, at);
      prior := Some(chain[at]);
      DropEntry(buckets, capBits, h, at);
      buckets := buckets[h := chain[..at] + chain[at + 1..]];
      sz := sz - 1;
    }

    // The entries visited when iterating over one key, in chain order.
    method KeyEntries(key: K) returns (r: seq<Entry<K, V>>)
      requires Valid() && KeysOk()
      ensures forall e :: multiset(r)[e] == if equalFn(e.key, key) then Entries()[e] else 0
    {
      r := [];
      if cap == 0 {
        return;
      }
      var h := HashBits(hashFn(key), capBits);
      var chain := buckets[h];
      ghost var p := (e: Entry<K, V>) => equalFn(e.key, key);
      for i := 0 to |chain|
        invariant r == Select(chain[..i], p)
      {
        assert chain[..i + 1][..i] == chain[..i];
        if equalFn(chain[i].key, key) {
          r := r + [chain[i]];
        }
      }
      assert chain[..|chain|] == chain;
      forall e ensures multiset(r)[e] == if equalFn(e.key, key) then Entries()[e] else 0 {
        SelectCount(chain, p, e);
        BucketHolds(e);
      }
    }
  }
}
