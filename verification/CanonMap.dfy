// The canonical map of deduplication: every id points to an id it was merged into,
// to itself, or carries a marker. Following it always ends.

module CanonMap {

  const BTF_MAX_NR_TYPES: nat := 0x7fff_ffff
  const BTF_UNPROCESSED_ID: nat := 0xffff_ffff
  const BTF_IN_PROGRESS_ID: nat := 0xffff_fffe

  predicate Mapped(m: seq<nat>, i: nat)
    requires i < |m|
  {
    m[i] <= BTF_MAX_NR_TYPES
  }

  // An id that the map does not send elsewhere.
  predicate IsRoot(m: seq<nat>, i: nat)
    requires i < |m|
  {
    !Mapped(m, i) || m[i] == i
  }

  // `rank` drops along every edge of the map, so the map has no cycle but self-loops.
  ghost predicate Forest(m: seq<nat>, rank: seq<nat>) {
    |rank| == |m| &&
    forall i :: 0 <= i < |m| && Mapped(m, i) ==> m[i] < |m| && (m[i] != i ==> rank[m[i]] < rank[i])
  }

  ghost function Root(m: seq<nat>, rank: seq<nat>, i: nat): (r: nat)
    requires Forest(m, rank) && i < |m|
    ensures r < |m| && IsRoot(m, r)
    decreases rank[i]
  {
    if IsRoot(m, i) then i else Root(m, rank, m[i])
  }

  lemma {:induction false} RootIgnoresRank(m: seq<nat>, rank: seq<nat>, other: seq<nat>, i: nat)
    requires Forest(m, rank) && Forest(m, other) && i < |m|
    ensures Root(m, rank, i) == Root(m, other, i)
    decreases rank[i]
  {
    if !IsRoot(m, i) {
      RootIgnoresRank(m, rank, other, m[i]);
    }
  }

  // Pointing any id at a root other than itself keeps the map a forest.
  lemma PointToRoot(m: seq<nat>, rank: seq<nat>, r: nat, s: nat) returns (rank': seq<nat>)
    requires Forest(m, rank) && r < |m| && s < |m| && r != s && IsRoot(m, s)
    requires |m| <= BTF_MAX_NR_TYPES + 1
    ensures Forest(m[r := s], rank')
  {
    rank' := seq(|m|, x requires 0 <= x < |m| => if x == s then 0 else rank[x] + 1);
  }

  // Pointing a root at any id of another tree keeps the map a forest.
  lemma PointRoot(m: seq<nat>, rank: seq<nat>, r: nat, s: nat) returns (rank': seq<nat>)
    requires Forest(m, rank) && r < |m| && s < |m| && IsRoot(m, r) && Root(m, rank, s) != r
    requires |m| <= BTF_MAX_NR_TYPES + 1
    ensures Forest(m[r := s], rank')
  {
    rank' := seq(|m|, x requires 0 <= x < |m| =>
      if Root(m, rank, x) == r then rank[x] + rank[s] + 1 else rank[x]);
    var m' := m[r := s];
    forall i | 0 <= i < |m'| && Mapped(m', i)
      ensures m'[i] < |m'| && (m'[i] != i ==> rank'[m'[i]] < rank'[i])
    {
      if i != r && m[i] != i {
        assert Root(m, rank, i) == Root(m, rank, m[i]);
      }
    }
  }
}
