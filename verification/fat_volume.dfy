/** A host folder seen as a FAT32 volume: every node has one run of clusters, and the sectors of the volume are made up
    when they are read. */
module FatVolume {
  import opened Base
  import opened LittleEndian

  const SECTOR := 512
  const CLUSTER_SECTORS := 8
  const CLUSTER := 4096
  const RESERVED := 32
  const MIN_CLUSTERS := 65589
  const END_OF_CHAIN := 0x0FFF_FFFF
  const LAST_MARKS := 0x0FFF_FFF8   // from here on an entry ends a chain

  // ---- runs of clusters ----

  datatype Extent = Extent(first: nat, count: nat, node: nat)

  function EndOf(xs: seq<Extent>): nat {
    if xs == [] then 2 else xs[|xs| - 1].first + xs[|xs| - 1].count
  }

  /** The runs follow one another from cluster 2 on, none of them empty. */
  ghost predicate Packed(xs: seq<Extent>)
    decreases |xs|
  {
    xs == [] ||
    var init, x := xs[..|xs| - 1], xs[|xs| - 1];
    Packed(init) && x.first == EndOf(init) && x.count > 0
  }

  predicate Holds(x: Extent, c: nat) { x.first <= c < x.first + x.count }

  lemma {:induction false} PackedOrder(xs: seq<Extent>, i: nat, j: nat)
    requires Packed(xs) && i <= j < |xs|
    ensures 2 <= xs[i].first && xs[j].first + xs[j].count <= EndOf(xs) && xs[i].count > 0
    ensures i < j ==> xs[i].first + xs[i].count <= xs[j].first
    decreases |xs|
  {
    var n := |xs| - 1;
    if j < n {
      PackedOrder(xs[..n], i, j);
    } else if i < n {
      PackedOrder(xs[..n], i, n - 1);
    } else if n > 0 {
      PackedOrder(xs[..n], n - 1, n - 1);
    }
  }

  /** The run that holds a cluster, if one does. */
  function Owner(xs: seq<Extent>, c: nat): (r: Option<Extent>)
    ensures r.Some? ==> r.value in xs && Holds(r.value, c)
    decreases |xs|
  {
    if xs == [] then None
    else if Holds(xs[|xs| - 1], c) then Some(xs[|xs| - 1])
    else Owner(xs[..|xs| - 1], c)
  }

  lemma {:induction false} OwnerIs(xs: seq<Extent>, c: nat, i: nat)
    requires Packed(xs) && i < |xs| && Holds(xs[i], c)
    ensures Owner(xs, c) == Some(xs[i])
    decreases |xs|
  {
    var n := |xs| - 1;
    if i < n {
      PackedOrder(xs, i, n);
      OwnerIs(xs[..n], c, i);
    }
  }

  lemma {:induction false} NoOwner(xs: seq<Extent>, c: nat)
    requires forall i | 0 <= i < |xs| :: !Holds(xs[i], c)
    ensures Owner(xs, c) == None
    decreases |xs|
  {
    if xs != [] { NoOwner(xs[..|xs| - 1], c); }
  }

  /** findExtent: the last run that begins no later, by halving. */
  method FindExtent(xs: seq<Extent>, c: nat) returns (r: Option<Extent>)
    requires Packed(xs)
    ensures r == Owner(xs, c)
  {
    var lo, hi := 0, |xs|;
    while lo < hi
      invariant lo <= hi <= |xs|
      invariant lo > 0 ==> xs[lo - 1].first <= c
      invariant hi < |xs| ==> c < xs[hi].first
    {
      var mid := (lo + hi) / 2;
      if c < xs[mid].first { hi := mid; } else { lo := mid + 1; }
    }
    if lo > 0 && c < xs[lo - 1].first + xs[lo - 1].count {
      OwnerIs(xs, c, lo - 1);
      return Some(xs[lo - 1]);
    }
    Outside(xs, c, lo);
    return None;
  }

  lemma Outside(xs: seq<Extent>, c: nat, lo: nat)
    requires Packed(xs) && lo <= |xs| && (lo < |xs| ==> c < xs[lo].first)
    requires lo > 0 ==> c >= xs[lo - 1].first + xs[lo - 1].count
    ensures Owner(xs, c) == None
  {
    forall i | 0 <= i < |xs| ensures !Holds(xs[i], c) {
      if i < lo { PackedOrder(xs, i, lo - 1); } else { PackedOrder(xs, lo, i); }
    }
    NoOwner(xs, c);
  }

  // ---- the allocation table ----

  function FatEntry(xs: seq<Extent>, e: nat): nat {
    if e == 0 then 0x0FFF_FFF8
    else if e == 1 then 0x0FFF_FFFF
    else
      match Owner(xs, e)
      case None => 0
      case Some(x) => if e + 1 < x.first + x.count then e + 1 else END_OF_CHAIN
  }

  /** Following the table from cluster to cluster, to a mark that ends the chain. */
  ghost predicate IsChain(xs: seq<Extent>, cs: seq<nat>) {
    && cs != [] && FatEntry(xs, cs[|cs| - 1]) >= LAST_MARKS
    && forall i | 0 <= i < |cs| - 1 :: FatEntry(xs, cs[i]) < LAST_MARKS && cs[i + 1] == FatEntry(xs, cs[i])
  }

  function Range(first: nat, count: nat): (cs: seq<nat>)
    ensures |cs| == count
  {
    seq(count, i requires 0 <= i => first + i)
  }

  /** The cluster numbers stay below the marks. */
  ghost predicate Fits(xs: seq<Extent>) { EndOf(xs) <= LAST_MARKS }

  /** Entry 0 holds the medium, entry 1 the mark of a chain's end. */
  lemma ReservedEntries(xs: seq<Extent>)
    ensures FatEntry(xs, 0) == 0x0FFF_FF00 + 0xF8 && FatEntry(xs, 1) == 0x1000_0000 - 1
  {
  }

  lemma EntryInside(xs: seq<Extent>, i: nat, c: nat)
    requires Packed(xs) && Fits(xs) && i < |xs| && Holds(xs[i], c)
    ensures 2 <= c < 0x0FFF_FFF8
    ensures FatEntry(xs, c) == if c + 1 < xs[i].first + xs[i].count then c + 1 else 0x0FFF_FFFF
  {
    PackedOrder(xs, i, i);
    OwnerIs(xs, c, i);
  }

  /** From the first cluster of a run, the table leads through exactly that run, in order, and ends; there is no other
      chain from there. */
  lemma ChainIsRun(xs: seq<Extent>, i: nat, cs: seq<nat>)
    requires Packed(xs) && Fits(xs) && i < |xs|
    ensures cs != [] && cs[0] == xs[i].first && IsChain(xs, cs) <==> cs == Range(xs[i].first, xs[i].count)
  {
    PackedOrder(xs, i, i);
    if cs == Range(xs[i].first, xs[i].count) {
      RunIsChain(xs, i);
    } else if cs != [] && cs[0] == xs[i].first && IsChain(xs, cs) {
      ChainSteps(xs, i, cs, |cs| - 1);
    }
  }

  lemma RunIsChain(xs: seq<Extent>, i: nat)
    requires Packed(xs) && Fits(xs) && i < |xs|
    ensures IsChain(xs, Range(xs[i].first, xs[i].count))
  {
    hide FatEntry;
    var x, cs := xs[i], Range(xs[i].first, xs[i].count);
    PackedOrder(xs, i, i);
    EntryInside(xs, i, x.first + x.count - 1);
    forall k | 0 <= k < |cs| - 1 ensures FatEntry(xs, cs[k]) < LAST_MARKS && cs[k + 1] == FatEntry(xs, cs[k]) {
      EntryInside(xs, i, cs[k]);
      EntryInside(xs, i, cs[k + 1]);
    }
  }

  lemma {:induction false} ChainSteps(xs: seq<Extent>, i: nat, cs: seq<nat>, k: nat)
    requires Packed(xs) && Fits(xs) && i < |xs| && IsChain(xs, cs) && cs[0] == xs[i].first && k < |cs|
    ensures forall j | 0 <= j <= k :: cs[j] == xs[i].first + j
    ensures k < xs[i].count && (k == |cs| - 1 ==> k + 1 == xs[i].count)
    decreases k
  {
    hide FatEntry;
    PackedOrder(xs, i, i);
    if k > 0 {
      ChainSteps(xs, i, cs, k - 1);
      EntryInside(xs, i, cs[k - 1]);
    }
    EntryInside(xs, i, cs[k]);
  }

  /** No cluster is on two chains. */
  lemma RunsAreDisjoint(xs: seq<Extent>, i: nat, j: nat, c: nat)
    requires Packed(xs) && i < j < |xs|
    ensures !(Holds(xs[i], c) && Holds(xs[j], c))
  {
    PackedOrder(xs, i, j);
  }

  /** A cluster reads as free exactly when it is on none. */
  lemma FreeIsUnowned(xs: seq<Extent>, c: nat)
    requires c >= 2
    ensures FatEntry(xs, c) == 0 <==> forall i | 0 <= i < |xs| :: !Holds(xs[i], c)
  {
    if forall i | 0 <= i < |xs| :: !Holds(xs[i], c) {
      NoOwner(xs, c);
    } else {
      var i :| 0 <= i < |xs| && Holds(xs[i], c);
      OwnedIsFound(xs, c, i);
    }
  }

  lemma {:induction false} OwnedIsFound(xs: seq<Extent>, c: nat, i: nat)
    requires i < |xs| && Holds(xs[i], c)
    ensures Owner(xs, c).Some?
    decreases |xs|
  {
    if i < |xs| - 1 { OwnedIsFound(xs[..|xs| - 1], c, i); }
  }
}
