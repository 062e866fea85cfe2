/** A reader of FAT32 volumes that knows nothing of the card but its sectors: it starts from the boot sector, follows
    the table that it finds on the volume, and decodes the directories; and the proof that through it every path of
    the host folder gives the host's own names and bytes. */
module FatReader {
  import opened Base
  import opened LittleEndian
  import opened FatDir
  import opened FatVolume
  import opened FatCard

  /** Where the parts of the volume are, as the boot sector says. */
  datatype Geometry = Geometry(clusterSectors: nat, reserved: nat, copies: nat, fatSz: nat, root: nat)

  /** A fresh card that shows the host tree. */
  ghost predicate Serves(card: SdCard, hosts: seq<Host>)
    reads card
  {
    && card.overlay == map[] && Shows(hosts, card.Vol()) && Fits(card.extents) && card.clusters < LAST_MARKS + 1024
    && Packed(card.extents) && card.fatSz > 0
  }

  function GeometryOf(v: Volume): Geometry { Geometry(CLUSTER_SECTORS, RESERVED, 2, v.fatSz, 2) }

  function GetU16(d: seq<byte>, p: nat): nat
    requires p + 2 <= |d|
  {
    (d[p] as int) + 0x100 * (d[p + 1] as int)
  }

  function Decoded(b: seq<byte>): Geometry
    requires |b| == SECTOR
  {
    Geometry(b[13], GetU16(b, 14), b[16], GetU32(b, 36), GetU32(b, 44))
  }

  lemma BootSays(v: Volume)
    requires v.fatSz < 0x1_0000_0000
    ensures Decoded(BootSector(v)) == GeometryOf(v)
  {
    hide PutU32, GetU32, Zeros;
    var b := BootSector(v);
    var g := FatCard.Geometry();
    assert b[..32] == g;
    assert b[13] == g[13] == CLUSTER_SECTORS && b[14] == g[14] == RESERVED && b[15] == g[15] == 0 && b[16] == g[16] == 2;
    assert b[36..40] == PutU32(v.fatSz);
    assert b[44..48] == PutU32(2);
    U32RoundTrip(b, 36, v.fatSz);
    U32RoundTrip(b, 44, 2);
  }

  /** The boot sector, field by field where the FAT specification puts them: the jump, 512 bytes to a sector, 8 sectors to a
      cluster, 32 reserved sectors, 2 tables, no entries and no sectors in the fields of the older formats, the medium,
      the drive's geometry, nothing before the volume, its size, the size of a table, the root's cluster, where the
      information sector and the copy of this one are, and the marks. */
  lemma BootIs(v: Volume)
    requires v.fatSz < 0x1_0000_0000 && Total(v) < 0x1_0000_0000
    ensures var b := BootSector(v);
            && b[0] == 0xEB && b[1] == 0x58 && b[2] == 0x90
            && GetU16(b, 11) == 512 && b[13] == 8 && GetU16(b, 14) == 32 && b[16] == 2
            && GetU16(b, 17) == GetU16(b, 19) == GetU16(b, 22) == 0 && b[21] == 0xF8
            && GetU16(b, 24) == 63 && GetU16(b, 26) == 255 && GetU32(b, 28) == 0
            && GetU32(b, 32) == 32 + 2 * v.fatSz + 8 * v.clusters && GetU32(b, 36) == v.fatSz && GetU32(b, 40) == 0
            && GetU32(b, 44) == 2 && GetU16(b, 48) == 1 && GetU16(b, 50) == 6
            && b[64] == 0x80 && b[65] == 0 && b[66] == 0x29 && GetU32(b, 67) == 0x4B36_3453
            && b[510] == 0x55 && b[511] == 0xAA
            && Says(b, 3, "KESTREL ") && Says(b, 71, "KESTREL SD ") && Says(b, 82, "FAT32   ")
  {
    BootParts(v);
    GeometryIs();
    IdentityIs();
    assert Total(v) == 32 + 2 * v.fatSz + 8 * v.clusters;
    hide PutU32, GetU32, Zeros, FatCard.Geometry, Identity, BootSector, Total;
    var b := BootSector(v);
    SameNumbers(FatCard.Geometry(), 28, b, 28) by { assert b[28..32] == b[..32][28..32]; }
    SameNumbers(Identity(), 3, b, 67) by { assert b[67..71] == b[64..90][3..7]; }
    ZeroNumber(b, 40);
    U32RoundTrip(b, 32, Total(v));
    U32RoundTrip(b, 36, v.fatSz);
    U32RoundTrip(b, 44, 2);
  }

  lemma SameNumbers(a: seq<byte>, p: nat, b: seq<byte>, q: nat)
    requires p + 4 <= |a| && q + 4 <= |b| && a[p..p + 4] == b[q..q + 4]
    ensures GetU32(a, p) == GetU32(b, q)
  {
    var x, y := a[p..p + 4], b[q..q + 4];
    assert a[p] == x[0] == y[0] == b[q] && a[p + 1] == x[1] == y[1] == b[q + 1];
    assert a[p + 2] == x[2] == y[2] == b[q + 2] && a[p + 3] == x[3] == y[3] == b[q + 3];
  }

  lemma ZeroNumber(b: seq<byte>, p: nat)
    requires p + 4 <= |b| && b[p..p + 4] == Zeros(4)
    ensures GetU32(b, p) == 0
  {
    SameNumbers(Zeros(4), 0, b, p) by { assert Zeros(4)[0..4] == Zeros(4); }
  }

  /** The text t stands at p. */
  ghost predicate Says(b: seq<byte>, p: nat, t: string) {
    p + |t| <= |b| && forall k | 0 <= k < |t| :: b[p + k] == t[k] as int
  }

  lemma BootParts(v: Volume)
    ensures var b := BootSector(v);
            && b[..32] == FatCard.Geometry() && b[32..36] == PutU32(Total(v)) && b[36..40] == PutU32(v.fatSz)
            && b[40..44] == Zeros(4) && b[44..48] == PutU32(2) && b[48..52] == [1, 0, 6, 0] && b[64..90] == Identity()
            && b[510] == 0x55 && b[511] == 0xAA
  {
    hide PutU32, Zeros, FatCard.Geometry, Identity, Total;
  }

  lemma GeometryIs()
    ensures var g := FatCard.Geometry();
            && g[0] == 0xEB && g[1] == 0x58 && g[2] == 0x90
            && GetU16(g, 11) == 512 && g[13] == 8 && GetU16(g, 14) == 32 && g[16] == 2
            && GetU16(g, 17) == GetU16(g, 19) == GetU16(g, 22) == 0 && g[21] == 0xF8
            && GetU16(g, 24) == 63 && GetU16(g, 26) == 255 && GetU32(g, 28) == 0 && Says(g, 3, "KESTREL ")
  {
  }

  lemma IdentityIs()
    ensures var d := Identity();
            d[0] == 0x80 && d[1] == 0 && d[2] == 0x29 && GetU32(d, 3) == 0x4B36_3453 && Says(d, 7, "KESTREL SD ") && Says(d, 18, "FAT32   ")
  {
  }

  /** The information sector: its three marks, and both hints unknown. */
  lemma InfoIs()
    ensures var b := InfoSector();
            && GetU32(b, 0) == 0x4161_5252 && GetU32(b, 484) == 0x6141_7272 && GetU32(b, 508) == 0xAA55_0000
            && GetU32(b, 488) == GetU32(b, 492) == 0xFFFF_FFFF
  {
    hide PutU32, GetU32, Zeros;
    var b := InfoSector();
    assert b[0..4] == PutU32(0x4161_5252) && b[484..488] == PutU32(0x6141_7272) && b[508..512] == PutU32(0xAA55_0000);
    assert b[488..492] == PutU32(0xFFFF_FFFF) && b[492..496] == PutU32(0xFFFF_FFFF);
    U32RoundTrip(b, 0, 0x4161_5252);
    U32RoundTrip(b, 484, 0x6141_7272);
    U32RoundTrip(b, 488, 0xFFFF_FFFF);
    U32RoundTrip(b, 492, 0xFFFF_FFFF);
    U32RoundTrip(b, 508, 0xAA55_0000);
  }

  /** Both are where the boot sector says, twice. */
  lemma SpareCopies(v: Volume)
    ensures Sector(v, 0) == Sector(v, 6) == BootSector(v) && Sector(v, 1) == Sector(v, 7) == InfoSector()
  {
    hide BootSector, InfoSector;
  }

  /** Every cluster has its entry in the table, and its sectors are on the card. */
  lemma ClusterIsOnCard(v: Volume, c: nat, s: nat)
    requires v.fatSz == TableSectors(v.clusters) && 2 <= c < v.clusters + 2 && s < CLUSTER_SECTORS
    ensures c < v.fatSz * 128 && RESERVED + c / 128 < DataStart(v) <= Total(v)
    ensures DataStart(v) + (c - 2) * CLUSTER_SECTORS + s < Total(v)
  {
  }

  lemma SomeSectors(v: Volume)
    ensures 0 < Total(v)
  {
  }

  lemma SmallTable(clusters: nat)
    requires clusters < LAST_MARKS + 1024
    ensures TableSectors(clusters) < 0x1_0000_0000
  {
  }

  lemma TableIsLong(card: SdCard, hosts: seq<Host>)
    requires Serves(card, hosts)
    ensures card.fatSz == TableSectors(card.clusters) && TableSectors(card.clusters) < 0x1_0000_0000
  {
    hide NodeShows, Laid, Tree;
    SmallTable(card.clusters);
  }

  method ReadSector(card: SdCard, lba: nat, ghost hosts: seq<Host>) returns (b: seq<byte>)
    requires Serves(card, hosts) && lba < Total(card.Vol())
    ensures b == Sector(card.Vol(), lba)
  {
    hide Shows, Packed, Sector;
    var ok;
    ok, b := card.Read(lba);
  }

  method Mount(card: SdCard, ghost hosts: seq<Host>) returns (g: Geometry)
    requires Serves(card, hosts)
    ensures g == GeometryOf(card.Vol())
  {
    hide Serves, BootSector;
    TableIsLong(card, hosts);
    BootSays(card.Vol());
    SomeSectors(card.Vol());
    var b := ReadSector(card, 0, hosts);
    g := Decoded(b);
  }

  /** The table's entry of a cluster. */
  method NextOf(card: SdCard, g: Geometry, c: nat, ghost hosts: seq<Host>) returns (n: nat)
    requires Serves(card, hosts) && g == GeometryOf(card.Vol()) && 2 <= c < card.clusters + 2
    ensures n == FatEntry(card.extents, c)
  {
    hide Serves, Sector, FatEntry, GetU32, Total;
    EntryOnCard(card, c, hosts);
    var b := ReadSector(card, g.reserved + c / 128, hosts);
    n := GetU32(b, 4 * (c % 128));
  }

  lemma EntryOnCard(card: SdCard, c: nat, hosts: seq<Host>)
    requires Serves(card, hosts) && 2 <= c < card.clusters + 2
    ensures RESERVED + c / 128 < Total(card.Vol())
    ensures GetU32(Sector(card.Vol(), RESERVED + c / 128), 4 * (c % 128)) == FatEntry(card.extents, c)
  {
    var v := card.Vol();
    TableIsLong(card, hosts);
    ClusterIsOnCard(v, c, 0);
    hide Shows, Sector, FatEntry, GetU32, Total, TableSectors;
    TableIsOnDisk(v, c, 0);
    assert TableSector(v, c, 0) == RESERVED + c / 128;
  }

  method ReadCluster(card: SdCard, g: Geometry, c: nat, ghost hosts: seq<Host>) returns (b: seq<byte>)
    requires Serves(card, hosts) && g == GeometryOf(card.Vol()) && 2 <= c < card.clusters + 2
    ensures PartOf(card.Vol(), c, CLUSTER_SECTORS, b)
  {
    hide Serves, Sector, Total, TableSectors, ByteOf, PartOf;
    ghost var v := card.Vol();
    TableIsLong(card, hosts);
    NoPart(v, c);
    b := [];
    for s := 0 to CLUSTER_SECTORS
      invariant PartOf(v, c, s, b)
    {
      ClusterIsOnCard(v, c, s);
      var d := ReadSector(card, g.reserved + g.copies * g.fatSz + (c - 2) * g.clusterSectors + s, hosts);
      OneMorePart(v, c, s, b, d);
      b := b + d;
    }
  }

  /** The first s sectors of a cluster. */
  ghost predicate PartOf(v: Volume, c: nat, s: nat, b: seq<byte>)
    requires c >= 2
  {
    |b| == s * SECTOR && forall q | 0 <= q < s * SECTOR :: b[q] == ByteOf(v, c, q)
  }

  lemma NoPart(v: Volume, c: nat)
    requires c >= 2
    ensures PartOf(v, c, 0, [])
  {
  }

  lemma OneMorePart(v: Volume, c: nat, s: nat, b: seq<byte>, d: seq<byte>)
    requires c >= 2 && PartOf(v, c, s, b) && d == Sector(v, DataStart(v) + (c - 2) * CLUSTER_SECTORS + s)
    ensures PartOf(v, c, s + 1, b + d)
  {
    hide Sector, DataStart;
    forall q | s * SECTOR <= q < (s + 1) * SECTOR ensures (b + d)[q] == ByteOf(v, c, q) {
      assert q / SECTOR == s && q % SECTOR == q - s * SECTOR;
    }
  }

  /** The bytes of `count` clusters from `first` on. */
  function Chain(v: Volume, first: nat, count: nat): seq<byte>
    requires first >= 2
  {
    Along(v, Range(first, count))
  }

  /** Node i has a run of `count` clusters from `first` on. */
  ghost predicate HasRun(card: SdCard, i: nat, first: nat, count: nat)
    reads card
  {
    i < |card.nodes| && card.nodes[i].first == first && card.nodes[i].count == count > 0
  }

  /** Everything along the chain from a node's first cluster. */
  method ReadChain(card: SdCard, g: Geometry, first: nat, ghost hosts: seq<Host>, ghost i: nat, ghost count: nat)
      returns (b: seq<byte>)
    requires Serves(card, hosts) && g == GeometryOf(card.Vol()) && i < |hosts| && HasRun(card, i, first, count)
    ensures first >= 2 && b == Chain(card.Vol(), first, count)
  {
    hide Serves, FatEntry, Chain, PartOf, HasRun;
    ghost var v := card.Vol();
    ghost var x := RunOnCard(card, hosts, i, first, count);
    NoCluster(v, first);
    b := [];
    var c := first;
    ghost var k := 0;
    while true
      invariant k < count && c == first + k && b == Chain(v, first, k)
      decreases count - k
    {
      var d := ReadCluster(card, g, c, hosts);
      OneMoreCluster(v, first, k, d);
      b := b + d;
      var n := NextOf(card, g, c, hosts);
      NextInRun(card, hosts, x, c);
      if n >= LAST_MARKS { return; }
      c := n;
      k := k + 1;
    }
  }

  lemma RunOnCard(card: SdCard, hosts: seq<Host>, i: nat, first: nat, count: nat) returns (x: nat)
    requires Serves(card, hosts) && i < |hosts| && HasRun(card, i, first, count)
    ensures count > 0 && x < |card.extents| && card.extents[x] == Extent(first, count, i)
    ensures 2 <= first && first + count <= card.clusters + 2
  {
    x := RunOf(hosts, card.Vol(), i);
    hide Laid, NodeShows, Tree, Packed;
    PackedOrder(card.extents, x, x);
  }

  lemma NoCluster(v: Volume, first: nat)
    requires first >= 2
    ensures Chain(v, first, 0) == []
  {
  }

  lemma NextInRun(card: SdCard, hosts: seq<Host>, x: nat, c: nat)
    requires Serves(card, hosts) && x < |card.extents| && Holds(card.extents[x], c)
    ensures FatEntry(card.extents, c) ==
            if c + 1 < card.extents[x].first + card.extents[x].count then c + 1 else END_OF_CHAIN
    ensures c + 1 < card.extents[x].first + card.extents[x].count ==> c + 1 < LAST_MARKS
  {
    hide Shows, Packed, FatEntry;
    EntryInside(card.extents, x, c);
    if c + 1 < card.extents[x].first + card.extents[x].count { EntryInside(card.extents, x, c + 1); }
  }

  lemma OneMoreCluster(v: Volume, first: nat, k: nat, d: seq<byte>)
    requires first >= 2 && PartOf(v, first + k, CLUSTER_SECTORS, d)
    ensures Chain(v, first, k + 1) == Chain(v, first, k) + d
  {
    hide ByteOf;
    var all := Chain(v, first, k + 1);
    forall p | 0 <= p < (k + 1) * CLUSTER ensures all[p] == (Chain(v, first, k) + d)[p] {
      if p < k * CLUSTER {
        assert p / CLUSTER < k;
      } else {
        assert p / CLUSTER == k && p % CLUSTER == p - k * CLUSTER;
      }
    }
  }

  // ---- paths ----

  /** What is at the end of a path: a file's bytes or a folder's names. */
  datatype Found = File(bytes: seq<byte>) | Folder(names: seq<Name>)

  /** The node at the end of a path of child numbers from the root, if there is one. */
  ghost function NodeAt(hosts: seq<Host>, path: seq<nat>): (r: Option<nat>)
    requires Tree(hosts)
    ensures r.Some? ==> r.value < |hosts|
    decreases |path|
  {
    if path == [] then Some(0)
    else
      match NodeAt(hosts, path[..|path| - 1])
      case None => None
      case Some(i) =>
        var j := path[|path| - 1];
        if hosts[i].dir && j < |hosts[i].kids| then Some(hosts[i].kids[j]) else None
  }

  /** What the host has there. */
  ghost function HostHas(hosts: seq<Host>, path: seq<nat>): Option<Found>
    requires Tree(hosts)
  {
    match NodeAt(hosts, path)
    case None => None
    case Some(i) => Some(if hosts[i].dir then Folder(hosts[i].names) else File(hosts[i].content))
  }

  /** A directory entry for a node. */
  ghost predicate PointsTo(e: Entry, hosts: seq<Host>, v: Volume, i: nat)
    requires Shows(hosts, v) && i < |hosts|
  {
    e.dir == hosts[i].dir && e.first == v.nodes[i].first && (!e.dir ==> e.size == |hosts[i].content|)
  }

  /** A directory's entries, without the two dots of all but the root. */
  method List(card: SdCard, g: Geometry, first: nat, ghost hosts: seq<Host>, ghost i: nat) returns (es: seq<Entry>)
    requires Serves(card, hosts) && g == GeometryOf(card.Vol())
    requires i < |hosts| && hosts[i].dir && card.nodes[i].first == first
    ensures es == KidEntries(hosts, card.nodes, i, |hosts[i].kids|)
  {
    ghost var v := card.Vol();
    DirHasClusters(hosts, v, i);
    ghost var x := RunOf(hosts, v, i);
    ChainIsRun(v.xs, x, Range(first, v.nodes[i].count));
    DirComesBack(hosts, v, i, Range(first, v.nodes[i].count));
    OnlyRootAtTwo(hosts, v, i);
    hide Serves, ReadDir, IsChain, Along, KidEntries;
    var b := ReadChain(card, g, first, hosts, i, v.nodes[i].count);
    es := ReadDir(b);
    if first != g.root { es := es[2..]; }
  }

  lemma DirHasClusters(hosts: seq<Host>, v: Volume, i: nat)
    requires Shows(hosts, v) && i < |hosts| && hosts[i].dir
    ensures v.nodes[i].count > 0
  {
    hide NodeShows, Packed;
    assert Placed(hosts[i], i, v.nodes[i], v.xs);
  }

  /** No directory but the root begins at cluster 2. */
  lemma OnlyRootAtTwo(hosts: seq<Host>, v: Volume, i: nat)
    requires Shows(hosts, v) && i < |hosts| && v.nodes[i].count > 0
    ensures v.nodes[i].first == 2 <==> i == 0
  {
    RootIsAtTwo(hosts, v);
    var x := RunOf(hosts, v, i);
    var y := RunOf(hosts, v, 0);
    if v.nodes[i].first == 2 {
      if x < y { PackedOrder(v.xs, x, y); }
      if y < x { PackedOrder(v.xs, y, x); }
    }
  }

  lemma KidPointsTo(hosts: seq<Host>, v: Volume, i: nat, j: nat)
    requires Shows(hosts, v) && i < |hosts| && j < |hosts[i].kids|
    ensures var es := KidEntries(hosts, v.nodes, i, |hosts[i].kids|);
            es[j].name == hosts[i].names[j] && PointsTo(es[j], hosts, v, hosts[i].kids[j])
  {
    KidIsFound(hosts, v.nodes, i, |hosts[i].kids|, j);
    var k := hosts[i].kids[j];
    hide NodeShows, Packed, DirSize;
    assert Placed(hosts[k], k, v.nodes[k], v.xs);
  }

  /** The entry at the end of a path. */
  method Open(card: SdCard, g: Geometry, path: seq<nat>, ghost hosts: seq<Host>) returns (r: Option<Entry>)
    requires Serves(card, hosts) && g == GeometryOf(card.Vol())
    ensures r.Some? <==> NodeAt(hosts, path).Some?
    ensures r.Some? ==> PointsTo(r.value, hosts, card.Vol(), NodeAt(hosts, path).value)
  {
    ghost var v := card.Vol();
    RootIsAtTwo(hosts, v);
    hide Shows, Serves, KidEntries;
    var e := Entry(Name([], []), true, g.root, 0);
    ghost var i := 0;
    for k := 0 to |path|
      invariant NodeAt(hosts, path[..k]) == Some(i) && PointsTo(e, hosts, v, i)
    {
      assert path[..k + 1][..k] == path[..k];
      NodesBelow(hosts, path, k + 1);
      if !e.dir { return None; }
      var es := List(card, g, e.first, hosts, i);
      if path[k] >= |es| { return None; }
      KidPointsTo(hosts, v, i, path[k]);
      e := es[path[k]];
      i := hosts[i].kids[path[k]];
    }
    assert path[..|path|] == path;
    r := Some(e);
  }

  /** Where a path leads nowhere, so does every longer one. */
  lemma {:induction false} NodesBelow(hosts: seq<Host>, path: seq<nat>, k: nat)
    requires Tree(hosts) && k <= |path|
    ensures NodeAt(hosts, path[..k]).None? ==> NodeAt(hosts, path).None?
    decreases |path|
  {
    if k == |path| {
      assert path[..k] == path;
    } else {
      var init := path[..|path| - 1];
      assert init[..k] == path[..k];
      NodesBelow(hosts, init, k);
    }
  }

  /** Whatever is at the end of a path. */
  method ReadPath(card: SdCard, path: seq<nat>, ghost hosts: seq<Host>) returns (r: Option<Found>)
    requires Serves(card, hosts)
    ensures r == HostHas(hosts, path)
  {
    ghost var v := card.Vol();
    var g := Mount(card, hosts);
    var e := Open(card, g, path, hosts);
    if e.None? { return None; }
    ghost var i := NodeAt(hosts, path).value;
    if e.value.dir {
      var es := List(card, g, e.value.first, hosts, i);
      var names := NamesOf(es);
      forall j | 0 <= j < |names| ensures names[j] == hosts[i].names[j] { KidPointsTo(hosts, v, i, j); }
      assert names == hosts[i].names;
      return Some(Folder(names));
    }
    var bytes := ReadFile(card, g, e.value, hosts, i);
    r := Some(File(bytes));
  }

  method NamesOf(es: seq<Entry>) returns (names: seq<Name>)
    ensures |names| == |es| && forall j | 0 <= j < |es| :: names[j] == es[j].name
  {
    names := [];
    for j := 0 to |es|
      invariant |names| == j && forall k | 0 <= k < j :: names[k] == es[k].name
    {
      names := names + [es[j].name];
    }
  }

  /** A file's bytes, cut to its size; an empty file has no clusters. */
  method ReadFile(card: SdCard, g: Geometry, e: Entry, ghost hosts: seq<Host>, ghost i: nat) returns (b: seq<byte>)
    requires Serves(card, hosts) && g == GeometryOf(card.Vol())
    requires i < |hosts| && !hosts[i].dir && PointsTo(e, hosts, card.Vol(), i)
    ensures b == hosts[i].content
  {
    if e.size == 0 { return []; }
    ghost var v := card.Vol();
    FileHasClusters(hosts, v, i);
    ghost var x := RunOf(hosts, v, i);
    ChainIsRun(v.xs, x, Range(e.first, v.nodes[i].count));
    FileComesBack(hosts, v, i, Range(e.first, v.nodes[i].count));
    hide Serves, IsChain, Along;
    var all := ReadChain(card, g, e.first, hosts, i, v.nodes[i].count);
    b := all[..e.size];
  }

  lemma FileHasClusters(hosts: seq<Host>, v: Volume, i: nat)
    requires Shows(hosts, v) && i < |hosts| && !hosts[i].dir && |hosts[i].content| > 0
    ensures v.nodes[i].count > 0
  {
    hide NodeShows, Packed;
    assert Placed(hosts[i], i, v.nodes[i], v.xs);
  }

  /** From a host folder to the card and back: for every folder whose clusters FAT32 can number, and every path. */
  method ThereAndBack(hosts: seq<Host>, path: seq<nat>) returns (r: Option<Found>)
    requires Tree(hosts) && Needed(hosts, |hosts|) + 2 <= LAST_MARKS
    ensures r == HostHas(hosts, path)
  {
    var card := new SdCard();
    card.BuildVirtual(hosts);
    assert TableSectors(card.clusters) > 0;
    r := ReadPath(card, path, hosts);
  }
}
