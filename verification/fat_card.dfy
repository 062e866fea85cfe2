/** The card: a host folder laid out as a FAT32 volume, sectors made up on reading, and writes kept apart. */
module FatCard {
  import opened Base
  import opened LittleEndian
  import opened FatDir
  import opened FatVolume

  /** A node of the host tree: a directory with its children and their names, or a file. The root is node 0. */
  datatype Host = Host(dir: bool, content: seq<byte>, kids: seq<nat>, names: seq<Name>, parent: nat)

  /** A node of the volume: its run of clusters and, for a directory, its entries as bytes. */
  datatype Node = Node(dir: bool, size: nat, first: nat, count: nat, data: seq<byte>)

  ghost predicate ProperName(n: Name) {
    |n.sfn| == 11 && n.sfn[0] != 0 && n.sfn[0] != FREE && |n.lfn| <= 255 && forall i | 0 <= i < |n.lfn| :: n.lfn[i] != 0
  }

  /** What a scan of the host gives. */
  ghost predicate Tree(hosts: seq<Host>) {
    && hosts != [] && hosts[0].dir
    && forall i | 0 <= i < |hosts| ::
         && |hosts[i].kids| == |hosts[i].names| && |hosts[i].content| < 0x1_0000_0000 && hosts[i].parent < |hosts|
         && (forall j | 0 <= j < |hosts[i].kids| :: hosts[i].kids[j] < |hosts| && ProperName(hosts[i].names[j]))
  }

  // ---- directories ----

  const DOT: seq<byte> := [0x2E, 32, 32, 32, 32, 32, 32, 32, 32, 32, 32]
  const DOT_DOT: seq<byte> := [0x2E, 0x2E, 32, 32, 32, 32, 32, 32, 32, 32, 32]

  /** The slots of some names. */
  function NameSlots(names: seq<Name>): nat
    decreases |names|
  {
    if names == [] then 0 else NameSlots(names[..|names| - 1]) + Parts(names[|names| - 1].lfn) + 1
  }

  /** The bytes a directory's entries take, the end mark included. */
  function DirSize(h: Host, i: nat): nat {
    SLOT * ((if i > 0 then 2 else 0) + NameSlots(h.names) + 1)
  }

  function SizeOf(h: Host, i: nat): nat {
    if h.dir then DirSize(h, i) else |h.content|
  }

  function Clusters(n: nat): nat { (n + CLUSTER - 1) / CLUSTER }

  function KidEntry(hosts: seq<Host>, nodes: seq<Node>, i: nat, j: nat): Entry
    requires |nodes| == |hosts| && i < |hosts| && |hosts[i].kids| == |hosts[i].names| && j < |hosts[i].kids|
    requires hosts[i].kids[j] < |hosts|
  {
    var c := nodes[hosts[i].kids[j]];
    Entry(hosts[i].names[j], c.dir, c.first, if c.dir then 0 else c.size)
  }

  function KidEntries(hosts: seq<Host>, nodes: seq<Node>, i: nat, n: nat): (es: seq<Entry>)
    requires |nodes| == |hosts| && i < |hosts| && |hosts[i].kids| == |hosts[i].names| && n <= |hosts[i].kids|
    requires forall j | 0 <= j < |hosts[i].kids| :: hosts[i].kids[j] < |hosts|
    ensures |es| == n
    decreases n
  {
    if n == 0 then [] else KidEntries(hosts, nodes, i, n - 1) + [KidEntry(hosts, nodes, i, n - 1)]
  }

  /** A directory: itself and its parent (0 stands for the root), unless it is the root, and its children. */
  function EntriesOf(hosts: seq<Host>, nodes: seq<Node>, i: nat): seq<Entry>
    requires |nodes| == |hosts| && i < |hosts| && |hosts[i].kids| == |hosts[i].names| && hosts[i].parent < |hosts|
    requires forall j | 0 <= j < |hosts[i].kids| :: hosts[i].kids[j] < |hosts|
  {
    Dots(hosts, nodes, i) + KidEntries(hosts, nodes, i, |hosts[i].kids|)
  }

  function Dots(hosts: seq<Host>, nodes: seq<Node>, i: nat): seq<Entry>
    requires |nodes| == |hosts| && i < |hosts| && hosts[i].parent < |hosts|
  {
    if i == 0 then []
    else
      [Entry(Name(DOT, []), true, nodes[i].first, 0),
       Entry(Name(DOT_DOT, []), true, if hosts[i].parent > 0 then nodes[hosts[i].parent].first else 0, 0)]
  }

  // ---- layout ----

  /** Node k has the clusters its bytes need, in a run of its own. */
  ghost predicate Placed(h: Host, k: nat, n: Node, xs: seq<Extent>) {
    && n.dir == h.dir && n.size == SizeOf(h, k)
    && n.count == Clusters(n.size)
    && (if n.count == 0 then n.first == 0 else Extent(n.first, n.count, k) in xs)
  }

  ghost predicate Laid(hosts: seq<Host>, nodes: seq<Node>, xs: seq<Extent>) {
    && |nodes| <= |hosts| && Packed(xs)
    && (forall k | 0 <= k < |nodes| :: Placed(hosts[k], k, nodes[k], xs))
    && (forall i, j | 0 <= i < j < |xs| :: xs[i].node < xs[j].node)
    && forall i | 0 <= i < |xs| :: xs[i].node < |nodes| && nodes[xs[i].node].first == xs[i].first &&
                                   nodes[xs[i].node].count == xs[i].count
  }

  /** The clusters of the first n nodes. */
  function Needed(hosts: seq<Host>, n: nat): nat
    requires n <= |hosts|
  {
    if n == 0 then 0
    else
      Needed(hosts, n - 1) + Clusters(SizeOf(hosts[n - 1], n - 1))
  }

  /** The first n nodes are laid out, and `next` is the first cluster left: two more than they need. */
  ghost predicate Allotted(hosts: seq<Host>, nodes: seq<Node>, xs: seq<Extent>, next: nat, n: nat)
    requires n <= |hosts|
  {
    |nodes| == n && Laid(hosts, nodes, xs) && next == EndOf(xs) == 2 + Needed(hosts, n)
  }

  /** The first pass of buildVirtual: sizes and clusters, one run after another in node order. */
  method Allocate(hosts: seq<Host>) returns (nodes: seq<Node>, xs: seq<Extent>, next: nat)
    requires Tree(hosts)
    ensures Allotted(hosts, nodes, xs, next, |hosts|)
  {
    nodes, xs, next := [], [], 2;
    NoneAllotted(hosts);
    hide Allotted, SizeOf, Clusters, Tree;
    for i := 0 to |hosts|
      invariant Allotted(hosts, nodes, xs, next, i)
    {
      var size := SizeOf(hosts[i], i);
      var count := Clusters(size);
      var n := Node(hosts[i].dir, size, if count > 0 then next else 0, count, []);
      OneMoreAllotted(hosts, nodes, xs, next, n, i);
      nodes := nodes + [n];
      if count > 0 {
        xs := xs + [Extent(next, count, i)];
        next := next + count;
      }
    }
  }

  lemma NoneAllotted(hosts: seq<Host>)
    ensures Allotted(hosts, [], [], 2, 0)
  {
  }

  lemma OneMoreAllotted(hosts: seq<Host>, nodes: seq<Node>, xs: seq<Extent>, next: nat, n: Node, i: nat)
    requires i < |hosts| && Allotted(hosts, nodes, xs, next, i)
    requires n.dir == hosts[i].dir && n.size == SizeOf(hosts[i], i) && n.count == Clusters(n.size)
    requires n.first == if n.count > 0 then next else 0
    ensures n.count > 0 ==> Allotted(hosts, nodes + [n], xs + [Extent(next, n.count, i)], next + n.count, i + 1)
    ensures n.count == 0 ==> Allotted(hosts, nodes + [n], xs, next, i + 1)
  {
    hide SizeOf, Packed, Clusters, Laid, EndOf;
    MoreLaid(hosts, nodes, xs, n);
  }

  lemma MoreLaid(hosts: seq<Host>, nodes: seq<Node>, xs: seq<Extent>, n: Node)
    requires Laid(hosts, nodes, xs) && |nodes| < |hosts|
    requires n.first == if n.count > 0 then EndOf(xs) else 0
    requires var h := hosts[|nodes|]; n.dir == h.dir && n.size == SizeOf(h, |nodes|) && n.count == Clusters(n.size)
    ensures var ys := if n.count > 0 then xs + [Extent(n.first, n.count, |nodes|)] else xs;
            Laid(hosts, nodes + [n], ys) && EndOf(ys) == EndOf(xs) + n.count
  {
    hide SizeOf, Clusters, Packed, EndOf, Placed;
    if n.count > 0 {
      var x := Extent(n.first, n.count, |nodes|);
      PackedMore(xs, x);
      forall k | 0 <= k < |nodes| ensures Placed(hosts[k], k, nodes[k], xs + [x]) {
        StillPlaced(hosts[k], k, nodes[k], xs, x);
      }
      LastPlaced(hosts[|nodes|], |nodes|, n, xs + [x]) by { assert (xs + [x])[|xs|] == x; }
    } else {
      LastPlaced(hosts[|nodes|], |nodes|, n, xs);
    }
  }

  lemma PackedMore(xs: seq<Extent>, x: Extent)
    requires Packed(xs) && x.first == EndOf(xs) && x.count > 0
    ensures Packed(xs + [x]) && EndOf(xs + [x]) == EndOf(xs) + x.count
  {
    assert (xs + [x])[..|xs|] == xs;
  }

  lemma StillPlaced(h: Host, k: nat, n: Node, xs: seq<Extent>, x: Extent)
    requires Placed(h, k, n, xs)
    ensures Placed(h, k, n, xs + [x])
  {
    hide SizeOf, Clusters;
    StillIn(xs, x, Extent(n.first, n.count, k));
  }

  lemma LastPlaced(h: Host, k: nat, n: Node, xs: seq<Extent>)
    requires n.dir == h.dir && n.size == SizeOf(h, k) && n.count == Clusters(n.size)
    requires if n.count == 0 then n.first == 0 else Extent(n.first, n.count, k) in xs
    ensures Placed(h, k, n, xs)
  {
  }

  lemma StillIn(xs: seq<Extent>, x: Extent, y: Extent)
    ensures y in xs ==> y in xs + [x]
  {
  }

  // ---- sectors ----

  /** Everything a sector is made from. */
  datatype Volume = Volume(nodes: seq<Node>, xs: seq<Extent>, clusters: nat, fatSz: nat)

  function DataStart(v: Volume): nat { RESERVED + 2 * v.fatSz }

  function Total(v: Volume): nat { DataStart(v) + v.clusters * CLUSTER_SECTORS }

  function Zeros(n: nat): (z: seq<byte>)
    ensures |z| == n
  {
    seq(n, _ => 0)
  }

  const OEM: seq<byte> := [0x4B, 0x45, 0x53, 0x54, 0x52, 0x45, 0x4C, 0x20]
  const LABEL: seq<byte> := [0x4B, 0x45, 0x53, 0x54, 0x52, 0x45, 0x4C, 0x20, 0x53, 0x44, 0x20]
  const FSTYPE: seq<byte> := [0x46, 0x41, 0x54, 0x33, 0x32, 0x20, 0x20, 0x20]

  /** The boot sector: the geometry of the volume, and where its parts are. */
  function BootSector(v: Volume): (b: seq<byte>)
    ensures |b| == SECTOR
  {
    Geometry() + PutU32(Total(v)) + PutU32(v.fatSz) + Zeros(4) + PutU32(2) + [1, 0, 6, 0] + Zeros(12) + Identity() +
    Zeros(420) + [0x55, 0xAA]
  }

  function Geometry(): (b: seq<byte>)
    ensures |b| == 32
  {
    [0xEB, 0x58, 0x90] + OEM + [0, 2, CLUSTER_SECTORS, RESERVED, 0, 2] + Zeros(4) + [0xF8] + Zeros(2) + [63, 0, 255, 0] +
    Zeros(4)
  }

  function Identity(): (b: seq<byte>)
    ensures |b| == 26
  {
    [0x80, 0, 0x29] + PutU32(0x4B36_3453) + LABEL + FSTYPE
  }

  function InfoSector(): (b: seq<byte>)
    ensures |b| == SECTOR
  {
    PutU32(0x4161_5252) + Zeros(480) + PutU32(0x6141_7272) + PutU32(0xFFFF_FFFF) + PutU32(0xFFFF_FFFF) + Zeros(12) +
    PutU32(0xAA55_0000)
  }

  /** n entries of the table from e on. */
  function Table(xs: seq<Extent>, e: nat, n: nat): (b: seq<byte>)
    ensures |b| == 4 * n
    decreases n
  {
    if n == 0 then [] else Table(xs, e, n - 1) + PutU32(FatEntry(xs, e + n - 1))
  }

  /** The bytes from `off` on, and zeros where there are none. */
  function Slice(data: seq<byte>, off: nat): (b: seq<byte>)
    ensures |b| == SECTOR
  {
    seq(SECTOR, k requires 0 <= k < SECTOR => if off + k < |data| then data[off + k] else 0)
  }

  /** A sector of the data area: its cluster's owner, as far as it has bytes. */
  function DataSector(v: Volume, rel: nat): (b: seq<byte>)
    ensures |b| == SECTOR
  {
    var clus := rel / CLUSTER_SECTORS + 2;
    match Owner(v.xs, clus)
    case None => Zeros(SECTOR)
    case Some(x) =>
      if x.node < |v.nodes| then Slice(v.nodes[x.node].data, (clus - x.first) * CLUSTER + rel % CLUSTER_SECTORS * SECTOR)
      else Zeros(SECTOR)
  }

  function Sector(v: Volume, lba: nat): (b: seq<byte>)
    ensures |b| == SECTOR
  {
    if lba == 0 || lba == 6 then BootSector(v)
    else if lba == 1 || lba == 7 then InfoSector()
    else if lba < RESERVED || v.fatSz == 0 then Zeros(SECTOR)
    else if lba < DataStart(v) then Table(v.xs, (lba - RESERVED) % v.fatSz * 128, 128)
    else DataSector(v, lba - DataStart(v))
  }

  /** The sector in which the table keeps entry e, in its copy 0 or 1, and the entry as a reader finds it there. */
  function TableSector(v: Volume, e: nat, copy: nat): nat {
    RESERVED + copy * v.fatSz + e / 128
  }

  lemma {:induction false} TableAt(xs: seq<Extent>, e: nat, n: nat, k: nat)
    requires k < n && FatEntry(xs, e + k) < 0x1_0000_0000
    ensures GetU32(Table(xs, e, n), 4 * k) == FatEntry(xs, e + k)
    decreases n
  {
    hide FatEntry, PutU32, GetU32;
    var b := Table(xs, e, n);
    if k == n - 1 {
      assert b[4 * k..4 * k + 4] == PutU32(FatEntry(xs, e + k));
      U32RoundTrip(b, 4 * k, FatEntry(xs, e + k));
    } else {
      TableAt(xs, e, n - 1, k);
      SameNumber(Table(xs, e, n - 1), b, 4 * k);
    }
  }

  lemma SameNumber(a: seq<byte>, b: seq<byte>, p: nat)
    requires p + 4 <= |a| <= |b| && a == b[..|a|]
    ensures GetU32(a, p) == GetU32(b, p)
  {
  }

  /** Both copies of the table on the volume hold every entry. */
  lemma TableIsOnDisk(v: Volume, e: nat, copy: nat)
    requires copy < 2 && e < v.fatSz * 128 && Packed(v.xs) && Fits(v.xs)
    ensures GetU32(Sector(v, TableSector(v, e, copy)), 4 * (e % 128)) == FatEntry(v.xs, e)
  {
    hide BootSector, InfoSector, DataSector, Table, FatEntry, GetU32;
    var s := e / 128;
    assert copy * v.fatSz == if copy == 0 then 0 else v.fatSz;
    assert (copy * v.fatSz + s) % v.fatSz == s by { SecondCopy(s, v.fatSz); }
    EntryIsSmall(v.xs, e);
    TableAt(v.xs, s * 128, 128, e % 128);
  }

  lemma SecondCopy(s: nat, n: nat)
    requires s < n
    ensures s % n == s && (n + s) % n == s
  {
    assert (n + s) / n == 1;
  }

  lemma EntryIsSmall(xs: seq<Extent>, e: nat)
    requires Packed(xs) && Fits(xs)
    ensures FatEntry(xs, e) < 0x1_0000_0000
  {
    var r := Owner(xs, e);
    if r.Some? {
      var i :| 0 <= i < |xs| && xs[i] == r.value;
      PackedOrder(xs, i, i);
    }
  }

  /** Where a byte of a run lies on the volume. */
  function SectorOf(v: Volume, first: nat, p: nat): nat
    requires first >= 2
  {
    DataStart(v) + (first + p / CLUSTER - 2) * CLUSTER_SECTORS + p % CLUSTER / SECTOR
  }

  /** The p-th byte along a node's chain is the p-th byte of the node. */
  lemma ByteAlongChain(v: Volume, i: nat, p: nat)
    requires Packed(v.xs) && v.fatSz > 0 && i < |v.xs| && v.xs[i].node < |v.nodes| && p < v.xs[i].count * CLUSTER
    ensures v.xs[i].first >= 2
    ensures var data := v.nodes[v.xs[i].node].data;
            Sector(v, SectorOf(v, v.xs[i].first, p))[p % SECTOR] == if p < |data| then data[p] else 0
  {
    hide BootSector, InfoSector, Table;
    PackedOrder(v.xs, i, i);
    var x := v.xs[i];
    var c := x.first + p / CLUSTER;
    var rel := (c - 2) * CLUSTER_SECTORS + p % CLUSTER / SECTOR;
    OwnerIs(v.xs, c, i);
    SplitOffset(p);
    assert rel / CLUSTER_SECTORS + 2 == c && rel % CLUSTER_SECTORS == p % CLUSTER / SECTOR;
  }

  lemma SplitOffset(p: nat)
    ensures p / CLUSTER * CLUSTER + p % CLUSTER / SECTOR * SECTOR + p % SECTOR == p
  {
  }

  // ---- building and reading ----

  /** A table long enough for every cluster. */
  function TableSectors(clusters: nat): nat { ((clusters + 2) * 4 + 511) / 512 }

  /** A node's bytes: a directory reads back as its children with their names, their first clusters and their sizes,
      a file is the host's. */
  ghost predicate NodeShows(hosts: seq<Host>, nodes: seq<Node>, i: nat, n: Node)
    requires Tree(hosts) && |nodes| == |hosts| && i < |hosts|
  {
    if hosts[i].dir then |n.data| == n.count * CLUSTER && ReadDir(n.data) == EntriesOf(hosts, nodes, i)
    else n.data == hosts[i].content
  }

  /** The volume shows the host tree. */
  ghost predicate Shows(hosts: seq<Host>, v: Volume) {
    && Tree(hosts) && |v.nodes| == |hosts| && Laid(hosts, v.nodes, v.xs) && EndOf(v.xs) <= v.clusters + 2
    && v.fatSz == TableSectors(v.clusters)
    && forall i | 0 <= i < |hosts| :: NodeShows(hosts, v.nodes, i, v.nodes[i])
  }

  lemma KidsAreProper(hosts: seq<Host>, nodes: seq<Node>, xs: seq<Extent>, i: nat, n: nat)
    requires Tree(hosts) && |nodes| == |hosts| && Laid(hosts, nodes, xs) && Fits(xs) && i < |hosts| && n <= |hosts[i].kids|
    ensures AllProper(KidEntries(hosts, nodes, i, n))
    ensures SlotCount(KidEntries(hosts, nodes, i, n)) == NameSlots(hosts[i].names[..n])
    decreases n
  {
    hide Parts, Laid, Proper, ProperName;
    if n > 0 {
      KidsAreProper(hosts, nodes, xs, i, n - 1);
      KidIsProper(hosts, nodes, xs, i, n - 1);
      NameIs(hosts, nodes, i, n - 1);
      OneMoreKid(KidEntries(hosts, nodes, i, n - 1), KidEntry(hosts, nodes, i, n - 1), hosts[i].names, n - 1);
    }
  }

  lemma OneMoreKid(es: seq<Entry>, e: Entry, names: seq<Name>, n: nat)
    requires AllProper(es) && Proper(e) && n < |names| && e.name == names[n]
    ensures AllProper(es + [e]) && SlotCount(es + [e]) == SlotCount(es) + Parts(e.name.lfn) + 1
    ensures NameSlots(names[..n + 1]) == NameSlots(names[..n]) + Parts(e.name.lfn) + 1
  {
    hide Parts, Proper;
    assert (es + [e])[..|es|] == es && names[..n + 1][..n] == names[..n];
  }

  lemma NameIs(hosts: seq<Host>, nodes: seq<Node>, i: nat, j: nat)
    requires Tree(hosts) && |nodes| == |hosts| && i < |hosts| && j < |hosts[i].kids|
    ensures KidEntry(hosts, nodes, i, j).name == hosts[i].names[j]
  {
  }

  lemma KidIsProper(hosts: seq<Host>, nodes: seq<Node>, xs: seq<Extent>, i: nat, j: nat)
    requires Tree(hosts) && |nodes| == |hosts| && Laid(hosts, nodes, xs) && Fits(xs) && i < |hosts| && j < |hosts[i].kids|
    ensures Proper(KidEntry(hosts, nodes, i, j))
  {
    var k := hosts[i].kids[j];
    FirstFits(hosts, nodes, xs, k);
    hide Packed, DirSize;
    assert ProperName(hosts[i].names[j]) && Placed(hosts[k], k, nodes[k], xs);
  }

  lemma FirstFits(hosts: seq<Host>, nodes: seq<Node>, xs: seq<Extent>, k: nat)
    requires |nodes| == |hosts| && Laid(hosts, nodes, xs) && Fits(xs) && k < |nodes|
    ensures nodes[k].first < LAST_MARKS
  {
    hide DirSize;
    assert Placed(hosts[k], k, nodes[k], xs);
    if nodes[k].count > 0 {
      var x :| 0 <= x < |xs| && xs[x] == Extent(nodes[k].first, nodes[k].count, k);
      PackedOrder(xs, x, x);
    }
  }

  /** The entries of a directory fit the area that was computed from the names alone. */
  lemma DirFits(hosts: seq<Host>, nodes: seq<Node>, xs: seq<Extent>, i: nat)
    requires Tree(hosts) && |nodes| == |hosts| && Laid(hosts, nodes, xs) && Fits(xs) && i < |hosts| && hosts[i].dir
    ensures AllProper(EntriesOf(hosts, nodes, i))
    ensures SLOT * (SlotCount(EntriesOf(hosts, nodes, i)) + 1) == DirSize(hosts[i], i) <= nodes[i].count * CLUSTER
  {
    var n := |hosts[i].kids|;
    var kids := KidEntries(hosts, nodes, i, n);
    KidsAreProper(hosts, nodes, xs, i, n);
    assert hosts[i].names[..n] == hosts[i].names;
    assert Placed(hosts[i], i, nodes[i], xs);
    FirstFits(hosts, nodes, xs, i);
    FirstFits(hosts, nodes, xs, hosts[i].parent);
    DotsFirst(hosts, nodes, i, kids);
  }

  lemma {:induction false} CountJoins(a: seq<Entry>, b: seq<Entry>)
    ensures SlotCount(a + b) == SlotCount(a) + SlotCount(b)
    decreases |b|
  {
    hide Parts;
    if b == [] {
      assert a + b == a;
    } else {
      assert (a + b)[..|a| + |b| - 1] == a + b[..|b| - 1];
      CountJoins(a, b[..|b| - 1]);
    }
  }

  lemma DotsFirst(hosts: seq<Host>, nodes: seq<Node>, i: nat, kids: seq<Entry>)
    requires |nodes| == |hosts| && i < |hosts| && hosts[i].parent < |hosts| && AllProper(kids)
    requires nodes[i].first < LAST_MARKS && nodes[hosts[i].parent].first < LAST_MARKS
    ensures AllProper(Dots(hosts, nodes, i) + kids)
    ensures SlotCount(Dots(hosts, nodes, i) + kids) == (if i > 0 then 2 else 0) + SlotCount(kids)
  {
    var d := Dots(hosts, nodes, i);
    CountJoins(d, kids);
    if i > 0 {
      assert d[..1] == [d[0]] && [d[0]][..0] == [];
      assert Parts([]) == 0;
      assert SlotCount([d[0]]) == 1;
      assert SlotCount(d) == 2;
      assert Proper(d[0]) && Proper(d[1]);
    }
  }

  /** What a node's neighbours look at in it does not change when its bytes are filled in. */
  ghost predicate SameBut(a: seq<Node>, b: seq<Node>) {
    |a| == |b| && forall k | 0 <= k < |a| :: a[k].dir == b[k].dir && a[k].size == b[k].size && a[k].first == b[k].first &&
                                             a[k].count == b[k].count
  }

  lemma {:induction false} SameKids(hosts: seq<Host>, a: seq<Node>, b: seq<Node>, i: nat, n: nat)
    requires Tree(hosts) && |a| == |hosts| && SameBut(a, b) && i < |hosts| && n <= |hosts[i].kids|
    ensures KidEntries(hosts, a, i, n) == KidEntries(hosts, b, i, n)
    decreases n
  {
    if n > 0 { SameKids(hosts, a, b, i, n - 1); }
  }

  lemma SameEntries(hosts: seq<Host>, a: seq<Node>, b: seq<Node>, i: nat)
    requires Tree(hosts) && |a| == |hosts| && SameBut(a, b) && i < |hosts|
    ensures EntriesOf(hosts, a, i) == EntriesOf(hosts, b, i)
  {
    SameKids(hosts, a, b, i, |hosts[i].kids|);
  }

  method FillNode(hosts: seq<Host>, laid: seq<Node>, xs: seq<Extent>, i: nat) returns (n: Node)
    requires Tree(hosts) && |laid| == |hosts| && Laid(hosts, laid, xs) && Fits(xs) && i < |hosts|
    ensures n == laid[i].(data := n.data) && NodeShows(hosts, laid, i, n)
  {
    if hosts[i].dir {
      DirFits(hosts, laid, xs, i);
      hide ReadDir, AllProper, Laid, EntriesOf, DirSize;
      var bytes := WriteDir(EntriesOf(hosts, laid, i), laid[i].count * CLUSTER);
      n := laid[i].(data := bytes[..]);
    } else {
      n := laid[i].(data := hosts[i].content);
    }
  }

  /** The first nodes have their bytes. */
  ghost predicate FilledIn(hosts: seq<Host>, laid: seq<Node>, nodes: seq<Node>)
    requires Tree(hosts) && |laid| == |hosts|
  {
    |nodes| <= |laid| &&
    forall k | 0 <= k < |nodes| :: nodes[k] == laid[k].(data := nodes[k].data) && NodeShows(hosts, laid, k, nodes[k])
  }

  lemma OneMoreFilled(hosts: seq<Host>, laid: seq<Node>, nodes: seq<Node>, n: Node)
    requires Tree(hosts) && |laid| == |hosts| && FilledIn(hosts, laid, nodes) && |nodes| < |laid|
    requires n == laid[|nodes|].(data := n.data) && NodeShows(hosts, laid, |nodes|, n)
    ensures FilledIn(hosts, laid, nodes + [n])
  {
    hide NodeShows, Tree;
  }

  /** The second pass of buildVirtual: the bytes of every node. */
  method FillDirs(hosts: seq<Host>, laid: seq<Node>, xs: seq<Extent>) returns (nodes: seq<Node>)
    requires Tree(hosts) && |laid| == |hosts| && Laid(hosts, laid, xs) && Fits(xs)
    ensures |nodes| == |laid| && FilledIn(hosts, laid, nodes)
  {
    nodes := [];
    hide NodeShows, Tree, Laid;
    for i := 0 to |laid|
      invariant |nodes| == i && FilledIn(hosts, laid, nodes)
    {
      var n := FillNode(hosts, laid, xs, i);
      OneMoreFilled(hosts, laid, nodes, n);
      nodes := nodes + [n];
    }
  }

  /** The runs do not change when the bytes are filled in, nor do the entries that point to them. */
  lemma FilledShows(hosts: seq<Host>, laid: seq<Node>, nodes: seq<Node>, xs: seq<Extent>, clusters: nat)
    requires Tree(hosts) && |laid| == |nodes| == |hosts| && Laid(hosts, laid, xs) && FilledIn(hosts, laid, nodes)
    requires EndOf(xs) <= clusters + 2
    ensures Laid(hosts, nodes, xs) && Shows(hosts, Volume(nodes, xs, clusters, TableSectors(clusters)))
  {
    hide Tree, Packed, EndOf, ReadDir, EntriesOf, DirSize;
    assert SameBut(laid, nodes);
    forall k | 0 <= k < |nodes| ensures Placed(hosts[k], k, nodes[k], xs) { assert Placed(hosts[k], k, laid[k], xs); }
    forall i | 0 <= i < |hosts| ensures NodeShows(hosts, nodes, i, nodes[i]) {
      SameEntries(hosts, laid, nodes, i);
      assert NodeShows(hosts, laid, i, nodes[i]);
    }
  }

  class SdCard {
    var nodes: seq<Node>
    var extents: seq<Extent>
    var clusters: nat
    var fatSz: nat
    var overlay: map<nat, seq<byte>>

    function Vol(): Volume
      reads `nodes, `extents, `clusters, `fatSz
    {
      Volume(nodes, extents, clusters, fatSz)
    }

    /** What the card holds: what has been written, and the volume elsewhere. */
    ghost function Holds(lba: nat): seq<byte>
      reads this
    {
      if lba in overlay then overlay[lba] else Sector(Vol(), lba)
    }

    constructor ()
      ensures overlay == map[] && clusters == 0
    {
      nodes, extents, clusters, fatSz, overlay := [], [], 0, 0, map[];
    }

    /** buildVirtual: for every host tree whose clusters FAT32 can number, a volume that shows it. */
    method BuildVirtual(hosts: seq<Host>)
      requires Tree(hosts) && Needed(hosts, |hosts|) + 2 <= LAST_MARKS
      modifies this
      ensures overlay == map[] && Shows(hosts, Vol()) && Fits(extents) && clusters < LAST_MARKS + 1024
      ensures clusters >= 65589 && clusters >= Needed(hosts, |hosts|) + 1024
      ensures clusters == 65589 || clusters == Needed(hosts, |hosts|) + 1024
    {
      hide Tree, Laid, Shows, NodeShows, Packed, EndOf, Needed, FilledIn;
      overlay := map[];
      var laid, xs, next := Allocate(hosts);
      clusters := if next - 2 + 1024 > MIN_CLUSTERS then next - 2 + 1024 else MIN_CLUSTERS;
      fatSz := TableSectors(clusters);
      extents := xs;
      nodes := FillDirs(hosts, laid, xs);
      FilledShows(hosts, laid, nodes, xs, clusters);
    }

    /** 128 entries of the table, from entry e on. */
    method TableInto(d: array<byte>, e: nat)
      requires Packed(extents) && d.Length == SECTOR
      modifies d
      ensures d[..] == Table(extents, e, 128)
    {
      hide FatEntry, PutU32, Packed;
      var k := 0;
      assert d[..0] == [];
      while k < 128
        invariant 0 <= k <= 128 && d[..4 * k] == Table(extents, e, k)
        modifies d
      {
        var v := EntryOf(e + k);
        TableMore(extents, e, k);
        ghost var done := d[..4 * k];
        CopyInto(d, 4 * k, PutU32(v));
        assert d[..4 * (k + 1)] == done + PutU32(v);
        k := k + 1;
      }
      assert d[..] == d[..512];
    }

    method EntryOf(e: nat) returns (v: nat)
      requires Packed(extents)
      ensures v == FatEntry(extents, e)
    {
      if e == 0 { return 0x0FFF_FFF8; }
      if e == 1 { return 0x0FFF_FFFF; }
      var x := FindExtent(extents, e);
      match x {
        case None => return 0;
        case Some(run) => return if e + 1 < run.first + run.count then e + 1 else END_OF_CHAIN;
      }
    }

    /** virtualSector: boot sector, information sector, table, or the bytes of whatever owns the cluster. */
    method VirtualSector(lba: nat) returns (d: array<byte>)
      requires Packed(extents) && fatSz > 0
      ensures fresh(d) && d[..] == Sector(Vol(), lba)
    {
      hide Packed, Table, BootSector, InfoSector;
      d := new byte[SECTOR](_ => 0);
      assert d[..] == Zeros(SECTOR);
      if lba == 0 || lba == 6 {
        CopyInto(d, 0, BootSector(Vol()));
      } else if lba == 1 || lba == 7 {
        CopyInto(d, 0, InfoSector());
      } else if lba < RESERVED {
      } else if lba < DataStart(Vol()) {
        TableInto(d, (lba - RESERVED) % fatSz * 128);
      } else {
        DataInto(d, lba - DataStart(Vol()));
      }
    }

    /** A sector of the data area. */
    method DataInto(d: array<byte>, rel: nat)
      requires Packed(extents) && d.Length == SECTOR && d[..] == Zeros(SECTOR)
      modifies d
      ensures d[..] == DataSector(Vol(), rel)
    {
      hide Packed, Slice, Owner, Zeros;
      var clus := rel / CLUSTER_SECTORS + 2;
      var x := FindExtent(extents, clus);
      if x.None? || x.value.node >= |nodes| { return; }
      SliceInto(d, nodes[x.value.node].data, (clus - x.value.first) * CLUSTER + rel % CLUSTER_SECTORS * SECTOR);
    }

    /** A sector that the guest asks for: what it last wrote there, or the volume. */
    method Read(lba: nat) returns (ok: bool, dst: seq<byte>)
      requires Packed(extents) && fatSz > 0
      ensures ok == (lba < Total(Vol())) && (ok ==> dst == Holds(lba))
    {
      hide Packed, Sector;
      ok, dst := false, [];
      if lba >= Total(Vol()) { return; }
      if lba in overlay { return true, overlay[lba]; }
      var d := VirtualSector(lba);
      return true, d[..];
    }

    /** A sector that the guest writes is read back, and no other sector changes. */
    method Write(lba: nat, src: seq<byte>) returns (ok: bool)
      requires |src| == SECTOR
      modifies this`overlay
      ensures ok == (lba < Total(Vol()))
      ensures forall k: nat :: Holds(k) == if ok && k == lba then src else old(Holds(k))
    {
      hide Sector;
      if lba >= Total(Vol()) { return false; }
      overlay := overlay[lba := src];
      return true;
    }
  }

  /** What a node has of a sector's bytes, over zeros. */
  method SliceInto(d: array<byte>, data: seq<byte>, off: nat)
    requires d.Length == SECTOR && d[..] == Zeros(SECTOR)
    modifies d
    ensures d[..] == Slice(data, off)
  {
    SliceIs(data, off);
    if off >= |data| { return; }
    var n := if |data| - off < SECTOR then |data| - off else SECTOR;
    hide Slice, Zeros;
    CopyInto(d, 0, data[off..off + n]);
  }

  /** A sector's worth of bytes, or what there is of them over zeros. */
  lemma SliceIs(data: seq<byte>, off: nat)
    ensures off >= |data| ==> Slice(data, off) == Zeros(SECTOR)
    ensures off < |data| ==>
              var n := if |data| - off < SECTOR then |data| - off else SECTOR;
              Slice(data, off) == Zeros(SECTOR)[..0] + data[off..off + n] + Zeros(SECTOR)[n..]
  {
  }

  lemma TableMore(xs: seq<Extent>, e: nat, k: nat)
    ensures Table(xs, e, k + 1) == Table(xs, e, k) + PutU32(FatEntry(xs, e + k))
  {
  }

  // ---- the tree comes back ----

  /** The bytes along some clusters, in order. */
  function Along(v: Volume, cs: seq<nat>): (b: seq<byte>)
    requires forall i | 0 <= i < |cs| :: cs[i] >= 2
    ensures |b| == |cs| * CLUSTER
  {
    seq(|cs| * CLUSTER, p requires 0 <= p < |cs| * CLUSTER => ByteOf(v, cs[p / CLUSTER], p % CLUSTER))
  }

  function ByteOf(v: Volume, c: nat, q: nat): byte
    requires c >= 2
  {
    Sector(v, DataStart(v) + (c - 2) * CLUSTER_SECTORS + q / SECTOR)[q % SECTOR]
  }

  /** A node's run, found through its extent. */
  lemma RunOf(hosts: seq<Host>, v: Volume, i: nat) returns (x: nat)
    requires Shows(hosts, v) && i < |hosts| && v.nodes[i].count > 0
    ensures x < |v.xs| && v.xs[x] == Extent(v.nodes[i].first, v.nodes[i].count, i)
  {
    hide NodeShows, SizeOf, Packed, Tree;
    assert Placed(hosts[i], i, v.nodes[i], v.xs);
    x :| 0 <= x < |v.xs| && v.xs[x] == Extent(v.nodes[i].first, v.nodes[i].count, i);
  }

  /** Follow the table from a node's first cluster: the chain is as long as the node needs, and the bytes along it are
      the node's. */
  lemma NodeComesBack(hosts: seq<Host>, v: Volume, i: nat, cs: seq<nat>)
    requires Shows(hosts, v) && Fits(v.xs) && i < |hosts| && v.nodes[i].count > 0
    requires cs != [] && cs[0] == v.nodes[i].first && IsChain(v.xs, cs)
    ensures |cs| == Clusters(v.nodes[i].size) && forall k | 0 <= k < |cs| :: cs[k] >= 2
    ensures forall p | 0 <= p < |v.nodes[i].data| && p < |cs| * CLUSTER :: Along(v, cs)[p] == v.nodes[i].data[p]
  {
    var x := RunOf(hosts, v, i);
    assert Placed(hosts[i], i, v.nodes[i], v.xs) && v.fatSz > 0;
    hide Shows, NodeShows, SizeOf, Tree, Along, FatEntry, Laid;
    ChainIsRun(v.xs, x, cs);
    PackedOrder(v.xs, x, x);
    hide Packed, IsChain, EndOf;
    forall p | 0 <= p < |v.nodes[i].data| && p < |cs| * CLUSTER ensures Along(v, cs)[p] == v.nodes[i].data[p] {
      ByteComesBack(v, x, p);
    }
  }

  lemma ByteComesBack(v: Volume, x: nat, p: nat)
    requires Packed(v.xs) && v.fatSz > 0 && x < |v.xs| && v.xs[x].node < |v.nodes| && p < v.xs[x].count * CLUSTER
    ensures v.xs[x].first >= 2
    ensures var data := v.nodes[v.xs[x].node].data;
            p < |data| ==> Along(v, Range(v.xs[x].first, v.xs[x].count))[p] == data[p]
  {
    hide Sector, Packed;
    ByteAlongChain(v, x, p);
    WithinSector(p);
  }

  lemma WithinSector(p: nat)
    ensures p % CLUSTER % SECTOR == p % SECTOR
  {
  }

  /** A file, cut to its size, is the host's. */
  lemma FileComesBack(hosts: seq<Host>, v: Volume, i: nat, cs: seq<nat>)
    requires Shows(hosts, v) && Fits(v.xs) && i < |hosts| && !hosts[i].dir && v.nodes[i].count > 0
    requires cs != [] && cs[0] == v.nodes[i].first && IsChain(v.xs, cs)
    ensures forall k | 0 <= k < |cs| :: cs[k] >= 2
    ensures v.nodes[i].size == |hosts[i].content| <= |cs| * CLUSTER
    ensures Along(v, cs)[..v.nodes[i].size] == hosts[i].content
  {
    NodeComesBack(hosts, v, i, cs);
    assert Placed(hosts[i], i, v.nodes[i], v.xs) && NodeShows(hosts, v.nodes, i, v.nodes[i]);
    hide Shows, Laid, IsChain, Along;
  }

  /** A directory is read back as its children. */
  lemma DirComesBack(hosts: seq<Host>, v: Volume, i: nat, cs: seq<nat>)
    requires Shows(hosts, v) && Fits(v.xs) && i < |hosts| && hosts[i].dir && v.nodes[i].count > 0
    requires cs != [] && cs[0] == v.nodes[i].first && IsChain(v.xs, cs)
    ensures forall k | 0 <= k < |cs| :: cs[k] >= 2
    ensures ReadDir(Along(v, cs)) == EntriesOf(hosts, v.nodes, i)
  {
    NodeComesBack(hosts, v, i, cs);
    assert Placed(hosts[i], i, v.nodes[i], v.xs) && NodeShows(hosts, v.nodes, i, v.nodes[i]);
    hide Shows, Laid, IsChain, Along, ReadDir, EntriesOf, DirSize;
    assert Along(v, cs) == v.nodes[i].data;
  }

  /** Among its entries, behind the two dots, the j-th is the j-th child: its name, and where its bytes are. */
  lemma {:induction false} KidIsFound(hosts: seq<Host>, nodes: seq<Node>, i: nat, n: nat, j: nat)
    requires Tree(hosts) && |nodes| == |hosts| && i < |hosts| && j < n <= |hosts[i].kids|
    ensures KidEntries(hosts, nodes, i, n)[j] == KidEntry(hosts, nodes, i, j)
    decreases n
  {
    if j < n - 1 { KidIsFound(hosts, nodes, i, n - 1, j); }
  }

  /** The first two entries of a directory other than the root: a dot, which leads back to it, and two dots, which lead to
      its parent; there 0 stands for the root. */
  lemma DotsLead(hosts: seq<Host>, v: Volume, i: nat)
    requires Shows(hosts, v) && 0 < i < |hosts| && hosts[i].dir && hosts[hosts[i].parent].dir
    ensures var es := EntriesOf(hosts, v.nodes, i);
            && |es| == 2 + |hosts[i].kids| && es[0].dir && es[1].dir
            && Dotted(es[0].name, 1) && Dotted(es[1].name, 2)
            && es[0].first == v.nodes[i].first
            && (if es[1].first == 0 then 2 else es[1].first) == v.nodes[hosts[i].parent].first
            && (es[1].first == 0 <==> hosts[i].parent == 0)
  {
    hide EntriesOf, Dotted, Tree, Laid, NodeShows;
    RootIsAtTwo(hosts, v);
    DotsAre(hosts, v.nodes, i);
    DirIsSomewhere(hosts, v, hosts[i].parent);
  }

  lemma DotsAre(hosts: seq<Host>, nodes: seq<Node>, i: nat)
    requires Tree(hosts) && |nodes| == |hosts| && 0 < i < |hosts|
    ensures hosts[i].parent < |hosts|
    ensures var es := EntriesOf(hosts, nodes, i);
            && |es| == 2 + |hosts[i].kids| && es[0].dir && es[1].dir
            && Dotted(es[0].name, 1) && Dotted(es[1].name, 2) && es[0].first == nodes[i].first
            && es[1].first == if hosts[i].parent > 0 then nodes[hosts[i].parent].first else 0
  {
    hide KidEntry, ProperName;
    var dots := Dots(hosts, nodes, i);
    assert Dotted(dots[0].name, 1) && Dotted(dots[1].name, 2);
    hide KidEntries, Dots, Dotted;
    assert EntriesOf(hosts, nodes, i)[..2] == dots;
  }

  lemma DirIsSomewhere(hosts: seq<Host>, v: Volume, p: nat)
    requires Shows(hosts, v) && p < |hosts| && hosts[p].dir
    ensures v.nodes[p].first >= 2
  {
    hide NodeShows, Tree;
    assert Placed(hosts[p], p, v.nodes[p], v.xs);
    var x := RunOf(hosts, v, p);
    PackedOrder(v.xs, x, x);
  }

  /** n dots and then blanks. */
  ghost predicate Dotted(n: Name, dots: nat) {
    |n.sfn| == 11 && n.lfn == [] && forall k | 0 <= k < 11 :: n.sfn[k] == if k < dots then 0x2E else 0x20
  }

  /** Just enough clusters for n bytes. */
  lemma ClustersAre(n: nat)
    ensures n <= 4096 * Clusters(n) < n + 4096
  {
  }

  /** And a table just long enough, at 128 entries to a sector, for all clusters and the two before them. */
  lemma TableSectorsAre(clusters: nat)
    ensures clusters + 2 <= 128 * TableSectors(clusters) < clusters + 2 + 128
  {
  }

  /** The reader starts where the boot sector says the root is: cluster 2. */
  lemma RootIsAtTwo(hosts: seq<Host>, v: Volume)
    requires Shows(hosts, v)
    ensures v.nodes[0].first == 2 && v.nodes[0].count > 0
  {
    hide NodeShows;
    assert Placed(hosts[0], 0, v.nodes[0], v.xs);
    var x := RunOf(hosts, v, 0);
    NoneBefore(v.xs, x);
    FirstRun(v.xs);
  }

  lemma NoneBefore(xs: seq<Extent>, x: nat)
    requires x < |xs| && xs[x].node == 0 && forall i, j | 0 <= i < j < |xs| :: xs[i].node < xs[j].node
    ensures x == 0
  {
    var first := xs[0].node;
  }

  lemma {:induction false} FirstRun(xs: seq<Extent>)
    requires Packed(xs) && xs != []
    ensures xs[0].first == 2
    decreases |xs|
  {
    if |xs| > 1 { FirstRun(xs[..|xs| - 1]); } else { assert xs[..0] == []; }
  }
}
