/** Start-up: the node table is rebuilt from the device's zone report, the valid counts and the levels'
    nodes from the recovered files, and nodes without valid units are reset. */
module Recovery {
  import Tailq
  import opened Layout
  import opened Provision
  import opened NodeGroup
  import opened Zrocks
  import MetaLog

  // ----- the zone report

  datatype ZoneState = Empty | Open | FullZone | Unknown

  /** What the device reports of a zone; `written` is its write pointer less its first sector, and
      reserved or unusable zones are not `available`. */
  datatype ZoneInfo = ZoneInfo(available: bool, state: ZoneState, written: nat)

  ghost predicate Sound(report: seq<ZoneInfo>) {
    forall i :: 0 <= i < |report| ==> report[i].written <= ZONE_SECTORS
  }

  function SectorsOf(z: ZoneInfo): nat {
    match z.state
    case FullZone => ZONE_SECTORS
    case Open => z.written
    case _ => 0
  }

  function SumSectors(zs: seq<ZoneInfo>): nat {
    if zs == [] then 0 else SumSectors(zs[..|zs| - 1]) + SectorsOf(zs[|zs| - 1])
  }

  function CountFull(zs: seq<ZoneInfo>): nat {
    if zs == [] then 0 else CountFull(zs[..|zs| - 1]) + (if zs[|zs| - 1].state == FullZone then 1 else 0)
  }

  /** The zones that take part in nodes, 64 to a node. */
  ghost function Usable(report: seq<ZoneInfo>): seq<ZoneInfo> {
    if report == [] then []
    else Usable(report[..|report| - 1]) + (if report[|report| - 1].available then [report[|report| - 1]] else [])
  }

  ghost function Group64(zs: seq<ZoneInfo>, n: nat): (g: seq<ZoneInfo>)
    requires ZONES * (n + 1) <= |zs|
    ensures |g| == ZONES
  {
    zs[ZONES * n..ZONES * (n + 1)]
  }

  /** The node that init makes of 64 zones. */
  function Rebuilt(full: nat, sectors: nat, img: seq<Byte>): Node
    requires sectors / UNIT_SECTORS <= NODE_UNITS
  {
    if full == ZONES then Node(img, 0, NODE_UNITS, 0, Full, -1)
    else if sectors == 0 then Node(img, NODE_UNITS, 0, 0, Free, -1)
    else Node(img, NODE_UNITS - sectors / UNIT_SECTORS, sectors / UNIT_SECTORS, 0, Used, -1)
  }

  lemma {:induction false} SumSectorsBound(zs: seq<ZoneInfo>)
    requires Sound(zs)
    ensures SumSectors(zs) <= |zs| * ZONE_SECTORS
  {
    if zs != [] {
      SumSectorsBound(zs[..|zs| - 1]);
    }
  }

  // ----- a balanced report

  /** The 64 zones report what the striped image leaves in them. */
  ghost predicate Reports(zs: seq<ZoneInfo>, img: seq<Byte>) {
    |zs| == ZONES && |img| % UNIT == 0 && |img| / UNIT <= NODE_UNITS &&
    forall k :: 0 <= k < ZONES ==> ReportsZone(zs[k], ZoneUnits(|img| / UNIT, k) * UNIT_SECTORS)
  }

  predicate ReportsZone(z: ZoneInfo, sectors: nat) {
    SectorsOf(z) == sectors && (z.state == FullZone <==> sectors == ZONE_SECTORS)
  }

  /** The node of a given image with no valid units yet. */
  function BootNode(img: seq<Byte>): Node
    requires |img| / UNIT <= NODE_UNITS
  {
    var units := |img| / UNIT;
    Node(img, NODE_UNITS - units, units, 0, if units == NODE_UNITS then Full else if units == 0 then Free else Used, -1)
  }

  lemma {:induction false} SumReported(zs: seq<ZoneInfo>, img: seq<Byte>, j: nat)
    requires Reports(zs, img) && j <= ZONES
    ensures SumSectors(zs[..j]) == SumShares(|img| / UNIT, j) * UNIT_SECTORS
  {
    if j > 0 {
      SumReported(zs, img, j - 1);
      assert zs[..j][..j - 1] == zs[..j - 1];
      assert ReportsZone(zs[j - 1], ZoneUnits(|img| / UNIT, j - 1) * UNIT_SECTORS);
    }
  }

  lemma {:induction false} CountFullAll(zs: seq<ZoneInfo>)
    ensures CountFull(zs) <= |zs|
    ensures CountFull(zs) == |zs| <==> forall k :: 0 <= k < |zs| ==> zs[k].state == FullZone
  {
    if zs != [] {
      CountFullAll(zs[..|zs| - 1]);
    }
  }

  /** From any balanced report the node gets back its used and left units and its status. */
  lemma {:induction false} RebuiltFromBalanced(zs: seq<ZoneInfo>, img: seq<Byte>)
    requires Reports(zs, img)
    ensures SumSectors(zs) == |img| / UNIT * UNIT_SECTORS
    ensures Rebuilt(CountFull(zs), SumSectors(zs), img) == BootNode(img)
  {
    var units := |img| / UNIT;
    SumReported(zs, img, ZONES);
    assert zs[..ZONES] == zs;
    SharesSum(units);
    CountFullAll(zs);
    if CountFull(zs) == ZONES {
      assert ReportsZone(zs[63], ZoneUnits(units, 63) * UNIT_SECTORS);
      assert ZoneUnits(units, 63) == 3072;
    } else {
      var k :| 0 <= k < ZONES && zs[k].state != FullZone;
      assert ReportsZone(zs[k], ZoneUnits(units, k) * UNIT_SECTORS);
      assert ZoneUnits(NODE_UNITS, k) == 3072;
    }
  }

  /** The writer continues at the addresses the reader expects exactly when the write pointers are those of a
      balanced node. */
  lemma {:induction false} PointersAgreeIff(base: seq<nat>, wptr: seq<nat>, used: nat)
    requires |base| == ZONES && |wptr| == ZONES
    ensures SectList(wptr, used, ZONES) == HeightList(base, used, ZONES) <==> wptr == Balanced(base, used)
  {
    var a, b := SectList(wptr, used, ZONES), HeightList(base, used, ZONES);
    if a == b {
      forall z | 0 <= z < ZONES ensures wptr[z] == Balanced(base, used)[z] {
        var k := Rotation(z, used);
        HeightOfNext(used, k);
        assert a[k] == b[k];
      }
    }
    if wptr == Balanced(base, used) {
      forall k | 0 <= k < ZONES ensures a[k] == b[k] {
        HeightOfNext(used, k);
      }
    }
  }

  // ----- init

  lemma {:induction false} UsableGrows(report: seq<ZoneInfo>, i: nat, j: nat)
    requires i <= j <= |report|
    ensures Usable(report[..i]) <= Usable(report[..j])
    ensures |Usable(report[..j])| <= |Usable(report[..i])| + (j - i)
    ensures |Usable(report[..i])| <= i
  {
    if i < j {
      UsableGrows(report, i, j - 1);
      assert report[..j][..j - 1] == report[..j - 1];
    } else if i > 0 {
      UsableGrows(report, i - 1, i - 1);
      assert report[..i][..i - 1] == report[..i - 1];
    }
  }

  /** A node is closed only when the report goes on after its 64th zone. */
  ghost function ClosedNodes(report: seq<ZoneInfo>): nat {
    if report == [] then 0 else |Usable(report[..|report| - 1])| / ZONES
  }

  /** With every zone available, all nodes are closed unless the zones come out even. */
  lemma {:induction false} ClosedWhenAvailable(report: seq<ZoneInfo>)
    requires forall i :: 0 <= i < |report| ==> report[i].available
    ensures |Usable(report)| == |report|
    ensures ClosedNodes(report) == |report| / ZONES <==> report == [] || |report| % ZONES != 0
    ensures report != [] && |report| % ZONES == 0 ==> ClosedNodes(report) == |report| / ZONES - 1
  {
    if report != [] {
      ClosedWhenAvailable(report[..|report| - 1]);
    }
  }

  /** Indices of the nodes with a status, in order: the lists that init builds. */
  ghost function Select(nodes: seq<Node>, status: Status): seq<nat> {
    if nodes == [] then []
    else Select(nodes[..|nodes| - 1], status) + (if nodes[|nodes| - 1].status == status then [|nodes| - 1] else [])
  }

  lemma {:induction false} SelectAppend(nodes: seq<Node>, nd: Node, status: Status)
    ensures Select(nodes + [nd], status) == Select(nodes, status) + (if nd.status == status then [|nodes|] else [])
  {
    assert (nodes + [nd])[..|nodes|] == nodes;
  }

  /** The lists hold the nodes of their status, and no level holds a node. */
  ghost predicate Listed(g: Group) {
    g.free == Select(g.nodes, Free) && g.used == Select(g.nodes, Used) && g.full == Select(g.nodes, Full) &&
    g.nfree == |g.free| && g.queue == seq(LEVELS, _ => Nothing)
  }

  ghost predicate RebuiltUpTo(nodes: seq<Node>, zs: seq<ZoneInfo>, imgs: seq<seq<Byte>>) {
    |nodes| <= |imgs| && ZONES * |nodes| <= |zs| && Sound(zs) &&
    forall n :: 0 <= n < |nodes| ==> RebuiltAt(nodes, zs, imgs, n)
  }

  ghost predicate RebuiltAt(nodes: seq<Node>, zs: seq<ZoneInfo>, imgs: seq<seq<Byte>>, n: nat)
    requires n < |nodes| <= |imgs| && ZONES * |nodes| <= |zs| && Sound(zs)
  {
    var g := Group64(zs, n);
    SumSectorsBound(g);
    nodes[n] == Rebuilt(CountFull(g), SumSectors(g), imgs[n])
  }

  lemma {:induction false} RebuiltMore(nodes: seq<Node>, zs: seq<ZoneInfo>, imgs: seq<seq<Byte>>, z: ZoneInfo)
    requires RebuiltUpTo(nodes, zs, imgs) && z.written <= ZONE_SECTORS
    ensures RebuiltUpTo(nodes, zs + [z], imgs)
  {
    forall n | 0 <= n < |nodes| ensures RebuiltAt(nodes, zs + [z], imgs, n) {
      assert RebuiltAt(nodes, zs, imgs, n);
      assert Group64(zs + [z], n) == Group64(zs, n);
    }
  }

  lemma {:induction false} RebuiltNext(nodes: seq<Node>, zs: seq<ZoneInfo>, imgs: seq<seq<Byte>>)
    requires RebuiltUpTo(nodes, zs, imgs) && |zs| == ZONES * (|nodes| + 1) && |nodes| < |imgs|
    ensures SumSectors(zs[ZONES * |nodes|..]) / UNIT_SECTORS <= NODE_UNITS
    ensures var last := zs[ZONES * |nodes|..];
      RebuiltUpTo(nodes + [Rebuilt(CountFull(last), SumSectors(last), imgs[|nodes|])], zs, imgs)
  {
    var m, last := |nodes|, zs[ZONES * |nodes|..];
    SumSectorsBound(last);
    var nodes' := nodes + [Rebuilt(CountFull(last), SumSectors(last), imgs[m])];
    forall n | 0 <= n < |nodes'| ensures RebuiltAt(nodes', zs, imgs, n) {
      if n < m {
        assert RebuiltAt(nodes, zs, imgs, n);
      } else {
        assert Group64(zs, n) == last;
      }
    }
  }

  /** The lists are those of the nodes' states, and the pointers behind them are in order. */
  ghost predicate Wired(t: Ztl)
    reads t
  {
    Listed(t.State()) && Tailq.LinkedTo(t.links, t.State())
  }

  /** The next node can be inserted into any of the lists. */
  lemma {:induction false} InsertNode(h: Tailq.Links, g: Group)
    requires Listed(g) && Tailq.LinkedTo(h, g) && |g.nodes| < |h.next|
    ensures |h.last| == Tailq.QUEUES && |h.prev| == |h.next|
    ensures forall q :: 0 <= q < Tailq.QUEUES ==> Tailq.SlotOk(h, h.last[q])
    ensures var n := |g.nodes|;
      Tailq.Linked(Tailq.InsertTail(h, Tailq.FREE, n), [g.free + [n], g.used, g.full]) &&
      Tailq.Linked(Tailq.InsertTail(h, Tailq.USED, n), [g.free, g.used + [n], g.full]) &&
      Tailq.Linked(Tailq.InsertTail(h, Tailq.FULL, n), [g.free, g.used, g.full + [n]])
  {
    var ls, n := Tailq.ListsOf(g), |g.nodes|;
    SelectIn(g.nodes, Free, n);
    SelectIn(g.nodes, Used, n);
    SelectIn(g.nodes, Full, n);
    Tailq.LooseShape(h, ls);
    hide Select, Tailq.Linked, Tailq.InsertTail;
    forall q | 0 <= q < Tailq.QUEUES
      ensures Tailq.SlotOk(h, h.last[q]) && Tailq.Linked(Tailq.InsertTail(h, q, n), ls[q := ls[q] + [n]])
    {
      Tailq.InsertLinked(h, ls, q, n);
    }
    assert ls[Tailq.FREE := g.free + [n]] == [g.free + [n], g.used, g.full];
    assert ls[Tailq.USED := g.used + [n]] == [g.free, g.used + [n], g.full];
    assert ls[Tailq.FULL := g.full + [n]] == [g.free, g.used, g.full + [n]];
  }

  /** The end of a node: it is rebuilt and put on the list of its status. */
  method CloseNode(t: Ztl, full: nat, sectors: nat, img: seq<Byte>)
    requires sectors / UNIT_SECTORS <= NODE_UNITS && Wired(t) && |t.nodes| < |t.links.next|
    modifies t
    ensures t.nodes == old(t.nodes) + [Rebuilt(full, sectors, img)] && Wired(t)
    ensures |t.links.next| == |old(t.links.next)|
  {
    hide Tailq.InsertTail, Tailq.Linked;
    ghost var g := t.State();
    InsertNode(t.links, g);
    var nd := Node(img, 0, NODE_UNITS, 0, Full, -1);
    var id := |t.nodes|;
    if full == ZONES {
      t.links := Tailq.InsertTail(t.links, Tailq.FULL, id);
      t.full := t.full + [id];
    } else if sectors == 0 {
      nd := Node(img, NODE_UNITS, 0, 0, Free, -1);
      t.links := Tailq.InsertTail(t.links, Tailq.FREE, id);
      t.free := t.free + [id];
      t.nfree := t.nfree + 1;
    } else {
      nd := Node(img, NODE_UNITS - sectors / UNIT_SECTORS, sectors / UNIT_SECTORS, 0, Used, -1);
      t.links := Tailq.InsertTail(t.links, Tailq.USED, id);
      t.used := t.used + [id];
    }
    SelectAppend(t.nodes, nd, Free);
    SelectAppend(t.nodes, nd, Used);
    SelectAppend(t.nodes, nd, Full);
    t.nodes := t.nodes + [nd];
  }

  /** Zones of a node beyond the table are stored. */
  ghost predicate Overruns(report: seq<ZoneInfo>) {
    var m := |report| / ZONES;
    |Usable(report)| > ZONES * m &&
    (m == 0 || (|report| % ZONES == 63 && |Usable(report[..ZONES * m])| == ZONES * m))
  }

  /** Progress of the init loop before zone `i`. */
  ghost predicate Scanning(report: seq<ZoneInfo>, i: nat, nodeI: nat, zones: nat, overrun: bool) {
    i <= |report| && zones <= ZONES && |Usable(report[..i])| == ZONES * nodeI + zones &&
    nodeI == ClosedNodes(report[..i]) &&
    var m := |report| / ZONES;
    (overrun <==> |Usable(report[..i])| > ZONES * m) &&
    (0 < m <= nodeI ==> |report| % ZONES == 63 && |Usable(report[..ZONES * m])| == ZONES * m)
  }

  /** Before zone `i` is stored, once a finished node was closed. */
  ghost predicate Storing(report: seq<ZoneInfo>, i: nat, nodeI: nat, zones: nat, overrun: bool) {
    i < |report| && zones < ZONES && |Usable(report[..i])| == ZONES * nodeI + zones &&
    var m := |report| / ZONES;
    (overrun <==> |Usable(report[..i])| > ZONES * m) &&
    (0 < m <= nodeI ==> |report| % ZONES == 63 && |Usable(report[..ZONES * m])| == ZONES * m)
  }

  lemma {:induction false} ScanOpen(report: seq<ZoneInfo>, i: nat, nodeI: nat, zones: nat, overrun: bool)
    requires i < |report| && zones < ZONES && Scanning(report, i, nodeI, zones, overrun)
    ensures Storing(report, i, nodeI, zones, overrun)
  {
  }

  lemma {:induction false} ScanStep(report: seq<ZoneInfo>, i: nat, nodeI: nat, zones: nat, overrun: bool)
    requires Storing(report, i, nodeI, zones, overrun)
    ensures Scanning(report, i + 1, nodeI, if report[i].available then zones + 1 else zones,
                     overrun || (report[i].available && nodeI >= |report| / ZONES))
    ensures Usable(report[..i + 1]) == Usable(report[..i]) + (if report[i].available then [report[i]] else [])
  {
    assert report[..i + 1][..i] == report[..i];
  }

  lemma {:induction false} ScanClose(report: seq<ZoneInfo>, i: nat, nodeI: nat, overrun: bool)
    requires i < |report| && Scanning(report, i, nodeI, ZONES, overrun)
    ensures nodeI + 1 <= ClosedNodes(report) && nodeI + 1 <= |report| / ZONES
    ensures |report| - i + 1 < ZONES ==> nodeI + 1 == ClosedNodes(report) && (overrun <==> Overruns(report))
    ensures |report| - i + 1 >= ZONES ==> Storing(report, i, nodeI + 1, 0, overrun)
  {
    var m := |report| / ZONES;
    UsableGrows(report, i, |report| - 1);
    UsableGrows(report, i, |report|);
    assert report[..|report|] == report;
    assert nodeI + 1 <= m;
    if |report| - i + 1 < ZONES && |report| % ZONES == 63 {
      UsableGrows(report, ZONES * m, i - 1);
      assert report[..i][..i - 1] == report[..i - 1];
    }
  }

  lemma {:induction false} ScanEnd(report: seq<ZoneInfo>, nodeI: nat, zones: nat, overrun: bool)
    requires Scanning(report, |report|, nodeI, zones, overrun)
    ensures nodeI == ClosedNodes(report) && (overrun <==> Overruns(report))
  {
    assert report[..|report|] == report;
  }

  lemma {:induction false} TailSums(zs: seq<ZoneInfo>, from: nat, z: ZoneInfo)
    requires from <= |zs|
    ensures CountFull((zs + [z])[from..]) == CountFull(zs[from..]) + (if z.state == FullZone then 1 else 0)
    ensures SumSectors((zs + [z])[from..]) == SumSectors(zs[from..]) + SectorsOf(z)
  {
    var tail := (zs + [z])[from..];
    assert tail[..|tail| - 1] == zs[from..] && tail[|tail| - 1] == z;
  }

  lemma {:induction false} RebuiltFurther(nodes: seq<Node>, report: seq<ZoneInfo>, imgs: seq<seq<Byte>>, i: nat)
    requires i <= |report| && Sound(report) && RebuiltUpTo(nodes, Usable(report[..i]), imgs)
    ensures RebuiltUpTo(nodes, Usable(report), imgs)
  {
    assert report[..|report|] == report;
    UsableSound(report);
    UsableGrows(report, i, |report|);
    var zs, all := Usable(report[..i]), Usable(report);
    forall n | 0 <= n < |nodes| ensures RebuiltAt(nodes, all, imgs, n) {
      assert RebuiltAt(nodes, zs, imgs, n);
      assert Group64(all, n) == Group64(zs, n);
    }
  }

  lemma {:induction false} UsableSound(report: seq<ZoneInfo>)
    requires Sound(report)
    ensures Sound(Usable(report))
  {
    if report != [] {
      UsableSound(report[..|report| - 1]);
    }
  }

  /** The loop's variables before zone `i`: `nodes` are closed; `full` and `sectors` count the zones of
      the open one. */
  ghost predicate Scanned(report: seq<ZoneInfo>, imgs: seq<seq<Byte>>, i: nat, nodes: seq<Node>, full: nat,
                          sectors: nat) {
    i <= |report| && RebuiltUpTo(nodes, Usable(report[..i]), imgs) &&
    full == CountFull(Usable(report[..i])[ZONES * |nodes|..]) &&
    sectors == SumSectors(Usable(report[..i])[ZONES * |nodes|..])
  }

  lemma {:induction false} ScanStart(report: seq<ZoneInfo>, imgs: seq<seq<Byte>>)
    ensures Scanning(report, 0, 0, 0, false) && Scanned(report, imgs, 0, [], 0, 0)
  {
    assert report[..0] == [];
  }

  method EmptyTable(t: Ztl, capacity: nat)
    modifies t
    ensures t.nodes == [] && Wired(t) && |t.links.next| == capacity
  {
    Tailq.InitLinked(capacity);
    t.links := Tailq.Init(capacity);
    t.nodes, t.free, t.used, t.full, t.nfree := [], [], [], [], 0;
    t.queue := seq(LEVELS, _ => Nothing);
  }

  function FullAfter(z: ZoneInfo, full: nat): nat {
    if z.available && z.state == FullZone then full + 1 else full
  }

  function SectorsAfter(z: ZoneInfo, sectors: nat): nat {
    if z.available then sectors + SectorsOf(z) else sectors
  }

  lemma {:induction false} StoreStep(report: seq<ZoneInfo>, imgs: seq<seq<Byte>>, i: nat, nodes: seq<Node>, full: nat,
                                     sectors: nat)
    requires Sound(report) && i < |report| && Scanned(report, imgs, i, nodes, full, sectors)
    ensures Scanned(report, imgs, i + 1, nodes, FullAfter(report[i], full), SectorsAfter(report[i], sectors))
  {
    assert report[..i + 1][..i] == report[..i];
    var zs := Usable(report[..i]);
    assert Usable(report[..i + 1]) == zs + (if report[i].available then [report[i]] else []);
    if report[i].available {
      RebuiltMore(nodes, zs, imgs, report[i]);
      TailSums(zs, ZONES * |nodes|, report[i]);
    } else {
      assert Usable(report[..i + 1]) == zs;
    }
  }

  lemma {:induction false} CloseStep(report: seq<ZoneInfo>, imgs: seq<seq<Byte>>, i: nat, nodes: seq<Node>, full: nat,
                                     sectors: nat)
    requires Sound(report) && i < |report| && Scanned(report, imgs, i, nodes, full, sectors)
    requires |Usable(report[..i])| == ZONES * (|nodes| + 1) && |nodes| < |imgs|
    ensures sectors / UNIT_SECTORS <= NODE_UNITS
    ensures Scanned(report, imgs, i, nodes + [Rebuilt(full, sectors, imgs[|nodes|])], 0, 0)
    ensures RebuiltUpTo(nodes + [Rebuilt(full, sectors, imgs[|nodes|])], Usable(report), imgs)
  {
    hide Rebuilt;
    var zs := Usable(report[..i]);
    RebuiltNext(nodes, zs, imgs);
    var nodes' := nodes + [Rebuilt(full, sectors, imgs[|nodes|])];
    assert zs[ZONES * |nodes'|..] == [];
    RebuiltFurther(nodes', report, imgs, i);
  }

  /** The node of the open zones is closed when there are 64 of them; `last` if no further node fits. */
  method CloseIfComplete(t: Ztl, report: seq<ZoneInfo>, imgs: seq<seq<Byte>>, i: nat, zones0: nat, full0: nat,
                         sectors0: nat, ghost overrun: bool) returns (last: bool, zones: nat, full: nat, sectors: nat)
    requires Sound(report) && ClosedNodes(report) <= |imgs| && i < |report|
    requires Wired(t) && |t.links.next| == |report| / ZONES
    requires Scanning(report, i, |t.nodes|, zones0, overrun) && Scanned(report, imgs, i, t.nodes, full0, sectors0)
    modifies t
    ensures Wired(t) && |t.links.next| == |report| / ZONES
    ensures last ==> |t.nodes| == ClosedNodes(report) && RebuiltUpTo(t.nodes, Usable(report), imgs)
    ensures last ==> (overrun <==> Overruns(report))
    ensures !last ==> Storing(report, i, |t.nodes|, zones, overrun) && Scanned(report, imgs, i, t.nodes, full, sectors)
  {
    hide Wired, Scanned, Overruns, ClosedNodes, Rebuilt, RebuiltUpTo, Storing;
    last, zones, full, sectors := false, zones0, full0, sectors0;
    if zones0 == ZONES {
      ScanClose(report, i, |t.nodes|, overrun);
      CloseStep(report, imgs, i, t.nodes, full, sectors);
      CloseNode(t, full, sectors, imgs[|t.nodes|]);
      last, zones, full, sectors := |report| - i + 1 < ZONES, 0, 0, 0;
    } else {
      ScanOpen(report, i, |t.nodes|, zones0, overrun);
    }
  }

  /** ztl_pro_grp_node_init over the report without the metadata zones; `imgs` is what the device holds.
      Every closed node is rebuilt from its 64 zones and listed by its status.  `overrun` tells whether
      zones were stored past the end of the node table. */
  method NodeInit(t: Ztl, report: seq<ZoneInfo>, imgs: seq<seq<Byte>>) returns (overrun: bool)
    requires Sound(report) && ClosedNodes(report) <= |imgs|
    modifies t
    ensures |t.nodes| == ClosedNodes(report) && Wired(t)
    ensures RebuiltUpTo(t.nodes, Usable(report), imgs)
    ensures overrun <==> Overruns(report)
  {
    hide Wired, Scanned, Scanning, Storing, Overruns, ClosedNodes, RebuiltUpTo, Usable, SectorsOf;
    EmptyTable(t, |report| / ZONES);
    var i, zones: nat, full: nat, sectors: nat, last := 0, 0, 0, 0, false;
    overrun := false;
    ScanStart(report, imgs);
    while i < |report|
      invariant 0 <= i <= |report| && Wired(t) && |t.links.next| == |report| / ZONES
      invariant Scanning(report, i, |t.nodes|, zones, overrun) && Scanned(report, imgs, i, t.nodes, full, sectors)
    {
      last, zones, full, sectors := CloseIfComplete(t, report, imgs, i, zones, full, sectors, overrun);
      if last {
        return;
      }
      ScanStep(report, i, |t.nodes|, zones, overrun);
      StoreStep(report, imgs, i, t.nodes, full, sectors);
      if report[i].available {
        overrun := overrun || |t.nodes| >= |report| / ZONES;
        zones, full, sectors := zones + 1, FullAfter(report[i], full), SectorsAfter(report[i], sectors);
      }
      i := i + 1;
    }
    ScanEnd(report, |t.nodes|, zones, overrun);
    ScannedAll(report, imgs, t.nodes, full, sectors);
  }

  lemma {:induction false} ScannedAll(report: seq<ZoneInfo>, imgs: seq<seq<Byte>>, nodes: seq<Node>, full: nat,
                                      sectors: nat)
    requires Scanned(report, imgs, |report|, nodes, full, sectors)
    ensures RebuiltUpTo(nodes, Usable(report), imgs)
  {
    assert report[..|report|] == report;
  }

  // ----- the recovered files

  /** One call of zrocks_node_set: a recovered piece of a file of the given level. */
  datatype Found = Found(level: int, node: nat, num: nat)

  ghost function FileFound(f: MetaLog.File, n: nat): seq<Found>
    requires n <= |f.pieces|
  {
    seq(n, i requires 0 <= i < n => Found(f.level, f.pieces[i].node, f.pieces[i].num))
  }

  /** The calls SetNodesInfo makes for the files, in the order of the table. */
  ghost function AllFound(files: seq<MetaLog.File>): seq<Found> {
    if files == [] then []
    else AllFound(files[..|files| - 1]) + FileFound(files[|files| - 1], |files[|files| - 1].pieces|)
  }

  predicate Settable(g: Group, e: Found) {
    e.node < |g.nodes|
  }

  /** The queue of an open node is indexed by the file's level, which is only clamped from above: a negative
      level stores before the array. */
  predicate Stray(g: Group, e: Found)
    requires Settable(g, e)
  {
    g.nodes[e.node].status == Used && e.level < 0
  }

  function QueueOf(level: int): (l: nat)
    requires 0 <= level
    ensures l < LEVELS
  {
    if level >= LEVELS then LEVELS - 1 else level
  }

  /** ztl_io_nodeset; a stray store changes no queue. */
  function NodeSet(g: Group, e: Found): Group
    requires Settable(g, e) && |g.queue| == LEVELS
  {
    var nd := g.nodes[e.node];
    if nd.status != Used then g.(nodes := g.nodes[e.node := nd.(valid := nd.valid + e.num)])
    else if e.level < 0 then
      g.(nodes := g.nodes[e.node := nd.(valid := nd.valid + e.num, level := e.level)])
    else
      g.(nodes := g.nodes[e.node := nd.(valid := nd.valid + e.num, level := QueueOf(e.level))],
         queue := g.queue[QueueOf(e.level) := Holding(e.node)])
  }

  ghost predicate AllSettable(g: Group, es: seq<Found>) {
    |g.queue| == LEVELS && forall i :: 0 <= i < |es| ==> Settable(g, es[i])
  }

  /** Only valid counts, levels and queues change. */
  ghost predicate Alike(g: Group, g': Group) {
    |g'.nodes| == |g.nodes| && |g'.queue| == |g.queue| && g'.free == g.free && g'.used == g.used &&
    g'.full == g.full && g'.nfree == g.nfree &&
    forall n :: 0 <= n < |g.nodes| ==>
      g'.nodes[n] == g.nodes[n].(valid := g'.nodes[n].valid, level := g'.nodes[n].level)
  }

  ghost function NodeSets(g: Group, es: seq<Found>): (g': Group)
    requires AllSettable(g, es)
    ensures Alike(g, g')
  {
    if es == [] then g else NodeSet(NodeSets(g, es[..|es| - 1]), es[|es| - 1])
  }

  lemma {:induction false} NodeSetsAppend(g: Group, es: seq<Found>, e: Found)
    requires AllSettable(g, es) && Settable(g, e)
    ensures AllSettable(g, es + [e]) && Settable(NodeSets(g, es), e)
    ensures NodeSets(g, es + [e]) == NodeSet(NodeSets(g, es), e)
  {
    assert (es + [e])[..|es|] == es;
  }

  lemma {:induction false} AllSettablePrefix(g: Group, es: seq<Found>, more: seq<Found>)
    requires AllSettable(g, es + more)
    ensures AllSettable(g, es) && forall i :: 0 <= i < |more| ==> Settable(g, more[i])
  {
    forall i | 0 <= i < |es| ensures Settable(g, es[i]) {
      assert (es + more)[i] == es[i];
    }
    forall i | 0 <= i < |more| ensures Settable(g, more[i]) {
      assert (es + more)[|es| + i] == more[i];
    }
  }

  /** ztl_io_nodeset; `stray` reports a store outside the queues. */
  method SetNode(t: Ztl, n: nat, level: int, num: nat) returns (stray: bool)
    requires Settable(t.State(), Found(level, n, num)) && |t.queue| == LEVELS
    modifies t
    ensures t.State() == NodeSet(old(t.State()), Found(level, n, num))
    ensures t.live == old(t.live) && t.links == old(t.links)
    ensures stray <==> Stray(old(t.State()), Found(level, n, num))
  {
    stray := false;
    t.nodes := t.nodes[n := t.nodes[n].(valid := t.nodes[n].valid + num)];
    if t.nodes[n].status == Used {
      var l := if level >= LEVELS then LEVELS - 1 else level;
      if l < 0 {
        stray := true;
      } else {
        t.queue := t.queue[l := Holding(n)];
      }
      t.nodes := t.nodes[n := t.nodes[n].(level := l)];
    }
  }

  /** Some of the calls stores outside the queues. */
  ghost predicate AnyStray(g: Group, es: seq<Found>)
    requires AllSettable(g, es)
  {
    exists i :: 0 <= i < |es| && Stray(g, es[i])
  }

  lemma {:induction false} AnyStrayAppend(g: Group, es: seq<Found>, e: Found)
    requires AllSettable(g, es) && Settable(g, e)
    ensures AllSettable(g, es + [e]) && (AnyStray(g, es + [e]) <==> AnyStray(g, es) || Stray(g, e))
  {
    var es' := es + [e];
    assert es'[|es|] == e;
    forall i | 0 <= i < |es| ensures es'[i] == es[i] {
    }
  }

  lemma {:induction false} FileFoundStep(g: Group, es: seq<Found>, f: MetaLog.File, i: nat)
    requires i < |f.pieces| && AllSettable(g, es + FileFound(f, |f.pieces|)) && AllSettable(g, es + FileFound(f, i))
    ensures var e := Found(f.level, f.pieces[i].node, f.pieces[i].num);
      Settable(g, e) && Settable(NodeSets(g, es + FileFound(f, i)), e) && AllSettable(g, es + FileFound(f, i + 1)) &&
      NodeSets(g, es + FileFound(f, i + 1)) == NodeSet(NodeSets(g, es + FileFound(f, i)), e) &&
      (AnyStray(g, es + FileFound(f, i + 1)) <==>
        AnyStray(g, es + FileFound(f, i)) || Stray(NodeSets(g, es + FileFound(f, i)), e))
  {
    var e := Found(f.level, f.pieces[i].node, f.pieces[i].num);
    AllSettablePrefix(g, es, FileFound(f, |f.pieces|));
    assert FileFound(f, |f.pieces|)[i] == e && FileFound(f, i + 1) == FileFound(f, i) + [e];
    assert es + FileFound(f, i + 1) == (es + FileFound(f, i)) + [e];
    AnyStrayAppend(g, es + FileFound(f, i), e);
    hide NodeSet, NodeSets, AnyStray;
    NodeSetsAppend(g, es + FileFound(f, i), e);
  }

  /** The inner loop of SetNodesInfo. */
  method SetFile(t: Ztl, f: MetaLog.File, ghost g: Group, ghost es: seq<Found>, stray0: bool) returns (stray: bool)
    requires AllSettable(g, es + FileFound(f, |f.pieces|))
    requires AllSettable(g, es) && t.State() == NodeSets(g, es) && (stray0 <==> AnyStray(g, es))
    modifies t
    ensures t.State() == NodeSets(g, es + FileFound(f, |f.pieces|)) && t.live == old(t.live) && t.links == old(t.links)
    ensures stray <==> AnyStray(g, es + FileFound(f, |f.pieces|))
  {
    var i := 0;
    assert es + FileFound(f, 0) == es;
    hide NodeSets, NodeSet, FileFound, Settable, AnyStray, Stray;
    stray := stray0;
    while i < |f.pieces|
      invariant 0 <= i <= |f.pieces| && t.live == old(t.live) && t.links == old(t.links)
      invariant AllSettable(g, es + FileFound(f, i)) && t.State() == NodeSets(g, es + FileFound(f, i))
      invariant stray <==> AnyStray(g, es + FileFound(f, i))
    {
      FileFoundStep(g, es, f, i);
      var outside := SetNode(t, f.pieces[i].node, f.level, f.pieces[i].num);
      stray := stray || outside;
      i := i + 1;
    }
  }

  /** SetNodesInfo over the files of the recovered table.  A store outside the queues happens exactly when a
      file of negative level has a piece in a node that is still being written. */
  method SetNodesInfo(t: Ztl, files: seq<MetaLog.File>) returns (stray: bool)
    requires AllSettable(t.State(), AllFound(files))
    modifies t
    ensures t.State() == NodeSets(old(t.State()), AllFound(files)) && t.live == old(t.live) && t.links == old(t.links)
    ensures stray <==> AnyStray(old(t.State()), AllFound(files))
  {
    ghost var g := t.State();
    stray := false;
    var i := 0;
    while i < |files|
      invariant 0 <= i <= |files| && t.live == old(t.live) && t.links == old(t.links)
      invariant AllSettable(g, AllFound(files[..i])) && t.State() == NodeSets(g, AllFound(files[..i]))
      invariant stray <==> AnyStray(g, AllFound(files[..i]))
    {
      AllFoundPrefix(g, files, i + 1);
      assert files[..i + 1][..i] == files[..i];
      stray := SetFile(t, files[i], g, AllFound(files[..i]), stray);
      i := i + 1;
    }
    assert files[..|files|] == files;
  }

  lemma {:induction false} AllFoundPrefix(g: Group, files: seq<MetaLog.File>, i: nat)
    requires i <= |files| && AllSettable(g, AllFound(files))
    ensures AllSettable(g, AllFound(files[..i]))
    decreases |files|
  {
    if i == |files| {
      assert files[..i] == files;
    } else {
      var n := |files| - 1;
      AllSettablePrefix(g, AllFound(files[..n]), FileFound(files[n], |files[n].pieces|));
      AllFoundPrefix(g, files[..n], i);
      assert files[..n][..i] == files[..i];
    }
  }

  // ----- clearing

  /** One iteration of ztl_mgmt_clear_invalid_node. */
  function ClearNode(g: Group, n: nat): Group
    requires n < |g.nodes|
  {
    if g.nodes[n].valid == 0 && g.nodes[n].status != Free then ResetNode(g, n) else g
  }

  ghost function ClearUpTo(g: Group, k: nat): (g': Group)
    requires k <= |g.nodes|
    ensures |g'.nodes| == |g.nodes| && g'.queue == g.queue
  {
    if k == 0 then g else ClearNode(ClearUpTo(g, k - 1), k - 1)
  }

  /** The node has no valid unit and is not free. */
  predicate Idle(nd: Node) {
    nd.valid == 0 && nd.status != Free
  }

  /** Exactly the idle nodes among the first `k` become fresh. */
  lemma {:induction false} ClearsExactly(g: Group, k: nat, n: nat)
    requires k <= |g.nodes| && n < |g.nodes|
    ensures ClearUpTo(g, k).nodes[n] == if n < k && Idle(g.nodes[n]) then FRESH_NODE else g.nodes[n]
  {
    hide Unlink;
    if k > 0 {
      ClearsExactly(g, k - 1, n);
      ClearsExactly(g, k - 1, k - 1);
    }
  }

  /** They leave the list they are on for the free list. */
  lemma {:induction false} ClearsLists(g: Group, k: nat, n: nat)
    requires k <= |g.nodes| && n < |g.nodes| && Distinct(g.used) && Distinct(g.full)
    ensures var g', cleared := ClearUpTo(g, k), n < k && Idle(g.nodes[n]);
      (n in g'.free <==> n in g.free || cleared) && (n in g'.used <==> n in g.used && !cleared) &&
      (n in g'.full <==> n in g.full && !cleared) && Distinct(g'.used) && Distinct(g'.full)
  {
    hide Distinct, ResetNode;
    if k > 0 {
      ClearsLists(g, k - 1, n);
      ClearsExactly(g, k - 1, k - 1);
      ResetLists(ClearUpTo(g, k - 1), k - 1, n);
    }
  }

  lemma {:induction false} ResetLists(g: Group, m: nat, n: nat)
    requires m < |g.nodes| && Distinct(g.used) && Distinct(g.full)
    ensures var g' := ResetNode(g, m);
      (n in g'.free <==> n in g.free || n == m) && (n in g'.used <==> n in g.used && n != m) &&
      (n in g'.full <==> n in g.full && n != m) && Distinct(g'.used) && Distinct(g'.full)
  {
    UnlinkDistinct(g.used, m);
    UnlinkDistinct(g.full, m);
    hide Distinct;
  }

  /** The last node of the used list has no valid unit. */
  ghost predicate LastIdle(g: Group) {
    g.used != [] && g.used[|g.used| - 1] < |g.nodes| && Idle(g.nodes[g.used[|g.used| - 1]])
  }

  lemma {:induction false} UnlinkLast(list: seq<nat>, n: nat)
    requires list != [] && list[|list| - 1] != n
    ensures var rest := Unlink(list, n); rest != [] && rest[|rest| - 1] == list[|list| - 1]
  {
    if list[0] != n && |list| > 1 {
      UnlinkLast(list[1..], n);
    }
  }

  /** Until its turn comes, the last node of the used list stays the last. */
  lemma {:induction false} LastKept(g: Group, k: nat)
    requires k <= |g.nodes| && g.used != [] && !(g.used[|g.used| - 1] < k && LastIdle(g))
    ensures var used := ClearUpTo(g, k).used; used != [] && used[|used| - 1] == g.used[|g.used| - 1]
  {
    hide Unlink;
    if k > 0 {
      LastKept(g, k - 1);
      ClearsExactly(g, k - 1, k - 1);
      if Idle(g.nodes[k - 1]) {
        UnlinkLast(ClearUpTo(g, k - 1).used, k - 1);
      }
    }
  }

  /** Every node that is not free is on the used or the full list. */
  ghost predicate OnLists(g: Group) {
    Distinct(g.used) && Distinct(g.full) &&
    forall n :: 0 <= n < |g.nodes| && g.nodes[n].status != Free ==> n in g.used || n in g.full
  }

  /** The node whose turn it is: on a list if it is to be reset, and last on the used list only if it was from the
      beginning. */
  lemma {:induction false} ClearTurn(g: Group, k: nat)
    requires OnLists(g) && k < |g.nodes|
    ensures var g' := ClearUpTo(g, k);
      g'.nodes[k] == g.nodes[k] && (Idle(g.nodes[k]) ==> k in g'.used || k in g'.full) &&
      (g.used != [] && !(g.used[|g.used| - 1] < k && LastIdle(g)) ==>
        g'.used != [] && g'.used[|g'.used| - 1] == g.used[|g.used| - 1]) &&
      (k in g'.used ==> k in g.used)
  {
    ClearsExactly(g, k, k);
    ClearsLists(g, k, k);
    hide ClearUpTo, Distinct;
    if g.used != [] && !(g.used[|g.used| - 1] < k && LastIdle(g)) {
      LastKept(g, k);
    }
  }

  /** One iteration: the node is unlinked through the head of the full list, whatever list it is on. */
  method ClearOne(t: Ztl, n: nat, ghost stale: bool) returns (last: bool)
    requires n < |t.nodes| <= |t.links.next| && Tailq.Resetting(t.links, Tailq.ListsOf(t.State()), stale)
    requires Idle(t.nodes[n]) ==> n in t.used || n in t.full
    modifies t
    ensures t.State() == ClearNode(old(t.State()), n) && t.live == old(t.live) && |t.nodes| == |old(t.nodes)|
    ensures last <==> old(Idle(t.nodes[n]) && t.used != [] && n == t.used[|t.used| - 1])
    ensures Tailq.Resetting(t.links, Tailq.ListsOf(t.State()), stale || last)
    ensures |t.links.next| == |old(t.links.next)|
  {
    hide Tailq.Resetting, Tailq.ListsOf, Tailq.Move, Tailq.Remove, Tailq.Removable, Tailq.SlotOk, Unlink;
    last := false;
    if Idle(t.nodes[n]) {
      last := t.used != [] && n == t.used[|t.used| - 1];
      Tailq.ResetLinks(t.links, t.State(), stale, n);
      t.links := Tailq.Move(t.links, Tailq.FULL, n, Tailq.FREE);
      t.nodes := t.nodes[n := FRESH_NODE];
      t.used, t.full := Unlink(t.used, n), Unlink(t.full, n);
      t.free := t.free + [n];
      t.nfree := t.nfree + 1;
    }
  }

  /** ztl_mgmt_clear_invalid_node.  Read from their first links the lists are right afterwards; the tail of the used
      list, and with it all pointers, exactly when the last node of that list was not cleared. */
  method ClearInvalid(t: Ztl) returns (stale: bool)
    requires OnLists(t.State()) && Tailq.LinkedTo(t.links, t.State())
    modifies t
    ensures t.State() == ClearUpTo(old(t.State()), |old(t.nodes)|) && t.live == old(t.live)
    ensures |t.nodes| == |old(t.nodes)| && forall n :: 0 <= n < |t.nodes| ==>
      t.nodes[n] == if old(Idle(t.nodes[n])) then FRESH_NODE else old(t.nodes[n])
    ensures stale <==> LastIdle(old(t.State()))
    ensures Tailq.LinkedTo(t.links, t.State()) <==> !stale
  {
    hide Tailq.Resetting, Tailq.ListsOf, Tailq.LinkedTo, ClearNode, OnLists;
    ghost var g := t.State();
    Tailq.LinkedResetting(t.links, g);
    forall n | 0 <= n < |g.nodes|
      ensures ClearUpTo(g, |g.nodes|).nodes[n] == if Idle(g.nodes[n]) then FRESH_NODE else g.nodes[n]
    {
      ClearsExactly(g, |g.nodes|, n);
    }
    stale := false;
    var n := 0;
    while n < |t.nodes|
      invariant 0 <= n <= |t.nodes| == |g.nodes| <= |t.links.next| && t.live == old(t.live)
      invariant t.State() == ClearUpTo(g, n) && Tailq.Resetting(t.links, Tailq.ListsOf(t.State()), stale)
      invariant stale <==> LastIdle(g) && g.used[|g.used| - 1] < n
    {
      ClearTurn(g, n);
      var last := ClearOne(t, n, stale);
      stale := stale || last;
      n := n + 1;
    }
    Tailq.ResettingIff(t.links, Tailq.ListsOf(t.State()), stale);
    Tailq.LinkedToIff(t.links, t.State());
  }

  /** Resetting a node that nobody holds and that has no valid unit keeps the invariant. */
  lemma {:induction false} ResetIdleInv(g: Group, live: seq<Live>, n: nat)
    requires Inv(g, live) && n < |g.nodes| && g.nodes[n].valid == 0 && g.nodes[n].status != Free && !IsHeld(g, n)
    ensures Inv(ResetNode(g, n), live)
  {
    var g' := ResetNode(g, n);
    assert OnOneList(g, n) && NodeOk(g, n);
    UnlinkDistinct(g.full, n);
    UnlinkDistinct(g.used, n);
    forall i | 0 <= i < |live| ensures live[i].num > 0 {
      assert LiveOk(g, live[i]);
    }
    NoLivePiece(live, n);
    forall m | 0 <= m < |g.nodes| ensures OnOneList(g', m) && NodeOk(g', m) {
      assert OnOneList(g, m) && NodeOk(g, m);
    }
    forall i | 0 <= i < |live| ensures LiveOk(g', live[i]) {
      assert LiveOk(g, live[i]);
    }
  }

  ghost predicate HeldValid(g: Group) {
    forall l :: 0 <= l < |g.queue| && g.queue[l].Holding? ==>
      g.queue[l].node < |g.nodes| && g.nodes[g.queue[l].node].valid > 0
  }

  lemma {:induction false} ClearNodeInv(g: Group, live: seq<Live>, n: nat)
    requires Inv(g, live) && HeldValid(g) && n < |g.nodes|
    ensures Inv(ClearNode(g, n), live) && HeldValid(ClearNode(g, n))
  {
    hide Inv;
    if g.nodes[n].valid == 0 && g.nodes[n].status != Free {
      ResetIdleInv(g, live, n);
    }
  }

  lemma {:induction false} ClearInv(g: Group, live: seq<Live>, k: nat)
    requires Inv(g, live) && HeldValid(g) && k <= |g.nodes|
    ensures Inv(ClearUpTo(g, k), live) && HeldValid(ClearUpTo(g, k))
  {
    hide Inv, HeldValid, ClearNode;
    if k > 0 {
      ClearInv(g, live, k - 1);
      ClearNodeInv(ClearUpTo(g, k - 1), live, k - 1);
    }
  }

  // ----- the whole of start-up

  ghost function UnitsFound(es: seq<Found>, n: nat): nat {
    if es == [] then 0
    else UnitsFound(es[..|es| - 1], n) + (if es[|es| - 1].node == n then es[|es| - 1].num else 0)
  }

  /** The last recovered piece of a queue that lies on a node still being written. */
  ghost function LastUsed(g: Group, es: seq<Found>, l: nat): Held
    requires AllSettable(g, es)
  {
    if es == [] then Nothing
    else
      var e := es[|es| - 1];
      if g.nodes[e.node].status == Used && 0 <= e.level && QueueOf(e.level) == l then Holding(e.node)
      else LastUsed(g, es[..|es| - 1], l)
  }

  lemma {:induction false} SetsValid(g: Group, es: seq<Found>, n: nat)
    requires AllSettable(g, es) && n < |g.nodes|
    ensures NodeSets(g, es).nodes[n].valid == g.nodes[n].valid + UnitsFound(es, n)
  {
    if es != [] {
      SetsValid(g, es[..|es| - 1], n);
    }
  }

  lemma {:induction false} SetsQueue(g: Group, es: seq<Found>, l: nat)
    requires AllSettable(g, es) && l < LEVELS && g.queue[l] == Nothing
    ensures NodeSets(g, es).queue[l] == LastUsed(g, es, l)
  {
    if es != [] {
      SetsQueue(g, es[..|es| - 1], l);
    }
  }

  lemma {:induction false} LastUsedFound(g: Group, es: seq<Found>, l: nat)
    requires AllSettable(g, es) && LastUsed(g, es, l).Holding? && forall i :: 0 <= i < |es| ==> es[i].num > 0
    ensures var n := LastUsed(g, es, l).node;
      n < |g.nodes| && g.nodes[n].status == Used && UnitsFound(es, n) > 0
  {
    var e := es[|es| - 1];
    if !(g.nodes[e.node].status == Used && 0 <= e.level && QueueOf(e.level) == l) {
      LastUsedFound(g, es[..|es| - 1], l);
    }
  }

  /** Full nodes come out of start-up without a level. */
  lemma {:induction false} SetsFullLevel(g: Group, es: seq<Found>, n: nat)
    requires AllSettable(g, es) && n < |g.nodes| && g.nodes[n].status == Full && g.nodes[n].level == -1
    ensures NodeSets(g, es).nodes[n].level == -1
  {
    if es != [] {
      SetsFullLevel(g, es[..|es| - 1], n);
    }
  }

  /** The node table right after init, for the images the device holds. */
  ghost predicate Booted(g: Group) {
    Listed(g) && forall n :: 0 <= n < |g.nodes| ==> BootedNode(g.nodes[n])
  }

  predicate BootedNode(nd: Node) {
    |nd.img| % UNIT == 0 && |nd.img| / UNIT <= NODE_UNITS && nd == BootNode(nd.img)
  }

  lemma {:induction false} SelectIn(nodes: seq<Node>, status: Status, n: nat)
    ensures n in Select(nodes, status) <==> n < |nodes| && nodes[n].status == status
  {
    if nodes != [] {
      SelectIn(nodes[..|nodes| - 1], status, n);
    }
  }

  lemma {:induction false} SelectDistinct(nodes: seq<Node>, status: Status)
    ensures Distinct(Select(nodes, status))
  {
    if nodes != [] {
      var m := |nodes| - 1;
      SelectDistinct(nodes[..m], status);
      SelectIn(nodes[..m], status, m);
    }
  }

  /** The recovered pieces are those of the files, they lie inside their nodes and do not overlap. */
  ghost predicate Recoverable(g: Group, es: seq<Found>, live: seq<Live>) {
    |es| == |live| &&
    (forall i :: 0 <= i < |live| ==> LiveOk(g, live[i]) && es[i].node == live[i].node && es[i].num == live[i].num) &&
    forall i, j :: 0 <= i < j < |live| ==> Apart(live[i], live[j])
  }

  /** All pieces of the recovered files, in the order of the table. */
  ghost function AllPieces(files: seq<MetaLog.File>): seq<Piece> {
    if files == [] then [] else AllPieces(files[..|files| - 1]) + files[|files| - 1].pieces
  }

  lemma {:induction false} FoundPieces(files: seq<MetaLog.File>)
    ensures |AllFound(files)| == |AllPieces(files)|
    ensures forall i :: 0 <= i < |AllPieces(files)| ==>
      AllFound(files)[i].node == AllPieces(files)[i].node && AllFound(files)[i].num == AllPieces(files)[i].num
  {
    if files != [] {
      FoundPieces(files[..|files| - 1]);
    }
  }

  /** The pieces are those of `live`, which lie inside their nodes with their bytes and do not overlap. */
  ghost predicate Backed(g: Group, ps: seq<Piece>, live: seq<Live>) {
    |ps| == |live| &&
    (forall i :: 0 <= i < |live| ==> LiveOk(g, live[i]) && ps[i] == Entry(live[i], ps[i].padding)) &&
    forall i, j :: 0 <= i < j < |live| ==> Apart(live[i], live[j])
  }

  lemma {:induction false} BackedRecoverable(g: Group, files: seq<MetaLog.File>, live: seq<Live>)
    requires |g.queue| == LEVELS && Backed(g, AllPieces(files), live)
    ensures AllSettable(g, AllFound(files)) && Recoverable(g, AllFound(files), live)
  {
    FoundPieces(files);
    hide AllFound, AllPieces, LiveOk;
    var es := AllFound(files);
    forall i | 0 <= i < |live| ensures es[i].node == live[i].node && es[i].num == live[i].num && Settable(g, es[i]) {
      assert AllPieces(files)[i] == Entry(live[i], AllPieces(files)[i].padding);
      LiveNode(g, live[i]);
    }
  }

  lemma {:induction false} LiveNode(g: Group, p: Live)
    requires LiveOk(g, p)
    ensures p.node < |g.nodes|
  {
  }

  lemma {:induction false} UnitsFoundLive(es: seq<Found>, live: seq<Live>, n: nat)
    requires |es| == |live| && forall i :: 0 <= i < |live| ==> es[i].node == live[i].node && es[i].num == live[i].num
    ensures UnitsFound(es, n) == LiveUnits(live, n)
  {
    if es != [] {
      UnitsFoundLive(es[..|es| - 1], live[..|live| - 1], n);
    }
  }

  /** No two levels continue on the same node. */
  ghost predicate LevelsApart(g: Group, es: seq<Found>)
    requires AllSettable(g, es)
  {
    forall l, m :: 0 <= l < m < LEVELS && LastUsed(g, es, l).Holding? ==> LastUsed(g, es, l) != LastUsed(g, es, m)
  }

  lemma {:induction false} BootedLists(g: Group)
    requires Booted(g)
    ensures Lists(g) && |g.queue| == LEVELS
    ensures forall n: nat :: n in g.used <==> n < |g.nodes| && g.nodes[n].status == Used
    ensures forall n: nat :: n in g.free <==> n < |g.nodes| && g.nodes[n].status == Free
    ensures forall n: nat :: n in g.full <==> n < |g.nodes| && g.nodes[n].status == Full
  {
    forall n: nat ensures (n in g.used <==> n < |g.nodes| && g.nodes[n].status == Used) &&
      (n in g.free <==> n < |g.nodes| && g.nodes[n].status == Free) &&
      (n in g.full <==> n < |g.nodes| && g.nodes[n].status == Full)
    {
      SelectIn(g.nodes, Used, n);
      SelectIn(g.nodes, Free, n);
      SelectIn(g.nodes, Full, n);
    }
    SelectDistinct(g.nodes, Used);
    SelectDistinct(g.nodes, Free);
    SelectDistinct(g.nodes, Full);
    hide Select;
    forall n | 0 <= n < |g.nodes| ensures OnOneList(g, n) {
      assert BootedNode(g.nodes[n]);
    }
  }

  /** A node of the booted table, whatever its valid count and level, is in order. */
  lemma {:induction false} BootedNodeOk(g: Group, g': Group, n: nat)
    requires Booted(g) && Alike(g, g') && n < |g.nodes|
    requires g.nodes[n].status == Free ==> g'.nodes[n] == g.nodes[n]
    ensures NodeOk(g', n)
  {
    BootedLists(g);
    hide Select;
    assert BootedNode(g.nodes[n]);
    if g.nodes[n].status == Free {
      assert g.nodes[n].img == [];
    }
  }

  lemma {:induction false} SetsUntouched(g: Group, es: seq<Found>, n: nat)
    requires AllSettable(g, es) && n < |g.nodes| && forall i :: 0 <= i < |es| ==> es[i].node != n
    ensures NodeSets(g, es).nodes[n] == g.nodes[n]
  {
    if es != [] {
      SetsUntouched(g, es[..|es| - 1], n);
    }
  }

  /** A free node holds no recovered piece, so nothing is set on it. */
  lemma {:induction false} SetsFree(g: Group, es: seq<Found>, live: seq<Live>, n: nat)
    requires AllSettable(g, es) && Recoverable(g, es, live)
    requires n < |g.nodes| && BootedNode(g.nodes[n]) && g.nodes[n].status == Free
    ensures NodeSets(g, es).nodes[n] == g.nodes[n]
  {
    forall i | 0 <= i < |es| ensures es[i].node != n {
      assert LiveOk(g, live[i]);
    }
    SetsUntouched(g, es, n);
  }

  /** Valid counts, node states and pieces are those of the running system, for every node and piece. */
  lemma {:induction false} RecoveredNodes(g: Group, es: seq<Found>, live: seq<Live>)
    requires Booted(g) && AllSettable(g, es) && Recoverable(g, es, live)
    ensures var g' := NodeSets(g, es);
      Lists(g') && (forall n :: 0 <= n < |g'.nodes| ==> NodeOk(g', n) && g'.nodes[n].valid == LiveUnits(live, n)) &&
      (forall i :: 0 <= i < |live| ==> LiveOk(g', live[i]))
  {
    var g' := NodeSets(g, es);
    BootedLists(g);
    hide NodeSets, Select;
    forall n | 0 <= n < |g'.nodes|
      ensures OnOneList(g', n) && NodeOk(g', n) && g'.nodes[n].valid == LiveUnits(live, n)
    {
      assert OnOneList(g, n) && BootedNode(g.nodes[n]);
      if g.nodes[n].status == Free {
        SetsFree(g, es, live, n);
      }
      BootedNodeOk(g, g', n);
      SetsValid(g, es, n);
      UnitsFoundLive(es, live, n);
    }
    forall i | 0 <= i < |live| ensures LiveOk(g', live[i]) {
      assert LiveOk(g, live[i]);
    }
  }

  lemma {:induction false} RecoveredQueues(g: Group, es: seq<Found>, live: seq<Live>)
    requires Booted(g) && AllSettable(g, es) && Recoverable(g, es, live)
    ensures HeldValid(NodeSets(g, es)) && (Queues(NodeSets(g, es)) <==> LevelsApart(g, es))
  {
    var g' := NodeSets(g, es);
    BootedLists(g);
    hide NodeSets, Select, LastUsed;
    forall i | 0 <= i < |es| ensures es[i].num > 0 {
      assert LiveOk(g, live[i]);
    }
    forall l | 0 <= l < LEVELS
      ensures g'.queue[l] == LastUsed(g, es, l)
      ensures g'.queue[l].Holding? ==> var n := g'.queue[l].node; n < |g.nodes| && n in g'.used && g'.nodes[n].valid > 0
    {
      SetsQueue(g, es, l);
      if g'.queue[l].Holding? {
        LastUsedFound(g, es, l);
        SetsValid(g, es, g'.queue[l].node);
      }
    }
  }

  /** Start-up re-establishes the invariant of the running system exactly when no two levels continue on
      the same node. */
  lemma {:induction false} RecoveredInvIff(g: Group, es: seq<Found>, live: seq<Live>)
    requires Booted(g) && AllSettable(g, es) && Recoverable(g, es, live)
    ensures Inv(NodeSets(g, es), live) <==> LevelsApart(g, es)
  {
    RecoveredNodes(g, es, live);
    RecoveredQueues(g, es, live);
    hide NodeSets, Lists, Queues, NodeOk, LiveOk, LevelsApart;
  }

  /** Two pieces in one open node, of files of non-negative levels, belong to the same queue. */
  ghost predicate LevelsAgree(g: Group, e: Found, e': Found)
    requires Settable(g, e) && Settable(g, e')
  {
    e.node == e'.node && g.nodes[e.node].status == Used && 0 <= e.level && 0 <= e'.level ==>
    QueueOf(e.level) == QueueOf(e'.level)
  }

  /** Files that agree on the level of each node they share keep the levels apart. */
  lemma {:induction false} OneLevelPerNode(g: Group, es: seq<Found>)
    requires AllSettable(g, es) && forall i, j :: 0 <= i < j < |es| ==> LevelsAgree(g, es[i], es[j])
    ensures LevelsApart(g, es)
  {
    hide LastUsed;
    forall l, m | 0 <= l < m < LEVELS && LastUsed(g, es, l).Holding?
      ensures LastUsed(g, es, l) != LastUsed(g, es, m)
    {
      if LastUsed(g, es, l) == LastUsed(g, es, m) {
        var i := LastUsedAt(g, es, l);
        var j := LastUsedAt(g, es, m);
      }
    }
  }

  /** Pieces of two levels on one node that is still being written: both levels continue on it. */
  lemma {:induction false} LevelsShareNode(g: Group, n: nat, l: nat, m: nat)
    requires |g.queue| == LEVELS && n < |g.nodes| && g.nodes[n].status == Used && l < m < LEVELS
    ensures var es := [Found(l, n, 1), Found(m, n, 1)];
      AllSettable(g, es) && NodeSets(g, es).queue[l] == NodeSets(g, es).queue[m] == Holding(n)
  {
    var e, e' := Found(l, n, 1), Found(m, n, 1);
    assert [] + [e] == [e] && [e] + [e'] == [e, e'];
    NodeSetsAppend(g, [], e);
    NodeSetsAppend(g, [e], e');
  }

  lemma {:induction false} LastUsedAt(g: Group, es: seq<Found>, l: nat) returns (i: nat)
    requires AllSettable(g, es) && LastUsed(g, es, l).Holding?
    ensures i < |es| && LastUsed(g, es, l) == Holding(es[i].node) && g.nodes[es[i].node].status == Used
    ensures 0 <= es[i].level && QueueOf(es[i].level) == l
  {
    var e := es[|es| - 1];
    if g.nodes[e.node].status == Used && 0 <= e.level && QueueOf(e.level) == l {
      i := |es| - 1;
    } else {
      i := LastUsedAt(g, es[..|es| - 1], l);
    }
  }

  /** Clearing never resets a node that holds a recovered piece, whatever the levels. */
  lemma {:induction false} ClearKeepsRecovered(g: Group, es: seq<Found>, live: seq<Live>, i: nat)
    requires Booted(g) && AllSettable(g, es) && Recoverable(g, es, live) && i < |live|
    ensures var g' := NodeSets(g, es);
      live[i].node < |g'.nodes| && ClearUpTo(g', |g'.nodes|).nodes[live[i].node] == g'.nodes[live[i].node]
  {
    var g' := NodeSets(g, es);
    RecoveredNodes(g, es, live);
    hide NodeSets, ClearUpTo;
    assert LiveOk(g', live[i]);
    LiveUnitsPositive(live, i, live[i].node);
    ClearsExactly(g', |g'.nodes|, live[i].node);
  }

  /** Every closed node reports a striped image. */
  ghost predicate Balances(report: seq<ZoneInfo>, imgs: seq<seq<Byte>>) {
    |imgs| == ClosedNodes(report) && ZONES * |imgs| <= |Usable(report)| &&
    forall n :: 0 <= n < |imgs| ==> Reports(Group64(Usable(report), n), imgs[n])
  }

  lemma {:induction false} BootedFromReport(nodes: seq<Node>, report: seq<ZoneInfo>, imgs: seq<seq<Byte>>)
    requires Balances(report, imgs) && |nodes| == |imgs| && RebuiltUpTo(nodes, Usable(report), imgs)
    ensures forall n :: 0 <= n < |nodes| ==> BootedNode(nodes[n]) && nodes[n].img == imgs[n]
  {
    forall n | 0 <= n < |nodes| ensures BootedNode(nodes[n]) && nodes[n].img == imgs[n] {
      assert RebuiltAt(nodes, Usable(report), imgs, n);
      RebuiltFromBalanced(Group64(Usable(report), n), imgs[n]);
    }
  }

  /** The table that start-up leads to, for a balanced report. */
  ghost function BootGroup(imgs: seq<seq<Byte>>): Group
    requires forall n :: 0 <= n < |imgs| ==> |imgs[n]| % UNIT == 0 && |imgs[n]| / UNIT <= NODE_UNITS
  {
    var nodes := seq(|imgs|, n requires 0 <= n < |imgs| => BootNode(imgs[n]));
    Group(nodes, Select(nodes, Free), Select(nodes, Used), Select(nodes, Full), |Select(nodes, Free)|,
          seq(LEVELS, _ => Nothing))
  }

  // ----- the last open node

  /** The node was written, and has room left. */
  predicate PartlyWritten(img: seq<Byte>) {
    0 < |img| / UNIT < NODE_UNITS
  }

  /** Node `n` is the last one that is neither empty nor full. */
  ghost predicate LastOpen(imgs: seq<seq<Byte>>, n: nat) {
    n < |imgs| && PartlyWritten(imgs[n]) && forall m :: n < m < |imgs| ==> !PartlyWritten(imgs[m])
  }

  /** The last open node holds no piece of any recovered file. */
  ghost predicate LastOpenEmpty(imgs: seq<seq<Byte>>, ps: seq<Piece>) {
    exists n :: LastOpen(imgs, n) && forall i :: 0 <= i < |ps| ==> ps[i].node != n
  }

  lemma {:induction false} SelectLast(nodes: seq<Node>, status: Status)
    ensures var list := Select(nodes, status);
      if list == [] then forall m :: 0 <= m < |nodes| ==> nodes[m].status != status
      else
        var n := list[|list| - 1];
        n < |nodes| && nodes[n].status == status && forall m :: n < m < |nodes| ==> nodes[m].status != status
  {
    if nodes != [] {
      SelectLast(nodes[..|nodes| - 1], status);
    }
  }

  lemma {:induction false} NoUnitsFound(es: seq<Found>, n: nat)
    requires forall i :: 0 <= i < |es| ==> es[i].num > 0
    ensures UnitsFound(es, n) == 0 <==> forall i :: 0 <= i < |es| ==> es[i].node != n
  {
    if es != [] {
      NoUnitsFound(es[..|es| - 1], n);
    }
  }

  /** The used list ends with the last open node. */
  lemma {:induction false} UsedEnds(imgs: seq<seq<Byte>>)
    requires forall n :: 0 <= n < |imgs| ==> |imgs[n]| % UNIT == 0 && |imgs[n]| / UNIT <= NODE_UNITS
    ensures var used := BootGroup(imgs).used;
      if used == [] then forall n: nat :: !LastOpen(imgs, n)
      else forall n: nat :: LastOpen(imgs, n) <==> n == used[|used| - 1]
    ensures |BootGroup(imgs).nodes| == |imgs| && forall n :: 0 <= n < |imgs| ==> BootGroup(imgs).nodes[n].valid == 0
    ensures forall n :: 0 <= n < |imgs| ==> (BootGroup(imgs).nodes[n].status == Used <==> PartlyWritten(imgs[n]))
  {
    var g := BootGroup(imgs);
    SelectLast(g.nodes, Used);
    hide Select;
    forall n | 0 <= n < |imgs|
      ensures g.nodes[n].valid == 0 && (g.nodes[n].status == Used <==> PartlyWritten(imgs[n]))
    {
      assert g.nodes[n] == BootNode(imgs[n]);
    }
    hide BootGroup, PartlyWritten;
    if g.used != [] {
      var last := g.used[|g.used| - 1];
      forall n: nat ensures LastOpen(imgs, n) <==> n == last {
        assert last < |imgs| && PartlyWritten(imgs[last]);
      }
    }
  }

  lemma {:induction false} FoundNums(g: Group, files: seq<MetaLog.File>, live: seq<Live>)
    requires Backed(g, AllPieces(files), live)
    ensures |AllFound(files)| == |AllPieces(files)|
    ensures forall i :: 0 <= i < |AllFound(files)| ==>
      AllFound(files)[i].num > 0 && AllFound(files)[i].node == AllPieces(files)[i].node
  {
    hide AllFound, AllPieces;
    FoundPieces(files);
    var es, ps := AllFound(files), AllPieces(files);
    forall i | 0 <= i < |es| ensures es[i].num > 0 {
      assert LiveOk(g, live[i]) && ps[i] == Entry(live[i], ps[i].padding);
    }
  }

  /** Clearing meets an idle node at the end of the used list exactly when the last open node holds nothing. */
  lemma {:induction false} LastIdleIff(imgs: seq<seq<Byte>>, files: seq<MetaLog.File>, live: seq<Live>)
    requires forall n :: 0 <= n < |imgs| ==> |imgs[n]| % UNIT == 0 && |imgs[n]| / UNIT <= NODE_UNITS
    requires Backed(BootGroup(imgs), AllPieces(files), live) && AllSettable(BootGroup(imgs), AllFound(files))
    ensures LastIdle(NodeSets(BootGroup(imgs), AllFound(files))) <==> LastOpenEmpty(imgs, AllPieces(files))
  {
    hide NodeSets, AllFound, AllPieces, Backed, PartlyWritten, BootGroup, LastOpen, UnitsFound, AllSettable;
    var g, es := BootGroup(imgs), AllFound(files);
    UsedEnds(imgs);
    FoundNums(g, files, live);
    if g.used != [] {
      var n := g.used[|g.used| - 1];
      assert LastOpen(imgs, n);
      OpenNode(imgs, n);
      SetsValid(g, es, n);
      NoUnitsFound(es, n);
    }
  }

  lemma {:induction false} OpenNode(imgs: seq<seq<Byte>>, n: nat)
    requires LastOpen(imgs, n)
    ensures n < |imgs| && PartlyWritten(imgs[n])
  {
  }

  /** Start-up as a whole: init from the report, SetNodesInfo from the recovered files, clearing.  Every recovered
      piece reads back.  The group is in order for the running system exactly when no two levels continue on one
      node and clearing did not reset the last node of the used list, which happens exactly when no recovered file
      has a piece there. */
  method StartUp(t: Ztl, report: seq<ZoneInfo>, imgs: seq<seq<Byte>>, files: seq<MetaLog.File>, ghost live: seq<Live>)
      returns (overrun: bool, stray: bool, stale: bool)
    requires Sound(report) && Balances(report, imgs)
    requires forall n :: 0 <= n < |imgs| ==> |imgs[n]| % UNIT == 0 && |imgs[n]| / UNIT <= NODE_UNITS
    requires Backed(BootGroup(imgs), AllPieces(files), live) && AllSettable(BootGroup(imgs), AllFound(files))
    modifies t
    ensures t.live == live && |t.nodes| == |imgs| && forall i :: 0 <= i < |live| ==> ReadsBack(t.State(), live[i])
    ensures Inv(t.State(), t.live) <==> LevelsApart(BootGroup(imgs), AllFound(files))
    ensures t.Valid() <==> LevelsApart(BootGroup(imgs), AllFound(files)) && !stale
    ensures stale <==> LastOpenEmpty(imgs, AllPieces(files))
    ensures overrun <==> Overruns(report)
    ensures stray <==> AnyStray(BootGroup(imgs), AllFound(files))
  {
    hide Inv, ReadsBack, LevelsApart, Recoverable, Backed, Tailq.LinkedTo, LastIdle, LastOpenEmpty, Reports, Sound;
    hide Overruns, NodeSets, AllFound, AllPieces, RebuiltUpTo, AnyStray, Listed, BootGroup, Booted, Usable, ClosedNodes;
    BackedRecoverable(BootGroup(imgs), files, live);
    overrun := NodeInit(t, report, imgs);
    InitBooted(t.State(), report, imgs);
    LastIdleIff(imgs, files, live);
    stray, stale := SetAndClear(t, files, live);
  }

  /** Start-up once the node table is there. */
  method SetAndClear(t: Ztl, files: seq<MetaLog.File>, ghost live: seq<Live>) returns (stray: bool, stale: bool)
    requires Booted(t.State()) && Tailq.LinkedTo(t.links, t.State())
    requires AllSettable(t.State(), AllFound(files)) && Recoverable(t.State(), AllFound(files), live)
    modifies t
    ensures t.live == live && |t.nodes| == |old(t.nodes)|
    ensures forall i :: 0 <= i < |live| ==> ReadsBack(t.State(), live[i])
    ensures Inv(t.State(), t.live) <==> LevelsApart(old(t.State()), AllFound(files))
    ensures t.Valid() <==> LevelsApart(old(t.State()), AllFound(files)) && !stale
    ensures stale <==> LastIdle(NodeSets(old(t.State()), AllFound(files)))
    ensures stray <==> AnyStray(old(t.State()), AllFound(files))
  {
    hide Inv, ReadsBack, LevelsApart, Recoverable, AllSettable, Tailq.LinkedTo, LastIdle, OnLists;
    hide NodeSets, ClearUpTo, AllFound, AnyStray, Booted, Idle;
    ghost var g, es := t.State(), AllFound(files);
    stray := SetNodesInfo(t, files);
    StartUpOrder(g, es, live);
    Tailq.SameLists(t.links, g, t.State());
    stale := ClearInvalid(t);
    t.live := live;
  }

  /** Init leads to the booted table. */
  lemma {:induction false} InitBooted(g: Group, report: seq<ZoneInfo>, imgs: seq<seq<Byte>>)
    requires Listed(g) && Balances(report, imgs) && |g.nodes| == |imgs| && RebuiltUpTo(g.nodes, Usable(report), imgs)
    requires forall n :: 0 <= n < |imgs| ==> |imgs[n]| % UNIT == 0 && |imgs[n]| / UNIT <= NODE_UNITS
    ensures g == BootGroup(imgs) && Booted(g)
  {
    BootedFromReport(g.nodes, report, imgs);
    assert g.nodes == BootGroup(imgs).nodes;
  }

  lemma {:induction false} BootGroupBooted(imgs: seq<seq<Byte>>)
    requires forall n :: 0 <= n < |imgs| ==> |imgs[n]| % UNIT == 0 && |imgs[n]| / UNIT <= NODE_UNITS
    ensures Booted(BootGroup(imgs))
  {
    hide Select;
  }

  lemma {:induction false} RecoveredOnLists(g: Group, es: seq<Found>)
    requires Booted(g) && AllSettable(g, es)
    ensures OnLists(NodeSets(g, es))
  {
    BootedLists(g);
    hide NodeSets, Select;
    forall n | 0 <= n < |g.nodes| ensures BootedNode(g.nodes[n]) {
    }
  }

  /** Every recovered piece reads back, whatever the levels. */
  lemma {:induction false} ClearedReadsBack(g: Group, es: seq<Found>, live: seq<Live>, i: nat)
    requires Booted(g) && AllSettable(g, es) && Recoverable(g, es, live) && i < |live|
    ensures LiveOk(ClearUpTo(NodeSets(g, es), |g.nodes|), live[i])
    ensures ReadsBack(ClearUpTo(NodeSets(g, es), |g.nodes|), live[i])
  {
    var g' := NodeSets(g, es);
    ClearKeepsRecovered(g, es, live, i);
    RecoveredNodes(g, es, live);
    assert LiveOk(g', live[i]) && NodeOk(g', live[i].node);
    hide NodeSets, ReadsBack, Lists;
    LiveReadsBack(ClearUpTo(g', |g.nodes|), live[i]);
  }

  /** Clearing changes nothing about the levels. */
  lemma {:induction false} StartUpOrder(g: Group, es: seq<Found>, live: seq<Live>)
    requires Booted(g) && AllSettable(g, es) && Recoverable(g, es, live)
    ensures var g' := ClearUpTo(NodeSets(g, es), |g.nodes|);
      (Inv(g', live) <==> LevelsApart(g, es)) && forall i :: 0 <= i < |live| ==> ReadsBack(g', live[i])
    ensures OnLists(NodeSets(g, es))
  {
    RecoveredOnLists(g, es);
    hide ReadsBack, HeldValid, Recoverable, Booted, NodeOk, LiveOk, Lists, OnLists, NodeSets, ClearUpTo;
    RecoveredInvIff(g, es, live);
    RecoveredQueues(g, es, live);
    var g' := ClearUpTo(NodeSets(g, es), |g.nodes|);
    if LevelsApart(g, es) {
      ClearInv(NodeSets(g, es), live, |g.nodes|);
    } else {
      hide LevelsApart;
      assert !Queues(NodeSets(g, es));
      QueuesUnhelped(g, es, live);
    }
    forall i | 0 <= i < |live| ensures ReadsBack(g', live[i]) {
      ClearedReadsBack(g, es, live, i);
    }
  }

  lemma {:induction false} QueuesUnhelped(g: Group, es: seq<Found>, live: seq<Live>)
    requires Booted(g) && AllSettable(g, es) && Recoverable(g, es, live)
    ensures Queues(ClearUpTo(NodeSets(g, es), |g.nodes|)) ==> LevelsApart(g, es)
  {
    hide NodeSets, ClearUpTo, LastUsed, Select;
    forall l | 0 <= l < LEVELS ensures NodeSets(g, es).queue[l] == LastUsed(g, es, l) {
      SetsQueue(g, es, l);
    }
  }

  lemma {:induction false} UsableAll(report: seq<ZoneInfo>)
    requires forall i :: 0 <= i < |report| ==> report[i].available
    ensures Usable(report) == report
  {
    if report != [] {
      UsableAll(report[..|report| - 1]);
    }
  }

  /** A device with one unit written to the first of two nodes. */
  function OneUnitReport(): (report: seq<ZoneInfo>)
    ensures |report| == 2 * ZONES + 1
    ensures forall i :: 0 <= i < |report| ==>
      report[i] == if i == 0 then ZoneInfo(true, Open, UNIT_SECTORS) else ZoneInfo(true, Empty, 0)
  {
    [ZoneInfo(true, Open, UNIT_SECTORS)] + seq(2 * ZONES, _ => ZoneInfo(true, Empty, 0))
  }

  lemma {:induction false} OneUnitBalances(img: seq<Byte>)
    requires |img| == UNIT
    ensures Sound(OneUnitReport()) && Balances(OneUnitReport(), [img, []])
  {
    var report := OneUnitReport();
    UsableAll(report);
    UsableAll(report[..|report| - 1]);
    hide OneUnitReport, Usable;
    assert Reports(Group64(report, 0), img);
    assert Reports(Group64(report, 1), []);
  }

  lemma {:induction false} OneUnitLists(img: seq<Byte>)
    requires |img| == UNIT
    ensures var g := BootGroup([img, []]); g.used == [0] && g.free == [1] && g.full == [] && |g.nodes| == 2
  {
    var used, free := BootNode(img), BootNode([]);
    assert BootGroup([img, []]).nodes == [used] + [free] && [] + [used] == [used];
    SelectAppend([], used, Used);
    SelectAppend([], used, Free);
    SelectAppend([], used, Full);
    SelectAppend([used], free, Used);
    SelectAppend([used], free, Free);
    SelectAppend([used], free, Full);
  }

  /** The failing input: nothing survives in the only open node, and the other node is empty.  Start-up accepts it
      and leaves a stale tail; `Tailq.StaleTailSharesNode` says what the next three levels are given. */
  lemma {:induction false} StaleTailReachable(img: seq<Byte>)
    requires |img| == UNIT
    ensures var report, imgs := OneUnitReport(), [img, []];
      Sound(report) && Balances(report, imgs) && Backed(BootGroup(imgs), AllPieces([]), []) &&
      AllSettable(BootGroup(imgs), AllFound([])) && LevelsApart(BootGroup(imgs), AllFound([])) &&
      LastOpenEmpty(imgs, AllPieces([])) && BootGroup(imgs).used == [0] && BootGroup(imgs).free == [1]
  {
    OneUnitBalances(img);
    OneUnitLists(img);
    hide BootGroup, Balances, Sound, OneUnitReport;
    assert LastOpen([img, []], 0);
    assert |BootGroup([img, []]).queue| == LEVELS by {
      BootQueue([img, []]);
    }
  }

  lemma {:induction false} BootQueue(imgs: seq<seq<Byte>>)
    requires forall n :: 0 <= n < |imgs| ==> |imgs[n]| % UNIT == 0 && |imgs[n]| / UNIT <= NODE_UNITS
    ensures |BootGroup(imgs).queue| == LEVELS
  {
  }

  // ----- the level of an open node

  /** The level an open node is given: the queues are five, and only the upper end is guarded. */
  function LevelGiven(level: int): int {
    if level > 4 then 4 else level
  }

  /** The level of node `n` once the pieces were set: that of the last file with a piece there, if the node is open. */
  ghost function LevelOn(g: Group, es: seq<Found>, n: nat): int
    requires AllSettable(g, es) && n < |g.nodes|
  {
    if es == [] then g.nodes[n].level
    else if es[|es| - 1].node == n && g.nodes[n].status == Used then LevelGiven(es[|es| - 1].level)
    else LevelOn(g, es[..|es| - 1], n)
  }

  /** Start-up gives an open node the level of the last file with a piece there, and leaves any other node alone. */
  lemma {:induction false} SetsLevel(g: Group, es: seq<Found>, n: nat)
    requires AllSettable(g, es) && n < |g.nodes|
    ensures NodeSets(g, es).nodes[n].level == LevelOn(g, es, n)
  {
    if es != [] {
      SetsLevel(g, es[..|es| - 1], n);
    }
  }

  lemma {:induction false} LevelOnLast(g: Group, es: seq<Found>, n: nat, j: nat)
    requires AllSettable(g, es) && n < |g.nodes| && j < |es| && es[j].node == n && g.nodes[n].status == Used
    requires forall k :: j < k < |es| ==> es[k].node != n
    ensures LevelOn(g, es, n) == LevelGiven(es[j].level)
  {
    if j < |es| - 1 {
      LevelOnLast(g, es[..|es| - 1], n, j);
    }
  }

  /** Files that agree on the level of each node they share: a level that continues on a node is the node's. */
  lemma {:induction false} ContinuedLevel(g: Group, es: seq<Found>, l: nat)
    requires AllSettable(g, es) && l < LEVELS && g.queue[l] == Nothing
    requires forall i, j :: 0 <= i < j < |es| ==> LevelsAgree(g, es[i], es[j])
    requires forall i :: 0 <= i < |es| ==> 0 <= es[i].level
    ensures NodeSets(g, es).queue[l].Holding? ==>
      var n := NodeSets(g, es).queue[l].node; n < |g.nodes| && NodeSets(g, es).nodes[n].level == l
  {
    SetsQueue(g, es, l);
    hide NodeSets, LastUsed, LevelOn;
    if NodeSets(g, es).queue[l].Holding? {
      var i := LastUsedAt(g, es, l);
      var n := es[i].node;
      var j := LastOn(es, n, i);
      SetsLevel(g, es, n);
      LevelOnLast(g, es, n, j);
      assert i < j ==> LevelsAgree(g, es[i], es[j]);
    }
  }

  lemma {:induction false} LastOn(es: seq<Found>, n: nat, i: nat) returns (j: nat)
    requires i < |es| && es[i].node == n
    ensures i <= j < |es| && es[j].node == n && forall k :: j < k < |es| ==> es[k].node != n
    decreases |es| - i
  {
    j := i;
    if k :| i < k < |es| && es[k].node == n {
      j := LastOn(es, n, k);
    }
  }
}
