/** What a crash leaves behind: a write torn between its commands, and pieces trimmed before the record that
    drops them is in the log. */
module Crash {
  import opened Layout
  import opened Provision
  import opened NodeGroup
  import opened Zrocks
  import opened Recovery
  import Agreement
  import MetaLog
  import Submission

  // ----- a torn write

  function ZoneReport(zone: seq<Byte>): ZoneInfo {
    var n := |zone| / SECTOR;
    ZoneInfo(true, if n == ZONE_SECTORS then FullZone else if n == 0 then Empty else Open, n)
  }

  /** What the device reports of the zones of a node. */
  ghost function NodeReport(zones: seq<seq<Byte>>): seq<ZoneInfo> {
    seq(|zones|, z requires 0 <= z < |zones| => ZoneReport(zones[z]))
  }

  /** The write pointers init takes from the report. */
  ghost function Pointers(base: seq<nat>, zones: seq<seq<Byte>>): seq<nat>
    requires |base| == |zones|
  {
    seq(|zones|, z requires 0 <= z < |zones| => base[z] + |zones[z]| / SECTOR)
  }

  /** Command `c` of a write completed: slot `c % 64` completes its commands in order. */
  predicate Done(s: Submission.State, c: nat)
    requires |s.good| == ZONES
  {
    c / ZONES < s.good[c % ZONES]
  }

  /** No command completed before an earlier one. */
  ghost predicate InOrder(s: Submission.State)
    requires |s.good| == ZONES
  {
    forall c: nat, d: nat :: c < d && Done(s, d) ==> Done(s, c)
  }

  // ----- counting what completed

  lemma {:induction false} SumConcat(a: seq<nat>, b: seq<nat>)
    ensures Submission.Sum(a + b) == Submission.Sum(a) + Submission.Sum(b)
  {
    if b == [] {
      assert a + b == a;
    } else {
      var n := |b| - 1;
      SumConcat(a, b[..n]);
      assert (a + b)[..|a + b| - 1] == a + b[..n];
    }
  }

  /** The slots' counts in the order of the zones. */
  ghost function ByZone(good: seq<nat>, start: nat): seq<nat>
    requires |good| == ZONES
  {
    seq(ZONES, z requires 0 <= z < ZONES => good[Rotation(z, start)])
  }

  lemma {:induction false} SumByZone(good: seq<nat>, start: nat)
    requires |good| == ZONES
    ensures Submission.Sum(ByZone(good, start)) == Submission.Sum(good)
  {
    var m := ZONES - start % ZONES;
    assert ByZone(good, start) == good[m..] + good[..m];
    assert good == good[..m] + good[m..];
    SumConcat(good[m..], good[..m]);
    SumConcat(good[..m], good[m..]);
  }

  /** Height of each zone in a state of a run. */
  lemma {:induction false} ZoneHeight(w: Submission.Write, s: Submission.State, z: nat)
    requires w.Valid() && Submission.Inv(w, s) && z < ZONES
    ensures |Agreement.NodeZones(w, s)[z]| == (ZoneUnits(w.Start(), z) + s.good[Rotation(z, w.Start())]) * UNIT
  {
    var k := Rotation(z, w.Start());
    assert Submission.ZoneInv(w, s, k);
    HeightOfNext(w.Start(), k);
  }

  lemma {:induction false} SumOfReport(w: Submission.Write, s: Submission.State, j: nat)
    requires w.Valid() && Submission.Inv(w, s) && j <= ZONES
    ensures SumSectors(NodeReport(Agreement.NodeZones(w, s))[..j])
         == (SumShares(w.Start(), j) + Submission.Sum(ByZone(s.good, w.Start())[..j])) * UNIT_SECTORS
  {
    if j > 0 {
      SumOfReport(w, s, j - 1);
      ZoneHeight(w, s, j - 1);
      hide Submission.Inv, Agreement.NodeZones;
      var report, count := NodeReport(Agreement.NodeZones(w, s)), ByZone(s.good, w.Start());
      assert report[..j][..j - 1] == report[..j - 1] && count[..j][..j - 1] == count[..j - 1];
      assert SectorsOf(report[j - 1]) == (ZoneUnits(w.Start(), j - 1) + count[j - 1]) * UNIT_SECTORS;
    }
  }

  /** Init counts the units of the image and of every completed command, torn or not. */
  lemma {:induction false} RebuiltCount(w: Submission.Write, s: Submission.State)
    requires w.Valid() && Submission.Inv(w, s)
    ensures SumSectors(NodeReport(Agreement.NodeZones(w, s))) / UNIT_SECTORS == w.Start() + Submission.Sum(s.good)
  {
    SumOfReport(w, s, ZONES);
    SharesSum(w.Start());
    SumByZone(s.good, w.Start());
    hide Submission.Inv, Agreement.NodeZones;
    var report, count := NodeReport(Agreement.NodeZones(w, s)), ByZone(s.good, w.Start());
    assert report[..ZONES] == report && count[..ZONES] == count;
  }

  // ----- commands in order

  lemma {:induction false} SumOfShares(good: seq<nat>, m: nat, j: nat)
    requires |good| == ZONES && j <= ZONES && forall k :: 0 <= k < ZONES ==> good[k] == ZoneUnits(m, k)
    ensures Submission.Sum(good[..j]) == SumShares(m, j)
  {
    if j > 0 {
      SumOfShares(good, m, j - 1);
      assert good[..j][..j - 1] == good[..j - 1];
    }
  }

  lemma {:induction false} DoneInShare(m: nat, c: nat)
    ensures c / ZONES < ZoneUnits(m, c % ZONES) <==> c < m
  {
  }

  /** The first command that did not complete. */
  lemma {:induction false} FirstMissing(s: Submission.State, from: nat) returns (m: nat)
    requires |s.good| == ZONES && forall c: nat :: c < from ==> Done(s, c)
    ensures !Done(s, m) && forall c: nat :: c < m ==> Done(s, c)
    decreases ZONES * s.good[0] + ZONES - from
  {
    assert !Done(s, ZONES * s.good[0]);
    if Done(s, from) {
      m := FirstMissing(s, from + 1);
    } else {
      m := from;
    }
  }

  /** Commands completed in order exactly when each slot has its share of their number. */
  lemma {:induction false} InOrderIff(s: Submission.State)
    requires |s.good| == ZONES
    ensures InOrder(s) <==> forall k :: 0 <= k < ZONES ==> s.good[k] == ZoneUnits(Submission.Sum(s.good), k)
  {
    if forall k :: 0 <= k < ZONES ==> s.good[k] == ZoneUnits(Submission.Sum(s.good), k) {
      forall c: nat, d: nat | c < d && Done(s, d) ensures Done(s, c) {
        DoneInShare(Submission.Sum(s.good), c);
        DoneInShare(Submission.Sum(s.good), d);
      }
    }
    if InOrder(s) {
      var m := FirstMissing(s, 0);
      forall k | 0 <= k < ZONES ensures s.good[k] == ZoneUnits(m, k) {
        SlotOfPrefix(s, m, k);
      }
      SumOfShares(s.good, m, ZONES);
      SharesSum(m);
      assert s.good[..ZONES] == s.good;
    }
  }

  lemma {:induction false} SlotOfPrefix(s: Submission.State, m: nat, k: nat)
    requires |s.good| == ZONES && k < ZONES && InOrder(s) && !Done(s, m) && forall c: nat :: c < m ==> Done(s, c)
    ensures s.good[k] == ZoneUnits(m, k)
  {
    var a, b := ZONES * s.good[k] + k, ZONES * ZoneUnits(m, k) + k;
    assert a / ZONES == s.good[k] && a % ZONES == k && b / ZONES == ZoneUnits(m, k) && b % ZONES == k;
    DoneInShare(m, a);
    DoneInShare(m, b);
    assert !Done(s, a);
    assert a >= m && b >= m;
    assert !Done(s, b);
  }

  /** A restart after a crash at any point of a write: the node's count is that of the image and the completed
      commands, and the next writer continues where the reader will look exactly when no command completed
      before an earlier one. */
  lemma {:induction false} RestartAgreesIff(w: Submission.Write, run: seq<Submission.State>,
                                            events: seq<Submission.Event>, i: nat, base: seq<nat>)
    requires w.Valid() && Submission.IsRun(w, run, events) && i < |run| && |base| == ZONES
    ensures Submission.Shape(run[i])
    ensures var zones := Agreement.NodeZones(w, run[i]);
      var used := SumSectors(NodeReport(zones)) / UNIT_SECTORS;
      used == w.Start() + Submission.Sum(run[i].good) &&
      (SectList(Pointers(base, zones), used, ZONES) == HeightList(base, used, ZONES) <==> InOrder(run[i]))
  {
    var s := run[i];
    Submission.RunSafe(w, run, events, i);
    RebuiltCount(w, s);
    InOrderIff(s);
    var zones, t := Agreement.NodeZones(w, s), Submission.Sum(s.good);
    var used := w.Start() + t;
    PointersAgreeIff(base, Pointers(base, zones), used);
    hide Submission.Inv, Submission.IsRun, SectList, HeightList, InOrder, ZoneUnits, Pointers, Balanced, NodeReport;
    forall z | 0 <= z < ZONES ensures PointerFits(w, s, base, Pointers(base, zones), z, t) {
      PointerBySlot(w, s, base, z);
    }
    BalancedBySlot(w, s, base, Pointers(base, zones), t);
  }

  /** The pointer of zone `z` is the balanced one exactly when its slot has its share of `t`. */
  ghost predicate PointerFits(w: Submission.Write, s: Submission.State, base: seq<nat>, wptr: seq<nat>, z: nat, t: nat)
    requires z < ZONES && |base| == ZONES && |wptr| == ZONES && |s.good| == ZONES
  {
    wptr[z] == Balanced(base, w.Start() + t)[z] <==>
    s.good[Rotation(z, w.Start())] == ZoneUnits(t, Rotation(z, w.Start()))
  }

  lemma {:induction false} PointerBySlot(w: Submission.Write, s: Submission.State, base: seq<nat>, z: nat)
    requires w.Valid() && Submission.Inv(w, s) && |base| == ZONES && z < ZONES
    ensures PointerFits(w, s, base, Pointers(base, Agreement.NodeZones(w, s)), z, Submission.Sum(s.good))
  {
    ZoneHeight(w, s, z);
    SharesKeepBalance(w.Start(), Submission.Sum(s.good), Rotation(z, w.Start()));
    hide Submission.Inv, ZoneUnits;
  }

  lemma {:induction false} BalancedBySlot(w: Submission.Write, s: Submission.State, base: seq<nat>, wptr: seq<nat>,
                                          t: nat)
    requires |base| == ZONES && |wptr| == ZONES && |s.good| == ZONES
    requires forall z :: 0 <= z < ZONES ==> PointerFits(w, s, base, wptr, z, t)
    ensures wptr == Balanced(base, w.Start() + t) <==> forall k :: 0 <= k < ZONES ==> s.good[k] == ZoneUnits(t, k)
  {
    var all := Balanced(base, w.Start() + t);
    BalancedLength(base, w.Start() + t);
    hide Balanced, ZoneUnits;
    if wptr == all {
      forall k | 0 <= k < ZONES ensures s.good[k] == ZoneUnits(t, k) {
        RotationUnique(w.Start(), k);
        assert PointerFits(w, s, base, wptr, ZoneAt(w.Start(), k), t);
      }
    } else {
      var z :| 0 <= z < ZONES && wptr[z] != all[z];
      assert PointerFits(w, s, base, wptr, z, t);
    }
  }

  lemma {:induction false} BalancedLength(base: seq<nat>, used: nat)
    requires |base| == ZONES
    ensures |Balanced(base, used)| == ZONES
  {
  }

  /** The failing case is reachable: the second command of a write completes, then power is lost. */
  lemma {:induction false} TornWriteReachable(w: Submission.Write)
      returns (run: seq<Submission.State>, events: seq<Submission.Event>)
    requires w.Valid() && w.Num() >= 2
    ensures Submission.IsRun(w, run, events)
    ensures Submission.Shape(run[|run| - 1]) && !InOrder(run[|run| - 1])
  {
    var s0 := Submission.Init(w);
    Submission.InitInv(w);
    var c := Submission.Cmd(1, 0);
    var s1 := s0.(next := s0.next[1 := 1], flag := s0.flag[1 := true], dev := s0.dev[c := 0]);
    assert w.Share(1) >= 1;
    assert Submission.Submit(w, s0, s1, 1);
    Submission.SubmitInv(w, s0, s1, 1);
    Submission.AtWritePointer(w, s1, c);
    var s2 := Submission.Counted(w, s1, c).(zones := s1.zones[1 := s1.zones[1] + w.Chunk(c)], good := s1.good[1 := 1]);
    assert Submission.Complete(w, s1, s2, c);
    run, events := [s0, s1, s2], [Submission.Submitted(1), Submission.Completed(c)];
    assert Submission.Step(w, run[0], run[1], events[0]) && Submission.Step(w, run[1], run[2], events[1]);
    assert Done(s2, 1) && !Done(s2, 0);
  }

  // ----- trimmed before logged

  /** What the device holds of each node. */
  ghost function Images(g: Group): seq<seq<Byte>> {
    seq(|g.nodes|, n requires 0 <= n < |g.nodes| => g.nodes[n].img)
  }

  ghost predicate Aligned(imgs: seq<seq<Byte>>) {
    forall n :: 0 <= n < |imgs| ==> |imgs[n]| % UNIT == 0 && |imgs[n]| / UNIT <= NODE_UNITS
  }

  /** A start-up on the device of `g` finds the given pieces, with their bytes. */
  ghost predicate Findable(g: Group, ps: seq<Piece>, live: seq<Live>) {
    Aligned(Images(g)) && Backed(BootGroup(Images(g)), ps, live)
  }

  lemma {:induction false} ImagesAligned(g: Group, live: seq<Live>)
    requires Inv(g, live)
    ensures Aligned(Images(g))
  {
    forall n | 0 <= n < |g.nodes| ensures |g.nodes[n].img| % UNIT == 0 && |g.nodes[n].img| / UNIT <= NODE_UNITS {
      assert NodeOk(g, n);
    }
  }

  lemma {:induction false} BootLive(g: Group, p: Live)
    requires Aligned(Images(g))
    ensures LiveOk(BootGroup(Images(g)), p) <==> LiveOk(g, p)
  {
    hide Select;
    if p.node < |g.nodes| {
      assert BootGroup(Images(g)).nodes[p.node].img == g.nodes[p.node].img;
    }
  }

  /** The pieces are distinct live pieces of the group. */
  ghost predicate AllLive(all: seq<Live>, ps: seq<Piece>, live: seq<Live>) {
    |ps| == |live| && (forall x :: 0 <= x < |live| ==> live[x] in all && ps[x] == Entry(live[x], ps[x].padding)) &&
    forall x, y :: 0 <= x < y < |live| ==> live[x] != live[y]
  }

  lemma {:induction false} LiveApart(g: Group, all: seq<Live>, p: Live, q: Live)
    requires Inv(g, all) && p in all && q in all && p != q
    ensures Apart(p, q)
  {
    var x :| 0 <= x < |all| && all[x] == p;
    var y :| 0 <= y < |all| && all[y] == q;
    assert if x < y then Apart(all[x], all[y]) else Apart(all[y], all[x]);
  }

  /** At step `j` a node of one of the pieces is recycled. */
  ghost predicate Recycled(e: Event, live: seq<Live>) {
    exists x :: 0 <= x < |live| && e == Recycle(live[x].node)
  }

  /** Pieces that were live at `i`, trimmed meanwhile or not, are found by a start-up at every point up to `m`
      exactly when none of their nodes is recycled before. */
  lemma {:induction false} FindableIff(run: seq<World>, events: seq<Event>, i: nat, m: nat, ps: seq<Piece>,
                                       live: seq<Live>)
    requires NodeGroup.IsRun(run, events) && i <= m < |run| && AllLive(run[i].live, ps, live)
    ensures (forall j :: i <= j <= m ==> Findable(run[j].g, ps, live)) <==>
      (forall j :: i <= j < m ==> !Recycled(events[j], live))
  {
    forall j | i <= j <= m
      ensures Aligned(Images(run[j].g)) && (Findable(run[j].g, ps, live) <==> HoldsAll(run[j].g, live))
    {
      FindableHolds(run, events, i, j, ps, live);
    }
    forall x | 0 <= x < |live|
      ensures (forall j :: i <= j <= m ==> LiveOk(run[j].g, live[x])) <==>
        (forall j :: i <= j < m ==> events[j] != Recycle(live[x].node))
    {
      NodeGroup.BytesKeptIff(run, events, i, m, live[x]);
    }
    hide NodeGroup.IsRun, Findable, LiveOk;
    HeldThrough(run, events, i, m, live);
  }

  /** Every piece has its bytes. */
  ghost predicate HoldsAll(g: Group, live: seq<Live>) {
    forall x :: 0 <= x < |live| ==> LiveOk(g, live[x])
  }

  lemma {:induction false} FindableHolds(run: seq<World>, events: seq<Event>, i: nat, j: nat, ps: seq<Piece>,
                                         live: seq<Live>)
    requires NodeGroup.IsRun(run, events) && i < |run| && j < |run| && AllLive(run[i].live, ps, live)
    ensures Aligned(Images(run[j].g)) && (Findable(run[j].g, ps, live) <==> HoldsAll(run[j].g, live))
  {
    NodeGroup.RunInv(run, events, j);
    NodeGroup.RunInv(run, events, i);
    hide NodeGroup.IsRun, Inv, LiveOk, BootGroup, Images, Aligned;
    ImagesAligned(run[j].g, run[j].live);
    forall x | 0 <= x < |live| ensures LiveOk(BootGroup(Images(run[j].g)), live[x]) <==> LiveOk(run[j].g, live[x]) {
      BootLive(run[j].g, live[x]);
    }
    forall x, y | 0 <= x < y < |live| ensures Apart(live[x], live[y]) {
      LiveApart(run[i].g, run[i].live, live[x], live[y]);
    }
  }

  lemma {:induction false} HeldThrough(run: seq<World>, events: seq<Event>, i: nat, m: nat, live: seq<Live>)
    requires i <= m < |run| && m <= |events|
    requires forall x :: 0 <= x < |live| ==>
      ((forall j :: i <= j <= m ==> LiveOk(run[j].g, live[x])) <==>
       (forall j :: i <= j < m ==> events[j] != Recycle(live[x].node)))
    ensures (forall j :: i <= j <= m ==> HoldsAll(run[j].g, live)) <==>
      (forall j :: i <= j < m ==> !Recycled(events[j], live))
  {
    hide LiveOk;
    if forall j :: i <= j <= m ==> HoldsAll(run[j].g, live) {
      forall j | i <= j < m ensures !Recycled(events[j], live) {
        forall x | 0 <= x < |live| ensures events[j] != Recycle(live[x].node) {
          assert forall k :: i <= k <= m ==> LiveOk(run[k].g, live[x]) by {
            forall k | i <= k <= m ensures LiveOk(run[k].g, live[x]) {
              assert HoldsAll(run[k].g, live);
            }
          }
        }
      }
    }
    if forall j :: i <= j < m ==> !Recycled(events[j], live) {
      forall j, x | i <= j <= m && 0 <= x < |live| ensures LiveOk(run[j].g, live[x]) {
        assert forall k :: i <= k < m ==> events[k] != Recycle(live[x].node) by {
          forall k | i <= k < m ensures events[k] != Recycle(live[x].node) {
            assert !Recycled(events[k], live);
          }
        }
      }
    }
  }

  /** The files of a table, in some order of its keys. */
  ghost function Listing(files: MetaLog.Files, keys: seq<MetaLog.Name>): seq<MetaLog.File>
    requires forall j :: 0 <= j < |keys| ==> keys[j] in files
  {
    seq(|keys|, j requires 0 <= j < |keys| => files[keys[j]])
  }

  /** A crash inside DeleteFile, RenameFile, Sync or MigrateNodeFile, after the change and before its record is
      in the log, from the moment `i` when every piece of the table was live to any moment `m`.  Recovery gives
      the table before the operation, and start-up finds all its pieces with their bytes, at every such moment,
      exactly when no node holding one of them is recycled before the record is written. */
  lemma {:induction false} CrashInsideOperationIff(s: MetaLog.Log, op: MetaLog.Op, keys: seq<MetaLog.Name>,
                                                   run: seq<World>, events: seq<Event>, i: nat, m: nat, live: seq<Live>)
    requires MetaLog.Inv(s) && MetaLog.Enabled(s, MetaLog.Begin(op)) && !MetaLog.Quiet(op)
    requires MetaLog.Enumerates(keys, MetaLog.Recovered(MetaLog.After(s, MetaLog.Begin(op)).zones))
    requires NodeGroup.IsRun(run, events) && i <= m < |run|
    requires var files := MetaLog.Recovered(MetaLog.After(s, MetaLog.Begin(op)).zones);
      AllLive(run[i].live, AllPieces(Listing(files, keys)), live)
    ensures var files := MetaLog.Recovered(MetaLog.After(s, MetaLog.Begin(op)).zones);
      MetaLog.SameTable(files, s.files) &&
      ((forall j :: i <= j <= m ==> Findable(run[j].g, AllPieces(Listing(files, keys)), live)) <==>
       (forall j :: i <= j < m ==> !Recycled(events[j], live)))
  {
    RecoversBefore(s, op);
    hide MetaLog.Inv, MetaLog.Enabled, MetaLog.After, MetaLog.Recovered, MetaLog.Enumerates, MetaLog.SameTable;
    hide NodeGroup.IsRun, Findable, AllLive, Recycled, AllPieces, Listing;
    var files := MetaLog.Recovered(MetaLog.After(s, MetaLog.Begin(op)).zones);
    FindableIff(run, events, i, m, AllPieces(Listing(files, keys)), live);
  }

  lemma {:induction false} RecoversBefore(s: MetaLog.Log, op: MetaLog.Op)
    requires MetaLog.Inv(s) && MetaLog.Enabled(s, MetaLog.Begin(op)) && !MetaLog.Quiet(op)
    ensures var s' := MetaLog.After(s, MetaLog.Begin(op));
      |s'.zones| == 2 && MetaLog.SameTable(MetaLog.Recovered(s'.zones), s.files)
  {
    MetaLog.BeginInv(s, op);
    MetaLog.InvRecovers(MetaLog.After(s, MetaLog.Begin(op)));
    hide MetaLog.Inv, MetaLog.Recovered, MetaLog.SameTable, MetaLog.Logged, MetaLog.Mutate;
  }

  /** The failing case is reachable: the last live piece of a full node is trimmed and the node recycled. */
  lemma {:induction false} RecycledBeforeLogged(w: World, x: nat) returns (run: seq<World>, events: seq<Event>)
    requires Inv(w.g, w.live) && x < |w.live| && w.live[x].node in w.g.full
    requires w.g.nodes[w.live[x].node].status == Full && w.g.nodes[w.live[x].node].valid == w.live[x].num
    ensures NodeGroup.IsRun(run, events) && run[0] == w && !LiveOk(run[|run| - 1].g, w.live[x])
  {
    var p := w.live[x];
    TrimInv(w.g, w.live, x);
    assert NodeGroup.Enabled(w, Discard(x));
    var w1 := NodeGroup.After(w, Discard(x));
    assert w1.g.nodes[p.node].status == Reset && p.node in w1.g.full;
    assert NodeGroup.Enabled(w1, Recycle(p.node));
    var w2 := NodeGroup.After(w1, Recycle(p.node));
    InvLive(w.g, w.live, p);
    assert LiveOk(w1.g, p);
    StepKeepsBytes(w1, Recycle(p.node), p);
    run, events := [w, w1, w2], [Discard(x), Recycle(p.node)];
  }
}
