/** The write path, the submission protocol and the read planner name the same places: what one of
    them calls a command, the others find at the same zone and sector. */
module Agreement {
  import opened Layout
  import opened Provision
  import opened ReadPath
  import WritePath
  import Submission

  /** A planned read of the unit that command `c` of a write filled goes to that command's zone, and
      into the 8 sectors from that command's address on. */
  lemma {:induction false} WriterReaderAgree(base: seq<nat>, start: nat, c: nat, offset: nat, rd: ReadCmd)
    requires |base| == ZONES && CmdOk(rd, offset) && 0 < rd.len && (offset + rd.bufOff) / UNIT == start + c
    ensures WritePath.Command(base, start, c).zone == rd.zone
    ensures base[rd.zone] + rd.sect == WritePath.Command(base, start, c).sect + rd.sect % UNIT_SECTORS
    ensures rd.sect % UNIT_SECTORS + rd.nsec <= UNIT_SECTORS
  {
    var unit, inUnit := rd.sect / UNIT_SECTORS * ZONES + rd.zone, rd.sect % UNIT_SECTORS * SECTOR + rd.skip;
    assert offset + rd.bufOff == unit * UNIT + inUnit && inUnit < UNIT;
    assert unit == start + c;
    assert unit % ZONES == rd.zone && unit / ZONES == rd.sect / UNIT_SECTORS;
  }

  /** Entry `index` of a slot's list is the command the protocol submits as that slot's `index`-th: same
      zone, same part of the buffer, and the device accepts it exactly when the command's address is
      the zone's write pointer. */
  lemma {:induction false} ProtocolIssuesCommands(w: Submission.Write, s: Submission.State, base: seq<nat>, k: nat,
                                                  index: nat)
    requires w.Valid() && Submission.Shape(s) && |base| == ZONES && k < ZONES && index < w.Share(k)
    ensures ZONES * index + k < w.Num()
    ensures WritePath.SlotIds(k, w.Share(k))[index] == ZONES * index + k
    ensures var cmd, c := WritePath.Command(base, w.Start(), ZONES * index + k), Submission.Cmd(k, index);
      cmd.slot == k && cmd.zone == ZoneAt(w.Start(), k) &&
      w.Chunk(c) == w.data[cmd.chunk * UNIT..(cmd.chunk + 1) * UNIT] &&
      (Submission.Accepts(w, s, c) <==> base[cmd.zone] * SECTOR + |s.zones[k]| == cmd.sect * SECTOR)
  {
    var n := ZONES * index + k;
    Submission.CmdWithinShare(w, Submission.Cmd(k, index));
    assert n % ZONES == k && n / ZONES == index;
    assert w.Start() + n == w.Start() + k + ZONES * index;
    assert (w.Start() + n) / ZONES == w.Height(k) + index;
    assert ZoneAt(w.Start(), n) == ZoneAt(w.Start(), k);
  }

  /** The zones of the node, from the zones of the slots. */
  ghost function NodeZones(w: Submission.Write, s: Submission.State): seq<seq<Byte>>
    requires Submission.Shape(s)
  {
    seq(ZONES, z requires 0 <= z < ZONES => s.zones[Rotation(z, w.Start())])
  }

  /** The zones after a write with no command given up are the striped image. */
  lemma {:induction false} WriteStripes(w: Submission.Write, run: seq<Submission.State>, events: seq<Submission.Event>)
    requires w.Valid() && Submission.IsRun(w, run, events)
    requires run[|run| - 1].ncb == w.Num() && !run[|run| - 1].failed
    ensures Submission.Shape(run[|run| - 1]) && NodeZones(w, run[|run| - 1]) == Stripe(w.img + w.data)
  {
    hide Stripe, StripeZone;
    Submission.RunSafe(w, run, events, |run| - 1);
    Submission.RunWritesImage(w, run, events);
  }

  lemma {:induction false} TailSlice<T>(a: seq<T>, b: seq<T>, off: nat, n: nat)
    requires off + n <= |b|
    ensures (a + b)[|a| + off..|a| + off + n] == b[off..off + n]
  {
  }

  /** A write whose commands completed in any order, with any retries and none given up, followed by a
      read whose commands complete in any order, returns what was written. */
  lemma {:induction false} WriteThenRead(w: Submission.Write, run: seq<Submission.State>, events: seq<Submission.Event>,
                      off: nat, buf: seq<Byte>, cmds: seq<ReadCmd>, order: seq<nat>)
    requires w.Valid() && Submission.IsRun(w, run, events)
    requires run[|run| - 1].ncb == w.Num() && !run[|run| - 1].failed
    requires off + |buf| <= |w.data| && PlanOk(cmds, |w.img| + off, |buf|)
    requires forall x :: 0 <= x < |order| ==> order[x] < |cmds|
    requires forall o :: 0 <= o < |cmds| ==> o in order
    ensures Submission.Shape(run[|run| - 1]) && NodeZones(w, run[|run| - 1]) == Stripe(w.img + w.data)
    ensures |w.img + w.data| % UNIT == 0 && |w.img| + off + |buf| <= |w.img + w.data|
    ensures DeliverAll(buf, w.img + w.data, cmds, |w.img| + off, order) == w.data[off..off + |buf|]
  {
    hide DeliverAll, PlanOk, Submission.IsRun, Submission.Shape, NodeZones, Stripe;
    WriteStripes(w, run, events);
    ReadReturnsImage(buf, w.img + w.data, cmds, |w.img| + off, order);
    TailSlice(w.img, w.data, off, |buf|);
  }

  // ----- reads while a write is in flight

  /** In every state of every run each zone still begins with what it held before the write. */
  lemma {:induction false} WriteExtends(w: Submission.Write, run: seq<Submission.State>, events: seq<Submission.Event>,
                                        i: nat, z: nat)
    requires w.Valid() && Submission.IsRun(w, run, events) && i < |run| && z < ZONES
    ensures Submission.Shape(run[i]) && Stripe(w.img)[z] <= NodeZones(w, run[i])[z]
  {
    Submission.RunSafe(w, run, events, i);
    var k := Rotation(z, w.Start());
    assert Submission.ZoneInv(w, run[i], k);
    HeightOfNext(w.Start(), k);
    StripePrefix(w.img, w.data, z);
    hide Submission.IsRun, Submission.Inv, Stripe, StripeZone;
    var a, n := |Stripe(w.img)[z]|, (w.Height(k) + run[i].good[k]) * UNIT;
    assert w.Final(k)[..n][..a] == w.Final(k)[..a];
  }

  /** The zones a completing command meets: at least the stripes of the image. */
  ghost predicate Extends(zones: seq<seq<Byte>>, img: seq<Byte>)
    requires |img| % UNIT == 0
  {
    |zones| == ZONES && forall z :: 0 <= z < ZONES ==> Stripe(img)[z] <= zones[z]
  }

  lemma {:induction false} FetchExtended(zones: seq<seq<Byte>>, img: seq<Byte>, cmd: ReadCmd, offset: nat)
    requires |img| % UNIT == 0 && Extends(zones, img) && CmdOk(cmd, offset) && 0 < cmd.len
    requires offset + cmd.bufOff + cmd.len <= |img|
    ensures cmd.sect * SECTOR + cmd.skip + cmd.len <= |zones[cmd.zone]|
    ensures Fetch(zones, cmd) == img[offset + cmd.bufOff..offset + cmd.bufOff + cmd.len]
  {
    FetchIsSlice(img, cmd, offset);
    hide Stripe, StripeZone;
    var a, b := cmd.sect * SECTOR + cmd.skip, cmd.len;
    assert zones[cmd.zone][..|Stripe(img)[cmd.zone]|][a..a + b] == zones[cmd.zone][a..a + b];
  }

  /** The buffer after the callbacks of `order`; command `order[x]` met the zones `met[x]`. */
  ghost function DeliverDuring(buf: seq<Byte>, img: seq<Byte>, cmds: seq<ReadCmd>, offset: nat, order: seq<nat>,
                               met: seq<seq<seq<Byte>>>): (after: seq<Byte>)
    requires |img| % UNIT == 0 && PlanOk(cmds, offset, |buf|) && offset + |buf| <= |img| && |met| == |order|
    requires forall x :: 0 <= x < |order| ==> order[x] < |cmds| && Extends(met[x], img)
    ensures |after| == |buf|
  {
    if order == [] then buf
    else
      var n := |order| - 1;
      var before, cmd := DeliverDuring(buf, img, cmds, offset, order[..n], met[..n]), cmds[order[n]];
      TilesBound(cmds, |buf|, order[n]);
      if cmd.len > 0 then
        FetchExtended(met[n], img, cmd, offset);
        Deliver(before, met[n], cmd)
      else before
  }

  lemma {:induction false} DuringIsDelivery(buf: seq<Byte>, img: seq<Byte>, cmds: seq<ReadCmd>, offset: nat,
                                            order: seq<nat>, met: seq<seq<seq<Byte>>>)
    requires |img| % UNIT == 0 && PlanOk(cmds, offset, |buf|) && offset + |buf| <= |img| && |met| == |order|
    requires forall x :: 0 <= x < |order| ==> order[x] < |cmds| && Extends(met[x], img)
    ensures DeliverDuring(buf, img, cmds, offset, order, met) == DeliverAll(buf, img, cmds, offset, order)
  {
    if order != [] {
      var n := |order| - 1;
      DuringIsDelivery(buf, img, cmds, offset, order[..n], met[..n]);
      hide Stripe, Extends;
      var cmd := cmds[order[n]];
      TilesBound(cmds, |buf|, order[n]);
      if cmd.len > 0 {
        FetchExtended(met[n], img, cmd, offset);
        FetchIsSlice(img, cmd, offset);
      }
    }
  }

  /** A planned read of data written before returns it, in every order of completions, whatever states of a
      write to the same node its commands meet. */
  lemma {:induction false} ReadDuringWrite(w: Submission.Write, run: seq<Submission.State>,
                                           events: seq<Submission.Event>, off: nat, buf: seq<Byte>,
                                           cmds: seq<ReadCmd>, order: seq<nat>, times: seq<nat>)
    requires w.Valid() && Submission.IsRun(w, run, events) && |times| == |order|
    requires off + |buf| <= |w.img| && PlanOk(cmds, off, |buf|)
    requires forall x :: 0 <= x < |order| ==> order[x] < |cmds| && times[x] < |run|
    requires forall o :: 0 <= o < |cmds| ==> o in order
    ensures forall x :: 0 <= x < |run| ==> Submission.Shape(run[x]) && Extends(NodeZones(w, run[x]), w.img)
    ensures var met := seq(|order|, x requires 0 <= x < |order| => NodeZones(w, run[times[x]]));
      DeliverDuring(buf, w.img, cmds, off, order, met) == w.img[off..off + |buf|]
  {
    forall x | 0 <= x < |run| ensures Submission.Shape(run[x]) && Extends(NodeZones(w, run[x]), w.img) {
      forall z | 0 <= z < ZONES ensures Submission.Shape(run[x]) && Stripe(w.img)[z] <= NodeZones(w, run[x])[z] {
        WriteExtends(w, run, events, x, z);
      }
      WriteExtends(w, run, events, x, 0);
    }
    hide Submission.IsRun, PlanOk, Extends, DeliverDuring, DeliverAll, NodeZones;
    var met := seq(|order|, x requires 0 <= x < |order| => NodeZones(w, run[times[x]]));
    DuringIsDelivery(buf, w.img, cmds, off, order, met);
    ReadReturnsImage(buf, w.img, cmds, off, order);
  }
}
