/** The read planner: turns a byte range of a node into media reads by div/mod arithmetic alone, and
    the completion callbacks that copy what each read returned into the user buffer. */
module ReadPath {
  import opened Layout

  /** A media read of `nsec` sectors of a zone; `len` bytes from `skip` on go to the buffer at `bufOff`. */
  datatype ReadCmd = ReadCmd(zone: nat, sect: nat, nsec: nat, skip: nat, bufOff: nat, len: nat)

  /** The command stays inside one unit, and copies the bytes the request wants at `bufOff`. */
  predicate CmdOk(cmd: ReadCmd, offset: nat) {
    cmd.zone < ZONES && 1 <= cmd.nsec &&
    cmd.sect % UNIT_SECTORS + cmd.nsec <= UNIT_SECTORS &&
    cmd.skip + cmd.len <= cmd.nsec * SECTOR &&
    (cmd.sect / UNIT_SECTORS * ZONES + cmd.zone) * UNIT + cmd.sect % UNIT_SECTORS * SECTOR + cmd.skip
      == offset + cmd.bufOff
  }

  /** Copy ranges are adjacent, begin at 0 and end at `size`. */
  predicate Tiles(cmds: seq<ReadCmd>, size: nat) {
    if cmds == [] then size == 0
    else
      var last := cmds[|cmds| - 1];
      last.bufOff + last.len == size && Tiles(cmds[..|cmds| - 1], last.bufOff)
  }

  ghost predicate PlanOk(cmds: seq<ReadCmd>, offset: nat, size: nat) {
    Tiles(cmds, size) && forall i :: 0 <= i < |cmds| ==> CmdOk(cmds[i], offset)
  }

  /** Sectors touched by a byte range. */
  function SectorsTouched(offset: nat, size: nat): nat {
    var misalign := offset % SECTOR;
    (size + misalign) / SECTOR + (if (size + misalign) % SECTOR != 0 then 1 else 0)
  }

  /** Units touched by `n` sectors from linear sector `first` on. */
  function UnitsTouched(first: nat, n: nat): nat {
    if n == 0 then 0 else (first + n - 1) / UNIT_SECTORS - first / UNIT_SECTORS + 1
  }

  /** The variables of the planning loop. */
  datatype Cursor = Cursor(secLeft: nat, left: nat, bytesOff: nat, misalign: nat,
                           zone: nat, level: nat, zoneSect: nat, readNum: nat)

  /** Where the planner stands when the request ends before linear sector `end`. */
  ghost predicate Planning(offset: nat, size: nat, end: nat, c: Cursor) {
    c.secLeft <= end && c.left <= size && c.bytesOff == size - c.left && c.misalign < SECTOR &&
    var cur := end - c.secLeft;
    offset + c.bytesOff == cur * SECTOR + c.misalign &&
    c.left + c.misalign <= c.secLeft * SECTOR < c.left + c.misalign + SECTOR &&
    c.zone == cur / UNIT_SECTORS % ZONES && c.level == cur / UNIT_SECTORS / ZONES &&
    c.zoneSect == c.level * UNIT_SECTORS + cur % UNIT_SECTORS &&
    var room := UNIT_SECTORS - cur % UNIT_SECTORS;
    c.readNum == if c.secLeft < room then c.secLeft else room
  }

  ghost function UnitsLeft(end: nat, c: Cursor): nat {
    if c.secLeft <= end then UnitsTouched(end - c.secLeft, c.secLeft) else 0
  }

  function CopySize(c: Cursor): int {
    if c.readNum * SECTOR - c.misalign > c.left then c.left else c.readNum * SECTOR - c.misalign
  }

  lemma {:induction false} CopySizeOk(offset: nat, size: nat, end: nat, c: Cursor)
    requires Planning(offset, size, end, c) && c.secLeft > 0
    ensures 0 <= CopySize(c) <= c.left && 0 < c.readNum <= c.secLeft
    ensures c.secLeft == c.readNum ==> CopySize(c) == c.left
    ensures c.secLeft > c.readNum ==> CopySize(c) == c.readNum * SECTOR - c.misalign
  {
  }

  /** The command the planner makes next. */
  function NextCmd(c: Cursor): ReadCmd
    requires 0 <= CopySize(c)
  {
    ReadCmd(c.zone, c.zoneSect, c.readNum, c.misalign, c.bytesOff, CopySize(c))
  }

  lemma {:induction false} NextCmdOk(offset: nat, size: nat, end: nat, c: Cursor)
    requires Planning(offset, size, end, c) && c.secLeft > 0
    ensures 0 <= CopySize(c) && CmdOk(NextCmd(c), offset)
  {
    var cur := end - c.secLeft;
    var unit, r := cur / UNIT_SECTORS, cur % UNIT_SECTORS;
    CopySizeOk(offset, size, end, c);
    assert c.zoneSect / UNIT_SECTORS == c.level && c.zoneSect % UNIT_SECTORS == r;
    assert c.level * ZONES + c.zone == unit;
    assert unit * UNIT + r * SECTOR == cur * SECTOR;
  }

  /** Each command accounts for one touched unit. */
  lemma {:induction false} UnitsTouchedStep(cur: nat, n: nat, k: nat)
    requires 0 < k <= n
    requires k == if n < UNIT_SECTORS - cur % UNIT_SECTORS then n else UNIT_SECTORS - cur % UNIT_SECTORS
    ensures UnitsTouched(cur, n) == 1 + UnitsTouched(cur + k, n - k)
  {
    if n > k {
      assert (cur + k) / UNIT_SECTORS == cur / UNIT_SECTORS + 1;
    } else {
      assert (cur + n - 1) / UNIT_SECTORS == cur / UNIT_SECTORS;
    }
  }

  /** The loop's updates at the end of an iteration. */
  function Advance(c: Cursor): Cursor
    requires 0 <= CopySize(c) <= c.left && c.readNum <= c.secLeft
  {
    var secLeft := c.secLeft - c.readNum;
    var zone := (c.zone + 1) % ZONES;
    var level := if zone == 0 then c.level + 1 else c.level;
    var readNum := if secLeft > UNIT_SECTORS then UNIT_SECTORS else secLeft;
    Cursor(secLeft, c.left - CopySize(c), c.bytesOff + CopySize(c), 0, zone, level, level * UNIT_SECTORS, readNum)
  }

  lemma {:induction false} NextUnit(u: nat)
    ensures (u % ZONES + 1) % ZONES == (u + 1) % ZONES
    ensures (u + 1) / ZONES == u / ZONES + (if (u + 1) % ZONES == 0 then 1 else 0)
  {
  }

  lemma {:induction false} AdvancePlanning(offset: nat, size: nat, end: nat, c: Cursor)
    requires Planning(offset, size, end, c) && c.secLeft > c.readNum
    ensures 0 <= CopySize(c) <= c.left
    ensures Planning(offset, size, end, Advance(c))
  {
    var cur := end - c.secLeft;
    CopySizeOk(offset, size, end, c);
    var cur' := cur + c.readNum;
    assert cur' == (cur / UNIT_SECTORS + 1) * UNIT_SECTORS;
    assert cur' % UNIT_SECTORS == 0 && cur' / UNIT_SECTORS == cur / UNIT_SECTORS + 1;
    NextUnit(cur / UNIT_SECTORS);
    assert end - Advance(c).secLeft == cur';
  }

  lemma {:induction false} AdvanceOk(offset: nat, size: nat, end: nat, c: Cursor)
    requires Planning(offset, size, end, c) && c.secLeft > 0
    ensures 0 <= CopySize(c) <= c.left && 0 < c.readNum <= c.secLeft
    ensures UnitsLeft(end, c) == 1 + UnitsLeft(end, Advance(c))
    ensures Advance(c).secLeft == 0 ==> Advance(c).bytesOff == size
    ensures Advance(c).secLeft > 0 ==> Planning(offset, size, end, Advance(c))
  {
    CopySizeOk(offset, size, end, c);
    UnitsTouchedStep(end - c.secLeft, c.secLeft, c.readNum);
    if c.secLeft > c.readNum {
      AdvancePlanning(offset, size, end, c);
    }
  }

  lemma {:induction false} PlanningStart(offset: nat, size: nat)
    ensures var s := offset / SECTOR;
      var n, level := SectorsTouched(offset, size), s / 512;
      var room := UNIT_SECTORS - s % 512 % UNIT_SECTORS;
      Planning(offset, size, s + n, Cursor(n, size, 0, offset % SECTOR, s % 512 / UNIT_SECTORS, level,
               level * UNIT_SECTORS + s % 512 % UNIT_SECTORS, if n > room then room else n))
  {
    LevelArithmetic(offset / SECTOR);
  }

  /** The planning loop, from the first command's position on. */
  method PlanLoop(first: Cursor, ghost offset: nat, ghost size: nat, ghost end: nat) returns (cmds: seq<ReadCmd>)
    requires Planning(offset, size, end, first) && first.bytesOff == 0
    ensures PlanOk(cmds, offset, size)
    ensures |cmds| == UnitsLeft(end, first)
  {
    var c := first;
    cmds := [];
    while c.secLeft != 0
      invariant c.secLeft != 0 ==> Planning(offset, size, end, c)
      invariant c.secLeft == 0 ==> c.bytesOff == size
      invariant PlanOk(cmds, offset, c.bytesOff)
      invariant |cmds| + UnitsLeft(end, c) == UnitsLeft(end, first)
      decreases c.secLeft
    {
      NextCmdOk(offset, size, end, c);
      AdvanceOk(offset, size, end, c);
      cmds := Extend(cmds, NextCmd(c), offset);
      c := Advance(c);
    }
  }

  function Extend(cmds: seq<ReadCmd>, cmd: ReadCmd, ghost offset: nat): (more: seq<ReadCmd>)
    requires PlanOk(cmds, offset, cmd.bufOff) && CmdOk(cmd, offset)
    ensures PlanOk(more, offset, cmd.bufOff + cmd.len) && |more| == |cmds| + 1
  {
    assert (cmds + [cmd])[..|cmds|] == cmds;
    cmds + [cmd]
  }

  /** ztl_io_read_ucmd, up to the submission: one command per touched unit, copying exactly the request. */
  method PlanRead(offset: nat, size: nat) returns (cmds: seq<ReadCmd>)
    ensures PlanOk(cmds, offset, size)
    ensures |cmds| == UnitsTouched(offset / SECTOR, SectorsTouched(offset, size))
  {
    hide Planning, PlanOk;
    var misalign := offset % SECTOR;
    var secSize := (size + misalign) / SECTOR + (if (size + misalign) % SECTOR != 0 then 1 else 0);
    var secStart := offset / SECTOR;
    var levelSecs := ZONES * UNIT_SECTORS;
    var level := secStart / levelSecs;
    var zone := secStart % levelSecs / UNIT_SECTORS;
    var zoneSect := level * UNIT_SECTORS + secStart % levelSecs % UNIT_SECTORS;
    var readNum := UNIT_SECTORS - secStart % levelSecs % UNIT_SECTORS;
    readNum := if secSize > readNum then readNum else secSize;
    PlanningStart(offset, size);
    var first := Cursor(secSize, size, 0, misalign, zone, level, zoneSect, readNum);
    cmds := PlanLoop(first, offset, size, secStart + secSize);
  }

  lemma {:induction false} LevelArithmetic(s: nat)
    ensures s / 512 == s / UNIT_SECTORS / ZONES
    ensures s % 512 / UNIT_SECTORS == s / UNIT_SECTORS % ZONES
    ensures s % 512 % UNIT_SECTORS == s % UNIT_SECTORS
  {
  }

  /** A read inside a piece of `num` units uses at most `num` commands. */
  lemma {:induction false} PieceReadCommands(offset: nat, size: nat, start: nat, num: nat)
    requires start * UNIT <= offset && offset + size <= (start + num) * UNIT
    ensures UnitsTouched(offset / SECTOR, SectorsTouched(offset, size)) <= num
  {
    var first, n := offset / SECTOR, SectorsTouched(offset, size);
    if n > 0 {
      assert start <= first / UNIT_SECTORS;
      assert first + n <= (start + num) * UNIT_SECTORS;
    }
  }

  /** What the media returns for the bytes a command copies. */
  function Fetch(zones: seq<seq<Byte>>, cmd: ReadCmd): (bytes: seq<Byte>)
    requires cmd.zone < |zones| && cmd.sect * SECTOR + cmd.skip + cmd.len <= |zones[cmd.zone]|
    ensures |bytes| == cmd.len
  {
    zones[cmd.zone][cmd.sect * SECTOR + cmd.skip..cmd.sect * SECTOR + cmd.skip + cmd.len]
  }

  lemma {:induction false} FetchByte(img: seq<Byte>, cmd: ReadCmd, offset: nat, j: nat)
    requires |img| % UNIT == 0 && CmdOk(cmd, offset) && j < cmd.len && offset + cmd.bufOff + j < |img|
    ensures cmd.sect * SECTOR + cmd.skip + j < |Stripe(img)[cmd.zone]|
    ensures Stripe(img)[cmd.zone][cmd.sect * SECTOR + cmd.skip + j] == img[offset + cmd.bufOff + j]
  {
    var p := offset + cmd.bufOff + j;
    var unit, inUnit := cmd.sect / UNIT_SECTORS * ZONES + cmd.zone, cmd.sect % UNIT_SECTORS * SECTOR + cmd.skip + j;
    assert p == unit * UNIT + inUnit && inUnit < UNIT;
    assert p / UNIT == unit && p % UNIT == inUnit;
    assert unit / ZONES == cmd.sect / UNIT_SECTORS && unit % ZONES == cmd.zone;
    StripeAt(img, p);
  }

  /** A planned command fetches from the striped zones the slice of the image it stands for. */
  lemma {:induction false} FetchIsSlice(img: seq<Byte>, cmd: ReadCmd, offset: nat)
    requires |img| % UNIT == 0 && CmdOk(cmd, offset) && offset + cmd.bufOff + cmd.len <= |img|
    requires 0 < cmd.len
    ensures cmd.sect * SECTOR + cmd.skip + cmd.len <= |Stripe(img)[cmd.zone]|
    ensures Fetch(Stripe(img), cmd) == img[offset + cmd.bufOff..offset + cmd.bufOff + cmd.len]
  {
    FetchByte(img, cmd, offset, cmd.len - 1);
    forall j | 0 <= j < cmd.len
      ensures Fetch(Stripe(img), cmd)[j] == img[offset + cmd.bufOff + j]
    {
      FetchByte(img, cmd, offset, j);
    }
  }

  /** ztl_io_read_callback_mcmd on success: copy the fetched bytes into the user buffer. */
  function Deliver(buf: seq<Byte>, zones: seq<seq<Byte>>, cmd: ReadCmd): (after: seq<Byte>)
    requires cmd.bufOff + cmd.len <= |buf|
    requires cmd.len > 0 ==>
      cmd.zone < |zones| && cmd.sect * SECTOR + cmd.skip + cmd.len <= |zones[cmd.zone]|
    ensures |after| == |buf|
  {
    if cmd.len == 0 then buf
    else buf[..cmd.bufOff] + Fetch(zones, cmd) + buf[cmd.bufOff + cmd.len..]
  }

  lemma {:induction false} DeliverAt(buf: seq<Byte>, img: seq<Byte>, cmd: ReadCmd, offset: nat, j: nat)
    requires |img| % UNIT == 0 && CmdOk(cmd, offset) && 0 < cmd.len
    requires cmd.bufOff + cmd.len <= |buf| && offset + |buf| <= |img| && j < |buf|
    ensures cmd.sect * SECTOR + cmd.skip + cmd.len <= |Stripe(img)[cmd.zone]|
    ensures Deliver(buf, Stripe(img), cmd)[j]
         == if cmd.bufOff <= j < cmd.bufOff + cmd.len then img[offset + j] else buf[j]
  {
    FetchIsSlice(img, cmd, offset);
  }

  lemma {:induction false} TilesBound(cmds: seq<ReadCmd>, size: nat, i: nat)
    requires Tiles(cmds, size) && i < |cmds|
    ensures cmds[i].bufOff + cmds[i].len <= size
  {
    if i < |cmds| - 1 {
      TilesBound(cmds[..|cmds| - 1], cmds[|cmds| - 1].bufOff, i);
    }
  }

  /** Every byte of the buffer is copied by some command. */
  lemma {:induction false} TilesCover(cmds: seq<ReadCmd>, size: nat, j: nat) returns (i: nat)
    requires Tiles(cmds, size) && j < size
    ensures i < |cmds| && cmds[i].bufOff <= j < cmds[i].bufOff + cmds[i].len
  {
    var last := cmds[|cmds| - 1];
    if last.bufOff <= j {
      i := |cmds| - 1;
    } else {
      i := TilesCover(cmds[..|cmds| - 1], last.bufOff, j);
    }
  }

  /** Two commands never copy the same byte. */
  lemma {:induction false} TilesDisjoint(cmds: seq<ReadCmd>, size: nat, i: nat, k: nat)
    requires Tiles(cmds, size) && i < k < |cmds|
    ensures cmds[i].bufOff + cmds[i].len <= cmds[k].bufOff
  {
    if k == |cmds| - 1 {
      TilesBound(cmds[..k], cmds[k].bufOff, i);
    } else {
      TilesDisjoint(cmds[..|cmds| - 1], cmds[|cmds| - 1].bufOff, i, k);
    }
  }

  /** The buffer after the callbacks of `order`, run one after the other. */
  ghost function DeliverAll(buf: seq<Byte>, img: seq<Byte>, cmds: seq<ReadCmd>, offset: nat,
                            order: seq<nat>): (after: seq<Byte>)
    requires |img| % UNIT == 0 && PlanOk(cmds, offset, |buf|) && offset + |buf| <= |img|
    requires forall x :: 0 <= x < |order| ==> order[x] < |cmds|
    ensures |after| == |buf|
  {
    if order == [] then buf
    else
      var o := order[|order| - 1];
      TilesBound(cmds, |buf|, o);
      if cmds[o].len > 0 then
        FetchIsSlice(img, cmds[o], offset);
        Deliver(DeliverAll(buf, img, cmds, offset, order[..|order| - 1]), Stripe(img), cmds[o])
      else DeliverAll(buf, img, cmds, offset, order[..|order| - 1])
  }

  /** A byte whose command has completed holds the image's byte, whatever completed before or after. */
  lemma {:induction false} DeliveredByte(buf: seq<Byte>, img: seq<Byte>, cmds: seq<ReadCmd>, offset: nat,
                                         order: seq<nat>, j: nat, i: nat)
    requires |img| % UNIT == 0 && PlanOk(cmds, offset, |buf|) && offset + |buf| <= |img|
    requires forall x :: 0 <= x < |order| ==> order[x] < |cmds|
    requires i in order && cmds[i].bufOff <= j < cmds[i].bufOff + cmds[i].len && j < |buf|
    ensures DeliverAll(buf, img, cmds, offset, order)[j] == img[offset + j]
  {
    var n := |order| - 1;
    var o := order[n];
    TilesBound(cmds, |buf|, o);
    if cmds[o].len > 0 {
      DeliverAt(DeliverAll(buf, img, cmds, offset, order[..n]), img, cmds[o], offset, j);
    }
    if !(cmds[o].bufOff <= j < cmds[o].bufOff + cmds[o].len) {
      assert order == order[..n] + [o];
      DeliveredByte(buf, img, cmds, offset, order[..n], j, i);
    }
  }

  /** Reading any range of a node's image returns exactly that range, in whatever order the media
      completes the commands, and whatever the buffer held. */
  lemma {:induction false} ReadReturnsImage(buf: seq<Byte>, img: seq<Byte>, cmds: seq<ReadCmd>, offset: nat,
                                            order: seq<nat>)
    requires |img| % UNIT == 0 && PlanOk(cmds, offset, |buf|) && offset + |buf| <= |img|
    requires forall x :: 0 <= x < |order| ==> order[x] < |cmds|
    requires forall o :: 0 <= o < |cmds| ==> o in order
    ensures DeliverAll(buf, img, cmds, offset, order) == img[offset..offset + |buf|]
  {
    forall j | 0 <= j < |buf|
      ensures DeliverAll(buf, img, cmds, offset, order)[j] == img[offset + j]
    {
      var i := TilesCover(cmds, |buf|, j);
      DeliveredByte(buf, img, cmds, offset, order, j, i);
    }
  }

  lemma {:induction false} DeliverAllStep(buf: seq<Byte>, img: seq<Byte>, cmds: seq<ReadCmd>, offset: nat,
                                          order: seq<nat>, o: nat)
    requires |img| % UNIT == 0 && PlanOk(cmds, offset, |buf|) && offset + |buf| <= |img| && o < |cmds|
    requires forall x :: 0 <= x < |order| ==> order[x] < |cmds|
    ensures cmds[o].bufOff + cmds[o].len <= |buf|
    ensures cmds[o].len > 0 ==>
      cmds[o].zone < ZONES && cmds[o].sect * SECTOR + cmds[o].skip + cmds[o].len <= |Stripe(img)[cmds[o].zone]|
    ensures DeliverAll(buf, img, cmds, offset, order + [o])
         == Deliver(DeliverAll(buf, img, cmds, offset, order), Stripe(img), cmds[o])
  {
    TilesBound(cmds, |buf|, o);
    assert (order + [o])[..|order|] == order;
    if cmds[o].len > 0 {
      FetchIsSlice(img, cmds[o], offset);
    }
  }

  ghost function UpTo(n: nat): seq<nat> {
    seq(n, i requires 0 <= i => i)
  }

  /** A whole read: plan it, and complete the commands one after the other. */
  method ReadZones(img: seq<Byte>, offset: nat, size: nat) returns (bytes: seq<Byte>)
    requires |img| % UNIT == 0 && offset + size <= |img|
    ensures bytes == img[offset..offset + size]
  {
    hide DeliverAll, PlanOk, Stripe, Deliver;
    var zones := Stripe(img);
    var cmds := PlanRead(offset, size);
    bytes := seq(size, _ => 0);
    ghost var blank := bytes;
    NoneDelivered(blank, img, cmds, offset);
    var i := 0;
    while i < |cmds|
      invariant 0 <= i <= |cmds|
      invariant bytes == DeliverAll(blank, img, cmds, offset, UpTo(i))
    {
      DeliverAllStep(blank, img, cmds, offset, UpTo(i), i);
      assert UpTo(i) + [i] == UpTo(i + 1);
      bytes := Deliver(bytes, zones, cmds[i]);
      i := i + 1;
    }
    forall o | 0 <= o < |cmds| ensures o in UpTo(|cmds|) {
      assert UpTo(|cmds|)[o] == o;
    }
    ReadReturnsImage(blank, img, cmds, offset, UpTo(|cmds|));
  }

  lemma {:induction false} NoneDelivered(buf: seq<Byte>, img: seq<Byte>, cmds: seq<ReadCmd>, offset: nat)
    requires |img| % UNIT == 0 && PlanOk(cmds, offset, |buf|) && offset + |buf| <= |img|
    ensures DeliverAll(buf, img, cmds, offset, UpTo(0)) == buf
  {
  }
}
