/** The media commands of a user write: which zone, which address and which part of the buffer. */
module WritePath {
  import opened Layout
  import opened Provision

  /** A media write of one unit.  `slot` indexes the context; `chunk` is the unit of the user buffer. */
  datatype WriteCmd = WriteCmd(slot: nat, zone: nat, sect: nat, chunk: nat)

  /** Command `c` of a write at unit `start`: exactly where unit `start + c` of the node lives. */
  ghost function Command(base: seq<nat>, start: nat, c: nat): WriteCmd
    requires |base| == ZONES
  {
    WriteCmd(c % ZONES, ZoneAt(start, c), base[ZoneAt(start, c)] + (start + c) / ZONES * UNIT_SECTORS, c)
  }

  ghost function Commands(base: seq<nat>, start: nat, n: nat): seq<WriteCmd>
    requires |base| == ZONES
  {
    seq(n, c requires 0 <= c => Command(base, start, c))
  }

  /** The list in numbers: command `c` writes part `c` of the buffer to zone `(start + c) mod 64`, 8 sectors at height
      `(start + c) div 64` of it; and slot `k` has commands `k`, `k + 64`, `k + 128`, ... */
  lemma {:induction false} CommandPlaces(base: seq<nat>, start: nat, n: nat, c: nat, k: nat, j: nat)
    requires |base| == ZONES && c < n && j < ZoneUnits(n, k) && k < 64
    ensures |Commands(base, start, n)| == n && |SlotIds(k, ZoneUnits(n, k))| == ZoneUnits(n, k)
    ensures var cmd, z := Commands(base, start, n)[c], (start + c) % 64;
      cmd.slot == c % 64 && cmd.zone == z && cmd.sect == base[z] + 8 * ((start + c) / 64) && cmd.chunk == c
    ensures SlotIds(k, ZoneUnits(n, k))[j] == 64 * j + k < n
  {
  }

  /** The first `n` commands of a slot, in order: `k`, `k + 64`, `k + 128`, ... */
  ghost function SlotIds(k: nat, n: nat): seq<nat> {
    seq(n, j requires 0 <= j => ZONES * j + k)
  }

  /** State of the population loop once `n` of `num` commands are made, for the first `naddr` slots. */
  ghost function LeftList(num: nat, n: nat, naddr: nat): (r: seq<int>)
    ensures |r| == naddr
  {
    seq(naddr, k requires 0 <= k => (ZoneUnits(num, k) - ZoneUnits(n, k)) * UNIT_SECTORS)
  }

  ghost function AddressList(base: seq<nat>, start: nat, n: nat, naddr: nat): (r: seq<nat>)
    requires |base| == ZONES
    ensures |r| == naddr
  {
    seq(naddr, k requires 0 <= k =>
      base[ZoneAt(start, k)] + ((start + k) / ZONES + ZoneUnits(n, k)) * UNIT_SECTORS)
  }

  ghost function IdLists(n: nat, naddr: nat): (r: seq<seq<nat>>)
    ensures |r| == naddr
  {
    seq(naddr, k requires 0 <= k => SlotIds(k, ZoneUnits(n, k)))
  }

  lemma {:induction false} AddressListStart(base: seq<nat>, start: nat, naddr: nat)
    requires |base| == ZONES
    ensures AddressList(base, start, 0, naddr) == HeightList(base, start, naddr)
  {
    assert forall k :: 0 <= k < naddr ==> AddressList(base, start, 0, naddr)[k] == HeightList(base, start, naddr)[k];
  }

  lemma {:induction false} ZoneUnitsNext(n: nat, k: nat)
    requires k < ZONES
    ensures ZoneUnits(n + 1, k) == ZoneUnits(n, k) + (if k == n % ZONES then 1 else 0)
  {
  }

  /** Making command `n` touches only slot `n % 64` and gives it its next height. */
  lemma {:induction false} CommandStep(base: seq<nat>, start: nat, num: nat, n: nat, naddr: nat)
    requires |base| == ZONES && n % ZONES < naddr <= ZONES
    ensures var k := n % ZONES;
      && ZoneAt(start, k) == ZoneAt(start, n)
      && AddressList(base, start, n, naddr)[k] == Command(base, start, n).sect
      && AddressList(base, start, n + 1, naddr)
         == AddressList(base, start, n, naddr)[k := AddressList(base, start, n, naddr)[k] + UNIT_SECTORS]
      && LeftList(num, n + 1, naddr) == LeftList(num, n, naddr)[k := LeftList(num, n, naddr)[k] - UNIT_SECTORS]
      && IdLists(n + 1, naddr) == IdLists(n, naddr)[k := IdLists(n, naddr)[k] + [n]]
  {
    var k := n % ZONES;
    assert n == ZONES * (n / ZONES) + k;
    assert ZoneUnits(n, k) == n / ZONES;
    assert (start + n) / ZONES == (start + k) / ZONES + n / ZONES;
    forall i | 0 <= i < naddr
      ensures ZoneUnits(n + 1, i) == ZoneUnits(n, i) + (if i == k then 1 else 0)
    {
      ZoneUnitsNext(n, i);
    }
    assert SlotIds(k, n / ZONES + 1) == SlotIds(k, n / ZONES) + [n];
  }

  /** A slot is exhausted exactly when the commands are: the skip test is a count test. */
  lemma {:induction false} SlotLeft(num: nat, round: nat, k: nat, n: nat, naddr: nat)
    requires k < naddr <= ZONES && n == (if ZONES * round + k < num then ZONES * round + k else num)
    ensures LeftList(num, n, naddr)[k] <= 0 <==> n == num
    ensures n < num ==> n % ZONES == k
  {
    if n < num {
      assert n / ZONES == round && n % ZONES == k;
      assert ZoneUnits(num, k) > round;
    }
  }

  /** The body of the population loop for one slot that still has sectors to write. */
  method Issue(ctx: Context, left: array<int>, slot: nat, cmds: seq<WriteCmd>)
      returns (more: seq<WriteCmd>)
    requires ctx.Valid() && slot < ctx.naddr && left.Length == MAX_OFFS
    modifies ctx.sect, left
    ensures more == cmds + [WriteCmd(slot, ctx.zone[slot], old(ctx.sect[slot]), |cmds|)]
    ensures ctx.sect[..ctx.naddr] == old(ctx.sect[..ctx.naddr])[slot := old(ctx.sect[slot]) + UNIT_SECTORS]
    ensures left[..ctx.naddr] == old(left[..ctx.naddr])[slot := old(left[slot]) - UNIT_SECTORS]
  {
    more := cmds + [WriteCmd(slot, ctx.zone[slot], ctx.sect[slot], |cmds|)];
    left[slot] := left[slot] - UNIT_SECTORS;
    ctx.sect[slot] := ctx.sect[slot] + UNIT_SECTORS;
  }

  /** The arrays of the population loop are those of `|cmds|` commands made. */
  ghost predicate Populating(t: ZoneTable, ctx: Context, left: array<int>, cmds: seq<WriteCmd>,
                             ids: seq<seq<nat>>, num: nat, start: nat)
    requires t.Valid() && ctx.Valid()
    reads t, ctx, ctx.sect, left
  {
    left.Length == MAX_OFFS && left as object != ctx.zone && left as object != ctx.nsec &&
    left as object != ctx.sect &&
    cmds == Commands(t.base, start, |cmds|) &&
    left[..ctx.naddr] == LeftList(num, |cmds|, ctx.naddr) &&
    ctx.sect[..ctx.naddr] == AddressList(t.base, start, |cmds|, ctx.naddr) &&
    ids == IdLists(|cmds|, ctx.naddr)
  }

  /** The inner loop: one pass over the slots. */
  method Round(t: ZoneTable, ctx: Context, left: array<int>, cmds0: seq<WriteCmd>, ids0: seq<seq<nat>>,
               num: nat, start: nat, ghost round: nat)
      returns (cmds: seq<WriteCmd>, ids: seq<seq<nat>>)
    requires t.Valid() && ctx.Valid() && ctx.naddr <= ZONES && ctx.zone[..ctx.naddr] == ZoneList(start, ctx.naddr)
    requires Populating(t, ctx, left, cmds0, ids0, num, start) && |cmds0| == ZONES * round < num
    modifies ctx.sect, left
    ensures Populating(t, ctx, left, cmds, ids, num, start)
    ensures |cmds| == if ZONES * round + ctx.naddr < num then ZONES * round + ctx.naddr else num
  {
    hide LeftList, AddressList, IdLists, ZoneUnits;
    cmds, ids := cmds0, ids0;
    var slot := 0;
    while slot < ctx.naddr
      invariant slot <= ctx.naddr
      invariant Populating(t, ctx, left, cmds, ids, num, start)
      invariant |cmds| == if ZONES * round + slot < num then ZONES * round + slot else num
    {
      var n := |cmds|;
      SlotLeft(num, round, slot, n, ctx.naddr);
      assert left[slot] == left[..ctx.naddr][slot];
      if left[slot] > 0 {
        CommandStep(t.base, start, num, n, ctx.naddr);
        assert ctx.zone[slot] == ctx.zone[..ctx.naddr][slot] && ctx.sect[slot] == ctx.sect[..ctx.naddr][slot];
        cmds := Issue(ctx, left, slot, cmds);
        ids := ids[slot := ids[slot] + [n]];
      }
      slot := slot + 1;
    }
  }

  /** The population loop of ztl_io_write_ucmd: a round robin over the slots that skips exhausted
      ones.  It makes command `c` for unit `start + c`, and lists each slot's commands in order. */
  method Populate(t: ZoneTable, ctx: Context, num: nat, start: nat)
      returns (cmds: seq<WriteCmd>, ids: seq<seq<nat>>)
    requires t.Valid() && ctx.Valid() && Separate(t, ctx) && ctx.Holds(start, num)
    requires ctx.sect[..ctx.naddr] == HeightList(t.base, start, ctx.naddr)
    modifies ctx.sect
    ensures cmds == Commands(t.base, start, num)
    ensures |ids| == ctx.naddr
    ensures forall k :: 0 <= k < |ids| ==> ids[k] == SlotIds(k, ZoneUnits(num, k))
    ensures ctx.Holds(start, num)
  {
    var left: array<int> := new int[MAX_OFFS];
    var i := 0;
    while i < ctx.naddr
      invariant 0 <= i <= ctx.naddr
      invariant forall k :: 0 <= k < i ==> left[k] == ctx.nsec[k]
      modifies left
    {
      left[i] := ctx.nsec[i];
      i := i + 1;
    }
    cmds, ids := [], seq(ctx.naddr, _ => []);
    assert left[..ctx.naddr] == ctx.nsec[..ctx.naddr] == LeftList(num, 0, ctx.naddr);
    assert ids == IdLists(0, ctx.naddr);
    AddressListStart(t.base, start, ctx.naddr);

    ghost var round := 0;
    while |cmds| < num
      invariant fresh(left) && Populating(t, ctx, left, cmds, ids, num, start)
      invariant |cmds| == if ZONES * round < num then ZONES * round else num
      decreases num - |cmds|
    {
      cmds, ids := Round(t, ctx, left, cmds, ids, num, start, round);
      round := round + 1;
    }
  }
}
