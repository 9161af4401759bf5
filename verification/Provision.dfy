/** Zone provisioning: how a request for `num` units is split over the zones of a node, and how the
    in-flight and completed write pointers follow it. */
module Provision {
  import opened Layout

  const MAX_OFFS: nat := 128

  /** The `k`-th zone of the rotation that begins at the zone of unit `start`. */
  function ZoneAt(start: nat, k: nat): (z: nat)
    ensures z < ZONES
  {
    (start + k) % ZONES
  }

  lemma {:induction false} ZoneAtNext(start: nat, k: nat)
    ensures (ZoneAt(start, k) + 1) % ZONES == ZoneAt(start, k + 1)
  {
  }

  /** Position of zone `z` in the rotation that begins at the zone of unit `start`. */
  function Rotation(z: nat, start: nat): (k: nat)
    requires z < ZONES
    ensures k < ZONES && ZoneAt(start, k) == z
  {
    (z + ZONES - start % ZONES) % ZONES
  }

  lemma {:induction false} RotationUnique(start: nat, k: nat)
    requires k < ZONES
    ensures Rotation(ZoneAt(start, k), start) == k
  {
  }

  /** Sum of the shares given to the first `j` zones of the rotation. */
  ghost function SumShares(num: nat, j: nat): nat {
    if j == 0 then 0 else SumShares(num, j - 1) + ZoneUnits(num, j - 1)
  }

  lemma {:induction false} SumSharesClosed(num: nat, j: nat)
    requires j <= ZONES
    ensures SumShares(num, j) == j * (num / ZONES) + (if j < num % ZONES then j else num % ZONES)
  {
    if j > 0 {
      SumSharesClosed(num, j - 1);
      assert j * (num / ZONES) == (j - 1) * (num / ZONES) + num / ZONES;
    }
  }

  /** The shares of the 64 zones sum to the request. */
  lemma {:induction false} SharesSum(num: nat)
    ensures SumShares(num, ZONES) == num
  {
    SumSharesClosed(num, ZONES);
  }

  lemma {:induction false} ProductBelow(j: nat, q: nat)
    requires 0 < q && j < ZONES
    ensures j * q + (ZONES - j) <= ZONES * q
  {
    assert (ZONES - j) * (q - 1) >= 0;
  }

  /** After `j` zones something is left to hand out exactly when the rotation is not finished. */
  lemma {:induction false} SharesLeft(num: nat, j: nat)
    requires j <= ZONES
    ensures SumShares(num, j) <= num
    ensures SumShares(num, j) == num <==> (j == ZONES || num <= j)
  {
    SumSharesClosed(num, j);
    if num / ZONES == 0 {
      assert j * 0 == 0;
    } else if j < ZONES {
      ProductBelow(j, num / ZONES);
    }
  }

  /** Loop state of the allocator after `j` grants: `left` units and `addition` extra units to go. */
  ghost predicate Allotting(request: nat, j: nat, left: nat, addition: nat) {
    j <= ZONES && j <= request &&
    addition == (if j < request % ZONES then request % ZONES - j else 0) &&
    left == request - SumShares(request, j) &&
    (left == 0 <==> j == ZONES || request <= j)
  }

  lemma {:induction false} AllottingStep(request: nat, j: nat, left: nat, addition: nat)
    requires Allotting(request, j, left, addition) && left != 0
    ensures var share := request / ZONES + (if addition == 0 then 0 else 1);
            share == ZoneUnits(request, j) && 0 < share <= left &&
            Allotting(request, j + 1, left - share, if addition == 0 then 0 else addition - 1)
  {
    SharesLeft(request, j);
    SharesLeft(request, j + 1);
  }

  /** Sectors that the first `j` grants of the rotation give to zone `z`. */
  ghost function Granted(z: nat, start: nat, num: nat, j: nat): nat
    requires z < ZONES
  {
    if Rotation(z, start) < j then ZoneUnits(num, Rotation(z, start)) * UNIT_SECTORS else 0
  }

  lemma {:induction false} GrantedStep(start: nat, num: nat, j: nat)
    requires j < ZONES
    ensures Granted(ZoneAt(start, j), start, num, j) == 0
    ensures forall z :: 0 <= z < ZONES ==>
              Granted(z, start, num, j + 1) == Granted(z, start, num, j) +
              (if z == ZoneAt(start, j) then ZoneUnits(num, j) * UNIT_SECTORS else 0)
  {
    RotationUnique(start, j);
  }

  /** The in-flight pointers after the first `j` grants, from the pointers before them. */
  ghost function Advanced(before: seq<nat>, start: nat, num: nat, j: nat): (after: seq<nat>)
    requires |before| == ZONES
  {
    seq(ZONES, z requires 0 <= z < ZONES => before[z] + Granted(z, start, num, j))
  }

  lemma {:induction false} AdvancedStep(before: seq<nat>, start: nat, num: nat, j: nat)
    requires |before| == ZONES && j < ZONES
    ensures var after, z := Advanced(before, start, num, j), ZoneAt(start, j);
            after[z] == before[z] &&
            Advanced(before, start, num, j + 1) == after[z := after[z] + ZoneUnits(num, j) * UNIT_SECTORS]
  {
    GrantedStep(start, num, j);
  }

  /** What the first `j` grants record in the context. */
  ghost function ZoneList(start: nat, j: nat): seq<nat> {
    seq(j, k requires 0 <= k => ZoneAt(start, k))
  }

  ghost function SectList(before: seq<nat>, start: nat, j: nat): seq<nat>
    requires |before| == ZONES
  {
    seq(j, k requires 0 <= k => before[ZoneAt(start, k)])
  }

  ghost function ShareList(num: nat, j: nat): seq<nat> {
    seq(j, k requires 0 <= k => ZoneUnits(num, k) * UNIT_SECTORS)
  }

  /** Where every zone's pointer stands in a balanced node holding `units` units. */
  ghost function Balanced(base: seq<nat>, units: nat): seq<nat>
    requires |base| == ZONES
  {
    seq(ZONES, z requires 0 <= z < ZONES => base[z] + ZoneUnits(units, z) * UNIT_SECTORS)
  }

  /** The addresses at which the units `start`, `start + 1`, ... of a node are found. */
  ghost function HeightList(base: seq<nat>, start: nat, j: nat): seq<nat>
    requires |base| == ZONES
  {
    seq(j, k requires 0 <= k => base[ZoneAt(start, k)] + (start + k) / ZONES * UNIT_SECTORS)
  }

  /** Once the rotation has ended, the node went from the balance of `start` to that of `start + num`. */
  lemma {:induction false} AllotmentBalanced(base: seq<nat>, start: nat, num: nat, j: nat)
    requires |base| == ZONES && j == if num < ZONES then num else ZONES
    ensures Advanced(Balanced(base, start), start, num, j) == Balanced(base, start + num)
    ensures SectList(Balanced(base, start), start, j) == HeightList(base, start, j)
  {
    forall z | 0 <= z < ZONES
      ensures Advanced(Balanced(base, start), start, num, j)[z] == Balanced(base, start + num)[z]
    {
      SharesKeepBalance(start, num, Rotation(z, start));
    }
    forall k | 0 <= k < j
      ensures SectList(Balanced(base, start), start, j)[k] == HeightList(base, start, j)[k]
    {
      HeightOfNext(start, k);
    }
  }

  /** Write pointers of the zones of one node, as absolute sectors. */
  class ZoneTable {
    const base: seq<nat>
    var wptr: array<nat>
    var inflight: array<nat>
    var busy: nat

    ghost predicate Valid()
      reads this
    {
      |base| == ZONES && wptr.Length == ZONES && inflight.Length == ZONES && wptr != inflight
    }
  }

  /** The addresses handed to one user command. */
  class Context {
    var naddr: nat
    var zone: array<nat>
    var sect: array<nat>
    var nsec: array<nat>

    ghost predicate Valid()
      reads this
    {
      zone.Length == MAX_OFFS && sect.Length == MAX_OFFS && nsec.Length == MAX_OFFS &&
      zone != sect && zone != nsec && sect != nsec && naddr <= MAX_OFFS
    }

    /** The context holds the shares of a request of `num` units at unit `start`. */
    ghost predicate Holds(start: nat, num: nat)
      requires Valid()
      reads this, zone, nsec
    {
      naddr == (if num < ZONES then num else ZONES) &&
      zone[..naddr] == ZoneList(start, naddr) && nsec[..naddr] == ShareList(num, naddr)
    }
  }

  ghost predicate Separate(t: ZoneTable, ctx: Context)
    reads t, ctx
  {
    ctx.zone != t.wptr && ctx.sect != t.wptr && ctx.nsec != t.wptr &&
    ctx.zone != t.inflight && ctx.sect != t.inflight && ctx.nsec != t.inflight
  }

  /** One iteration of the loop in ztl_pro_grp_get: record the address and move the pointer. */
  method Grant(t: ZoneTable, ctx: Context, zone: nat, nsec: nat)
    requires t.Valid() && ctx.Valid() && Separate(t, ctx) && ctx.naddr < MAX_OFFS && zone < ZONES
    modifies ctx`naddr, ctx.zone, ctx.sect, ctx.nsec, t.inflight
    ensures ctx.Valid() && ctx.naddr == old(ctx.naddr) + 1
    ensures ctx.zone[..ctx.naddr] == old(ctx.zone[..ctx.naddr]) + [zone]
    ensures ctx.sect[..ctx.naddr] == old(ctx.sect[..ctx.naddr]) + [old(t.inflight[zone])]
    ensures ctx.nsec[..ctx.naddr] == old(ctx.nsec[..ctx.naddr]) + [nsec]
    ensures t.inflight[..] == old(t.inflight[..])[zone := old(t.inflight[zone]) + nsec]
  {
    ctx.zone[ctx.naddr] := zone;
    ctx.sect[ctx.naddr] := t.inflight[zone];
    ctx.nsec[ctx.naddr] := nsec;
    t.inflight[zone] := t.inflight[zone] + nsec;
    ctx.naddr := ctx.naddr + 1;
  }

  /** ztl_pro_grp_get: the shares go to distinct zones and each in-flight pointer moves by its share. */
  method Get(t: ZoneTable, ctx: Context, request: nat, start: nat)
    requires t.Valid() && ctx.Valid() && Separate(t, ctx) && ctx.naddr == 0
    modifies ctx`naddr, ctx.zone, ctx.sect, ctx.nsec, t.inflight
    ensures ctx.Valid() && ctx.naddr == if request < ZONES then request else ZONES
    ensures ctx.zone[..ctx.naddr] == ZoneList(start, ctx.naddr)
    ensures ctx.sect[..ctx.naddr] == SectList(old(t.inflight[..]), start, ctx.naddr)
    ensures ctx.nsec[..ctx.naddr] == ShareList(request, ctx.naddr)
    ensures t.inflight[..] == Advanced(old(t.inflight[..]), start, request, ctx.naddr)
  {
    var num: nat := request;
    var perZone := num / ZONES;
    var addition: nat := num % ZONES;
    var zone := start % ZONES;
    ghost var before := t.inflight[..];
    SharesLeft(request, 0);
    assert zone == ZoneAt(start, 0) && Advanced(before, start, request, 0) == before;
    assert Allotting(request, 0, num, addition);
    hide Advanced, ZoneUnits, Granted;

    while num != 0
      invariant ctx.Valid() && Allotting(request, ctx.naddr, num, addition)
      invariant zone == ZoneAt(start, ctx.naddr)
      invariant ctx.zone[..ctx.naddr] == ZoneList(start, ctx.naddr)
      invariant ctx.sect[..ctx.naddr] == SectList(before, start, ctx.naddr)
      invariant ctx.nsec[..ctx.naddr] == ShareList(request, ctx.naddr)
      invariant t.inflight[..] == Advanced(before, start, request, ctx.naddr)
      decreases num
    {
      var extra := if addition == 0 then 0 else 1;
      AllottingStep(request, ctx.naddr, num, addition);
      AdvancedStep(before, start, request, ctx.naddr);
      ZoneAtNext(start, ctx.naddr);

      Grant(t, ctx, zone, (perZone + extra) * UNIT_SECTORS);
      zone := (zone + 1) % ZONES;
      num := num - (perZone + extra);
      if addition != 0 {
        addition := addition - 1;
      }
    }
  }

  /** ztl_pro_new: a balanced node stays balanced, with the new units in flight. */
  method New(t: ZoneTable, ctx: Context, num: nat, start: nat)
    requires t.Valid() && ctx.Valid() && Separate(t, ctx)
    requires t.inflight[..] == Balanced(t.base, start)
    modifies ctx`naddr, ctx.zone, ctx.sect, ctx.nsec, t`busy, t.inflight
    ensures ctx.Valid() && ctx.Holds(start, num)
    ensures ctx.sect[..ctx.naddr] == HeightList(t.base, start, ctx.naddr)
    ensures t.inflight[..] == Balanced(t.base, start + num)
    ensures t.busy == old(t.busy) + 1
  {
    ctx.naddr := 0;
    Get(t, ctx, num, start);
    t.busy := t.busy + 1;
    AllotmentBalanced(t.base, start, num, ctx.naddr);
  }

  /** ztl_pro_free: once all commands completed, the completed pointers catch up with the in-flight
      ones in every zone, including those the request did not touch. */
  method Free(t: ZoneTable, ctx: Context, ghost num: nat, ghost start: nat)
    requires t.Valid() && ctx.Valid() && Separate(t, ctx) && ctx.Holds(start, num) && t.busy > 0
    requires t.wptr[..] == Balanced(t.base, start) && t.inflight[..] == Balanced(t.base, start + num)
    modifies t`busy, t.wptr
    ensures t.wptr[..] == t.inflight[..] == Balanced(t.base, start + num)
    ensures t.busy == old(t.busy) - 1
  {
    ghost var before := t.wptr[..];
    assert Advanced(before, start, num, 0) == before;
    hide Advanced, ZoneUnits, Granted;
    var i := 0;
    while i < ctx.naddr
      invariant 0 <= i <= ctx.naddr
      invariant t.wptr[..] == Advanced(before, start, num, i)
      modifies t.wptr
    {
      AdvancedStep(before, start, num, i);
      assert ctx.zone[i] == ctx.zone[..ctx.naddr][i] == ZoneAt(start, i);
      assert ctx.nsec[i] == ctx.nsec[..ctx.naddr][i];
      t.wptr[ctx.zone[i]] := t.wptr[ctx.zone[i]] + ctx.nsec[i];
      i := i + 1;
    }
    t.busy := t.busy - 1;
    AllotmentBalanced(t.base, start, num, ctx.naddr);
  }
}
