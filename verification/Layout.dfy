/** How a node's address space is laid out on its zones.

    A node is 64 zones.  Space is handed out in units of 8 sectors; unit `u` of a node lives in zone
    `u % 64` at height `u / 64`.  The *image* of a node is the byte sequence a user sees: everything
    written to it, in order.  `Stripe` says what each zone holds when the node holds a given image.
 */
module Layout {

  type Byte = b: int | 0 <= b < 256

  const ZONES: nat := 64
  const SECTOR: nat := 4096
  const UNIT_SECTORS: nat := 8
  const UNIT: nat := 32768
  const ZONE_SECTORS: nat := 24576
  const NODE_UNITS: nat := 196608

  /** The geometry: 8 sectors of 4 KiB make a unit, 64 zones of 96 MiB a node of 6 GiB. */
  lemma {:induction false} Geometry()
    ensures UNIT == 8 * 4096 == UNIT_SECTORS * SECTOR
    ensures ZONES == 64 && ZONE_SECTORS * SECTOR == 96 * 1024 * 1024
    ensures NODE_UNITS * UNIT == ZONES * ZONE_SECTORS * SECTOR == 6 * 1024 * 1024 * 1024
  {
  }

  /** Units held by zone `z` of a node holding `units` units: the balanced distribution. */
  function ZoneUnits(units: nat, z: nat): nat {
    units / ZONES + (if z < units % ZONES then 1 else 0)
  }

  /** The linear byte of the image that sits at byte `i` of zone `z`. */
  function LinearByte(z: nat, i: nat): nat {
    (i / UNIT * ZONES + z) * UNIT + i % UNIT
  }

  function StripeZone(img: seq<Byte>, z: nat): (zone: seq<Byte>)
    requires |img| % UNIT == 0 && z < ZONES
    ensures |zone| == ZoneUnits(|img| / UNIT, z) * UNIT
  {
    var n := ZoneUnits(|img| / UNIT, z) * UNIT;
    seq(n, i requires 0 <= i < n => LinearByteInImage(|img| / UNIT, z, i); img[LinearByte(z, i)])
  }

  /** The contents of the 64 zones of a node whose image is `img`. */
  function Stripe(img: seq<Byte>): (zones: seq<seq<Byte>>)
    requires |img| % UNIT == 0
    ensures |zones| == ZONES
  {
    seq(ZONES, z requires 0 <= z < ZONES => StripeZone(img, z))
  }

  lemma {:induction false} LinearByteInImage(units: nat, z: nat, i: nat)
    requires z < ZONES && i < ZoneUnits(units, z) * UNIT
    ensures LinearByte(z, i) < units * UNIT
  {
    var level := i / UNIT;
    assert level < ZoneUnits(units, z);
    assert level * ZONES + z < units;
  }

  /** `LinearByte` is inverted by the div/mod the reader performs. */
  lemma {:induction false} LinearByteInverse(p: nat)
    ensures LinearByte(p / UNIT % ZONES, p / UNIT / ZONES * UNIT + p % UNIT) == p
  {
    var u, r := p / UNIT, p % UNIT;
    var i := u / ZONES * UNIT + r;
    assert i / UNIT == u / ZONES && i % UNIT == r;
  }

  /** Byte `p` of the image is found in zone `u % 64`, unit `u / 64`, for `u` the unit of `p`. */
  lemma {:induction false} StripeAt(img: seq<Byte>, p: nat)
    requires |img| % UNIT == 0 && p < |img|
    ensures p / UNIT / ZONES * UNIT + p % UNIT < |Stripe(img)[p / UNIT % ZONES]|
    ensures Stripe(img)[p / UNIT % ZONES][p / UNIT / ZONES * UNIT + p % UNIT] == img[p]
  {
    var u := p / UNIT;
    assert u < |img| / UNIT;
    assert u / ZONES < ZoneUnits(|img| / UNIT, u % ZONES);
    LinearByteInverse(p);
  }

  /** A node's zones determine its image. */
  lemma {:induction false} StripeInjective(a: seq<Byte>, b: seq<Byte>)
    requires |a| % UNIT == 0 && |b| % UNIT == 0 && |a| == |b|
    ensures Stripe(a) == Stripe(b) ==> a == b
  {
    if Stripe(a) == Stripe(b) {
      forall p | 0 <= p < |a| ensures a[p] == b[p] {
        StripeAt(a, p);
        StripeAt(b, p);
      }
    }
  }

  /** The heart of the allocator: giving the `k`-th zone after `start` its share of `num` units
      leads from the balanced distribution of `start` to the one of `start + num`. */
  lemma {:induction false} SharesKeepBalance(start: nat, num: nat, k: nat)
    requires k < ZONES
    ensures ZoneUnits(start, (start + k) % ZONES) + ZoneUnits(num, k)
         == ZoneUnits(start + num, (start + k) % ZONES)
  {
    var s, m := start % ZONES, num % ZONES;
    var z := (start + k) % ZONES;
    assert z == if s + k < ZONES then s + k else s + k - ZONES;
    assert (start + num) / ZONES == start / ZONES + num / ZONES + (if s + m < ZONES then 0 else 1);
    assert (start + num) % ZONES == if s + m < ZONES then s + m else s + m - ZONES;
  }

  /** The height at which the `k`-th zone after `start` continues is the height of unit `start + k`. */
  lemma {:induction false} HeightOfNext(start: nat, k: nat)
    requires k < ZONES
    ensures ZoneUnits(start, (start + k) % ZONES) == (start + k) / ZONES
  {
    var s := start % ZONES;
    assert (start + k) / ZONES == start / ZONES + (if s + k < ZONES then 0 else 1);
    assert (start + k) % ZONES == if s + k < ZONES then s + k else s + k - ZONES;
  }

  /** No zone passes its capacity while the node has not passed its own. */
  lemma {:induction false} ZoneCapacity(units: nat, z: nat)
    requires units <= NODE_UNITS && z < ZONES
    ensures ZoneUnits(units, z) * UNIT_SECTORS <= ZONE_SECTORS
  {
  }

  /** Appending to the image only extends each zone. */
  lemma {:induction false} StripePrefix(img: seq<Byte>, more: seq<Byte>, z: nat)
    requires |img| % UNIT == 0 && |more| % UNIT == 0 && z < ZONES
    ensures |Stripe(img)[z]| <= |Stripe(img + more)[z]|
    ensures Stripe(img)[z] == Stripe(img + more)[z][..|Stripe(img)[z]|]
  {
    var a, b := |img| / UNIT, |img + more| / UNIT;
    assert a <= b;
    assert ZoneUnits(a, z) <= ZoneUnits(b, z);
    forall i | 0 <= i < |Stripe(img)[z]|
      ensures Stripe(img)[z][i] == Stripe(img + more)[z][i]
    {
      LinearByteInImage(a, z, i);
    }
  }

  lemma {:induction false} SliceOfSlice<T>(s: seq<T>, b: nat, m: nat, off: nat, k: nat)
    requires b + m <= |s| && off + k <= m
    ensures s[b..b + m][off..off + k] == s[b + off..b + off + k]
  {
    var x, y := s[b..b + m][off..off + k], s[b + off..b + off + k];
    forall i | 0 <= i < k ensures x[i] == y[i] {
      assert s[b..b + m][off + i] == s[b + off + i];
    }
  }

  lemma {:induction false} SliceJoin<T>(s: seq<T>, a: nat, b: nat, c: nat)
    requires a <= b <= c <= |s|
    ensures s[a..b] + s[b..c] == s[a..c]
  {
  }

  lemma {:induction false} SplitLast<T>(s: seq<T>)
    requires s != []
    ensures s[..|s| - 1] + [s[|s| - 1]] == s
  {
  }

  lemma {:induction false} TailOfAppend<T>(s: seq<T>, x: T)
    requires s != []
    ensures (s + [x])[1..] == s[1..] + [x] && (s + [x])[0] == s[0]
  {
  }

  lemma {:induction false} ConcatAssoc<T>(a: seq<T>, b: seq<T>, c: seq<T>)
    ensures (a + b) + c == a + (b + c)
  {
  }
}
