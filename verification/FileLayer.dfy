/** A file: a list of pieces on the nodes and a write cache in memory, which together behave as one
    byte sequence. */
module FileLayer {
  import opened Layout
  import opened NodeGroup
  import opened Zrocks

  // ----- pieces of a file

  predicate Matches(q: Live, p: Piece) {
    p == Entry(q, p.padding) && p.padding < UNIT
  }

  ghost predicate Owned(live: seq<Live>, p: Piece) {
    exists q :: q in live && Matches(q, p)
  }

  /** Every piece of the list is a live piece of the group. */
  ghost predicate AllOwned(live: seq<Live>, ps: seq<Piece>) {
    forall i :: 0 <= i < |ps| ==> Owned(live, ps[i])
  }

  /** No two pieces begin at the same unit. */
  predicate SamePlace(p: Piece, p': Piece) {
    p.node == p'.node && p.start == p'.start
  }

  ghost predicate PairwiseApart(ps: seq<Piece>) {
    forall i, j :: 0 <= i < j < |ps| ==> !SamePlace(ps[i], ps[j])
  }

  /** Live pieces at the same place are the same piece. */
  lemma {:induction false} LivePlace(g: Group, live: seq<Live>, x: nat, y: nat)
    requires Inv(g, live) && x < |live| && y < |live| && live[x].node == live[y].node && live[x].start == live[y].start
    ensures x == y
  {
    assert LiveOk(g, live[x]) && LiveOk(g, live[y]);
    assert x < y ==> Apart(live[x], live[y]);
    assert y < x ==> Apart(live[y], live[x]);
  }

  ghost predicate Kept(live: seq<Live>, live': seq<Live>, p: Piece) {
    exists q :: q in live && q in live' && Matches(q, p)
  }

  /** Every piece of the list is live before and after some steps. */
  ghost predicate AllKept(live: seq<Live>, live': seq<Live>, ps: seq<Piece>) {
    forall i :: 0 <= i < |ps| ==> Kept(live, live', ps[i])
  }

  /** The piece is one of the given ones, or belongs to a live piece that was not live before. */
  ghost predicate NovelPiece(live: seq<Live>, live': seq<Live>, ps: seq<Piece>, p: Piece) {
    p in ps || exists q :: q in live' && q !in live && Matches(q, p)
  }

  ghost predicate Novel(live: seq<Live>, live': seq<Live>, ps: seq<Piece>, ps': seq<Piece>) {
    forall x :: 0 <= x < |ps'| ==> NovelPiece(live, live', ps, ps'[x])
  }

  /** Units that a list of pieces has in node `n`. */
  function UnitsIn(ps: seq<Piece>, n: nat): nat {
    if ps == [] then 0
    else UnitsIn(ps[..|ps| - 1], n) + (if ps[|ps| - 1].node == n then ps[|ps| - 1].num else 0)
  }

  ghost function TotalUnits(ps: seq<Piece>): nat {
    if ps == [] then 0 else TotalUnits(ps[..|ps| - 1]) + ps[|ps| - 1].num
  }

  lemma {:induction false} UnitsConcat(a: seq<Piece>, b: seq<Piece>, n: nat)
    ensures UnitsIn(a + b, n) == UnitsIn(a, n) + UnitsIn(b, n)
    ensures TotalUnits(a + b) == TotalUnits(a) + TotalUnits(b)
  {
    if b == [] {
      assert a + b == a;
    } else {
      UnitsConcat(a, b[..|b| - 1], n);
      assert (a + b)[..|a + b| - 1] == a + b[..|b| - 1];
    }
  }

  lemma {:induction false} LiveUnitsConcat(a: seq<Live>, b: seq<Live>, n: nat)
    ensures LiveUnits(a + b, n) == LiveUnits(a, n) + LiveUnits(b, n)
  {
    if b == [] {
      assert a + b == a;
    } else {
      LiveUnitsConcat(a, b[..|b| - 1], n);
      assert (a + b)[..|a + b| - 1] == a + b[..|b| - 1];
    }
  }

  lemma {:induction false} WrittenUnits(written: seq<Live>, ps: seq<Piece>, n: nat)
    requires |ps| == |written| && forall i :: 0 <= i < |ps| ==> Matches(written[i], ps[i])
    ensures UnitsIn(ps, n) == LiveUnits(written, n)
  {
    if ps != [] {
      WrittenUnits(written[..|ps| - 1], ps[..|ps| - 1], n);
      assert Matches(written[|ps| - 1], ps[|ps| - 1]);
    }
  }

  /** The live units of every node changed by what the list of pieces gained or lost there. */
  ghost predicate Tally(live: seq<Live>, live': seq<Live>, ps: seq<Piece>, ps': seq<Piece>) {
    forall n :: LiveUnits(live', n) + UnitsIn(ps, n) == LiveUnits(live, n) + UnitsIn(ps', n)
  }

  /** Only pieces were added, to the group and to the file, and the same ones. */
  ghost predicate Grew(live: seq<Live>, live': seq<Live>, ps: seq<Piece>, ps': seq<Piece>) {
    live <= live' && ps <= ps' && Novel(live, live', ps, ps') && Tally(live, live', ps, ps')
  }

  lemma {:induction false} GrewSame(live: seq<Live>, ps: seq<Piece>)
    ensures Grew(live, live, ps, ps)
  {
  }

  lemma {:induction false} GrewTransitive(live0: seq<Live>, live1: seq<Live>, live2: seq<Live>, ps0: seq<Piece>,
                                          ps1: seq<Piece>, ps2: seq<Piece>)
    requires Grew(live0, live1, ps0, ps1) && Grew(live1, live2, ps1, ps2)
    ensures Grew(live0, live2, ps0, ps2)
  {
    NovelTransitive(live0, live1, live2, ps0, ps1, ps2);
    hide Novel;
    forall n ensures LiveUnits(live2, n) + UnitsIn(ps0, n) == LiveUnits(live0, n) + UnitsIn(ps2, n) {
      assert LiveUnits(live1, n) + UnitsIn(ps0, n) == LiveUnits(live0, n) + UnitsIn(ps1, n);
    }
  }

  lemma {:induction false} NovelTransitive(live0: seq<Live>, live1: seq<Live>, live2: seq<Live>, ps0: seq<Piece>,
                                           ps1: seq<Piece>, ps2: seq<Piece>)
    requires live0 <= live1 <= live2 && Novel(live0, live1, ps0, ps1) && Novel(live1, live2, ps1, ps2)
    ensures Novel(live0, live2, ps0, ps2)
  {
    forall x | 0 <= x < |ps2| ensures NovelPiece(live0, live2, ps0, ps2[x]) {
      assert NovelPiece(live1, live2, ps1, ps2[x]);
      if ps2[x] in ps1 {
        var y :| 0 <= y < |ps1| && ps1[y] == ps2[x];
        assert NovelPiece(live0, live1, ps0, ps1[y]);
        if q :| q in live1 && q !in live0 && Matches(q, ps1[y]) {
          InPrefix(live1, live2, q);
        }
      } else {
        var q :| q in live2 && q !in live1 && Matches(q, ps2[x]);
        if q in live0 {
          InPrefix(live0, live1, q);
        }
      }
    }
  }

  lemma {:induction false} InPrefix(live: seq<Live>, live': seq<Live>, q: Live)
    requires live <= live' && q in live
    ensures q in live'
  {
    var x :| 0 <= x < |live| && live[x] == q;
    assert live'[x] == q;
  }

  /** A piece just written was not live before. */
  lemma {:induction false} WrittenIsNew(g: Group, live: seq<Live>, written: seq<Live>, k: nat)
    requires Inv(g, live + written) && k < |written|
    ensures written[k] !in live
  {
    hide Inv;
    if written[k] in live {
      var x :| 0 <= x < |live| && live[x] == written[k];
      LivePlace(g, live + written, x, |live| + k);
    }
  }

  lemma {:induction false} OwnedMapped(g: Group, live: seq<Live>, ps: seq<Piece>)
    requires Inv(g, live) && AllOwned(live, ps)
    ensures AllMapped(g, ps)
  {
    forall i | 0 <= i < |ps| ensures Mapped(g, ps[i]) {
      assert Owned(live, ps[i]);
      var q :| q in live && Matches(q, ps[i]);
      KeptPayload(g, live, q, ps[i]);
    }
  }

  lemma {:induction false} KeptPayload(g: Group, live: seq<Live>, q: Live, p: Piece)
    requires Inv(g, live) && q in live && Matches(q, p)
    ensures Mapped(g, p) && p.padding <= |q.data| && Payload(g, p) == q.data[..|q.data| - p.padding]
  {
    var x :| 0 <= x < |live| && live[x] == q;
    LastHolds(g, live[x], p);
  }

  /** The payload of a piece is determined by the live piece it maps, so steps that keep the pieces
      live keep the bytes. */
  lemma {:induction false} KeptPayloads(g: Group, live: seq<Live>, g': Group, live': seq<Live>, ps: seq<Piece>)
    requires Inv(g, live) && Inv(g', live') && AllKept(live, live', ps)
    ensures AllMapped(g, ps) && AllMapped(g', ps) && Payloads(g, ps) == Payloads(g', ps)
  {
    hide Inv, Payload, Mapped;
    if ps != [] {
      var n := |ps| - 1;
      forall i | 0 <= i < n ensures Kept(live, live', ps[..n][i]) {
        assert Kept(live, live', ps[i]);
      }
      KeptPayloads(g, live, g', live', ps[..n]);
      assert Kept(live, live', ps[n]);
      var q :| q in live && q in live' && Matches(q, ps[n]);
      KeptPayload(g, live, q, ps[n]);
      KeptPayload(g', live', q, ps[n]);
      forall i | 0 <= i < |ps| ensures Mapped(g, ps[i]) && Mapped(g', ps[i]) {
        assert i < n ==> Mapped(g, ps[..n][i]) && Mapped(g', ps[..n][i]);
      }
    }
  }

  lemma {:induction false} PrefixKept(live: seq<Live>, live': seq<Live>, ps: seq<Piece>)
    requires AllOwned(live, ps) && live <= live'
    ensures AllKept(live, live', ps) && AllOwned(live', ps)
  {
    forall i | 0 <= i < |ps| ensures Kept(live, live', ps[i]) && Owned(live', ps[i]) {
      assert Owned(live, ps[i]);
      var q :| q in live && Matches(q, ps[i]);
      var x :| 0 <= x < |live| && live[x] == q;
      assert live'[x] == q;
    }
  }

  lemma {:induction false} PayloadsConcat(g: Group, a: seq<Piece>, b: seq<Piece>)
    requires AllMapped(g, a) && AllMapped(g, b)
    ensures AllMapped(g, a + b) && Payloads(g, a + b) == Payloads(g, a) + Payloads(g, b)
  {
    hide Payload, Mapped;
    if b == [] {
      assert a + b == a;
    } else {
      var n := |b| - 1;
      PayloadsConcat(g, a, b[..n]);
      assert (a + b)[..|a + b| - 1] == a + b[..n];
    }
  }

  function Len(p: Piece): int {
    p.num * UNIT - p.padding
  }

  /** Length of the bytes of the first `i` pieces: where piece `i` begins in the file. */
  function Begin(ps: seq<Piece>, i: nat): int
    requires i <= |ps|
  {
    if i == 0 then 0 else Begin(ps, i - 1) + Len(ps[i - 1])
  }

  lemma {:induction false} BeginStep(ps: seq<Piece>, i: nat)
    requires i < |ps|
    ensures Begin(ps, i + 1) == Begin(ps, i) + Len(ps[i])
  {
  }

  lemma {:induction false} MappedLen(g: Group, p: Piece)
    requires Mapped(g, p)
    ensures 0 < Len(p) == |Payload(g, p)|
  {
  }

  /** The first `i` pieces hold the first `Begin(ps, i)` bytes. */
  lemma {:induction false} PayloadsPrefix(g: Group, ps: seq<Piece>, i: nat)
    requires AllMapped(g, ps) && i <= |ps|
    ensures AllMapped(g, ps[..i]) && |Payloads(g, ps[..i])| == Begin(ps, i)
    ensures i < |ps| ==> AllMapped(g, ps[..i + 1])
    ensures i < |ps| ==> Payloads(g, ps[..i + 1]) == Payloads(g, ps[..i]) + Payload(g, ps[i])
  {
    hide Payload, Mapped;
    if i > 0 {
      PayloadsPrefix(g, ps, i - 1);
      MappedLen(g, ps[i - 1]);
    }
    if i < |ps| {
      assert ps[..i + 1][..i] == ps[..i];
    }
  }

  lemma {:induction false} PayloadsWhole(g: Group, ps: seq<Piece>, i: nat)
    requires AllMapped(g, ps) && i <= |ps|
    ensures AllMapped(g, ps[..i]) && Payloads(g, ps[..i]) <= Payloads(g, ps)
    decreases |ps| - i
  {
    PayloadsPrefix(g, ps, i);
    if i < |ps| {
      PayloadsWhole(g, ps, i + 1);
    } else {
      assert ps[..i] == ps;
    }
  }

  /** Piece `i` holds the bytes of the file from `Begin(ps, i)` to `Begin(ps, i + 1)`. */
  lemma {:induction false} BeginInPayloads(g: Group, ps: seq<Piece>, i: nat)
    requires AllMapped(g, ps) && i < |ps|
    ensures Mapped(g, ps[i]) && 0 <= Begin(ps, i) < Begin(ps, i + 1) <= |Payloads(g, ps)|
    ensures Payloads(g, ps)[Begin(ps, i)..Begin(ps, i + 1)] == Payload(g, ps[i])
  {
    hide Payload, Payloads;
    MappedLen(g, ps[i]);
    PayloadsPrefix(g, ps, i);
    PayloadsWhole(g, ps, i + 1);
  }

  lemma {:induction false} EndOfPayloads(g: Group, ps: seq<Piece>)
    requires AllMapped(g, ps)
    ensures Begin(ps, |ps|) == |Payloads(g, ps)|
  {
    PayloadsPrefix(g, ps, |ps|);
    assert ps[..|ps|] == ps;
  }

  // ----- reading the pieces

  /** `OutOfRange` is the exception of indexing past the last piece; `Untouched` leaves the caller's
      result as it was. */
  datatype ReadResult = Data(bytes: seq<Byte>) | Untouched | IOError | OutOfRange

  /** The piece loops of ReadOffset: a range inside the pieces comes back exactly; a range that runs
      past the last piece indexes out of range; a range that begins past it finds no piece. */
  method ReadPieces(z: Ztl, ps: seq<Piece>, offset: nat, n: nat) returns (r: ReadResult)
    requires z.Valid() && AllMapped(z.State(), ps)
    ensures var bytes := Payloads(z.State(), ps);
      r == if |bytes| <= offset then IOError
           else if offset + n <= |bytes| then Data(bytes[offset..offset + n])
           else OutOfRange
  {
    hide Inv, Payloads, Payload;
    EndOfPayloads(z.State(), ps);
    var i, pieceOff := FindPiece(z, ps, offset);
    if i == |ps| {
      return IOError;
    }
    r := ReadFrom(z, ps, offset, n, i, pieceOff);
  }

  /** The search for the piece that holds byte `offset`. */
  method FindPiece(z: Ztl, ps: seq<Piece>, offset: nat) returns (i: nat, pieceOff: nat)
    requires AllMapped(z.State(), ps)
    ensures i <= |ps| && (i == |ps| ==> Begin(ps, |ps|) <= offset)
    ensures i < |ps| ==> AtPiece(ps, offset, i, pieceOff)
  {
    var off := 0;
    i, pieceOff := 0, 0;
    while i < |ps|
      invariant i <= |ps| && off == Begin(ps, i) <= offset
    {
      var size := ps[i].num * UNIT - ps[i].padding;
      if off + size > offset {
        pieceOff := size - (off + size - offset);
        return;
      }
      off := off + size;
      i := i + 1;
    }
  }

  /** Byte `offset` of the file is byte `pieceOff` of piece `i`. */
  ghost predicate AtPiece(ps: seq<Piece>, offset: nat, i: nat, pieceOff: nat) {
    i < |ps| && Begin(ps, i) + pieceOff == offset && pieceOff < Len(ps[i])
  }

  /** `part` is what piece `i` holds from `pieceOff` to its end, or as much as is wanted, and those are
      the bytes of the file at that position. */
  ghost predicate PartOfFile(g: Group, ps: seq<Piece>, i: nat, pieceOff: nat, left: nat, part: seq<Byte>)
    requires AllMapped(g, ps) && i < |ps|
  {
    |part| == (if Len(ps[i]) - pieceOff > left then left else Len(ps[i]) - pieceOff) &&
    0 <= Begin(ps, i) && Begin(ps, i) + pieceOff + |part| <= |Payloads(g, ps)| &&
    part == Payloads(g, ps)[Begin(ps, i) + pieceOff..Begin(ps, i) + pieceOff + |part|]
  }

  /** The read of one piece. */
  method ReadPart(z: Ztl, ps: seq<Piece>, i: nat, pieceOff: nat, left: nat) returns (part: seq<Byte>)
    requires z.Valid() && AllMapped(z.State(), ps) && i < |ps| && pieceOff < Len(ps[i]) && 0 < left
    ensures PartOfFile(z.State(), ps, i, pieceOff, left, part)
  {
    hide Inv, Payloads, Payload, Begin;
    var size := ps[i].num * UNIT - ps[i].padding;
    size := if size - pieceOff > left then left else size - pieceOff;
    part := z.Read(ps[i].node, ps[i].start * UNIT + pieceOff, size);
    PartOfPiece(z.State(), ps, i, pieceOff, size, part);
  }

  /** The loop that creates one read per piece. */
  method ReadFrom(z: Ztl, ps: seq<Piece>, offset: nat, n: nat, first: nat, firstOff: nat) returns (r: ReadResult)
    requires z.Valid() && AllMapped(z.State(), ps) && AtPiece(ps, offset, first, firstOff)
    ensures var bytes := Payloads(z.State(), ps);
      offset < |bytes| && r == if offset + n <= |bytes| then Data(bytes[offset..offset + n]) else OutOfRange
  {
    hide Inv, Payloads, Payload, Begin, Mapped, Len;
    ghost var bytes := Payloads(z.State(), ps);
    BeginInPayloads(z.State(), ps, first);
    BeginStep(ps, first);
    EndOfPayloads(z.State(), ps);
    var i: nat, pieceOff: nat, left: nat := first, firstOff, n;
    var got: seq<Byte> := [];
    while left > 0
      invariant i <= |ps| && left <= n
      invariant left > 0 ==> Begin(ps, i) + pieceOff == offset + (n - left)
      invariant i < |ps| ==> 0 <= pieceOff < Len(ps[i])
      invariant i == |ps| ==> pieceOff == 0
      invariant offset + (n - left) <= |bytes| && got == bytes[offset..offset + (n - left)]
      decreases left
    {
      if i == |ps| {
        return OutOfRange;
      }
      var part := ReadPart(z, ps, i, pieceOff, left);
      BeginStep(ps, i);
      SliceJoin(bytes, offset, offset + (n - left), offset + (n - left) + |part|);
      got := got + part;
      left := left - |part|;
      pieceOff := 0;
      i := i + 1;
      if i < |ps| {
        MappedLen(z.State(), ps[i]);
      }
    }
    return Data(got);
  }

  lemma {:induction false} PartOfPiece(g: Group, ps: seq<Piece>, i: nat, pieceOff: nat, size: nat, part: seq<Byte>)
    requires AllMapped(g, ps) && i < |ps| && pieceOff + size <= Len(ps[i])
    requires part == g.nodes[ps[i].node].img[ps[i].start * UNIT + pieceOff..ps[i].start * UNIT + pieceOff + size]
    ensures 0 <= Begin(ps, i) && Begin(ps, i) + pieceOff + size <= |Payloads(g, ps)|
    ensures part == Payloads(g, ps)[Begin(ps, i) + pieceOff..Begin(ps, i) + pieceOff + size]
  {
    hide Payloads, Begin;
    BeginInPayloads(g, ps, i);
    BeginStep(ps, i);
    var img, b, len := g.nodes[ps[i].node].img, ps[i].start * UNIT, Len(ps[i]);
    assert Payload(g, ps[i]) == img[b..b + len];
    hide Payload, Mapped, Len;
    assert part == Payload(g, ps[i])[pieceOff..pieceOff + size] by {
      SliceOfSlice(img, b, len, pieceOff, size);
    }
    SliceOfSlice(Payloads(g, ps), Begin(ps, i), len, pieceOff, size);
  }

  // ----- the file

  const WORD: nat := 0x1_0000_0000_0000_0000

  /** How `len` bytes pass through a cache holding `cached` bytes: the number of full buffers that
      are synced on the way, and what stays cached. */
  function FullBuffers(cached: nat, len: nat): nat
    requires cached <= MAX_BUF
    decreases len + cached
  {
    if cached + len <= MAX_BUF then 0 else 1 + FullBuffers(0, len - (MAX_BUF - cached))
  }

  function StaysCached(cached: nat, len: nat): (n: nat)
    requires cached <= MAX_BUF
    ensures n <= MAX_BUF
    decreases len + cached
  {
    if cached + len <= MAX_BUF then cached + len else StaysCached(0, len - (MAX_BUF - cached))
  }

  /** Buffers are 32 MiB and sizes have 64 bits. */
  lemma {:induction false} BufferSize()
    ensures MAX_BUF == 32 * 1024 * 1024 == BUF_UNITS * UNIT && WORD == 0x1_0000_0000 * 0x1_0000_0000
  {
  }

  /** The cache never stays empty behind full buffers: a buffer is synced when the next byte comes, not before. */
  lemma {:induction false} BufferSplit(cached: nat, len: nat)
    requires cached <= MAX_BUF
    ensures cached + len == FullBuffers(cached, len) * 33554432 + StaysCached(cached, len)
    ensures 0 < cached + len ==> 0 < StaysCached(cached, len) <= 33554432
    decreases len + cached
  {
    if cached + len > MAX_BUF {
      BufferSplit(0, len - (MAX_BUF - cached));
    }
  }

  /** Writing out `cached` bytes: nothing is lost exactly when the level has space for them. */
  predicate Synced(content: seq<Byte>, room: nat, cached: nat, content': seq<Byte>, room': nat) {
    var units := AlignUp(cached) / UNIT;
    if units <= room then content' == content && room' == room - units else |content'| < |content| && room' == 0
  }

  class ZnsFile {
    const z: Ztl
    const wcache: array<Byte>
    var pieces: seq<Piece>
    var cacheOff: nat
    var size: nat
    var level: int
    var isOpen: bool

    constructor (z: Ztl)
      requires z.Valid()
      ensures this.z == z && Valid() && fresh(wcache) && isOpen && Content() == [] && size == 0 && pieces == []
    {
      this.z := z;
      wcache := new Byte[MAX_BUF](_ => 0);
      pieces, cacheOff, size, level, isOpen := [], 0, 0, 0, true;
    }

    ghost predicate Valid()
      reads this, z, wcache
    {
      z.Valid() && wcache.Length == MAX_BUF && cacheOff <= MAX_BUF && (!isOpen ==> cacheOff == 0) &&
      AllOwned(z.live, pieces) && AllMapped(z.State(), pieces) && PairwiseApart(pieces)
    }

    /** What the file holds: the payloads of its pieces followed by the cache. */
    ghost function Content(): seq<Byte>
      requires Valid()
      reads this, z, wcache
    {
      Payloads(z.State(), pieces) + wcache[..cacheOff]
    }

    ghost function Room(): nat
      requires Valid()
      reads this, z, wcache
    {
      HeadsInRange(z.State(), ClampLevel(level));
      Space(z.State(), ClampLevel(level))
    }

    /** memcpy to the end of the cache. */
    method Fill(data: seq<Byte>)
      requires Valid() && isOpen && cacheOff + |data| <= MAX_BUF
      modifies this`cacheOff, wcache
      ensures Valid() && Content() == old(Content()) + data && cacheOff == old(cacheOff) + |data|
      ensures Payloads(z.State(), pieces) == old(Payloads(z.State(), pieces)) && Room() == old(Room())
    {
      hide Inv, Payloads;
      forall i | 0 <= i < |data| {
        wcache[cacheOff + i] := data[i];
      }
      cacheOff := cacheOff + |data|;
      assert wcache[..cacheOff] == old(wcache[..cacheOff]) + data;
    }

    /** The part of Sync that writes a non-empty cache. */
    method Flush()
      requires Valid() && isOpen && 0 < cacheOff
      modifies this`pieces, this`cacheOff, z
      ensures Valid() && cacheOff == 0
      ensures Grew(old(z.live), z.live, old(pieces), pieces) && |z.nodes| == |old(z.nodes)|
      ensures Synced(old(Content()), old(Room()), old(cacheOff), Payloads(z.State(), pieces), Room())
    {
      hide Inv, Payloads, Space, Payload, Mapped, AllMapped, AllOwned, PairwiseApart, Grew, Synced, CachePut, CanGet;
      ListsInRange(z.State(), z.live, ClampLevel(level));
      ghost var g, live := z.State(), z.live;
      assert wcache[..AlignUp(cacheOff)][..cacheOff] == wcache[..cacheOff];
      ghost var room := Space(z.State(), ClampLevel(level));
      var added;
      ghost var written;
      added, written := PutCache(z, wcache[..AlignUp(cacheOff)], cacheOff, level);
      CacheWritten(g, live, z.State(), z.live, pieces, added, written, wcache[..cacheOff], room,
                   Space(z.State(), ClampLevel(level)));
      pieces, cacheOff := pieces + added, 0;
    }

    /** Sync: the cache moves to new pieces.  No byte is lost exactly when the level has space. */
    method Sync()
      requires Valid()
      modifies this`pieces, this`cacheOff, z
      ensures Valid() && cacheOff == 0
      ensures Grew(old(z.live), z.live, old(pieces), pieces) && |z.nodes| == |old(z.nodes)|
      ensures Synced(old(Content()), old(Room()), old(cacheOff), Content(), Room())
    {
      hide Inv, Payloads, Space, Payload, Mapped, AllOwned, Grew;
      if !isOpen || cacheOff == 0 {
        GrewSame(z.live, pieces);
        return;
      }
      Flush();
      assert Content() == Payloads(z.State(), pieces);
    }

    /** After `k` syncs of full buffers on the way of appending `done` to content `c0`: nothing is lost
        while the space `room0` lasts. */
    ghost predicate Appended(c0: seq<Byte>, room0: nat, done: seq<Byte>, k: nat)
      requires Valid()
      reads this, z, wcache
    {
      if k * BUF_UNITS <= room0 then Content() == c0 + done && Room() == room0 - k * BUF_UNITS
      else |Content()| < |c0| + |done| && Room() == 0
    }

    /** Fill the cache to the brim and sync it. */
    method Spill(chunk: seq<Byte>, ghost c0: seq<Byte>, ghost room0: nat, ghost done: seq<Byte>, ghost k: nat)
      requires Valid() && isOpen && cacheOff + |chunk| == MAX_BUF && Appended(c0, room0, done, k)
      modifies this`pieces, this`cacheOff, wcache, z
      ensures Valid() && cacheOff == 0 && Appended(c0, room0, done + chunk, k + 1)
      ensures Grew(old(z.live), z.live, old(pieces), pieces) && |z.nodes| == |old(z.nodes)|
    {
      hide Inv, Payloads, Space, Payload, Mapped, AllOwned, Grew;
      Fill(chunk);
      assert AlignUp(cacheOff) / UNIT == BUF_UNITS;
      Sync();
    }

    /** Put the last part of the data into the cache. */
    method FillRest(chunk: seq<Byte>, ghost c0: seq<Byte>, ghost room0: nat, ghost done: seq<Byte>, ghost k: nat)
      requires Valid() && isOpen && cacheOff + |chunk| <= MAX_BUF && Appended(c0, room0, done, k)
      modifies this`cacheOff, wcache
      ensures Valid() && cacheOff == old(cacheOff) + |chunk| && Appended(c0, room0, done + chunk, k)
    {
      hide Inv, Payloads, Space, Payload, Mapped, AllOwned;
      Fill(chunk);
    }

    /** The loop of Append: while more than a buffer is left, a whole buffer is filled and synced. */
    method SpillWhole(data: seq<Byte>, start: nat, ghost c0: seq<Byte>, ghost room0: nat, ghost k0: nat)
        returns (offset: nat, ghost k: nat)
      requires Valid() && isOpen && cacheOff == 0 && start <= |data| && Appended(c0, room0, data[..start], k0)
      modifies this`pieces, this`cacheOff, wcache, z
      ensures Valid() && cacheOff == 0 && start <= offset <= |data| <= offset + MAX_BUF
      ensures Appended(c0, room0, data[..offset], k) && k == k0 + FullBuffers(0, |data| - start)
      ensures |data| - offset == StaysCached(0, |data| - start)
      ensures Grew(old(z.live), z.live, old(pieces), pieces) && |z.nodes| == |old(z.nodes)|
    {
      hide Inv, Payloads, Space, Payload, Mapped, AllOwned, Appended, Grew;
      var n: nat := |data| - start;
      offset, k := start, k0;
      GrewSame(z.live, pieces);
      while n > MAX_BUF
        invariant Valid() && cacheOff == 0 && start <= offset <= |data| == offset + n
        invariant Appended(c0, room0, data[..offset], k)
        invariant k0 + FullBuffers(0, |data| - start) == k + FullBuffers(0, n)
        invariant StaysCached(0, |data| - start) == StaysCached(0, n)
        invariant Grew(old(z.live), z.live, old(pieces), pieces) && |z.nodes| == |old(z.nodes)|
        modifies this`pieces, this`cacheOff, wcache, z
      {
        ghost var live1, pieces1 := z.live, pieces;
        Spill(data[offset..offset + MAX_BUF], c0, room0, data[..offset], k);
        GrewTransitive(old(z.live), live1, z.live, old(pieces), pieces1, pieces);
        SliceJoin(data, 0, offset, offset + MAX_BUF);
        offset, n, k := offset + MAX_BUF, n - MAX_BUF, k + 1;
      }
    }

    /** Append: the content grows by the data, exactly when the level has space for the full buffers
        that are synced on the way. */
    method Append(data: seq<Byte>) returns (ok: bool)
      requires Valid()
      modifies this`pieces, this`cacheOff, this`size, wcache, z
      ensures Valid() && ok == isOpen
      ensures Grew(old(z.live), z.live, old(pieces), pieces) && |z.nodes| == |old(z.nodes)|
      ensures !ok ==> Content() == old(Content()) && size == old(size)
      ensures ok ==> size == old(size) + |data| && cacheOff == StaysCached(old(cacheOff), |data|)
      ensures ok ==> Appended(old(Content()), old(Room()), data, FullBuffers(old(cacheOff), |data|))
    {
      hide Inv, Payloads, Space, Payload, Mapped, AllOwned, Grew;
      GrewSame(z.live, pieces);
      if !isOpen {
        return false;
      }
      ghost var c0, room0, k := Content(), Room(), 0;
      assert Appended(c0, room0, [], 0);
      hide Appended;
      var offset: nat := 0;
      if cacheOff + |data| > MAX_BUF {
        offset := MAX_BUF - cacheOff;
        assert [] + data[..offset] == data[..offset];
        Spill(data[..offset], c0, room0, [], 0);
        ghost var live1, pieces1 := z.live, pieces;
        offset, k := SpillWhole(data, offset, c0, room0, 1);
        GrewTransitive(old(z.live), live1, z.live, old(pieces), pieces1, pieces);
      }
      assert data[..offset] + data[offset..] == data;
      FillRest(data[offset..], c0, room0, data[..offset], k);
      size := size + |data|;
      return true;
    }

    /** Truncate: takes effect exactly when the bytes to drop, counted in 64 bits, are all cached.  A
        length just below 2^64 wraps: it too drops cached bytes. */
    method Truncate(len: nat)
      requires Valid() && len < WORD && size < WORD && cacheOff <= size
      modifies this`cacheOff, this`size
      ensures Valid()
      ensures var drop := (old(size) - len) % WORD;
        if drop <= old(cacheOff) then
          |old(Content())| >= drop && Content() == old(Content())[..|old(Content())| - drop] && size == len &&
          cacheOff == old(cacheOff) - drop
        else Content() == old(Content()) && size == old(size) && cacheOff == old(cacheOff)
      ensures (old(size) - len) % WORD <= old(cacheOff) <==>
        (len <= old(size) <= len + old(cacheOff)) || old(size) + WORD <= len + old(cacheOff)
    {
      hide Inv, Payloads;
      var drop := (size - len) % WORD;
      if cacheOff < drop {
        return;
      }
      cacheOff := cacheOff - drop;
      size := len;
      assert wcache[..cacheOff] == old(wcache[..cacheOff])[..cacheOff];
    }

    /** Close. */
    method Close()
      requires Valid()
      modifies this`pieces, this`cacheOff, this`isOpen, z
      ensures Valid() && !isOpen && cacheOff == 0
      ensures Grew(old(z.live), z.live, old(pieces), pieces) && |z.nodes| == |old(z.nodes)|
      ensures if AlignUp(old(cacheOff)) / UNIT <= old(Room()) then Content() == old(Content())
              else |Content()| < old(|Content()|)
    {
      hide Inv, Payloads, Space, Grew;
      Sync();
      isOpen := false;
    }

    /** ZNSRandomAccessFile::Read, for files of every kind: open or closed, migrated, or short of bytes. */
    method Read(offset: nat, n: nat) returns (r: ReadResult)
      requires Valid() && cacheOff <= size
      ensures r == ReadOutcome(Content(), size, cacheOff, offset, n)
    {
      hide Inv, Payloads, Payload, Mapped, ReadOutcome, AllOwned, PairwiseApart;
      OutcomeOfParts(Payloads(z.State(), pieces), wcache[..cacheOff], size, offset, n);
      if offset >= size {
        return Untouched;
      }
      var len := if offset + n > size then size - offset else n;
      var pos := size - cacheOff;
      if offset >= pos {
        return Data(wcache[..cacheOff][offset - pos..offset - pos + len]);
      }
      r := ReadPieces(z, pieces, offset, len);
    }
  }

  /** What a read of a file sees.  The last `cached` bytes of the content are in memory and are taken to be
      the last `cached` bytes of the `size` bytes of the file; the rest is looked for in the pieces. */
  ghost function ReadOutcome(content: seq<Byte>, size: nat, cached: nat, offset: nat, n: nat): ReadResult
    requires cached <= size && cached <= |content|
  {
    var held := |content| - cached;
    var len := if offset + n > size then size - offset else n;
    if offset >= size then Untouched
    else if size - cached <= offset then
      var i := held + (offset - (size - cached));
      Data(content[i..i + len])
    else if held <= offset then IOError
    else if offset + len <= held then Data(content[offset..offset + len])
    else OutOfRange
  }

  lemma {:induction false} OutcomeOfParts(held: seq<Byte>, cache: seq<Byte>, size: nat, offset: nat, n: nat)
    requires |cache| <= size
    ensures var len, pos := if offset + n > size then size - offset else n, size - |cache|;
      ReadOutcome(held + cache, size, |cache|, offset, n) ==
        if offset >= size then Untouched
        else if pos <= offset then Data(cache[offset - pos..offset - pos + len])
        else if |held| <= offset then IOError
        else if offset + len <= |held| then Data(held[offset..offset + len])
        else OutOfRange
  {
    var len, pos := if offset + n > size then size - offset else n, size - |cache|;
    if offset < size && pos <= offset {
      var i := offset - pos;
      assert (held + cache)[|held| + i..|held| + i + len] == cache[i..i + len];
    } else if offset < size && offset + len <= |held| {
      assert (held + cache)[offset..offset + len] == held[offset..offset + len];
    }
  }

  /** A file that lost nothing: the clipped slice comes back exactly when the range does not begin in the
      pieces and end in the cache; such a range indexes past the last piece. */
  lemma {:induction false} ReadWhole(content: seq<Byte>, cached: nat, offset: nat, n: nat)
    requires cached <= |content|
    ensures var size := |content|;
      var len, pos := if offset + n > size then size - offset else n, size - cached;
      ReadOutcome(content, size, cached, offset, n) ==
        if offset >= size then Untouched
        else if offset < pos < offset + len then OutOfRange
        else Data(content[offset..offset + len])
  {
  }

  /** A closed file, migrated or not: the clipped slice of the first `size` bytes exactly when they are all
      there. */
  lemma {:induction false} ReadClosed(content: seq<Byte>, size: nat, offset: nat, n: nat)
    ensures size <= |content| ==>
      ReadOutcome(content, size, 0, offset, n)
        == if offset >= size then Untouched else Data(content[offset..if offset + n > size then size else offset + n])
    ensures size > |content| && |content| <= offset < size ==> ReadOutcome(content, size, 0, offset, n) == IOError
    ensures offset < |content| < size && offset + n > |content| ==>
      ReadOutcome(content, size, 0, offset, n) == OutOfRange
  {
  }

  /** New pieces join the list without disturbing the bytes of the old ones. */
  lemma {:induction false} SyncKeeps(g: Group, live: seq<Live>, g': Group, live': seq<Live>, ps: seq<Piece>,
                  pieces: seq<Piece>, written: seq<Live>)
    requires Inv(g, live) && Inv(g', live') && live' == live + written && AllOwned(live, ps)
    requires AllMapped(g', pieces) && |pieces| == |written|
    requires forall i :: 0 <= i < |pieces| ==> Matches(written[i], pieces[i])
    requires PairwiseApart(ps)
    ensures AllMapped(g, ps) && AllMapped(g', ps + pieces) && AllOwned(live', ps + pieces)
    ensures PairwiseApart(ps + pieces)
    ensures Payloads(g', ps + pieces) == Payloads(g, ps) + Payloads(g', pieces)
    ensures Grew(live, live', ps, ps + pieces)
  {
    hide Inv, Payloads;
    forall n ensures LiveUnits(live', n) + UnitsIn(ps, n) == LiveUnits(live, n) + UnitsIn(ps + pieces, n) {
      LiveUnitsConcat(live, written, n);
      WrittenUnits(written, pieces, n);
      UnitsConcat(ps, pieces, n);
    }
    hide LiveUnits, UnitsIn;
    forall x | 0 <= x < |ps + pieces| ensures NovelPiece(live, live', ps, (ps + pieces)[x]) {
      if x >= |ps| {
        WrittenIsNew(g', live, written, x - |ps|);
        assert written[x - |ps|] in live';
      }
    }
    PrefixKept(live, live', ps);
    KeptPayloads(g, live, g', live', ps);
    PayloadsConcat(g', ps, pieces);
    forall i | 0 <= i < |ps + pieces| ensures Owned(live', (ps + pieces)[i]) {
      if i < |ps| {
        assert Owned(live', ps[i]);
      } else {
        assert written[i - |ps|] in live';
      }
    }
    NewPlaces(g', live', live, ps, pieces, written);
  }

  /** What zrocks_write made of a cache. */
  ghost predicate CachePut(live: seq<Live>, g': Group, live': seq<Live>, added: seq<Piece>, written: seq<Live>,
                           cache: seq<Byte>, room: nat, room': nat) {
    live' == live + written && AllMapped(g', added) && |added| == |written| &&
    (forall i :: 0 <= i < |added| ==>
      added[i] == Entry(written[i], if i < |added| - 1 then 0 else AlignUp(|cache|) - |cache|)) &&
    (if AlignUp(|cache|) / UNIT <= room then Payloads(g', added) == cache else |Payloads(g', added)| < |cache|) &&
    room' == Drained(room, AlignUp(|cache|) / UNIT)
  }

  method PutCache(z: Ztl, buf: seq<Byte>, size: nat, level: int) returns (added: seq<Piece>, ghost written: seq<Live>)
    requires z.Valid() && 0 < size <= MAX_BUF && |buf| == AlignUp(size) && CanGet(z.State(), ClampLevel(level))
    modifies z
    ensures z.Valid() && CanGet(z.State(), ClampLevel(level)) && |z.nodes| == |old(z.nodes)|
    ensures CachePut(old(z.live), z.State(), z.live, added, written, buf[..size],
                     old(Space(z.State(), ClampLevel(level))), Space(z.State(), ClampLevel(level)))
  {
    hide Inv, Payloads, Space, Payload, Mapped, CanGet;
    added, written := z.Write(buf, size, level);
  }

  /** The written cache joins the pieces: what Sync makes of the file. */
  lemma {:induction false} CacheWritten(g: Group, live: seq<Live>, g': Group, live': seq<Live>, ps: seq<Piece>,
                                        added: seq<Piece>, written: seq<Live>, cache: seq<Byte>, room: nat, room': nat)
    requires Inv(g, live) && Inv(g', live') && AllOwned(live, ps) && PairwiseApart(ps)
    requires CachePut(live, g', live', added, written, cache, room, room')
    ensures AllMapped(g, ps) && AllMapped(g', ps + added) && AllOwned(live', ps + added) && PairwiseApart(ps + added)
    ensures Grew(live, live', ps, ps + added)
    ensures Synced(Payloads(g, ps) + cache, room, |cache|, Payloads(g', ps + added), room')
  {
    hide Inv, Payloads, AllMapped, AllOwned, PairwiseApart, Grew;
    SyncKeeps(g, live, g', live', ps, added, written);
  }

  /** Freshly written pieces share their place with no older one. */
  lemma {:induction false} NewPlaces(g: Group, live': seq<Live>, live: seq<Live>, ps: seq<Piece>, pieces: seq<Piece>,
                                     written: seq<Live>)
    requires Inv(g, live') && live' == live + written && AllOwned(live, ps) && PairwiseApart(ps)
    requires |pieces| == |written| && forall i :: 0 <= i < |pieces| ==> Matches(written[i], pieces[i])
    ensures PairwiseApart(ps + pieces)
  {
    hide Inv;
    var all := ps + pieces;
    forall i, j | 0 <= i < j < |all| ensures !SamePlace(all[i], all[j]) {
      if j >= |ps| && SamePlace(all[i], all[j]) {
        var y := |live| + (j - |ps|);
        if i < |ps| {
          assert Owned(live, ps[i]);
          var q :| q in live && Matches(q, ps[i]);
          var x :| 0 <= x < |live| && live[x] == q;
          LivePlace(g, live', x, y);
        } else {
          LivePlace(g, live', |live| + (i - |ps|), y);
        }
      }
    }
  }

  /** ZNSSequentialFile: a reading position on a file. */
  class SequentialFile {
    const file: ZnsFile
    var readOff: nat

    constructor (file: ZnsFile)
      ensures this.file == file && readOff == 0
    {
      this.file := file;
      readOff := 0;
    }

    /** ZNSSequentialFile::Read: the next clipped slice; the position moves by what was read. */
    method Read(n: nat) returns (r: ReadResult)
      requires file.Valid() && file.cacheOff <= file.size
      modifies this
      ensures r == ReadOutcome(file.Content(), file.size, file.cacheOff, old(readOff), n)
      ensures readOff == old(readOff) + (if r.Data? then |r.bytes| else 0)
    {
      r := file.Read(readOff, n);
      if r.Data? {
        readOff := readOff + |r.bytes|;
      }
    }
  }

  // ----- whole runs

  datatype FileOp = Appending(data: seq<Byte>) | Syncing | Truncating(len: nat)

  /** The file as a byte sequence of which the last `cached` bytes are in memory, and the level's space. */
  datatype Abstract = Abstract(content: seq<Byte>, cached: nat, room: nat)

  ghost predicate Feasible(a: Abstract, op: FileOp) {
    a.cached <= MAX_BUF &&
    match op
    case Appending(data) => FullBuffers(a.cached, |data|) * BUF_UNITS <= a.room
    case Syncing => AlignUp(a.cached) / UNIT <= a.room
    case Truncating(len) => |a.content| < WORD && len <= WORD - MAX_BUF
  }

  ghost function Apply(a: Abstract, op: FileOp): (a': Abstract)
    requires Feasible(a, op)
    ensures a'.cached <= MAX_BUF
  {
    match op
    case Appending(data) =>
      Abstract(a.content + data, StaysCached(a.cached, |data|), a.room - FullBuffers(a.cached, |data|) * BUF_UNITS)
    case Syncing => Abstract(a.content, 0, a.room - AlignUp(a.cached) / UNIT)
    case Truncating(len) =>
      if len <= |a.content| <= len + a.cached
      then Abstract(a.content[..len], a.cached - (|a.content| - len), a.room) else a
  }

  ghost predicate AllFeasible(a: Abstract, ops: seq<FileOp>)
    decreases |ops|
  {
    ops == [] || (Feasible(a, ops[0]) && AllFeasible(Apply(a, ops[0]), ops[1..]))
  }

  ghost function ApplyAll(a: Abstract, ops: seq<FileOp>): Abstract
    requires AllFeasible(a, ops)
    decreases |ops|
  {
    if ops == [] then a else ApplyAll(Apply(a, ops[0]), ops[1..])
  }

  /** The file refines the byte sequence. */
  ghost predicate Refines(f: ZnsFile, a: Abstract)
    reads f, f.z, f.wcache
  {
    f.Valid() && f.isOpen && f.size == |f.Content()| && a == Abstract(f.Content(), f.cacheOff, f.Room())
  }

  method RunOne(f: ZnsFile, op: FileOp, ghost a: Abstract)
    requires Refines(f, a) && Feasible(a, op)
    modifies f, f.wcache, f.z
    ensures Refines(f, Apply(a, op))
  {
    hide Inv, Payloads, Space, Payload, Mapped, AllOwned;
    match op {
      case Appending(data) => var _ := f.Append(data);
      case Syncing => f.Sync();
      case Truncating(len) => f.Truncate(len);
    }
  }

  /** Under any run of Append, Sync and Truncate the pieces without padding, followed by the cache,
      are the content of the byte sequence, and the cache never exceeds its size. */
  method Run(f: ZnsFile, ops: seq<FileOp>, ghost a: Abstract)
    requires Refines(f, a) && AllFeasible(a, ops)
    modifies f, f.wcache, f.z
    ensures Refines(f, ApplyAll(a, ops))
    decreases |ops|
  {
    if ops != [] {
      RunOne(f, ops[0], a);
      Run(f, ops[1..], Apply(a, ops[0]));
    }
  }

  /** After any run and Close, reading any range returns exactly the clipped slice of the content. */
  method RunCloseRead(f: ZnsFile, ops: seq<FileOp>, offset: nat, n: nat, ghost a: Abstract) returns (r: ReadResult)
    requires Refines(f, a) && AllFeasible(a, ops) && Feasible(ApplyAll(a, ops), Syncing)
    modifies f, f.wcache, f.z
    ensures var c := ApplyAll(a, ops).content;
      r == if offset >= |c| then Untouched else Data(c[offset..if offset + n > |c| then |c| else offset + n])
  {
    hide Inv, Payloads, Space, Payload, Mapped, AllOwned;
    Run(f, ops, a);
    f.Close();
    r := f.Read(offset, n);
    ReadClosed(f.Content(), f.size, offset, n);
  }
}
