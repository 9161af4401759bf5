/** Migration of a file's pieces out of a victim node. */
module Gc {
  import opened Layout
  import opened NodeGroup
  import opened Zrocks
  import opened FileLayer
  import Tailq

  /** The pieces of a file with the padding of those in the victim node counted as data: migration
      copies whole units. */
  ghost function Unpad(ps: seq<Piece>, nid: nat): (r: seq<Piece>)
    ensures |r| == |ps|
    ensures forall i :: 0 <= i < |ps| ==> r[i] == if ps[i].node == nid then ps[i].(padding := 0) else ps[i]
  {
    if ps == [] then []
    else
      var p := ps[|ps| - 1];
      Unpad(ps[..|ps| - 1], nid) + [if p.node == nid then p.(padding := 0) else p]
  }

  /** Whole pieces hold all their bytes. */
  lemma {:induction false} UnitsOfPayloads(g: Group, ps: seq<Piece>)
    requires AllMapped(g, ps) && forall i :: 0 <= i < |ps| ==> ps[i].padding == 0
    ensures |Payloads(g, ps)| == TotalUnits(ps) * UNIT
  {
    if ps != [] {
      UnitsOfPayloads(g, ps[..|ps| - 1]);
    }
  }

  // ----- what migration does to the bytes of the file

  /** Piece `i` begins later by the padding of the victim pieces before it: its offset in the file is
      kept exactly when none of them is padded. */
  lemma {:induction false} OffsetKeptIff(ps: seq<Piece>, nid: nat, i: nat)
    requires i <= |ps|
    ensures Begin(Unpad(ps, nid), i) >= Begin(ps, i)
    ensures Begin(Unpad(ps, nid), i) == Begin(ps, i) <==>
      forall k :: 0 <= k < i && ps[k].node == nid ==> ps[k].padding == 0
  {
    if i > 0 {
      OffsetKeptIff(ps, nid, i - 1);
    }
  }

  /** Only the last piece of the file may be padded, if it is to be migrated. */
  predicate PaddedLast(ps: seq<Piece>, nid: nat) {
    forall k :: 0 <= k < |ps| - 1 && ps[k].node == nid ==> ps[k].padding == 0
  }

  /** Then the bytes of the file are a prefix of the migrated bytes. */
  lemma {:induction false} PrefixPreserved(g: Group, ps: seq<Piece>, nid: nat)
    requires AllMapped(g, ps) && AllMapped(g, Unpad(ps, nid)) && PaddedLast(ps, nid)
    ensures Payloads(g, ps) <= Payloads(g, Unpad(ps, nid))
  {
    if ps != [] {
      var n := |ps| - 1;
      assert Unpad(ps, nid)[..n] == ps[..n];
      var p, u := ps[n], Unpad(ps, nid)[n];
      assert Mapped(g, p) && Mapped(g, u);
      var img, b := g.nodes[p.node].img, p.start * UNIT;
      SliceOfSlice(img, b, p.num * UNIT, 0, Len(p));
      assert Payload(g, p) <= Payload(g, u);
    }
  }

  /** The failing input: a padded victim piece before the last.  The first byte of the next piece is found
      where it was only before the migration; after it the first padding byte is there. */
  lemma {:induction false} PaddingShifts(g: Group, ps: seq<Piece>, nid: nat, i: nat)
    requires AllMapped(g, ps) && AllMapped(g, Unpad(ps, nid)) && i + 1 < |ps|
    requires ps[i].node == nid && ps[i].padding > 0
    requires forall k :: 0 <= k < i && ps[k].node == nid ==> ps[k].padding == 0
    ensures var at, before, after := Begin(ps, i + 1), Payloads(g, ps), Payloads(g, Unpad(ps, nid));
      0 <= at < |before| && at < |after| && 0 < Len(ps[i + 1]) && 0 < Len(ps[i]) &&
      before[at] == Payload(g, ps[i + 1])[0] && after[at] == Payload(g, ps[i].(padding := 0))[Len(ps[i])]
  {
    hide Payloads, Payload, Begin, Mapped;
    var us := Unpad(ps, nid);
    assert us[i] == ps[i].(padding := 0) && Mapped(g, ps[i]) && Mapped(g, ps[i + 1]);
    MappedLen(g, ps[i]);
    MappedLen(g, ps[i + 1]);
    OffsetKeptIff(ps, nid, i);
    BeginStep(ps, i);
    BeginStep(us, i);
    ByteOfPiece(g, ps, i + 1, 0);
    ByteOfPiece(g, us, i, Len(ps[i]));
  }

  /** Byte `x` of piece `i`, found in the file. */
  lemma {:induction false} ByteOfPiece(g: Group, ps: seq<Piece>, i: nat, x: nat)
    requires AllMapped(g, ps) && i < |ps| && x < Len(ps[i])
    ensures 0 <= Begin(ps, i) && Begin(ps, i) + x < |Payloads(g, ps)| && x < |Payload(g, ps[i])|
    ensures Payloads(g, ps)[Begin(ps, i) + x] == Payload(g, ps[i])[x]
  {
    hide Payloads, Payload;
    BeginInPayloads(g, ps, i);
    BeginStep(ps, i);
    MappedLen(g, ps[i]);
    hide Begin;
    assert Payloads(g, ps)[Begin(ps, i) + x] == Payloads(g, ps)[Begin(ps, i)..Begin(ps, i + 1)][x];
  }

  // ----- one piece

  /** What a successful write of whole units does to the group. */
  ghost predicate Wrote(g: Group, live: seq<Live>, g': Group, live': seq<Live>, data: seq<Byte>,
                        added: seq<Piece>, written: seq<Live>) {
    Inv(g, live) && Inv(g', live') && live' == live + written && |added| == |written| && |g'.nodes| == |g.nodes| &&
    (forall i :: 0 <= i < |added| ==> added[i] == Entry(written[i], 0) && added[i].node !in g.full) &&
    Grown(g.full, g'.full) && AllMapped(g', added) && Payloads(g', added) == data
  }

  /** Copy a piece, padding included, to the node of the file's level. */
  method CopyOne(z: Ztl, level: int, p: Piece) returns (added: seq<Piece>, ghost written: seq<Live>)
    requires z.Valid() && Mapped(z.State(), p) && p.num <= BUF_UNITS
    requires CanGet(z.State(), ClampLevel(level)) && p.num <= Space(z.State(), ClampLevel(level))
    modifies z
    ensures Wrote(old(z.State()), old(z.live), z.State(), z.live,
                  Payload(old(z.State()), p.(padding := 0)), added, written)
    ensures z.Valid() && CanGet(z.State(), ClampLevel(level))
    ensures Space(z.State(), ClampLevel(level)) == old(Space(z.State(), ClampLevel(level))) - p.num
  {
    hide Inv, Payloads, Space;
    var off, msize := p.start * UNIT, p.num * UNIT;
    var buf := z.Read(p.node, off, msize);
    assert buf[..msize] == buf;
    added, written := z.Write(buf, msize, level);
  }

  // ----- the loop

  /** The first `i` pieces of `ps` were copied where they are in the victim node; `out` lists what they
      are now. */
  ghost predicate Migrating(g0: Group, g: Group, live: seq<Live>, ps: seq<Piece>, nid: nat, i: nat, out: seq<Piece>) {
    i <= |ps| && Inv(g, live) && nid in g.full && |g.nodes| == |g0.nodes| &&
    AllOwned(live, ps) && AllOwned(live, out) && PairwiseApart(out + ps[i..]) &&
    AllMapped(g, out) && AllMapped(g, Unpad(ps[..i], nid)) && Payloads(g, out) == Payloads(g, Unpad(ps[..i], nid)) &&
    (forall k :: 0 <= k < |out| ==> out[k].node != nid) && TotalUnits(out) == TotalUnits(ps[..i]) &&
    (forall n :: 0 <= n < |g.nodes| ==> ValidMoved(g0, g, ps[..i], out, nid, n))
  }

  /** The count of a node other than the victim grew by what the copied pieces gained there. */
  ghost predicate ValidMoved(g0: Group, g: Group, ps: seq<Piece>, out: seq<Piece>, nid: nat, n: nat)
    requires n < |g.nodes| == |g0.nodes|
  {
    if n == nid then g.nodes[n].valid == g0.nodes[n].valid
    else g.nodes[n].valid + UnitsIn(ps, n) == g0.nodes[n].valid + UnitsIn(out, n)
  }

  lemma {:induction false} MigratingStart(g: Group, live: seq<Live>, ps: seq<Piece>, nid: nat)
    requires Inv(g, live) && nid in g.full && AllOwned(live, ps) && PairwiseApart(ps)
    ensures Migrating(g, g, live, ps, nid, 0, [])
  {
    assert [] + ps[0..] == ps;
  }

  lemma {:induction false} TakeOneMore(ps: seq<Piece>, nid: nat, i: nat)
    requires i < |ps|
    ensures ps[..i + 1] == ps[..i] + [ps[i]]
    ensures Unpad(ps[..i + 1], nid) == Unpad(ps[..i], nid) + [Unpad([ps[i]], nid)[0]]
    ensures forall n :: UnitsIn(ps[..i + 1], n) == UnitsIn(ps[..i], n) + (if ps[i].node == n then ps[i].num else 0)
    ensures TotalUnits(ps[..i + 1]) == TotalUnits(ps[..i]) + ps[i].num
  {
    assert ps[..i + 1][..i] == ps[..i];
  }

  lemma {:induction false} SingleUnits(p: Piece)
    ensures forall n :: UnitsIn([p], n) == if p.node == n then p.num else 0
    ensures TotalUnits([p]) == p.num
  {
    assert [p][..0] == [];
  }

  lemma {:induction false} MigratingSkip(g0: Group, g: Group, live: seq<Live>, ps: seq<Piece>, nid: nat, i: nat,
                                         out: seq<Piece>)
    requires Migrating(g0, g, live, ps, nid, i, out) && i < |ps| && ps[i].node != nid
    ensures Migrating(g0, g, live, ps, nid, i + 1, out + [ps[i]])
  {
    hide Inv, Payload, Payloads, Mapped, PairwiseApart, UnitsIn, TotalUnits, Unpad;
    TakeOneMore(ps, nid, i);
    SingleUnits(ps[i]);
    var done, out' := ps[..i + 1], out + [ps[i]];
    assert out + ps[i..] == out' + ps[i + 1..];
    assert Owned(live, ps[i]);
    OwnedMapped(g, live, [ps[i]]);
    PayloadsConcat(g, out, [ps[i]]);
    PayloadsConcat(g, Unpad(ps[..i], nid), [ps[i]]);
    forall n | 0 <= n < |g.nodes| ensures ValidMoved(g0, g, done, out', nid, n) {
      assert ValidMoved(g0, g, ps[..i], out, nid, n);
      UnitsConcat(out, [ps[i]], n);
    }
    UnitsConcat(out, [ps[i]], 0);
  }

  /** Owned pieces stay owned when their padding is ignored. */
  lemma {:induction false} UnpadOwned(live: seq<Live>, ps: seq<Piece>, nid: nat)
    requires AllOwned(live, ps)
    ensures AllOwned(live, Unpad(ps, nid))
  {
    forall i | 0 <= i < |ps| ensures Owned(live, Unpad(ps, nid)[i]) {
      assert Owned(live, ps[i]);
      var q :| q in live && Matches(q, ps[i]);
      assert Matches(q, Unpad(ps, nid)[i]);
    }
  }

  lemma {:induction false} CopyPlaces(out: seq<Piece>, p: Piece, rest: seq<Piece>, added: seq<Piece>)
    requires PairwiseApart((out + [p] + rest) + added)
    ensures PairwiseApart((out + added) + rest)
  {
    var all, now := (out + [p] + rest) + added, (out + added) + rest;
    var a, b, c := |out|, |added|, |rest|;
    forall i, j | 0 <= i < j < |now| ensures !SamePlace(now[i], now[j]) {
      var x := if i < a then i else if i < a + b then a + 1 + c + (i - a) else a + 1 + (i - a - b);
      var y := if j < a then j else if j < a + b then a + 1 + c + (j - a) else a + 1 + (j - a - b);
      assert now[i] == all[x] && now[j] == all[y] && x != y;
      assert if x < y then !SamePlace(all[x], all[y]) else !SamePlace(all[y], all[x]);
    }
  }

  lemma {:induction false} AddedUnits(g: Group, live: seq<Live>, g': Group, live': seq<Live>, added: seq<Piece>,
                                      written: seq<Live>, n: nat)
    requires Inv(g, live) && Inv(g', live') && live' == live + written && |added| == |written|
    requires n < |g.nodes| == |g'.nodes| && forall i :: 0 <= i < |added| ==> added[i] == Entry(written[i], 0)
    ensures g'.nodes[n].valid == g.nodes[n].valid + UnitsIn(added, n)
  {
    LiveUnitsConcat(live, written, n);
    forall i | 0 <= i < |added| ensures Matches(written[i], added[i]) {
    }
    WrittenUnits(written, added, n);
  }

  lemma {:induction false} MigratingCopyBytes(g: Group, live: seq<Live>, g': Group, live': seq<Live>, ps: seq<Piece>,
                                              nid: nat, i: nat, out: seq<Piece>, added: seq<Piece>,
                                              written: seq<Live>)
    requires i < |ps| && ps[i].node == nid && Mapped(g, ps[i])
    requires Wrote(g, live, g', live', Payload(g, ps[i].(padding := 0)), added, written)
    requires AllOwned(live, ps) && AllOwned(live, out)
    requires AllMapped(g, out) && AllMapped(g, Unpad(ps[..i], nid))
    requires Payloads(g, out) == Payloads(g, Unpad(ps[..i], nid))
    ensures AllMapped(g', out + added) && AllMapped(g', Unpad(ps[..i + 1], nid))
    ensures Payloads(g', out + added) == Payloads(g', Unpad(ps[..i + 1], nid))
    ensures TotalUnits(added) == ps[i].num
  {
    hide Inv, Mapped;
    var u := [ps[i].(padding := 0)];
    TakeOneMore(ps, nid, i);
    PrefixKept(live, live', out);
    KeptPayloads(g, live, g', live', out);
    UnpadOwned(live, ps, nid);
    forall k | 0 <= k < i ensures Owned(live, Unpad(ps[..i], nid)[k]) {
      assert Owned(live, Unpad(ps, nid)[k]);
    }
    PrefixKept(live, live', Unpad(ps[..i], nid));
    KeptPayloads(g, live, g', live', Unpad(ps[..i], nid));
    assert Owned(live, Unpad(ps, nid)[i]);
    PrefixKept(live, live', u);
    KeptPayloads(g, live, g', live', u);
    PayloadsConcat(g', out, added);
    PayloadsConcat(g', Unpad(ps[..i], nid), u);
    assert Payloads(g, u) == Payload(g, u[0]);
    UnitsOfPayloads(g', added);
  }

  lemma {:induction false} MigratingCopy(g0: Group, g: Group, live: seq<Live>, g': Group, live': seq<Live>,
                                         ps: seq<Piece>, nid: nat, i: nat, out: seq<Piece>, added: seq<Piece>,
                                         written: seq<Live>)
    requires Migrating(g0, g, live, ps, nid, i, out) && i < |ps| && ps[i].node == nid && Mapped(g, ps[i])
    requires Wrote(g, live, g', live', Payload(g, ps[i].(padding := 0)), added, written)
    ensures Migrating(g0, g', live', ps, nid, i + 1, out + added)
  {
    hide Inv, Payloads, Payload, Mapped;
    MigratingCopyBytes(g, live, g', live', ps, nid, i, out, added, written);
    TakeOneMore(ps, nid, i);
    PrefixKept(live, live', ps);
    PrefixKept(live, live', out);
    forall k | 0 <= k < |out + added| ensures Owned(live', (out + added)[k]) {
      if k < |out| {
        assert Owned(live', out[k]);
      } else {
        assert written[k - |out|] in live' && Matches(written[k - |out|], added[k - |out|]);
      }
    }
    var rest := ps[i + 1..];
    assert out + [ps[i]] + rest == out + ps[i..];
    forall k | 0 <= k < |out + ps[i..]| ensures Owned(live, (out + ps[i..])[k]) {
      assert k < |out| ==> Owned(live, out[k]);
      assert k >= |out| ==> Owned(live, ps[i + (k - |out|)]);
    }
    NewPlaces(g', live', live, out + ps[i..], added, written);
    CopyPlaces(out, ps[i], rest, added);
    var done, out' := ps[..i + 1], out + added;
    forall n | 0 <= n < |g'.nodes| ensures ValidMoved(g0, g', done, out', nid, n) {
      assert ValidMoved(g0, g, ps[..i], out, nid, n);
      AddedUnits(g, live, g', live', added, written, n);
      UnitsConcat(out, added, n);
      if n == nid {
        NoUnits(added, nid);
      }
    }
    UnitsConcat(out, added, 0);
  }

  lemma {:induction false} NoUnits(ps: seq<Piece>, n: nat)
    requires forall i :: 0 <= i < |ps| ==> ps[i].node != n
    ensures UnitsIn(ps, n) == 0
  {
    if ps != [] {
      NoUnits(ps[..|ps| - 1], n);
    }
  }

  lemma {:induction false} UnitsPrefix(ps: seq<Piece>, n: nat, i: nat)
    requires i < |ps|
    ensures UnitsIn(ps[..i], n) + (if ps[i].node == n then ps[i].num else 0) <= UnitsIn(ps, n)
  {
    if i == |ps| - 1 {
    } else {
      UnitsPrefix(ps[..|ps| - 1], n, i);
      assert ps[..|ps| - 1][..i] == ps[..i];
    }
  }

  lemma {:induction false} MigratingMapped(g0: Group, g: Group, live: seq<Live>, ps: seq<Piece>, nid: nat, i: nat,
                                           out: seq<Piece>)
    requires Migrating(g0, g, live, ps, nid, i, out) && i < |ps|
    ensures Mapped(g, ps[i]) && ps[i].num <= BUF_UNITS
  {
    OwnedMapped(g, live, ps);
    assert Owned(live, ps[i]);
    var q :| q in live && Matches(q, ps[i]);
    InvLive(g, live, q);
  }

  /** The copying loop of MigrateNodeFile. */
  method CopyVictims(f: ZnsFile, nid: nat) returns (out: seq<Piece>)
    requires f.Valid() && nid in f.z.full && UnitsIn(f.pieces, nid) <= f.Room()
    modifies f.z
    ensures Migrating(old(f.z.State()), f.z.State(), f.z.live, f.pieces, nid, |f.pieces|, out)
    ensures f.z.Valid() && old(f.z.live) <= f.z.live && Novel(old(f.z.live), f.z.live, f.pieces, out)
  {
    var z, ps, l := f.z, f.pieces, ClampLevel(f.level);
    hide Payloads, Payload, Space, Inv, Migrating, Mapped, NovelPiece, CanGet, Tailq.LinkedTo;
    ghost var g0, room := z.State(), f.Room();
    ListsInRange(z.State(), z.live, l);
    MigratingStart(z.State(), z.live, ps, nid);
    out := [];
    var i := 0;
    while i < |ps|
      invariant 0 <= i <= |ps| && z.Valid() && CanGet(z.State(), l)
      invariant Migrating(g0, z.State(), z.live, ps, nid, i, out)
      invariant Space(z.State(), l) == room - UnitsIn(ps[..i], nid) && old(z.live) <= z.live
      invariant Novel(old(z.live), z.live, ps, out)
    {
      TakeOneMore(ps, nid, i);
      if ps[i].node != nid {
        MigratingSkip(g0, z.State(), z.live, ps, nid, i, out);
        NovelKept(old(z.live), z.live, ps, out, i);
        out := out + [ps[i]];
      } else {
        UnitsPrefix(ps, nid, i);
        MigratingMapped(g0, z.State(), z.live, ps, nid, i, out);
        ghost var g, live := z.State(), z.live;
        var added;
        ghost var written;
        added, written := CopyOne(z, f.level, ps[i]);
        MigratingCopy(g0, g, live, z.State(), z.live, ps, nid, i, out, added, written);
        NovelCopied(old(z.live), live, z.State(), z.live, ps, out, added, written);
        out := out + added;
      }
      i := i + 1;
    }
  }

  lemma {:induction false} NovelKept(live0: seq<Live>, live: seq<Live>, ps: seq<Piece>, out: seq<Piece>, i: nat)
    requires Novel(live0, live, ps, out) && i < |ps|
    ensures Novel(live0, live, ps, out + [ps[i]])
  {
  }

  lemma {:induction false} NovelCopied(live0: seq<Live>, live: seq<Live>, g': Group, live': seq<Live>, ps: seq<Piece>,
                                       out: seq<Piece>, added: seq<Piece>, written: seq<Live>)
    requires live0 <= live && Novel(live0, live, ps, out) && Inv(g', live') && live' == live + written
    requires |added| == |written| && forall i :: 0 <= i < |added| ==> added[i] == Entry(written[i], 0)
    ensures Novel(live0, live', ps, out + added)
  {
    hide Inv;
    forall x | 0 <= x < |out + added| ensures NovelPiece(live0, live', ps, (out + added)[x]) {
      if x < |out| {
        assert NovelPiece(live0, live, ps, out[x]);
        if q :| q in live && q !in live0 && Matches(q, out[x]) {
          InPrefix(live, live', q);
        }
      } else {
        var k := x - |out|;
        WrittenIsNew(g', live, written, k);
        assert written[k] in live' && Matches(written[k], added[k]);
        if written[k] in live0 {
          InPrefix(live0, live, written[k]);
        }
      }
    }
  }

  /** New pieces outlive the trimming of the old ones. */
  lemma {:induction false} NovelTrimmed(live0: seq<Live>, g1: Group, live1: seq<Live>, live: seq<Live>, ps: seq<Piece>,
                                        out: seq<Piece>)
    requires Inv(g1, live1) && Novel(live0, live1, ps, out) && AllKept(live1, live, out)
    ensures Novel(live0, live, ps, out)
  {
    hide Inv;
    forall x | 0 <= x < |out| ensures NovelPiece(live0, live, ps, out[x]) {
      assert NovelPiece(live0, live1, ps, out[x]) && Kept(live1, live, out[x]);
      if q :| q in live1 && q !in live0 && Matches(q, out[x]) {
        var r :| r in live1 && r in live && Matches(r, out[x]);
        var a :| 0 <= a < |live1| && live1[a] == q;
        var b :| 0 <= b < |live1| && live1[b] == r;
        LivePlace(g1, live1, a, b);
      }
    }
  }

  // ----- giving the old units back

  /** The victim pieces among the first `i` were trimmed. */
  ghost predicate Trimming(g1: Group, live1: seq<Live>, g: Group, live: seq<Live>, ps: seq<Piece>, nid: nat, i: nat,
                           out: seq<Piece>) {
    i <= |ps| && Inv(g, live) && |g.nodes| == |g1.nodes| && AllKept(live1, live, out) &&
    (forall k :: i <= k < |ps| && ps[k].node == nid ==> Owned(live, ps[k])) &&
    (forall k :: 0 <= k < |ps| && ps[k].node != nid ==> Owned(live, ps[k])) &&
    (forall n :: 0 <= n < |g.nodes| ==>
      g.nodes[n].valid + (if n == nid then UnitsIn(ps[..i], nid) else 0) == g1.nodes[n].valid)
  }

  lemma {:induction false} TrimmingStart(g: Group, live: seq<Live>, ps: seq<Piece>, nid: nat, out: seq<Piece>)
    requires Inv(g, live) && AllOwned(live, ps) && AllOwned(live, out)
    ensures Trimming(g, live, g, live, ps, nid, 0, out)
  {
    PrefixKept(live, live, out);
    assert UnitsIn(ps[..0], nid) == 0;
  }

  /** Trimming one piece leaves every piece at another place live. */
  lemma {:induction false} OthersStay(g: Group, live: seq<Live>, x: nat, p: Piece, q: Live, r: Piece)
    requires Inv(g, live) && x < |live| && Matches(live[x], p) && q in live && Matches(q, r) && !SamePlace(p, r)
    ensures q in live[..x] + live[x + 1..]
  {
    var y :| 0 <= y < |live| && live[y] == q;
    assert x != y;
    var rest := live[..x] + live[x + 1..];
    assert rest[if y < x then y else y - 1] == q;
  }

  lemma {:induction false} TrimStep(g1: Group, live1: seq<Live>, g: Group, live: seq<Live>, ps: seq<Piece>, nid: nat,
                                    i: nat, out: seq<Piece>, x: nat)
    requires Trimming(g1, live1, g, live, ps, nid, i, out) && i < |ps| && ps[i].node == nid && PairwiseApart(ps)
    requires forall k :: 0 <= k < |out| ==> out[k].node != nid
    requires x < |live| && Matches(live[x], ps[i])
    ensures live[x].node < |g.nodes| && live[x].num <= g.nodes[live[x].node].valid
    ensures Trimming(g1, live1, Trim(g, live[x].node, live[x].num), live[..x] + live[x + 1..], ps, nid, i + 1, out)
  {
    TrimInv(g, live, x);
    hide Inv;
    var live' := live[..x] + live[x + 1..];
    TakeOneMore(ps, nid, i);
    forall k | 0 <= k < |out| ensures Kept(live1, live', out[k]) {
      assert Kept(live1, live, out[k]);
      var q :| q in live1 && q in live && Matches(q, out[k]);
      OthersStay(g, live, x, ps[i], q, out[k]);
    }
    forall k | 0 <= k < |ps| && k != i && (k > i || ps[k].node != nid) ensures Owned(live', ps[k]) {
      assert Owned(live, ps[k]);
      var q :| q in live && Matches(q, ps[k]);
      assert !SamePlace(ps[i], ps[k]) by {
        assert k > i ==> !SamePlace(ps[i], ps[k]);
      }
      OthersStay(g, live, x, ps[i], q, ps[k]);
    }
  }

  lemma {:induction false} TrimSkip(g1: Group, live1: seq<Live>, g: Group, live: seq<Live>, ps: seq<Piece>, nid: nat,
                                    i: nat, out: seq<Piece>)
    requires Trimming(g1, live1, g, live, ps, nid, i, out) && i < |ps| && ps[i].node != nid
    ensures Trimming(g1, live1, g, live, ps, nid, i + 1, out)
  {
    hide Inv;
    TakeOneMore(ps, nid, i);
  }

  lemma {:induction false} TrimIndex(g1: Group, live1: seq<Live>, g: Group, live: seq<Live>, ps: seq<Piece>, nid: nat,
                                     i: nat, out: seq<Piece>) returns (x: nat)
    requires Trimming(g1, live1, g, live, ps, nid, i, out) && i < |ps| && ps[i].node == nid
    ensures x < |live| && Matches(live[x], ps[i])
  {
    hide Inv;
    assert Owned(live, ps[i]);
    var q :| q in live && Matches(q, ps[i]);
    x :| 0 <= x < |live| && live[x] == q;
  }

  /** `q` is the live piece behind one of the first `i` pieces that lies in the victim. */
  ghost predicate Dropped(ps: seq<Piece>, i: nat, nid: nat, q: Live) {
    exists k :: 0 <= k < i && k < |ps| && ps[k].node == nid && Matches(q, ps[k])
  }

  /** Of the live pieces exactly those stop being live; whatever belongs to other files stays. */
  ghost predicate OnlyDropped(live: seq<Live>, live': seq<Live>, ps: seq<Piece>, i: nat, nid: nat) {
    forall q :: q in live ==> (q in live' <==> !Dropped(ps, i, nid, q))
  }

  lemma {:induction false} DroppedStart(live: seq<Live>, ps: seq<Piece>, nid: nat)
    ensures OnlyDropped(live, live, ps, 0, nid)
  {
  }

  lemma {:induction false} DroppedStep(g: Group, live1: seq<Live>, live: seq<Live>, ps: seq<Piece>, i: nat, nid: nat,
                                       x: nat)
    requires Inv(g, live) && OnlyDropped(live1, live, ps, i, nid) && i < |ps| && ps[i].node == nid
    requires x < |live| && Matches(live[x], ps[i])
    ensures OnlyDropped(live1, live[..x] + live[x + 1..], ps, i + 1, nid)
  {
    hide Inv;
    var rest := live[..x] + live[x + 1..];
    forall q | q in live1 ensures q in rest <==> !Dropped(ps, i + 1, nid, q) {
      assert Dropped(ps, i + 1, nid, q) <==> Dropped(ps, i, nid, q) || Matches(q, ps[i]);
      if y :| 0 <= y < |live| && live[y] == q && y != x {
        assert rest[if y < x then y else y - 1] == q;
      }
      if q in rest {
        var y :| 0 <= y < |rest| && rest[y] == q;
        var y' := if y < x then y else y + 1;
        assert live[y'] == q && y' != x;
        if Matches(q, ps[i]) {
          LivePlace(g, live, x, y');
        }
      }
    }
  }

  lemma {:induction false} DroppedSkip(live1: seq<Live>, live: seq<Live>, ps: seq<Piece>, i: nat, nid: nat)
    requires OnlyDropped(live1, live, ps, i, nid) && i < |ps| && ps[i].node != nid
    ensures OnlyDropped(live1, live, ps, i + 1, nid)
  {
    forall q | q in live1 ensures q in live <==> !Dropped(ps, i + 1, nid, q) {
      assert Dropped(ps, i + 1, nid, q) <==> Dropped(ps, i, nid, q);
    }
  }

  /** The trimming loop under the write lock. */
  method TrimVictims(z: Ztl, ps: seq<Piece>, nid: nat, ghost out: seq<Piece>)
    requires z.Valid() && AllOwned(z.live, ps) && PairwiseApart(ps) && AllOwned(z.live, out)
    requires forall k :: 0 <= k < |out| ==> out[k].node != nid
    modifies z
    ensures z.Valid() && Trimming(old(z.State()), old(z.live), z.State(), z.live, ps, nid, |ps|, out)
    ensures OnlyDropped(old(z.live), z.live, ps, |ps|, nid)
  {
    hide Inv, Trimming, OnlyDropped, AllOwned, PairwiseApart, Trim;
    ghost var g1, live1 := z.State(), z.live;
    TrimmingStart(z.State(), z.live, ps, nid, out);
    DroppedStart(live1, ps, nid);
    var i := 0;
    while i < |ps|
      invariant 0 <= i <= |ps| && z.Valid() && Trimming(g1, live1, z.State(), z.live, ps, nid, i, out)
      invariant OnlyDropped(live1, z.live, ps, i, nid)
    {
      if ps[i].node == nid {
        ghost var x := TrimIndex(g1, live1, z.State(), z.live, ps, nid, i, out);
        TrimStep(g1, live1, z.State(), z.live, ps, nid, i, out, x);
        DroppedStep(z.State(), live1, z.live, ps, i, nid, x);
        z.TrimPiece(ps[i], x);
      } else {
        TrimSkip(g1, live1, z.State(), z.live, ps, nid, i, out);
        DroppedSkip(live1, z.live, ps, i, nid);
      }
      i := i + 1;
    }
  }

  // ----- the whole migration

  /** What a migration does: the victim loses every unit of the file, every other node gains exactly
      what the new pieces have there, no unit is created or lost, and the bytes are those of the old
      pieces with the victims' padding counted in. */
  ghost predicate Moved(g0: Group, g: Group, ps: seq<Piece>, nid: nat, out: seq<Piece>) {
    |g.nodes| == |g0.nodes| && (forall i :: 0 <= i < |out| ==> out[i].node != nid) &&
    TotalUnits(out) == TotalUnits(ps) &&
    (forall n :: 0 <= n < |g.nodes| ==>
      g.nodes[n].valid + UnitsIn(ps, n) == g0.nodes[n].valid + UnitsIn(out, n)) &&
    AllMapped(g0, Unpad(ps, nid)) && AllMapped(g, out) && Payloads(g, out) == Payloads(g0, Unpad(ps, nid))
  }

  lemma {:induction false} MigratingDone(g0: Group, live0: seq<Live>, g: Group, live: seq<Live>, ps: seq<Piece>,
                                         nid: nat, out: seq<Piece>)
    requires Inv(g0, live0) && live0 <= live && AllOwned(live0, ps) && Migrating(g0, g, live, ps, nid, |ps|, out)
    ensures Inv(g, live) && AllOwned(live, ps) && AllOwned(live, out)
    ensures forall k :: 0 <= k < |out| ==> out[k].node != nid
    ensures AllMapped(g0, Unpad(ps, nid)) && AllMapped(g, Unpad(ps, nid))
    ensures Payloads(g, Unpad(ps, nid)) == Payloads(g0, Unpad(ps, nid))
  {
    hide Inv, Payloads, Mapped;
    UnpadOwned(live0, ps, nid);
    PrefixKept(live0, live, Unpad(ps, nid));
    KeptPayloads(g0, live0, g, live, Unpad(ps, nid));
  }

  /** Both loops together. */
  lemma {:induction false} MigrateEnd(g0: Group, g1: Group, live1: seq<Live>, g: Group, live: seq<Live>,
                                      ps: seq<Piece>, nid: nat, out: seq<Piece>)
    requires Migrating(g0, g1, live1, ps, nid, |ps|, out) && Trimming(g1, live1, g, live, ps, nid, |ps|, out)
    requires AllMapped(g0, Unpad(ps, nid)) && AllMapped(g1, Unpad(ps, nid))
    requires Payloads(g1, Unpad(ps, nid)) == Payloads(g0, Unpad(ps, nid))
    ensures Inv(g, live) && AllOwned(live, out) && PairwiseApart(out) && Moved(g0, g, ps, nid, out)
  {
    hide Inv, Payloads, Mapped;
    assert ps[..|ps|] == ps && out + ps[|ps|..] == out;
    MigrateOwned(live1, live, out);
    KeptPayloads(g1, live1, g, live, out);
    NoUnits(out, nid);
    forall n | 0 <= n < |g.nodes|
      ensures g.nodes[n].valid + UnitsIn(ps, n) == g0.nodes[n].valid + UnitsIn(out, n)
    {
      assert ValidMoved(g0, g1, ps[..|ps|], out, nid, n);
    }
  }

  lemma {:induction false} MigrateOwned(live: seq<Live>, live': seq<Live>, ps: seq<Piece>)
    requires AllKept(live, live', ps)
    ensures AllOwned(live', ps)
  {
    forall i | 0 <= i < |ps| ensures Owned(live', ps[i]) {
      assert Kept(live, live', ps[i]);
    }
  }

  /** Copy, then trim. */
  method Move(f: ZnsFile, nid: nat) returns (out: seq<Piece>)
    requires f.Valid() && nid in f.z.full && UnitsIn(f.pieces, nid) <= f.Room()
    modifies f.z
    ensures f.z.Valid() && AllOwned(f.z.live, out) && PairwiseApart(out)
    ensures Moved(old(f.z.State()), f.z.State(), f.pieces, nid, out)
    ensures OnlyDropped(old(f.z.live), f.z.live, f.pieces, |f.pieces|, nid)
    ensures Novel(old(f.z.live), f.z.live, f.pieces, out)
  {
    ghost var g0, live0, ps := f.z.State(), f.z.live, f.pieces;
    hide Inv, Payloads, Space, Mapped, Migrating, Trimming, OnlyDropped, Novel, Tailq.LinkedTo;
    out := CopyVictims(f, nid);
    ghost var g1, live1 := f.z.State(), f.z.live;
    MigratingDone(g0, live0, g1, live1, ps, nid, out);
    TrimVictims(f.z, f.pieces, nid, out);
    MigrateEnd(g0, g1, live1, f.z.State(), f.z.live, ps, nid, out);
    DroppedEarlier(live0, live1, f.z.live, ps, nid);
    TrimmingKept(g1, live1, f.z.State(), f.z.live, ps, nid, out);
    NovelTrimmed(live0, g1, live1, f.z.live, ps, out);
  }

  lemma {:induction false} TrimmingKept(g1: Group, live1: seq<Live>, g: Group, live: seq<Live>, ps: seq<Piece>,
                                        nid: nat, out: seq<Piece>)
    requires Trimming(g1, live1, g, live, ps, nid, |ps|, out)
    ensures AllKept(live1, live, out)
  {
    hide Inv;
  }

  lemma {:induction false} DroppedEarlier(live0: seq<Live>, live1: seq<Live>, live: seq<Live>, ps: seq<Piece>, nid: nat)
    requires live0 <= live1 && OnlyDropped(live1, live, ps, |ps|, nid)
    ensures OnlyDropped(live0, live, ps, |ps|, nid)
  {
    forall q | q in live0 ensures q in live1 {
      var x :| 0 <= x < |live0| && live0[x] == q;
      assert live1[x] == q;
    }
  }

  /** MigrateNodeFile for a file that is not being written, with space for the copies: the file keeps
      all its bytes, in order, when at most its last piece is padded.  Of the pieces live before exactly
      the file's pieces in the victim are given up. */
  method Migrate(f: ZnsFile, nid: nat)
    requires f.Valid() && !f.isOpen && nid in f.z.full && UnitsIn(f.pieces, nid) <= f.Room()
    modifies f`pieces, f.z
    ensures f.Valid() && Moved(old(f.z.State()), f.z.State(), old(f.pieces), nid, f.pieces)
    ensures OnlyDropped(old(f.z.live), f.z.live, old(f.pieces), |old(f.pieces)|, nid)
    ensures Novel(old(f.z.live), f.z.live, old(f.pieces), f.pieces)
    ensures PaddedLast(old(f.pieces), nid) ==> old(f.Content()) <= f.Content()
  {
    hide Inv, Payloads, Space, Mapped, Moved, PaddedLast, OnlyDropped, Novel;
    ghost var g0, ps := f.z.State(), f.pieces;
    var out := Move(f, nid);
    MovedKeepsBytes(g0, f.z.State(), ps, nid, out);
    f.pieces := out;
  }

  /** Reading a migrated file returns what reading it before would have returned, for every range, although
      its last piece may have gained the padding as data. */
  method MigrateThenRead(f: ZnsFile, nid: nat, offset: nat, n: nat) returns (r: ReadResult)
    requires f.Valid() && !f.isOpen && nid in f.z.full && UnitsIn(f.pieces, nid) <= f.Room()
    requires PaddedLast(f.pieces, nid) && f.size <= |f.Content()|
    modifies f`pieces, f.z
    ensures f.Valid() && f.size <= |f.Content()|
    ensures r == if offset >= f.size then Untouched else
      Data(old(f.Content())[offset..if offset + n > f.size then f.size else offset + n])
  {
    hide Inv, Payloads, Space, Mapped, Moved, PaddedLast, OnlyDropped, AllOwned, AllMapped, PairwiseApart;
    ghost var before := f.Content();
    Migrate(f, nid);
    r := f.Read(offset, n);
    ReadClosed(f.Content(), f.size, offset, n);
  }

  lemma {:induction false} MovedKeepsBytes(g0: Group, g: Group, ps: seq<Piece>, nid: nat, out: seq<Piece>)
    requires Moved(g0, g, ps, nid, out) && AllMapped(g0, ps)
    ensures AllMapped(g, out) && (PaddedLast(ps, nid) ==> Payloads(g0, ps) <= Payloads(g, out))
  {
    if PaddedLast(ps, nid) {
      PrefixPreserved(g0, ps, nid);
    }
  }

  // ----- a file deleted while it was being migrated

  /** The local array `maps[2]` after the given writes, each of which fills its first slots. */
  ghost function Reused(maps: seq<Piece>, writes: seq<seq<Piece>>): (r: seq<Piece>)
    requires |maps| == 2 && forall i :: 0 <= i < |writes| ==> 1 <= |writes[i]| <= 2
    ensures |r| == 2
    decreases |writes|
  {
    if writes == [] then maps else Reused(writes[0] + maps[|writes[0]|..], writes[1..])
  }

  /** What is trimmed when the file turns out to be deleted: one entry per new piece, each read through
      a pointer into that array. */
  ghost function TrimmedOnDelete(maps: seq<Piece>, writes: seq<seq<Piece>>): seq<Piece>
    requires |maps| == 2 && forall i :: 0 <= i < |writes| ==> 1 <= |writes[i]| <= 2
    decreases |writes|
  {
    if writes == [] then [] else maps[..|writes[0]|] + TrimmedOnDelete(maps, writes[1..])
  }

  ghost function AllNew(writes: seq<seq<Piece>>): seq<Piece>
    decreases |writes|
  {
    if writes == [] then [] else writes[0] + AllNew(writes[1..])
  }

  /** Units that trimming an entry takes from node `n`. */
  function EntryUnits(p: Piece, n: nat): nat {
    if p.node == n then p.num else 0
  }

  /** How many writes filled both slots: that many entries are read through the second. */
  ghost function Doubles(writes: seq<seq<Piece>>): nat
    decreases |writes|
  {
    if writes == [] then 0 else (if |writes[0]| == 2 then 1 else 0) + Doubles(writes[1..])
  }

  /** The first slot after the writes: every write fills it. */
  ghost function LastFirst(first: Piece, writes: seq<seq<Piece>>): Piece
    requires forall i :: 0 <= i < |writes| ==> 1 <= |writes[i]|
  {
    if writes == [] then first else writes[|writes| - 1][0]
  }

  /** The second slot after the writes: what the last write of two pieces left there. */
  ghost function LastSecond(second: Piece, writes: seq<seq<Piece>>): Piece
    decreases |writes|
  {
    if writes == [] then second
    else LastSecond(if |writes[0]| == 2 then writes[0][1] else second, writes[1..])
  }

  lemma {:induction false} ReusedSlots(maps: seq<Piece>, writes: seq<seq<Piece>>)
    requires |maps| == 2 && forall i :: 0 <= i < |writes| ==> 1 <= |writes[i]| <= 2
    ensures Reused(maps, writes) == [LastFirst(maps[0], writes), LastSecond(maps[1], writes)]
    decreases |writes|
  {
    if writes != [] {
      ReusedSlots(writes[0] + maps[|writes[0]|..], writes[1..]);
    }
  }

  /** Every entry is read through its slot, so each slot's last value is trimmed once per use. */
  lemma {:induction false} TrimmedUnits(maps: seq<Piece>, writes: seq<seq<Piece>>, n: nat)
    requires |maps| == 2 && forall i :: 0 <= i < |writes| ==> 1 <= |writes[i]| <= 2
    ensures UnitsIn(TrimmedOnDelete(maps, writes), n) ==
      |writes| * EntryUnits(maps[0], n) + Doubles(writes) * EntryUnits(maps[1], n)
    decreases |writes|
  {
    if writes != [] {
      FirstEntries(maps, |writes[0]|, n);
      hide UnitsIn, EntryUnits;
      var a, b, d := EntryUnits(maps[0], n), EntryUnits(maps[1], n), Doubles(writes[1..]);
      TrimmedUnits(maps, writes[1..], n);
      UnitsConcat(maps[..|writes[0]|], TrimmedOnDelete(maps, writes[1..]), n);
      OneMore(|writes| - 1, a);
      OneMore(d, b);
    }
  }

  lemma {:induction false} OneMore(k: nat, x: nat)
    ensures (k + 1) * x == k * x + x
  {
  }

  lemma {:induction false} FirstEntries(maps: seq<Piece>, k: nat, n: nat)
    requires |maps| == 2 && 1 <= k <= 2
    ensures UnitsIn(maps[..k], n) == EntryUnits(maps[0], n) + (if k == 2 then EntryUnits(maps[1], n) else 0)
  {
    SingleUnits(maps[0]);
    SingleUnits(maps[1]);
    UnitsConcat([maps[0]], [maps[1]], n);
    assert maps[..k] == if k == 1 then [maps[0]] else [maps[0]] + [maps[1]];
  }

  /** The counts of all nodes come back to what they were before the copies. */
  ghost predicate CountsRestored(maps: seq<Piece>, writes: seq<seq<Piece>>)
    requires |maps| == 2 && forall i :: 0 <= i < |writes| ==> 1 <= |writes[i]| <= 2
  {
    forall n :: UnitsIn(TrimmedOnDelete(Reused(maps, writes), writes), n) == UnitsIn(AllNew(writes), n)
  }

  /** The units written for a file that was deleted meanwhile are given back, on every node, exactly when
      the units copied there are the last value of each slot times the number of its uses. */
  lemma {:induction false} DeletedWhileMigratingIff(maps: seq<Piece>, writes: seq<seq<Piece>>)
    requires |maps| == 2 && forall i :: 0 <= i < |writes| ==> 1 <= |writes[i]| <= 2
    ensures CountsRestored(maps, writes) <==>
      forall n :: UnitsIn(AllNew(writes), n) == |writes| * EntryUnits(LastFirst(maps[0], writes), n) +
        Doubles(writes) * EntryUnits(LastSecond(maps[1], writes), n)
  {
    ReusedSlots(maps, writes);
    var a, b := LastFirst(maps[0], writes), LastSecond(maps[1], writes);
    forall n ensures UnitsIn(TrimmedOnDelete(Reused(maps, writes), writes), n) ==
      |writes| * EntryUnits(a, n) + Doubles(writes) * EntryUnits(b, n)
    {
      TrimmedUnits(Reused(maps, writes), writes, n);
    }
    hide Reused, TrimmedOnDelete, UnitsIn, AllNew, LastFirst, LastSecond, Doubles, EntryUnits;
  }

  /** One migrated piece always comes back. */
  lemma {:induction false} OneMigratedPiece(maps: seq<Piece>, write: seq<Piece>)
    requires |maps| == 2 && 1 <= |write| <= 2
    ensures CountsRestored(maps, [write])
  {
    var r := write + maps[|write|..];
    assert [write][1..] == [] && Reused(maps, [write]) == Reused(r, []) == r;
    assert r[..|write|] == write;
    assert TrimmedOnDelete(r, [write]) == write + [] == AllNew([write]);
  }

  /** Two pieces of different size copied to one node: the second is given back twice. */
  lemma {:induction false} UnevenPiecesLeak(maps: seq<Piece>, p: Piece, q: Piece)
    requires |maps| == 2 && p.node == q.node && p.num != q.num
    ensures !CountsRestored(maps, [[p], [q]])
    ensures UnitsIn(TrimmedOnDelete(Reused(maps, [[p], [q]]), [[p], [q]]), p.node) == 2 * q.num
    ensures UnitsIn(AllNew([[p], [q]]), p.node) == p.num + q.num
  {
    var writes, n := [[p], [q]], p.node;
    ReusedSlots(maps, writes);
    TrimmedUnits(Reused(maps, writes), writes, n);
    assert writes[1..] == [[q]] && writes[1..][1..] == [];
    assert Doubles(writes) == Doubles([[q]]) == Doubles([]) == 0;
    assert AllNew(writes) == [p] + AllNew([[q]]) && AllNew([[q]]) == [q] + AllNew([]);
    assert AllNew([[q]]) == [q];
    UnitsConcat([p], [q], n);
    SingleUnits(p);
    SingleUnits(q);
  }

  /** Two pieces of the same size copied to one node: the counts come back right. */
  lemma {:induction false} EvenPiecesReturn(maps: seq<Piece>, p: Piece, q: Piece)
    requires |maps| == 2 && p.node == q.node && p.num == q.num
    ensures CountsRestored(maps, [[p], [q]])
  {
    var writes := [[p], [q]];
    ReusedSlots(maps, writes);
    assert writes[1..] == [[q]] && writes[1..][1..] == [];
    assert Doubles(writes) == Doubles([[q]]) == Doubles([]) == 0;
    assert AllNew(writes) == [p] + AllNew([[q]]) && AllNew([[q]]) == [q] + AllNew([]);
    assert AllNew([[q]]) == [q];
    forall n ensures UnitsIn(TrimmedOnDelete(Reused(maps, writes), writes), n) == UnitsIn(AllNew(writes), n) {
      TrimmedUnits(Reused(maps, writes), writes, n);
      UnitsConcat([p], [q], n);
      SingleUnits(p);
      SingleUnits(q);
    }
  }
}
