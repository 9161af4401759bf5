/** The zrocks interface over a group of nodes: write a buffer, read a range, trim a piece. */
module Zrocks {
  import opened Layout
  import opened ReadPath
  import opened NodeGroup
  import Tailq

  const MAX_BUF: nat := 33554432

  /** A mapping entry (struct zrocks_map): `num` units of a node from `start` on, less `padding` bytes. */
  datatype Piece = Piece(node: nat, start: nat, num: nat, padding: nat)

  /** Every field fits its bit field. */
  predicate Packable(p: Piece) {
    p.node < 0x4000 && p.start < 0x40_0000 && p.num < 0x800 && p.padding < 0x1_0000
  }

  function AlignUp(size: nat): (n: nat)
    ensures n % UNIT == 0 && size <= n < size + UNIT
  {
    if size % UNIT != 0 then size + (UNIT - size % UNIT) else size
  }

  function ClampLevel(level: int): (l: nat)
    ensures l < LEVELS && (0 <= level < LEVELS ==> l == level)
    ensures (level < 0 ==> l == 0) && (level >= LEVELS ==> l == LEVELS - 1)
  {
    if level < 0 then 0 else if level >= LEVELS then LEVELS - 1 else level
  }

  // ----- pieces and their bytes

  /** The bytes of a run of pieces, padding included, in order. */
  ghost function Bytes(ps: seq<Live>): seq<Byte> {
    if ps == [] then [] else Bytes(ps[..|ps| - 1]) + ps[|ps| - 1].data
  }

  /** The mapping entry of a written piece. */
  function Entry(p: Live, padding: nat): Piece {
    Piece(p.node, p.start, p.num, padding)
  }

  /** The piece lies inside its node, and its padding inside its last unit. */
  predicate Mapped(g: Group, p: Piece) {
    p.node < |g.nodes| && 0 < p.num && p.padding < UNIT && (p.start + p.num) * UNIT <= |g.nodes[p.node].img|
  }

  /** What a piece contributes to a file: its units without the padding. */
  function Payload(g: Group, p: Piece): (bytes: seq<Byte>)
    requires Mapped(g, p)
    ensures |bytes| == p.num * UNIT - p.padding
  {
    g.nodes[p.node].img[p.start * UNIT..(p.start + p.num) * UNIT - p.padding]
  }

  ghost predicate AllMapped(g: Group, ps: seq<Piece>) {
    forall i :: 0 <= i < |ps| ==> Mapped(g, ps[i])
  }

  /** The bytes of a file made of the given pieces. */
  ghost function Payloads(g: Group, ps: seq<Piece>): seq<Byte>
    requires AllMapped(g, ps)
  {
    if ps == [] then [] else Payloads(g, ps[..|ps| - 1]) + Payload(g, ps[|ps| - 1])
  }

  /** Units that level `l` can still write: the rest of its node and all free nodes. */
  function Space(g: Group, l: nat): nat
    requires CanGet(g, l)
  {
    (if HasRoom(g, l) then g.nodes[g.queue[l].node].left else 0) + |g.free| * NODE_UNITS
  }

  /** Space left after writing as much of `units` as there is space for. */
  function Drained(space: nat, units: nat): nat {
    if units <= space then space - units else 0
  }

  lemma {:induction false} GetNodeSpace(g: Group, live: seq<Live>, l: nat)
    requires Inv(g, live) && l < LEVELS && CanGet(g, l)
    ensures CanGet(GetNode(g, l).0, l) && Space(GetNode(g, l).0, l) == Space(g, l)
    ensures GetNode(g, l).1 <==> 0 < Space(g, l)
  {
    GetNodeInv(g, live, l);
    HeadsInRange(GetNode(g, l).0, l);
    if !HasRoom(g, l) && g.free != [] {
      GetNodeFresh(g, live, l);
    }
  }

  /** After retiring an exhausted node the level gets an entirely empty one. */
  lemma {:induction false} GetNodeFresh(g: Group, live: seq<Live>, l: nat)
    requires Inv(g, live) && l < LEVELS && CanGet(g, l) && !HasRoom(g, l) && g.free != []
    ensures var g' := GetNode(g, l).0;
      g'.queue[l].Holding? && g'.queue[l].node < |g'.nodes| && g'.nodes[g'.queue[l].node].left == NODE_UNITS
  {
    assert g.free[0] in g.free && NodeOk(g, g.free[0]);
  }

  /** Nodes only join the list. */
  ghost predicate Grown(list: seq<nat>, list': seq<nat>) {
    forall n :: n in list ==> n in list'
  }

  /** The full list only grew, and the new pieces are not on nodes that were full. */
  ghost predicate NewNodes(list: seq<nat>, list': seq<nat>, written: seq<Live>) {
    Grown(list, list') && forall i :: 0 <= i < |written| ==> written[i].node !in list
  }

  class Ztl {
    var nodes: seq<Node>
    var free: seq<nat>
    var used: seq<nat>
    var full: seq<nat>
    var nfree: int
    var queue: seq<Held>
    var links: Tailq.Links
    ghost var live: seq<Live>

    function State(): Group
      reads this
    {
      Group(nodes, free, used, full, nfree, queue)
    }

    /** The group is in order, and so are the pointers behind its lists. */
    ghost predicate Valid()
      reads this
    {
      Inv(State(), live) && Tailq.LinkedTo(links, State())
    }

    /** ztl_pro_grp_get_node. */
    method Obtain(l: nat) returns (ok: bool)
      requires Valid() && l < LEVELS && CanGet(State(), l)
      modifies this
      ensures State() == GetNode(old(State()), l).0 && ok == GetNode(old(State()), l).1
      ensures Valid() && live == old(live) && Grown(old(full), full) && |nodes| == |old(nodes)|
    {
      hide Inv, Tailq.LinkedTo, Tailq.Move, Tailq.Remove, Tailq.Removable, Tailq.SlotOk, Unlink, Distinct;
      GetNodeInv(State(), live, l);
      GetNodeLists(State(), live, l);
      if !queue[l].Holding? || nodes[queue[l].node].left == 0 {
        if queue[l].Holding? {
          var n := queue[l].node;
          Tailq.RetireLinks(links, State(), l);
          links := Tailq.Move(links, Tailq.USED, n, Tailq.FULL);
          used := Unlink(used, n);
          full := full + [n];
          queue := queue[l := Nothing];
        }
        Tailq.TakeLinks(links, State(), l);
        if links.first[Tailq.FREE].Null? {
          queue := queue[l := Nothing];
          return false;
        }
        var n := links.first[Tailq.FREE].node;
        links := Tailq.Move(links, Tailq.FREE, n, Tailq.USED);
        queue := queue[l := Holding(n)];
        free := free[1..];
        used := used + [n];
        nodes := nodes[n := nodes[n].(status := Used)];
        nfree := nfree - 1;
      }
      return true;
    }

    /** The part of ztl_io_write_ucmd that puts one piece on the level's node; Submission proves what
        happens between choosing the place and updating the counters. */
    method PutPiece(l: nat, data: seq<Byte>) returns (p: Piece)
      requires Valid() && l < LEVELS && CanPut(State(), l, data)
      modifies this
      ensures State() == WritePiece(old(State()), l, data)
      ensures Valid() && live == old(live) + [NewPiece(old(State()), l, data)]
      ensures full == old(full) && |nodes| == |old(nodes)|
      ensures p == Entry(NewPiece(old(State()), l, data), 0)
    {
      hide Inv;
      WritePieceInv(State(), live, l, data);
      live := live + [NewPiece(State(), l, data)];
      var n, num := queue[l].node, |data| / UNIT;
      var nd := nodes[n];
      p := Piece(n, nd.used, num, 0);
      if nd.level == -1 {
        nd := nd.(level := l);
      }
      nd := nd.(img := nd.img + data, left := nd.left - num, used := nd.used + num, valid := nd.valid + num);
      if nd.left == 0 {
        nd := nd.(status := Full);
      }
      nodes := nodes[n := nd];
    }

    /** One round of the `reget` loop: obtain a node and put as much of the rest on it as fits. */
    method PutSome(l: nat, data: seq<Byte>, done: nat) returns (got: bool, p: Piece, ghost piece: Live)
      requires Valid() && l < LEVELS && CanGet(State(), l)
      requires |data| % UNIT == 0 && done < |data| / UNIT <= BUF_UNITS
      modifies this
      ensures Valid() && CanGet(State(), l) && Grown(old(full), full) && |nodes| == |old(nodes)|
      ensures got ==> piece.node !in old(full)
      ensures got <==> 0 < old(Space(State(), l))
      ensures !got ==> live == old(live) && Space(State(), l) == 0
      ensures got ==> p == Entry(piece, 0) && live == old(live) + [piece] && NextPart(data, done, piece)
      ensures got ==> Space(State(), l) == old(Space(State(), l)) - piece.num
      ensures got && piece.num < |data| / UNIT - done ==> old(HasRoom(State(), l)) && !HasRoom(State(), l)
    {
      hide Inv;
      p, piece := Piece(0, 0, 0, 0), Live(0, 0, 0, []);
      GetNodeInv(State(), live, l);
      GetNodeSpace(State(), live, l);
      if !HasRoom(State(), l) && free != [] {
        GetNodeFresh(State(), live, l);
      }
      got := Obtain(l);
      if got {
        var room, left := nodes[queue[l].node].left, |data| / UNIT - done;
        var num := if room <= left then room else left;
        var chunk := data[done * UNIT..(done + num) * UNIT];
        assert |chunk| / UNIT == num && |chunk| % UNIT == 0;
        HeldNotFull(State(), live, l);
        piece := NewPiece(State(), l, chunk);
        p := PutPiece(l, chunk);
      }
      ListsInRange(State(), live, l);
    }

    /** ztl_io_write_ucmd: at most two pieces, in buffer order, and the whole buffer is written exactly
        when the level has space for it. */
    method WriteUcmd(l: nat, data: seq<Byte>)
        returns (ok: bool, pieces: seq<Piece>, ghost written: seq<Live>, ghost done: nat)
      requires Valid() && l < LEVELS && CanGet(State(), l) && |data| % UNIT == 0 && 0 < |data| <= MAX_BUF
      modifies this
      ensures Valid() && CanGet(State(), l) && |nodes| == |old(nodes)| && |pieces| <= 2
      ensures SoFar(old(live), old(full), live, full, pieces, written, data, done)
      ensures Space(State(), l) == old(Space(State(), l)) - done && (ok <==> done == |data| / UNIT)
      ensures ok <==> |data| / UNIT <= old(Space(State(), l))
      ensures !ok ==> Space(State(), l) == 0
    {
      hide Inv, Space, HasRoom, CanGet, SoFar, Grown;
      ghost var live0, full0, space0 := live, full, Space(State(), l);
      var units := |data| / UNIT;
      var n: nat := 0;
      done, pieces, written := 0, [], [];
      NothingYet(live, full, data);
      while n < units
        invariant Valid() && CanGet(State(), l) && done == n <= units && |nodes| == |old(nodes)|
        invariant SoFar(live0, full0, live, full, pieces, written, data, done)
        invariant Space(State(), l) == space0 - done && |pieces| <= 2
        invariant |pieces| == 1 && n < units ==> !HasRoom(State(), l)
        invariant |pieces| == 2 ==> n == units
        decreases units - n
      {
        ghost var piece;
        var got, p;
        ghost var live1, full1 := live, full;
        got, p, piece := PutSome(l, data, n);
        if !got {
          SoFarStays(live0, full0, live, full1, full, pieces, written, data, n);
          return false, pieces, written, n;
        }
        SoFarMore(live0, full0, live1, full1, live, full, pieces, written, data, n, piece);
        pieces, written := pieces + [p], written + [piece];
        n, done := n + p.num, n + p.num;
      }
      return true, pieces, written, n;
    }

    /** zrocks_write: pads the buffer to whole units and records the padding in the last piece.  It
        reports success even when no node was left; the pieces hold the buffer exactly when there was
        space, and strictly less of it otherwise. */
    method Write(buf: seq<Byte>, size: nat, level: int) returns (pieces: seq<Piece>, ghost written: seq<Live>)
      requires Valid() && 0 < size <= MAX_BUF && |buf| == AlignUp(size)
      requires CanGet(State(), ClampLevel(level))
      modifies this
      ensures Valid() && CanGet(State(), ClampLevel(level))
      ensures live == old(live) + written && |pieces| == |written| <= 2
      ensures Grown(old(full), full) && |nodes| == |old(nodes)|
      ensures forall i :: 0 <= i < |pieces| ==> pieces[i].node !in old(full)
      ensures forall i :: 0 <= i < |pieces| ==>
        pieces[i] == Entry(written[i], if i < |pieces| - 1 then 0 else AlignUp(size) - size)
      ensures AllMapped(State(), pieces)
      ensures |nodes| <= 0x4000 ==> forall i :: 0 <= i < |pieces| ==> Packable(pieces[i])
      ensures AlignUp(size) / UNIT <= old(Space(State(), ClampLevel(level))) ==>
        Payloads(State(), pieces) == buf[..size]
      ensures AlignUp(size) / UNIT > old(Space(State(), ClampLevel(level))) ==> |Payloads(State(), pieces)| < size
      ensures Space(State(), ClampLevel(level)) == Drained(old(Space(State(), ClampLevel(level))), AlignUp(size) / UNIT)
    {
      hide Inv;
      var l := ClampLevel(level);
      var ok, raw;
      ghost var n;
      ok, raw, written, n := WriteUcmd(l, buf);
      pieces := [];
      var i := 0;
      while i < |raw|
        invariant 0 <= i <= |raw| && |pieces| == i
        invariant forall k :: 0 <= k < i ==>
          pieces[k] == Entry(written[k], if k < |raw| - 1 then 0 else AlignUp(size) - size)
      {
        pieces := pieces + [raw[i].(padding := if i < |raw| - 1 then 0 else AlignUp(size) - size)];
        i := i + 1;
      }
      NewPieces(State(), live, old(live), written, pieces, buf, n, AlignUp(size) - size);
      assert ok ==> buf[..n * UNIT] == buf;
    }

    /** zrocks_read: the planner's commands, completed one after the other. */
    method Read(node: nat, offset: nat, size: nat) returns (bytes: seq<Byte>)
      requires Valid() && node < |nodes| && offset + size <= |nodes[node].img|
      ensures bytes == nodes[node].img[offset..offset + size]
    {
      assert NodeOk(State(), node);
      bytes := ReadZones(nodes[node].img, offset, size);
    }

    /** zrocks_trim. */
    method TrimPiece(p: Piece, ghost i: nat)
      requires Valid() && i < |live| && p == Entry(live[i], p.padding)
      modifies this
      ensures Valid() && live == old(live)[..i] + old(live)[i + 1..]
      ensures p.node < |old(nodes)| && p.num <= old(nodes)[p.node].valid
      ensures State() == Trim(old(State()), p.node, p.num)
    {
      TrimInv(State(), live, i);
      live := live[..i] + live[i + 1..];
      var nd := nodes[p.node];
      nd := nd.(valid := nd.valid - p.num);
      if nd.valid == 0 && nd.status == Full {
        nd := nd.(status := Reset);
      }
      nodes := nodes[p.node := nd];
    }

    /** ztl_mgmt_node_reset of a node waiting for it: safe exactly when the node has reached the full list. */
    method Recycle(n: nat)
      requires Valid() && n < |nodes| && nodes[n].status == Reset
      modifies this
      ensures live == old(live) && State() == ResetNode(old(State()), n)
      ensures Valid() <==> n in old(full)
    {
      hide Inv, Tailq.LinkedTo, Tailq.Resetting, Tailq.Move, Tailq.Remove, Tailq.Removable, Tailq.SlotOk, Unlink;
      ResetSafeIff(State(), live, n);
      ResetListed(State(), live, n);
      Tailq.LinkedResetting(links, State());
      Tailq.ResetLinks(links, State(), false, n);
      ghost var g := State();
      links := Tailq.Move(links, Tailq.FULL, n, Tailq.FREE);
      nodes := nodes[n := FRESH_NODE];
      used, full := Unlink(used, n), Unlink(full, n);
      free := free + [n];
      nfree := nfree + 1;
      assert State() == ResetNode(g, n);
      Tailq.LinkedResetting(links, State());
    }
  }

  lemma {:induction false} GetNodeLists(g: Group, live: seq<Live>, l: nat)
    requires Inv(g, live) && l < LEVELS
    ensures Distinct(g.free) && (g.queue[l].Holding? ==> g.queue[l].node in g.used)
  {
  }

  lemma {:induction false} ResetListed(g: Group, live: seq<Live>, n: nat)
    requires Inv(g, live) && n < |g.nodes| && g.nodes[n].status == Reset
    ensures n in g.used || n in g.full
    ensures n in g.full ==> g.used == [] || n != g.used[|g.used| - 1]
  {
    assert OnOneList(g, n) && NodeOk(g, n);
  }

  lemma {:induction false} HeldNotFull(g: Group, live: seq<Live>, l: nat)
    requires Inv(g, live) && l < LEVELS && g.queue[l].Holding?
    ensures g.queue[l].node !in g.full
  {
    assert OnOneList(g, g.queue[l].node);
  }

  lemma {:induction false} ListsInRange(g: Group, live: seq<Live>, l: nat)
    requires Inv(g, live) && l < LEVELS
    ensures CanGet(g, l)
  {
    HeadsInRange(g, l);
  }

  /** The pieces are the mapping entries of the first `n` units of the buffer, in order. */
  ghost predicate Covers(pieces: seq<Piece>, written: seq<Live>, data: seq<Byte>, n: nat) {
    n * UNIT <= |data| && |pieces| == |written| && Bytes(written) == data[..n * UNIT] &&
    forall i :: 0 <= i < |pieces| ==> pieces[i] == Entry(written[i], 0)
  }

  /** The piece holds the next units of the buffer. */
  ghost predicate NextPart(data: seq<Byte>, done: nat, piece: Live) {
    0 < piece.num && (done + piece.num) * UNIT <= |data| &&
    piece.data == data[done * UNIT..(done + piece.num) * UNIT]
  }

  /** What was written of a buffer, from the live pieces and the full list before. */
  ghost predicate SoFar(live0: seq<Live>, full0: seq<nat>, live: seq<Live>, full: seq<nat>, pieces: seq<Piece>,
                        written: seq<Live>, data: seq<Byte>, done: nat) {
    live == live0 + written && Covers(pieces, written, data, done) && NewNodes(full0, full, written)
  }

  lemma {:induction false} NothingYet(live: seq<Live>, full: seq<nat>, data: seq<Byte>)
    ensures SoFar(live, full, live, full, [], [], data, 0)
  {
  }

  lemma {:induction false} SoFarStays(live0: seq<Live>, full0: seq<nat>, live: seq<Live>, full1: seq<nat>,
                                      full: seq<nat>, pieces: seq<Piece>, written: seq<Live>, data: seq<Byte>,
                                      done: nat)
    requires SoFar(live0, full0, live, full1, pieces, written, data, done) && Grown(full1, full)
    ensures SoFar(live0, full0, live, full, pieces, written, data, done)
  {
    hide Covers;
  }

  lemma {:induction false} SoFarMore(live0: seq<Live>, full0: seq<nat>, live1: seq<Live>, full1: seq<nat>,
                                     live: seq<Live>, full: seq<nat>, pieces: seq<Piece>, written: seq<Live>,
                                     data: seq<Byte>, done: nat, piece: Live)
    requires SoFar(live0, full0, live1, full1, pieces, written, data, done) && NextPart(data, done, piece)
    requires live == live1 + [piece] && Grown(full1, full) && piece.node !in full1
    ensures SoFar(live0, full0, live, full, pieces + [Entry(piece, 0)], written + [piece], data, done + piece.num)
  {
    CoversMore(pieces, written, data, done, piece);
    hide Covers, Bytes;
  }

  lemma {:induction false} CoversMore(pieces: seq<Piece>, written: seq<Live>, data: seq<Byte>, n: nat, piece: Live)
    requires Covers(pieces, written, data, n) && (n + piece.num) * UNIT <= |data|
    requires piece.data == data[n * UNIT..(n + piece.num) * UNIT]
    ensures Covers(pieces + [Entry(piece, 0)], written + [piece], data, n + piece.num)
  {
    assert (written + [piece])[..|written|] == written;
  }

  lemma {:induction false} PartOfBytes(written: seq<Live>, i: nat)
    requires i < |written|
    ensures |written[i].data| <= |Bytes(written)|
  {
    if i < |written| - 1 {
      PartOfBytes(written[..|written| - 1], i);
    }
  }

  lemma {:induction false} UnpaddedHold(g: Group, written: seq<Live>, pieces: seq<Piece>)
    requires |pieces| == |written| && forall i :: 0 <= i < |written| ==> LiveOk(g, written[i])
    requires forall i :: 0 <= i < |pieces| ==> pieces[i] == Entry(written[i], 0)
    ensures AllMapped(g, pieces) && Payloads(g, pieces) == Bytes(written)
  {
    if pieces != [] {
      var n := |pieces| - 1;
      UnpaddedHold(g, written[..n], pieces[..n]);
      assert LiveOk(g, written[n]);
    }
  }

  /** Pieces of live units hold the bytes of those units, less the padding of the last. */
  lemma {:induction false} PiecesHold(g: Group, written: seq<Live>, pieces: seq<Piece>, padding: nat)
    requires |pieces| == |written| && padding < UNIT && forall i :: 0 <= i < |written| ==> LiveOk(g, written[i])
    requires forall i :: 0 <= i < |pieces| ==>
      pieces[i] == Entry(written[i], if i < |pieces| - 1 then 0 else padding)
    ensures AllMapped(g, pieces)
    ensures pieces != [] ==> padding <= |Bytes(written)|
    ensures Payloads(g, pieces) == if pieces == [] then [] else Bytes(written)[..|Bytes(written)| - padding]
  {
    hide LiveOk, Payload, Mapped;
    if pieces != [] {
      var n := |pieces| - 1;
      UnpaddedHold(g, written[..n], pieces[..n]);
      LastHolds(g, written[n], pieces[n]);
      forall i | 0 <= i < |pieces| ensures Mapped(g, pieces[i]) {
        assert i < n ==> Mapped(g, pieces[..n][i]);
      }
      var a, b := Bytes(written[..n]), written[n].data;
      assert a + b[..|b| - padding] == (a + b)[..|a + b| - padding];
    }
  }

  lemma {:induction false} LastHolds(g: Group, q: Live, p: Piece)
    requires LiveOk(g, q) && p == Entry(q, p.padding) && p.padding < UNIT
    ensures Mapped(g, p) && p.padding <= |q.data| && Payload(g, p) == q.data[..|q.data| - p.padding]
  {
    SliceOfSlice(g.nodes[p.node].img, p.start * UNIT, |q.data|, 0, |q.data| - p.padding);
  }

  /** The entries returned by a write, whatever part of the buffer was written. */
  lemma {:induction false} NewPieces(g: Group, live: seq<Live>, before: seq<Live>, written: seq<Live>,
                                     pieces: seq<Piece>, buf: seq<Byte>, n: nat, padding: nat)
    requires Inv(g, live) && live == before + written && |pieces| == |written| && padding < UNIT
    requires |buf| <= MAX_BUF && n * UNIT <= |buf| && Bytes(written) == buf[..n * UNIT]
    requires forall i :: 0 <= i < |pieces| ==>
      pieces[i] == Entry(written[i], if i < |pieces| - 1 then 0 else padding)
    ensures AllMapped(g, pieces)
    ensures |g.nodes| <= 0x4000 ==> forall i :: 0 <= i < |pieces| ==> Packable(pieces[i])
    ensures Payloads(g, pieces) == buf[..if n == 0 then 0 else n * UNIT - padding]
  {
    forall k | 0 <= k < |written| ensures LiveOk(g, written[k]) {
      assert written[k] == live[|before| + k];
    }
    forall k | 0 <= k < |written| ensures written[k].num * UNIT <= |buf| && written[k].start < NODE_UNITS {
      assert LiveOk(g, written[k]) && NodeOk(g, written[k].node);
      PartOfBytes(written, k);
    }
    PiecesHold(g, written, pieces, padding);
    if pieces == [] {
      assert |Bytes(written)| == 0;
    } else {
      PartOfBytes(written, 0);
      assert LiveOk(g, written[0]);
    }
  }
}
