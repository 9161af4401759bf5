/** Several files on one group of nodes: what is done to one file, migration and deletion included, leaves the
    others as they were, and the counts of the nodes follow the files. */
module Fleet {
  import opened Layout
  import opened NodeGroup
  import opened Zrocks
  import opened FileLayer
  import opened Gc
  import Tailq

  /** The pieces of two files share no place. */
  ghost predicate PiecesApart(a: seq<Piece>, b: seq<Piece>) {
    forall x, y :: 0 <= x < |a| && 0 <= y < |b| ==> !SamePlace(a[x], b[y])
  }

  ghost predicate Separate(f: ZnsFile, h: ZnsFile)
    reads f, h
  {
    f != h && f.wcache != h.wcache && PiecesApart(f.pieces, h.pieces)
  }

  ghost predicate Hosted(fs: seq<ZnsFile>, z: Ztl)
    reads z, fs, set f: ZnsFile | f in fs :: f.wcache
  {
    z.Valid() && (forall i :: 0 <= i < |fs| ==> fs[i].z == z && fs[i].Valid() && fs[i].cacheOff <= fs[i].size) &&
    forall i, j :: 0 <= i < |fs| && 0 <= j < |fs| && i != j ==> Separate(fs[i], fs[j])
  }

  // ----- the units behind the pieces

  /** The units of every piece, padding included. */
  ghost function Units(g: Group, ps: seq<Piece>): (units: seq<seq<Byte>>)
    requires AllMapped(g, ps)
    ensures |units| == |ps|
  {
    seq(|ps|, i requires 0 <= i < |ps| => Payload(g, ps[i].(padding := 0)))
  }

  /** The units one after the other, each less the padding of its piece. */
  ghost function Joined(ps: seq<Piece>, units: seq<seq<Byte>>): seq<Byte>
    requires |units| == |ps|
  {
    if ps == [] then []
    else
      var n := |ps| - 1;
      var rest := Joined(ps[..n], units[..n]);
      if ps[n].padding <= |units[n]| then rest + units[n][..|units[n]| - ps[n].padding] else rest
  }

  /** The bytes of a file are its units less their padding. */
  lemma {:induction false} JoinedPayloads(g: Group, ps: seq<Piece>)
    requires AllMapped(g, ps)
    ensures Joined(ps, Units(g, ps)) == Payloads(g, ps)
  {
    if ps != [] {
      var n := |ps| - 1;
      JoinedPayloads(g, ps[..n]);
      assert Units(g, ps)[..n] == Units(g, ps[..n]);
      var p := ps[n];
      assert Mapped(g, p);
      SliceOfSlice(g.nodes[p.node].img, p.start * UNIT, p.num * UNIT, 0, Len(p));
    }
  }

  lemma {:induction false} UnpaddedUnits(g: Group, ps: seq<Piece>, nid: nat)
    requires AllMapped(g, ps)
    ensures AllMapped(g, Unpad(ps, nid)) && Units(g, Unpad(ps, nid)) == Units(g, ps)
  {
    forall i | 0 <= i < |ps| ensures Mapped(g, Unpad(ps, nid)[i]) {
      assert Mapped(g, ps[i]);
    }
  }

  // ----- one step

  /** `Creating` is NewWritableFile on the name of file `j`, deleted or not; `Renaming` is RenameFile of file `src`
      onto the name of file `j`, which is itself when the names are equal.  `Recycling` is the management thread. */
  datatype FleetOp = Do(j: nat, op: FileOp) | Closing(j: nat) | Migrating(j: nat, nid: nat) | Deleting(j: nat)
                   | Creating(j: nat) | Renaming(j: nat, src: nat) | Recycling(n: nat)

  /** The object at the name is dropped with its pieces, and these are not trimmed. */
  predicate Forgets(op: FleetOp) {
    op.Creating? || op.Renaming?
  }

  predicate Targets(op: FleetOp, i: nat) {
    !op.Recycling? && op.j == i
  }

  /** A file as its users see it, the units of its pieces, and the space of its level. */
  datatype Snap = Snap(content: seq<Byte>, size: nat, cached: nat, isOpen: bool, room: nat, pieces: seq<Piece>,
                       units: seq<seq<Byte>>)

  ghost function SnapIn(g: Group, ps: seq<Piece>, cache: seq<Byte>, size: nat, isOpen: bool, level: int)
      : (a: Snap)
    requires Lists(g) && Queues(g) && AllMapped(g, ps)
    ensures a.pieces == ps
  {
    HeadsInRange(g, ClampLevel(level));
    Snap(Payloads(g, ps) + cache, size, |cache|, isOpen, Space(g, ClampLevel(level)), ps, Units(g, ps))
  }

  ghost function SnapOf(f: ZnsFile): Snap
    requires f.Valid()
    reads f, f.z, f.wcache
  {
    SnapIn(f.z.State(), f.pieces, f.wcache[..f.cacheOff], f.size, f.isOpen, f.level)
  }

  predicate SameFile(a: Snap, b: Snap) {
    a.content == b.content && a.size == b.size && a.cached == b.cached && a.isOpen == b.isOpen
  }

  /** Nothing changed but the space. */
  predicate SameSnap(a: Snap, b: Snap) {
    SameFile(a, b) && a.pieces == b.pieces && a.units == b.units
  }

  /** What the operation does to its own file.  Writes refine the byte sequence while the space lasts.  A
      migration moves whole units, so the padding of the pieces in the victim becomes part of the file: the
      bytes of the file stay a prefix if only its last piece is padded. */
  ghost predicate OwnStep(a: Snap, b: Snap, op: FleetOp) {
    match op
    case Do(_, fop) =>
      (a.isOpen && a.size == |a.content| && Feasible(Abstract(a.content, a.cached, a.room), fop) ==>
        Abstract(b.content, b.cached, b.room) == Apply(Abstract(a.content, a.cached, a.room), fop) &&
        b.size == |b.content| && b.isOpen) &&
      (!a.isOpen ==> SameFile(a, b))
    case Closing(_) =>
      b.cached == 0 && !b.isOpen && b.size == a.size && (AlignUp(a.cached) / UNIT <= a.room ==> b.content == a.content)
    case Migrating(_, nid) =>
      if a.isOpen then SameSnap(a, b)
      else
        b.size == a.size && b.cached == a.cached && !b.isOpen &&
        (forall i :: 0 <= i < |b.pieces| ==> b.pieces[i].node != nid) &&
        |a.units| == |a.pieces| && b.content == Joined(Unpad(a.pieces, nid), a.units) &&
        (PaddedLast(a.pieces, nid) ==> a.content <= b.content)
    case Deleting(_) => b.content == [] && b.pieces == [] && b.size == 0 && b.cached == 0 && !b.isOpen
    case Creating(_) => b.content == [] && b.pieces == [] && b.size == 0 && b.cached == 0 && b.isOpen
    case Renaming(_, _) => b.content == [] && b.pieces == [] && b.size == 0 && b.cached == 0 && !b.isOpen
    case Recycling(_) => true
  }

  /** What the code relies on: the sizes of a truncation fit 64 bits, the copies of a migration find space and
      its victim is on the full list, and a node is reset only from there.  A file being written is not
      migrated; the code leaves it alone. */
  ghost predicate CanDo(f: ZnsFile, op: FleetOp)
    requires f.Valid()
    reads f, f.z, f.wcache
  {
    match op
    case Do(_, fop) => fop.Truncating? ==> fop.len < WORD && f.size < WORD
    case Migrating(_, nid) => f.isOpen || (nid in f.z.full && UnitsIn(f.pieces, nid) <= f.Room())
    case _ => true
  }

  ghost predicate BehindOne(ps: seq<Piece>, q: Live) {
    exists k :: 0 <= k < |ps| && Matches(q, ps[k])
  }

  /** The pieces that stop being live are all the file's own. */
  ghost predicate OnlyOwn(live: seq<Live>, live': seq<Live>, ps: seq<Piece>) {
    forall q :: q in live && q !in live' ==> BehindOne(ps, q)
  }

  /** The count of every node changed by what the pieces gained or lost there. */
  ghost predicate Counted(g: Group, g': Group, ps: seq<Piece>, ps': seq<Piece>) {
    |g'.nodes| == |g.nodes| && forall n :: 0 <= n < |g.nodes| ==>
      g'.nodes[n].valid + UnitsIn(ps, n) == g.nodes[n].valid + UnitsIn(ps', n)
  }

  /** What the rest of the group sees of an operation on a file with pieces `ps`. */
  ghost predicate Framed(g: Group, live: seq<Live>, g': Group, live': seq<Live>, ps: seq<Piece>, ps': seq<Piece>) {
    OnlyOwn(live, live', ps) && Novel(live, live', ps, ps') && Counted(g, g', ps, ps')
  }

  lemma {:induction false} GrewFramed(g: Group, live: seq<Live>, g': Group, live': seq<Live>, ps: seq<Piece>,
                                      ps': seq<Piece>)
    requires Inv(g, live) && Inv(g', live') && |g'.nodes| == |g.nodes| && Grew(live, live', ps, ps')
    ensures Framed(g, live, g', live', ps, ps')
  {
    forall q | q in live ensures q in live' {
      InPrefix(live, live', q);
    }
    assert Tally(live, live', ps, ps');
  }

  lemma {:induction false} StaysBelow(cached: nat, len: nat)
    requires cached <= MAX_BUF
    ensures StaysCached(cached, len) <= cached + len
    decreases len + cached
  {
    if cached + len > MAX_BUF {
      StaysBelow(0, len - (MAX_BUF - cached));
    }
  }

  /** An operation of the file layer on one file of the group. */
  method OnFile(f: ZnsFile, op: FileOp)
    requires f.Valid() && f.cacheOff <= f.size && CanDo(f, Do(0, op))
    modifies f, f.wcache, f.z
    ensures f.Valid() && f.cacheOff <= f.size && |f.z.nodes| == |old(f.z.nodes)|
    ensures Grew(old(f.z.live), f.z.live, old(f.pieces), f.pieces)
    ensures OwnStep(old(SnapOf(f)), SnapOf(f), Do(0, op))
  {
    hide Inv, Payloads, Space, Payload, Mapped, AllOwned, Grew, AllMapped, PairwiseApart, Units, Tailq.LinkedTo;
    hide FullBuffers, StaysCached, CanGet, Lists, Queues;
    GrewSame(f.z.live, f.pieces);
    match op {
      case Appending(data) =>
        StaysBelow(f.cacheOff, |data|);
        var _ := f.Append(data);
      case Syncing => f.Sync();
      case Truncating(len) => f.Truncate(len);
    }
  }

  lemma {:induction false} MovedFramed(g: Group, live: seq<Live>, g': Group, live': seq<Live>, ps: seq<Piece>,
                                       nid: nat, ps': seq<Piece>)
    requires Moved(g, g', ps, nid, ps') && OnlyDropped(live, live', ps, |ps|, nid) && Novel(live, live', ps, ps')
    ensures Framed(g, live, g', live', ps, ps')
  {
    hide Novel;
    forall q | q in live && q !in live' ensures BehindOne(ps, q) {
      assert Dropped(ps, |ps|, nid, q);
    }
  }

  /** The bytes of a migrated file. */
  lemma {:induction false} MovedBytes(g: Group, g': Group, ps: seq<Piece>, nid: nat, ps': seq<Piece>)
    requires Moved(g, g', ps, nid, ps') && AllMapped(g, ps)
    ensures AllMapped(g', ps') && Payloads(g', ps') == Joined(Unpad(ps, nid), Units(g, ps))
  {
    UnpaddedUnits(g, ps, nid);
    JoinedPayloads(g, Unpad(ps, nid));
  }

  /** MigrateNodeFile as the collector calls it. */
  method MoveFile(f: ZnsFile, nid: nat)
    requires f.Valid() && CanDo(f, Migrating(0, nid))
    modifies f, f.z
    ensures f.Valid() && f.size == old(f.size) && f.cacheOff == old(f.cacheOff)
    ensures Framed(old(f.z.State()), old(f.z.live), f.z.State(), f.z.live, old(f.pieces), f.pieces)
    ensures OwnStep(old(SnapOf(f)), SnapOf(f), Migrating(0, nid))
  {
    hide Inv, Payloads, Payload, Space, Mapped, AllOwned, Novel, Grew, AllMapped, PairwiseApart, OnlyDropped, Moved;
    hide Framed, Units, Joined, Unpad;
    ghost var g, live, ps := f.z.State(), f.z.live, f.pieces;
    GrewSame(f.z.live, f.pieces);
    if f.isOpen {
      GrewFramed(g, live, g, live, ps, ps);
      return;
    }
    Migrate(f, nid);
    MovedFramed(g, live, f.z.State(), f.z.live, ps, nid, f.pieces);
    MovedBytes(g, f.z.State(), ps, nid, f.pieces);
    MovedAway(g, f.z.State(), ps, nid, f.pieces);
  }

  lemma {:induction false} MovedAway(g: Group, g': Group, ps: seq<Piece>, nid: nat, ps': seq<Piece>)
    requires Moved(g, g', ps, nid, ps')
    ensures forall i :: 0 <= i < |ps'| ==> ps'[i].node != nid
  {
  }

  // ----- deleting

  /** The first `i` pieces were trimmed: they alone stopped being live, and their units are given back. */
  ghost predicate TrimmedTo(live0: seq<Live>, live: seq<Live>, ps: seq<Piece>, i: nat) {
    i <= |ps| && AllOwned(live, ps[i..]) && OnlyOwn(live0, live, ps) &&
    forall n :: LiveUnits(live, n) + UnitsIn(ps[..i], n) == LiveUnits(live0, n)
  }

  lemma {:induction false} TrimOneMore(g: Group, live0: seq<Live>, live: seq<Live>, ps: seq<Piece>, i: nat, x: nat)
    requires Inv(g, live) && TrimmedTo(live0, live, ps, i) && i < |ps| && PairwiseApart(ps)
    requires x < |live| && Matches(live[x], ps[i])
    ensures TrimmedTo(live0, live[..x] + live[x + 1..], ps, i + 1)
  {
    hide Inv;
    var rest := live[..x] + live[x + 1..];
    forall k | i < k < |ps| ensures Owned(rest, ps[k]) {
      assert Owned(live, ps[i..][k - i]);
      var q :| q in live && Matches(q, ps[k]);
      assert !SamePlace(ps[i], ps[k]);
      OthersStay(g, live, x, ps[i], q, ps[k]);
    }
    forall q | q in live && q != live[x] ensures q in rest {
      var y :| 0 <= y < |live| && live[y] == q;
      assert rest[if y < x then y else y - 1] == q;
    }
    assert BehindOne(ps, live[x]);
    TakeOneMore(ps, 0, i);
    forall n ensures LiveUnits(rest, n) + UnitsIn(ps[..i + 1], n) == LiveUnits(live0, n) {
      LiveUnitsRemoved(live, x, n);
      assert UnitsIn(ps[..i + 1], n) == UnitsIn(ps[..i], n) + if ps[i].node == n then ps[i].num else 0;
    }
  }

  /** The trimming loop of DeleteFile. */
  method TrimAll(z: Ztl, ps: seq<Piece>)
    requires z.Valid() && AllOwned(z.live, ps) && PairwiseApart(ps)
    modifies z
    ensures z.Valid() && |z.nodes| == |old(z.nodes)| && TrimmedTo(old(z.live), z.live, ps, |ps|)
  {
    ghost var live0 := z.live;
    var i := 0;
    assert ps[0..] == ps && UnitsIn(ps[..0], 0) == 0;
    hide Inv, AllOwned;
    while i < |ps|
      invariant 0 <= i <= |ps| && z.Valid() && |z.nodes| == |old(z.nodes)| && TrimmedTo(live0, z.live, ps, i)
    {
      ghost var x := FirstOwned(z.live, ps, i);
      TrimOneMore(z.State(), live0, z.live, ps, i, x);
      hide TrimmedTo, Trim;
      z.TrimPiece(ps[i], x);
      i := i + 1;
    }
  }

  lemma {:induction false} FirstOwned(live: seq<Live>, ps: seq<Piece>, i: nat) returns (x: nat)
    requires i < |ps| && AllOwned(live, ps[i..])
    ensures x < |live| && Matches(live[x], ps[i])
  {
    assert Owned(live, ps[i..][0]);
    var q :| q in live && Matches(q, ps[i]);
    x :| 0 <= x < |live| && live[x] == q;
  }

  lemma {:induction false} DeletedFramed(g: Group, live: seq<Live>, g': Group, live': seq<Live>, ps: seq<Piece>)
    requires Inv(g, live) && Inv(g', live') && |g'.nodes| == |g.nodes| && TrimmedTo(live, live', ps, |ps|)
    ensures Framed(g, live, g', live', ps, [])
  {
    assert ps[..|ps|] == ps;
  }

  /** DeleteFile: every unit of the file is given back; the object goes. */
  method Delete(f: ZnsFile)
    requires f.Valid()
    modifies f, f.z
    ensures f.Valid() && f.size == 0 && f.cacheOff == 0
    ensures Framed(old(f.z.State()), old(f.z.live), f.z.State(), f.z.live, old(f.pieces), [])
    ensures OwnStep(old(SnapOf(f)), SnapOf(f), Deleting(0))
  {
    hide Inv, Framed, TrimmedTo;
    ghost var g, live, ps := f.z.State(), f.z.live, f.pieces;
    TrimAll(f.z, f.pieces);
    DeletedFramed(g, live, f.z.State(), f.z.live, ps);
    f.pieces, f.cacheOff, f.size, f.isOpen := [], 0, 0, false;
  }

  /** NewWritableFile on a name: the object there, if any, is replaced by an empty one and its pieces are
      forgotten, not trimmed. */
  method Create(f: ZnsFile)
    requires f.Valid()
    modifies f
    ensures f.Valid() && f.size == 0 && f.cacheOff == 0 && OwnStep(old(SnapOf(f)), SnapOf(f), Creating(0))
  {
    f.pieces, f.cacheOff, f.size, f.level, f.isOpen := [], 0, 0, 0, true;
  }

  /** RenameFile onto a name: the object there is unreachable from then on, its pieces are forgotten.  The renamed
      file is not touched. */
  method Forget(f: ZnsFile)
    requires f.Valid()
    modifies f
    ensures f.Valid() && f.size == 0 && f.cacheOff == 0
    ensures OwnStep(old(SnapOf(f)), SnapOf(f), Renaming(0, 0))
  {
    f.pieces, f.cacheOff, f.size, f.isOpen := [], 0, 0, false;
  }

  // ----- the others

  /** Pieces that stay live keep their units. */
  lemma {:induction false} Unmoved(g: Group, live: seq<Live>, g': Group, live': seq<Live>, ps: seq<Piece>)
    requires Inv(g, live) && Inv(g', live') && AllKept(live, live', ps)
    ensures AllOwned(live', ps) && AllMapped(g, ps) && AllMapped(g', ps)
    ensures Payloads(g, ps) == Payloads(g', ps) && Units(g, ps) == Units(g', ps)
  {
    hide Inv, Payloads, Mapped, Payload;
    KeptPayloads(g, live, g', live', ps);
    MigrateOwned(live, live', ps);
    forall i | 0 <= i < |ps| ensures Units(g, ps)[i] == Units(g', ps)[i] {
      assert Kept(live, live', ps[i]);
      var q :| q in live && q in live' && Matches(q, ps[i]);
      KeptPayload(g, live, q, ps[i].(padding := 0));
      KeptPayload(g', live', q, ps[i].(padding := 0));
    }
  }

  /** A step gives up no piece of a file that shares no place with its own. */
  lemma {:induction false} OthersKept(live: seq<Live>, live': seq<Live>, ps: seq<Piece>, other: seq<Piece>)
    requires OnlyOwn(live, live', ps) && AllOwned(live, other) && PiecesApart(ps, other)
    ensures AllKept(live, live', other)
  {
    forall y | 0 <= y < |other| ensures Kept(live, live', other[y]) {
      assert Owned(live, other[y]);
      var q :| q in live && Matches(q, other[y]);
      forall x | 0 <= x < |ps| ensures !Matches(q, ps[x]) {
        assert !SamePlace(ps[x], other[y]);
      }
      assert !BehindOne(ps, q);
    }
  }

  lemma {:induction false} StayApart(g': Group, live: seq<Live>, live': seq<Live>, ps: seq<Piece>, ps': seq<Piece>,
                                     other: seq<Piece>)
    requires Inv(g', live') && Novel(live, live', ps, ps') && PiecesApart(ps, other) && AllKept(live, live', other)
    ensures PiecesApart(ps', other) && PiecesApart(other, ps')
  {
    hide Inv;
    forall x, y | 0 <= x < |ps'| && 0 <= y < |other| ensures !SamePlace(ps'[x], other[y]) {
      assert NovelPiece(live, live', ps, ps'[x]) && Kept(live, live', other[y]);
      if ps'[x] !in ps && SamePlace(ps'[x], other[y]) {
        var q :| q in live' && q !in live && Matches(q, ps'[x]);
        var r :| r in live && r in live' && Matches(r, other[y]);
        var a :| 0 <= a < |live'| && live'[a] == q;
        var b :| 0 <= b < |live'| && live'[b] == r;
        LivePlace(g', live', a, b);
      }
    }
  }

  /** The pieces of another file are where they were, with their units, away from the file's own. */
  ghost predicate Unharmed(g: Group, g': Group, live': seq<Live>, own: seq<Piece>, other: seq<Piece>) {
    AllOwned(live', other) && AllMapped(g, other) && AllMapped(g', other) &&
    Payloads(g, other) == Payloads(g', other) && Units(g, other) == Units(g', other) &&
    PiecesApart(own, other) && PiecesApart(other, own)
  }

  /** What a step leaves of another file. */
  lemma {:induction false} OtherFile(g: Group, live: seq<Live>, g': Group, live': seq<Live>, ps: seq<Piece>,
                                     ps': seq<Piece>, other: seq<Piece>)
    requires Inv(g, live) && Inv(g', live') && OnlyOwn(live, live', ps) && Novel(live, live', ps, ps')
    requires AllOwned(live, other) && PiecesApart(ps, other)
    ensures Unharmed(g, g', live', ps', other)
  {
    hide Inv, Novel, OnlyOwn, AllOwned, AllMapped, Payloads, Units, PiecesApart;
    OthersKept(live, live', ps, other);
    Unmoved(g, live, g', live', other);
    StayApart(g', live, live', ps, ps', other);
  }

  /** The pieces whose units the step accounts for: those of a file created or renamed over are forgotten. */
  ghost function Accounted(op: FleetOp, ps: seq<Piece>): seq<Piece> {
    if Forgets(op) then [] else ps
  }

  lemma {:induction false} CreatedFramed(g: Group, live: seq<Live>, ps: seq<Piece>)
    ensures OnlyOwn(live, live, ps) && Novel(live, live, ps, []) && Counted(g, g, [], [])
  {
  }

  /** The operation on its own file. */
  method OnOwn(f: ZnsFile, op: FleetOp)
    requires f.Valid() && f.cacheOff <= f.size && !op.Recycling? && CanDo(f, op)
    modifies f, f.wcache, f.z
    ensures f.Valid() && f.cacheOff <= f.size && OwnStep(old(SnapOf(f)), SnapOf(f), op)
    ensures OnlyOwn(old(f.z.live), f.z.live, old(f.pieces))
    ensures Novel(old(f.z.live), f.z.live, old(f.pieces), f.pieces)
    ensures Counted(old(f.z.State()), f.z.State(), Accounted(op, old(f.pieces)), f.pieces)
  {
    hide Inv, Payloads, Space, Payload, Mapped, AllOwned, Grew, Novel, AllMapped, PairwiseApart, OnlyOwn, Counted;
    hide Units;
    ghost var g, live, ps := f.z.State(), f.z.live, f.pieces;
    match op {
      case Do(_, fop) =>
        OnFile(f, fop);
        GrewFramed(g, live, f.z.State(), f.z.live, ps, f.pieces);
      case Closing(_) =>
        f.Close();
        GrewFramed(g, live, f.z.State(), f.z.live, ps, f.pieces);
      case Migrating(_, nid) => MoveFile(f, nid);
      case Deleting(_) => Delete(f);
      case Creating(_) =>
        Create(f);
        CreatedFramed(g, live, ps);
      case Renaming(_, _) =>
        Forget(f);
        CreatedFramed(g, live, ps);
    }
  }

  /** The operation on its own file, among the pieces of others. */
  method OnOwnAmong(f: ZnsFile, op: FleetOp, ghost others: seq<seq<Piece>>)
    requires f.Valid() && f.cacheOff <= f.size && !op.Recycling? && CanDo(f, op)
    requires forall i :: 0 <= i < |others| ==> AllOwned(f.z.live, others[i]) && PiecesApart(f.pieces, others[i])
    modifies f, f.wcache, f.z
    ensures f.Valid() && f.cacheOff <= f.size && OwnStep(old(SnapOf(f)), SnapOf(f), op)
    ensures forall i :: 0 <= i < |others| ==>
      Unharmed(old(f.z.State()), f.z.State(), f.z.live, f.pieces, others[i])
    ensures Counted(old(f.z.State()), f.z.State(), Accounted(op, old(f.pieces)), f.pieces)
  {
    hide Inv, Payloads, Space, Mapped, AllOwned, Novel, AllMapped, PairwiseApart, OnlyOwn, OwnStep, PiecesApart;
    hide SnapOf, Unharmed, Counted, CanDo;
    ghost var g, live, ps := f.z.State(), f.z.live, f.pieces;
    OnOwn(f, op);
    forall i | 0 <= i < |others| ensures Unharmed(g, f.z.State(), f.z.live, f.pieces, others[i]) {
      OtherFile(g, live, f.z.State(), f.z.live, ps, f.pieces, others[i]);
    }
  }

  /** The pieces of all files but one. */
  ghost function OtherPieces(fs: seq<ZnsFile>, j: nat): (others: seq<seq<Piece>>)
    reads fs
    ensures |others| == |fs| && forall i :: 0 <= i < |fs| && i != j ==> others[i] == fs[i].pieces
    ensures j < |fs| ==> others[j] == []
  {
    seq(|fs|, i requires 0 <= i < |fs| reads fs => if i == j then [] else fs[i].pieces)
  }

  ghost predicate CanStep(fs: seq<ZnsFile>, z: Ztl, op: FleetOp)
    requires Hosted(fs, z)
    reads z, fs, set f: ZnsFile | f in fs :: f.wcache
  {
    if op.Recycling? then op.n < |z.nodes| && z.nodes[op.n].status == Reset && op.n in z.full
    else op.j < |fs| && CanDo(fs[op.j], op)
  }

  /** A file whose pieces were left alone is what it was. */
  lemma {:induction false} SnapKept(g: Group, g': Group, live': seq<Live>, own: seq<Piece>, ps: seq<Piece>,
                                    cache: seq<Byte>, size: nat, isOpen: bool, level: int)
    requires Lists(g) && Queues(g) && Lists(g') && Queues(g') && Unharmed(g, g', live', own, ps)
    ensures SameSnap(SnapIn(g, ps, cache, size, isOpen, level), SnapIn(g', ps, cache, size, isOpen, level))
  {
    hide Payloads, Space, AllOwned, AllMapped, PiecesApart, Units;
  }

  lemma {:induction false} OthersOf(fs: seq<ZnsFile>, z: Ztl, j: nat)
    requires Hosted(fs, z) && j < |fs|
    ensures forall i :: 0 <= i < |fs| ==>
      AllOwned(z.live, OtherPieces(fs, j)[i]) && PiecesApart(fs[j].pieces, OtherPieces(fs, j)[i])
  {
    hide Inv, Payloads, Mapped, AllMapped, PairwiseApart;
    forall i | 0 <= i < |fs|
      ensures AllOwned(z.live, OtherPieces(fs, j)[i]) && PiecesApart(fs[j].pieces, OtherPieces(fs, j)[i])
    {
      assert i != j ==> fs[i].Valid() && Separate(fs[j], fs[i]);
    }
  }

  lemma {:induction false} ValidLists(z: Ztl)
    requires z.Valid()
    ensures Lists(z.State()) && Queues(z.State())
  {
  }

  /** An operation on one of the files: it does its work, every other file is as it was. */
  method StepFile(fs: seq<ZnsFile>, z: Ztl, op: FleetOp)
    requires Hosted(fs, z) && !op.Recycling? && CanStep(fs, z, op)
    modifies z, fs, set f: ZnsFile | f in fs :: f.wcache
    ensures Hosted(fs, z) && OwnStep(old(SnapOf(fs[op.j])), SnapOf(fs[op.j]), op)
    ensures forall i :: 0 <= i < |fs| && i != op.j ==> SameSnap(old(SnapOf(fs[i])), SnapOf(fs[i]))
    ensures Counted(old(z.State()), z.State(), Accounted(op, old(fs[op.j].pieces)), fs[op.j].pieces)
  {
    hide Inv, Payloads, Space, Mapped, AllOwned, AllMapped, PairwiseApart, OwnStep, PiecesApart, Units, Counted;
    hide SnapIn, SameSnap, CanDo, Accounted;
    ghost var others := OtherPieces(fs, op.j);
    assert fs[op.j] in fs;
    OthersOf(fs, z, op.j);
    ValidLists(z);
    OnOwnAmong(fs[op.j], op, others);
    ValidLists(z);
    forall i | 0 <= i < |fs| && i != op.j
      ensures fs[i].Valid() && SameSnap(old(SnapOf(fs[i])), SnapOf(fs[i])) && Separate(fs[op.j], fs[i]) &&
        Separate(fs[i], fs[op.j])
    {
      var f := fs[i];
      assert Unharmed(old(z.State()), z.State(), z.live, fs[op.j].pieces, others[i]);
      SnapKept(old(z.State()), z.State(), z.live, fs[op.j].pieces, f.pieces, f.wcache[..f.cacheOff], f.size, f.isOpen,
               f.level);
    }
  }

  /** A reset takes no piece from any file. */
  method StepNode(fs: seq<ZnsFile>, z: Ztl, n: nat)
    requires Hosted(fs, z) && CanStep(fs, z, Recycling(n))
    modifies z
    ensures Hosted(fs, z) && forall i :: 0 <= i < |fs| ==> SameSnap(old(SnapOf(fs[i])), SnapOf(fs[i]))
    ensures Counted(old(z.State()), z.State(), [], []) && old(z.nodes[n].valid) == 0
  {
    ghost var g, live := z.State(), z.live;
    assert NodeOk(g, n);
    hide Inv, Payloads, Space, Mapped, AllOwned, AllMapped, PairwiseApart, PiecesApart, Units;
    z.Recycle(n);
    forall i | 0 <= i < |fs| ensures fs[i].Valid() && SameSnap(old(SnapOf(fs[i])), SnapOf(fs[i])) {
      assert AllOwned(live, fs[i].pieces);
      PrefixKept(live, live, fs[i].pieces);
      Unmoved(g, live, z.State(), live, fs[i].pieces);
    }
  }

  // ----- whole runs

  /** The files and the valid counts of the nodes. */
  datatype View = View(files: seq<Snap>, valid: seq<nat>)

  ghost function Snaps(fs: seq<ZnsFile>, z: Ztl): (a: seq<Snap>)
    requires Hosted(fs, z)
    reads z, fs, set f: ZnsFile | f in fs :: f.wcache
    ensures |a| == |fs| && forall i :: 0 <= i < |fs| ==> a[i] == SnapOf(fs[i])
  {
    seq(|fs|, i requires 0 <= i < |fs| && Hosted(fs, z)
      reads z, fs, set f: ZnsFile | f in fs :: f.wcache => SnapOf(fs[i]))
  }

  ghost function Counts(nodes: seq<Node>): (valid: seq<nat>)
    ensures |valid| == |nodes| && forall n :: 0 <= n < |nodes| ==> valid[n] == nodes[n].valid
  {
    seq(|nodes|, n requires 0 <= n < |nodes| => nodes[n].valid)
  }

  ghost function ViewOf(fs: seq<ZnsFile>, z: Ztl): View
    requires Hosted(fs, z)
    reads z, fs, set f: ZnsFile | f in fs :: f.wcache
  {
    View(Snaps(fs, z), Counts(z.nodes))
  }

  /** A piece has at least one unit, on some node of the group. */
  ghost predicate PiecesOnNodes(a: View) {
    forall i, k :: 0 <= i < |a.files| && 0 <= k < |a.files[i].pieces| ==>
      a.files[i].pieces[k].num > 0 && a.files[i].pieces[k].node < |a.valid|
  }

  lemma {:induction false} HostedPieces(fs: seq<ZnsFile>, z: Ztl)
    requires Hosted(fs, z)
    ensures PiecesOnNodes(ViewOf(fs, z))
  {
    hide Inv, Payloads, Space, AllOwned, PairwiseApart, Units, Separate;
    forall i, k | 0 <= i < |fs| && 0 <= k < |fs[i].pieces|
      ensures fs[i].pieces[k].num > 0 && fs[i].pieces[k].node < |z.nodes|
    {
      assert fs[i].Valid();
      assert Mapped(z.State(), fs[i].pieces[k]);
    }
  }

  /** Units that the files together have in node `n`. */
  ghost function FilesUnits(files: seq<Snap>, n: nat): nat {
    if files == [] then 0 else FilesUnits(files[..|files| - 1], n) + UnitsIn(files[|files| - 1].pieces, n)
  }

  /** Units that the step forgets without giving them back. */
  ghost function Forgotten(a: View, op: FleetOp, n: nat): nat {
    if Forgets(op) && op.j < |a.files| then UnitsIn(a.files[op.j].pieces, n) else 0
  }

  /** Every count changed by what the files gained or lost in the node, but for the units forgotten. */
  ghost predicate CountsFollow(a: View, b: View, op: FleetOp) {
    |b.valid| == |a.valid| && forall n :: 0 <= n < |a.valid| ==>
      b.valid[n] + FilesUnits(a.files, n) == a.valid[n] + FilesUnits(b.files, n) + Forgotten(a, op, n)
  }

  ghost predicate FleetStep(a: View, b: View, op: FleetOp) {
    |a.files| == |b.files| && CountsFollow(a, b, op) &&
    (if op.Recycling? then op.n < |a.valid| && a.valid[op.n] == 0
     else op.j < |a.files| && OwnStep(a.files[op.j], b.files[op.j], op)) &&
    forall i :: 0 <= i < |a.files| && !Targets(op, i) ==> SameSnap(a.files[i], b.files[i])
  }

  lemma {:induction false} FilesUnitsChange(a: seq<Snap>, b: seq<Snap>, j: nat, n: nat)
    requires |a| == |b| && forall i :: 0 <= i < |a| && i != j ==> a[i].pieces == b[i].pieces
    ensures FilesUnits(b, n) + (if j < |a| then UnitsIn(a[j].pieces, n) else 0)
         == FilesUnits(a, n) + (if j < |a| then UnitsIn(b[j].pieces, n) else 0)
  {
    if a != [] {
      FilesUnitsChange(a[..|a| - 1], b[..|b| - 1], j, n);
    }
  }

  lemma {:induction false} CountsStep(a: View, b: View, g: Group, g': Group, op: FleetOp)
    requires |a.files| == |b.files| && a.valid == Counts(g.nodes) && b.valid == Counts(g'.nodes)
    requires forall i :: 0 <= i < |a.files| && !Targets(op, i) ==> a.files[i].pieces == b.files[i].pieces
    requires op.Recycling? ==> Counted(g, g', [], [])
    requires op.Recycling? || op.j < |a.files|
    requires op.Recycling? || OwnStep(a.files[op.j], b.files[op.j], op)
    requires op.Recycling? || Counted(g, g', Accounted(op, a.files[op.j].pieces), b.files[op.j].pieces)
    ensures CountsFollow(a, b, op)
  {
    forall n | 0 <= n < |a.valid|
      ensures b.valid[n] + FilesUnits(a.files, n) == a.valid[n] + FilesUnits(b.files, n) + Forgotten(a, op, n)
    {
      FilesUnitsChange(a.files, b.files, if op.Recycling? then |a.files| else op.j, n);
    }
  }

  /** One step of the group, whatever it is for. */
  method Step(fs: seq<ZnsFile>, z: Ztl, op: FleetOp)
    requires Hosted(fs, z) && CanStep(fs, z, op)
    modifies z, fs, set f: ZnsFile | f in fs :: f.wcache
    ensures Hosted(fs, z) && FleetStep(old(ViewOf(fs, z)), ViewOf(fs, z), op)
  {
    hide SnapIn, Counted, CanDo, Inv, OwnStep, CountsFollow, Accounted, Counts, FilesUnits;
    ghost var a, g := ViewOf(fs, z), z.State();
    if op.Recycling? {
      StepNode(fs, z, op.n);
    } else {
      StepFile(fs, z, op);
    }
    CountsStep(a, ViewOf(fs, z), g, z.State(), op);
  }

  /** The states of a run of operations on several files. */
  ghost predicate Trace(hist: seq<View>, ops: seq<FleetOp>) {
    |hist| == |ops| + 1 && (forall t :: 0 <= t < |hist| ==> PiecesOnNodes(hist[t])) &&
    forall t :: 0 <= t < |ops| ==> FleetStep(hist[t], hist[t + 1], ops[t])
  }

  lemma {:induction false} TraceMore(hist: seq<View>, ops: seq<FleetOp>, next: View, op: FleetOp)
    requires Trace(hist, ops) && FleetStep(hist[|hist| - 1], next, op) && PiecesOnNodes(next)
    ensures Trace(hist + [next], ops + [op])
  {
    hide FleetStep, PiecesOnNodes;
    var hist', ops' := hist + [next], ops + [op];
    forall t | 0 <= t < |ops'| ensures FleetStep(hist'[t], hist'[t + 1], ops'[t]) {
      assert t < |ops| ==> FleetStep(hist[t], hist[t + 1], ops[t]);
    }
  }

  /** Whether the code's reliance is met. */
  method Ready(fs: seq<ZnsFile>, z: Ztl, op: FleetOp) returns (ok: bool)
    requires Hosted(fs, z)
    ensures ok <==> CanStep(fs, z, op)
  {
    hide Inv, AllOwned, AllMapped, PairwiseApart, Separate;
    if op.Recycling? {
      return op.n < |z.nodes| && z.nodes[op.n].status == Reset && op.n in z.full;
    }
    if op.j >= |fs| {
      return false;
    }
    var f := fs[op.j];
    if op.Do? && op.op.Truncating? {
      return op.op.len < WORD && f.size < WORD;
    }
    if op.Migrating? {
      ValidLists(z);
      HeadsInRange(z.State(), ClampLevel(f.level));
      return f.isOpen || (op.nid in z.full && UnitsIn(f.pieces, op.nid) <= Space(z.State(), ClampLevel(f.level)));
    }
    return true;
  }

  /** Any run of creations, renames, appends, syncs, truncations, closes, migrations, deletions and resets over several
      files on one group, up to the first operation the code does not expect. */
  method RunAll(fs: seq<ZnsFile>, z: Ztl, ops: seq<FleetOp>) returns (done: nat, ghost hist: seq<View>)
    requires Hosted(fs, z)
    modifies z, fs, set f: ZnsFile | f in fs :: f.wcache
    ensures Hosted(fs, z) && done <= |ops| && Trace(hist, ops[..done])
    ensures hist[0] == old(ViewOf(fs, z)) && hist[done] == ViewOf(fs, z)
    ensures done < |ops| ==> !CanStep(fs, z, ops[done])
  {
    hide Hosted, OwnStep, FleetStep, SnapOf, CanStep, ViewOf, PiecesOnNodes;
    HostedPieces(fs, z);
    hist := [ViewOf(fs, z)];
    done := 0;
    assert Trace(hist, ops[..0]);
    while done < |ops|
      invariant 0 <= done <= |ops| && Hosted(fs, z) && |hist| == done + 1 && Trace(hist, ops[..done])
      invariant hist[0] == old(ViewOf(fs, z)) && hist[done] == ViewOf(fs, z)
    {
      var ok := Ready(fs, z, ops[done]);
      if !ok {
        return;
      }
      Step(fs, z, ops[done]);
      HostedPieces(fs, z);
      TraceMore(hist, ops[..done], ViewOf(fs, z), ops[done]);
      hide Trace;
      SplitLast(ops[..done + 1]);
      assert ops[..done + 1][..done] == ops[..done];
      hist := hist + [ViewOf(fs, z)];
      done := done + 1;
    }
  }

  /** A file that none of the operations between two points is for has the same content at both, whatever was
      written, migrated, deleted or reset meanwhile. */
  lemma {:induction false} UntouchedFile(hist: seq<View>, ops: seq<FleetOp>, i: nat, s: nat, t: nat)
    requires Trace(hist, ops) && s <= t < |hist| && i < |hist[s].files|
    requires forall u :: s <= u < t ==> !Targets(ops[u], i)
    ensures i < |hist[t].files| && SameSnap(hist[s].files[i], hist[t].files[i])
  {
    if s < t {
      UntouchedFile(hist, ops, i, s, t - 1);
      assert FleetStep(hist[t - 1], hist[t - 1 + 1], ops[t - 1]);
    }
  }

  // ----- the counts of the nodes

  /** Units forgotten in the first `t` steps. */
  ghost function AllForgotten(hist: seq<View>, ops: seq<FleetOp>, t: nat, n: nat): nat
    requires t <= |ops| && t <= |hist|
  {
    if t == 0 then 0 else AllForgotten(hist, ops, t - 1, n) + Forgotten(hist[t - 1], ops[t - 1], n)
  }

  /** The valid count of every node is the number of units the files have there. */
  ghost predicate CountsMatch(a: View) {
    forall n :: 0 <= n < |a.valid| ==> a.valid[n] == FilesUnits(a.files, n)
  }

  /** Over every run the count of a node exceeds the units of the files by exactly what was forgotten. */
  lemma {:induction false} ExcessIsForgotten(hist: seq<View>, ops: seq<FleetOp>, t: nat, n: nat)
    requires Trace(hist, ops) && t < |hist| && CountsMatch(hist[0]) && n < |hist[0].valid|
    ensures |hist[t].valid| == |hist[0].valid|
    ensures hist[t].valid[n] == FilesUnits(hist[t].files, n) + AllForgotten(hist, ops, t, n)
  {
    if t > 0 {
      ExcessIsForgotten(hist, ops, t - 1, n);
      assert FleetStep(hist[t - 1], hist[t - 1 + 1], ops[t - 1]);
    }
  }

  lemma {:induction false} ForgottenGrows(hist: seq<View>, ops: seq<FleetOp>, s: nat, t: nat, n: nat)
    requires s < t <= |ops| && t <= |hist|
    ensures AllForgotten(hist, ops, s, n) + Forgotten(hist[s], ops[s], n) <= AllForgotten(hist, ops, t, n)
  {
    if s < t - 1 {
      ForgottenGrows(hist, ops, s, t - 1, n);
    }
  }

  lemma {:induction false} NothingForgotten(hist: seq<View>, ops: seq<FleetOp>, t: nat, n: nat)
    requires t <= |ops| && t <= |hist| && forall s :: 0 <= s < t ==> Forgotten(hist[s], ops[s], n) == 0
    ensures AllForgotten(hist, ops, t, n) == 0
  {
    if t > 0 {
      NothingForgotten(hist, ops, t - 1, n);
    }
  }

  /** No step creates or renames a file over one that has pieces. */
  ghost predicate NeverOver(hist: seq<View>, ops: seq<FleetOp>) {
    forall t :: 0 <= t < |ops| && t < |hist| && Forgets(ops[t]) && ops[t].j < |hist[t].files| ==>
      hist[t].files[ops[t].j].pieces == []
  }

  /** The counts are right at the end of a run exactly when no file with pieces was created over or renamed
      onto: the units forgotten then are never given back. */
  lemma {:induction false} CountsMatchIff(hist: seq<View>, ops: seq<FleetOp>)
    requires Trace(hist, ops) && CountsMatch(hist[0])
    ensures CountsMatch(hist[|ops|]) <==> NeverOver(hist, ops)
  {
    var last := |ops|;
    hide FleetStep;
    if NeverOver(hist, ops) {
      forall n | 0 <= n < |hist[last].valid| ensures hist[last].valid[n] == FilesUnits(hist[last].files, n) {
        ValidLength(hist, ops, last);
        ExcessIsForgotten(hist, ops, last, n);
        NothingForgotten(hist, ops, last, n);
      }
    } else {
      var t :| 0 <= t < |ops| && Forgets(ops[t]) && ops[t].j < |hist[t].files| &&
        hist[t].files[ops[t].j].pieces != [];
      var ps := hist[t].files[ops[t].j].pieces;
      var n := ps[0].node;
      ValidLength(hist, ops, t);
      ValidLength(hist, ops, last);
      assert PiecesOnNodes(hist[t]);
      UnitsPrefix(ps, n, 0);
      ForgottenGrows(hist, ops, t, last, n);
      ExcessIsForgotten(hist, ops, last, n);
    }
  }

  lemma {:induction false} ValidLength(hist: seq<View>, ops: seq<FleetOp>, t: nat)
    requires Trace(hist, ops) && t < |hist|
    ensures |hist[t].valid| == |hist[0].valid|
  {
    if t > 0 {
      ValidLength(hist, ops, t - 1);
      assert FleetStep(hist[t - 1], hist[t - 1 + 1], ops[t - 1]);
    }
  }

  /** A node with forgotten units is never recycled again. */
  lemma {:induction false} ForgottenNodeStays(hist: seq<View>, ops: seq<FleetOp>, s: nat, t: nat, n: nat)
    requires Trace(hist, ops) && CountsMatch(hist[0]) && s < t < |ops| && n < |hist[0].valid|
    requires Forgotten(hist[s], ops[s], n) > 0
    ensures ops[t] != Recycling(n)
  {
    ExcessIsForgotten(hist, ops, t, n);
    ForgottenGrows(hist, ops, s, t, n);
    assert FleetStep(hist[t], hist[t + 1], ops[t]);
  }

  // ----- collecting a victim

  type Name = seq<Byte>

  /** The calls of MigrateNodeFile for the names listed under a victim: `table` says which file has a name now, and
      a name that no file has is skipped. */
  function Calls(table: map<Name, nat>, names: seq<Name>, nid: nat): (ops: seq<FleetOp>)
    ensures forall t :: 0 <= t < |ops| ==> ops[t].Migrating? && ops[t].nid == nid
  {
    if names == [] then []
    else
      var n := |names| - 1;
      Calls(table, names[..n], nid) + (if names[n] in table then [Migrating(table[names[n]], nid)] else [])
  }

  ghost predicate Calling(ops: seq<FleetOp>, i: nat) {
    exists t :: 0 <= t < |ops| && Targets(ops[t], i)
  }

  /** Some listed name is the name of file `i` now. */
  ghost predicate Reached(table: map<Name, nat>, names: seq<Name>, i: nat) {
    exists x :: 0 <= x < |names| && names[x] in table && table[names[x]] == i
  }

  lemma {:induction false} CallingIff(table: map<Name, nat>, names: seq<Name>, nid: nat, i: nat)
    ensures Calling(Calls(table, names, nid), i) <==> Reached(table, names, i)
  {
    if names != [] {
      var n := |names| - 1;
      var before, ops := Calls(table, names[..n], nid), Calls(table, names, nid);
      CallingIff(table, names[..n], nid, i);
      assert Reached(table, names, i) <==>
        Reached(table, names[..n], i) || (names[n] in table && table[names[n]] == i) by {
        if x :| 0 <= x < n && names[x] in table && table[names[x]] == i {
          assert names[..n][x] == names[x];
        }
      }
      if t :| 0 <= t < |before| && Targets(before[t], i) {
        assert ops[t] == before[t];
      }
      if names[n] in table && table[names[n]] == i {
        assert Targets(ops[|before|], i);
      }
    }
  }

  /** What the calls leave of a file in the victim. */
  lemma {:induction false} CollectedUnits(hist: seq<View>, ops: seq<FleetOp>, nid: nat, i: nat, t: nat)
    requires Trace(hist, ops) && t <= |ops| && i < |hist[0].files|
    requires forall u :: 0 <= u < |ops| ==> ops[u].Migrating? && ops[u].nid == nid
    ensures i < |hist[t].files| && hist[t].files[i].isOpen == hist[0].files[i].isOpen
    ensures UnitsIn(hist[t].files[i].pieces, nid)
      == if !hist[0].files[i].isOpen && Calling(ops[..t], i) then 0 else UnitsIn(hist[0].files[i].pieces, nid)
  {
    if t > 0 {
      CollectedUnits(hist, ops, nid, i, t - 1);
      assert FleetStep(hist[t - 1], hist[t - 1 + 1], ops[t - 1]);
      hide FleetStep, CountsFollow;
      StepUnits(hist[t - 1], hist[t], ops[t - 1], i);
      CallingStep(ops, i, t);
      hide Calling, UnitsIn, Targets;
    }
  }

  lemma {:induction false} CallingStep(ops: seq<FleetOp>, i: nat, t: nat)
    requires 0 < t <= |ops|
    ensures Calling(ops[..t], i) <==> Calling(ops[..t - 1], i) || Targets(ops[t - 1], i)
  {
    var before, now := ops[..t - 1], ops[..t];
    assert now[t - 1] == ops[t - 1];
    if u :| 0 <= u < t - 1 && Targets(before[u], i) {
      assert now[u] == before[u];
    }
    if u :| 0 <= u < t && Targets(now[u], i) && u != t - 1 {
      assert before[u] == now[u];
    }
  }

  lemma {:induction false} StepUnits(a: View, b: View, op: FleetOp, i: nat)
    requires FleetStep(a, b, op) && op.Migrating? && i < |a.files|
    ensures i < |b.files| && b.files[i].isOpen == a.files[i].isOpen
    ensures UnitsIn(b.files[i].pieces, op.nid)
      == if Targets(op, i) && !a.files[i].isOpen then 0 else UnitsIn(a.files[i].pieces, op.nid)
  {
    hide CountsFollow, Joined, Unpad, PaddedLast;
    if Targets(op, i) && !a.files[i].isOpen {
      NoUnits(b.files[i].pieces, op.nid);
    }
  }

  lemma {:induction false} FilesUnitsZero(files: seq<Snap>, n: nat)
    ensures FilesUnits(files, n) == 0 <==> forall i :: 0 <= i < |files| ==> UnitsIn(files[i].pieces, n) == 0
  {
    if files != [] {
      FilesUnitsZero(files[..|files| - 1], n);
    }
  }

  /** Collecting a victim empties it, so that it can be reset, exactly when every file with a unit there is closed
      and has a name that is listed under the victim. */
  lemma {:induction false} CollectEmptiesIff(hist: seq<View>, table: map<Name, nat>, names: seq<Name>, nid: nat)
    requires Trace(hist, Calls(table, names, nid)) && CountsMatch(hist[0]) && nid < |hist[0].valid|
    ensures var a, b := hist[0], hist[|hist| - 1];
      |b.valid| == |a.valid| &&
      (b.valid[nid] == 0 <==> forall i :: 0 <= i < |a.files| && UnitsIn(a.files[i].pieces, nid) > 0 ==>
        !a.files[i].isOpen && Reached(table, names, i))
  {
    var ops := Calls(table, names, nid);
    var last := |ops|;
    var a, b := hist[0], hist[last];
    ExcessIsForgotten(hist, ops, last, nid);
    NothingForgotten(hist, ops, last, nid);
    FilesUnitsZero(b.files, nid);
    SameCount(hist, ops, last);
    hide Trace, FilesUnits, Calls, Calling, Reached, CountsMatch;
    forall i | 0 <= i < |a.files|
      ensures UnitsIn(b.files[i].pieces, nid)
        == if !a.files[i].isOpen && Reached(table, names, i) then 0 else UnitsIn(a.files[i].pieces, nid)
    {
      CollectedUnits(hist, ops, nid, i, last);
      assert ops[..last] == ops;
      CallingIff(table, names, nid, i);
    }
  }

  lemma {:induction false} SameCount(hist: seq<View>, ops: seq<FleetOp>, t: nat)
    requires Trace(hist, ops) && t < |hist|
    ensures |hist[t].files| == |hist[0].files|
  {
    if t > 0 {
      SameCount(hist, ops, t - 1);
      assert FleetStep(hist[t - 1], hist[t - 1 + 1], ops[t - 1]);
    }
  }

  /** The failing input: the list of the victim is not changed by a rename.  A file that is listed under its old name
      only, or after a restart under none, keeps the victim from being reset. */
  lemma {:induction false} RenamedFileStays(hist: seq<View>, table: map<Name, nat>, names: seq<Name>, nid: nat, i: nat)
    requires Trace(hist, Calls(table, names, nid)) && CountsMatch(hist[0]) && nid < |hist[0].valid|
    requires i < |hist[0].files| && UnitsIn(hist[0].files[i].pieces, nid) > 0
    requires forall x :: 0 <= x < |names| && names[x] in table ==> table[names[x]] != i
    ensures |hist[|hist| - 1].valid| == |hist[0].valid| && hist[|hist| - 1].valid[nid] > 0
  {
    CollectEmptiesIff(hist, table, names, nid);
    assert !Reached(table, names, i);
  }

  /** One victim of the collector, as far as its migrations find space. */
  method Collect(fs: seq<ZnsFile>, z: Ztl, table: map<Name, nat>, names: seq<Name>, nid: nat)
      returns (complete: bool, ghost hist: seq<View>)
    requires Hosted(fs, z) && nid < |z.nodes| && CountsMatch(ViewOf(fs, z))
    modifies z, fs, set f: ZnsFile | f in fs :: f.wcache
    ensures Hosted(fs, z) && |hist| > 0 && hist[0] == old(ViewOf(fs, z))
    ensures complete ==> Trace(hist, Calls(table, names, nid)) && |z.nodes| == |old(z.nodes)|
    ensures complete ==> (z.nodes[nid].valid == 0 <==>
      forall i :: 0 <= i < |fs| && UnitsIn(old(fs[i].pieces), nid) > 0 ==>
        !old(fs[i].isOpen) && Reached(table, names, i))
  {
    var ops := Calls(table, names, nid);
    var done;
    hide OwnStep, FleetStep, Trace, Calls, SnapOf, CanStep, CountsMatch, Reached, UnitsIn;
    CollectView(fs, z);
    done, hist := RunAll(fs, z, ops);
    TraceLength(hist, ops[..done]);
    complete := done == |ops|;
    if complete {
      assert ops[..done] == ops;
      CollectEmptiesIff(hist, table, names, nid);
      CollectView(fs, z);
    }
  }

  lemma {:induction false} TraceLength(hist: seq<View>, ops: seq<FleetOp>)
    requires Trace(hist, ops)
    ensures |hist| == |ops| + 1
  {
  }

  lemma {:induction false} CollectView(fs: seq<ZnsFile>, z: Ztl)
    requires Hosted(fs, z)
    ensures var a := ViewOf(fs, z);
      |a.files| == |fs| && |a.valid| == |z.nodes| &&
      (forall i :: 0 <= i < |fs| ==> a.files[i].pieces == fs[i].pieces && a.files[i].isOpen == fs[i].isOpen) &&
      forall n :: 0 <= n < |z.nodes| ==> a.valid[n] == z.nodes[n].valid
  {
    hide Inv, Payloads, Space, Units;
  }

  // ----- what a new, a deleted and a closed file are good for

  /** A file just created takes what is appended, and nothing of what was there before. */
  lemma {:induction false} CreatedTakesAppends(a: Snap, b: Snap, c: Snap, data: seq<Byte>)
    requires OwnStep(a, b, Creating(0)) && OwnStep(b, c, Do(0, Appending(data)))
    requires FullBuffers(0, |data|) * BUF_UNITS <= b.room
    ensures c.content == data && c.size == |data| && c.isOpen
  {
    assert [] + data == data;
  }

  /** A deleted file, one renamed over and a closed one take nothing; the first two have nothing to read either. */
  lemma {:induction false} ClosedRefuses(a: Snap, b: Snap, c: Snap, op: FleetOp, data: seq<Byte>, offset: nat, n: nat)
    requires (op.Deleting? || op.Renaming? || op.Closing?) && OwnStep(a, b, op) && OwnStep(b, c, Do(0, Appending(data)))
    ensures c.content == b.content && c.size == b.size && c.cached == 0
    ensures !op.Closing? ==> ReadOutcome(c.content, c.size, c.cached, offset, n) == Untouched
  {
  }
}
