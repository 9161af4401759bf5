/** The log and the nodes together: whatever crashes, a recovered file has the bytes it had at its last record. */
module Whole {
  import opened Layout
  import opened NodeGroup
  import opened Zrocks
  import opened FileLayer
  import MetaCodec
  import MetaLog
  import Durable
  import Recovery
  import Crash

  type Name = MetaLog.Name

  // ----- pieces and where their bytes come from

  /** The bytes of a piece are those of one of the pieces of `pool`, which are on the device. */
  ghost predicate Sourced(g: Group, pool: seq<Live>, p: Piece) {
    exists q :: q in pool && Matches(q, p) && LiveOk(g, q)
  }

  ghost predicate AllSourced(g: Group, pool: seq<Live>, ps: seq<Piece>) {
    forall i :: 0 <= i < |ps| ==> Sourced(g, pool, ps[i])
  }

  /** What the device holds for pieces. */
  ghost function Content(g: Group, ps: seq<Piece>): seq<Byte> {
    if AllMapped(g, ps) then Payloads(g, ps) else []
  }

  /** Both sides hold the same bytes for the piece. */
  ghost predicate SourcedBoth(g: Group, g': Group, pool: seq<Live>, p: Piece) {
    exists q :: q in pool && Matches(q, p) && LiveOk(g, q) && LiveOk(g', q)
  }

  lemma {:induction false} SourcedContent(g: Group, g': Group, pool: seq<Live>, ps: seq<Piece>)
    requires forall i :: 0 <= i < |ps| ==> SourcedBoth(g, g', pool, ps[i])
    ensures AllMapped(g, ps) && AllMapped(g', ps) && Payloads(g, ps) == Payloads(g', ps)
  {
    hide LiveOk, Payload, Mapped;
    if ps != [] {
      var n := |ps| - 1;
      SourcedContent(g, g', pool, ps[..n]);
      assert SourcedBoth(g, g', pool, ps[n]);
      var q :| q in pool && Matches(q, ps[n]) && LiveOk(g, q) && LiveOk(g', q);
      LastHolds(g, q, ps[n]);
      LastHolds(g', q, ps[n]);
      forall i | 0 <= i < |ps| ensures Mapped(g, ps[i]) && Mapped(g', ps[i]) {
        assert i < n ==> Mapped(g, ps[..n][i]) && Mapped(g', ps[..n][i]);
      }
    }
  }

  /** Every piece of the pool that was on the device still is, but for those of node `hit`. */
  ghost predicate PoolKept(g: Group, pool: seq<Live>, g': Group, pool': seq<Live>, hit: int) {
    forall q :: q in pool && LiveOk(g, q) && q.node != hit ==> q in pool' && LiveOk(g', q)
  }

  lemma {:induction false} KeptContent(g: Group, pool: seq<Live>, g': Group, pool': seq<Live>, hit: int, ps: seq<Piece>)
    requires PoolKept(g, pool, g', pool', hit) && AllSourced(g, pool, ps)
    requires forall i :: 0 <= i < |ps| ==> ps[i].node != hit
    ensures AllSourced(g', pool', ps) && Content(g', ps) == Content(g, ps) && AllMapped(g', ps)
  {
    hide LiveOk;
    forall i | 0 <= i < |ps| ensures Sourced(g', pool', ps[i]) && SourcedBoth(g, g', pool, ps[i]) {
      assert Sourced(g, pool, ps[i]);
    }
    SourcedContent(g, g', pool, ps);
  }

  /** The pieces of the pool are on the device, and no two of them overlap. */
  ghost predicate PoolApart(g: Group, pool: seq<Live>) {
    (forall q :: q in pool ==> LiveOk(g, q)) &&
    forall q, r :: q in pool && r in pool && q != r ==> Apart(q, r)
  }

  /** No two pieces of a table begin at the same unit. */
  ghost predicate TableApart(files: MetaLog.Files) {
    forall k, n, i, j | 0 <= i < |MetaLog.Pieces(files, k)| && 0 <= j < |MetaLog.Pieces(files, n)| ::
      k != n || i != j ==> !SamePlace(MetaLog.Pieces(files, k)[i], MetaLog.Pieces(files, n)[j])
  }

  // ----- the machine

  /** `condemned` are the pieces that an operation in progress gives up, `ghosts` those of them that were trimmed
      already, `bytes` what each file held when it was last recorded. */
  datatype Sys = Sys(w: World, s: MetaLog.Log, condemned: set<Piece>, ghosts: seq<Live>, bytes: map<Name, seq<Byte>>)

  datatype Act = OnNode(e: Event) | Condemn(k: Name, ps: set<Piece>) | OnLog(step: MetaLog.Step)
               | Restart(keys: seq<Name>, live: seq<Live>)

  /** The table that would be recovered. */
  ghost function Table(s: MetaLog.Log): MetaLog.Files {
    if s.phase == MetaLog.Idle then s.files else s.before
  }

  ghost predicate InTable(files: MetaLog.Files, p: Piece) {
    exists k :: k in files && p in files[k].pieces
  }

  /** The files recovered from the log, in the order of the given keys. */
  ghost function Found(x: Sys, keys: seq<Name>): seq<MetaLog.File>
    requires |x.s.zones| == 2 && MetaLog.Enumerates(keys, MetaLog.Recovered(x.s.zones))
  {
    Crash.Listing(MetaLog.Recovered(x.s.zones), keys)
  }

  /** What start-up relies on.  The pieces of the recovered files are on the device, apart from each other; levels
      continue on different nodes; the last open node holds one of them; no object is replayed under another
      name. */
  ghost predicate CanRestart(x: Sys, keys: seq<Name>, live: seq<Live>) {
    |x.s.zones| == 2 && MetaLog.Enabled(x.s, MetaLog.Reboot) &&
    MetaLog.Enumerates(keys, MetaLog.Recovered(x.s.zones)) && MetaLog.NamesAgree(MetaLog.Recovered(x.s.zones)) &&
    Crash.Aligned(Crash.Images(x.w.g)) &&
    var g, files := Recovery.BootGroup(Crash.Images(x.w.g)), Found(x, keys);
    Recovery.Backed(g, Recovery.AllPieces(files), live) && Recovery.AllSettable(g, Recovery.AllFound(files)) &&
    Recovery.LevelsApart(g, Recovery.AllFound(files)) &&
    !Recovery.LastOpenEmpty(Crash.Images(x.w.g), Recovery.AllPieces(files))
  }

  /** Trims are for pieces of no file, or for condemned ones.  An operation is begun on pieces that are live and on
      places of their own; it leaves no condemned piece in the table. */
  ghost predicate Can(x: Sys, a: Act) {
    match a
    case OnNode(e) =>
      NodeGroup.Enabled(x.w, e) &&
      (e.Discard? ==> forall p :: InTable(x.s.files, p) && Matches(x.w.live[e.i], p) ==> p in x.condemned)
    case Condemn(k, ps) =>
      x.s.phase == MetaLog.Idle && x.condemned == {} && k in x.s.files &&
      forall p :: p in ps ==> p in x.s.files[k].pieces
    case OnLog(step) =>
      !step.Reboot? && MetaLog.Enabled(x.s, step) &&
      (step.Begin? && !MetaLog.Quiet(step.op) ==>
        TableApart(MetaLog.Mutate(x.s.files, step.op)) &&
        forall p :: InTable(MetaLog.Mutate(x.s.files, step.op), p) ==>
          p !in x.condemned && (InTable(x.s.files, p) || Owned(x.w.live, p)))
    case Restart(keys, live) => CanRestart(x, keys, live)
  }

  /** The bytes at the last record, once `r` is written. */
  ghost function BytesAfter(bytes: map<Name, seq<Byte>>, g: Group, files: MetaLog.Files, r: MetaCodec.Record)
      : map<Name, seq<Byte>>
  {
    match r
    case Base(_) => bytes
    case Update(f) => bytes[f.name := Content(g, MetaLog.Pieces(files, f.name))]
    case GCChange(f) => bytes[f.name := Content(g, MetaLog.Pieces(files, f.name))]
    case Replace(src, dst) => if src in bytes then (bytes - {src})[dst := bytes[src]] else bytes - {src, dst}
    case Delete(name) => bytes - {name}
  }

  ghost function SnapshotBytes(g: Group, files: MetaLog.Files): map<Name, seq<Byte>> {
    map k | k in files :: Content(g, files[k].pieces)
  }

  /** What start-up makes of the group. */
  ghost function Restarted(x: Sys, keys: seq<Name>, live: seq<Live>): Group
    requires CanRestart(x, keys, live)
  {
    var g, es := Recovery.BootGroup(Crash.Images(x.w.g)), Recovery.AllFound(Found(x, keys));
    Recovery.ClearUpTo(Recovery.NodeSets(g, es), |g.nodes|)
  }

  /** The pieces that are not on node `n`. */
  ghost function Besides(pool: seq<Live>, n: nat): (rest: seq<Live>)
    ensures forall q :: q in rest <==> q in pool && q.node != n
  {
    if pool == [] then []
    else Besides(pool[..|pool| - 1], n) + if pool[|pool| - 1].node != n then [pool[|pool| - 1]] else []
  }

  /** A trimmed piece is on the device until its node is reset. */
  ghost function GhostsAfter(w: World, ghosts: seq<Live>, e: Event): seq<Live>
    requires NodeGroup.Enabled(w, e)
  {
    match e
    case Discard(i) => ghosts + [w.live[i]]
    case Recycle(n) => Besides(ghosts, n)
    case _ => ghosts
  }

  ghost function Next(x: Sys, a: Act): Sys
    requires Can(x, a)
  {
    match a
    case OnNode(e) => x.(w := NodeGroup.After(x.w, e), ghosts := GhostsAfter(x.w, x.ghosts, e))
    case Condemn(_, ps) => x.(condemned := ps)
    case OnLog(step) =>
      var s' := MetaLog.After(x.s, step);
      if step.Append? then Sys(x.w, s', {}, [], BytesAfter(x.bytes, x.w.g, x.s.files, x.s.phase.r))
      else if step.TakeSnapshot? then Sys(x.w, s', {}, [], SnapshotBytes(x.w.g, x.s.files))
      else x.(s := s')
    case Restart(keys, live) =>
      Sys(World(Restarted(x, keys, live), live), MetaLog.After(x.s, MetaLog.Reboot), {}, [], x.bytes)
  }

  /** A node is reset that holds a piece of a file that would be recovered: it was trimmed before its loss is
      logged. */
  ghost predicate Early(x: Sys, a: Act) {
    a.OnNode? && a.e.Recycle? && exists p :: InTable(Table(x.s), p) && p.node == a.e.n
  }

  // ----- the invariant

  function BytesOf(bytes: map<Name, seq<Byte>>, k: Name): seq<Byte> {
    if k in bytes then bytes[k] else []
  }

  /** What would be recovered is on the device, with the bytes of the last record. */
  ghost predicate Recoverable(g: Group, pool: seq<Live>, table: MetaLog.Files, bytes: map<Name, seq<Byte>>) {
    forall k :: AllSourced(g, pool, MetaLog.Pieces(table, k)) &&
      Content(g, MetaLog.Pieces(table, k)) == BytesOf(bytes, k)
  }

  /** Pieces of files in memory are live unless they are condemned. */
  ghost predicate MemoryLive(g: Group, live: seq<Live>, files: MetaLog.Files, condemned: set<Piece>) {
    forall p :: InTable(files, p) && p !in condemned ==> Sourced(g, live, p)
  }

  ghost predicate Good(x: Sys) {
    Inv(x.w.g, x.w.live) && MetaLog.Inv(x.s) && Durable.SeenInv(x.s) &&
    Recoverable(x.w.g, x.w.live + x.ghosts, Table(x.s), x.bytes) &&
    MemoryLive(x.w.g, x.w.live, x.s.files, x.condemned) && PoolApart(x.w.g, x.w.live + x.ghosts) &&
    TableApart(Table(x.s)) && TableApart(x.s.files) &&
    (x.s.phase != MetaLog.Idle ==> forall p :: InTable(x.s.files, p) ==> p !in x.condemned)
  }

  // ----- node steps

  function Hit(e: Event): int {
    if e.Recycle? then e.n else -1
  }

  lemma {:induction false} NodePoolKept(w: World, ghosts: seq<Live>, e: Event)
    requires Inv(w.g, w.live) && NodeGroup.Enabled(w, e)
    ensures PoolKept(w.g, w.live + ghosts, NodeGroup.After(w, e).g,
                     NodeGroup.After(w, e).live + GhostsAfter(w, ghosts, e), Hit(e))
  {
    var w', ghosts' := NodeGroup.After(w, e), GhostsAfter(w, ghosts, e);
    forall q | q in w.live + ghosts && LiveOk(w.g, q) && q.node != Hit(e)
      ensures q in w'.live + ghosts' && LiveOk(w'.g, q)
    {
      StepKeepsBytes(w, e, q);
      hide Inv, LiveOk;
      if q in w.live && !(e.Discard? && w.live[e.i] == q) {
        KeepsPiece(w, e, q);
      }
    }
  }

  lemma {:induction false} RecycledEmpty(w: World, n: nat, q: Live)
    requires Inv(w.g, w.live) && NodeGroup.Enabled(w, Recycle(n)) && q in w.live
    ensures q.node != n
  {
    assert NodeOk(w.g, n);
    forall i | 0 <= i < |w.live| ensures w.live[i].num > 0 {
      assert LiveOk(w.g, w.live[i]);
    }
    NoLivePiece(w.live, n);
  }

  lemma {:induction false} NodeMemoryLive(w: World, files: MetaLog.Files, condemned: set<Piece>, e: Event)
    requires Inv(w.g, w.live) && NodeGroup.Enabled(w, e) && MemoryLive(w.g, w.live, files, condemned)
    requires e.Discard? ==> forall p :: InTable(files, p) && Matches(w.live[e.i], p) ==> p in condemned
    ensures MemoryLive(NodeGroup.After(w, e).g, NodeGroup.After(w, e).live, files, condemned)
  {
    var w' := NodeGroup.After(w, e);
    forall p | InTable(files, p) && p !in condemned ensures Sourced(w'.g, w'.live, p) {
      assert Sourced(w.g, w.live, p);
      var q :| q in w.live && Matches(q, p) && LiveOk(w.g, q);
      StepKeepsBytes(w, e, q);
      if e.Recycle? {
        RecycledEmpty(w, e.n, q);
      }
      hide Inv, LiveOk;
      KeepsPiece(w, e, q);
    }
  }

  lemma {:induction false} WrittenBehind(w: World, l: nat, data: seq<Byte>, q: Live)
    requires Inv(w.g, w.live) && NodeGroup.Enabled(w, Put(l, data)) && LiveOk(w.g, q)
    ensures Apart(q, NewPiece(w.g, l, data)) && Apart(NewPiece(w.g, l, data), q)
  {
    assert NodeOk(w.g, q.node);
  }

  /** What is in the pool after a step was there before, or was just written. */
  lemma {:induction false} PoolFrom(w: World, ghosts: seq<Live>, e: Event, q: Live)
    requires NodeGroup.Enabled(w, e) && q in NodeGroup.After(w, e).live + GhostsAfter(w, ghosts, e)
    ensures (e.Put? && q == NewPiece(w.g, e.l, e.data)) || q in w.live + ghosts
    ensures q in NodeGroup.After(w, e).live || q.node != Hit(e)
  {
    hide WritePiece, Trim, ResetNode, GetNode;
  }

  lemma {:induction false} PoolOk(w: World, ghosts: seq<Live>, e: Event, q: Live)
    requires Inv(w.g, w.live) && NodeGroup.Enabled(w, e) && PoolApart(w.g, w.live + ghosts)
    requires q in NodeGroup.After(w, e).live + GhostsAfter(w, ghosts, e)
    ensures LiveOk(NodeGroup.After(w, e).g, q)
  {
    hide Inv, LiveOk, NodeGroup.After, NodeGroup.Enabled, GhostsAfter;
    StepInv(w, e);
    NodePoolKept(w, ghosts, e);
    PoolFrom(w, ghosts, e, q);
    if q in NodeGroup.After(w, e).live {
      InvLive(NodeGroup.After(w, e).g, NodeGroup.After(w, e).live, q);
    } else {
      PutLive(w, e);
    }
  }

  lemma {:induction false} PutLive(w: World, e: Event)
    requires NodeGroup.Enabled(w, e)
    ensures e.Put? ==> NewPiece(w.g, e.l, e.data) in NodeGroup.After(w, e).live
  {
    hide WritePiece, Trim, ResetNode, GetNode;
  }

  /** New pieces are written behind everything that is on the node, trimmed or not. */
  lemma {:induction false} NodePoolApart(w: World, ghosts: seq<Live>, e: Event)
    requires Inv(w.g, w.live) && NodeGroup.Enabled(w, e) && PoolApart(w.g, w.live + ghosts)
    ensures PoolApart(NodeGroup.After(w, e).g, NodeGroup.After(w, e).live + GhostsAfter(w, ghosts, e))
  {
    hide Inv, LiveOk, NodeGroup.After, NodeGroup.Enabled, GhostsAfter, Apart;
    var w', ghosts' := NodeGroup.After(w, e), GhostsAfter(w, ghosts, e);
    var pool, pool' := w.live + ghosts, w'.live + ghosts';
    forall q | q in pool' ensures LiveOk(w'.g, q) {
      PoolOk(w, ghosts, e, q);
    }
    forall q, r | q in pool' && r in pool' && q != r ensures Apart(q, r) {
      PoolFrom(w, ghosts, e, q);
      PoolFrom(w, ghosts, e, r);
      if q !in pool {
        WrittenBehind(w, e.l, e.data, r);
      } else if r !in pool {
        WrittenBehind(w, e.l, e.data, q);
      }
    }
  }

  lemma {:induction false} SparedPieces(x: Sys, e: Event, k: Name)
    requires !Early(x, OnNode(e))
    ensures forall i :: 0 <= i < |MetaLog.Pieces(Table(x.s), k)| ==> MetaLog.Pieces(Table(x.s), k)[i].node != Hit(e)
  {
    var ps := MetaLog.Pieces(Table(x.s), k);
    forall i | 0 <= i < |ps| ensures ps[i].node != Hit(e) {
      assert InTable(Table(x.s), ps[i]);
    }
  }

  lemma {:induction false} NodeGood(x: Sys, e: Event)
    requires Good(x) && Can(x, OnNode(e)) && !Early(x, OnNode(e))
    ensures Good(Next(x, OnNode(e)))
  {
    hide Inv, MetaLog.Inv, Durable.SeenInv, MemoryLive, AllSourced, Content, PoolKept, NodeGroup.After;
    hide NodeGroup.Enabled;
    StepInv(x.w, e);
    NodePoolKept(x.w, x.ghosts, e);
    NodeMemoryLive(x.w, x.s.files, x.condemned, e);
    NodePoolApart(x.w, x.ghosts, e);
    hide PoolApart, TableApart;
    var x' := Next(x, OnNode(e));
    forall k
      ensures AllSourced(x'.w.g, x'.w.live + x'.ghosts, MetaLog.Pieces(Table(x.s), k)) &&
        Content(x'.w.g, MetaLog.Pieces(Table(x.s), k)) == BytesOf(x.bytes, k)
    {
      SparedPieces(x, e, k);
      KeptContent(x.w.g, x.w.live + x.ghosts, x'.w.g, x'.w.live + x'.ghosts, Hit(e), MetaLog.Pieces(Table(x.s), k));
    }
  }

  // ----- log steps

  lemma {:induction false} QuietPieces(files: MetaLog.Files, renamed: set<Name>, op: MetaLog.Op, p: Piece)
    requires MetaLog.OpAllowed(files, renamed, op) && MetaLog.Quiet(op)
    ensures forall k :: MetaLog.Pieces(MetaLog.Mutate(files, op), k) == MetaLog.Pieces(files, k)
    ensures InTable(MetaLog.Mutate(files, op), p) ==> InTable(files, p)
  {
    var files' := MetaLog.Mutate(files, op);
    if k :| k in files' && p in files'[k].pieces {
      assert p in MetaLog.Pieces(files, k);
    }
  }

  lemma {:induction false} SameApart(a: MetaLog.Files, b: MetaLog.Files)
    requires TableApart(a) && MetaLog.SameTable(a, b)
    ensures TableApart(b)
  {
    forall k ensures MetaLog.Pieces(b, k) == MetaLog.Pieces(a, k) {
    }
    hide MetaLog.SameTable;
  }

  lemma {:induction false} LiveSourced(g: Group, live: seq<Live>, p: Piece)
    requires Inv(g, live) && Owned(live, p)
    ensures Sourced(g, live, p)
  {
    var q :| q in live && Matches(q, p);
    InvLive(g, live, q);
  }

  lemma {:induction false} BeginFields(s: MetaLog.Log, op: MetaLog.Op)
    requires MetaLog.Enabled(s, MetaLog.Begin(op))
    ensures s.phase == MetaLog.Idle && MetaLog.OpAllowed(s.files, s.renamed, op)
    ensures var s' := MetaLog.After(s, MetaLog.Begin(op));
      s'.files == MetaLog.Mutate(s.files, op) && if MetaLog.Quiet(op) then s'.phase == MetaLog.Idle
                                                 else s'.phase.Writing? && s'.before == s.files
  {
    hide MetaLog.OpAllowed, MetaLog.Mutate, MetaLog.Logged, MetaLog.Writable, MetaLog.TornAfter, MetaLog.RenamedAfter;
  }

  /** A step of the log that changes no piece. */
  lemma {:induction false} SamePiecesGood(x: Sys, s': MetaLog.Log)
    requires Good(x) && x.s.phase == s'.phase == MetaLog.Idle && MetaLog.Inv(s') && Durable.SeenInv(s')
    requires MetaLog.SameTable(x.s.files, s'.files) && forall p :: InTable(s'.files, p) ==> InTable(x.s.files, p)
    ensures Good(x.(s := s'))
  {
    hide Inv, MetaLog.Inv, Durable.SeenInv, AllSourced, Content, Sourced, InTable, MetaLog.Pieces, PoolApart;
    hide TableApart;
    SameApart(x.s.files, s'.files);
  }

  lemma {:induction false} BeginQuietGood(x: Sys, op: MetaLog.Op)
    requires Good(x) && Can(x, OnLog(MetaLog.Begin(op))) && MetaLog.Quiet(op)
    ensures Good(Next(x, OnLog(MetaLog.Begin(op))))
  {
    hide Inv, MetaLog.Inv, Durable.SeenInv, Recoverable, MemoryLive, MetaLog.Mutate, InTable, MetaLog.Held;
    hide MetaLog.Pieces, MetaLog.TornAfter, PoolApart, TableApart, MetaLog.After, MetaLog.Enabled;
    MetaLog.BeginInv(x.s, op);
    Durable.BeginSeen(x.s, op);
    BeginFields(x.s, op);
    forall p ensures InTable(MetaLog.Mutate(x.s.files, op), p) ==> InTable(x.s.files, p) {
      QuietPieces(x.s.files, x.s.renamed, op, p);
    }
    QuietPieces(x.s.files, x.s.renamed, op, Piece(0, 0, 0, 0));
    SamePiecesGood(x, MetaLog.After(x.s, MetaLog.Begin(op)));
    hide Good;
  }

  /** An operation is begun: what would be recovered is the table before. */
  lemma {:induction false} BegunGood(x: Sys, s': MetaLog.Log)
    requires Good(x) && x.s.phase == MetaLog.Idle && s'.phase.Writing? && MetaLog.Inv(s') && Durable.SeenInv(s')
    requires s'.before == x.s.files && TableApart(s'.files)
    requires forall p :: InTable(s'.files, p) ==> p !in x.condemned && (InTable(x.s.files, p) || Owned(x.w.live, p))
    ensures Good(x.(s := s'))
  {
    hide Inv, MetaLog.Inv, Durable.SeenInv, Recoverable, Sourced, InTable, PoolApart, TableApart, Owned;
    forall p | InTable(s'.files, p) ensures Sourced(x.w.g, x.w.live, p) {
      if !InTable(x.s.files, p) {
        LiveSourced(x.w.g, x.w.live, p);
      }
    }
  }

  lemma {:induction false} BeginGood(x: Sys, op: MetaLog.Op)
    requires Good(x) && Can(x, OnLog(MetaLog.Begin(op))) && !MetaLog.Quiet(op)
    ensures Good(Next(x, OnLog(MetaLog.Begin(op))))
  {
    hide Inv, MetaLog.Inv, Durable.SeenInv, Recoverable, MemoryLive, MetaLog.Mutate, MetaLog.OpAllowed, InTable, Owned;
    hide PoolApart, TableApart, MetaLog.After, MetaLog.Enabled;
    MetaLog.BeginInv(x.s, op);
    Durable.BeginSeen(x.s, op);
    BeginFields(x.s, op);
    BegunGood(x, MetaLog.After(x.s, MetaLog.Begin(op)));
    hide Good;
  }

  /** Everything in memory is live when an operation is being logged. */
  lemma {:induction false} MemorySourced(x: Sys, k: Name)
    requires Good(x) && x.s.phase != MetaLog.Idle
    ensures AllSourced(x.w.g, x.w.live, MetaLog.Pieces(x.s.files, k))
  {
    hide Inv, MetaLog.Inv, Durable.SeenInv, Recoverable, Sourced, PoolApart, TableApart;
    var ps := MetaLog.Pieces(x.s.files, k);
    forall i | 0 <= i < |ps| ensures Sourced(x.w.g, x.w.live, ps[i]) {
      assert InTable(x.s.files, ps[i]);
    }
  }

  /** The bytes a record stands for are those of the table it leads to. */
  lemma {:induction false} RecordBytes(g: Group, before: MetaLog.Files, files: MetaLog.Files, r: MetaLog.Files,
                                       rec: MetaCodec.Record, bytes: map<Name, seq<Byte>>, k: Name)
    requires MetaLog.SameTable(r, before) && MetaLog.SameTable(MetaLog.ReplayOne(r, rec), files)
    requires Durable.RecordCurrent(r, files, rec)
    requires forall n :: Content(g, MetaLog.Pieces(before, n)) == BytesOf(bytes, n)
    ensures Content(g, MetaLog.Pieces(files, k)) == BytesOf(BytesAfter(bytes, g, files, rec), k)
  {
    hide MetaLog.ReplayOne, MetaLog.Pieces, Content;
    assert Content(g, []) == [] by {
      NoContent(g);
    }
    ReplayedPieces(r, files, rec, k);
    assert MetaLog.Pieces(MetaLog.ReplayOne(r, rec), k) == MetaLog.Pieces(files, k);
    assert MetaLog.Pieces(r, k) == MetaLog.Pieces(before, k);
    if rec.Replace? {
      assert MetaLog.Pieces(r, rec.src) == MetaLog.Pieces(before, rec.src);
    }
    hide MetaLog.SameTable;
  }

  lemma {:induction false} NoContent(g: Group)
    ensures Content(g, []) == []
  {
  }

  /** What a record does to the pieces of a name. */
  lemma {:induction false} ReplayedPieces(r: MetaLog.Files, files: MetaLog.Files, rec: MetaCodec.Record, k: Name)
    requires Durable.RecordCurrent(r, files, rec)
    ensures var after := MetaLog.Pieces(MetaLog.ReplayOne(r, rec), k);
      match rec
      case Base(_) => true
      case Update(f) => k != f.name ==> after == MetaLog.Pieces(r, k)
      case GCChange(f) => k != f.name ==> after == MetaLog.Pieces(r, k)
      case Replace(src, dst) =>
        after == if k == dst then MetaLog.Pieces(r, src) else if k == src then [] else MetaLog.Pieces(r, k)
      case Delete(name) => after == if k == name then [] else MetaLog.Pieces(r, k)
  {
  }

  /** The operation is in the log: what is in memory is what would be recovered. */
  lemma {:induction false} LoggedGood(x: Sys, s': MetaLog.Log, bytes': map<Name, seq<Byte>>)
    requires Good(x) && x.s.phase != MetaLog.Idle && MetaLog.Inv(s') && Durable.SeenInv(s') && s'.phase == MetaLog.Idle
    requires forall k :: MetaLog.Pieces(s'.files, k) == MetaLog.Pieces(x.s.files, k)
    requires forall p :: InTable(s'.files, p) ==> InTable(x.s.files, p)
    requires forall k :: Content(x.w.g, MetaLog.Pieces(x.s.files, k)) == BytesOf(bytes', k)
    ensures Good(Sys(x.w, s', {}, [], bytes'))
  {
    hide PoolApart, TableApart, Inv, MetaLog.Inv, Durable.SeenInv, AllSourced, Content, Sourced, MetaLog.Pieces;
    hide BytesOf, InTable;
    forall k ensures AllSourced(x.w.g, x.w.live, MetaLog.Pieces(x.s.files, k)) {
      MemorySourced(x, k);
    }
    SameApart(x.s.files, s'.files);
    LivePool(x);
    assert x.w.live + [] == x.w.live;
  }

  lemma {:induction false} LivePool(x: Sys)
    requires Good(x)
    ensures PoolApart(x.w.g, x.w.live)
  {
    hide Inv, MetaLog.Inv, Durable.SeenInv, Recoverable, MemoryLive, LiveOk, TableApart;
  }

  lemma {:induction false} LogFields(s: MetaLog.Log, keys: seq<Name>)
    requires MetaLog.Inv(s)
    ensures MetaLog.Enabled(s, MetaLog.Append) ==>
      s.phase != MetaLog.Idle && MetaLog.After(s, MetaLog.Append).files == s.files &&
      MetaLog.After(s, MetaLog.Append).phase == MetaLog.Idle
    ensures MetaLog.Enabled(s, MetaLog.TakeSnapshot(keys)) ==>
      var s' := MetaLog.After(s, MetaLog.TakeSnapshot(keys));
      s.phase != MetaLog.Idle && s'.files == MetaLog.MarkFlushed(s.files) && s'.phase == MetaLog.Idle
  {
    hide MetaLog.Inv, MetaLog.MarkFlushed, MetaLog.Snapshot, MetaCodec.Sectors, MetaLog.SnapshotFits, MetaLog.SeenAfter;
  }

  lemma {:induction false} WritingTables(s: MetaLog.Log)
    requires MetaLog.Inv(s) && Durable.SeenInv(s) && s.phase.Writing?
    ensures |s.zones| == 2
    ensures var r := MetaLog.Recovered(s.zones);
      MetaLog.SameTable(r, s.before) && MetaLog.SameTable(MetaLog.ReplayOne(r, s.phase.r), s.files) &&
      Durable.RecordCurrent(r, s.files, s.phase.r)
  {
    Durable.RecoveredLeads(s);
    hide MetaLog.SameTable, MetaLog.ReplayOne, MetaLog.Replay, Durable.RecordCurrent, MetaLog.Sound;
  }

  lemma {:induction false} AppendGood(x: Sys)
    requires Good(x) && Can(x, OnLog(MetaLog.Append))
    ensures Good(Next(x, OnLog(MetaLog.Append)))
  {
    var s' := MetaLog.After(x.s, MetaLog.Append);
    var bytes' := BytesAfter(x.bytes, x.w.g, x.s.files, x.s.phase.r);
    hide Inv, MetaLog.Inv, Durable.SeenInv, AllSourced, Content, MemoryLive, BytesAfter, MetaLog.Pieces, InTable;
    hide BytesOf;
    MetaLog.AppendInv(x.s);
    Durable.AppendSeen(x.s);
    LogFields(x.s, []);
    WritingTables(x.s);
    var r, rec := MetaLog.Recovered(x.s.zones), x.s.phase.r;
    hide MetaLog.After, MetaLog.Recovered, MetaLog.SameTable, MetaLog.ReplayOne, Durable.RecordCurrent;
    forall k ensures Content(x.w.g, MetaLog.Pieces(x.s.files, k)) == BytesOf(bytes', k) {
      RecordBytes(x.w.g, x.s.before, x.s.files, r, rec, x.bytes, k);
    }
    LoggedGood(x, s', bytes');
    assert Next(x, OnLog(MetaLog.Append)) == Sys(x.w, s', {}, [], bytes');
    hide Good;
  }

  lemma {:induction false} SwitchGood(x: Sys)
    requires Good(x) && Can(x, OnLog(MetaLog.Switch))
    ensures Good(Next(x, OnLog(MetaLog.Switch)))
  {
    MetaLog.SwitchInv(x.s);
    Durable.InvSound(x.s);
    Durable.SwitchSeen(x.s);
    hide Inv, MetaLog.Inv, Durable.SeenInv, AllSourced, Content, Sourced, MetaLog.Pieces, InTable, MetaCodec.Sectors;
    hide PoolApart, TableApart;
  }

  lemma {:induction false} FlushedPieces(files: MetaLog.Files, p: Piece)
    ensures forall k :: MetaLog.Pieces(MetaLog.MarkFlushed(files), k) == MetaLog.Pieces(files, k)
    ensures InTable(MetaLog.MarkFlushed(files), p) ==> InTable(files, p)
  {
  }

  lemma {:induction false} SnapshotBytesOf(g: Group, files: MetaLog.Files, k: Name)
    ensures Content(g, MetaLog.Pieces(files, k)) == BytesOf(SnapshotBytes(g, files), k)
  {
    NoContent(g);
    hide Content;
  }

  lemma {:induction false} SnapshotGood(x: Sys, keys: seq<Name>)
    requires Good(x) && Can(x, OnLog(MetaLog.TakeSnapshot(keys)))
    ensures Good(Next(x, OnLog(MetaLog.TakeSnapshot(keys))))
  {
    var s' := MetaLog.After(x.s, MetaLog.TakeSnapshot(keys));
    var bytes' := SnapshotBytes(x.w.g, x.s.files);
    hide Inv, MetaLog.Inv, Durable.SeenInv, AllSourced, Content, MemoryLive, SnapshotBytes, MetaLog.Pieces, InTable;
    hide BytesOf, MetaLog.MarkFlushed, Recoverable, PoolApart, TableApart;
    forall k ensures Content(x.w.g, MetaLog.Pieces(x.s.files, k)) == BytesOf(bytes', k) {
      SnapshotBytesOf(x.w.g, x.s.files, k);
    }
    MetaLog.SnapshotInv(x.s, keys);
    Durable.SnapshotSeen(x.s, keys);
    LogFields(x.s, keys);
    hide MetaLog.After;
    forall p ensures InTable(s'.files, p) ==> InTable(x.s.files, p) {
      FlushedPieces(x.s.files, p);
    }
    FlushedPieces(x.s.files, Piece(0, 0, 0, 0));
    LoggedGood(x, s', bytes');
    assert Next(x, OnLog(MetaLog.TakeSnapshot(keys))) == Sys(x.w, s', {}, [], bytes');
    hide Good;
  }

  // ----- restarts

  lemma {:induction false} InAllPieces(files: seq<MetaLog.File>, x: nat, p: Piece)
    requires x < |files| && p in files[x].pieces
    ensures p in Recovery.AllPieces(files)
  {
    if x < |files| - 1 {
      InAllPieces(files[..|files| - 1], x, p);
    }
  }

  /** A recovered piece is backed by one that start-up found, before and after. */
  lemma {:induction false} RestartSourced(x: Sys, keys: seq<Name>, live: seq<Live>, k: Name, p: Piece)
    requires CanRestart(x, keys, live) && k in MetaLog.Recovered(x.s.zones)
    requires p in MetaLog.Recovered(x.s.zones)[k].pieces && p.padding < UNIT
    ensures SourcedBoth(x.w.g, Restarted(x, keys, live), live, p)
  {
    var imgs, files := Crash.Images(x.w.g), Found(x, keys);
    var g, es := Recovery.BootGroup(imgs), Recovery.AllFound(files);
    var j :| 0 <= j < |keys| && keys[j] == k;
    InAllPieces(files, j, p);
    var ps := Recovery.AllPieces(files);
    var i :| 0 <= i < |ps| && ps[i] == p;
    Recovery.BootGroupBooted(imgs);
    Recovery.BackedRecoverable(g, files, live);
    Recovery.ClearedReadsBack(g, es, live, i);
    Crash.BootLive(x.w.g, live[i]);
    assert LiveOk(g, live[i]) && Matches(live[i], p);
    hide LiveOk, Recovery.BootGroup, Recovery.AllPieces, Recovery.AllFound, Recovery.NodeSets, Recovery.ClearUpTo;
  }

  lemma {:induction false} RestartOrder(x: Sys, keys: seq<Name>, live: seq<Live>)
    requires MetaLog.Inv(x.s) && Durable.SeenInv(x.s) && CanRestart(x, keys, live)
    ensures Inv(Restarted(x, keys, live), live)
    ensures var s' := MetaLog.After(x.s, MetaLog.Reboot);
      MetaLog.Inv(s') && Durable.SeenInv(s') && s'.files == s'.before == MetaLog.Recovered(x.s.zones) &&
      s'.phase == MetaLog.Snapshotting
  {
    var imgs, files := Crash.Images(x.w.g), Found(x, keys);
    var g, es := Recovery.BootGroup(imgs), Recovery.AllFound(files);
    hide Inv, Recovery.AllPieces, Recovery.AllFound, Recovery.NodeSets, Recovery.ClearUpTo, Recovery.Backed;
    hide Recovery.LevelsApart, Recovery.Booted, Recovery.Recoverable, Durable.SeenInv, MetaLog.Replay, MetaLog.Torn;
    Recovery.BootGroupBooted(imgs);
    Recovery.BackedRecoverable(g, files, live);
    Recovery.StartUpOrder(g, es, live);
    MetaLog.RebootInv(x.s);
    Durable.InvSound(x.s);
    Durable.RebootSeen(x.s);
    hide Recovery.BootGroup, MetaLog.Inv;
  }

  lemma {:induction false} FlipTable(a: MetaLog.Files, b: MetaLog.Files)
    requires MetaLog.SameTable(a, b)
    ensures MetaLog.SameTable(b, a)
  {
  }

  /** What would be recovered is the table of the invariant, and lies inside its units. */
  lemma {:induction false} RecoveredTable(x: Sys, k: Name)
    requires Good(x)
    ensures |x.s.zones| == 2
    ensures MetaLog.SameTable(MetaLog.Recovered(x.s.zones), Table(x.s)) && TableApart(MetaLog.Recovered(x.s.zones))
    ensures var ps := MetaLog.Pieces(MetaLog.Recovered(x.s.zones), k);
      ps == MetaLog.Pieces(Table(x.s), k) && AllSourced(x.w.g, x.w.live + x.ghosts, ps) &&
      Content(x.w.g, ps) == BytesOf(x.bytes, k) && forall i :: 0 <= i < |ps| ==> ps[i].padding < UNIT
  {
    MetaLog.InvRecovers(x.s);
    FlipTable(MetaLog.Recovered(x.s.zones), Table(x.s));
    SameApart(Table(x.s), MetaLog.Recovered(x.s.zones));
    hide Inv, MetaLog.Inv, Durable.SeenInv, Content, MemoryLive, MetaLog.Recovered, MetaLog.Pieces, LiveOk, PoolApart;
    hide TableApart;
    var ps := MetaLog.Pieces(MetaLog.Recovered(x.s.zones), k);
    forall i | 0 <= i < |ps| ensures ps[i].padding < UNIT {
      assert Sourced(x.w.g, x.w.live + x.ghosts, ps[i]);
    }
  }

  lemma {:induction false} RestartContent(x: Sys, keys: seq<Name>, live: seq<Live>, k: Name)
    requires Good(x) && CanRestart(x, keys, live)
    ensures var ps := MetaLog.Pieces(MetaLog.Recovered(x.s.zones), k);
      AllSourced(Restarted(x, keys, live), live, ps) && Content(Restarted(x, keys, live), ps) == BytesOf(x.bytes, k)
  {
    RecoveredTable(x, k);
    hide Good, CanRestart, Restarted, MetaLog.Recovered, LiveOk;
    var g', ps := Restarted(x, keys, live), MetaLog.Pieces(MetaLog.Recovered(x.s.zones), k);
    forall i | 0 <= i < |ps| ensures SourcedBoth(x.w.g, g', live, ps[i]) && Sourced(g', live, ps[i]) {
      RestartSourced(x, keys, live, k, ps[i]);
    }
    SourcedContent(x.w.g, g', live, ps);
  }

  lemma {:induction false} RestartPool(x: Sys, keys: seq<Name>, live: seq<Live>)
    requires CanRestart(x, keys, live) && Inv(Restarted(x, keys, live), live)
    ensures PoolApart(Restarted(x, keys, live), live)
  {
    hide CanRestart, Restarted;
    var g := Restarted(x, keys, live);
    forall q | q in live ensures LiveOk(g, q) {
      InvLive(g, live, q);
    }
    forall q, r | q in live && r in live && q != r ensures Apart(q, r) {
      Crash.LiveApart(g, live, q, r);
    }
  }

  lemma {:induction false} RestartGood(x: Sys, keys: seq<Name>, live: seq<Live>)
    requires Good(x) && Can(x, Restart(keys, live))
    ensures Good(Next(x, Restart(keys, live)))
  {
    hide Inv, MetaLog.Inv, Durable.SeenInv, Content, CanRestart, Restarted, MetaLog.Recovered, MetaLog.After, Sourced;
    hide Recoverable, MemoryLive, PoolApart, TableApart;
    RestartOrder(x, keys, live);
    RestartPool(x, keys, live);
    RecoveredTable(x, []);
    var g', files := Restarted(x, keys, live), MetaLog.Recovered(x.s.zones);
    forall k
      ensures AllSourced(g', live, MetaLog.Pieces(files, k)) &&
        Content(g', MetaLog.Pieces(files, k)) == BytesOf(x.bytes, k)
    {
      RestartContent(x, keys, live, k);
    }
    RestartedMemory(g', live, files, x.bytes);
    assert live + [] == live;
  }

  lemma {:induction false} RestartedMemory(g: Group, live: seq<Live>, files: MetaLog.Files, bytes: map<Name, seq<Byte>>)
    requires forall k ::
      AllSourced(g, live, MetaLog.Pieces(files, k)) && Content(g, MetaLog.Pieces(files, k)) == BytesOf(bytes, k)
    ensures Recoverable(g, live, files, bytes) && MemoryLive(g, live, files, {})
  {
    hide Sourced, Content;
    forall p | InTable(files, p) ensures Sourced(g, live, p) {
      var k :| k in files && p in files[k].pieces;
      assert AllSourced(g, live, MetaLog.Pieces(files, k));
    }
  }

  // ----- runs

  lemma {:induction false} StepGood(x: Sys, a: Act)
    requires Good(x) && Can(x, a) && !Early(x, a)
    ensures Good(Next(x, a))
  {
    match a
    case OnNode(e) =>
      hide Good, Can, Next, Early;
      NodeGood(x, e);
    case Condemn(_, _) => hide Inv, MetaLog.Inv, Durable.SeenInv, Recoverable, Sourced, InTable, PoolApart, TableApart;
    case OnLog(step) => LogGood(x, step);
    case Restart(keys, live) =>
      hide Good, Can, Next;
      RestartGood(x, keys, live);
  }

  lemma {:induction false} LogGood(x: Sys, step: MetaLog.Step)
    requires Good(x) && Can(x, OnLog(step))
    ensures Good(Next(x, OnLog(step)))
  {
    match step
    case Begin(op) =>
      hide Good, Can, Next;
      if MetaLog.Quiet(op) {
        BeginQuietGood(x, op);
      } else {
        BeginGood(x, op);
      }
    case Append => AppendGood(x);
    case Switch => SwitchGood(x);
    case TakeSnapshot(keys) => SnapshotGood(x, keys);
    case Reboot => assert false;
  }

  /** The first state of a device and its log. */
  ghost function Fresh(nodes: nat, s: MetaLog.Log): Sys {
    Sys(World(FreshGroup(nodes), []), s, {}, [], map[])
  }

  lemma {:induction false} FreshGood(nodes: nat, s: MetaLog.Log)
    requires s == MetaLog.FRESH_DEVICE
    ensures Good(Fresh(nodes, s))
  {
    FreshInv(nodes);
    MetaLog.InitInv();
    hide Inv, FreshGroup;
    assert MetaLog.Recovered(s.zones) == map[];
    assert Durable.SeenInv(s);
  }

  ghost predicate IsRun(nodes: nat, run: seq<Sys>, acts: seq<Act>) {
    |run| == |acts| + 1 && run[0] == Fresh(nodes, MetaLog.FRESH_DEVICE) &&
    forall i :: 0 <= i < |acts| ==> Can(run[i], acts[i]) && run[i + 1] == Next(run[i], acts[i])
  }

  /** Up to state `i` no node was reset that held a piece of a file that would be recovered. */
  ghost predicate NoEarlyReset(run: seq<Sys>, acts: seq<Act>, i: nat) {
    forall j :: 0 <= j < i && j < |acts| && j < |run| ==> !Early(run[j], acts[j])
  }

  lemma {:induction false} RunGood(nodes: nat, run: seq<Sys>, acts: seq<Act>, i: nat)
    requires IsRun(nodes, run, acts) && i < |run| && NoEarlyReset(run, acts, i)
    ensures Good(run[i])
  {
    hide Can, Next, Good, Early, Fresh;
    if i == 0 {
      FreshGood(nodes, MetaLog.FRESH_DEVICE);
    } else {
      RunGood(nodes, run, acts, i - 1);
      StepGood(run[i - 1], acts[i - 1]);
    }
  }

  /** The part of the first `size` bytes that a read asks for. */
  ghost function Clipped(bytes: seq<Byte>, size: nat, offset: nat, n: nat): ReadResult
    requires size <= |bytes|
  {
    if offset >= size then Untouched else Data(bytes[offset..if offset + n > size then size else offset + n])
  }

  /** Power is lost at any point of any run of writes, trims, resets, log operations and restarts.  Every file the log
      gives back has, on the device as start-up finds it, the bytes it had when it was last recorded; a read of it
      returns them, as far as its size says. */
  lemma {:induction false} CrashReadsRecorded(nodes: nat, run: seq<Sys>, acts: seq<Act>, i: nat, k: Name, offset: nat,
                                              n: nat)
    requires IsRun(nodes, run, acts) && i < |run| && NoEarlyReset(run, acts, i)
    requires |run[i].s.zones| == 2 && k in MetaLog.Recovered(run[i].s.zones)
    ensures Crash.Aligned(Crash.Images(run[i].w.g))
    ensures var g, f := Recovery.BootGroup(Crash.Images(run[i].w.g)), MetaLog.Recovered(run[i].s.zones)[k];
      var bytes := BytesOf(run[i].bytes, k);
      AllMapped(g, f.pieces) && Payloads(g, f.pieces) == bytes &&
      (f.size <= |bytes| ==>
        ReadOutcome(Payloads(g, f.pieces), f.size, 0, offset, n) == Clipped(bytes, f.size, offset, n))
  {
    hide IsRun, NoEarlyReset, Good, MetaLog.Recovered, LiveOk, Recovery.BootGroup, Crash.Images, Crash.Aligned;
    hide ReadOutcome, TableApart, Table;
    RunGood(nodes, run, acts, i);
    var x := run[i];
    GoodAligned(x);
    RecoveredTable(x, k);
    var g, f := Recovery.BootGroup(Crash.Images(x.w.g)), MetaLog.Recovered(x.s.zones)[k];
    var pool := x.w.live + x.ghosts;
    forall j | 0 <= j < |f.pieces| ensures SourcedBoth(x.w.g, g, pool, f.pieces[j]) {
      assert Sourced(x.w.g, pool, f.pieces[j]);
      var q :| q in pool && Matches(q, f.pieces[j]) && LiveOk(x.w.g, q);
      Crash.BootLive(x.w.g, q);
    }
    SourcedContent(x.w.g, g, pool, f.pieces);
    ReadClosed(Payloads(g, f.pieces), f.size, offset, n);
  }

  lemma {:induction false} GoodAligned(x: Sys)
    requires Good(x)
    ensures Crash.Aligned(Crash.Images(x.w.g))
  {
    Crash.ImagesAligned(x.w.g, x.w.live);
  }

  /** The condition is exact: a reset takes bytes of some file that would be recovered exactly when it is early. */
  lemma {:induction false} EarlyResetLosesIff(x: Sys, n: nat)
    requires Good(x) && Can(x, OnNode(Recycle(n))) && |x.s.zones| == 2
    ensures Early(x, OnNode(Recycle(n))) <==> exists k ::
      !AllMapped(Next(x, OnNode(Recycle(n))).w.g, MetaLog.Pieces(MetaLog.Recovered(x.s.zones), k))
  {
    hide Inv, MetaLog.Inv, Durable.SeenInv, MemoryLive, PoolApart, TableApart, Content, NodeGroup.After, LiveOk;
    hide NodeGroup.Enabled, MetaLog.Recovered, AllMapped, AllSourced, InTable, Can, Next, Early, Good;
    if Early(x, OnNode(Recycle(n))) {
      var k, p := EarlyPiece(x, n);
      EarlyResetLoses(x, n, k, p);
    } else {
      forall k ensures AllMapped(Next(x, OnNode(Recycle(n))).w.g, MetaLog.Pieces(MetaLog.Recovered(x.s.zones), k)) {
        LateResetKeeps(x, n, k);
      }
    }
  }

  lemma {:induction false} EarlyPiece(x: Sys, n: nat) returns (k: Name, p: Piece)
    requires Good(x) && Early(x, OnNode(Recycle(n)))
    ensures |x.s.zones| == 2 && p in MetaLog.Pieces(MetaLog.Recovered(x.s.zones), k) && p.node == n
  {
    p :| InTable(Table(x.s), p) && p.node == n;
    k :| k in Table(x.s) && p in Table(x.s)[k].pieces;
    RecoveredTable(x, k);
    hide Good, MetaLog.Recovered;
  }

  lemma {:induction false} LateResetKeeps(x: Sys, n: nat, k: Name)
    requires Good(x) && Can(x, OnNode(Recycle(n))) && !Early(x, OnNode(Recycle(n))) && |x.s.zones| == 2
    ensures AllMapped(Next(x, OnNode(Recycle(n))).w.g, MetaLog.Pieces(MetaLog.Recovered(x.s.zones), k))
  {
    RecoveredTable(x, k);
    SparedPieces(x, Recycle(n), k);
    NodePoolKept(x.w, x.ghosts, Recycle(n));
    hide Inv, MetaLog.Inv, Durable.SeenInv, MemoryLive, PoolApart, TableApart, Content, NodeGroup.After, LiveOk;
    hide NodeGroup.Enabled, MetaLog.Recovered, AllMapped, AllSourced, PoolKept, Recoverable;
    var x' := Next(x, OnNode(Recycle(n)));
    KeptContent(x.w.g, x.w.live + x.ghosts, x'.w.g, x'.w.live + x'.ghosts, n,
                MetaLog.Pieces(MetaLog.Recovered(x.s.zones), k));
  }

  lemma {:induction false} EarlyResetLoses(x: Sys, n: nat, k: Name, p: Piece)
    requires Good(x) && Can(x, OnNode(Recycle(n))) && |x.s.zones| == 2
    requires p in MetaLog.Pieces(MetaLog.Recovered(x.s.zones), k) && p.node == n
    ensures !AllMapped(Next(x, OnNode(Recycle(n))).w.g, MetaLog.Pieces(MetaLog.Recovered(x.s.zones), k))
  {
    hide Inv, MetaLog.Inv, Durable.SeenInv, MemoryLive, Recoverable, MetaLog.Recovered, PoolApart, TableApart, Content;
    hide NodeGroup.Enabled, NodeGroup.After, MetaLog.Pieces, LiveOk, Table;
    RecoveredTable(x, k);
    var ps := MetaLog.Pieces(MetaLog.Recovered(x.s.zones), k);
    var i :| 0 <= i < |ps| && ps[i] == p;
    assert Sourced(x.w.g, x.w.live + x.ghosts, ps[i]);
    var q :| q in x.w.live + x.ghosts && Matches(q, p) && LiveOk(x.w.g, q);
    RecycledUnmapped(x.w, n, q, p);
  }

  lemma {:induction false} RecycledUnmapped(w: World, n: nat, q: Live, p: Piece)
    requires NodeGroup.Enabled(w, Recycle(n)) && p.node == n && Matches(q, p) && LiveOk(w.g, q)
    ensures !Mapped(NodeGroup.After(w, Recycle(n)).g, p)
  {
  }

  // ----- every crash point can be restarted from

  lemma {:induction false} FromAllPieces(files: seq<MetaLog.File>, i: nat) returns (x: nat, j: nat)
    requires i < |Recovery.AllPieces(files)|
    ensures x < |files| && j < |files[x].pieces| && files[x].pieces[j] == Recovery.AllPieces(files)[i]
  {
    var n := |files| - 1;
    var before := Recovery.AllPieces(files[..n]);
    if i < |before| {
      x, j := FromAllPieces(files[..n], i);
    } else {
      x, j := n, i - |before|;
    }
  }

  ghost predicate FilesApart(files: seq<MetaLog.File>) {
    forall x, y, i, j
      | 0 <= x < |files| && 0 <= y < |files| && 0 <= i < |files[x].pieces| && 0 <= j < |files[y].pieces| ::
      x != y || i != j ==> !SamePlace(files[x].pieces[i], files[y].pieces[j])
  }

  lemma {:induction false} AllPiecesApart(files: seq<MetaLog.File>)
    requires FilesApart(files)
    ensures PairwiseApart(Recovery.AllPieces(files))
  {
    if files != [] {
      var n := |files| - 1;
      AllPiecesApart(files[..n]);
      var before, ps := Recovery.AllPieces(files[..n]), Recovery.AllPieces(files);
      forall i, j | 0 <= i < j < |ps| ensures !SamePlace(ps[i], ps[j]) {
        if j >= |before| && i < |before| {
          var x, y := FromAllPieces(files[..n], i);
          assert !SamePlace(files[x].pieces[y], files[n].pieces[j - |before|]);
        } else if i >= |before| {
          assert !SamePlace(files[n].pieces[i - |before|], files[n].pieces[j - |before|]);
        }
      }
    }
  }

  lemma {:induction false} FoundApart(files: MetaLog.Files, keys: seq<Name>)
    requires MetaLog.Enumerates(keys, files) && TableApart(files)
    ensures FilesApart(Crash.Listing(files, keys))
  {
    var fs := Crash.Listing(files, keys);
    forall x, y, i, j | 0 <= x < |fs| && 0 <= y < |fs| && 0 <= i < |fs[x].pieces| && 0 <= j < |fs[y].pieces| &&
      (x != y || i != j) ensures !SamePlace(fs[x].pieces[i], fs[y].pieces[j])
    {
      assert MetaLog.Pieces(files, keys[x]) == fs[x].pieces && MetaLog.Pieces(files, keys[y]) == fs[y].pieces;
      assert x < y ==> keys[x] != keys[y];
      assert y < x ==> keys[y] != keys[x];
    }
  }

  /** The live pieces behind a list of pieces. */
  lemma {:induction false} Behind(g: Group, pool: seq<Live>, ps: seq<Piece>) returns (live: seq<Live>)
    requires AllSourced(g, pool, ps)
    ensures |live| == |ps|
    ensures forall i :: 0 <= i < |ps| ==> live[i] in pool && Matches(live[i], ps[i]) && LiveOk(g, live[i])
  {
    hide LiveOk;
    if ps == [] {
      live := [];
    } else {
      var n := |ps| - 1;
      forall i | 0 <= i < n ensures Sourced(g, pool, ps[..n][i]) {
        assert Sourced(g, pool, ps[i]);
      }
      var before := Behind(g, pool, ps[..n]);
      assert Sourced(g, pool, ps[n]);
      var q :| q in pool && Matches(q, ps[n]) && LiveOk(g, q);
      live := before + [q];
      forall i | 0 <= i < |ps| ensures live[i] in pool && Matches(live[i], ps[i]) && LiveOk(g, live[i]) {
        assert i < n ==> ps[..n][i] == ps[i];
      }
    }
  }

  /** The pieces of the recovered files are sourced. */
  lemma {:induction false} FoundSourced(x: Sys, keys: seq<Name>)
    requires Good(x) && |x.s.zones| == 2 && MetaLog.Enumerates(keys, MetaLog.Recovered(x.s.zones))
    ensures var ps := Recovery.AllPieces(Found(x, keys));
      AllSourced(x.w.g, x.w.live + x.ghosts, ps) && PairwiseApart(ps)
  {
    hide Inv, MetaLog.Inv, Durable.SeenInv, Recoverable, MemoryLive, PoolApart, TableApart, MetaLog.Recovered, Sourced;
    var files, fs := MetaLog.Recovered(x.s.zones), Found(x, keys);
    var ps := Recovery.AllPieces(fs);
    RecoveredTable(x, []);
    FoundApart(files, keys);
    hide FilesApart, Good;
    AllPiecesApart(fs);
    hide PairwiseApart;
    forall i | 0 <= i < |ps| ensures Sourced(x.w.g, x.w.live + x.ghosts, ps[i]) {
      var y, j := FromAllPieces(fs, i);
      RecoveredTable(x, keys[y]);
      assert ps[i] == MetaLog.Pieces(files, keys[y])[j];
    }
  }

  /** Levels continue on different nodes, the last open node holds something, and every object is replayed under its
      own name. */
  ghost predicate MayGoOn(x: Sys, keys: seq<Name>)
    requires |x.s.zones| == 2 && MetaLog.Enumerates(keys, MetaLog.Recovered(x.s.zones))
    requires Crash.Aligned(Crash.Images(x.w.g))
    requires Recovery.AllSettable(Recovery.BootGroup(Crash.Images(x.w.g)), Recovery.AllFound(Found(x, keys)))
  {
    MetaLog.NamesAgree(MetaLog.Recovered(x.s.zones)) &&
    Recovery.LevelsApart(Recovery.BootGroup(Crash.Images(x.w.g)), Recovery.AllFound(Found(x, keys))) &&
    !Recovery.LastOpenEmpty(Crash.Images(x.w.g), Recovery.AllPieces(Found(x, keys)))
  }

  /** At every good state start-up finds what it needs on the device: the pieces of every recovered file, with their
      bytes and apart from each other.  Only levels that would share a node, an empty last open node and objects
      replayed under another name stand against going on. */
  lemma {:induction false} RestartPossible(x: Sys, keys: seq<Name>) returns (live: seq<Live>)
    requires Good(x) && |x.s.zones| == 2 && MetaLog.Enumerates(keys, MetaLog.Recovered(x.s.zones))
    ensures Crash.Aligned(Crash.Images(x.w.g))
    ensures var g, files := Recovery.BootGroup(Crash.Images(x.w.g)), Found(x, keys);
      Recovery.Backed(g, Recovery.AllPieces(files), live) && Recovery.AllSettable(g, Recovery.AllFound(files)) &&
      (CanRestart(x, keys, live) <==> MayGoOn(x, keys))
  {
    GoodAligned(x);
    FoundSourced(x, keys);
    CanReboot(x);
    var imgs, files := Crash.Images(x.w.g), Found(x, keys);
    var pool, ps := x.w.live + x.ghosts, Recovery.AllPieces(files);
    live := Behind(x.w.g, pool, ps);
    PoolBacks(x.w.g, pool, ps, live);
    Recovery.FoundPieces(files);
    BootSettable(imgs, ps, live, Recovery.AllFound(files));
    hide Good, AllSourced, PairwiseApart, Recovery.Backed, Recovery.AllSettable, Recovery.AllPieces, Recovery.AllFound;
    hide Crash.Images, Recovery.BootGroup, Crash.Aligned, MetaLog.Recovered, LiveOk, Found, MetaLog.Enabled;
  }

  lemma {:induction false} CanReboot(x: Sys)
    requires Good(x)
    ensures MetaLog.Enabled(x.s, MetaLog.Reboot)
  {
    hide Inv, Durable.SeenInv, Recoverable, MemoryLive, PoolApart, TableApart;
  }

  lemma {:induction false} PoolBacks(g: Group, pool: seq<Live>, ps: seq<Piece>, live: seq<Live>)
    requires PoolApart(g, pool) && PairwiseApart(ps) && |live| == |ps| && Crash.Aligned(Crash.Images(g))
    requires forall i :: 0 <= i < |ps| ==> live[i] in pool && Matches(live[i], ps[i])
    ensures Recovery.Backed(Recovery.BootGroup(Crash.Images(g)), ps, live)
  {
    forall i | 0 <= i < |live| ensures LiveOk(Recovery.BootGroup(Crash.Images(g)), live[i]) {
      Crash.BootLive(g, live[i]);
    }
    hide LiveOk, Recovery.BootGroup, Crash.Images, Crash.Aligned;
    forall i, j | 0 <= i < j < |live| ensures Apart(live[i], live[j]) {
      assert !SamePlace(ps[i], ps[j]);
    }
  }

  lemma {:induction false} BootSettable(imgs: seq<seq<Byte>>, ps: seq<Piece>, live: seq<Live>, es: seq<Recovery.Found>)
    requires Crash.Aligned(imgs) && Recovery.Backed(Recovery.BootGroup(imgs), ps, live)
    requires |es| == |ps| && forall i :: 0 <= i < |ps| ==> es[i].node == ps[i].node
    ensures Recovery.AllSettable(Recovery.BootGroup(imgs), es)
  {
    Recovery.BootQueue(imgs);
    hide Recovery.BootGroup;
    forall i | 0 <= i < |es| ensures es[i].node < |Recovery.BootGroup(imgs).nodes| {
      assert LiveOk(Recovery.BootGroup(imgs), live[i]);
    }
  }

  // ----- the machine is made of the other two

  /** Every step is one of the log, of the nodes, or a restart of both; and the rest stands still. */
  lemma {:induction false} Components(x: Sys, a: Act)
    requires Can(x, a)
    ensures a.OnLog? ==>
      MetaLog.Enabled(x.s, a.step) && Next(x, a).s == MetaLog.After(x.s, a.step) && Next(x, a).w == x.w
    ensures a.OnNode? ==>
      NodeGroup.Enabled(x.w, a.e) && Next(x, a).w == NodeGroup.After(x.w, a.e) && Next(x, a).s == x.s
    ensures a.Condemn? ==> Next(x, a).w == x.w && Next(x, a).s == x.s
    ensures a.Restart? ==>
      MetaLog.Enabled(x.s, MetaLog.Reboot) && Next(x, a).s == MetaLog.After(x.s, MetaLog.Reboot) &&
      Next(x, a).w.live == a.live && MetaLog.NamesAgree(MetaLog.Recovered(x.s.zones))
  {
    hide MetaLog.After, MetaLog.Enabled, NodeGroup.Enabled, NodeGroup.After, MetaLog.Recovered;
  }

  /** The steps of the log in a run. */
  ghost function LogSteps(acts: seq<Act>): seq<MetaLog.Step> {
    if acts == [] then []
    else
      var a := acts[|acts| - 1];
      LogSteps(acts[..|acts| - 1]) +
      (if a.OnLog? then [a.step] else if a.Restart? then [MetaLog.Reboot] else [])
  }

  /** The log of a run of the whole is a run of the log, with clean restarts: what was proved of the log holds of it. */
  lemma {:induction false} LogOfRun(nodes: nat, run: seq<Sys>, acts: seq<Act>, i: nat) returns (logs: seq<MetaLog.Log>)
    requires IsRun(nodes, run, acts) && i < |run|
    ensures MetaLog.IsRun(logs, LogSteps(acts[..i])) && logs[|logs| - 1] == run[i].s
    ensures MetaLog.CleanRestarts(logs, LogSteps(acts[..i]), |logs| - 1)
  {
    hide Can, Next, MetaLog.Enabled, MetaLog.After, MetaLog.NamesAgree, MetaLog.Recovered;
    if i == 0 {
      logs := [run[0].s];
      assert acts[..0] == [];
    } else {
      logs := LogOfRun(nodes, run, acts, i - 1);
      var a, steps := acts[i - 1], LogSteps(acts[..i - 1]);
      assert acts[..i][..i - 1] == acts[..i - 1];
      Components(run[i - 1], a);
      RestartZones(run[i - 1], a);
      if a.OnLog? || a.Restart? {
        var step := if a.OnLog? then a.step else MetaLog.Reboot;
        LogExtend(logs, steps, step);
        logs := logs + [MetaLog.After(run[i - 1].s, step)];
      }
    }
  }

  lemma {:induction false} RestartZones(x: Sys, a: Act)
    requires Can(x, a)
    ensures a.Restart? ==> |x.s.zones| == 2
    ensures a.OnLog? ==> !a.step.Reboot?
  {
    hide MetaLog.Enabled;
  }

  lemma {:induction false} LogExtend(logs: seq<MetaLog.Log>, steps: seq<MetaLog.Step>, step: MetaLog.Step)
    requires MetaLog.IsRun(logs, steps) && MetaLog.CleanRestarts(logs, steps, |logs| - 1)
    requires MetaLog.Enabled(logs[|logs| - 1], step)
    requires step.Reboot? ==> |logs[|logs| - 1].zones| == 2
    requires step.Reboot? ==> MetaLog.NamesAgree(MetaLog.Recovered(logs[|logs| - 1].zones))
    ensures var logs' := logs + [MetaLog.After(logs[|logs| - 1], step)];
      MetaLog.IsRun(logs', steps + [step]) && MetaLog.CleanRestarts(logs', steps + [step], |logs'| - 1)
  {
    hide MetaLog.Enabled, MetaLog.After, MetaLog.NamesAgree, MetaLog.Recovered;
    var logs', steps' := logs + [MetaLog.After(logs[|logs| - 1], step)], steps + [step];
    forall j | 0 <= j < |steps'|
      ensures MetaLog.Enabled(logs'[j], steps'[j]) && logs'[j + 1] == MetaLog.After(logs'[j], steps'[j])
    {
      assert j < |steps| ==> logs'[j] == logs[j] && logs'[j + 1] == logs[j + 1];
    }
  }

  /** DeleteFile and MigrateNodeFile can trim what they give up: once the pieces are condemned nothing else stands
      behind them. */
  lemma {:induction false} CondemnedTrims(x: Sys, k: Name, ps: set<Piece>, p: Piece, i: nat)
    requires Good(x) && Can(x, Condemn(k, ps)) && p in ps && i < |x.w.live| && Matches(x.w.live[i], p)
    ensures Can(Next(x, Condemn(k, ps)), OnNode(Discard(i)))
  {
    hide Inv, MetaLog.Inv, Durable.SeenInv, Recoverable, MemoryLive, PoolApart, TableApart, InTable;
    TrimInv(x.w.g, x.w.live, i);
    var files := x.s.files;
    forall r | InTable(files, r) && Matches(x.w.live[i], r) ensures r in ps {
      OnePiece(files, k, p, r);
    }
  }

  lemma {:induction false} OnePiece(files: MetaLog.Files, k: Name, p: Piece, r: Piece)
    requires TableApart(files) && k in files && p in files[k].pieces && InTable(files, r) && SamePlace(p, r)
    ensures p == r
  {
    var n :| n in files && r in files[n].pieces;
    var a :| 0 <= a < |files[n].pieces| && files[n].pieces[a] == r;
    var b :| 0 <= b < |files[k].pieces| && files[k].pieces[b] == p;
    assert MetaLog.Pieces(files, n)[a] == r && MetaLog.Pieces(files, k)[b] == p;
  }
}
