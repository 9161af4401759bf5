/** The node lists, the accounting of valid units, and the life of a piece: allocation, write, trim
    and reset, interleaved over all levels.  A node is represented by its image; `Layout.Stripe` says
    what its zones hold. */
module NodeGroup {
  import opened Layout
  import opened ReadPath

  const LEVELS: nat := 5

  /** Units of the largest buffer a write is given (ZNS_MAX_BUF). */
  const BUF_UNITS: nat := 1024

  datatype Status = Free | Used | Full | Reset

  datatype Node = Node(img: seq<Byte>, left: nat, used: nat, valid: nat, status: Status, level: int)

  /** The node a level is writing to, if any. */
  datatype Held = Nothing | Holding(node: nat)

  datatype Group = Group(nodes: seq<Node>, free: seq<nat>, used: seq<nat>, full: seq<nat>, nfree: int,
                         queue: seq<Held>)

  /** A piece that a write returned and nobody trimmed, with the bytes that were written. */
  datatype Live = Live(node: nat, start: nat, num: nat, data: seq<Byte>)

  const FRESH_NODE: Node := Node([], NODE_UNITS, 0, 0, Free, -1)

  // ----- lists

  ghost predicate Distinct(list: seq<nat>) {
    forall i, j :: 0 <= i < j < |list| ==> list[i] != list[j]
  }

  /** TAILQ_REMOVE. */
  function Unlink(list: seq<nat>, n: nat): (rest: seq<nat>)
    ensures n !in list ==> rest == list
    ensures forall x :: x in rest ==> x in list
    ensures forall x :: x in list && x != n ==> x in rest
  {
    if list == [] then []
    else if list[0] == n then list[1..]
    else [list[0]] + Unlink(list[1..], n)
  }

  lemma {:induction false} UnlinkDistinct(list: seq<nat>, n: nat)
    requires Distinct(list)
    ensures Distinct(Unlink(list, n)) && n !in Unlink(list, n)
  {
    if list != [] {
      assert list[0] !in list[1..];
      if list[0] != n {
        UnlinkDistinct(list[1..], n);
        assert list[0] !in Unlink(list[1..], n);
      }
    }
  }

  lemma {:induction false} HeadMoves(from: seq<nat>, to: seq<nat>)
    requires Distinct(from) && Distinct(to) && from != [] && from[0] !in to
    ensures Distinct(from[1..]) && Distinct(to + [from[0]]) && from[0] !in from[1..]
    ensures forall x :: x in from <==> x == from[0] || x in from[1..]
    ensures forall x :: x in to + [from[0]] <==> x == from[0] || x in to
  {
  }

  // ----- the operations

  ghost predicate CanGet(g: Group, l: nat) {
    l < |g.queue| && (g.queue[l].Holding? ==> g.queue[l].node < |g.nodes|) &&
    (g.free != [] ==> g.free[0] < |g.nodes|)
  }

  /** The level's node has room for at least one more unit. */
  predicate HasRoom(g: Group, l: nat)
    requires CanGet(g, l)
  {
    g.queue[l].Holding? && g.nodes[g.queue[l].node].left != 0
  }

  function Retired(g: Group, l: nat): Group
    requires l < |g.queue| && g.queue[l].Holding?
  {
    g.(used := Unlink(g.used, g.queue[l].node), full := g.full + [g.queue[l].node], queue := g.queue[l := Nothing])
  }

  function Taken(g: Group, l: nat): Group
    requires l < |g.queue| && g.free != [] && g.free[0] < |g.nodes|
  {
    var n := g.free[0];
    g.(free := g.free[1..], used := g.used + [n], nfree := g.nfree - 1, queue := g.queue[l := Holding(n)],
       nodes := g.nodes[n := g.nodes[n].(status := Used)])
  }

  /** ztl_pro_grp_get_node: keep the level's node while it has room; otherwise retire it to the full
      list and take the head of the free list. */
  function GetNode(g: Group, l: nat): (r: (Group, bool))
    requires CanGet(g, l)
  {
    if HasRoom(g, l) then (g, true)
    else
      var g1 := if g.queue[l].Holding? then Retired(g, l) else g;
      if g1.free == [] then (g1, false) else (Taken(g1, l), true)
  }

  ghost predicate CanPut(g: Group, l: nat, data: seq<Byte>) {
    l < |g.queue| && g.queue[l].Holding? && g.queue[l].node < |g.nodes| &&
    |data| % UNIT == 0 && 0 < |data| / UNIT <= g.nodes[g.queue[l].node].left && |data| / UNIT <= BUF_UNITS
  }

  /** One piece of ztl_io_write_ucmd: `data` goes to the level's node, at its first unused unit. */
  function WritePiece(g: Group, l: nat, data: seq<Byte>): Group
    requires l < |g.queue| && g.queue[l].Holding? && g.queue[l].node < |g.nodes|
    requires |data| / UNIT <= g.nodes[g.queue[l].node].left
  {
    var n := g.queue[l].node;
    var nd, num := g.nodes[n], |data| / UNIT;
    g.(nodes := g.nodes[n :=
         Node(nd.img + data, nd.left - num, nd.used + num, nd.valid + num,
              if nd.left == num then Full else nd.status,
              if nd.level == -1 then l else nd.level)])
  }

  /** zrocks_trim: a full node that loses its last valid unit is sent to reset. */
  function Trim(g: Group, n: nat, num: nat): Group
    requires n < |g.nodes| && num <= g.nodes[n].valid
  {
    var nd := g.nodes[n];
    var valid := nd.valid - num;
    g.(nodes := g.nodes[n := nd.(valid := valid,
                                 status := if valid == 0 && nd.status == Full then Reset else nd.status)])
  }

  /** ztl_mgmt_node_reset: the node is unlinked from the list it is on and becomes free. */
  function ResetNode(g: Group, n: nat): Group
    requires n < |g.nodes|
  {
    g.(nodes := g.nodes[n := FRESH_NODE], used := Unlink(g.used, n), full := Unlink(g.full, n),
       free := g.free + [n], nfree := g.nfree + 1)
  }

  // ----- the invariant

  predicate OnOneList(g: Group, n: nat) {
    (n in g.free || n in g.used || n in g.full) &&
    !(n in g.free && n in g.used) && !(n in g.free && n in g.full) && !(n in g.used && n in g.full)
  }

  /** The free, used and full lists are disjoint and cover the nodes. */
  ghost predicate Lists(g: Group) {
    |g.queue| == LEVELS && g.nfree == |g.free| &&
    (forall n :: n in g.free || n in g.used || n in g.full ==> n < |g.nodes|) &&
    Distinct(g.free) && Distinct(g.used) && Distinct(g.full) &&
    (forall n :: 0 <= n < |g.nodes| ==> OnOneList(g, n))
  }

  ghost predicate Queues(g: Group) {
    |g.queue| == LEVELS &&
    (forall l :: 0 <= l < LEVELS && g.queue[l].Holding? ==> g.queue[l].node in g.used) &&
    (forall l, m :: 0 <= l < m < LEVELS && g.queue[l].Holding? ==> g.queue[l] != g.queue[m])
  }

  ghost predicate IsHeld(g: Group, n: nat) {
    Holding(n) in g.queue
  }

  ghost predicate NodeOk(g: Group, n: nat)
    requires n < |g.nodes|
  {
    var nd := g.nodes[n];
    nd.left + nd.used == NODE_UNITS && |nd.img| == nd.used * UNIT &&
    (nd.status == Free <==> n in g.free) && (n in g.free ==> nd == FRESH_NODE) &&
    (nd.left == 0 <==> nd.status == Full || nd.status == Reset) &&
    (n in g.full ==> nd.left == 0) && (n in g.used && nd.left == 0 ==> IsHeld(g, n)) &&
    (nd.status == Reset ==> nd.valid == 0)
  }

  ghost function LiveUnits(live: seq<Live>, n: nat): nat {
    if live == [] then 0
    else LiveUnits(live[..|live| - 1], n) + (if live[|live| - 1].node == n then live[|live| - 1].num else 0)
  }

  ghost predicate LiveOk(g: Group, p: Live) {
    p.node < |g.nodes| && 0 < p.num <= BUF_UNITS && |p.data| == p.num * UNIT &&
    (p.start + p.num) * UNIT <= |g.nodes[p.node].img| &&
    g.nodes[p.node].img[p.start * UNIT..(p.start + p.num) * UNIT] == p.data
  }

  predicate Apart(p: Live, q: Live) {
    p.node != q.node || p.start + p.num <= q.start || q.start + q.num <= p.start
  }

  ghost predicate Inv(g: Group, live: seq<Live>) {
    Lists(g) && Queues(g) &&
    (forall n :: 0 <= n < |g.nodes| ==> NodeOk(g, n)) &&
    (forall n :: 0 <= n < |g.nodes| ==> g.nodes[n].valid == LiveUnits(live, n)) &&
    (forall i :: 0 <= i < |live| ==> LiveOk(g, live[i])) &&
    (forall i, j :: 0 <= i < j < |live| ==> Apart(live[i], live[j]))
  }

  // ----- live units

  lemma {:induction false} LiveUnitsRemoved(live: seq<Live>, i: nat, n: nat)
    requires i < |live|
    ensures LiveUnits(live[..i] + live[i + 1..], n)
         == LiveUnits(live, n) - (if live[i].node == n then live[i].num else 0)
  {
    var last := |live| - 1;
    var rest := live[..i] + live[i + 1..];
    if i == last {
      assert rest == live[..last];
    } else {
      assert rest[..|rest| - 1] == live[..last][..i] + live[..last][i + 1..];
      LiveUnitsRemoved(live[..last], i, n);
    }
  }

  lemma {:induction false} LiveUnitsPositive(live: seq<Live>, i: nat, n: nat)
    requires i < |live| && live[i].node == n && live[i].num > 0
    ensures LiveUnits(live, n) >= live[i].num
  {
    if i < |live| - 1 {
      LiveUnitsPositive(live[..|live| - 1], i, n);
    }
  }

  lemma {:induction false} NoLivePiece(live: seq<Live>, n: nat)
    requires LiveUnits(live, n) == 0 && forall i :: 0 <= i < |live| ==> live[i].num > 0
    ensures forall i :: 0 <= i < |live| ==> live[i].node != n
  {
    forall i | 0 <= i < |live| ensures live[i].node != n {
      if live[i].node == n {
        LiveUnitsPositive(live, i, n);
      }
    }
  }

  // ----- every operation keeps the invariant

  /** The level's exhausted node moves from the used to the full list. */
  lemma {:induction false} RetireInv(g: Group, live: seq<Live>, l: nat)
    requires Inv(g, live) && l < LEVELS && g.queue[l].Holding?
    requires g.queue[l].node < |g.nodes| && g.nodes[g.queue[l].node].left == 0
    ensures Inv(Retired(g, l), live)
  {
    var q, g' := g.queue[l].node, Retired(g, l);
    assert OnOneList(g, q);
    UnlinkDistinct(g.used, q);
    forall n | 0 <= n < |g.nodes| ensures OnOneList(g', n) && NodeOk(g', n) {
      assert OnOneList(g, n) && NodeOk(g, n);
      if n != q && IsHeld(g, n) {
        var m :| 0 <= m < LEVELS && g.queue[m] == Holding(n);
        assert g'.queue[m] == Holding(n);
      }
    }
    forall i | 0 <= i < |live| ensures LiveOk(g', live[i]) {
      assert LiveOk(g, live[i]);
    }
  }

  /** The head of the free list becomes the node of a level that holds none. */
  lemma {:induction false} TakeInv(g: Group, live: seq<Live>, l: nat)
    requires Inv(g, live) && l < LEVELS && g.queue[l] == Nothing && g.free != [] && g.free[0] < |g.nodes|
    ensures Inv(Taken(g, l), live)
  {
    var n, g' := g.free[0], Taken(g, l);
    assert n in g.free;
    assert OnOneList(g, n);
    assert g'.queue[l] == Holding(n);
    HeadMoves(g.free, g.used);
    hide Distinct;
    forall m | 0 <= m < |g.nodes| ensures OnOneList(g', m) && NodeOk(g', m) {
      assert OnOneList(g, m) && NodeOk(g, m);
      if m != n && IsHeld(g, m) {
        var k :| 0 <= k < LEVELS && g.queue[k] == Holding(m);
        assert g'.queue[k] == Holding(m);
      }
    }
    forall i | 0 <= i < |live| ensures LiveOk(g', live[i]) {
      assert LiveOk(g, live[i]);
    }
  }

  lemma {:induction false} HeadsInRange(g: Group, l: nat)
    requires Lists(g) && Queues(g) && l < LEVELS
    ensures g.queue[l].Holding? ==> g.queue[l].node < |g.nodes|
    ensures g.free != [] ==> g.free[0] < |g.nodes|
  {
    if g.free != [] {
      assert g.free[0] in g.free;
    }
  }

  /** GetNode fails exactly when the level has no room left and no node is free; otherwise the level
      ends up holding a node with room. */
  lemma {:induction false} GetNodeInv(g: Group, live: seq<Live>, l: nat)
    requires Inv(g, live) && l < LEVELS && CanGet(g, l)
    ensures Inv(GetNode(g, l).0, live)
    ensures GetNode(g, l).1 ==> var g' := GetNode(g, l).0;
      g'.queue[l].Holding? && g'.queue[l].node < |g'.nodes| && g'.nodes[g'.queue[l].node].left > 0
    ensures !GetNode(g, l).1 <==> !HasRoom(g, l) && g.free == []
  {
    if !HasRoom(g, l) {
      var g1 := if g.queue[l].Holding? then Retired(g, l) else g;
      if g.queue[l].Holding? {
        RetireInv(g, live, l);
      }
      if g.free != [] {
        TakeInv(g1, live, l);
        assert g.free[0] in g.free && NodeOk(g, g.free[0]);
      }
    }
  }

  /** The piece a level's next write of `data` makes. */
  function NewPiece(g: Group, l: nat, data: seq<Byte>): Live
    requires l < |g.queue| && g.queue[l].Holding? && g.queue[l].node < |g.nodes|
  {
    Live(g.queue[l].node, g.nodes[g.queue[l].node].used, |data| / UNIT, data)
  }

  /** A write leaves every node in order. */
  lemma {:induction false} WritePieceNode(g: Group, live: seq<Live>, l: nat, data: seq<Byte>, m: nat)
    requires Inv(g, live) && l < LEVELS && CanPut(g, l, data) && m < |g.nodes|
    ensures var g' := WritePiece(g, l, data);
      OnOneList(g', m) && NodeOk(g', m) && g'.nodes[m].valid == LiveUnits(live + [NewPiece(g, l, data)], m)
  {
    var n := g.queue[l].node;
    assert n in g.used && IsHeld(g, n);
    assert OnOneList(g, n) && NodeOk(g, n) && OnOneList(g, m) && NodeOk(g, m);
    assert (live + [NewPiece(g, l, data)])[..|live|] == live;
  }

  /** The new piece holds its bytes, and older pieces keep theirs. */
  lemma {:induction false} WritePieceLive(g: Group, live: seq<Live>, l: nat, data: seq<Byte>, i: nat)
    requires Inv(g, live) && l < LEVELS && CanPut(g, l, data) && i <= |live|
    ensures var p, g' := NewPiece(g, l, data), WritePiece(g, l, data);
      LiveOk(g', if i < |live| then live[i] else p) && (i < |live| ==> Apart(live[i], p))
  {
    var g', p, n := WritePiece(g, l, data), NewPiece(g, l, data), g.queue[l].node;
    assert NodeOk(g, n);
    if i < |live| {
      assert LiveOk(g, live[i]) && NodeOk(g, live[i].node);
      assert g.nodes[live[i].node].img <= g'.nodes[live[i].node].img;
    } else {
      assert g'.nodes[n].img[p.start * UNIT..(p.start + p.num) * UNIT] == data;
    }
  }

  lemma {:induction false} WritePieceInv(g: Group, live: seq<Live>, l: nat, data: seq<Byte>)
    requires Inv(g, live) && l < LEVELS && CanPut(g, l, data)
    ensures Inv(WritePiece(g, l, data), live + [NewPiece(g, l, data)])
  {
    var g', p := WritePiece(g, l, data), NewPiece(g, l, data);
    var live' := live + [p];
    assert Lists(g) && Queues(g);
    hide NodeOk, LiveOk, OnOneList, LiveUnits;
    forall m | 0 <= m < |g.nodes|
      ensures OnOneList(g', m) && NodeOk(g', m) && g'.nodes[m].valid == LiveUnits(live', m)
    {
      WritePieceNode(g, live, l, data, m);
    }
    forall i | 0 <= i < |live'| ensures LiveOk(g', live'[i]) {
      WritePieceLive(g, live, l, data, i);
    }
    forall i | 0 <= i < |live| ensures Apart(live[i], p) {
      WritePieceLive(g, live, l, data, i);
    }
  }

  lemma {:induction false} TrimNode(g: Group, live: seq<Live>, i: nat, n: nat)
    requires Inv(g, live) && i < |live| && n < |g.nodes|
    requires live[i].node < |g.nodes| && live[i].num <= g.nodes[live[i].node].valid
    ensures var g' := Trim(g, live[i].node, live[i].num);
      OnOneList(g', n) && NodeOk(g', n) && g'.nodes[n].valid == LiveUnits(live[..i] + live[i + 1..], n)
  {
    assert OnOneList(g, n) && NodeOk(g, n);
    LiveUnitsRemoved(live, i, n);
  }

  lemma {:induction false} TrimInv(g: Group, live: seq<Live>, i: nat)
    requires Inv(g, live) && i < |live|
    ensures live[i].node < |g.nodes| && live[i].num <= g.nodes[live[i].node].valid
    ensures Inv(Trim(g, live[i].node, live[i].num), live[..i] + live[i + 1..])
  {
    var p := live[i];
    assert LiveOk(g, p) && NodeOk(g, p.node);
    LiveUnitsPositive(live, i, p.node);
    var g', live' := Trim(g, p.node, p.num), live[..i] + live[i + 1..];
    hide NodeOk, OnOneList, LiveUnits;
    forall n | 0 <= n < |g.nodes|
      ensures OnOneList(g', n) && NodeOk(g', n) && g'.nodes[n].valid == LiveUnits(live', n)
    {
      TrimNode(g, live, i, n);
    }
    forall j | 0 <= j < |live'| ensures LiveOk(g', live'[j]) {
      assert LiveOk(g, live[if j < i then j else j + 1]);
    }
  }

  lemma {:induction false} ResetOnFullInv(g: Group, live: seq<Live>, n: nat)
    requires Inv(g, live) && n < |g.nodes| && g.nodes[n].status == Reset && n in g.full
    ensures Inv(ResetNode(g, n), live)
  {
    var g' := ResetNode(g, n);
    assert OnOneList(g, n) && NodeOk(g, n);
    UnlinkDistinct(g.full, n);
    forall i | 0 <= i < |live| ensures live[i].num > 0 {
      assert LiveOk(g, live[i]);
    }
    NoLivePiece(live, n);
    forall m | 0 <= m < |g.nodes| ensures OnOneList(g', m) && NodeOk(g', m) {
      assert OnOneList(g, m) && NodeOk(g, m);
    }
    forall i | 0 <= i < |live| ensures LiveOk(g', live[i]) {
      assert LiveOk(g, live[i]);
    }
  }

  /** A requested reset keeps the invariant exactly when the node has reached the full list.  While a
      level still holds the node, the reset puts a held node on the free list. */
  lemma {:induction false} ResetSafeIff(g: Group, live: seq<Live>, n: nat)
    requires Inv(g, live) && n < |g.nodes| && g.nodes[n].status == Reset
    ensures Inv(ResetNode(g, n), live) <==> n in g.full
  {
    if n in g.full {
      ResetOnFullInv(g, live, n);
    } else {
      assert NodeOk(g, n) && OnOneList(g, n);
      var l :| 0 <= l < LEVELS && g.queue[l] == Holding(n);
      UnlinkDistinct(g.used, n);
      assert ResetNode(g, n).queue[l] == Holding(n);
    }
  }

  /** What then goes wrong: the next level to ask for a node is given the one still in use. */
  lemma {:induction false} EarlyResetSharesNode(g: Group, live: seq<Live>, n: nat, l: nat, m: nat)
    requires Inv(g, live) && n < |g.nodes| && g.nodes[n].status == Reset
    requires l < LEVELS && m < LEVELS && l != m && g.queue[l] == Holding(n) && g.queue[m] == Nothing && g.free == []
    ensures CanGet(ResetNode(g, n), m)
    ensures var g' := GetNode(ResetNode(g, n), m).0; g'.queue[l] == g'.queue[m] == Holding(n)
  {
    var g1 := ResetNode(g, n);
    assert g1.free == [n];
  }

  // ----- a fresh group

  /** The group of `n` empty nodes. */
  function FreshGroup(n: nat): Group {
    Group(seq(n, _ => FRESH_NODE), seq(n, i requires 0 <= i => i), [], [], n, seq(LEVELS, _ => Nothing))
  }

  lemma {:induction false} FreshInv(n: nat)
    ensures Inv(FreshGroup(n), []) && |FreshGroup(n).nodes| == |FreshGroup(n).free| == n
  {
    var g := FreshGroup(n);
    forall m | 0 <= m < n ensures OnOneList(g, m) && NodeOk(g, m) {
      assert g.free[m] == m;
    }
  }

  // ----- runs

  /** One step of some level, of a user or of the management thread. */
  datatype Event = Obtain(l: nat) | Put(l: nat, data: seq<Byte>) | Discard(i: nat) | Recycle(n: nat)

  datatype World = World(g: Group, live: seq<Live>)

  ghost predicate Enabled(w: World, e: Event) {
    match e
    case Obtain(l) => l < LEVELS && CanGet(w.g, l)
    case Put(l, data) => l < LEVELS && CanPut(w.g, l, data)
    case Discard(i) => i < |w.live| && w.live[i].node < |w.g.nodes| && w.live[i].num <= w.g.nodes[w.live[i].node].valid
    case Recycle(n) => n < |w.g.nodes| && w.g.nodes[n].status == Reset && n in w.g.full
  }

  ghost function After(w: World, e: Event): World
    requires Enabled(w, e)
  {
    match e
    case Obtain(l) => World(GetNode(w.g, l).0, w.live)
    case Put(l, data) => World(WritePiece(w.g, l, data), w.live + [NewPiece(w.g, l, data)])
    case Discard(i) => World(Trim(w.g, w.live[i].node, w.live[i].num), w.live[..i] + w.live[i + 1..])
    case Recycle(n) => World(ResetNode(w.g, n), w.live)
  }

  lemma {:induction false} StepInv(w: World, e: Event)
    requires Inv(w.g, w.live) && Enabled(w, e)
    ensures Inv(After(w, e).g, After(w, e).live)
  {
    match e
    case Obtain(l) => GetNodeInv(w.g, w.live, l);
    case Put(l, data) => WritePieceInv(w.g, w.live, l, data);
    case Discard(i) => TrimInv(w.g, w.live, i);
    case Recycle(n) => ResetOnFullInv(w.g, w.live, n);
  }

  ghost predicate IsRun(run: seq<World>, events: seq<Event>) {
    |run| == |events| + 1 && Inv(run[0].g, run[0].live) &&
    forall i :: 0 <= i < |events| ==> Enabled(run[i], events[i]) && run[i + 1] == After(run[i], events[i])
  }

  /** In every run the lists stay disjoint and cover the nodes, levels never share a node, the valid
      count of a node is the number of its live units, and every live piece is intact. */
  lemma {:induction false} RunInv(run: seq<World>, events: seq<Event>, i: nat)
    requires IsRun(run, events) && i < |run|
    ensures Inv(run[i].g, run[i].live)
  {
    if i > 0 {
      RunInv(run, events, i - 1);
      StepInv(run[i - 1], events[i - 1]);
    }
  }

  /** Step `k` of a run does not discard `p`. */
  ghost predicate Spares(run: seq<World>, events: seq<Event>, k: nat, p: Live)
    requires k < |run| && k < |events|
  {
    events[k].Discard? && events[k].i < |run[k].live| ==> run[k].live[events[k].i] != p
  }

  /** A piece stays live, with its bytes, until the step that discards it. */
  lemma {:induction false} RunKeepsPiece(run: seq<World>, events: seq<Event>, i: nat, j: nat, p: Live)
    requires IsRun(run, events) && i <= j < |run| && p in run[i].live
    requires forall k :: i <= k < j ==> Spares(run, events, k, p)
    ensures p in run[j].live
  {
    if i < j {
      RunKeepsPiece(run, events, i, j - 1, p);
      assert Spares(run, events, j - 1, p);
      KeepsPiece(run[j - 1], events[j - 1], p);
    }
  }

  lemma {:induction false} KeepsPiece(w: World, e: Event, p: Live)
    requires Enabled(w, e) && p in w.live
    requires e.Discard? ==> w.live[e.i] != p
    ensures p in After(w, e).live
  {
    if e.Discard? {
      var x :| 0 <= x < |w.live| && w.live[x] == p;
      assert After(w, e).live[if x < e.i then x else x - 1] == p;
    }
  }

  lemma {:induction false} StepKeepsBytes(w: World, e: Event, p: Live)
    requires Enabled(w, e) && LiveOk(w.g, p)
    ensures LiveOk(After(w, e).g, p) <==> e != Recycle(p.node)
  {
    if e.Put? && w.g.queue[e.l].node == p.node {
      var img := w.g.nodes[p.node].img;
      assert img <= After(w, e).g.nodes[p.node].img;
    }
  }

  /** The bytes of a piece, trimmed meanwhile or not, are there at every point up to `m` exactly when its node
      is not recycled before. */
  lemma {:induction false} BytesKeptIff(run: seq<World>, events: seq<Event>, i: nat, m: nat, p: Live)
    requires IsRun(run, events) && i <= m < |run| && p in run[i].live
    ensures (forall j :: i <= j <= m ==> LiveOk(run[j].g, p)) <==>
      (forall j :: i <= j < m ==> events[j] != Recycle(p.node))
  {
    hide Inv, LiveOk, After, Enabled;
    if i == m {
      RunInv(run, events, i);
      InvLive(run[i].g, run[i].live, p);
    } else {
      BytesKeptIff(run, events, i, m - 1, p);
      if forall j :: i <= j <= m - 1 ==> LiveOk(run[j].g, p) {
        assert run[m - 1 + 1] == After(run[m - 1], events[m - 1]);
        StepKeepsBytes(run[m - 1], events[m - 1], p);
        assert LiveOk(run[m].g, p) <==> events[m - 1] != Recycle(p.node);
      }
    }
  }

  lemma {:induction false} InvLive(g: Group, live: seq<Live>, p: Live)
    requires Inv(g, live) && p in live
    ensures LiveOk(g, p)
  {
    var x :| 0 <= x < |live| && live[x] == p;
  }

  // ----- a node waiting for its reset while a level holds it

  const HOLDS_FIRST: seq<Held> := [Holding(0), Nothing, Nothing, Nothing, Nothing]

  /** The only node is held by level 0, in order, and has no valid unit. */
  ghost predicate OnlyNode(w: World, status: Status, left: nat) {
    |w.g.nodes| == 1 && w.g == Group(w.g.nodes, [], [0], [], 0, HOLDS_FIRST) && w.live == [] &&
    w.g.nodes[0].status == status && w.g.nodes[0].left == left && w.g.nodes[0].valid == 0
  }

  lemma {:induction false} RunExtend(run: seq<World>, events: seq<Event>, e: Event)
    requires IsRun(run, events) && Enabled(run[|run| - 1], e)
    ensures IsRun(run + [After(run[|run| - 1], e)], events + [e])
  {
    hide Enabled, After, Inv;
  }

  lemma {:induction false} FirstObtain() returns (run: seq<World>, events: seq<Event>)
    ensures IsRun(run, events) && OnlyNode(run[|run| - 1], Used, NODE_UNITS)
  {
    FreshInv(1);
    var g := FreshGroup(1);
    assert g.free == [0] && g.nodes == [FRESH_NODE] && g.queue == [Nothing, Nothing, Nothing, Nothing, Nothing];
    var w := World(g, []);
    assert Enabled(w, Obtain(0));
    run, events := [w, After(w, Obtain(0))], [Obtain(0)];
  }

  /** A buffer is written and its piece trimmed. */
  lemma {:induction false} PutAndDiscard(w: World, data: seq<Byte>)
    requires |data| == BUF_UNITS * UNIT && w.g.nodes != [] && BUF_UNITS <= w.g.nodes[0].left
    requires OnlyNode(w, Used, w.g.nodes[0].left)
    ensures Enabled(w, Put(0, data)) && Enabled(After(w, Put(0, data)), Discard(0))
    ensures var left := w.g.nodes[0].left - BUF_UNITS;
      OnlyNode(After(After(w, Put(0, data)), Discard(0)), if left == 0 then Reset else Used, left)
  {
    assert |data| / UNIT == BUF_UNITS && |data| % UNIT == 0;
    var w1 := After(w, Put(0, data));
    assert w1.live == [NewPiece(w.g, 0, data)] && w1.live[..0] + w1.live[1..] == [];
  }

  /** Buffer after buffer, until the last one fills the node. */
  lemma {:induction false} FillRun(data: seq<Byte>, n: nat) returns (run: seq<World>, events: seq<Event>)
    requires |data| == BUF_UNITS * UNIT && n * BUF_UNITS <= NODE_UNITS
    ensures IsRun(run, events)
    ensures var left := NODE_UNITS - n * BUF_UNITS;
      OnlyNode(run[|run| - 1], if left == 0 then Reset else Used, left)
  {
    if n == 0 {
      run, events := FirstObtain();
    } else {
      run, events := FillRun(data, n - 1);
      PutAndDiscard(run[|run| - 1], data);
      hide Enabled, After, IsRun;
      RunExtend(run, events, Put(0, data));
      run, events := run + [After(run[|run| - 1], Put(0, data))], events + [Put(0, data)];
      RunExtend(run, events, Discard(0));
      run, events := run + [After(run[|run| - 1], Discard(0))], events + [Discard(0)];
    }
  }

  /** A run that ends with a node waiting for its reset while a level still holds it, another level has no
      node and none is free: 192 buffers fill the node, each trimmed after it was written. */
  lemma {:induction false} HeldResetReachable(data: seq<Byte>) returns (run: seq<World>, events: seq<Event>)
    requires |data| == BUF_UNITS * UNIT
    ensures IsRun(run, events)
    ensures var g := run[|run| - 1].g;
      |g.nodes| == 1 && g.nodes[0].status == Reset && |g.queue| == LEVELS && g.queue[0] == Holding(0) &&
      g.queue[1] == Nothing && g.free == [] && 0 !in g.full
  {
    run, events := FillRun(data, NODE_UNITS / BUF_UNITS);
  }

  /** A planned read of part of a piece, with the order in which its commands complete. */
  ghost predicate ReadOf(p: Live, off: nat, buf: seq<Byte>, cmds: seq<ReadCmd>, order: seq<nat>) {
    off + |buf| <= |p.data| && PlanOk(cmds, p.start * UNIT + off, |buf|) &&
    (forall x :: 0 <= x < |order| ==> order[x] < |cmds|) && (forall o :: 0 <= o < |cmds| ==> o in order)
  }

  /** Every read of the piece from the node's zones returns the bytes the piece was written with. */
  ghost predicate ReadsBack(g: Group, p: Live) {
    p.node < |g.nodes| && |g.nodes[p.node].img| % UNIT == 0 &&
    p.start * UNIT + |p.data| <= |g.nodes[p.node].img| &&
    forall off: nat, buf, cmds, order | ReadOf(p, off, buf, cmds, order) ::
      DeliverAll(buf, g.nodes[p.node].img, cmds, p.start * UNIT + off, order) == p.data[off..off + |buf|]
  }

  lemma {:induction false} ReadOfPiece(img: seq<Byte>, p: Live, off: nat, buf: seq<Byte>, cmds: seq<ReadCmd>,
                                       order: seq<nat>)
    requires ReadOf(p, off, buf, cmds, order) && |img| % UNIT == 0
    requires p.start * UNIT + |p.data| <= |img| && img[p.start * UNIT..p.start * UNIT + |p.data|] == p.data
    ensures DeliverAll(buf, img, cmds, p.start * UNIT + off, order) == p.data[off..off + |buf|]
  {
    hide DeliverAll, PlanOk;
    var b, n := p.start * UNIT, |buf|;
    assert p.data[off..off + n] == img[b + off..b + off + n] by {
      SliceOfSlice(img, b, |p.data|, off, n);
    }
    ReadReturnsImage(buf, img, cmds, b + off, order);
  }

  lemma {:induction false} LiveReadsBack(g: Group, p: Live)
    requires LiveOk(g, p) && |g.nodes[p.node].img| % UNIT == 0
    ensures ReadsBack(g, p)
  {
    var img := g.nodes[p.node].img;
    assert p.start * UNIT + |p.data| == (p.start + p.num) * UNIT;
    forall off: nat, buf, cmds, order | ReadOf(p, off, buf, cmds, order)
      ensures DeliverAll(buf, img, cmds, p.start * UNIT + off, order) == p.data[off..off + |buf|]
    {
      ReadOfPiece(img, p, off, buf, cmds, order);
    }
  }

  /** Whenever the invariant holds, every live piece reads back. */
  lemma {:induction false} InvReadsBack(g: Group, live: seq<Live>, p: Live)
    requires Inv(g, live) && p in live
    ensures ReadsBack(g, p)
  {
    hide ReadsBack;
    var x :| 0 <= x < |live| && live[x] == p;
    assert LiveOk(g, live[x]) && NodeOk(g, p.node);
    LiveReadsBack(g, p);
  }

  /** Over every run: a piece written at some point and not discarded since still reads back exactly
      the bytes written, whatever other levels wrote, discarded or recycled meanwhile. */
  lemma {:induction false} WrittenPieceReadsBack(run: seq<World>, events: seq<Event>, i: nat, j: nat)
    requires IsRun(run, events) && i < j < |run| && events[i].Put?
    requires CanPut(run[i].g, events[i].l, events[i].data)
    requires forall k :: i < k < j ==> Spares(run, events, k, NewPiece(run[i].g, events[i].l, events[i].data))
    ensures ReadsBack(run[j].g, NewPiece(run[i].g, events[i].l, events[i].data))
  {
    hide Inv, ReadsBack;
    var p := NewPiece(run[i].g, events[i].l, events[i].data);
    assert run[i + 1].live[|run[i].live|] == p;
    RunKeepsPiece(run, events, i + 1, j, p);
    RunInv(run, events, j);
    InvReadsBack(run[j].g, run[j].live, p);
  }

  // ----- the level of a node

  /** A held node has the level of its holder from the first write on. */
  ghost predicate LevelOk(g: Group) {
    |g.queue| == LEVELS && forall l, n: nat :: 0 <= l < LEVELS && g.queue[l] == Holding(n) && n < |g.nodes| ==>
      g.nodes[n].level == if g.nodes[n].used > 0 then l else -1
  }

  lemma {:induction false} ObtainLevels(g: Group, live: seq<Live>, l: nat)
    requires Inv(g, live) && LevelOk(g) && l < LEVELS && CanGet(g, l)
    ensures LevelOk(GetNode(g, l).0)
  {
    var g' := GetNode(g, l).0;
    if g.free != [] {
      assert g.free[0] in g.free && NodeOk(g, g.free[0]);
    }
    forall m, n: nat | 0 <= m < LEVELS && g'.queue[m] == Holding(n) && n < |g'.nodes|
      ensures g'.nodes[n].level == if g'.nodes[n].used > 0 then m else -1
    {
      if m != l {
        assert g.queue[m] == Holding(n) && n in g.used && OnOneList(g, n);
      }
    }
  }

  lemma {:induction false} LevelStep(w: World, e: Event)
    requires Inv(w.g, w.live) && LevelOk(w.g) && Enabled(w, e)
    ensures LevelOk(After(w, e).g)
  {
    var g, g' := w.g, After(w, e).g;
    if e.Obtain? {
      ObtainLevels(g, w.live, e.l);
    } else {
      forall m, n: nat | 0 <= m < LEVELS && g'.queue[m] == Holding(n) && n < |g'.nodes|
        ensures g'.nodes[n].level == if g'.nodes[n].used > 0 then m else -1
      {
        assert g.queue[m] == Holding(n) && n in g.used && OnOneList(g, n);
        if e.Put? && m != e.l {
          assert g.queue[e.l] != g.queue[m];
        }
      }
    }
  }

  /** Over every run from an erased group a node held by level `l` and written to has level `l`. */
  lemma {:induction false} RunLevels(nodes: nat, run: seq<World>, events: seq<Event>, i: nat)
    requires IsRun(run, events) && run[0] == World(FreshGroup(nodes), []) && i < |run|
    ensures LevelOk(run[i].g)
  {
    hide Inv, Enabled, After;
    if i > 0 {
      RunLevels(nodes, run, events, i - 1);
      RunInv(run, events, i - 1);
      LevelStep(run[i - 1], events[i - 1]);
    }
  }

  /** Step `j` writes to node `n`. */
  ghost predicate Writes(w: World, e: Event, n: nat) {
    e.Put? && e.l < |w.g.queue| && w.g.queue[e.l] == Holding(n)
  }

  lemma {:induction false} WriterStep(w: World, e: Event, n: nat)
    requires Inv(w.g, w.live) && LevelOk(w.g) && Enabled(w, e) && n < |w.g.nodes| && e != Recycle(n)
    ensures w.g.nodes[n].used > 0 ==>
      After(w, e).g.nodes[n].used > 0 && After(w, e).g.nodes[n].level == w.g.nodes[n].level
    ensures Writes(w, e, n) ==> After(w, e).g.nodes[n].used > 0 && After(w, e).g.nodes[n].level == e.l
  {
    if e.Obtain? && w.g.free != [] {
      assert w.g.free[0] in w.g.free && NodeOk(w.g, w.g.free[0]);
    }
  }

  /** Whoever holds a node, and when it is on the full list and nobody does: its level is that of every level that
      wrote to it since it was last reset, so one level filled it. */
  lemma {:induction false} WriterLevel(nodes: nat, run: seq<World>, events: seq<Event>, j: nat, i: nat, n: nat)
    requires IsRun(run, events) && run[0] == World(FreshGroup(nodes), []) && j < i < |run|
    requires Writes(run[j], events[j], n) && n < |run[j].g.nodes|
    requires forall u :: j < u < i ==> events[u] != Recycle(n)
    ensures n < |run[i].g.nodes| && run[i].g.nodes[n].used > 0 && run[i].g.nodes[n].level == events[j].l
  {
    hide Inv, Enabled, After, LevelOk;
    RunInv(run, events, i - 1);
    RunLevels(nodes, run, events, i - 1);
    SameNodes(run, events, j, i - 1);
    if j + 1 < i {
      WriterLevel(nodes, run, events, j, i - 1, n);
    }
    SameNodes(run, events, i - 1, i);
    WriterStep(run[i - 1], events[i - 1], n);
  }

  lemma {:induction false} SameNodes(run: seq<World>, events: seq<Event>, j: nat, i: nat)
    requires IsRun(run, events) && j <= i < |run|
    ensures |run[i].g.nodes| == |run[j].g.nodes|
  {
    if j < i {
      SameNodes(run, events, j, i - 1);
      assert run[i - 1 + 1] == After(run[i - 1], events[i - 1]);
    }
  }
}
