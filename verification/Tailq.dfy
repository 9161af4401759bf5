/** The tail queues on which nodes are kept, with their pointers.  A node has one pair of link fields, so it is on
    one list at a time; removing it through the head of another list is what the exact statements here are about. */
module Tailq {
  import opened NodeGroup

  datatype Link = Null | To(node: nat)

  /** The address of a link: the first of a list or the next of a node. */
  datatype Slot = First(q: nat) | Next(node: nat)

  /** `first` and `last` per list, `next` and `prev` per node; `last` and `prev` are addresses of links. */
  datatype Links = Links(first: seq<Link>, last: seq<Slot>, next: seq<Link>, prev: seq<Slot>)

  const FREE: nat := 0
  const USED: nat := 1
  const FULL: nat := 2
  const QUEUES: nat := 3

  predicate SlotOk(h: Links, s: Slot) {
    match s
    case First(q) => q < |h.first|
    case Next(n) => n < |h.next|
  }

  predicate LinkOk(h: Links, l: Link) {
    l.To? ==> l.node < |h.prev|
  }

  /** Every pointer points somewhere. */
  ghost predicate Shaped(h: Links, nodes: nat) {
    |h.first| == |h.last| == QUEUES && |h.next| == |h.prev| == nodes &&
    (forall q :: 0 <= q < QUEUES ==> LinkOk(h, h.first[q]) && SlotOk(h, h.last[q])) &&
    forall n :: 0 <= n < nodes ==> LinkOk(h, h.next[n]) && SlotOk(h, h.prev[n])
  }

  function Store(h: Links, s: Slot, l: Link): (h': Links)
    requires SlotOk(h, s)
    ensures h'.last == h.last && h'.prev == h.prev && |h'.first| == |h.first| && |h'.next| == |h.next|
    ensures forall q :: 0 <= q < |h.first| ==> h'.first[q] == if s == First(q) then l else h.first[q]
    ensures forall n :: 0 <= n < |h.next| ==> h'.next[n] == if s == Next(n) then l else h.next[n]
  {
    match s
    case First(q) => h.(first := h.first[q := l])
    case Next(n) => h.(next := h.next[n := l])
  }

  /** TAILQ_INIT of the three lists of a group of nodes. */
  function Init(nodes: nat): Links {
    Links(seq(QUEUES, _ => Null), seq(QUEUES, q requires 0 <= q => First(q)), seq(nodes, _ => Null),
          seq(nodes, _ => First(FREE)))
  }

  /** TAILQ_INSERT_TAIL. */
  function InsertTail(h: Links, q: nat, n: nat): (h': Links)
    requires q < |h.last| && n < |h.next| && n < |h.prev| && SlotOk(h, h.last[q])
    ensures |h'.first| == |h.first| && |h'.last| == |h.last| && |h'.next| == |h.next| && |h'.prev| == |h.prev|
  {
    var h1 := h.(next := h.next[n := Null], prev := h.prev[n := h.last[q]]);
    var h2 := Store(h1, h1.last[q], To(n));
    h2.(last := h2.last[q := Next(n)])
  }

  predicate Removable(h: Links, n: nat) {
    n < |h.next| && n < |h.prev| && SlotOk(h, h.prev[n]) && LinkOk(h, h.next[n])
  }

  /** TAILQ_REMOVE with the head of list `q`, whatever list the node is on. */
  function Remove(h: Links, q: nat, n: nat): (h': Links)
    requires q < |h.last| && Removable(h, n)
    ensures |h'.first| == |h.first| && |h'.last| == |h.last| && |h'.next| == |h.next| && |h'.prev| == |h.prev|
  {
    var h1 := match h.next[n]
      case To(m) => h.(prev := h.prev[m := h.prev[n]])
      case Null => h.(last := h.last[q := h.prev[n]]);
    Store(h1, h.prev[n], h.next[n])
  }

  // ----- what the pointers represent

  function LinkAt(list: seq<nat>, i: nat): Link {
    if i < |list| then To(list[i]) else Null
  }

  function SlotAt(q: nat, list: seq<nat>, i: nat): Slot
    requires i <= |list|
  {
    if i == 0 then First(q) else Next(list[i - 1])
  }

  predicate ChainedAt(h: Links, q: nat, list: seq<nat>, i: nat)
    requires i < |list|
  {
    list[i] < |h.next| && list[i] < |h.prev| && h.next[list[i]] == LinkAt(list, i + 1) &&
    h.prev[list[i]] == SlotAt(q, list, i)
  }

  /** Read from its first link, list `q` is `list`, and every node of it knows its predecessor. */
  ghost predicate Chained(h: Links, q: nat, list: seq<nat>) {
    q < |h.first| && Distinct(list) && h.first[q] == LinkAt(list, 0) &&
    forall i :: 0 <= i < |list| ==> ChainedAt(h, q, list, i)
  }

  /** The tail pointer of list `q` is where the next node is to be linked. */
  predicate Ended(h: Links, q: nat, list: seq<nat>) {
    q < |h.last| && h.last[q] == SlotAt(q, list, |list|)
  }

  ghost predicate Disjoint(a: seq<nat>, b: seq<nat>) {
    forall n :: n in a ==> n !in b
  }

  /** List `q` is in order. */
  ghost predicate Whole(h: Links, q: nat, list: seq<nat>) {
    Chained(h, q, list) && Ended(h, q, list)
  }

  // ----- insertion

  lemma {:induction false} InsertWhole(h: Links, q: nat, list: seq<nat>, n: nat)
    requires Whole(h, q, list) && n !in list && n < |h.next| && n < |h.prev| && SlotOk(h, h.last[q])
    ensures Whole(InsertTail(h, q, n), q, list + [n])
  {
    var h', list' := InsertTail(h, q, n), list + [n];
    forall i | 0 <= i < |list'| ensures ChainedAt(h', q, list', i) {
      if i < |list| {
        assert ChainedAt(h, q, list, i) && list[i] != n;
        assert i < |list| - 1 ==> list[i] != list[|list| - 1];
      }
    }
  }

  /** The other lists keep their nodes, their order and their tails. */
  lemma {:induction false} InsertOther(h: Links, q: nat, list: seq<nat>, n: nat, p: nat, other: seq<nat>)
    requires Whole(h, q, list) && n < |h.next| && n < |h.prev| && SlotOk(h, h.last[q])
    requires p != q && n !in other && Disjoint(list, other)
    ensures Chained(h, p, other) ==> Chained(InsertTail(h, q, n), p, other)
    ensures p < |h.last| ==> InsertTail(h, q, n).last[p] == h.last[p]
  {
    var h' := InsertTail(h, q, n);
    if Chained(h, p, other) {
      forall i | 0 <= i < |other| ensures ChainedAt(h', p, other, i) {
        assert ChainedAt(h, p, other, i) && other[i] in other;
        assert list != [] ==> list[|list| - 1] in list;
      }
    }
  }

  // ----- removal

  function Without(list: seq<nat>, i: nat): seq<nat>
    requires i < |list|
  {
    list[..i] + list[i + 1..]
  }

  lemma {:induction false} UnlinkAt(list: seq<nat>, i: nat)
    requires Distinct(list) && i < |list|
    ensures Unlink(list, list[i]) == Without(list, i)
  {
    if i > 0 {
      assert list[0] != list[i];
      UnlinkAt(list[1..], i - 1);
      assert [list[0]] + Without(list[1..], i - 1) == Without(list, i);
    }
  }

  /** What removing node `i` of a list does to the fields of node `x`. */
  lemma {:induction false} RemovedFields(h: Links, head: nat, q: nat, list: seq<nat>, i: nat, x: nat)
    requires Chained(h, q, list) && i < |list| && head < |h.last| && x < |list| && x != i
    ensures Removable(h, list[i])
    ensures var h' := Remove(h, head, list[i]);
      list[x] < |h'.next| && list[x] < |h'.prev| &&
      h'.next[list[x]] == (if x + 1 == i then LinkAt(list, i + 1) else LinkAt(list, x + 1)) &&
      h'.prev[list[x]] == (if x == i + 1 then SlotAt(q, list, i) else SlotAt(q, list, x))
  {
    assert ChainedAt(h, q, list, i) && ChainedAt(h, q, list, x);
    assert i > 0 ==> ChainedAt(h, q, list, i - 1);
    assert i + 1 < |list| ==> ChainedAt(h, q, list, i + 1);
    assert i > 0 && x < i - 1 ==> list[x] != list[i - 1];
    assert i > 0 && x > i - 1 ==> list[i - 1] != list[x];
    assert i + 1 < |list| && x < i + 1 ==> list[x] != list[i + 1];
    assert x > i + 1 ==> list[i + 1] != list[x];
    hide Distinct;
  }

  lemma {:induction false} RemovedEnds(h: Links, head: nat, q: nat, list: seq<nat>, i: nat)
    requires Chained(h, q, list) && i < |list| && head < |h.last|
    ensures Removable(h, list[i])
    ensures var h' := Remove(h, head, list[i]);
      h'.first[q] == LinkAt(Without(list, i), 0) &&
      h'.last == (if i + 1 < |list| then h.last else h.last[head := SlotAt(q, list, i)])
  {
    hide Distinct;
    assert ChainedAt(h, q, list, i);
    assert i > 0 ==> ChainedAt(h, q, list, i - 1);
    assert i + 1 < |list| ==> ChainedAt(h, q, list, i + 1);
  }

  lemma {:induction false} WithoutDistinct(list: seq<nat>, i: nat)
    requires Distinct(list) && i < |list|
    ensures Distinct(Without(list, i)) && forall n :: n in Without(list, i) <==> n in list && n != list[i]
  {
    var rest := Without(list, i);
    forall n | n in list && n != list[i] ensures n in rest {
      var k :| 0 <= k < |list| && list[k] == n;
      assert rest[if k < i then k else k - 1] == n;
    }
  }

  /** Whatever head is named, the node leaves the list it is on, and that list stays readable.  If the node was
      the last one, it is the tail pointer of the named head that moves. */
  lemma {:induction false} RemoveChained(h: Links, head: nat, q: nat, list: seq<nat>, i: nat)
    requires Chained(h, q, list) && i < |list| && head < |h.last|
    ensures Removable(h, list[i])
    ensures Chained(Remove(h, head, list[i]), q, Without(list, i))
    ensures Remove(h, head, list[i]).last
      == if i + 1 < |list| then h.last else h.last[head := SlotAt(q, list, i)]
  {
    RemovedEnds(h, head, q, list, i);
    WithoutDistinct(list, i);
    hide Distinct, Remove;
    var h', rest := Remove(h, head, list[i]), Without(list, i);
    forall k | 0 <= k < |rest| ensures ChainedAt(h', q, rest, k) {
      RemovedAt(h, head, q, list, i, k);
    }
    hide ChainedAt;
  }

  lemma {:induction false} RemovedAt(h: Links, head: nat, q: nat, list: seq<nat>, i: nat, k: nat)
    requires Chained(h, q, list) && i < |list| && head < |h.last| && k < |Without(list, i)|
    ensures Removable(h, list[i])
    ensures ChainedAt(Remove(h, head, list[i]), q, Without(list, i), k)
  {
    var x := if k < i then k else k + 1;
    assert ChainedAt(h, q, list, x);
    RemovedFields(h, head, q, list, i, x);
    hide Distinct, Remove, Chained;
  }

  /** A removal leaves the list in order exactly when the right head is named, or the node has a successor. */
  lemma {:induction false} RemoveWholeIff(h: Links, head: nat, q: nat, list: seq<nat>, i: nat)
    requires Whole(h, q, list) && i < |list| && head < |h.last|
    ensures Removable(h, list[i])
    ensures Whole(Remove(h, head, list[i]), q, Without(list, i)) <==> head == q || i + 1 < |list|
  {
    RemoveChained(h, head, q, list, i);
    assert i > 0 ==> list[i - 1] != list[i];
    hide Remove, Chained, Distinct;
  }

  lemma {:induction false} RemoveOther(h: Links, head: nat, q: nat, list: seq<nat>, i: nat, p: nat, other: seq<nat>)
    requires Chained(h, q, list) && i < |list| && head < |h.last| && p != q && Disjoint(list, other)
    requires Chained(h, p, other) && Removable(h, list[i])
    ensures Chained(Remove(h, head, list[i]), p, other)
  {
    var h' := Remove(h, head, list[i]);
    assert ChainedAt(h, q, list, i);
    forall k | 0 <= k < |other| ensures ChainedAt(h', p, other, k) {
      assert ChainedAt(h, p, other, k) && other[k] in other;
      assert i > 0 ==> list[i - 1] in list;
      assert i + 1 < |list| ==> list[i + 1] in list;
    }
  }

  // ----- the three lists of a group

  ghost predicate OnNone(ls: seq<seq<nat>>, n: nat) {
    forall q :: 0 <= q < |ls| ==> n !in ls[q]
  }

  /** Read from their first links the lists are `ls`; nothing is said of the tail pointers. */
  ghost predicate Loose(h: Links, ls: seq<seq<nat>>) {
    |ls| == |h.first| == |h.last| == QUEUES && |h.next| == |h.prev| &&
    (forall q :: 0 <= q < QUEUES ==> Chained(h, q, ls[q])) &&
    forall p, q :: 0 <= p < QUEUES && 0 <= q < QUEUES && p != q ==> Disjoint(ls[p], ls[q])
  }

  /** The pointers represent the lists. */
  ghost predicate Linked(h: Links, ls: seq<seq<nat>>) {
    Loose(h, ls) && forall q :: 0 <= q < QUEUES ==> Ended(h, q, ls[q])
  }

  lemma {:induction false} InitLinked(nodes: nat)
    ensures Linked(Init(nodes), [[], [], []])
  {
  }

  /** Insertion at a right tail. */
  lemma {:induction false} InsertLoose(h: Links, ls: seq<seq<nat>>, q: nat, n: nat)
    requires Loose(h, ls) && q < QUEUES && Ended(h, q, ls[q]) && n < |h.next| && OnNone(ls, n)
    ensures SlotOk(h, h.last[q])
    ensures Loose(InsertTail(h, q, n), ls[q := ls[q] + [n]]) && Ended(InsertTail(h, q, n), q, ls[q] + [n])
    ensures forall p :: 0 <= p < QUEUES && p != q ==> InsertTail(h, q, n).last[p] == h.last[p]
  {
    assert ls[q] != [] ==> ChainedAt(h, q, ls[q], |ls[q]| - 1);
    InsertWhole(h, q, ls[q], n);
    var h', ls' := InsertTail(h, q, n), ls[q := ls[q] + [n]];
    forall p | 0 <= p < QUEUES && p != q ensures Chained(h', p, ls[p]) && h'.last[p] == h.last[p] {
      InsertOther(h, q, ls[q], n, p, ls[p]);
    }
    hide Chained, InsertTail, Ended;
  }

  lemma {:induction false} InsertLinked(h: Links, ls: seq<seq<nat>>, q: nat, n: nat)
    requires Linked(h, ls) && q < QUEUES && n < |h.next| && OnNone(ls, n)
    ensures SlotOk(h, h.last[q]) && Linked(InsertTail(h, q, n), ls[q := ls[q] + [n]])
  {
    InsertLoose(h, ls, q, n);
    hide Loose, InsertTail;
  }

  /** Removal through any head. */
  lemma {:induction false} RemoveLoose(h: Links, ls: seq<seq<nat>>, head: nat, q: nat, i: nat)
    requires Loose(h, ls) && head < QUEUES && q < QUEUES && i < |ls[q]|
    ensures var n := ls[q][i];
      Removable(h, n) && Loose(Remove(h, head, n), ls[q := Without(ls[q], i)]) &&
      OnNone(ls[q := Without(ls[q], i)], n) && n < |h.next|
    ensures Remove(h, head, ls[q][i]).last == if i + 1 < |ls[q]| then h.last else h.last[head := SlotAt(q, ls[q], i)]
  {
    RemoveChained(h, head, q, ls[q], i);
    WithoutDistinct(ls[q], i);
    var n := ls[q][i];
    var h', ls' := Remove(h, head, n), ls[q := Without(ls[q], i)];
    forall p | 0 <= p < QUEUES && p != q ensures Chained(h', p, ls[p]) && n !in ls[p] {
      assert n in ls[q];
      RemoveOther(h, head, q, ls[q], i, p, ls[p]);
    }
    hide Chained, Remove, Without, Distinct;
  }

  lemma {:induction false} RemoveLinked(h: Links, ls: seq<seq<nat>>, q: nat, i: nat)
    requires Linked(h, ls) && q < QUEUES && i < |ls[q]|
    ensures var n := ls[q][i];
      Removable(h, n) && Linked(Remove(h, q, n), ls[q := Without(ls[q], i)]) && OnNone(ls[q := Without(ls[q], i)], n)
  {
    RemoveLoose(h, ls, q, q, i);
    RemoveWholeIff(h, q, q, ls[q], i);
    hide Loose, Remove, Chained;
  }

  // ----- moves between lists

  /** The node leaves the list it is on, unlinked through head `head`, for the tail of list `to`. */
  function Move(h: Links, head: nat, n: nat, to: nat): Links
    requires head < |h.last| && to < |h.last| && Removable(h, n) && SlotOk(h, Remove(h, head, n).last[to])
  {
    InsertTail(Remove(h, head, n), to, n)
  }

  /** Unlinked through the right head, a node moves from one list to the other. */
  lemma {:induction false} MoveLinked(h: Links, ls: seq<seq<nat>>, q: nat, i: nat, to: nat)
    requires Linked(h, ls) && q < QUEUES && to < QUEUES && q != to && i < |ls[q]|
    ensures var n := ls[q][i];
      Removable(h, n) && SlotOk(h, Remove(h, q, n).last[to]) &&
      Linked(Move(h, q, n, to), ls[q := Without(ls[q], i)][to := ls[to] + [n]])
  {
    RemoveLinked(h, ls, q, i);
    hide Linked, Remove, Without;
    var n := ls[q][i];
    assert n < |h.next|;
    InsertLinked(Remove(h, q, n), ls[q := Without(ls[q], i)], to, n);
  }

  /** The tail pointer of list `q` points into a node that is not on it. */
  ghost predicate Stale(h: Links, q: nat, list: seq<nat>) {
    q < |h.last| && h.last[q].Next? && h.last[q].node !in list
  }

  lemma {:induction false} StaleNotEnded(h: Links, q: nat, list: seq<nat>)
    requires Stale(h, q, list)
    ensures !Ended(h, q, list)
  {
  }

  /** The lists while nodes are being reset: all in order, or readable with a stale tail of the used list. */
  ghost predicate Resetting(h: Links, ls: seq<seq<nat>>, stale: bool) {
    Loose(h, ls) && Ended(h, FREE, ls[FREE]) &&
    if stale then Stale(h, USED, ls[USED]) else Ended(h, USED, ls[USED]) && Ended(h, FULL, ls[FULL])
  }

  lemma {:induction false} ResettingIff(h: Links, ls: seq<seq<nat>>, stale: bool)
    requires Resetting(h, ls, stale)
    ensures Linked(h, ls) <==> !stale
  {
    if stale {
      StaleNotEnded(h, USED, ls[USED]);
    }
    hide Loose;
  }

  /** ztl_mgmt_node_reset names the head of the full list for every node.  The lists stay in order exactly when
      the node is not the last one of the used list. */
  lemma {:induction false} ResetMove(h: Links, ls: seq<seq<nat>>, stale: bool, q: nat, i: nat)
    requires Resetting(h, ls, stale) && (q == USED || q == FULL) && |ls| == QUEUES && i < |ls[q]|
    ensures var n := ls[q][i];
      Removable(h, n) && FULL < |h.last| && SlotOk(h, Remove(h, FULL, n).last[FREE]) &&
      Resetting(Move(h, FULL, n, FREE), ls[q := Without(ls[q], i)][FREE := ls[FREE] + [n]],
                stale || (q == USED && i + 1 == |ls[q]|))
  {
    hide Loose, Remove, InsertTail, Chained, Distinct;
    LooseShape(h, ls);
    RemoveLoose(h, ls, FULL, q, i);
    LooseDistinct(h, ls, q);
    WithoutDistinct(ls[q], i);
    var n := ls[q][i];
    var h1, ls1 := Remove(h, FULL, n), ls[q := Without(ls[q], i)];
    LooseShape(h1, ls1);
    InsertLoose(h1, ls1, FREE, n);
    ResetTails(h, ls, stale, q, i, h1.last);
  }

  /** The tail pointers of the used and of the full list after a node left one of them. */
  lemma {:induction false} ResetTails(h: Links, ls: seq<seq<nat>>, stale: bool, q: nat, i: nat, last: seq<Slot>)
    requires |h.last| == |ls| == QUEUES && (q == USED || q == FULL) && i < |ls[q]| && Distinct(ls[q])
    requires if stale then Stale(h, USED, ls[USED]) else Ended(h, USED, ls[USED]) && Ended(h, FULL, ls[FULL])
    requires last == if i + 1 < |ls[q]| then h.last else h.last[FULL := SlotAt(q, ls[q], i)]
    ensures var used, full := ls[q := Without(ls[q], i)][USED], ls[q := Without(ls[q], i)][FULL];
      var h' := h.(last := last);
      if stale || (q == USED && i + 1 == |ls[q]|) then Stale(h', USED, used)
      else Ended(h', USED, used) && Ended(h', FULL, full)
  {
    WithoutDistinct(ls[q], i);
    hide Distinct;
  }

  lemma {:induction false} LooseShape(h: Links, ls: seq<seq<nat>>)
    requires Loose(h, ls)
    ensures |ls| == |h.first| == |h.last| == QUEUES && |h.next| == |h.prev|
  {
  }

  lemma {:induction false} LooseDistinct(h: Links, ls: seq<seq<nat>>, q: nat)
    requires Loose(h, ls) && q < QUEUES
    ensures Distinct(ls[q])
  {
  }

  // ----- the group

  ghost function ListsOf(g: Group): seq<seq<nat>> {
    [g.free, g.used, g.full]
  }

  /** The pointers represent the lists of the group. */
  ghost predicate LinkedTo(h: Links, g: Group) {
    Linked(h, ListsOf(g)) && |g.nodes| <= |h.next|
  }

  lemma {:induction false} LinkedToIff(h: Links, g: Group)
    requires |g.nodes| <= |h.next|
    ensures LinkedTo(h, g) <==> Linked(h, ListsOf(g))
  {
  }

  lemma {:induction false} SameLists(h: Links, g: Group, g': Group)
    requires LinkedTo(h, g) && ListsOf(g') == ListsOf(g) && |g'.nodes| == |g.nodes|
    ensures LinkedTo(h, g')
  {
  }

  lemma {:induction false} IndexIn(list: seq<nat>, n: nat) returns (i: nat)
    requires n in list
    ensures i < |list| && list[i] == n
  {
    i :| 0 <= i < |list| && list[i] == n;
  }

  /** A node moves between two lists through the right head. */
  lemma {:induction false} NodeMoves(h: Links, g: Group, q: nat, n: nat, to: nat)
    requires LinkedTo(h, g) && q < QUEUES && to < QUEUES && q != to && n in ListsOf(g)[q]
    ensures |h.last| == QUEUES && Removable(h, n) && SlotOk(h, Remove(h, q, n).last[to])
    ensures Linked(Move(h, q, n, to), ListsOf(g)[q := Unlink(ListsOf(g)[q], n)][to := ListsOf(g)[to] + [n]])
    ensures |Move(h, q, n, to).next| == |h.next|
  {
    var ls := ListsOf(g);
    var i := IndexIn(ls[q], n);
    LooseDistinct(h, ls, q);
    UnlinkAt(ls[q], i);
    MoveLinked(h, ls, q, i, to);
    hide Linked, Without, Unlink;
  }

  /** The level's exhausted node, unlinked through the head of the used list. */
  lemma {:induction false} RetireLinks(h: Links, g: Group, l: nat)
    requires LinkedTo(h, g) && l < |g.queue| && g.queue[l].Holding? && g.queue[l].node in g.used
    ensures var n := g.queue[l].node;
      |h.last| == QUEUES && Removable(h, n) && SlotOk(h, Remove(h, USED, n).last[FULL]) &&
      LinkedTo(Move(h, USED, n, FULL), Retired(g, l))
  {
    var n := g.queue[l].node;
    NodeMoves(h, g, USED, n, FULL);
    hide Linked, Move, Remove, Unlink;
    assert ListsOf(Retired(g, l)) == ListsOf(g)[USED := Unlink(g.used, n)][FULL := g.full + [n]];
  }

  /** The head of the free list. */
  lemma {:induction false} TakeLinks(h: Links, g: Group, l: nat)
    requires LinkedTo(h, g) && l < |g.queue| && Distinct(g.free)
    ensures |h.first| == |h.last| == QUEUES && (h.first[FREE] == if g.free == [] then Null else To(g.free[0]))
    ensures g.free != [] && g.free[0] < |g.nodes| ==>
      var n := g.free[0];
      Removable(h, n) && SlotOk(h, Remove(h, FREE, n).last[USED]) && LinkedTo(Move(h, FREE, n, USED), Taken(g, l))
  {
    assert Chained(h, FREE, ListsOf(g)[FREE]);
    if g.free != [] && g.free[0] < |g.nodes| {
      var n := g.free[0];
      NodeMoves(h, g, FREE, n, USED);
      UnlinkAt(g.free, 0);
      hide Linked, Move, Remove, Unlink;
      assert ListsOf(Taken(g, l)) == ListsOf(g)[FREE := g.free[1..]][USED := g.used + [n]];
    }
  }

  lemma {:induction false} LinkedResetting(h: Links, g: Group)
    ensures LinkedTo(h, g) <==> Resetting(h, ListsOf(g), false) && |g.nodes| <= |h.next|
  {
    hide Loose;
  }

  /** A reset node, unlinked through the head of the full list whatever list it is on. */
  lemma {:induction false} ResetLinks(h: Links, g: Group, stale: bool, n: nat)
    requires Resetting(h, ListsOf(g), stale) && |g.nodes| <= |h.next| && n < |g.nodes|
    requires n in g.used || n in g.full
    ensures |h.last| == QUEUES && Removable(h, n) && SlotOk(h, Remove(h, FULL, n).last[FREE])
    ensures Resetting(Move(h, FULL, n, FREE), ListsOf(ResetNode(g, n)),
                      stale || (g.used != [] && n == g.used[|g.used| - 1]))
    ensures |Move(h, FULL, n, FREE).next| == |h.next|
  {
    var ls := ListsOf(g);
    LooseShape(h, ls);
    LooseDistinct(h, ls, USED);
    LooseDistinct(h, ls, FULL);
    LooseDisjoint(h, ls);
    hide Loose, Disjoint;
    var q := if n in g.used then USED else FULL;
    var i := IndexIn(ls[q], n);
    UnlinkAt(ls[q], i);
    ResetMove(h, ls, stale, q, i);
    assert q == USED && i + 1 < |g.used| ==> g.used[i] != g.used[|g.used| - 1];
    assert ListsOf(ResetNode(g, n)) == ls[q := Without(ls[q], i)][FREE := ls[FREE] + [n]];
    hide Resetting, Move, Remove, Distinct;
  }

  lemma {:induction false} LooseDisjoint(h: Links, ls: seq<seq<nat>>)
    requires Loose(h, ls)
    ensures forall n :: n in ls[USED] ==> n !in ls[FULL]
  {
    assert Disjoint(ls[USED], ls[FULL]);
  }

  // ----- what a stale tail does

  /** The part of ztl_pro_grp_get_node that takes a node: the node given, and the pointers after. */
  ghost predicate Takes(h: Links, n: nat, h': Links) {
    |h.first| == |h.last| == QUEUES && h.first[FREE] == To(n) && Removable(h, n) &&
    SlotOk(h, Remove(h, FREE, n).last[USED]) && h' == Move(h, FREE, n, USED)
  }

  /** The last node `n` of the used list is reset while one other node is free.  The next three levels that ask are
      given the other node, then `n`, then the other node again. */
  lemma {:induction false} StaleTailSharesNode(h: Links, ls: seq<seq<nat>>, m: nat, n: nat) returns (hs: seq<Links>)
    requires Linked(h, ls) && ls[FREE] == [m] && ls[USED] != [] && ls[USED][|ls[USED]| - 1] == n
    ensures |h.last| == QUEUES && Removable(h, n) && SlotOk(h, Remove(h, FULL, n).last[FREE])
    ensures |hs| == 4 && hs[0] == Move(h, FULL, n, FREE)
    ensures Takes(hs[0], m, hs[1]) && Takes(hs[1], n, hs[2]) && Takes(hs[2], m, hs[3])
  {
    var used := ls[USED];
    var i := |used| - 1;
    RemoveLoose(h, ls, FULL, USED, i);
    assert ChainedAt(h, FREE, ls[FREE], 0) && ChainedAt(h, USED, used, i);
    assert i > 0 ==> ChainedAt(h, USED, used, i - 1) && used[i - 1] in used;
    assert m in ls[FREE] && n in used && m != n && Disjoint(used, ls[FREE]);
    hide Loose, Linked, Distinct;
    var h0 := Move(h, FULL, n, FREE);
    var h1 := Move(h0, FREE, m, USED);
    var h2 := Move(h1, FREE, n, USED);
    hs := [h0, h1, h2, Move(h2, FREE, m, USED)];
  }
}
