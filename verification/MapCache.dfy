/** The page-cached object map: pages of mapping entries held in a pool of buffers, with a free list and
    a used list kept in order of recency.  Evicted pages are not written anywhere. */
module MapCache {
  import opened NodeGroup

  const PAGE_ENTRIES: nat := 4096
  const MAP_PAGES: nat := 256
  const MAP_BUFFERS: nat := 8192
  const OFFSET_SPAN: nat := 0x100_0000_0000

  /** A metadata entry: the page is in a buffer, or does not exist yet. */
  datatype Where = Uncached | Cached(buf: nat)

  /** The page a buffer belongs to. */
  datatype Owner = NoPage | Page(page: nat)

  datatype Pool = Pool(slot: seq<Where>, owner: seq<Owner>, free: seq<nat>, used: seq<nat>,
                       bufs: seq<seq<nat>>, nfree: int, nused: int)

  /** Every buffer is on exactly one list; used buffers and cached pages belong to each other. */
  ghost predicate Good(s: Pool) {
    |s.owner| == |s.bufs| && s.nfree == |s.free| && s.nused == |s.used| && |s.free| + |s.used| == |s.bufs| &&
    Distinct(s.free) && Distinct(s.used) &&
    (forall b :: b in s.free || b in s.used ==> b < |s.bufs|) &&
    (forall b :: 0 <= b < |s.bufs| ==> BufferOk(s, b)) &&
    (forall p :: 0 <= p < |s.slot| ==> SlotOk(s, p))
  }

  ghost predicate BufferOk(s: Pool, b: nat)
    requires b < |s.bufs| == |s.owner|
  {
    |s.bufs[b]| == PAGE_ENTRIES && (b in s.free <==> b !in s.used) && (b in s.used <==> s.owner[b].Page?) &&
    (s.owner[b].Page? ==> s.owner[b].page < |s.slot| && s.slot[s.owner[b].page] == Cached(b))
  }

  ghost predicate SlotOk(s: Pool, p: nat)
    requires p < |s.slot| && |s.bufs| == |s.owner|
  {
    s.slot[p].Cached? ==> s.slot[p].buf < |s.bufs| && s.owner[s.slot[p].buf] == Page(p)
  }

  /** The used list is in order of last access; `stamp[b]` is the time of the last access to buffer `b`. */
  ghost predicate Recent(used: seq<nat>, stamp: seq<nat>, clock: nat) {
    (forall i :: 0 <= i < |used| ==> used[i] < |stamp| && stamp[used[i]] < clock) &&
    forall i, j :: 0 <= i < j < |used| ==> used[i] < |stamp| && used[j] < |stamp| && stamp[used[i]] < stamp[used[j]]
  }

  /** The plain map: what an id maps to, zero if nothing was stored. */
  ghost function Lookup(s: Pool, id: nat): nat
    requires Good(s) && id < |s.slot| * PAGE_ENTRIES
  {
    var p := id / PAGE_ENTRIES;
    assert SlotOk(s, p);
    if s.slot[p].Cached? then
      assert BufferOk(s, s.slot[p].buf);
      s.bufs[s.slot[p].buf][id % PAGE_ENTRIES]
    else 0
  }

  ghost function View(s: Pool): (v: seq<nat>)
    requires Good(s)
    ensures |v| == |s.slot| * PAGE_ENTRIES && forall id :: 0 <= id < |v| ==> v[id] == Lookup(s, id)
  {
    seq(|s.slot| * PAGE_ENTRIES, id requires 0 <= id < |s.slot| * PAGE_ENTRIES => Lookup(s, id))
  }

  /** The plain map without the entries of a page. */
  ghost function Without(v: seq<nat>, p: nat): seq<nat> {
    seq(|v|, id requires 0 <= id < |v| => if id / PAGE_ENTRIES == p then 0 else v[id])
  }

  function ZeroPage(): (z: seq<nat>)
    ensures |z| == PAGE_ENTRIES && forall i :: 0 <= i < |z| ==> z[i] == 0
  {
    seq(PAGE_ENTRIES, _ => 0)
  }

  // ----- the steps

  /** map_evict_pg_cache: the head of the used list is dropped. */
  function Evicted(s: Pool): Pool
    requires s.used != [] && s.used[0] < |s.owner|
    requires s.owner[s.used[0]].Page? && s.owner[s.used[0]].page < |s.slot|
  {
    var b := s.used[0];
    s.(slot := s.slot[s.owner[b].page := Uncached], owner := s.owner[b := NoPage], used := s.used[1..],
       free := [b] + s.free, nused := s.nused - 1, nfree := s.nfree + 1)
  }

  /** The rest of map_load_pg_cache: the head of the free list becomes the page, all zeros. */
  function Loaded(s: Pool, p: nat): Pool
    requires s.free != [] && s.free[0] < |s.owner| == |s.bufs| && p < |s.slot|
  {
    var b := s.free[0];
    s.(slot := s.slot[p := Cached(b)], owner := s.owner[b := Page(p)], used := s.used + [b], free := s.free[1..],
       bufs := s.bufs[b := ZeroPage()], nused := s.nused + 1, nfree := s.nfree - 1)
  }

  /** An access moves the buffer to the tail of the used list. */
  function Touched(s: Pool, b: nat): Pool {
    s.(used := Unlink(s.used, b) + [b])
  }

  function Stored(s: Pool, b: nat, off: nat, val: nat): Pool
    requires b < |s.bufs| && off < |s.bufs[b]|
  {
    var page: seq<nat> := s.bufs[b][off := val];
    s.(bufs := s.bufs[b := page])
  }

  lemma {:induction false} HeadUsed(s: Pool)
    requires Good(s) && s.used != []
    ensures s.used[0] < |s.owner| && s.owner[s.used[0]].Page? && s.owner[s.used[0]].page < |s.slot|
  {
    assert s.used[0] in s.used;
    assert BufferOk(s, s.used[0]);
  }

  lemma {:induction false} EvictGood(s: Pool)
    requires Good(s) && s.used != []
    ensures s.used[0] < |s.owner| && s.owner[s.used[0]].Page? && s.owner[s.used[0]].page < |s.slot| && Good(Evicted(s))
  {
    HeadUsed(s);
    var s', b := Evicted(s), s.used[0];
    assert BufferOk(s, b);
    forall x | 0 <= x < |s.bufs| ensures BufferOk(s', x) {
      assert BufferOk(s, x);
      assert x in s.used <==> x == b || x in s'.used;
    }
    forall p | 0 <= p < |s.slot| ensures SlotOk(s', p) {
      assert SlotOk(s, p);
    }
  }

  lemma {:induction false} EvictView(s: Pool)
    requires Good(s) && s.used != [] && s.used[0] < |s.owner|
    requires s.owner[s.used[0]].Page? && s.owner[s.used[0]].page < |s.slot| && Good(Evicted(s))
    ensures View(Evicted(s)) == Without(View(s), s.owner[s.used[0]].page)
  {
    var s', p := Evicted(s), s.owner[s.used[0]].page;
    forall id | 0 <= id < |View(s)| ensures View(s')[id] == Without(View(s), p)[id] {
      assert Lookup(s', id) == if id / PAGE_ENTRIES == p then 0 else Lookup(s, id);
    }
  }

  lemma {:induction false} LoadGood(s: Pool, p: nat)
    requires Good(s) && s.free != [] && p < |s.slot| && s.slot[p] == Uncached
    ensures s.free[0] < |s.owner| && Good(Loaded(s, p))
  {
    var b := s.free[0];
    assert b in s.free;
    assert BufferOk(s, b);
    var s' := Loaded(s, p);
    HeadMoves(s.free, s.used);
    hide Distinct;
    forall x | 0 <= x < |s.bufs| ensures BufferOk(s', x) {
      assert BufferOk(s, x);
    }
    forall q | 0 <= q < |s.slot| ensures SlotOk(s', q) {
      assert SlotOk(s, q);
    }
  }

  lemma {:induction false} LoadView(s: Pool, p: nat)
    requires Good(s) && s.free != [] && p < |s.slot| && s.slot[p] == Uncached
    requires s.free[0] < |s.owner| && Good(Loaded(s, p))
    ensures View(Loaded(s, p)) == View(s)
  {
    var s', b := Loaded(s, p), s.free[0];
    assert b in s.free && BufferOk(s, b);
    forall id | 0 <= id < |View(s)| ensures View(s')[id] == View(s)[id] {
      var q := id / PAGE_ENTRIES;
      assert SlotOk(s, q);
      assert Lookup(s', id) == Lookup(s, id);
    }
  }

  lemma {:induction false} UnlinkLength(list: seq<nat>, n: nat)
    requires n in list
    ensures |Unlink(list, n)| == |list| - 1
  {
    if list[0] != n {
      UnlinkLength(list[1..], n);
    }
  }

  lemma {:induction false} TouchGood(s: Pool, p: nat)
    requires Good(s) && p < |s.slot| && s.slot[p].Cached?
    ensures Good(Touched(s, s.slot[p].buf)) && View(Touched(s, s.slot[p].buf)) == View(s)
  {
    var b := s.slot[p].buf;
    var s' := Touched(s, b);
    assert SlotOk(s, p) && BufferOk(s, b);
    UnlinkLength(s.used, b);
    UnlinkDistinct(s.used, b);
    forall x | 0 <= x < |s.bufs| ensures BufferOk(s', x) {
      assert BufferOk(s, x);
    }
    forall q | 0 <= q < |s.slot| ensures SlotOk(s', q) {
      assert SlotOk(s, q);
    }
    forall id | 0 <= id < |View(s)| ensures View(s')[id] == View(s)[id] {
      assert Lookup(s', id) == Lookup(s, id);
    }
  }

  lemma {:induction false} StoreGood(s: Pool, id: nat, val: nat)
    requires Good(s) && id < |s.slot| * PAGE_ENTRIES && s.slot[id / PAGE_ENTRIES].Cached?
    ensures var b := s.slot[id / PAGE_ENTRIES].buf;
      b < |s.bufs| && |s.bufs[b]| == PAGE_ENTRIES && s.bufs[b][id % PAGE_ENTRIES] == View(s)[id] &&
      Good(Stored(s, b, id % PAGE_ENTRIES, val)) && View(Stored(s, b, id % PAGE_ENTRIES, val)) == View(s)[id := val]
  {
    var p := id / PAGE_ENTRIES;
    assert SlotOk(s, p);
    var b, off := s.slot[p].buf, id % PAGE_ENTRIES;
    assert BufferOk(s, b);
    assert View(s)[id] == Lookup(s, id);
    var s' := Stored(s, b, off, val);
    forall x | 0 <= x < |s.bufs| ensures BufferOk(s', x) {
      assert BufferOk(s, x);
    }
    forall q | 0 <= q < |s.slot| ensures SlotOk(s', q) {
      assert SlotOk(s, q);
    }
    forall i | 0 <= i < |View(s)| ensures View(s')[i] == View(s)[id := val][i] {
      StoredAt(s, id, val, i);
    }
  }

  /** Two pages never share a buffer, so a store reaches one id only. */
  lemma {:induction false} StoredAt(s: Pool, id: nat, val: nat, i: nat)
    requires Good(s) && id < |s.slot| * PAGE_ENTRIES && i < |s.slot| * PAGE_ENTRIES && s.slot[id / PAGE_ENTRIES].Cached?
    requires var b := s.slot[id / PAGE_ENTRIES].buf;
      b < |s.bufs| && |s.bufs[b]| == PAGE_ENTRIES && Good(Stored(s, b, id % PAGE_ENTRIES, val))
    ensures Lookup(Stored(s, s.slot[id / PAGE_ENTRIES].buf, id % PAGE_ENTRIES, val), i)
         == if i == id then val else Lookup(s, i)
  {
    var p, q := id / PAGE_ENTRIES, i / PAGE_ENTRIES;
    assert SlotOk(s, p) && SlotOk(s, q);
    if p == q && id % PAGE_ENTRIES == i % PAGE_ENTRIES {
      assert i == id;
    }
  }

  // ----- no eviction

  lemma {:induction false} DistinctPages(s: Pool, n: nat) returns (pages: set<nat>)
    requires Good(s) && n <= |s.used|
    ensures |pages| == n && forall p :: p in pages <==> PageIn(s, n, p)
  {
    if n == 0 {
      pages := {};
    } else {
      pages := DistinctPages(s, n - 1);
      var b := s.used[n - 1];
      assert b in s.used && BufferOk(s, b);
      var p := s.owner[b].page;
      forall i | 0 <= i < n - 1 ensures s.used[i] < |s.owner| && s.owner[s.used[i]] != Page(p) {
        assert s.used[i] in s.used && BufferOk(s, s.used[i]);
      }
      assert p !in pages;
      pages := pages + {p};
      assert PageIn(s, n, p);
      forall q ensures q in pages <==> PageIn(s, n, q) {
      }
    }
  }

  /** Page `p` owns one of the first `n` used buffers. */
  ghost predicate PageIn(s: Pool, n: nat, p: nat)
    requires n <= |s.used|
  {
    exists i :: 0 <= i < n && s.used[i] < |s.owner| && s.owner[s.used[i]] == Page(p)
  }

  lemma {:induction false} Below(n: nat) returns (all: set<nat>)
    ensures |all| == n && forall x: nat :: x in all <==> x < n
  {
    if n == 0 {
      all := {};
    } else {
      all := Below(n - 1);
      all := all + {n - 1};
    }
  }

  lemma {:induction false} SubsetSize(a: set<nat>, b: set<nat>)
    requires a <= b
    ensures |a| <= |b|
  {
    assert b == a + (b - a);
  }

  /** As long as there are no more pages than buffers, an uncached page finds a free buffer. */
  lemma {:induction false} NeverEvicts(s: Pool, p: nat)
    requires Good(s) && |s.slot| <= |s.bufs| && p < |s.slot| && s.slot[p] == Uncached
    ensures s.free != []
  {
    if s.free == [] {
      var pages := DistinctPages(s, |s.used|);
      var all := Below(|s.slot|);
      forall q | q in pages ensures q in all - {p} {
        assert PageIn(s, |s.used|, q);
        var i :| 0 <= i < |s.used| && s.used[i] < |s.owner| && s.owner[s.used[i]] == Page(q);
        assert s.used[i] in s.used && BufferOk(s, s.used[i]);
      }
      assert p in all;
      SubsetSize(pages, all - {p});
    }
  }

  // ----- recency

  lemma {:induction false} RecentAppend(used: seq<nat>, stamp: seq<nat>, clock: nat, b: nat)
    requires Recent(used, stamp, clock) && b < |stamp| && b !in used
    ensures Recent(used + [b], stamp[b := clock], clock + 1)
  {
  }

  lemma {:induction false} RecentTail(used: seq<nat>, stamp: seq<nat>, clock: nat)
    requires Recent(used, stamp, clock) && used != []
    ensures Recent(used[1..], stamp, clock)
  {
  }

  lemma {:induction false} RecentCons(x: nat, rest: seq<nat>, stamp: seq<nat>, clock: nat)
    requires Recent(rest, stamp, clock) && x < |stamp| && stamp[x] < clock
    requires forall i :: 0 <= i < |rest| ==> rest[i] < |stamp| && stamp[x] < stamp[rest[i]]
    ensures Recent([x] + rest, stamp, clock)
  {
  }

  lemma {:induction false} RecentUnlink(used: seq<nat>, stamp: seq<nat>, clock: nat, b: nat)
    requires Recent(used, stamp, clock)
    ensures Recent(Unlink(used, b), stamp, clock)
  {
    if used != [] {
      RecentTail(used, stamp, clock);
      if used[0] != b {
        var rest := Unlink(used[1..], b);
        RecentUnlink(used[1..], stamp, clock, b);
        forall i | 0 <= i < |rest| ensures rest[i] < |stamp| && stamp[used[0]] < stamp[rest[i]] {
          assert rest[i] in used[1..];
          var k :| 0 < k < |used| && used[k] == rest[i];
        }
        RecentCons(used[0], rest, stamp, clock);
      }
    }
  }

  // ----- the cache

  class Cache {
    const buffers: nat
    var slot: seq<Where>
    var owner: seq<Owner>
    var free: seq<nat>
    var used: seq<nat>
    var bufs: seq<seq<nat>>
    var nfree: int
    var nused: int
    ghost var stamp: seq<nat>
    ghost var clock: nat

    function State(): Pool
      reads this
    {
      Pool(slot, owner, free, used, bufs, nfree, nused)
    }

    ghost predicate Valid()
      reads this
    {
      Good(State()) && |bufs| == buffers && |stamp| == buffers && Recent(used, stamp, clock)
    }

    /** map_init_cache: every buffer goes to the head of the free list. */
    constructor (pages: nat, buffers: nat)
      ensures Valid() && |slot| == pages && this.buffers == buffers && used == []
      ensures forall id :: 0 <= id < |View(State())| ==> View(State())[id] == 0
    {
      this.buffers := buffers;
      slot := seq(pages, _ => Uncached);
      owner := seq(buffers, _ => NoPage);
      bufs := seq(buffers, _ => ZeroPage());
      free, used, nfree, nused := [], [], 0, 0;
      stamp, clock := seq(buffers, _ => 0), 0;
      new;
      var b := 0;
      while b < buffers
        invariant 0 <= b <= buffers && nfree == b == |free| && used == [] && nused == 0
        invariant slot == seq(pages, _ => Uncached) && owner == seq(buffers, _ => NoPage)
        invariant bufs == seq(buffers, _ => ZeroPage()) && |stamp| == buffers
        invariant forall i :: 0 <= i < b ==> free[i] == b - 1 - i
      {
        free := [b] + free;
        nfree := nfree + 1;
        b := b + 1;
      }
      forall x | 0 <= x < buffers ensures BufferOk(State(), x) {
        assert free[buffers - 1 - x] == x;
      }
    }

    /** map_evict_pg_cache: fails only without used buffers.  The least recently used page is forgotten. */
    method Evict() returns (failed: bool)
      requires Valid()
      modifies this
      ensures failed <==> old(used) == []
      ensures failed ==> State() == old(State())
      ensures Valid() && |slot| == |old(slot)|
      ensures !failed ==> old(HeadPage(State()))
      ensures !failed ==> View(State()) == Without(old(View(State())), old(owner)[old(used)[0]].page)
      ensures !failed ==> free != [] && forall p :: 0 <= p < |slot| && old(slot)[p] == Uncached ==> slot[p] == Uncached
    {
      if used == [] {
        return true;
      }
      HeadUsed(State());
      EvictGood(State());
      EvictView(State());
      RecentTail(used, stamp, clock);
      hide Good, View, Recent, Without;
      var b := used[0];
      used := used[1..];
      nused := nused - 1;
      slot := slot[owner[b].page := Uncached];
      owner := owner[b := NoPage];
      free := [b] + free;
      nfree := nfree + 1;
      return false;
    }

    /** map_load_pg_cache without the eviction. */
    method LoadFree(p: nat)
      requires Valid() && free != [] && p < |slot| && slot[p] == Uncached
      modifies this
      ensures Valid() && |slot| == |old(slot)| && slot[p] == Cached(old(free)[0])
      ensures View(State()) == old(View(State())) && used == old(used) + [old(free)[0]]
    {
      LoadGood(State(), p);
      LoadView(State(), p);
      FreeNotUsed(State());
      RecentAppend(used, stamp, clock, free[0]);
      hide Good, View, Recent;
      var b := free[0];
      free := free[1..];
      nfree := nfree - 1;
      owner := owner[b := Page(p)];
      bufs := bufs[b := ZeroPage()];
      slot := slot[p := Cached(b)];
      used := used + [b];
      nused := nused + 1;
      stamp, clock := stamp[b := clock], clock + 1;
    }

    /** map_get_cache_entry: loads the page, or moves its buffer to the tail of the used list.  Nothing
        is forgotten as long as there are no more pages than buffers. */
    method GetEntry(id: nat) returns (ok: bool, b: nat)
      requires Valid() && id / PAGE_ENTRIES < |slot|
      modifies this
      ensures Valid() && |slot| == |old(slot)| && (buffers == 0 <==> !ok)
      ensures ok ==> slot[id / PAGE_ENTRIES] == Cached(b) && used != [] && used[|used| - 1] == b
      ensures |slot| <= buffers ==> View(State()) == old(View(State()))
    {
      hide Good, View, Recent, Without;
      var p := id / PAGE_ENTRIES;
      b := 0;
      if slot[p] == Uncached {
        Fits(State(), p);
        if free == [] {
          var failed := Evict();
          if failed {
            return false, 0;
          }
        }
        LoadFree(p);
        b := slot[p].buf;
      } else {
        b := slot[p].buf;
        TouchGood(State(), p);
        TouchRecent(State(), p, stamp, clock);
        used := Unlink(used, b) + [b];
        stamp, clock := stamp[b := clock], clock + 1;
      }
      return true, b;
    }

    /** map_upsert: a compare-and-set on the plain map; zero as the expected value always succeeds. */
    method Upsert(id: nat, val: nat, oldCaller: nat) returns (ok: bool, prior: nat)
      requires Valid() && 0 < |slot| <= buffers && id < |slot| * PAGE_ENTRIES
      modifies this
      ensures Valid() && |slot| == |old(slot)| && prior == old(View(State()))[id]
      ensures ok <==> oldCaller == 0 || prior == oldCaller
      ensures View(State()) == if ok then old(View(State()))[id := val] else old(View(State()))
    {
      hide Good, View, Recent;
      var got, b := GetEntry(id);
      StoreGood(State(), id, val);
      prior := bufs[b][id % PAGE_ENTRIES];
      if oldCaller != 0 && prior != oldCaller {
        return false, prior;
      }
      var page: seq<nat> := bufs[b][id % PAGE_ENTRIES := val];
      bufs := bufs[b := page];
      return true, prior;
    }

    /** map_read: the offset field, the low 40 bits of what the plain map holds. */
    method Read(id: nat) returns (v: nat)
      requires Valid() && |slot| <= buffers && id < |slot| * PAGE_ENTRIES
      modifies this
      ensures Valid() && View(State()) == old(View(State())) && v == old(View(State()))[id] % OFFSET_SPAN
    {
      hide Good, View, Recent;
      var got, b := GetEntry(id);
      StoreGood(State(), id, 0);
      v := bufs[b][id % PAGE_ENTRIES] % OFFSET_SPAN;
    }
  }

  /** The head of the used list belongs to a page. */
  ghost predicate HeadPage(s: Pool) {
    s.used != [] && s.used[0] < |s.owner| && s.owner[s.used[0]].Page? && s.owner[s.used[0]].page < |s.slot|
  }

  lemma {:induction false} FreeNotUsed(s: Pool)
    requires Good(s) && s.free != []
    ensures s.free[0] !in s.used && s.free[0] < |s.bufs|
  {
    assert s.free[0] in s.free;
    assert BufferOk(s, s.free[0]);
  }

  lemma {:induction false} TouchRecent(s: Pool, p: nat, stamp: seq<nat>, clock: nat)
    requires Good(s) && p < |s.slot| && s.slot[p].Cached? && |stamp| == |s.bufs| && Recent(s.used, stamp, clock)
    ensures s.slot[p].buf < |stamp|
    ensures Recent(Unlink(s.used, s.slot[p].buf) + [s.slot[p].buf], stamp[s.slot[p].buf := clock], clock + 1)
  {
    var b := s.slot[p].buf;
    assert SlotOk(s, p);
    UnlinkDistinct(s.used, b);
    RecentUnlink(s.used, stamp, clock, b);
    RecentAppend(Unlink(s.used, b), stamp, clock, b);
  }

  /** What loading an uncached page finds. */
  lemma {:induction false} Fits(s: Pool, p: nat)
    requires Good(s) && p < |s.slot| && s.slot[p] == Uncached
    ensures |s.slot| <= |s.bufs| ==> s.free != []
    ensures s.free == [] && s.used == [] <==> |s.bufs| == 0
  {
    if |s.slot| <= |s.bufs| {
      NeverEvicts(s, p);
    }
  }

  /** map_init: there are fewer pages than buffers, so Upsert and Read never forget anything. */
  method NewMap() returns (c: Cache)
    ensures fresh(c) && c.Valid() && |c.slot| == 256 && c.buffers == 8192 && |View(c.State())| == 1048576
    ensures forall id :: 0 <= id < |View(c.State())| ==> View(c.State())[id] == 0
  {
    c := new Cache(MAP_PAGES, MAP_BUFFERS);
  }

  /** What is stored is what is read, as far as the 40 bits of an offset go. */
  method StoreAndRead(c: Cache, id: nat, val: nat) returns (v: nat)
    requires c.Valid() && 0 < |c.slot| <= c.buffers && id < |c.slot| * PAGE_ENTRIES
    modifies c
    ensures c.Valid() && View(c.State()) == old(View(c.State()))[id := val]
    ensures v == val <==> val < 1099511627776
  {
    hide Good, View, Recent;
    OffsetFits(val);
    var ok, prior := c.Upsert(id, val, 0);
    assert id < |View(c.State())|;
    v := c.Read(id);
  }

  lemma {:induction false} OffsetFits(val: nat)
    ensures val % OFFSET_SPAN == val <==> val < 1099511627776
  {
  }

  /** The buffer of an evicted page is the one the next page is loaded into. */
  lemma {:induction false} EvictedReused(s: Pool, p: nat)
    requires Good(s) && s.free == [] && s.used != [] && p < |s.slot|
    ensures HeadPage(s) && var s' := Evicted(s);
      s'.free == [s.used[0]] && s.used[0] < |s'.owner| == |s'.bufs| && Loaded(s', p).slot[p] == Cached(s.used[0]) &&
      Loaded(s', p).used == s.used[1..] + [s.used[0]]
  {
    HeadUsed(s);
    hide Good;
  }
}
