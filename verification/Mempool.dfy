/** The lock-free pool: one thread takes entries from the head of the list while another may insert at
    its tail.  The two 16-bit counters keep the getter three entries away from the putter.  Every
    access to a shared counter is a step of its own, so all interleavings are covered. */
module Mempool {

  const WORD16: nat := 0x1_0000
  const WORD32: nat := 0x1_0000_0000
  const MAX_ENTRIES: nat := 65538

  /** Where xztl_mempool_get stands: before the loop test; before reading in_count; before subtracting
      `tmp` from out_count; in the compare-and-swap loop; about to remove; about to count `ent`. */
  datatype Getter = Idle | Testing | Reading | Subtracting(tmp: nat) | Loading(tmp: nat)
                  | Swapping(tmp: nat, old_: nat) | Removing | Counting(ent: nat)

  /** Where xztl_mempool_put stands: not running, or inserted but not yet counted. */
  datatype Putter = Away | Counted | Exchanging(old_: nat)

  /** `list` is the queue, `held` the entries users have. */
  datatype State = State(list: seq<nat>, held: seq<nat>, inCount: nat, outCount: nat, g: Getter, p: Putter)

  datatype Event = CallGet | Test | ReadIn | Subtract | LoadIn | SwapIn | Remove | CountOut
                 | Put(i: nat) | LoadPut | SwapPut

  function UpTo(n: nat): (s: seq<nat>)
    ensures |s| == n && forall i :: 0 <= i < n ==> s[i] == i
  {
    seq(n, i requires 0 <= i => i)
  }

  /** xztl_mempool_create. */
  function Init(entries: nat): State {
    State(UpTo(entries), [], 0, 0, Idle, Away)
  }

  predicate Enabled(s: State, e: Event) {
    match e
    case CallGet => s.g == Idle
    case Test => s.g == Testing
    case ReadIn => s.g == Reading
    case Subtract => s.g.Subtracting?
    case LoadIn => s.g.Loading?
    case SwapIn => s.g.Swapping?
    case Remove => s.g == Removing && s.list != []
    case CountOut => s.g.Counting?
    case Put(i) => s.p == Away && i < |s.held|
    case LoadPut => s.p == Counted
    case SwapPut => s.p.Exchanging?
  }

  /** The counters as the machine computes them. */
  function After(entries: nat, s: State, e: Event): State
    requires Enabled(s, e)
  {
    match e
    case CallGet => s.(g := Testing)
    case Test => s.(g := if (entries - s.outCount) % WORD32 <= 2 then Reading else Removing)
    case ReadIn => s.(g := Subtracting(s.inCount))
    case Subtract => s.(outCount := (s.outCount - s.g.tmp) % WORD16, g := Loading(s.g.tmp))
    case LoadIn => s.(g := Swapping(s.g.tmp, s.inCount))
    case SwapIn =>
      if s.inCount == s.g.old_ then s.(inCount := (s.g.old_ - s.g.tmp) % WORD16, g := Testing)
      else s.(g := Loading(s.g.tmp))
    case Remove => s.(g := Counting(s.list[0]), list := s.list[1..])
    case CountOut => s.(outCount := (s.outCount + 1) % WORD16, held := s.held + [s.g.ent], g := Idle)
    case Put(i) => s.(list := s.list + [s.held[i]], held := s.held[..i] + s.held[i + 1..], p := Counted)
    case LoadPut => s.(p := Exchanging(s.inCount))
    case SwapPut =>
      if s.inCount == s.p.old_ then s.(inCount := (s.p.old_ + 1) % WORD16, p := Away) else s.(p := Counted)
  }

  ghost predicate IsRun(entries: nat, run: seq<State>, events: seq<Event>) {
    |run| == |events| + 1 && run[0] == Init(entries) &&
    forall i :: 0 <= i < |events| ==> Enabled(run[i], events[i]) && run[i + 1] == After(entries, run[i], events[i])
  }

  // ----- the invariant

  /** Already subtracted from out_count but not yet from in_count. */
  function Moved(s: State): nat {
    if s.g.Loading? || s.g.Swapping? then s.g.tmp else 0
  }

  /** An entry removed but not yet counted, or inserted but not yet counted. */
  function Taken(s: State): nat {
    if s.g.Counting? then 1 else 0
  }

  function Pending(s: State): nat {
    if s.p == Away then 0 else 1
  }

  /** The entry the getter is about to return. */
  function InHand(s: State): seq<nat> {
    if s.g.Counting? then [s.g.ent] else []
  }

  /** Largest value out_count reaches. */
  function OutLimit(entries: nat): nat {
    if entries >= 3 then entries - 2 else 0
  }

  /** Every entry is in the list, with a user or in the getter's hand, and nowhere twice. */
  ghost predicate Conserved(entries: nat, list: seq<nat>, held: seq<nat>, hand: seq<nat>) {
    multiset(list) + multiset(held) + multiset(hand) == multiset(UpTo(entries))
  }

  ghost predicate Inv(entries: nat, s: State) {
    Conserved(entries, s.list, s.held, InHand(s)) && |s.list| + |s.held| + Taken(s) == entries &&
    s.outCount + Moved(s) + |s.list| + Taken(s) == entries + s.inCount + Pending(s) &&
    s.outCount + Moved(s) + Taken(s) <= OutLimit(entries) &&
    (s.g == Removing ==> s.outCount + 3 <= entries) &&
    (s.g.Subtracting? || s.g.Loading? || s.g.Swapping? ==> s.g.tmp <= s.inCount) &&
    (s.g.Subtracting? ==> s.g.tmp <= s.outCount)
  }

  lemma {:induction false} InitInv(entries: nat)
    ensures Inv(entries, Init(entries))
  {
  }

  /** No counter wraps: the machine's value is the true one. */
  predicate NoWrap(s: State, e: Event)
    requires Enabled(s, e)
  {
    match e
    case Subtract => s.g.tmp <= s.outCount < WORD16
    case SwapIn => s.inCount == s.g.old_ ==> s.g.tmp <= s.inCount < WORD16
    case CountOut => s.outCount + 1 < WORD16
    case SwapPut => s.inCount == s.p.old_ ==> s.inCount + 1 < WORD16
    case _ => true
  }

  lemma {:induction false} NeverWraps(entries: nat, s: State, e: Event)
    requires Inv(entries, s) && Enabled(s, e) && entries < MAX_ENTRIES
    ensures NoWrap(s, e)
  {
    hide Conserved;
  }

  lemma {:induction false} SubtractInv(entries: nat, s: State)
    requires Inv(entries, s) && Enabled(s, Subtract) && entries < MAX_ENTRIES
    ensures Inv(entries, After(entries, s, Subtract))
  {
    hide Conserved;
    NeverWraps(entries, s, Subtract);
  }

  lemma {:induction false} SwapInInv(entries: nat, s: State)
    requires Inv(entries, s) && Enabled(s, SwapIn) && entries < MAX_ENTRIES
    ensures Inv(entries, After(entries, s, SwapIn))
  {
    hide Conserved;
    NeverWraps(entries, s, SwapIn);
  }

  lemma {:induction false} SwapPutInv(entries: nat, s: State)
    requires Inv(entries, s) && Enabled(s, SwapPut) && entries < MAX_ENTRIES
    ensures Inv(entries, After(entries, s, SwapPut))
  {
    hide Conserved;
    NeverWraps(entries, s, SwapPut);
  }

  lemma {:induction false} TestInv(entries: nat, s: State)
    requires Inv(entries, s) && Enabled(s, Test) && entries < MAX_ENTRIES
    ensures Inv(entries, After(entries, s, Test))
  {
    hide Conserved;
  }

  /** The steps that only read. */
  lemma {:induction false} ReadInv(entries: nat, s: State, e: Event)
    requires Inv(entries, s) && Enabled(s, e) && e in {CallGet, ReadIn, LoadIn, LoadPut}
    ensures Inv(entries, After(entries, s, e))
  {
    hide Conserved;
  }

  lemma {:induction false} RemoveInv(entries: nat, s: State)
    requires Inv(entries, s) && Enabled(s, Remove)
    ensures Inv(entries, After(entries, s, Remove))
  {
    RemoveConserves(entries, s.list, s.held);
    hide Conserved;
  }

  lemma {:induction false} RemoveConserves(entries: nat, list: seq<nat>, held: seq<nat>)
    requires Conserved(entries, list, held, []) && list != []
    ensures Conserved(entries, list[1..], held, [list[0]])
  {
    assert list == [list[0]] + list[1..];
  }

  lemma {:induction false} CountOutInv(entries: nat, s: State)
    requires Inv(entries, s) && Enabled(s, CountOut) && entries < MAX_ENTRIES
    ensures Inv(entries, After(entries, s, CountOut))
  {
    hide Conserved;
    HandOver(entries, s.list, s.held, s.g.ent);
    NeverWraps(entries, s, CountOut);
  }

  lemma {:induction false} HandOver(entries: nat, list: seq<nat>, held: seq<nat>, ent: nat)
    requires Conserved(entries, list, held, [ent])
    ensures Conserved(entries, list, held + [ent], [])
  {
    assert multiset(held + [ent]) == multiset(held) + multiset([ent]);
  }

  lemma {:induction false} PutInv(entries: nat, s: State, i: nat)
    requires Inv(entries, s) && Enabled(s, Put(i))
    ensures Inv(entries, After(entries, s, Put(i)))
  {
    PutConserves(entries, s.list, s.held, InHand(s), i);
    hide Conserved;
  }

  lemma {:induction false} PutConserves(entries: nat, list: seq<nat>, held: seq<nat>, hand: seq<nat>, i: nat)
    requires Conserved(entries, list, held, hand) && i < |held|
    ensures Conserved(entries, list + [held[i]], held[..i] + held[i + 1..], hand)
  {
    assert held == held[..i] + [held[i]] + held[i + 1..];
  }

  lemma {:induction false} StepInv(entries: nat, s: State, e: Event)
    requires Inv(entries, s) && Enabled(s, e) && entries < MAX_ENTRIES
    ensures Inv(entries, After(entries, s, e))
  {
    hide Inv, After;
    match e
    case Test => TestInv(entries, s);
    case Subtract => SubtractInv(entries, s);
    case SwapIn => SwapInInv(entries, s);
    case Remove => RemoveInv(entries, s);
    case CountOut => CountOutInv(entries, s);
    case Put(i) => PutInv(entries, s, i);
    case SwapPut => SwapPutInv(entries, s);
    case _ => ReadInv(entries, s, e);
  }

  // ----- runs

  lemma {:induction false} RunInv(entries: nat, run: seq<State>, events: seq<Event>, i: nat)
    requires IsRun(entries, run, events) && i < |run| && entries < MAX_ENTRIES
    ensures Inv(entries, run[i])
  {
    hide Inv, Enabled, After;
    if i == 0 {
      InitInv(entries);
    } else {
      RunInv(entries, run, events, i - 1);
      StepInv(entries, run[i - 1], events[i - 1]);
    }
  }

  /** In every run of a pool of fewer than 65538 entries: the list is never shorter than entries minus
      out_count, every removal sees at least three entries, no entry is lost or duplicated, and no
      counter wraps. */
  lemma {:induction false} RunSafe(entries: nat, run: seq<State>, events: seq<Event>, i: nat)
    requires IsRun(entries, run, events) && i < |run| && entries < MAX_ENTRIES
    ensures !run[i].g.Counting? ==> |run[i].list| >= entries - run[i].outCount
    ensures run[i].g == Removing ==> |run[i].list| >= 3
    ensures Conserved(entries, run[i].list, run[i].held, InHand(run[i]))
    ensures i < |events| ==> NoWrap(run[i], events[i])
  {
    RunInv(entries, run, events, i);
    if i < |events| {
      NeverWraps(entries, run[i], events[i]);
    }
  }

  // ----- the largest accepted pool

  ghost predicate RemovalsSafe(entries: nat) {
    forall run: seq<State>, events: seq<Event>, i ::
      IsRun(entries, run, events) && 0 <= i < |run| && run[i].g == Removing ==> |run[i].list| >= 3
  }

  /** The pool after `n` calls of get and none of put. */
  function Drained(entries: nat, n: nat): State
    requires n <= entries
  {
    State(UpTo(entries)[n..], UpTo(entries)[..n], 0, n % WORD16, Idle, Away)
  }

  lemma {:induction false} RunExtend(entries: nat, run: seq<State>, events: seq<Event>, e: Event)
    requires IsRun(entries, run, events) && Enabled(run[|run| - 1], e)
    ensures IsRun(entries, run + [After(entries, run[|run| - 1], e)], events + [e])
  {
    hide Enabled, After;
  }

  /** One get from a drained pool that still passes the test. */
  lemma {:induction false} DrainOne(entries: nat, n: nat)
    requires n < entries && 2 < (entries - n % WORD16) % WORD32
    ensures var s := Drained(entries, n);
      var s1 := s.(g := Testing);
      var s2 := s.(g := Removing);
      var s3 := s.(g := Counting(n), list := s.list[1..]);
      Enabled(s, CallGet) && After(entries, s, CallGet) == s1 && Enabled(s1, Test) && After(entries, s1, Test) == s2 &&
      Enabled(s2, Remove) && After(entries, s2, Remove) == s3 && Enabled(s3, CountOut) &&
      After(entries, s3, CountOut) == Drained(entries, n + 1)
  {
    assert UpTo(entries)[..n] + [n] == UpTo(entries)[..n + 1];
    assert UpTo(entries)[n..][1..] == UpTo(entries)[n + 1..];
  }

  lemma {:induction false} DrainRun(entries: nat, n: nat) returns (run: seq<State>, events: seq<Event>)
    requires n <= WORD16 && WORD16 + 2 <= entries <= MAX_ENTRIES
    ensures IsRun(entries, run, events) && run[|run| - 1] == Drained(entries, n)
  {
    if n == 0 {
      run, events := [Init(entries)], [];
      assert UpTo(entries)[0..] == UpTo(entries);
    } else {
      run, events := DrainRun(entries, n - 1);
      DrainOne(entries, n - 1);
      hide Enabled, After, Drained, IsRun;
      RunExtend(entries, run, events, CallGet);
      run, events := run + [After(entries, run[|run| - 1], CallGet)], events + [CallGet];
      RunExtend(entries, run, events, Test);
      run, events := run + [After(entries, run[|run| - 1], Test)], events + [Test];
      RunExtend(entries, run, events, Remove);
      run, events := run + [After(entries, run[|run| - 1], Remove)], events + [Remove];
      RunExtend(entries, run, events, CountOut);
      run, events := run + [After(entries, run[|run| - 1], CountOut)], events + [CountOut];
    }
  }

  /** With 65538 entries, which xztl_mempool_create accepts, 65536 gets wrap out_count to zero and the
      next get goes on to remove one of the last two entries. */
  lemma {:induction false} LargestPoolUnsafe() returns (run: seq<State>, events: seq<Event>)
    ensures IsRun(MAX_ENTRIES, run, events)
    ensures run[|run| - 1].g == Removing && |run[|run| - 1].list| == 2
  {
    run, events := DrainRun(MAX_ENTRIES, WORD16);
    DrainOne(MAX_ENTRIES, WORD16);
    var s := Drained(MAX_ENTRIES, WORD16);
    assert |s.list| == 2;
    hide Enabled, After, Drained, IsRun;
    RunExtend(MAX_ENTRIES, run, events, CallGet);
    run, events := run + [After(MAX_ENTRIES, run[|run| - 1], CallGet)], events + [CallGet];
    RunExtend(MAX_ENTRIES, run, events, Test);
    run, events := run + [After(MAX_ENTRIES, run[|run| - 1], Test)], events + [Test];
  }

  /** Of the sizes xztl_mempool_create accepts, exactly the largest is unsafe. */
  lemma {:induction false} SafeIff(entries: nat)
    requires 0 < entries <= MAX_ENTRIES
    ensures RemovalsSafe(entries) <==> entries != MAX_ENTRIES
  {
    if entries == MAX_ENTRIES {
      var run, events := LargestPoolUnsafe();
    } else {
      forall run: seq<State>, events: seq<Event>, i |
        IsRun(entries, run, events) && 0 <= i < |run| && run[i].g == Removing
        ensures |run[i].list| >= 3
      {
        RunSafe(entries, run, events, i);
      }
    }
  }

  // ----- what was put back is found again

  predicate ByGetter(e: Event) {
    !e.Put? && e != LoadPut && e != SwapPut
  }

  ghost predicate GetterRun(entries: nat, run: seq<State>, events: seq<Event>) {
    |run| == |events| + 1 && forall i :: 0 <= i < |events| ==>
      ByGetter(events[i]) && Enabled(run[i], events[i]) && run[i + 1] == After(entries, run[i], events[i])
  }

  /** A get whose test fails takes what was put back into account, and passes the next test. */
  lemma {:induction false} RecountPasses(entries: nat, s: State) returns (s1: State, s2: State, s3: State, s4: State,
                                                                          s5: State)
    requires Inv(entries, s) && entries < MAX_ENTRIES && s.g == Reading && s.p == Away && |s.list| >= 3
    ensures s1 == After(entries, s, ReadIn) && Enabled(s1, Subtract) && s2 == After(entries, s1, Subtract)
    ensures Enabled(s2, LoadIn) && s3 == After(entries, s2, LoadIn)
    ensures Enabled(s3, SwapIn) && s4 == After(entries, s3, SwapIn)
    ensures Enabled(s4, Test) && s5 == After(entries, s4, Test) && s5.g == Removing && s5.list == s.list
  {
    hide Conserved;
    s1 := After(entries, s, ReadIn);
    s2 := After(entries, s1, Subtract);
    s3 := After(entries, s2, LoadIn);
    s4 := After(entries, s3, SwapIn);
    s5 := After(entries, s4, Test);
  }

  /** With three entries in the list, put back or not, a get comes to its removal by its own steps alone. */
  lemma {:induction false} GetFinds(entries: nat, s: State) returns (run: seq<State>, events: seq<Event>)
    requires Inv(entries, s) && entries < MAX_ENTRIES && s.g == Testing && s.p == Away && |s.list| >= 3
    ensures GetterRun(entries, run, events) && run[0] == s && run[|run| - 1].g == Removing
    ensures run[|run| - 1].list == s.list && |events| <= 6
  {
    var s0 := After(entries, s, Test);
    run, events := [s, s0], [Test];
    if s0.g == Reading {
      TestInv(entries, s);
      var s1, s2, s3, s4, s5 := RecountPasses(entries, s0);
      hide Inv, After, Enabled;
      run, events := [s, s0, s1, s2, s3, s4, s5], [Test, ReadIn, Subtract, LoadIn, SwapIn, Test];
    }
  }

  /** A get in its recount, whatever it read before the last put: by its own steps alone it ends the round. */
  lemma {:induction false} SwapEnds(entries: nat, s: State) returns (run: seq<State>, events: seq<Event>)
    requires Inv(entries, s) && entries < MAX_ENTRIES && (s.g.Loading? || s.g.Swapping?)
    ensures GetterRun(entries, run, events) && run[0] == s && run[|run| - 1].g == Testing && |events| <= 3
    ensures run[|run| - 1].inCount == s.inCount - s.g.tmp && run[|run| - 1].list == s.list
  {
    hide Conserved;
    if s.g.Loading? {
      var s1 := After(entries, s, LoadIn);
      run, events := [s, s1, After(entries, s1, SwapIn)], [LoadIn, SwapIn];
    } else {
      var s1 := After(entries, s, SwapIn);
      run, events := [s, s1], [SwapIn];
      if s1.g != Testing {
        var s2 := After(entries, s1, LoadIn);
        run, events := [s, s1, s2, After(entries, s2, SwapIn)], [SwapIn, LoadIn, SwapIn];
      }
    }
  }

  ghost predicate PutterRun(entries: nat, run: seq<State>, events: seq<Event>) {
    |run| == |events| + 1 && forall i :: 0 <= i < |events| ==>
      !ByGetter(events[i]) && Enabled(run[i], events[i]) && run[i + 1] == After(entries, run[i], events[i])
  }

  /** A put that has inserted its entry counts it, once, by its own steps alone. */
  lemma {:induction false} PutEnds(entries: nat, s: State) returns (run: seq<State>, events: seq<Event>)
    requires Inv(entries, s) && entries < MAX_ENTRIES && s.p != Away
    ensures PutterRun(entries, run, events) && run[0] == s && run[|run| - 1].p == Away && |events| <= 3
    ensures run[|run| - 1].inCount == s.inCount + 1 && run[|run| - 1].list == s.list && run[|run| - 1].g == s.g
  {
    hide Conserved;
    if s.p == Counted {
      var s1 := After(entries, s, LoadPut);
      run, events := [s, s1, After(entries, s1, SwapPut)], [LoadPut, SwapPut];
    } else {
      var s1 := After(entries, s, SwapPut);
      run, events := [s, s1], [SwapPut];
      if s1.p != Away {
        var s2 := After(entries, s1, LoadPut);
        run, events := [s, s1, s2, After(entries, s2, SwapPut)], [SwapPut, LoadPut, SwapPut];
      }
    }
  }

  /** A put goes behind everything in the list, so it does not touch the entry a get removes. */
  lemma {:induction false} PutBehind(entries: nat, s: State, i: nat)
    requires Enabled(s, Put(i))
    ensures s.list <= After(entries, s, Put(i)).list && |After(entries, s, Put(i)).list| == |s.list| + 1
    ensures s.list != [] && Enabled(s, Remove) ==>
      After(entries, After(entries, s, Put(i)), Remove).g == After(entries, s, Remove).g
  {
  }
}
