/** The submission protocol of a user write as a state machine.

    The writer submits each slot's commands in order, one at a time (`minflight`), and the device
    completes the commands in flight in any order.  A failed command is resubmitted until it has
    failed three times; then it is given up and the write is marked failed.  The device obeys the one
    rule of sequential-write-required zones: a write lands only at the zone's write pointer.
 */
module Submission {
  import opened Layout
  import opened Provision

  const MAX_ERRORS: nat := 3

  /** Entry `index` of a slot's command list: command `64 * index + slot` of the write. */
  datatype Cmd = Cmd(slot: nat, index: nat)

  /** A write of `data` to a node whose image is `img`.  Slot `k` owns zone `ZoneAt(Start(), k)`. */
  datatype Write = Write(img: seq<Byte>, data: seq<Byte>) {
    ghost predicate Valid() {
      |img| % UNIT == 0 && |data| % UNIT == 0 && 0 < |data|
    }
    function Start(): nat { |img| / UNIT }
    function Num(): nat { |data| / UNIT }
    function Share(k: nat): nat { ZoneUnits(Num(), k) }
    /** Height of slot `k`'s zone before the write. */
    function Height(k: nat): nat { (Start() + k) / ZONES }

    /** What slot `k`'s zone holds before the write, and when everything was written. */
    function Before(k: nat): seq<Byte>
      requires Valid()
    {
      Stripe(img)[ZoneAt(Start(), k)]
    }
    function Final(k: nat): seq<Byte>
      requires Valid()
    {
      Stripe(img + data)[ZoneAt(Start(), k)]
    }

    /** The part of the buffer that a command writes. */
    function Chunk(c: Cmd): seq<Byte>
      requires Valid() && ZONES * c.index + c.slot < Num()
    {
      var n := ZONES * c.index + c.slot;
      data[n * UNIT..n * UNIT + UNIT]
    }
  }

  /** `next[k]` commands of slot `k` were submitted and `done[k]` counted; `flag` is minflight; `dev`
      holds the commands in flight with their failure count; `zones[k]` is the zone of slot `k`.
      `lost` and `good` say how the counted commands ended. */
  datatype State = State(next: seq<nat>, flag: seq<bool>, dev: map<Cmd, nat>, done: seq<nat>,
                         ncb: nat, released: nat, failed: bool,
                         zones: seq<seq<Byte>>, good: seq<nat>, lost: seq<nat>)

  ghost function Init(w: Write): State
    requires w.Valid()
  {
    var zero := seq(ZONES, _ => 0);
    State(zero, seq(ZONES, _ => false), map[], zero, 0, 0, false,
          seq(ZONES, k requires 0 <= k => w.Before(k)), zero, zero)
  }

  ghost predicate Shape(s: State) {
    |s.next| == ZONES && |s.flag| == ZONES && |s.done| == ZONES && |s.zones| == ZONES &&
    |s.good| == ZONES && |s.lost| == ZONES
  }

  /** The device accepts a command only at its zone's write pointer. */
  ghost predicate Accepts(w: Write, s: State, c: Cmd)
    requires Shape(s) && c.slot < ZONES
  {
    |s.zones[c.slot]| == (w.Height(c.slot) + c.index) * UNIT
  }

  ghost predicate Submit(w: Write, s: State, s': State, k: nat)
    requires Shape(s)
  {
    k < ZONES && s.next[k] < w.Share(k) && !s.flag[k] &&
    s' == s.(next := s.next[k := s.next[k] + 1], flag := s.flag[k := true], dev := s.dev[Cmd(k, s.next[k]) := 0])
  }

  /** What the callback does when a command will not be resubmitted. */
  ghost function Counted(w: Write, s: State, c: Cmd): State
    requires Shape(s) && c.slot < ZONES
  {
    s.(flag := s.flag[c.slot := false], dev := s.dev - {c}, done := s.done[c.slot := s.done[c.slot] + 1],
       ncb := s.ncb + 1, released := s.released + (if s.ncb + 1 == w.Num() then 1 else 0))
  }

  ghost predicate Complete(w: Write, s: State, s': State, c: Cmd)
    requires w.Valid() && Shape(s)
  {
    c in s.dev && c.slot < ZONES && ZONES * c.index + c.slot < w.Num() && Accepts(w, s, c) &&
    s' == Counted(w, s, c).(zones := s.zones[c.slot := s.zones[c.slot] + w.Chunk(c)],
                            good := s.good[c.slot := s.good[c.slot] + 1])
  }

  ghost predicate Retry(w: Write, s: State, s': State, c: Cmd)
    requires Shape(s)
  {
    c in s.dev && s.dev[c] + 1 < MAX_ERRORS && s' == s.(dev := s.dev[c := s.dev[c] + 1])
  }

  ghost predicate GiveUp(w: Write, s: State, s': State, c: Cmd)
    requires Shape(s)
  {
    c in s.dev && c.slot < ZONES && s.dev[c] + 1 >= MAX_ERRORS &&
    s' == Counted(w, s, c).(failed := true, lost := s.lost[c.slot := s.lost[c.slot] + 1])
  }

  datatype Event = Submitted(k: nat) | Completed(c: Cmd) | Retried(c: Cmd) | GivenUp(c: Cmd)

  ghost predicate Step(w: Write, s: State, s': State, e: Event)
    requires w.Valid()
  {
    Shape(s) &&
    match e
    case Submitted(k) => Submit(w, s, s', k)
    case Completed(c) => Complete(w, s, s', c)
    case Retried(c) => Retry(w, s, s', c)
    case GivenUp(c) => GiveUp(w, s, s', c)
  }

  // ----- the invariant

  /** Slot `k`: at most one command in flight, the last submitted; its successes precede its losses. */
  ghost predicate SlotInv(w: Write, s: State, k: nat)
    requires Shape(s) && k < ZONES
  {
    s.next[k] <= w.Share(k) &&
    s.done[k] + (if s.flag[k] then 1 else 0) == s.next[k] &&
    (s.flag[k] ==> Cmd(k, s.next[k] - 1) in s.dev) &&
    (s.lost[k] == 0 ==> s.good[k] == s.done[k]) &&
    (s.lost[k] > 0 ==> s.good[k] < s.done[k] && s.failed)
  }

  ghost predicate ZoneInv(w: Write, s: State, k: nat)
    requires w.Valid() && Shape(s) && k < ZONES
  {
    var n := (w.Height(k) + s.good[k]) * UNIT;
    n <= |w.Final(k)| && s.zones[k] == w.Final(k)[..n]
  }

  ghost predicate CmdInv(s: State, c: Cmd)
    requires Shape(s) && c in s.dev
  {
    c.slot < ZONES && s.flag[c.slot] && c.index + 1 == s.next[c.slot] && s.dev[c] < MAX_ERRORS
  }

  ghost predicate Inv(w: Write, s: State)
    requires w.Valid()
  {
    Shape(s) &&
    (forall c :: c in s.dev ==> CmdInv(s, c)) &&
    (forall k :: 0 <= k < ZONES ==> SlotInv(w, s, k)) &&
    (forall k :: 0 <= k < ZONES ==> ZoneInv(w, s, k)) &&
    s.ncb == Sum(s.done) && s.released == (if s.ncb == w.Num() then 1 else 0) &&
    (s.failed ==> exists k :: 0 <= k < ZONES && s.lost[k] > 0)
  }

  // ----- sums over slots

  ghost function Sum(s: seq<nat>): nat {
    if s == [] then 0 else Sum(s[..|s| - 1]) + s[|s| - 1]
  }

  lemma {:induction false} SumUpdate(s: seq<nat>, k: nat, v: nat)
    requires k < |s|
    ensures Sum(s[k := v]) == Sum(s) - s[k] + v
  {
    var n := |s| - 1;
    if k == n {
      assert s[k := v][..n] == s[..n];
    } else {
      assert s[k := v][..n] == s[..n][k := v];
      SumUpdate(s[..n], k, v);
    }
  }

  /** A pointwise bound sums up, and is met by the sums only if it is met everywhere. */
  lemma {:induction false} SumBound(w: Write, s: seq<nat>)
    requires |s| <= ZONES && forall k :: 0 <= k < |s| ==> s[k] <= w.Share(k)
    ensures Sum(s) <= SumShares(w.Num(), |s|)
    ensures Sum(s) == SumShares(w.Num(), |s|) ==> forall k :: 0 <= k < |s| ==> s[k] == w.Share(k)
  {
    if s != [] {
      SumBound(w, s[..|s| - 1]);
    }
  }

  lemma {:induction false} SumZero(n: nat)
    ensures Sum(seq(n, _ => 0)) == 0
  {
    if n > 0 {
      SumZero(n - 1);
      assert seq(n, _ => 0)[..n - 1] == seq(n - 1, _ => 0);
    }
  }

  // ----- commands and zones

  /** The zone of slot `k` reaches its final height after the slot's share. */
  lemma {:induction false} FinalHeight(w: Write, k: nat)
    requires w.Valid() && k < ZONES
    ensures |w.Final(k)| == (w.Height(k) + w.Share(k)) * UNIT
  {
    HeightOfNext(w.Start(), k);
    SharesKeepBalance(w.Start(), w.Num(), k);
    assert |w.img + w.data| / UNIT == w.Start() + w.Num();
  }

  lemma {:induction false} CmdWithinShare(w: Write, c: Cmd)
    requires c.slot < ZONES
    ensures ZONES * c.index + c.slot < w.Num() <==> c.index < w.Share(c.slot)
  {
  }

  /** The buffer part of a command is what the final contents of its zone hold at its address. */
  lemma {:induction false} ChunkInFinal(w: Write, c: Cmd)
    requires w.Valid() && c.slot < ZONES && ZONES * c.index + c.slot < w.Num()
    ensures (w.Height(c.slot) + c.index) * UNIT + UNIT <= |w.Final(c.slot)|
    ensures var b := (w.Height(c.slot) + c.index) * UNIT;
      w.Final(c.slot)[b..b + UNIT] == w.Chunk(c)
  {
    var n, h := ZONES * c.index + c.slot, w.Height(c.slot) + c.index;
    var z, u := ZoneAt(w.Start(), c.slot), w.Start() + n;
    FinalHeight(w, c.slot);
    CmdWithinShare(w, c);
    assert h * ZONES + z == u;
    forall r | 0 <= r < UNIT
      ensures w.Final(c.slot)[h * UNIT + r] == w.Chunk(c)[r]
    {
      assert (h * UNIT + r) / UNIT == h && (h * UNIT + r) % UNIT == r;
      assert LinearByte(z, h * UNIT + r) == u * UNIT + r == |w.img| + n * UNIT + r;
    }
  }

  // ----- every step keeps the invariant

  lemma {:induction false} InitInv(w: Write)
    requires w.Valid()
    ensures Inv(w, Init(w))
  {
    SumZero(ZONES);
    forall k | 0 <= k < ZONES ensures ZoneInv(w, Init(w), k) {
      HeightOfNext(w.Start(), k);
      StripePrefix(w.img, w.data, ZoneAt(w.Start(), k));
    }
  }

  lemma {:induction false} SubmitInv(w: Write, s: State, s': State, k: nat)
    requires w.Valid() && Inv(w, s) && Submit(w, s, s', k)
    ensures Inv(w, s')
  {
    assert SlotInv(w, s, k);
    forall c | c in s'.dev ensures CmdInv(s', c) {
      if c != Cmd(k, s.next[k]) {
        assert CmdInv(s, c);
      }
    }
    forall i | 0 <= i < ZONES ensures SlotInv(w, s', i) && ZoneInv(w, s', i) {
      assert SlotInv(w, s, i) && ZoneInv(w, s, i);
    }
  }

  lemma {:induction false} RetryInv(w: Write, s: State, s': State, c: Cmd)
    requires w.Valid() && Inv(w, s) && Retry(w, s, s', c)
    ensures Inv(w, s')
  {
    forall d | d in s'.dev ensures CmdInv(s', d) {
      assert CmdInv(s, d);
    }
    forall i | 0 <= i < ZONES ensures SlotInv(w, s', i) && ZoneInv(w, s', i) {
      assert SlotInv(w, s, i) && ZoneInv(w, s, i);
    }
  }

  /** The counts of commands never exceed the write's. */
  lemma {:induction false} CountBound(w: Write, s: State)
    requires w.Valid() && Inv(w, s)
    ensures s.ncb <= w.Num()
    ensures s.ncb == w.Num() ==> forall k :: 0 <= k < ZONES ==> s.done[k] == w.Share(k)
  {
    forall k | 0 <= k < ZONES ensures s.done[k] <= w.Share(k) {
      assert SlotInv(w, s, k);
    }
    SumBound(w, s.done);
    SharesSum(w.Num());
  }

  lemma {:induction false} InFlightUncounted(w: Write, s: State, c: Cmd)
    requires w.Valid() && Inv(w, s) && c in s.dev
    ensures s.ncb < w.Num()
  {
    CountBound(w, s);
    assert CmdInv(s, c) && SlotInv(w, s, c.slot);
  }

  /** A command in flight is at its zone's write pointer exactly when its slot never lost a command. */
  lemma {:induction false} AtWritePointer(w: Write, s: State, c: Cmd)
    requires w.Valid() && Inv(w, s) && c in s.dev
    ensures c.slot < ZONES && (Accepts(w, s, c) <==> s.lost[c.slot] == 0)
  {
    assert CmdInv(s, c);
    assert SlotInv(w, s, c.slot) && ZoneInv(w, s, c.slot);
  }

  /** The completed command extends its zone by the unit that belongs there. */
  lemma {:induction false} CompleteZones(w: Write, s: State, s': State, c: Cmd, i: nat)
    requires w.Valid() && Inv(w, s) && Complete(w, s, s', c) && i < ZONES
    ensures ZoneInv(w, s', i)
  {
    assert ZoneInv(w, s, i);
    if i == c.slot {
      AtWritePointer(w, s, c);
      assert CmdInv(s, c) && SlotInv(w, s, i);
      ChunkInFinal(w, c);
      var b := (w.Height(i) + c.index) * UNIT;
      assert w.Final(i)[..b] + w.Final(i)[b..b + UNIT] == w.Final(i)[..b + UNIT];
    }
  }

  lemma {:induction false} CompleteInv(w: Write, s: State, s': State, c: Cmd)
    requires w.Valid() && Inv(w, s) && Complete(w, s, s', c)
    ensures Inv(w, s')
  {
    InFlightUncounted(w, s, c);
    AtWritePointer(w, s, c);
    SumUpdate(s.done, c.slot, s.done[c.slot] + 1);
    forall d | d in s'.dev ensures CmdInv(s', d) {
      assert CmdInv(s, d) && CmdInv(s, c);
    }
    forall i | 0 <= i < ZONES ensures SlotInv(w, s', i) {
      assert SlotInv(w, s, i) && CmdInv(s, c);
    }
    forall i | 0 <= i < ZONES ensures ZoneInv(w, s', i) {
      CompleteZones(w, s, s', c, i);
    }
  }

  lemma {:induction false} GiveUpInv(w: Write, s: State, s': State, c: Cmd)
    requires w.Valid() && Inv(w, s) && GiveUp(w, s, s', c)
    ensures Inv(w, s')
  {
    InFlightUncounted(w, s, c);
    SumUpdate(s.done, c.slot, s.done[c.slot] + 1);
    assert s'.lost[c.slot] > 0;
    forall d | d in s'.dev ensures CmdInv(s', d) {
      assert CmdInv(s, d) && CmdInv(s, c);
    }
    forall i | 0 <= i < ZONES ensures SlotInv(w, s', i) && ZoneInv(w, s', i) {
      assert SlotInv(w, s, i) && ZoneInv(w, s, i) && CmdInv(s, c);
    }
  }

  lemma {:induction false} StepInv(w: Write, s: State, s': State, e: Event)
    requires w.Valid() && Inv(w, s) && Step(w, s, s', e)
    ensures Inv(w, s')
  {
    match e
    case Submitted(k) => SubmitInv(w, s, s', k);
    case Completed(c) => CompleteInv(w, s, s', c);
    case Retried(c) => RetryInv(w, s, s', c);
    case GivenUp(c) => GiveUpInv(w, s, s', c);
  }

  // ----- progress and termination

  /** Until every command is counted, the writer can submit or the device can complete a command; only a
      zone that lost a command leaves the device nothing but to fail the next one. */
  lemma {:induction false} Progress(w: Write, s: State) returns (s': State, e: Event)
    requires w.Valid() && Inv(w, s) && s.ncb < w.Num()
    ensures Step(w, s, s', e)
    ensures !s.failed ==> e.Submitted? || e.Completed?
    ensures e.Retried? || e.GivenUp? ==> e.c.slot < ZONES && s.lost[e.c.slot] > 0
  {
    SharesSum(w.Num());
    SumShort(w, s.done);
    var k :| 0 <= k < ZONES && s.done[k] != w.Share(k);
    assert SlotInv(w, s, k);
    if !s.flag[k] {
      s' := s.(next := s.next[k := s.next[k] + 1], flag := s.flag[k := true], dev := s.dev[Cmd(k, s.next[k]) := 0]);
      e := Submitted(k);
    } else {
      var c := Cmd(k, s.next[k] - 1);
      assert CmdInv(s, c);
      if s.lost[k] == 0 {
        AtWritePointer(w, s, c);
        CmdWithinShare(w, c);
        s' := Counted(w, s, c).(zones := s.zones[k := s.zones[k] + w.Chunk(c)], good := s.good[k := s.good[k] + 1]);
        e := Completed(c);
      } else if s.dev[c] + 1 < MAX_ERRORS {
        s', e := s.(dev := s.dev[c := s.dev[c] + 1]), Retried(c);
      } else {
        s' := Counted(w, s, c).(failed := true, lost := s.lost[k := s.lost[k] + 1]);
        e := GivenUp(c);
      }
    }
  }

  lemma {:induction false} SumShort(w: Write, s: seq<nat>)
    requires |s| <= ZONES && Sum(s) < SumShares(w.Num(), |s|)
    ensures exists k :: 0 <= k < |s| && s[k] != w.Share(k)
  {
    if s[|s| - 1] == w.Share(|s| - 1) {
      SumShort(w, s[..|s| - 1]);
      var k :| 0 <= k < |s| - 1 && s[..|s| - 1][k] != w.Share(k);
      assert s[k] != w.Share(k);
    }
  }

  /** Work left in slot `k`: four for a command not submitted, up to three for the one in flight. */
  ghost function SlotWork(w: Write, s: State, k: nat): int
    requires Shape(s) && k < ZONES
  {
    4 * (w.Share(k) - s.next[k]) +
    (if s.flag[k] && 0 < s.next[k] && Cmd(k, s.next[k] - 1) in s.dev
     then MAX_ERRORS - s.dev[Cmd(k, s.next[k] - 1)] else 0)
  }

  ghost function Work(w: Write, s: State, n: nat): int
    requires Shape(s) && n <= ZONES
  {
    if n == 0 then 0 else Work(w, s, n - 1) + SlotWork(w, s, n - 1)
  }

  lemma {:induction false} WorkOneSlot(w: Write, s: State, s': State, k: nat, n: nat)
    requires Shape(s) && Shape(s') && k < ZONES && n <= ZONES
    requires SlotWork(w, s', k) < SlotWork(w, s, k)
    requires forall i :: 0 <= i < ZONES && i != k ==> SlotWork(w, s', i) == SlotWork(w, s, i)
    ensures if k < n then Work(w, s', n) < Work(w, s, n) else Work(w, s', n) == Work(w, s, n)
  {
    if n > 0 {
      WorkOneSlot(w, s, s', k, n - 1);
    }
  }

  lemma {:induction false} WorkNonNegative(w: Write, s: State, n: nat)
    requires w.Valid() && Inv(w, s) && n <= ZONES
    ensures 0 <= Work(w, s, n)
  {
    if n > 0 {
      WorkNonNegative(w, s, n - 1);
      assert SlotInv(w, s, n - 1);
      if s.flag[n - 1] {
        assert CmdInv(s, Cmd(n - 1, s.next[n - 1] - 1));
      }
    }
  }

  /** Every step, whichever it is, takes work away. */
  lemma {:induction false} StepWork(w: Write, s: State, s': State, e: Event)
    requires w.Valid() && Inv(w, s) && Step(w, s, s', e)
    ensures Shape(s') && Work(w, s', ZONES) < Work(w, s, ZONES)
  {
    if !e.Submitted? {
      assert CmdInv(s, e.c);
    }
    var k := if e.Submitted? then e.k else e.c.slot;
    assert SlotInv(w, s, k);
    WorkOneSlot(w, s, s', k, ZONES);
  }

  lemma {:induction false} InitialWork(w: Write, n: nat)
    requires w.Valid() && n <= ZONES
    ensures Work(w, Init(w), n) == 4 * SumShares(w.Num(), n)
  {
    if n > 0 {
      InitialWork(w, n - 1);
    }
  }

  // ----- whole runs

  ghost predicate IsRun(w: Write, run: seq<State>, events: seq<Event>)
    requires w.Valid()
  {
    |run| == |events| + 1 && run[0] == Init(w) &&
    forall i :: 0 <= i < |events| ==> Step(w, run[i], run[i + 1], events[i])
  }

  /** Every state of every run satisfies the invariant, and a run takes at most 4 steps per command. */
  lemma {:induction false} RunSafe(w: Write, run: seq<State>, events: seq<Event>, i: nat)
    requires w.Valid() && IsRun(w, run, events) && i < |run|
    ensures Inv(w, run[i])
    ensures 0 <= Work(w, run[i], ZONES) <= 4 * w.Num() - i
  {
    if i == 0 {
      InitInv(w);
      InitialWork(w, ZONES);
      SharesSum(w.Num());
    } else {
      RunSafe(w, run, events, i - 1);
      StepInv(w, run[i - 1], run[i], events[i - 1]);
      StepWork(w, run[i - 1], run[i], events[i - 1]);
    }
    WorkNonNegative(w, run[i], ZONES);
  }

  /** In every run a command is sent to the device at its zone's write pointer exactly as long as no
      command of that zone was given up. */
  lemma {:induction false} RunWritePointer(w: Write, run: seq<State>, events: seq<Event>, i: nat, c: Cmd)
    requires w.Valid() && IsRun(w, run, events) && i < |run| && c in run[i].dev
    ensures Shape(run[i]) && c.slot < ZONES
    ensures Accepts(w, run[i], c) <==> run[i].lost[c.slot] == 0
    ensures forall d :: d in run[i].dev && d.slot == c.slot ==> d == c
  {
    RunSafe(w, run, events, i);
    AtWritePointer(w, run[i], c);
    forall d | d in run[i].dev && d.slot == c.slot ensures d == c {
      assert CmdInv(run[i], c) && CmdInv(run[i], d);
    }
  }

  /** When all commands are counted: nothing is in flight, the pointers were released exactly once,
      and the zones hold the striped new image exactly when no command was given up. */
  lemma {:induction false} Outcome(w: Write, s: State)
    requires w.Valid() && Inv(w, s) && s.ncb == w.Num()
    ensures s.released == 1 && s.dev == map[]
    ensures (forall k :: 0 <= k < ZONES ==> s.zones[k] == w.Final(k)) <==> !s.failed
  {
    CountBound(w, s);
    forall k | 0 <= k < ZONES
      ensures !s.flag[k] && (s.zones[k] == w.Final(k) <==> s.lost[k] == 0)
    {
      assert SlotInv(w, s, k) && ZoneInv(w, s, k);
      FinalHeight(w, k);
    }
    if c :| c in s.dev {
      InFlightUncounted(w, s, c);
    }
    forall k | 0 <= k < ZONES && s.lost[k] > 0 ensures s.failed {
      assert SlotInv(w, s, k);
    }
  }

  /** The slots' zones are the node's zones, so a write that did not fail turned `Stripe(img)` into
      `Stripe(img + data)`, whatever the order of completions. */
  lemma {:induction false} RunWritesImage(w: Write, run: seq<State>, events: seq<Event>)
    requires w.Valid() && IsRun(w, run, events) && run[|run| - 1].ncb == w.Num() && !run[|run| - 1].failed
    ensures |run[|run| - 1].zones| == ZONES
    ensures forall z :: 0 <= z < ZONES ==> run[|run| - 1].zones[Rotation(z, w.Start())] == Stripe(w.img + w.data)[z]
    ensures run[|run| - 1].released == 1
  {
    RunSafe(w, run, events, |run| - 1);
    Outcome(w, run[|run| - 1]);
  }

  // ----- how often a command is tried

  /** A command that has not failed yet may fail twice and is still tried; the third failure is its last. */
  lemma {:induction false} ThreeTries(w: Write, s: State, c: Cmd) returns (s1: State, s2: State)
    requires w.Valid() && Inv(w, s) && c in s.dev && s.dev[c] == 0
    ensures Step(w, s, s1, Retried(c)) && Step(w, s1, s2, Retried(c)) && s2.failed == s.failed
    ensures c in s2.dev && s2.zones == s.zones && s2.lost == s.lost
    ensures forall s3 :: !Step(w, s2, s3, Retried(c))
    ensures forall s3 :: Step(w, s2, s3, GivenUp(c)) ==> s3.failed && c !in s3.dev
  {
    s1 := s.(dev := s.dev[c := 1]);
    s2 := s.(dev := s.dev[c := 2]);
  }

  predicate Fails(e: Event, c: Cmd) {
    e == Retried(c) || e == GivenUp(c)
  }

  /** How often the command failed. */
  ghost function Failures(events: seq<Event>, c: Cmd): nat {
    if events == [] then 0
    else Failures(events[..|events| - 1], c) + if Fails(events[|events| - 1], c) then 1 else 0
  }

  /** What the state knows of the failures of a command. */
  ghost predicate FailuresKnown(s: State, n: nat, c: Cmd)
    requires Shape(s)
  {
    n <= 3 && (c in s.dev ==> s.dev[c] == n) && (c.slot < ZONES && c.index >= s.next[c.slot] ==> n == 0) &&
    (n == 3 ==> s.failed)
  }

  lemma {:induction false} FailuresStep(w: Write, s: State, s': State, e: Event, n: nat, c: Cmd)
    requires w.Valid() && Inv(w, s) && Inv(w, s') && Step(w, s, s', e) && FailuresKnown(s, n, c)
    ensures FailuresKnown(s', n + if Fails(e, c) then 1 else 0, c)
    ensures e == Retried(c) ==> n < 2
    ensures e == GivenUp(c) ==> n == 2
  {
    if c in s.dev {
      assert CmdInv(s, c);
    }
  }

  /** Over every run the failure count of a command in flight is the number of its failures so far.  It is given up
      at its third failure, and at no other. */
  lemma {:induction false} RunFailures(w: Write, run: seq<State>, events: seq<Event>, i: nat, c: Cmd)
    requires w.Valid() && IsRun(w, run, events) && i < |run|
    ensures Shape(run[i]) && FailuresKnown(run[i], Failures(events[..i], c), c)
    ensures i < |events| && Fails(events[i], c) ==> (events[i] == GivenUp(c) <==> Failures(events[..i], c) == 2)
  {
    RunSafe(w, run, events, i);
    if i == 0 {
      assert events[..0] == [];
    } else {
      RunFailures(w, run, events, i - 1, c);
      RunSafe(w, run, events, i - 1);
      assert events[..i][..i - 1] == events[..i - 1];
      FailuresStep(w, run[i - 1], run[i], events[i - 1], Failures(events[..i - 1], c), c);
    }
    if i < |events| {
      RunSafe(w, run, events, i + 1);
      FailuresStep(w, run[i], run[i + 1], events[i], Failures(events[..i], c), c);
    }
  }

  /** A write is marked failed exactly when some command failed three times. */
  lemma {:induction false} FailedIff(w: Write, run: seq<State>, events: seq<Event>, i: nat)
    requires w.Valid() && IsRun(w, run, events) && i < |run|
    ensures run[i].failed <==> exists c :: Failures(events[..i], c) == 3
  {
    if run[i].failed {
      var c := FailedBy(w, run, events, i);
    }
    if c :| Failures(events[..i], c) == 3 {
      RunFailures(w, run, events, i, c);
    }
  }

  lemma {:induction false} FailedBy(w: Write, run: seq<State>, events: seq<Event>, i: nat) returns (c: Cmd)
    requires w.Valid() && IsRun(w, run, events) && i < |run| && run[i].failed
    ensures Failures(events[..i], c) == 3
  {
    if i > 0 {
      var e := events[i - 1];
      assert events[..i][..i - 1] == events[..i - 1];
      assert Step(w, run[i - 1], run[i - 1 + 1], e);
      if run[i - 1].failed {
        c := FailedBy(w, run, events, i - 1);
        RunFailures(w, run, events, i, c);
      } else {
        c := e.c;
        RunFailures(w, run, events, i - 1, c);
      }
    }
  }

  /** Commands that fail at most twice do not fail the write: when all are counted the zones hold the new image. */
  lemma {:induction false} TwoFailuresHarmless(w: Write, run: seq<State>, events: seq<Event>)
    requires w.Valid() && IsRun(w, run, events) && run[|run| - 1].ncb == w.Num()
    requires forall c :: Failures(events, c) <= 2
    ensures |run[|run| - 1].zones| == ZONES && !run[|run| - 1].failed
    ensures forall z :: 0 <= z < ZONES ==> run[|run| - 1].zones[Rotation(z, w.Start())] == Stripe(w.img + w.data)[z]
  {
    assert events[..|events|] == events;
    FailedIff(w, run, events, |events|);
    RunWritesImage(w, run, events);
  }
}
