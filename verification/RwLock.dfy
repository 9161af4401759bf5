/** The reader/writer lock of a file, for any number of threads.  A reader takes the writer's mutex only
    to count itself in; the writer keeps the mutex and waits for the count to fall to zero.  The lock
    protects readers that work on a copy of the file's map from the trims of garbage collection. */
module RwLock {

  /** A thread outside the lock; a reader before and after counting itself in, with the mutex still
      held; a reader inside, without and with its copy of the map; a writer that waits, that trims the
      victim's pieces, and that has put the new map in place. */
  datatype Pc = Out | Entering | Entered | Inside | Using(copy: set<nat>) | Waiting | Trimming | Replaced

  datatype Mutex = Unlocked | LockedBy(t: nat)

  /** `pieces` is the file's map, `trimmed` what garbage collection gave up, `known` all pieces so far. */
  datatype State = State(pc: seq<Pc>, mutex: Mutex, readers: int, pieces: set<nat>, trimmed: set<nat>, known: set<nat>)

  datatype Event = LockRead | Increment | UnlockRead | CopyMap | Decrement
                 | LockWrite | PassWait | Trim(piece: nat) | Replace(added: set<nat>) | UnlockWrite

  function Init(threads: nat, pieces: set<nat>): State {
    State(seq(threads, _ => Out), Unlocked, 0, pieces, {}, pieces)
  }

  predicate Enabled(s: State, t: nat, e: Event) {
    t < |s.pc| &&
    match e
    case LockRead => s.pc[t] == Out && s.mutex == Unlocked
    case Increment => s.pc[t] == Entering
    case UnlockRead => s.pc[t] == Entered
    case CopyMap => s.pc[t] == Inside
    case Decrement => s.pc[t].Using?
    case LockWrite => s.pc[t] == Out && s.mutex == Unlocked
    case PassWait => s.pc[t] == Waiting && s.readers <= 0
    case Trim(p) => s.pc[t] == Trimming && p in s.pieces
    case Replace(added) => s.pc[t] == Trimming && added !! s.known
    case UnlockWrite => s.pc[t] == Replaced
  }

  function After(s: State, t: nat, e: Event): State
    requires Enabled(s, t, e)
  {
    match e
    case LockRead => s.(mutex := LockedBy(t), pc := s.pc[t := Entering])
    case Increment => s.(readers := s.readers + 1, pc := s.pc[t := Entered])
    case UnlockRead => s.(mutex := Unlocked, pc := s.pc[t := Inside])
    case CopyMap => s.(pc := s.pc[t := Using(s.pieces)])
    case Decrement => s.(readers := s.readers - 1, pc := s.pc[t := Out])
    case LockWrite => s.(mutex := LockedBy(t), pc := s.pc[t := Waiting])
    case PassWait => s.(pc := s.pc[t := Trimming])
    case Trim(p) => s.(trimmed := s.trimmed + {p})
    case Replace(added) =>
      s.(pieces := s.pieces - s.trimmed + added, known := s.known + added, pc := s.pc[t := Replaced])
    case UnlockWrite => s.(mutex := Unlocked, pc := s.pc[t := Out])
  }

  /** The reader has counted itself in. */
  predicate Active(pc: Pc) {
    pc == Entered || pc == Inside || pc.Using?
  }

  predicate HoldsMutex(pc: Pc) {
    pc == Entering || pc == Entered || Writes(pc) || pc == Waiting
  }

  /** The writer has passed its wait. */
  predicate Writes(pc: Pc) {
    pc == Trimming || pc == Replaced
  }

  ghost function Readers(pc: seq<Pc>): nat {
    if pc == [] then 0 else Readers(pc[..|pc| - 1]) + (if Active(pc[|pc| - 1]) then 1 else 0)
  }

  lemma {:induction false} ReadersUpdate(pc: seq<Pc>, t: nat, x: Pc)
    requires t < |pc|
    ensures Readers(pc[t := x]) == Readers(pc) - (if Active(pc[t]) then 1 else 0) + (if Active(x) then 1 else 0)
  {
    var n := |pc| - 1;
    if t == n {
      assert pc[t := x][..n] == pc[..n];
    } else {
      assert pc[t := x][..n] == pc[..n][t := x];
      ReadersUpdate(pc[..n], t, x);
    }
  }

  lemma {:induction false} NoReaders(pc: seq<Pc>)
    ensures Readers(pc) == 0 <==> forall t :: 0 <= t < |pc| ==> !Active(pc[t])
  {
    if pc != [] {
      NoReaders(pc[..|pc| - 1]);
    }
  }

  // ----- the invariant

  ghost predicate ThreadOk(s: State, t: nat)
    requires t < |s.pc|
  {
    (HoldsMutex(s.pc[t]) <==> s.mutex == LockedBy(t)) &&
    (s.pc[t].Using? ==> s.pc[t].copy == s.pieces && s.pieces !! s.trimmed) &&
    (Writes(s.pc[t]) ==> Readers(s.pc) == 0)
  }

  /** Nobody is between trimming and replacing the map. */
  predicate Settled(s: State) {
    s.mutex.LockedBy? && s.mutex.t < |s.pc| ==> s.pc[s.mutex.t] != Trimming
  }

  ghost predicate Inv(s: State) {
    s.readers == Readers(s.pc) && (forall t :: 0 <= t < |s.pc| ==> ThreadOk(s, t)) &&
    (s.mutex.LockedBy? ==> s.mutex.t < |s.pc|) && s.pieces <= s.known && s.trimmed <= s.known &&
    (Settled(s) ==> s.pieces !! s.trimmed)
  }

  lemma {:induction false} InitInv(threads: nat, pieces: set<nat>)
    ensures Inv(Init(threads, pieces))
  {
    NoReaders(seq(threads, _ => Out));
  }

  lemma {:induction false} StepInv(s: State, t: nat, e: Event)
    requires Inv(s) && Enabled(s, t, e)
    ensures Inv(After(s, t, e))
  {
    var s' := After(s, t, e);
    assert ThreadOk(s, t);
    ReadersUpdate(s.pc, t, s'.pc[t]);
    assert s.pc[t := s'.pc[t]] == s'.pc;
    NoReaders(s.pc);
    hide Readers;
    assert Readers(s.pc) == 0 ==> !Active(s.pc[t]);
    if s.mutex.LockedBy? {
      assert ThreadOk(s, s.mutex.t);
    }
    forall u | 0 <= u < |s.pc| ensures ThreadOk(s', u) {
      assert ThreadOk(s, u);
      assert Readers(s.pc) == 0 ==> !Active(s.pc[u]);
    }
  }

  // ----- runs

  ghost predicate IsRun(threads: nat, pieces: set<nat>, run: seq<State>, who: seq<nat>, events: seq<Event>) {
    |run| == |events| + 1 && |who| == |events| && run[0] == Init(threads, pieces) &&
    forall i :: 0 <= i < |events| ==>
      Enabled(run[i], who[i], events[i]) && run[i + 1] == After(run[i], who[i], events[i])
  }

  lemma {:induction false} RunInv(threads: nat, pieces: set<nat>, run: seq<State>, who: seq<nat>, events: seq<Event>,
                                  i: nat)
    requires IsRun(threads, pieces, run, who, events) && i < |run|
    ensures Inv(run[i])
  {
    hide Inv, Enabled, After;
    if i == 0 {
      InitInv(threads, pieces);
    } else {
      RunInv(threads, pieces, run, who, events, i - 1);
      StepInv(run[i - 1], who[i - 1], events[i - 1]);
    }
  }

  /** In every run: while a writer is past its wait no other thread is a counted reader or holds the
      mutex, so none can enter; a reader's copy is the file's map, and never holds a piece that garbage
      collection trimmed. */
  lemma {:induction false} ReadersProtected(threads: nat, pieces: set<nat>, run: seq<State>, who: seq<nat>,
                                            events: seq<Event>, i: nat)
    requires IsRun(threads, pieces, run, who, events) && i < |run|
    ensures forall t, u :: 0 <= t < |run[i].pc| && 0 <= u < |run[i].pc| && t != u && Writes(run[i].pc[t]) ==>
      !Active(run[i].pc[u]) && !HoldsMutex(run[i].pc[u])
    ensures forall u :: 0 <= u < |run[i].pc| && run[i].pc[u].Using? ==>
      run[i].pc[u].copy == run[i].pieces && run[i].pc[u].copy !! run[i].trimmed
    ensures run[i].mutex == Unlocked ==> run[i].pieces !! run[i].trimmed
  {
    RunInv(threads, pieces, run, who, events, i);
    NoReaders(run[i].pc);
    forall t, u | 0 <= t < |run[i].pc| && 0 <= u < |run[i].pc| && t != u && Writes(run[i].pc[t])
      ensures !Active(run[i].pc[u]) && !HoldsMutex(run[i].pc[u])
    {
      assert ThreadOk(run[i], t) && ThreadOk(run[i], u);
    }
    forall u | 0 <= u < |run[i].pc| && run[i].pc[u].Using?
      ensures run[i].pc[u].copy == run[i].pieces && run[i].pc[u].copy !! run[i].trimmed
    {
      assert ThreadOk(run[i], u);
    }
  }

  /** A waiting writer is never stuck: it can pass, or some counted reader has a step to take. */
  lemma {:induction false} WaitEnds(s: State, t: nat) returns (u: nat, e: Event)
    requires Inv(s) && t < |s.pc| && s.pc[t] == Waiting
    ensures Enabled(s, u, e) && ((u == t && e == PassWait) || Active(s.pc[u]))
  {
    if s.readers <= 0 {
      u, e := t, PassWait;
    } else {
      NoReaders(s.pc);
      u :| 0 <= u < |s.pc| && Active(s.pc[u]);
      assert ThreadOk(s, u) && ThreadOk(s, t);
      e := if s.pc[u] == Inside then CopyMap else Decrement;
    }
  }

  // ----- the map

  /** Pieces that a migration brings in. */
  function Brought(e: Event): set<nat> {
    if e.Replace? then e.added else {}
  }

  /** Pieces that a migration trims. */
  function GivenUp(e: Event): set<nat> {
    if e.Trim? then {e.piece} else {}
  }

  ghost function AllBrought(events: seq<Event>): set<nat> {
    if events == [] then {} else AllBrought(events[..|events| - 1]) + Brought(events[|events| - 1])
  }

  ghost function AllGivenUp(events: seq<Event>): set<nat> {
    if events == [] then {} else AllGivenUp(events[..|events| - 1]) + GivenUp(events[|events| - 1])
  }

  /** In every run the pieces given up are those trimmed, and whenever nobody holds the lock the map is made of the
      first pieces and those brought in, less those given up: no other piece leaves it and none comes back. */
  lemma {:induction false} MapFollows(threads: nat, pieces: set<nat>, run: seq<State>, who: seq<nat>,
                                      events: seq<Event>, i: nat)
    requires IsRun(threads, pieces, run, who, events) && i < |run|
    ensures run[i].trimmed == AllGivenUp(events[..i]) && run[i].known == pieces + AllBrought(events[..i])
    ensures run[i].mutex == Unlocked ==> run[i].pieces == pieces + AllBrought(events[..i]) - AllGivenUp(events[..i])
  {
    MapStands(threads, pieces, run, who, events, i);
    RunInv(threads, pieces, run, who, events, i);
  }

  lemma {:induction false} MapStands(threads: nat, pieces: set<nat>, run: seq<State>, who: seq<nat>,
                                     events: seq<Event>, i: nat)
    requires IsRun(threads, pieces, run, who, events) && i < |run|
    ensures run[i].trimmed == AllGivenUp(events[..i]) && run[i].known == pieces + AllBrought(events[..i])
    ensures run[i].pieces - run[i].trimmed == pieces + AllBrought(events[..i]) - AllGivenUp(events[..i])
  {
    hide Inv, Enabled, After;
    if i == 0 {
      assert events[..0] == [];
    } else {
      MapStands(threads, pieces, run, who, events, i - 1);
      RunInv(threads, pieces, run, who, events, i - 1);
      assert events[..i][..i - 1] == events[..i - 1];
      MapStep(run[i - 1], who[i - 1], events[i - 1]);
    }
  }

  lemma {:induction false} MapStep(s: State, t: nat, e: Event)
    requires Inv(s) && Enabled(s, t, e)
    ensures var s' := After(s, t, e);
      s'.trimmed == s.trimmed + GivenUp(e) && s'.known == s.known + Brought(e) &&
      s'.pieces - s'.trimmed == s.pieces - s.trimmed + Brought(e) - GivenUp(e) && Brought(e) !! s.known + s.trimmed
  {
    hide Readers, ThreadOk, Settled;
  }

  // ----- nobody stays

  /** How far a thread is from being outside the lock again. */
  function Rank(pc: Pc): nat {
    match pc
    case Out => 0
    case Entering => 4
    case Entered => 3
    case Inside => 2
    case Using(_) => 1
    case Waiting => 3
    case Trimming => 2
    case Replaced => 1
  }

  /** Every step brings its thread closer to the outside, but for the two that enter and for the trims, each of which
      is for one piece of the map; no step moves another thread. */
  lemma {:induction false} StepAdvances(s: State, t: nat, e: Event)
    requires Enabled(s, t, e)
    ensures |After(s, t, e).pc| == |s.pc| && forall u :: 0 <= u < |s.pc| && u != t ==> After(s, t, e).pc[u] == s.pc[u]
    ensures e == LockRead ==> s.pc[t] == Out && After(s, t, e).pc[t] == Entering
    ensures e == LockWrite ==> s.pc[t] == Out && After(s, t, e).pc[t] == Waiting
    ensures e.Trim? ==> After(s, t, e).pc[t] == s.pc[t] && e.piece in After(s, t, e).trimmed
    ensures e != LockRead && e != LockWrite && !e.Trim? ==> Rank(After(s, t, e).pc[t]) + 1 == Rank(s.pc[t])
  {
  }

  /** A reader that nobody disturbs reads and leaves in five steps, with the map of the file as its copy. */
  lemma {:induction false} ReaderPasses(s: State, t: nat)
      returns (s1: State, s2: State, s3: State, s4: State, s5: State)
    requires Inv(s) && t < |s.pc| && s.pc[t] == Out && s.mutex == Unlocked
    ensures Enabled(s, t, LockRead) && s1 == After(s, t, LockRead)
    ensures Enabled(s1, t, Increment) && s2 == After(s1, t, Increment)
    ensures Enabled(s2, t, UnlockRead) && s3 == After(s2, t, UnlockRead) && s3.mutex == Unlocked
    ensures Enabled(s3, t, CopyMap) && s4 == After(s3, t, CopyMap) && s4.pc[t] == Using(s.pieces)
    ensures Enabled(s4, t, Decrement) && s5 == After(s4, t, Decrement) && s5 == s
  {
    hide Inv;
    s1 := After(s, t, LockRead);
    s2 := After(s1, t, Increment);
    s3 := After(s2, t, UnlockRead);
    s4 := After(s3, t, CopyMap);
    s5 := After(s4, t, Decrement);
  }

  /** A run has all its threads, and they begin outside. */
  lemma {:induction false} RunThreads(threads: nat, pieces: set<nat>, run: seq<State>, who: seq<nat>,
                                      events: seq<Event>, i: nat)
    requires IsRun(threads, pieces, run, who, events) && i < |run|
    ensures |run[i].pc| == threads && forall t :: 0 <= t < threads ==> |run[0].pc| == threads && run[0].pc[t] == Out
  {
    hide Enabled, After;
    if i > 0 {
      RunThreads(threads, pieces, run, who, events, i - 1);
      StepAdvances(run[i - 1], who[i - 1], events[i - 1]);
    }
  }
}
