/** What a crash leaves of a file: its size, level and pieces are those of its last record, and its bytes are all
    there exactly when none of them was only cached then. */
module Durable {
  import opened Layout
  import opened Zrocks
  import opened MetaCodec
  import opened MetaLog
  import FileLayer
  import NodeGroup

  // ----- bytes and pieces

  lemma {:induction false} BeginConcat(a: seq<Piece>, b: seq<Piece>, i: nat)
    requires i <= |b|
    ensures FileLayer.Begin(a + b, |a| + i) == Held(a) + FileLayer.Begin(b, i)
  {
    if i > 0 {
      BeginConcat(a, b, i - 1);
    } else {
      BeginPrefix(a, b, |a|);
    }
  }

  lemma {:induction false} BeginPrefix(a: seq<Piece>, b: seq<Piece>, i: nat)
    requires i <= |a|
    ensures FileLayer.Begin(a + b, i) == FileLayer.Begin(a, i)
  {
    if i > 0 {
      BeginPrefix(a, b, i - 1);
    }
  }

  // ----- files in memory

  /** A torn file is short.  Of any other every byte the size counts is in a piece or in the cache.  Only in the
      middle of an Append, or after a migration that copied padding, the pieces hold more than that; the cache is
      empty then. */
  predicate Settled(f: File, torn: bool) {
    if torn then f.cached == 0 && Short(f)
    else if f.cached == 0 then !Short(f)
    else f.size == Held(f.pieces) + f.cached
  }

  ghost predicate AllSettled(files: Files, torn: set<Name>) {
    forall k :: k in files ==> Settled(files[k], k in torn)
  }

  /** Every operation keeps the files settled. */
  lemma {:induction false} MutateSettled(files: Files, renamed: set<Name>, torn: set<Name>, op: Op)
    requires AllSettled(files, torn) && OpAllowed(files, renamed, op)
    requires op.Sync? || op.Grow? || op.Cut? ==> op.k !in torn
    ensures AllSettled(Mutate(files, op), TornAfter(torn, files, op))
  {
    if op.Sync? {
      BeginConcat(files[op.k].pieces, op.more, |op.more|);
    }
    hide Held;
    assert op.k in files ==> Settled(files[op.k], op.k in torn);
    assert op.Create? ==> Held([]) == 0 by {
      assert FileLayer.Begin([], 0) == 0;
    }
  }

  // ----- memory follows the file layer

  /** A Truncate in the table is the Truncate of the byte sequence. */
  lemma {:induction false} CutFollowsTruncate(files: Files, k: Name, content: seq<Byte>, room: nat, len: nat)
    requires k in files && |content| == files[k].size
    requires FileLayer.Feasible(FileLayer.Abstract(content, files[k].cached, room), FileLayer.Truncating(len))
    ensures var a := FileLayer.Apply(FileLayer.Abstract(content, files[k].cached, room), FileLayer.Truncating(len));
      var f := Mutate(files, Cut(k, len))[k];
      f.size == |a.content| && f.cached == a.cached && SameButBytes(f, files[k]) && f.pieces == files[k].pieces
    ensures Mutate(files, Cut(k, len)) - {k} == files - {k}
  {
  }

  /** Name, level and what is in the log already. */
  predicate SameButBytes(f: File, g: File) {
    f.name == g.name && f.level == g.level && f.startIndex == g.startIndex
  }

  /** The end of an Append in the table is the Append of the byte sequence, however many buffers it filled on the
      way: these are in the pieces then, and the rest is what stays cached. */
  lemma {:induction false} GrowFollowsAppend(files: Files, renamed: set<Name>, k: Name, content: seq<Byte>, cached: nat,
                                             room: nat, data: seq<Byte>)
    requires k in files && |content| == files[k].size
    requires FileLayer.Feasible(FileLayer.Abstract(content, cached, room), FileLayer.Appending(data))
    requires Held(files[k].pieces) + FileLayer.StaysCached(cached, |data|) == |content| + |data|
    ensures forall c :: OpAllowed(files, renamed, Grow(k, |data|, c)) <==> c == FileLayer.StaysCached(cached, |data|)
    ensures var a := FileLayer.Apply(FileLayer.Abstract(content, cached, room), FileLayer.Appending(data));
      var f := Mutate(files, Grow(k, |data|, a.cached))[k];
      f.size == |a.content| && f.cached == a.cached && SameButBytes(f, files[k]) && f.pieces == files[k].pieces
    ensures forall c :: Mutate(files, Grow(k, |data|, c)) - {k} == files - {k}
  {
  }

  /** A Sync in the table is the Sync of the byte sequence; the new pieces go behind the old. */
  lemma {:induction false} SyncFollows(files: Files, k: Name, content: seq<Byte>, room: nat, more: seq<Piece>)
    requires k in files && |content| == files[k].size
    requires FileLayer.Feasible(FileLayer.Abstract(content, files[k].cached, room), FileLayer.Syncing)
    ensures var a := FileLayer.Apply(FileLayer.Abstract(content, files[k].cached, room), FileLayer.Syncing);
      var f := Mutate(files, Sync(k, more))[k];
      f.size == |a.content| && f.cached == a.cached && f.name == files[k].name && f.level == files[k].level &&
      files[k].pieces <= f.pieces && f.pieces[|files[k].pieces|..] == more
    ensures Mutate(files, Sync(k, more)) - {k} == files - {k}
  {
  }

  /** A migration in the table changes the pieces only. */
  lemma {:induction false} MigrateKeeps(files: Files, k: Name, all: seq<Piece>)
    requires k in files
    ensures var f := Mutate(files, Migrate(k, all))[k];
      f.size == files[k].size && f.cached == files[k].cached && f.level == files[k].level && f.pieces == all
    ensures Mutate(files, Migrate(k, all)) - {k} == files - {k}
  {
  }

  /** The level a writer sets is the one the next record gives the file. */
  lemma {:induction false} LevelReplays(files: Files, r: Files, k: Name, level: int, more: seq<Piece>)
    requires k in files && files[k].name == k && files[k].startIndex <= |files[k].pieces|
    requires k in r ==> r[k].name == k
    ensures var files' := Mutate(files, SetLevel(k, level));
      files' - {k} == files - {k} && k in files' && files'[k].pieces == files[k].pieces &&
      files'[k].startIndex == files[k].startIndex &&
      var r' := ReplayOne(r, Logged(files', Sync(k, more)));
      k in r' && r'[k].level == level && r'[k].size == files[k].size
  {
  }

  /** A file created and synced replays at level 0, with the pieces written. */
  lemma {:induction false} CreatedReplays(files: Files, r: Files, k: Name, more: seq<Piece>)
    requires k !in r
    ensures var files' := Mutate(files, Create(k));
      files' - {k} == files - {k} && k in files' && files'[k].startIndex == 0 &&
      var r' := ReplayOne(r, Logged(files', Sync(k, more)));
      k in r' && r'[k].level == 0 && r'[k].size == 0 && r'[k].pieces == more
  {
    assert ([] + more)[0..] == more && [] + more == more;
  }

  // ----- files in the log

  /** What a record says of a file. */
  predicate AsRecorded(f: File, g: File) {
    f.size == g.size && f.level == g.level && f.pieces == g.pieces
  }

  ghost predicate Mirrors(r: Files, seen: Files) {
    r.Keys == seen.Keys && forall k :: k in r ==> AsRecorded(r[k], seen[k])
  }

  /** The record to be written speaks of a file as it is in memory, and of no other. */
  ghost predicate Current(r: Files, files: Files, f: FileRec) {
    f.name in files && f.size == files[f.name].size && f.level == files[f.name].level &&
    (f.name in r ==> r[f.name].name == f.name)
  }

  ghost predicate RecordCurrent(r: Files, files: Files, rec: Record) {
    match rec
    case Update(f) => Current(r, files, f)
    case GCChange(f) => Current(r, files, f)
    case Base(_) => false
    case _ => true
  }

  ghost predicate SeenInv(s: Log) {
    |s.zones| == 2 && Mirrors(Recovered(s.zones), s.seen.files) &&
    AllSettled(s.files, s.torn) && AllSettled(s.seen.files, s.seen.torn) &&
    (s.phase.Writing? ==> RecordCurrent(Recovered(s.zones), s.files, s.phase.r))
  }

  // ----- steps

  /** Writing a record gives the replayed table the file of that record. */
  lemma {:induction false} RecordMirrors(r: Files, files: Files, torn: set<Name>, seen: Seen, rec: Record)
    requires Mirrors(r, seen.files) && RecordCurrent(r, files, rec) && SameTable(ReplayOne(r, rec), files)
    ensures Mirrors(ReplayOne(r, rec), SeenAfter(seen, files, torn, rec).files)
  {
    if rec.Update? || rec.GCChange? {
      var k := rec.f.name;
      assert Pieces(ReplayOne(r, rec), k) == Pieces(files, k);
    }
    hide SameTable;
  }

  lemma {:induction false} RecordSettled(files: Files, torn: set<Name>, seen: Seen, rec: Record)
    requires AllSettled(files, torn) && AllSettled(seen.files, seen.torn)
    ensures var after := SeenAfter(seen, files, torn, rec); AllSettled(after.files, after.torn)
  {
    hide Settled;
  }

  lemma {:induction false} RecoveredLeads(s: Log)
    requires Sound(s) && !s.phase.Snapshotting?
    ensures |s.zones| == 2 && s.cur < 2 && Recovered(s.zones) == Replay(s.zones[s.cur].recs)
  {
    hide Replay, Writable, Sectors;
  }

  lemma {:induction false} BeginSeen(s: Log, op: Op)
    requires Inv(s) && SeenInv(s) && Enabled(s, Begin(op))
    ensures SeenInv(After(s, Begin(op)))
  {
    RecoveredLeads(s);
    MutateSettled(s.files, s.renamed, s.torn, op);
    hide Replay, Writable, Sectors, SameTable, Flushed, Recovered, AllSettled, Mirrors, Held, TornAfter;
    hide Sound;
  }

  lemma {:induction false} AppendSeen(s: Log)
    requires Inv(s) && SeenInv(s) && Enabled(s, Append)
    ensures SeenInv(After(s, Append))
  {
    RecoveredLeads(s);
    AppendSound(s);
    RecoveredLeads(After(s, Append));
    ReplayAppend(s.zones[s.cur].recs, s.phase.r);
    var r, rec := Replay(s.zones[s.cur].recs), s.phase.r;
    RecordMirrors(r, s.files, s.torn, s.seen, rec);
    RecordSettled(s.files, s.torn, s.seen, rec);
    hide Replay, ReplayOne, Writable, Sectors, SameTable, Flushed, Recovered, AllSettled, Mirrors, Sound;
    hide SeenAfter, NamesAgree, StaleWithin, RecordCurrent;
  }

  lemma {:induction false} SwitchSeen(s: Log)
    requires Sound(s) && SeenInv(s) && Enabled(s, Switch)
    ensures SeenInv(After(s, Switch))
  {
    hide Replay, Writable, Sectors, AllSettled, Mirrors, RecordCurrent;
  }

  ghost predicate HasName(fs: seq<FileRec>, k: Name) {
    exists i :: 0 <= i < |fs| && fs[i].name == k
  }

  lemma {:induction false} ReplayNames(fs: seq<FileRec>, k: Name)
    ensures k in ReplayFiles(map[], fs) <==> HasName(fs, k)
  {
    if fs != [] {
      var n := |fs| - 1;
      ReplayNames(fs[..n], k);
      ReplayNamed(fs[..n]);
      assert HasName(fs, k) <==> HasName(fs[..n], k) || fs[n].name == k by {
        if i :| 0 <= i < n && fs[i].name == k {
          assert fs[..n][i].name == k;
        }
      }
    }
  }

  /** A file whose name no other has replays to itself. */
  lemma {:induction false} ReplayFirst(fs: seq<FileRec>, x: nat)
    requires x < |fs| && forall i :: 0 <= i < |fs| && i != x ==> fs[i].name != fs[x].name
    ensures var r, f := ReplayFiles(map[], fs), fs[x];
      f.name in r && r[f.name] == File(f.name, f.level, f.size, f.pieces, 0, 0)
  {
    var n := |fs| - 1;
    ReplayNamed(fs[..n]);
    if x == n {
      ReplayNames(fs[..n], fs[n].name);
      assert [] + fs[n].pieces == fs[n].pieces;
    } else {
      ReplayFirst(fs[..n], x);
    }
  }

  lemma {:induction false} SnapshotFile(files: Files, keys: seq<Name>, x: nat)
    requires Enumerates(keys, files) && NamesAgree(files) && x < |keys|
    ensures var r := ReplayFiles(map[], Snapshot(files, keys)); keys[x] in r && AsRecorded(r[keys[x]], files[keys[x]])
  {
    hide ReplayFiles;
    var fs := Snapshot(files, keys);
    forall i | 0 <= i < |fs| && i != x ensures fs[i].name != fs[x].name {
      assert if i < x then keys[i] != keys[x] else keys[x] != keys[i];
      assert fs[i] == RecOf(files[keys[i]]);
    }
    ReplayFirst(fs, x);
  }

  lemma {:induction false} SnapshotKey(files: Files, keys: seq<Name>, k: Name)
    requires Enumerates(keys, files) && NamesAgree(files)
    ensures k in ReplayFiles(map[], Snapshot(files, keys)) <==> k in files
  {
    hide ReplayFiles;
    var fs := Snapshot(files, keys);
    ReplayNames(fs, k);
    if k in files {
      var x :| 0 <= x < |keys| && keys[x] == k;
      assert fs[x].name == k;
    }
    if i :| 0 <= i < |fs| && fs[i].name == k {
      assert fs[i] == RecOf(files[keys[i]]);
    }
  }

  lemma {:induction false} SnapshotMirrors(files: Files, keys: seq<Name>)
    requires Enumerates(keys, files) && NamesAgree(files)
    ensures Mirrors(ReplayFiles(map[], Snapshot(files, keys)), files)
  {
    var r := ReplayFiles(map[], Snapshot(files, keys));
    forall k ensures k in r <==> k in files {
      SnapshotKey(files, keys, k);
    }
    forall k | k in files ensures k in r && AsRecorded(r[k], files[k]) {
      var x :| 0 <= x < |keys| && keys[x] == k;
      SnapshotFile(files, keys, x);
    }
    hide ReplayFiles, Snapshot, Enumerates, NamesAgree, AsRecorded;
  }

  lemma {:induction false} SnapshotSettled(files: Files, torn: set<Name>)
    requires AllSettled(files, torn)
    ensures AllSettled(MarkFlushed(files), torn)
  {
    hide Held;
  }

  lemma {:induction false} SnapshotSeen(s: Log, keys: seq<Name>)
    requires Inv(s) && SeenInv(s) && Enabled(s, TakeSnapshot(keys))
    ensures SeenInv(After(s, TakeSnapshot(keys)))
  {
    SnapshotWins(s, keys);
    hide Sound, SameTable, StaleWithin, Recovered, RecordCurrent, Replay, ReplayFiles, Snapshot, MarkFlushed;
    hide Writable, Sectors, Mirrors, AllSettled;
    SnapshotMirrors(s.files, keys);
    SnapshotSettled(s.files, s.torn);
  }

  /** After a restart the caches are empty; files that had bytes there are torn. */
  lemma {:induction false} RebootSeen(s: Log)
    requires Sound(s) && SeenInv(s)
    ensures SeenInv(After(s, Reboot))
  {
    RecoveredUncached(s.zones);
    hide Replay, Writable, Sectors, Mirrors, RecordCurrent, Held;
  }

  lemma {:induction false} RecoveredUncached(zones: seq<Zone>)
    requires |zones| == 2
    ensures forall k :: k in Recovered(zones) ==> Recovered(zones)[k].cached == 0
  {
    ReplayUncached(zones[Winner(zones)].recs);
  }

  lemma {:induction false} ReplayUncached(rs: seq<Record>)
    ensures forall k :: k in Replay(rs) ==> Replay(rs)[k].cached == 0
  {
    if rs != [] {
      ReplayUncached(rs[..|rs| - 1]);
      if rs[|rs| - 1].Base? {
        FilesUncached(Replay(rs[..|rs| - 1]), rs[|rs| - 1].files);
      }
    }
  }

  lemma {:induction false} FilesUncached(files: Files, fs: seq<FileRec>)
    requires forall k :: k in files ==> files[k].cached == 0
    ensures forall k :: k in ReplayFiles(files, fs) ==> ReplayFiles(files, fs)[k].cached == 0
    decreases |fs|
  {
    if fs != [] {
      FilesUncached(files, fs[..|fs| - 1]);
    }
  }

  lemma {:induction false} StepSeen(s: Log, step: Step)
    requires Inv(s) && SeenInv(s) && Enabled(s, step)
    ensures SeenInv(After(s, step))
  {
    hide Inv, Enabled, After, SeenInv;
    match step
    case Begin(op) => BeginSeen(s, op);
    case Append => AppendSeen(s);
    case Switch =>
      InvSound(s);
      SwitchSeen(s);
    case TakeSnapshot(keys) => SnapshotSeen(s, keys);
    case Reboot =>
      InvSound(s);
      RebootSeen(s);
  }

  lemma {:induction false} InvSound(s: Log)
    requires Inv(s)
    ensures Sound(s)
  {
  }

  // ----- runs

  lemma {:induction false} RunSeen(run: seq<Log>, steps: seq<Step>, i: nat)
    requires MetaLog.IsRun(run, steps) && i < |run| && CleanRestarts(run, steps, i)
    ensures SeenInv(run[i])
  {
    hide Enabled, After, Inv, CleanRestarts;
    if i > 0 {
      Earlier(run, steps, i);
      RunSeen(run, steps, i - 1);
      MetaLog.RunInv(run, steps, i - 1);
      StepSeen(run[i - 1], steps[i - 1]);
    }
  }

  lemma {:induction false} Earlier(run: seq<Log>, steps: seq<Step>, i: nat)
    requires CleanRestarts(run, steps, i) && i > 0
    ensures CleanRestarts(run, steps, i - 1)
  {
    hide NamesAgree, Recovered;
  }

  /** Power lost at any point of any run with clean restarts: every file recovered has the size, level and pieces
      it had in memory at its last record.  Its pieces hold its whole size exactly when none of its bytes was
      only cached then and no earlier crash had torn it. */
  lemma {:induction false} RecoveredWholeIff(run: seq<Log>, steps: seq<Step>, i: nat, k: Name)
    requires MetaLog.IsRun(run, steps) && i < |run| && CleanRestarts(run, steps, i)
    requires |run[i].zones| == 2 && k in Recovered(run[i].zones)
    ensures k in run[i].seen.files
    ensures var f, last := Recovered(run[i].zones)[k], run[i].seen.files[k];
      AsRecorded(f, last) && (!Short(f) <==> last.cached == 0 && k !in run[i].seen.torn)
  {
    RunSeen(run, steps, i);
    hide MetaLog.IsRun, CleanRestarts, Recovered, Held;
  }

  /** Every read inside the size of a file without a cache succeeds exactly when its content is that long. */
  lemma {:induction false} ReadableIff(content: seq<Byte>, size: nat)
    ensures (forall offset: nat, n: nat :: offset < size ==>
        FileLayer.ReadOutcome(content, size, 0, offset, n).Data?) <==> size <= |content|
  {
    if size > |content| {
      assert !FileLayer.ReadOutcome(content, size, 0, |content|, 1).Data?;
    }
  }

  /** The same for the users of the recovered file: every read inside its size succeeds, from whatever device
      holds its pieces, exactly when no byte of it was only cached at its last record and it was not torn. */
  lemma {:induction false} RecoveredReadableIff(run: seq<Log>, steps: seq<Step>, i: nat, k: Name, g: NodeGroup.Group)
    requires MetaLog.IsRun(run, steps) && i < |run| && CleanRestarts(run, steps, i)
    requires |run[i].zones| == 2 && k in Recovered(run[i].zones)
    requires AllMapped(g, Recovered(run[i].zones)[k].pieces)
    ensures k in run[i].seen.files
    ensures var f, last := Recovered(run[i].zones)[k], run[i].seen.files[k];
      (forall offset: nat, n: nat :: offset < f.size ==>
          FileLayer.ReadOutcome(Payloads(g, f.pieces), f.size, 0, offset, n).Data?) <==>
        last.cached == 0 && k !in run[i].seen.torn
  {
    hide MetaLog.IsRun, CleanRestarts, Recovered, FileLayer.ReadOutcome;
    RecoveredWholeIff(run, steps, i, k);
    var f := Recovered(run[i].zones)[k];
    FileLayer.EndOfPayloads(g, f.pieces);
    ReadableIff(Payloads(g, f.pieces), f.size);
  }

  // ----- torn files

  /** The record says nothing of the name. */
  predicate RecordSpares(r: Record, k: Name) {
    match r
    case Replace(src, dst) => src != k && dst != k
    case Delete(name) => name != k
    case _ => true
  }

  /** The step does not delete, replace or rename the file, and copies too little padding to make up its length. */
  predicate StepSpares(s: Log, step: Step, k: Name) {
    step.Begin? ==>
      match step.op
      case Create(n) => n != k
      case Remove(n) => n != k
      case Rename(n, dst) => n != k && dst != k
      case Migrate(n, all) => n != k || k !in s.files || Held(all) < s.files[k].size
      case _ => true
  }

  /** The file is torn in memory and in the log. */
  ghost predicate StaysTorn(s: Log, k: Name) {
    k in s.torn && k in s.files && k in s.seen.files && Short(s.seen.files[k]) &&
    (s.phase.Writing? ==> RecordSpares(s.phase.r, k))
  }

  lemma {:induction false} TornBegin(s: Log, op: Op, k: Name)
    requires StaysTorn(s, k) && Enabled(s, Begin(op)) && StepSpares(s, Begin(op), k)
    ensures StaysTorn(After(s, Begin(op)), k)
  {
    hide Writable, Sectors, Held, Short;
  }

  lemma {:induction false} TornAppend(s: Log, k: Name)
    requires SeenInv(s) && StaysTorn(s, k) && Enabled(s, Append)
    ensures StaysTorn(After(s, Append), k)
  {
    TornShort(s, k);
    hide Writable, Sectors, Short, AllSettled, Mirrors, Recovered, RecordCurrent;
  }

  lemma {:induction false} TornSnapshot(s: Log, keys: seq<Name>, k: Name)
    requires SeenInv(s) && StaysTorn(s, k) && Enabled(s, TakeSnapshot(keys))
    ensures StaysTorn(After(s, TakeSnapshot(keys)), k)
  {
    TornShort(s, k);
    hide Writable, Sectors, Short, AllSettled, Mirrors, Recovered, RecordCurrent, Snapshot, Enumerates;
  }

  lemma {:induction false} TornReboot(s: Log, k: Name)
    requires SeenInv(s) && k in s.seen.files && Short(s.seen.files[k]) && Enabled(s, Reboot)
    ensures StaysTorn(After(s, Reboot), k)
  {
    hide Replay, AllSettled, Held;
  }

  lemma {:induction false} TornStep(s: Log, step: Step, k: Name)
    requires SeenInv(s) && StaysTorn(s, k) && Enabled(s, step) && StepSpares(s, step, k)
    ensures StaysTorn(After(s, step), k)
  {
    match step
    case Begin(op) =>
      hide SeenInv, Enabled, After, StaysTorn, StepSpares;
      TornBegin(s, op, k);
    case Append => TornAppend(s, k);
    case Switch => hide Writable, Sectors, Short, AllSettled, Mirrors, Recovered, RecordCurrent;
    case TakeSnapshot(keys) => TornSnapshot(s, keys, k);
    case Reboot => TornReboot(s, k);
  }

  /** A torn file stays torn, through snapshots, migrations and further restarts, until it is deleted, replaced or
      renamed, or a migration copies enough padding to make up its length. */
  lemma {:induction false} TornRun(run: seq<Log>, steps: seq<Step>, i: nat, j: nat, k: Name)
    requires MetaLog.IsRun(run, steps) && i <= j < |run| && CleanRestarts(run, steps, j) && StaysTorn(run[i], k)
    requires forall u :: i <= u < j ==> StepSpares(run[u], steps[u], k)
    ensures StaysTorn(run[j], k) && k in run[j].files && Short(run[j].files[k])
  {
    hide Enabled, After, Inv, CleanRestarts, StaysTorn, StepSpares;
    if i < j {
      Earlier(run, steps, j);
      TornRun(run, steps, i, j - 1, k);
      RunSeen(run, steps, j - 1);
      TornStep(run[j - 1], steps[j - 1], k);
    }
    RunSeen(run, steps, j);
    TornShort(run[j], k);
  }

  lemma {:induction false} TornShort(s: Log, k: Name)
    requires SeenInv(s) && StaysTorn(s, k)
    ensures k in s.files && Short(s.files[k])
  {
    assert Settled(s.files[k], k in s.torn);
    hide Held;
  }

  // ----- a run that loses bytes

  /** The only file has `n` bytes, all of them cached. */
  function OnlyCached(a: Name, n: nat): Files {
    map[a := File(a, 0, n, [], 0, n)]
  }

  /** Between operations, with `u` sectors of the first zone used. */
  ghost predicate Filling(s: Log, a: Name, n: nat, u: nat) {
    s.phase == Idle && |s.zones| == 2 && s.cur == 0 && s.zones[0].used == u && s.files == OnlyCached(a, n) &&
    s.torn == {}
  }

  ghost predicate CrashFree(run: seq<Log>, steps: seq<Step>) {
    MetaLog.IsRun(run, steps) && forall j :: 0 <= j < |steps| ==> !steps[j].Reboot?
  }

  lemma {:induction false} CrashFreeMore(run: seq<Log>, steps: seq<Step>, step: Step)
    requires CrashFree(run, steps) && Enabled(run[|run| - 1], step) && !step.Reboot?
    ensures CrashFree(run + [After(run[|run| - 1], step)], steps + [step])
  {
    hide Enabled, After;
  }

  lemma {:induction false} SmallRecords(a: Name, b: Name, n: nat)
    requires NameOk(a) && NameOk(b) && n <= MAX_BUF
    ensures Writable(Delete(b)) && Sectors(Delete(b)) == 1
    ensures Writable(Base([])) && Sectors(Base([])) == 1
    ensures var fs := [FileRec(a, 0, n, [])]; Writable(Base(fs)) && Sectors(Base(fs)) == 1
  {
    var fs := [FileRec(a, 0, n, [])];
    assert fs[1..] == [] && FilesLen(fs[1..]) == 0;
  }

  lemma {:induction false} SnapshotOfOne(a: Name, n: nat)
    ensures Enumerates([a], OnlyCached(a, n)) && Snapshot(OnlyCached(a, n), [a]) == [FileRec(a, 0, n, [])]
    ensures Enumerates([], map[]) && Snapshot(map[], []) == []
  {
  }

  lemma {:induction false} FirstSnapshot(s: Log)
    requires s == FRESH_DEVICE
    ensures Enabled(s, TakeSnapshot([]))
    ensures var s' := After(s, TakeSnapshot([]));
      s'.phase == Idle && |s'.zones| == 2 && s'.cur == 0 && s'.zones[0].used == 2 && s'.files == map[] && s'.torn == {}
  {
    SmallRecords([], [], 0);
    SnapshotOfOne([], 0);
    hide Writable, Sectors, Snapshot, Enumerates;
  }

  /** A file is created and takes bytes into its cache. */
  lemma {:induction false} CreateAndGrow(s: Log, a: Name, n: nat)
    requires s.phase == Idle && |s.zones| == 2 && s.cur == 0 && s.files == map[] && s.torn == {}
    ensures Enabled(s, Begin(Create(a))) && Enabled(After(s, Begin(Create(a))), Begin(Grow(a, n, n)))
    ensures Filling(After(After(s, Begin(Create(a))), Begin(Grow(a, n, n))), a, n, s.zones[0].used)
  {
    assert After(s, Begin(Create(a))).files == OnlyCached(a, 0) && Held([]) == 0;
  }

  lemma {:induction false} FirstBytes(a: Name, n: nat) returns (run: seq<Log>, steps: seq<Step>)
    ensures CrashFree(run, steps) && Filling(run[|run| - 1], a, n, 2)
  {
    var s := FRESH_DEVICE;
    FirstSnapshot(s);
    CreateAndGrow(After(s, TakeSnapshot([])), a, n);
    hide Enabled, After, Filling;
    run, steps := [s], [];
    CrashFreeMore(run, steps, TakeSnapshot([]));
    run, steps := run + [After(s, TakeSnapshot([]))], steps + [TakeSnapshot([])];
    CrashFreeMore(run, steps, Begin(Create(a)));
    run, steps := run + [After(run[|run| - 1], Begin(Create(a)))], steps + [Begin(Create(a))];
    CrashFreeMore(run, steps, Begin(Grow(a, n, n)));
    run, steps := run + [After(run[|run| - 1], Begin(Grow(a, n, n)))], steps + [Begin(Grow(a, n, n))];
  }

  /** Another file is created and deleted: one more record, if the zone has room for it. */
  lemma {:induction false} CreateAndDelete(s: Log, a: Name, b: Name, n: nat, u: nat)
    requires NameOk(a) && NameOk(b) && a != b && n <= MAX_BUF && Filling(s, a, n, u)
    ensures Enabled(s, Begin(Create(b))) && Enabled(After(s, Begin(Create(b))), Begin(Remove(b)))
    ensures var s2 := After(After(s, Begin(Create(b))), Begin(Remove(b)));
      (u + 1 < META_SECTORS ==> Enabled(s2, Append) && Filling(After(s2, Append), a, n, u + 1)) &&
      (u + 1 == META_SECTORS ==> Enabled(s2, Switch) && s2.files == OnlyCached(a, n) && s2.torn == {})
  {
    SmallRecords(a, b, n);
    hide Writable, Sectors, Replay;
    var s1 := After(s, Begin(Create(b)));
    assert s1.torn == {};
    var s2 := After(s1, Begin(Remove(b)));
    assert s2.files == OnlyCached(a, n) && s2.torn == {};
  }

  lemma {:induction false} FillRun(a: Name, b: Name, n: nat, u: nat) returns (run: seq<Log>, steps: seq<Step>)
    requires NameOk(a) && NameOk(b) && a != b && n <= MAX_BUF && 2 <= u < META_SECTORS
    ensures CrashFree(run, steps) && Filling(run[|run| - 1], a, n, u)
  {
    if u == 2 {
      run, steps := FirstBytes(a, n);
    } else {
      run, steps := FillRun(a, b, n, u - 1);
      CreateAndDelete(run[|run| - 1], a, b, n, u - 1);
      hide Enabled, After, Filling, CrashFree;
      CrashFreeMore(run, steps, Begin(Create(b)));
      run, steps := run + [After(run[|run| - 1], Begin(Create(b)))], steps + [Begin(Create(b))];
      CrashFreeMore(run, steps, Begin(Remove(b)));
      run, steps := run + [After(run[|run| - 1], Begin(Remove(b)))], steps + [Begin(Remove(b))];
      CrashFreeMore(run, steps, Append);
      run, steps := run + [After(run[|run| - 1], Append)], steps + [Append];
    }
  }

  /** The snapshot on the other zone records the size of the file, and none of its bytes. */
  lemma {:induction false} CachedSnapshot(s: Log, a: Name, n: nat)
    requires NameOk(a) && n <= MAX_BUF && Sound(s) && Enabled(s, Switch) && s.files == OnlyCached(a, n) && s.torn == {}
    ensures Enabled(After(s, Switch), TakeSnapshot([a]))
    ensures var s' := After(After(s, Switch), TakeSnapshot([a]));
      |s'.zones| == 2 && a in Recovered(s'.zones) && Recovered(s'.zones)[a].size == n &&
      Recovered(s'.zones)[a].pieces == [] && a in s'.seen.files && s'.seen.torn == {} && s'.seen.files[a].cached == n
  {
    StepSound(s, Switch);
    SmallRecords(a, a, n);
    SnapshotOfOne(a, n);
    hide Writable, Sectors, Replay, Snapshot, Enumerates, Sound;
    var s1 := After(s, Switch);
    assert Enabled(s1, TakeSnapshot([a]));
    SnapshotWins(s1, [a]);
    ReplayFirst([FileRec(a, 0, n, [])], 0);
    hide ReplayFiles, Recovered;
  }

  /** The failing case is reachable: a file takes `n` bytes into its cache while another is created and deleted
      until the zone is full.  Power lost after the snapshot leaves a file of size `n` without a byte. */
  lemma {:induction false} CachedBytesLost(a: Name, b: Name, n: nat) returns (run: seq<Log>, steps: seq<Step>)
    requires NameOk(a) && NameOk(b) && a != b && 0 < n <= MAX_BUF
    ensures MetaLog.IsRun(run, steps) && CleanRestarts(run, steps, |run| - 1)
    ensures var s := run[|run| - 1];
      |s.zones| == 2 && a in Recovered(s.zones) && Recovered(s.zones)[a].size == n &&
      Recovered(s.zones)[a].pieces == [] && a in s.seen.files && s.seen.torn == {} && s.seen.files[a].cached == n
  {
    run, steps := FillRun(a, b, n, META_SECTORS - 1);
    CreateAndDelete(run[|run| - 1], a, b, n, META_SECTORS - 1);
    hide Enabled, After, Filling, Sound, Recovered;
    CrashFreeMore(run, steps, Begin(Create(b)));
    run, steps := run + [After(run[|run| - 1], Begin(Create(b)))], steps + [Begin(Create(b))];
    CrashFreeMore(run, steps, Begin(Remove(b)));
    run, steps := run + [After(run[|run| - 1], Begin(Remove(b)))], steps + [Begin(Remove(b))];
    RunSound(run, steps, |run| - 1);
    CachedSnapshot(run[|run| - 1], a, n);
    CrashFreeMore(run, steps, Switch);
    run, steps := run + [After(run[|run| - 1], Switch)], steps + [Switch];
    CrashFreeMore(run, steps, TakeSnapshot([a]));
    run, steps := run + [After(run[|run| - 1], TakeSnapshot([a]))], steps + [TakeSnapshot([a])];
  }
}
