/** The metadata log: snapshots and incremental records, ping-ponged between two zones, and what is
    recovered from them after a crash at any point. */
module MetaLog {
  import opened Layout
  import opened Zrocks
  import opened MetaCodec
  import FileLayer

  type Name = seq<Byte>

  /** A ZNSFile.  `name` is the object's own name, which need not be the key it is stored under;
      `startIndex` pieces are already in the log; `cached` bytes of it are in its write cache only. */
  datatype File = File(name: Name, level: int, size: nat, pieces: seq<Piece>, startIndex: nat, cached: nat)

  type Files = map<Name, File>

  /** The piece table: what a file table is worth after a restart, ignoring files without pieces. */
  function Pieces(files: Files, k: Name): seq<Piece> {
    if k in files then files[k].pieces else []
  }

  ghost predicate SameTable(a: Files, b: Files) {
    forall k :: Pieces(a, k) == Pieces(b, k)
  }

  // ----- replay

  /** RecoverFileFromBuf: finds the object under the recorded name, but stores it under its own. */
  function ReplayFile(files: Files, f: FileRec, replace: bool): Files {
    var prior := if f.name in files then files[f.name] else File(f.name, -1, 0, [], 0, 0);
    var pieces := if f.name in files && replace then f.pieces else prior.pieces + f.pieces;
    var obj := File(prior.name, f.level, f.size, pieces, 0, 0);
    files[f.name := obj][obj.name := obj]
  }

  function ReplayFiles(files: Files, fs: seq<FileRec>): Files
    decreases |fs|
  {
    if fs == [] then files else ReplayFile(ReplayFiles(files, fs[..|fs| - 1]), fs[|fs| - 1], false)
  }

  /** The switch of LoadMetaData. */
  function ReplayOne(files: Files, r: Record): Files {
    match r
    case Base(fs) => ReplayFiles(files, fs)
    case Update(f) => ReplayFile(files, f, false)
    case Replace(src, dst) =>
      if src in files then (files - {src})[dst := files[src]] else files - {src, dst}
    case Delete(name) => files - {name}
    case GCChange(f) => ReplayFile(files, f, true)
  }

  function Replay(rs: seq<Record>): Files {
    if rs == [] then map[] else ReplayOne(Replay(rs[..|rs| - 1]), rs[|rs| - 1])
  }

  lemma {:induction false} ReplayAppend(rs: seq<Record>, r: Record)
    ensures Replay(rs + [r]) == ReplayOne(Replay(rs), r)
  {
    assert (rs + [r])[..|rs|] == rs;
  }

  // ----- snapshots

  /** WriteMetaToBuf writes the object's own name. */
  function RecOf(f: File): FileRec {
    FileRec(f.name, f.level, f.size, f.pieces)
  }

  ghost predicate Enumerates(keys: seq<Name>, files: Files) {
    (forall i :: 0 <= i < |keys| ==> keys[i] in files) && (forall k :: k in files ==> k in keys) &&
    forall i, j :: 0 <= i < j < |keys| ==> keys[i] != keys[j]
  }

  function Snapshot(files: Files, keys: seq<Name>): (fs: seq<FileRec>)
    requires forall i :: 0 <= i < |keys| ==> keys[i] in files
    ensures |fs| == |keys| && forall i :: 0 <= i < |keys| ==> fs[i] == RecOf(files[keys[i]])
  {
    if keys == [] then [] else Snapshot(files, keys[..|keys| - 1]) + [RecOf(files[keys[|keys| - 1]])]
  }

  ghost predicate NamesAgree(files: Files) {
    forall k :: k in files ==> files[k].name == k
  }

  lemma {:induction false} ReplayNamed(fs: seq<FileRec>)
    ensures forall k :: k in ReplayFiles(map[], fs) ==> ReplayFiles(map[], fs)[k].name == k
  {
    if fs != [] {
      ReplayNamed(fs[..|fs| - 1]);
    }
  }

  /** The pieces of all files recorded under a name, in order. */
  ghost function Gathered(fs: seq<FileRec>, k: Name): seq<Piece> {
    if fs == [] then []
    else Gathered(fs[..|fs| - 1], k) + (if fs[|fs| - 1].name == k then fs[|fs| - 1].pieces else [])
  }

  /** Replaying files into an empty table gathers the pieces recorded under each name. */
  lemma {:induction false} ReplayGathers(fs: seq<FileRec>, k: Name)
    ensures Pieces(ReplayFiles(map[], fs), k) == Gathered(fs, k)
  {
    if fs != [] {
      ReplayNamed(fs[..|fs| - 1]);
      ReplayGathers(fs[..|fs| - 1], k);
    }
  }

  lemma {:induction false} GatheredNone(fs: seq<FileRec>, k: Name)
    requires forall i :: 0 <= i < |fs| && fs[i].name == k ==> fs[i].pieces == []
    ensures Gathered(fs, k) == []
  {
    if fs != [] {
      GatheredNone(fs[..|fs| - 1], k);
    }
  }

  /** One file with pieces under a name is all that is gathered. */
  lemma {:induction false} GatheredOne(fs: seq<FileRec>, k: Name, x: nat)
    requires x < |fs| && fs[x].name == k
    requires forall i :: 0 <= i < |fs| && i != x && fs[i].name == k ==> fs[i].pieces == []
    ensures Gathered(fs, k) == fs[x].pieces
  {
    var n := |fs| - 1;
    if x == n {
      GatheredNone(fs[..n], k);
    } else {
      GatheredOne(fs[..n], k, x);
    }
  }

  lemma {:induction false} GatheredHolds(fs: seq<FileRec>, x: nat, p: Piece)
    requires x < |fs| && p in fs[x].pieces
    ensures p in Gathered(fs, fs[x].name)
  {
    if x < |fs| - 1 {
      GatheredHolds(fs[..|fs| - 1], x, p);
    }
  }

  /** Every file with pieces is stored under its object's own name. */
  ghost predicate OwnNamed(files: Files) {
    forall k :: k in files && files[k].pieces != [] ==> files[k].name == k
  }

  /** A snapshot replays to the table it was taken of, if every file with pieces is stored under its
      object's own name. */
  lemma {:induction false} SnapshotReplays(files: Files, keys: seq<Name>)
    requires Enumerates(keys, files) && OwnNamed(files)
    ensures SameTable(ReplayFiles(map[], Snapshot(files, keys)), files)
    ensures NamesAgree(ReplayFiles(map[], Snapshot(files, keys)))
  {
    var fs := Snapshot(files, keys);
    var r := ReplayFiles(map[], fs);
    ReplayNamed(fs);
    forall k ensures Pieces(r, k) == Pieces(files, k) {
      ReplayGathers(fs, k);
      if x :| 0 <= x < |keys| && keys[x] == k && files[k].name == k {
        GatheredOne(fs, k, x);
      } else {
        GatheredNone(fs, k);
      }
    }
  }

  // ----- operations

  /** What an operation does to the in-memory table before anything is logged. */
  datatype Op = Create(k: Name) | Sync(k: Name, more: seq<Piece>) | Migrate(k: Name, all: seq<Piece>)
              | Remove(k: Name) | Rename(k: Name, dst: Name)
              | Grow(k: Name, n: nat, cached: nat) | Cut(k: Name, len: nat) | SetLevel(k: Name, level: int)

  /** Operations that log nothing. */
  predicate Quiet(op: Op) {
    op.Create? || op.Grow? || op.Cut? || op.SetLevel?
  }

  /** NewWritableFile, Sync, MigrateNodeFile, DeleteFile and RenameFile on the table `files`; the end of an Append
      of `n` bytes that leaves `cached` bytes in the cache; Truncate and SetWriteLifeTimeHint. */
  function Mutate(files: Files, op: Op): Files
    requires !op.Create? ==> op.k in files
  {
    match op
    case Create(k) => files[k := File(k, 0, 0, [], 0, 0)]
    case Sync(k, more) =>
      var f := files[k];
      files[k := f.(pieces := f.pieces + more, startIndex := |f.pieces + more|, cached := 0)]
    case Migrate(k, all) => files[k := files[k].(pieces := all, startIndex := |all|)]
    case Remove(k) => files - {k}
    case Rename(k, dst) => files[dst := files[k].(name := dst)] - {k}
    case Grow(k, n, cached) => files[k := files[k].(size := files[k].size + n, cached := cached)]
    case Cut(k, len) =>
      var f := files[k];
      if len <= f.size <= len + f.cached then files[k := f.(size := len, cached := f.cached - (f.size - len))]
      else files
    case SetLevel(k, level) => files[k := files[k].(level := level)]
  }

  /** Bytes that pieces hold for a file. */
  function Held(ps: seq<Piece>): int {
    FileLayer.Begin(ps, |ps|)
  }

  /** The record the operation logs; an Update holds the pieces from `startIndex` on. */
  function Logged(files: Files, op: Op): Record
    requires !Quiet(op) && op.k in files
    requires op.Sync? ==> files[op.k].startIndex <= |files[op.k].pieces|
  {
    match op
    case Sync(k, more) => var f := files[k];
      Update(FileRec(f.name, f.level, f.size, (f.pieces + more)[f.startIndex..]))
    case Migrate(k, all) => GCChange(FileRec(files[k].name, files[k].level, files[k].size, all))
    case Remove(k) => Delete(k)
    case Rename(k, dst) => Replace(k, dst)
  }

  /** Objects that replay would find under a key other than their name. */
  ghost predicate StaleWithin(r: Files, renamed: set<Name>) {
    forall k :: k in r && r[k].name != k ==> k in renamed
  }

  /** Names whose file was renamed since the last snapshot. */
  function RenamedAfter(renamed: set<Name>, op: Op): set<Name> {
    match op
    case Rename(k, dst) => renamed - {k} + {dst}
    case Remove(k) => renamed - {k}
    case _ => renamed
  }

  /** A name is that of a renamed file if the operation made it so, or it was and the operation left it there. */
  lemma {:induction false} RenamedExactly(renamed: set<Name>, op: Op, k: Name)
    ensures k in RenamedAfter(renamed, op) <==>
      (op.Rename? && op.dst == k) || (k in renamed && !((op.Rename? || op.Remove?) && op.k == k))
  {
  }

  /** What the code relies on for an operation: names are new or known, a file is not updated after a
      rename, a file is not renamed to itself.  A Sync without new pieces logs nothing and is no
      operation; otherwise it finds space, so that its pieces hold the cache and what an Append that
      overflowed it added.  An Append ends with every byte it counts in the pieces or in the cache.  A
      file is migrated when it is closed, and whole units are copied. */
  ghost predicate OpAllowed(files: Files, renamed: set<Name>, op: Op) {
    match op
    case Create(k) => k !in files
    case Sync(k, more) => k in files && k !in renamed && more != [] && files[k].cached <= Held(more)
    case Migrate(k, all) =>
      k in files && k !in renamed && files[k].cached == 0 && Held(files[k].pieces) <= Held(all)
    case Remove(k) => k in files
    case Rename(k, dst) => k in files && k != dst
    case Grow(k, n, cached) => k in files && files[k].size + n == Held(files[k].pieces) + cached
    case _ => op.k in files
  }

  ghost predicate Flushed(files: Files) {
    forall k :: k in files ==> files[k].startIndex == |files[k].pieces|
  }

  lemma {:induction false} RecordNames(files: Files, r: Files, renamed: set<Name>, op: Op)
    requires NamesAgree(files) && Flushed(files) && StaleWithin(r, renamed)
    requires OpAllowed(files, renamed, op) && !Quiet(op)
    ensures NamesAgree(Mutate(files, op)) && Flushed(Mutate(files, op))
    ensures StaleWithin(ReplayOne(r, Logged(files, op)), RenamedAfter(renamed, op))
  {
  }

  /** Replaying the operation's record does to the replayed table what the operation did in memory. */
  lemma {:induction false} RecordFollowsOp(files: Files, r: Files, renamed: set<Name>, op: Op)
    requires SameTable(r, files) && NamesAgree(files) && Flushed(files) && StaleWithin(r, renamed)
    requires OpAllowed(files, renamed, op) && !Quiet(op)
    ensures SameTable(ReplayOne(r, Logged(files, op)), Mutate(files, op))
    ensures NamesAgree(Mutate(files, op)) && Flushed(Mutate(files, op))
    ensures StaleWithin(ReplayOne(r, Logged(files, op)), RenamedAfter(renamed, op))
  {
    RecordNames(files, r, renamed, op);
    hide RenamedAfter, ReplayOne, Logged, Mutate, Pieces, Held;
    forall k ensures Pieces(ReplayOne(r, Logged(files, op)), k) == Pieces(Mutate(files, op), k) {
      RecordPieces(files, r, renamed, op, k);
    }
  }

  lemma {:induction false} RecordPieces(files: Files, r: Files, renamed: set<Name>, op: Op, k: Name)
    requires SameTable(r, files) && NamesAgree(files) && Flushed(files) && StaleWithin(r, renamed)
    requires OpAllowed(files, renamed, op) && !Quiet(op)
    ensures Pieces(ReplayOne(r, Logged(files, op)), k) == Pieces(Mutate(files, op), k)
  {
    hide Held;
    assert Pieces(r, k) == Pieces(files, k) && Pieces(r, op.k) == Pieces(files, op.k);
    hide SameTable;
  }

  lemma {:induction false} QuietKeepsTable(files: Files, r: Files, renamed: set<Name>, op: Op)
    requires SameTable(r, files) && NamesAgree(files) && Flushed(files) && OpAllowed(files, renamed, op) && Quiet(op)
    ensures SameTable(r, Mutate(files, op)) && NamesAgree(Mutate(files, op)) && Flushed(Mutate(files, op))
  {
    forall k ensures Pieces(r, k) == Pieces(Mutate(files, op), k) {
      assert Pieces(r, k) == Pieces(files, k);
    }
  }

  // ----- the two zones

  const META_SECTORS: nat := 24576

  /** A metadata zone: a head with its sequence number, then records; `used` counts its sectors. */
  datatype Zone = Zone(valid: bool, number: nat, recs: seq<Record>, used: nat)

  const EMPTY: Zone := Zone(false, 0, [], 0)

  function TotalSectors(rs: seq<Record>): nat {
    if rs == [] then 0 else TotalSectors(rs[..|rs| - 1]) + Sectors(rs[|rs| - 1])
  }

  /** The zone LoadMetaData replays: the valid one with the greatest sequence number. */
  function Winner(zones: seq<Zone>): nat
    requires |zones| == 2
  {
    if zones[0].valid && (!zones[1].valid || zones[0].number > zones[1].number) then 0 else 1
  }

  /** The table recovered from the device if power is lost now. */
  function Recovered(zones: seq<Zone>): Files
    requires |zones| == 2
  {
    if zones[0].valid || zones[1].valid then Replay(zones[Winner(zones)].recs) else map[]
  }

  /** `Writing`: memory is changed and `r` is to be logged; `Snapshotting`: the current zone was just
      reset and a snapshot is to be written to it. */
  datatype Phase = Idle | Writing(r: Record, renamed: set<Name>) | Snapshotting

  /** The files as they were in memory when they were last recorded, and those of them that a crash had torn
      before. */
  datatype Seen = Seen(files: Files, torn: set<Name>)

  /** `before` is the table just before the current operation; `seen` follows each file's last record and
      `torn` the files a restart found short, for the statements about them.  A recovered file has no writer: a
      writer is only had by creating the file anew. */
  datatype Log = Log(zones: seq<Zone>, cur: nat, sequence: nat, files: Files, phase: Phase, before: Files,
                     renamed: set<Name>, seen: Seen, torn: set<Name>)

  const FRESH_DEVICE: Log := Log([EMPTY, EMPTY], 0, 0, map[], Snapshotting, map[], {}, Seen(map[], {}), {})

  /** The pieces hold fewer bytes than the size counts. */
  predicate Short(f: File) {
    Held(f.pieces) < f.size
  }

  /** Files that a restart found short. */
  function Torn(files: Files): set<Name> {
    set k | k in files && Short(files[k])
  }

  /** The padding that a migration copies may make up the missing length. */
  function TornAfter(torn: set<Name>, files: Files, op: Op): set<Name> {
    match op
    case Create(k) => torn - {k}
    case Remove(k) => torn - {k}
    case Rename(k, dst) => TornMoved(torn, k, dst)
    case Migrate(k, all) => if k in files && files[k].size <= Held(all) then torn - {k} else torn
    case _ => torn
  }

  function TornMoved(torn: set<Name>, src: Name, dst: Name): set<Name> {
    if src in torn then torn - {src} + {dst} else torn - {dst}
  }

  /** What the log holds of each file once `r` is written, as it is in memory then. */
  function SeenAfter(seen: Seen, files: Files, torn: set<Name>, r: Record): Seen {
    match r
    case Base(_) => seen
    case Update(f) => SeenFile(seen, files, torn, f.name)
    case GCChange(f) => SeenFile(seen, files, torn, f.name)
    case Replace(src, dst) =>
      if src in seen.files
      then Seen((seen.files - {src})[dst := seen.files[src]], TornMoved(seen.torn, src, dst))
      else seen.(files := seen.files - {src, dst})
    case Delete(name) => seen.(files := seen.files - {name})
  }

  function SeenFile(seen: Seen, files: Files, torn: set<Name>, k: Name): Seen {
    if k !in files then seen
    else Seen(seen.files[k := files[k]], if k in torn then seen.torn + {k} else seen.torn - {k})
  }

  function MarkFlushed(files: Files): Files {
    map k | k in files :: files[k].(startIndex := |files[k].pieces|)
  }

  // ----- steps

  datatype Step = Begin(op: Op) | Append | Switch | TakeSnapshot(keys: seq<Name>) | Reboot

  /** A record that the code writes from a single-sector buffer. */
  ghost predicate Writable(r: Record) {
    RecordOk(r) && RecordFits(r) && (!r.Base? ==> Sectors(r) == 1)
  }

  ghost predicate SnapshotFits(files: Files, keys: seq<Name>) {
    Enumerates(keys, files) && Writable(Base(Snapshot(files, keys))) &&
    1 + Sectors(Base(Snapshot(files, keys))) < META_SECTORS
  }

  ghost predicate Enabled(s: Log, step: Step) {
    |s.zones| == 2 && s.cur < 2 &&
    match step
    case Begin(op) =>
      s.phase == Idle && OpAllowed(s.files, s.renamed, op) &&
      (op.Sync? ==> s.files[op.k].startIndex <= |s.files[op.k].pieces|) &&
      (op.Sync? || op.Grow? || op.Cut? ==> op.k !in s.torn) &&
      (!Quiet(op) ==> Writable(Logged(s.files, op)))
    case Append => s.phase.Writing? && s.zones[s.cur].used + Sectors(s.phase.r) < META_SECTORS
    case Switch => s.phase.Writing? && s.zones[s.cur].used + Sectors(s.phase.r) >= META_SECTORS
    case TakeSnapshot(keys) => s.phase == Snapshotting && SnapshotFits(s.files, keys)
    case Reboot => true
  }

  /** One atomic step; power can be lost between any two. */
  ghost function After(s: Log, step: Step): Log
    requires Enabled(s, step)
  {
    match step
    case Begin(op) =>
      var s' := s.(files := Mutate(s.files, op), torn := TornAfter(s.torn, s.files, op));
      if Quiet(op) then s'
      else s'.(before := s.files, phase := Writing(Logged(s.files, op), RenamedAfter(s.renamed, op)))
    case Append =>
      var z := s.zones[s.cur];
      s.(zones := s.zones[s.cur := z.(recs := z.recs + [s.phase.r], used := z.used + Sectors(s.phase.r))],
         phase := Idle, renamed := s.phase.renamed, seen := SeenAfter(s.seen, s.files, s.torn, s.phase.r))
    case Switch => s.(cur := 1 - s.cur, zones := s.zones[1 - s.cur := EMPTY], phase := Snapshotting)
    case TakeSnapshot(keys) =>
      var base := Base(Snapshot(s.files, keys));
      s.(zones := s.zones[s.cur := Zone(true, s.sequence, [base], 1 + Sectors(base))],
         sequence := s.sequence + 1, files := MarkFlushed(s.files), phase := Idle, renamed := {},
         seen := Seen(s.files, s.torn))
    case Reboot =>
      var files := Recovered(s.zones);
      if s.zones[0].valid || s.zones[1].valid then
        var w := Winner(s.zones);
        Log(s.zones[1 - w := EMPTY], 1 - w, s.zones[w].number + 1, files, Snapshotting, files, s.renamed, s.seen,
            Torn(files))
      else Log(s.zones, 0, 0, files, Snapshotting, files, s.renamed, s.seen, Torn(files))
  }

  // ----- the invariant

  ghost predicate ZoneOk(z: Zone, sequence: nat) {
    if z.valid then
      z.number < sequence && z.recs != [] && z.used == 1 + TotalSectors(z.recs) && z.used < META_SECTORS &&
      forall i :: 0 <= i < |z.recs| ==> Writable(z.recs[i])
    else z == EMPTY
  }

  ghost predicate Leads(s: Log)
    requires |s.zones| == 2 && s.cur < 2
  {
    s.zones[s.cur].valid && (s.zones[1 - s.cur].valid ==> s.zones[1 - s.cur].number < s.zones[s.cur].number)
  }

  /** What holds of the zones whatever was replayed. */
  ghost predicate Sound(s: Log) {
    |s.zones| == 2 && s.cur < 2 && ZoneOk(s.zones[0], s.sequence) && ZoneOk(s.zones[1], s.sequence) &&
    match s.phase
    case Idle => Leads(s)
    case Writing(r, _) => Leads(s) && Writable(r)
    case Snapshotting => s.zones[s.cur] == EMPTY
  }

  /** The zone that would be replayed holds the table before or after the current operation; objects
      replayed under a key other than their name are among the renamed ones. */
  ghost predicate Inv(s: Log) {
    Sound(s) && NamesAgree(s.files) &&
    match s.phase
    case Idle =>
      var r := Replay(s.zones[s.cur].recs);
      SameTable(r, s.files) && Flushed(s.files) && StaleWithin(r, s.renamed)
    case Writing(rec, renamed) =>
      var r := Replay(s.zones[s.cur].recs);
      var r' := ReplayOne(r, rec);
      SameTable(r, s.before) && StaleWithin(r, s.renamed) && Flushed(s.files) &&
      SameTable(r', s.files) && StaleWithin(r', renamed)
    case Snapshotting => SameTable(Recovered(s.zones), s.before) && StaleWithin(Recovered(s.zones), s.renamed)
  }

  lemma {:induction false} InitInv()
    ensures Inv(FRESH_DEVICE)
  {
  }

  lemma {:induction false} BeginInv(s: Log, op: Op)
    requires Inv(s) && Enabled(s, Begin(op))
    ensures Inv(After(s, Begin(op)))
  {
    hide ReplayOne, Mutate, Logged, Replay, Writable;
    var r := Replay(s.zones[s.cur].recs);
    if Quiet(op) {
      QuietKeepsTable(s.files, r, s.renamed, op);
    } else {
      RecordFollowsOp(s.files, r, s.renamed, op);
    }
  }

  lemma {:induction false} AppendInv(s: Log)
    requires Inv(s) && Enabled(s, Append)
    ensures Inv(After(s, Append))
  {
    AppendSound(s);
    ReplayAppend(s.zones[s.cur].recs, s.phase.r);
    hide ReplayOne, Replay, Writable, Sectors, Sound, SameTable, NamesAgree, Flushed, StaleWithin;
  }

  lemma {:induction false} SwitchInv(s: Log)
    requires Inv(s) && Enabled(s, Switch)
    ensures Inv(After(s, Switch))
  {
    hide ReplayOne, Replay, Writable, Sectors;
  }

  /** A zone that holds nothing but a snapshot replays to the table in memory. */
  lemma {:induction false} SnapshotTable(files: Files, keys: seq<Name>)
    requires Enumerates(keys, files) && NamesAgree(files)
    ensures var r := Replay([Base(Snapshot(files, keys))]);
      SameTable(r, MarkFlushed(files)) && StaleWithin(r, {})
    ensures NamesAgree(MarkFlushed(files)) && Flushed(MarkFlushed(files))
  {
    var base := Base(Snapshot(files, keys));
    SnapshotReplays(files, keys);
    ReplayAppend([], base);
    assert [] + [base] == [base] && Replay([]) == map[];
    var r := Replay([base]);
    assert r == ReplayFiles(map[], Snapshot(files, keys));
    hide Replay, ReplayFiles, Snapshot, Enumerates;
    forall k ensures Pieces(r, k) == Pieces(MarkFlushed(files), k) {
      assert Pieces(r, k) == Pieces(files, k);
    }
  }

  lemma {:induction false} SnapshotInv(s: Log, keys: seq<Name>)
    requires Inv(s) && Enabled(s, TakeSnapshot(keys))
    ensures Inv(After(s, TakeSnapshot(keys)))
  {
    hide Writable, Sectors, Replay, SameTable, NamesAgree, Flushed, StaleWithin, Snapshot, MarkFlushed;
    SnapshotTable(s.files, keys);
    var base := Base(Snapshot(s.files, keys));
    assert [base][..0] == [] && TotalSectors([base][..0]) == 0;
  }

  /** A restart keeps the invariant if every object it replays ends up under its own name. */
  lemma {:induction false} RebootInv(s: Log)
    requires Inv(s) && NamesAgree(Recovered(s.zones))
    ensures Inv(After(s, Reboot))
  {
    hide ReplayOne, Replay, Writable, Sectors;
  }

  lemma {:induction false} StepInv(s: Log, step: Step)
    requires Inv(s) && Enabled(s, step) && (step.Reboot? ==> NamesAgree(Recovered(s.zones)))
    ensures Inv(After(s, step))
  {
    hide Inv, Enabled, After;
    match step
    case Begin(op) => BeginInv(s, op);
    case Append => AppendInv(s);
    case Switch => SwitchInv(s);
    case TakeSnapshot(keys) => SnapshotInv(s, keys);
    case Reboot => RebootInv(s);
  }

  // ----- the zones, whatever was replayed

  lemma {:induction false} AppendSound(s: Log)
    requires Sound(s) && Enabled(s, Append)
    ensures Sound(After(s, Append))
  {
    var z, r := s.zones[s.cur], s.phase.r;
    hide Writable, Sectors;
    assert (z.recs + [r])[..|z.recs|] == z.recs;
  }

  lemma {:induction false} SnapshotSound(s: Log, keys: seq<Name>)
    requires Sound(s) && Enabled(s, TakeSnapshot(keys))
    ensures Sound(After(s, TakeSnapshot(keys)))
  {
    hide Writable, Sectors, Snapshot, MarkFlushed;
    var base := Base(Snapshot(s.files, keys));
    assert [base][..0] == [] && TotalSectors([base][..0]) == 0;
  }

  /** Every step, a restart after a rename included, keeps the zones loadable. */
  lemma {:induction false} StepSound(s: Log, step: Step)
    requires Sound(s) && Enabled(s, step)
    ensures Sound(After(s, step))
  {
    hide Writable, Sectors, Replay, Logged, Mutate;
    match step
    case Append => AppendSound(s);
    case TakeSnapshot(keys) => SnapshotSound(s, keys);
    case _ =>
  }

  // ----- crash consistency

  ghost predicate IsRun(run: seq<Log>, steps: seq<Step>) {
    |run| == |steps| + 1 && run[0] == FRESH_DEVICE &&
    forall i :: 0 <= i < |steps| ==> Enabled(run[i], steps[i]) && run[i + 1] == After(run[i], steps[i])
  }

  /** The zones of every state of every run are sound. */
  lemma {:induction false} RunSound(run: seq<Log>, steps: seq<Step>, i: nat)
    requires IsRun(run, steps) && i < |run|
    ensures Sound(run[i])
  {
    hide Enabled, After, Sound;
    if i == 0 {
      InitInv();
    } else {
      RunSound(run, steps, i - 1);
      StepSound(run[i - 1], steps[i - 1]);
    }
  }

  /** The history condition: every restart up to state `i` came with no rename in the log, or else
      replayed every object under its own name. */
  ghost predicate CleanRestarts(run: seq<Log>, steps: seq<Step>, i: nat) {
    forall j :: 0 <= j < i && j < |steps| && j < |run| && steps[j].Reboot? ==>
      run[j].renamed == {} || (|run[j].zones| == 2 && NamesAgree(Recovered(run[j].zones)))
  }

  /** Without a rename in the log every replayed object sits under its own name. */
  lemma {:induction false} UnrenamedNamesAgree(s: Log)
    requires Inv(s) && s.renamed == {}
    ensures NamesAgree(Recovered(s.zones))
  {
    hide ReplayOne, Replay, Writable, Sectors, SameTable;
  }

  lemma {:induction false} RunInv(run: seq<Log>, steps: seq<Step>, i: nat)
    requires IsRun(run, steps) && i < |run| && CleanRestarts(run, steps, i)
    ensures Inv(run[i])
  {
    hide Enabled, After, Inv, NamesAgree, Recovered;
    if i == 0 {
      InitInv();
    } else {
      RunInv(run, steps, i - 1);
      RunSound(run, steps, i - 1);
      if steps[i - 1].Reboot? && run[i - 1].renamed == {} {
        UnrenamedNamesAgree(run[i - 1]);
      }
      StepInv(run[i - 1], steps[i - 1]);
    }
  }

  /** At every point of every run with clean restarts only, including between the switch of zones, the
      reset and the snapshot and during recovery itself, power loss leaves the table just
      before or just after the current operation; between operations, the current table. */
  lemma {:induction false} CrashConsistent(run: seq<Log>, steps: seq<Step>, i: nat)
    requires IsRun(run, steps) && i < |run| && CleanRestarts(run, steps, i)
    ensures |run[i].zones| == 2
    ensures SameTable(Recovered(run[i].zones), run[i].before) || SameTable(Recovered(run[i].zones), run[i].files)
    ensures run[i].phase == Idle ==> SameTable(Recovered(run[i].zones), run[i].files)
  {
    hide Enabled, After, Inv, Recovered, SameTable;
    RunInv(run, steps, i);
    InvRecovers(run[i]);
  }

  /** Any restart, whatever was renamed: memory gets the table the device held, and the snapshot taken
      next holds that table exactly when every file with pieces was replayed under its own name. */
  lemma {:induction false} RestartFaithfulIff(s: Log, keys: seq<Name>)
    requires Sound(s) && Enabled(After(s, Reboot), TakeSnapshot(keys)) && DisjointFiles(Recovered(s.zones))
    ensures var s' := After(After(s, Reboot), TakeSnapshot(keys));
      |s'.zones| == 2 && SameTable(s'.files, Recovered(s.zones)) &&
      (SameTable(Recovered(s'.zones), Recovered(s.zones)) <==> OwnNamed(Recovered(s.zones)))
  {
    RestartTable(s);
    hide Sound, After, Enabled, Recovered, DisjointFiles, OwnNamed, Snapshot, ReplayFiles, SameTable, Enumerates;
    StepSound(s, Reboot);
    SnapshotWins(After(s, Reboot), keys);
    SnapshotFaithfulIff(Recovered(s.zones), keys);
  }

  lemma {:induction false} RestartTable(s: Log)
    requires Sound(s)
    ensures Enabled(s, Reboot) && After(s, Reboot).files == Recovered(s.zones)
  {
    hide Replay, Writable, Sectors;
  }

  lemma {:induction false} MarkFlushedTable(files: Files)
    ensures SameTable(MarkFlushed(files), files)
  {
  }

  /** A fresh snapshot is the zone that would be replayed. */
  lemma {:induction false} SnapshotWins(s: Log, keys: seq<Name>)
    requires Sound(s) && Enabled(s, TakeSnapshot(keys))
    ensures Enumerates(keys, s.files)
    ensures var s' := After(s, TakeSnapshot(keys));
      |s'.zones| == 2 && Recovered(s'.zones) == ReplayFiles(map[], Snapshot(s.files, keys)) &&
      SameTable(s'.files, s.files)
  {
    MarkFlushedTable(s.files);
    hide Writable, Sectors, MarkFlushed, Snapshot, ReplayFiles, SameTable;
    ReplayAppend([], Base(Snapshot(s.files, keys)));
    assert [] + [Base(Snapshot(s.files, keys))] == [Base(Snapshot(s.files, keys))];
  }

  lemma {:induction false} InvRecovers(s: Log)
    requires Inv(s)
    ensures |s.zones| == 2
    ensures SameTable(Recovered(s.zones), if s.phase == Idle then s.files else s.before)
  {
    hide ReplayOne, Replay, Writable, Sectors, SameTable;
  }

  // ----- the conditions are exact

  /** Replaying an Update or GCChange touches no other file exactly when the object sits under its own
      name, or its old name already maps to the pieces it gets. */
  lemma {:induction false} UpdateLocalIff(r: Files, f: FileRec, replace: bool)
    ensures (forall k :: k != f.name ==> Pieces(ReplayFile(r, f, replace), k) == Pieces(r, k)) <==>
      f.name !in r || r[f.name].name == f.name ||
      Pieces(r, r[f.name].name) == if replace then f.pieces else r[f.name].pieces + f.pieces
  {
    if f.name in r && r[f.name].name != f.name {
      var n := r[f.name].name;
      assert Pieces(ReplayFile(r, f, replace), n) == Pieces(ReplayFile(r, f, replace), f.name);
    }
  }

  /** The failing input: a file of a snapshot is renamed, then updated.  Its pieces, old and new, end
      up under both names. */
  lemma {:induction false} UpdateAfterRenameDuplicates(f: FileRec, dst: Name, level: int, size: nat, more: seq<Piece>)
    requires f.name != dst && f.pieces + more != []
    ensures var r := Replay([Base([f]), Replace(f.name, dst), Update(FileRec(dst, level, size, more))]);
      Pieces(r, dst) == f.pieces + more && Pieces(r, f.name) == f.pieces + more
    ensures Pieces(Replay([Base([f]), Replace(f.name, dst)]), f.name) == []
  {
    hide ReplayFiles;
    var base, rename, update := Base([f]), Replace(f.name, dst), Update(FileRec(dst, level, size, more));
    SingleBase(f);
    ReplayAppend([base], rename);
    assert [base] + [rename] == [base, rename];
    ReplayAppend([base, rename], update);
    assert [base, rename] + [update] == [base, rename, update];
  }

  /** Logging a rename agrees with memory exactly when the names differ or the file has no pieces. */
  lemma {:induction false} RenameAgreesIff(files: Files, r: Files, k: Name, dst: Name)
    requires SameTable(r, files) && k in files
    ensures SameTable(ReplayOne(r, Replace(k, dst)), Mutate(files, Rename(k, dst))) <==>
      k != dst || Pieces(files, k) == []
  {
    var r', files' := ReplayOne(r, Replace(k, dst)), Mutate(files, Rename(k, dst));
    assert Pieces(r, k) == Pieces(files, k);
    if k == dst {
      assert Pieces(r', k) == Pieces(r, k) && Pieces(files', k) == [];
    }
    if k != dst || Pieces(files, k) == [] {
      forall n ensures Pieces(r', n) == Pieces(files', n) {
        assert Pieces(r, n) == Pieces(files, n);
      }
    }
  }

  /** Creating a file logs nothing, which is right exactly when the name had no pieces. */
  lemma {:induction false} CreateAgreesIff(files: Files, r: Files, k: Name)
    requires SameTable(r, files)
    ensures SameTable(r, Mutate(files, Create(k))) <==> Pieces(files, k) == []
  {
    assert Pieces(r, k) == Pieces(files, k);
    if Pieces(files, k) == [] {
      forall n ensures Pieces(r, n) == Pieces(Mutate(files, Create(k)), n) {
        assert Pieces(r, n) == Pieces(files, n);
      }
    } else {
      assert Pieces(Mutate(files, Create(k)), k) == [];
    }
  }

  /** Different files have no piece in common. */
  ghost predicate DisjointFiles(files: Files) {
    forall k, n, p :: k in files && n in files && k != n && p in files[k].pieces ==> p !in files[n].pieces
  }

  /** A snapshot of a table replays to that table exactly when every file with pieces is stored under
      its object's own name.  After a restart that replayed a Replace record this fails. */
  lemma {:induction false} SnapshotFaithfulIff(files: Files, keys: seq<Name>)
    requires Enumerates(keys, files) && DisjointFiles(files)
    ensures SameTable(ReplayFiles(map[], Snapshot(files, keys)), files) <==> OwnNamed(files)
  {
    var fs := Snapshot(files, keys);
    var r := ReplayFiles(map[], fs);
    if OwnNamed(files) {
      SnapshotReplays(files, keys);
    } else {
      var k :| k in files && files[k].pieces != [] && files[k].name != k;
      var i :| 0 <= i < |keys| && keys[i] == k;
      var p, n := files[k].pieces[0], files[k].name;
      assert p in fs[i].pieces;
      GatheredHolds(fs, i, p);
      ReplayGathers(fs, n);
      assert p in Pieces(r, n) && p !in Pieces(files, n);
    }
  }

  /** A file renamed before one restart is found under its old name after the next: the snapshot taken
      while recovering it undoes the rename. */
  lemma {:induction false} RenameUndoneByRestarts(f: FileRec, dst: Name)
    requires f.pieces != [] && f.name != dst
    ensures var recovered := Replay([Base([f]), Replace(f.name, dst)]);
      Pieces(recovered, dst) == f.pieces && Pieces(recovered, f.name) == [] && recovered.Keys == {dst} &&
      var again := Replay([Base(Snapshot(recovered, [dst]))]);
      Pieces(again, dst) == [] && Pieces(again, f.name) == f.pieces
  {
    hide ReplayFiles;
    var base, rename := Base([f]), Replace(f.name, dst);
    SingleBase(f);
    ReplayAppend([base], rename);
    assert [base] + [rename] == [base, rename];
    var recovered := Replay([base, rename]);
    assert recovered.Keys == {dst};
    SingleBase(RecOf(recovered[dst]));
    assert Snapshot(recovered, [dst]) == [RecOf(recovered[dst])];
  }

  lemma {:induction false} SingleBase(f: FileRec)
    ensures Replay([Base([f])]) == map[f.name := File(f.name, f.level, f.size, f.pieces, 0, 0)]
  {
    ReplayAppend([], Base([f]));
    assert [] + [Base([f])] == [Base([f])];
    assert [f][..0] == [] && ReplayFiles(map[], [f][..0]) == map[];
    assert [] + f.pieces == f.pieces;
  }

  // ----- from records to sectors

  lemma {:induction false} EncodedLength(rs: seq<Record>, junks: seq<Junk>)
    requires |junks| == |rs| && forall i :: 0 <= i < |rs| ==> RecordFits(rs[i]) && JunkOk(rs[i], junks[i])
    ensures |EncRecords(rs, junks)| == TotalSectors(rs) * SECTOR
  {
    if rs != [] {
      hide EncRecord, EncRecords, RecordFits, Sectors;
      var n := |rs| - 1;
      EncodedLength(rs[..n], junks[..n]);
      EncRecordsAppend(rs[..n], junks[..n], rs[n], junks[n]);
      SplitLast(rs);
      SplitLast(junks);
      SectorsOk(rs[n], junks[n]);
    }
  }

  lemma {:induction false} SectorsInTotal(rs: seq<Record>, i: nat)
    requires i < |rs|
    ensures Sectors(rs[i]) <= TotalSectors(rs)
  {
    if i < |rs| - 1 {
      SectorsInTotal(rs[..|rs| - 1], i);
    }
  }

  /** The load loop reads a zone to its end: it meets the zone's records and then a head of length zero
      inside the zone, whatever junk the records were written with. */
  ghost predicate Loads(zone: Zone, junks: seq<Junk>)
    requires |junks| == |zone.recs|
  {
    (forall j :: 0 <= j < |zone.recs| ==> RecordFits(zone.recs[j]) && JunkOk(zone.recs[j], junks[j])) &&
    zone.used * SECTOR == SECTOR + |EncRecords(zone.recs, junks)| && zone.used < META_SECTORS &&
    var s := EncRecords(zone.recs, junks) + Zeros((META_SECTORS - zone.used) * SECTOR);
    Ends(s) && Parse(s) == zone.recs
  }

  lemma {:induction false} ZoneLoads(zone: Zone, sequence: nat, junks: seq<Junk>)
    requires zone.valid && ZoneOk(zone, sequence)
    requires |junks| == |zone.recs| && forall j :: 0 <= j < |junks| ==> JunkOk(zone.recs[j], junks[j])
    ensures Loads(zone, junks)
  {
    hide Sectors, RecordOk, RecordFits, EncRecords, Ends, Parse, Zeros;
    forall j | 0 <= j < |zone.recs|
      ensures RecordFits(zone.recs[j]) && RecordOk(zone.recs[j]) && Sectors(zone.recs[j]) < 0x10_0000
    {
      assert Writable(zone.recs[j]);
      SectorsInTotal(zone.recs, j);
    }
    EncodedLength(zone.recs, junks);
    ZoneRoundTrip(zone.recs, junks, (META_SECTORS - zone.used) * SECTOR);
  }

  /** At every point of every run, with restarts of any kind, every valid zone loads. */
  lemma {:induction false} ValidZonesLoad(run: seq<Log>, steps: seq<Step>, i: nat, z: nat, junks: seq<Junk>)
    requires IsRun(run, steps) && i < |run| && |run[i].zones| == 2 && z < 2 && run[i].zones[z].valid
    requires |junks| == |run[i].zones[z].recs|
    requires forall j :: 0 <= j < |junks| ==> JunkOk(run[i].zones[z].recs[j], junks[j])
    ensures Loads(run[i].zones[z], junks)
  {
    RunSound(run, steps, i);
    assert ZoneOk(run[i].zones[z], run[i].sequence);
    hide *;
    ZoneLoads(run[i].zones[z], run[i].sequence, junks);
  }
}
