/** The metadata path as it runs: a device of two zones written in chunks, and the environment that
    encodes, flushes and reloads the file table.  The bytes on the device are those of the log. */
module MetaEnv {
  import opened Layout
  import opened MetaCodec
  import opened MetaLog

  const MAX_WRITE_NLB: nat := 64
  const MAX_READ_NLB: nat := 128
  const ZONE_BYTES: nat := 100663296

  /** What reading a zone returns: unwritten sectors read as zeros. */
  function ZoneImage(data: seq<Byte>): seq<Byte>
    requires |data| <= ZONE_BYTES
  {
    data + Zeros(ZONE_BYTES - |data|)
  }

  class MetaDevice {
    var data: seq<seq<Byte>>
    var cur: nat

    ghost predicate Valid()
      reads this
    {
      |data| == 2 && cur < 2 &&
      forall z :: 0 <= z < 2 ==> |data[z]| % SECTOR == 0 && |data[z]| < ZONE_BYTES
    }

    constructor ()
      ensures Valid() && data == [[], []] && cur == 0
    {
      data, cur := [[], []], 0;
    }

    /** get_curr_metadata_zone: the first zone that is not full becomes current. */
    method Init()
      requires |data| == 2
      modifies this`cur
      ensures cur < 2 && (|data[cur]| < ZONE_BYTES || (cur == 0 && |data[1]| >= ZONE_BYTES))
      ensures forall z :: 0 <= z < cur ==> |data[z]| >= ZONE_BYTES
    {
      var z := 0;
      while z < 2
        invariant 0 <= z <= 2 && forall y :: 0 <= y < z ==> |data[y]| >= ZONE_BYTES
      {
        if |data[z]| < ZONE_BYTES {
          cur := z;
          return;
        }
        z := z + 1;
      }
      cur := 0;
    }

    /** zrocks_switch_zone: the first zone that is not the given one becomes current and is reset. */
    method SwitchZone(z: nat)
      requires Valid() && z < 2
      modifies this
      ensures Valid() && cur == 1 - z && data == old(data)[1 - z := []]
    {
      var id := 0;
      while id < 2
        invariant 0 <= id <= 1 && (id == 1 ==> z == 0) && data == old(data) && Valid()
      {
        if id != z {
          cur := id;
          data := data[id := []];
          return;
        }
        id := id + 1;
      }
    }

    /** zrocks_write_file_metadata: refuses, and switches zones, when the buffer would reach the last
        sector of the zone; otherwise the zone grows by exactly the buffer. */
    method Write(buf: seq<Byte>) returns (full: bool)
      requires Valid() && |buf| % SECTOR == 0
      modifies this
      ensures Valid()
      ensures full <==> |old(data)[old(cur)]| / SECTOR + |buf| / SECTOR >= META_SECTORS
      ensures full ==> cur == 1 - old(cur) && data == old(data)[cur := []]
      ensures !full ==> cur == old(cur) && data == old(data)[cur := old(data)[cur] + buf]
    {
      if |data[cur]| / SECTOR + |buf| / SECTOR >= META_SECTORS {
        SwitchZone(cur);
        return true;
      }
      var done: nat := 0;
      var maxLen := MAX_WRITE_NLB * SECTOR;
      while done < |buf|
        invariant done <= |buf| && done % SECTOR == 0 && cur == old(cur) && |data| == 2
        invariant data[cur] == old(data)[cur] + buf[..done] && data[1 - cur] == old(data)[1 - cur]
        decreases |buf| - done
      {
        var len := if |buf| - done > maxLen then maxLen else |buf| - done;
        SliceJoin(buf, 0, done, done + len);
        ConcatAssoc(old(data)[cur], buf[..done], buf[done..done + len]);
        data := data[cur := data[cur] + buf[done..done + len]];
        done := done + len;
      }
      assert buf[..|buf|] == buf && data == old(data)[cur := old(data)[cur] + buf];
      return false;
    }

    /** The write of a snapshot, repeated once on the other zone if the first was full.  A buffer that
        does not fit an empty zone empties both. */
    method WriteSnapshot(buf: seq<Byte>)
      requires Valid() && |buf| % SECTOR == 0
      modifies this
      ensures Valid()
      ensures |old(data)[old(cur)]| / SECTOR + |buf| / SECTOR < META_SECTORS ==>
        cur == old(cur) && data == old(data)[cur := old(data)[cur] + buf]
      ensures |old(data)[old(cur)]| / SECTOR + |buf| / SECTOR >= META_SECTORS && |buf| / SECTOR < META_SECTORS ==>
        cur == 1 - old(cur) && data == old(data)[cur := buf]
      ensures |buf| / SECTOR >= META_SECTORS ==> cur == old(cur) && data == [[], []]
    {
      var full := Write(buf);
      if full {
        full := Write(buf);
        assert [] + buf == buf;
      }
    }

    /** zrocks_read_metadata: sectors in chunks of at most 128. */
    method Read(z: nat, slba: nat, length: nat) returns (bytes: seq<Byte>)
      requires Valid() && z < 2 && length % SECTOR == 0 && slba * SECTOR + length <= ZONE_BYTES
      ensures bytes == ZoneImage(data[z])[slba * SECTOR..slba * SECTOR + length]
    {
      ghost var img := ZoneImage(data[z]);
      var left: nat, at: nat := length / SECTOR, slba;
      bytes := [];
      while left > 0
        invariant at + left == slba + length / SECTOR && slba <= at
        invariant bytes == img[slba * SECTOR..at * SECTOR]
        decreases left
      {
        var nlb := if left > MAX_READ_NLB then MAX_READ_NLB else left;
        SliceJoin(img, slba * SECTOR, at * SECTOR, (at + nlb) * SECTOR);
        bytes := bytes + ZoneImage(data[z])[at * SECTOR..(at + nlb) * SECTOR];
        left, at := left - nlb, at + nlb;
      }
    }
  }

  // ----- zones of records as bytes

  /** The junk a zone happened to be written with. */
  datatype ZoneJunk = ZoneJunk(head: seq<Byte>, recs: seq<Junk>)

  /** The device bytes of a zone of the log. */
  ghost predicate Holds(data: seq<Byte>, z: Zone, j: ZoneJunk) {
    if z.valid then
      |j.head| == SECTOR - 5 && |j.recs| == |z.recs| &&
      (forall i :: 0 <= i < |z.recs| ==> RecordFits(z.recs[i]) && JunkOk(z.recs[i], j.recs[i])) &&
      data == EncZoneHead(z.number, j.head) + EncRecords(z.recs, j.recs)
    else data == []
  }

  lemma {:induction false} HeldLength(data: seq<Byte>, z: Zone, j: ZoneJunk, sequence: nat)
    requires Holds(data, z, j) && ZoneOk(z, sequence)
    ensures |data| == z.used * SECTOR
  {
    if z.valid {
      hide EncZoneHead, RecordFits, EncRecords, Sectors, Writable;
      EncodedLength(z.recs, j.recs);
    }
  }

  lemma {:induction false} HeldAppend(data: seq<Byte>, z: Zone, j: ZoneJunk, r: Record, junk: Junk)
    requires Holds(data, z, j) && z.valid && RecordFits(r) && JunkOk(r, junk)
    ensures Holds(data + EncRecord(r, junk), z.(recs := z.recs + [r], used := z.used + Sectors(r)),
                  j.(recs := j.recs + [junk]))
  {
    hide EncZoneHead, RecordFits, EncRecord, EncRecords, Sectors;
    EncRecordsAppend(z.recs, j.recs, r, junk);
    ConcatAssoc(EncZoneHead(z.number, j.head), EncRecords(z.recs, j.recs), EncRecord(r, junk));
  }

  lemma {:induction false} HeldSnapshot(number: nat, base: Record, head: seq<Byte>, junk: Junk)
    requires RecordFits(base) && JunkOk(base, junk) && |head| == SECTOR - 5
    ensures Holds(EncZoneHead(number, head) + EncRecord(base, junk),
                  Zone(true, number, [base], 1 + Sectors(base)), ZoneJunk(head, [junk]))
  {
    hide EncZoneHead, RecordFits, EncRecord, Sectors;
    EncRecordsAppend([], [], base, junk);
    assert [] + [base] == [base] && [] + [junk] == [junk];
    assert EncRecords([], []) == [];
  }

  /** The device holds the bytes of the log. */
  ghost predicate Tied(data: seq<seq<Byte>>, cur: nat, log: Log, junks: seq<ZoneJunk>) {
    |data| == 2 && |junks| == 2 && |log.zones| == 2 && log.cur == cur < 2 &&
    Holds(data[0], log.zones[0], junks[0]) && Holds(data[1], log.zones[1], junks[1])
  }

  /** Rewriting the current zone of the device and of the log alike. */
  lemma {:induction false} TiedPut(data: seq<seq<Byte>>, cur: nat, log: Log, junks: seq<ZoneJunk>, d: seq<Byte>,
                                   z: Zone, j: ZoneJunk, log': Log)
    requires Tied(data, cur, log, junks) && Holds(d, z, j)
    requires log'.cur == cur && |log.zones| == 2 && cur < 2 && log'.zones == log.zones[cur := z]
    ensures |data| == 2 && |junks| == 2 && Tied(data[cur := d], cur, log', junks[cur := j])
  {
    hide Holds;
  }

  /** Emptying a zone that is, or becomes, the current one. */
  lemma {:induction false} TiedEmpty(data: seq<seq<Byte>>, cur: nat, log: Log, junks: seq<ZoneJunk>, z: nat, log': Log)
    requires Tied(data, cur, log, junks) && z < 2 && |log.zones| == 2
    requires log'.cur == z && log'.zones == log.zones[z := EMPTY]
    ensures |data| == 2 && Tied(data[z := []], z, log', junks)
  {
    assert Holds([], EMPTY, junks[z]);
    hide Holds;
  }

  lemma {:induction false} TiedShape(data: seq<seq<Byte>>, cur: nat, log: Log, junks: seq<ZoneJunk>)
    requires Tied(data, cur, log, junks)
    ensures |data| == 2 && |junks| == 2 && |log.zones| == 2 && log.cur == cur < 2
    ensures Holds(data[cur], log.zones[cur], junks[cur])
  {
    hide Holds;
  }

  // ----- snapshots

  ghost predicate CanSnapshot(files: Files, keys: seq<Name>) {
    (forall i :: 0 <= i < |keys| ==> keys[i] in files) && RecordFits(Base(Snapshot(files, keys)))
  }

  /** Padding for the snapshot of the files of `keys`. */
  predicate SnapshotJunk(keys: seq<Name>, junk: Junk) {
    |junk.head| == 3 && FileJunk(junk.files, |keys|)
  }

  function SnapshotBuffer(files: Files, sequence: nat, keys: seq<Name>, head: seq<Byte>, junk: Junk): seq<Byte>
    requires CanSnapshot(files, keys) && |head| == SECTOR - 5 && SnapshotJunk(keys, junk)
  {
    EncZoneHead(sequence, head) + EncRecord(Base(Snapshot(files, keys)), junk)
  }

  /** The zone a snapshot makes. */
  ghost function SnapshotZone(files: Files, sequence: nat, keys: seq<Name>): Zone
    requires CanSnapshot(files, keys)
  {
    var base := Base(Snapshot(files, keys));
    Zone(true, sequence, [base], 1 + Sectors(base))
  }

  lemma {:induction false} SnapshotStep(log: Log, keys: seq<Name>)
    requires Enabled(log, TakeSnapshot(keys))
    ensures CanSnapshot(log.files, keys) && |log.zones| == 2 && log.cur < 2
    ensures var log' := After(log, TakeSnapshot(keys));
      log'.cur == log.cur && log'.zones == log.zones[log.cur := SnapshotZone(log.files, log.sequence, keys)] &&
      log'.files == MarkFlushed(log.files) && log'.sequence == log.sequence + 1 && log'.phase == Idle
  {
    hide NamesAgree, Sectors, RecordFits, RecordOk, MarkFlushed;
  }

  lemma {:induction false} SnapshotHeld(files: Files, sequence: nat, keys: seq<Name>, head: seq<Byte>, junk: Junk)
    requires CanSnapshot(files, keys) && |head| == SECTOR - 5 && SnapshotJunk(keys, junk)
    ensures Holds(SnapshotBuffer(files, sequence, keys, head, junk), SnapshotZone(files, sequence, keys),
                  ZoneJunk(head, [junk]))
  {
    hide Holds, RecordFits, EncRecord, EncZoneHead, Sectors, Snapshot;
    HeldSnapshot(sequence, Base(Snapshot(files, keys)), head, junk);
  }

  lemma {:induction false} SnapshotLength(files: Files, sequence: nat, keys: seq<Name>, head: seq<Byte>, junk: Junk)
    requires CanSnapshot(files, keys) && SnapshotFits(files, keys) && |head| == SECTOR - 5 && SnapshotJunk(keys, junk)
    ensures var buf := SnapshotBuffer(files, sequence, keys, head, junk);
      |buf| % SECTOR == 0 && |buf| / SECTOR < META_SECTORS
  {
    hide RecordFits, EncRecord, EncZoneHead, Sectors, Snapshot, Writable, Enumerates;
    SectorsOk(Base(Snapshot(files, keys)), junk);
  }

  /** A snapshot fits the freshly reset zone. */
  lemma {:induction false} SnapshotRoom(data: seq<seq<Byte>>, cur: nat, log: Log, junks: seq<ZoneJunk>, keys: seq<Name>,
                     head: seq<Byte>, junk: Junk)
    requires Sound(log) && Tied(data, cur, log, junks) && Enabled(log, TakeSnapshot(keys))
    requires CanSnapshot(log.files, keys) && |head| == SECTOR - 5 && SnapshotJunk(keys, junk)
    ensures |data| == 2 && |junks| == 2 && cur < 2 && data[cur] == []
    ensures var buf := SnapshotBuffer(log.files, log.sequence, keys, head, junk);
      |buf| % SECTOR == 0 && |buf| / SECTOR < META_SECTORS
  {
    assert log.zones[log.cur] == EMPTY && SnapshotFits(log.files, keys);
    TiedShape(data, cur, log, junks);
    hide Sound, Tied, CanSnapshot, SnapshotBuffer, SnapshotFits, Enabled, NamesAgree;
    SnapshotLength(log.files, log.sequence, keys, head, junk);
  }

  // ----- records

  /** The fullness test of the device is the one of the log. */
  lemma {:induction false} AppendLengths(data: seq<seq<Byte>>, cur: nat, log: Log, junks: seq<ZoneJunk>, junk: Junk)
    requires Sound(log) && Tied(data, cur, log, junks) && log.phase.Writing? && JunkOk(log.phase.r, junk)
    ensures |data| == 2 && |junks| == 2 && cur < 2 && Writable(log.phase.r)
    ensures RecordFits(log.phase.r) && |EncRecord(log.phase.r, junk)| % SECTOR == 0
    ensures var full := |data[cur]| / SECTOR + |EncRecord(log.phase.r, junk)| / SECTOR >= META_SECTORS;
      (full ==> Enabled(log, Switch)) && (!full <==> Enabled(log, Append))
  {
    hide Holds, Replay, ReplayOne, RecordFits, RecordOk;
    hide EncRecord, Sectors, SameTable, NamesAgree, Flushed, StaleWithin;
    var r := log.phase.r;
    assert Writable(r);
    SectorsOk(r, junk);
    HeldLength(data[cur], log.zones[cur], junks[cur], log.sequence);
  }

  lemma {:induction false} AppendStep(log: Log)
    requires Sound(log) && Enabled(log, Append)
    ensures |log.zones| == 2 && log.cur < 2 && log.zones[log.cur].valid
    ensures var log', z, r := After(log, Append), log.zones[log.cur], log.phase.r;
      log'.cur == log.cur &&
      log'.zones == log.zones[log.cur := z.(recs := z.recs + [r], used := z.used + Sectors(r))] &&
      log'.files == log.files && log'.sequence == log.sequence && log'.phase == Idle
  {
    hide Replay, ReplayOne, SameTable, NamesAgree, Flushed, StaleWithin, Writable, Sectors, ZoneOk;
  }

  /** A record that fits the current zone. */
  lemma {:induction false} TiedAppend(data: seq<seq<Byte>>, cur: nat, log: Log, junks: seq<ZoneJunk>, junk: Junk)
    requires Sound(log) && Tied(data, cur, log, junks) && Enabled(log, Append)
    requires log.phase.Writing? && RecordFits(log.phase.r) && JunkOk(log.phase.r, junk)
    requires |data| == 2 && |junks| == 2 && cur < 2
    ensures Tied(data[cur := data[cur] + EncRecord(log.phase.r, junk)], cur, After(log, Append),
                 junks[cur := junks[cur].(recs := junks[cur].recs + [junk])])
  {
    hide Sound, Tied, Holds, After, Enabled, Sectors, RecordFits, EncRecord;
    AppendStep(log);
    TiedShape(data, cur, log, junks);
    var z, j, r := log.zones[cur], junks[cur], log.phase.r;
    HeldAppend(data[cur], z, j, r, junk);
    TiedPut(data, cur, log, junks, data[cur] + EncRecord(r, junk),
            z.(recs := z.recs + [r], used := z.used + Sectors(r)), j.(recs := j.recs + [junk]), After(log, Append));
  }

  // ----- switches

  lemma {:induction false} SwitchStep(log: Log)
    requires Enabled(log, Switch)
    ensures |log.zones| == 2 && log.cur < 2
    ensures var log' := After(log, Switch);
      log'.cur == 1 - log.cur && log'.zones == log.zones[1 - log.cur := EMPTY] && log'.files == log.files &&
      log'.sequence == log.sequence && log'.phase == Snapshotting
  {
    hide Sectors;
  }

  /** LoadMetaData keeps the winning zone and resets the other. */
  lemma {:induction false} RebootStep(log: Log)
    requires Sound(log)
    ensures |log.zones| == 2
    ensures var log' := After(log, Reboot);
      log'.files == Recovered(log.zones) && log'.phase == Snapshotting &&
      if log.zones[0].valid || log.zones[1].valid then
        var w := Winner(log.zones);
        log'.cur == 1 - w && log'.zones == log.zones[1 - w := EMPTY] && log'.sequence == log.zones[w].number + 1
      else log'.cur == 0 && log'.zones == log.zones[0 := EMPTY] && log'.sequence == 0
  {
    hide Replay, SameTable, NamesAgree, Flushed, StaleWithin, Writable, Sectors, ReplayOne;
    if !log.zones[0].valid {
      assert log.zones[0] == EMPTY;
      assert log.zones[0 := EMPTY] == log.zones;
    }
  }

  class ZnsEnv {
    const dev: MetaDevice
    var sequence: nat
    var files: Files
    ghost var log: Log
    ghost var junks: seq<ZoneJunk>

    /** The device holds the bytes of the log, and memory is that of the log. */
    ghost predicate Valid()
      reads this, dev
    {
      dev.Valid() && Sound(log) && Tied(dev.data, dev.cur, log, junks) && log.files == files && log.sequence == sequence
    }

    constructor (dev: MetaDevice)
      requires dev.Valid() && dev.data == [[], []] && dev.cur == 0
      ensures this.dev == dev && Valid() && log == FRESH_DEVICE
    {
      this.dev := dev;
      sequence, files := 0, map[];
      log, junks := FRESH_DEVICE, [ZoneJunk([], []), ZoneJunk([], [])];
      new;
      InitInv();
    }

    /** FlushMetaData on the freshly reset zone: the head and a Base record of the whole table. */
    method FlushMetaData(keys: seq<Name>, head: seq<Byte>, junk: Junk)
      requires Valid() && Enabled(log, TakeSnapshot(keys)) && |head| == SECTOR - 5 && SnapshotJunk(keys, junk)
      modifies this, dev
      ensures Valid() && log == After(old(log), TakeSnapshot(keys))
    {
      SnapshotStep(log, keys);
      SnapshotSound(log, keys);
      SnapshotRoom(dev.data, dev.cur, log, junks, keys, head, junk);
      TiedShape(dev.data, dev.cur, log, junks);
      hide Sound, Tied, MarkFlushed, After, Enabled, CanSnapshot, SnapshotBuffer, SnapshotZone, Holds;
      var buf := SnapshotBuffer(files, sequence, keys, head, junk);
      SnapshotHeld(files, sequence, keys, head, junk);
      TiedPut(dev.data, dev.cur, log, junks, buf, SnapshotZone(files, sequence, keys), ZoneJunk(head, [junk]),
              After(log, TakeSnapshot(keys)));
      dev.WriteSnapshot(buf);
      assert [] + buf == buf;
      junks := junks[dev.cur := ZoneJunk(head, [junk])];
      log := After(log, TakeSnapshot(keys));
      files := MarkFlushed(files);
      sequence := sequence + 1;
    }

    /** The common end of the Flush functions: write the record, or switch zones and take a snapshot. */
    method FlushRecord(r: Record, keys: seq<Name>, head: seq<Byte>, junk: Junk, baseJunk: Junk)
      requires Valid() && log.phase.Writing? && log.phase.r == r && SnapshotIfFull(log, r, files, keys)
      requires |head| == SECTOR - 5 && JunkOk(r, junk) && SnapshotJunk(keys, baseJunk)
      modifies this, dev
      ensures Valid() && FlushedTo(old(log), log, keys)
    {
      hide Sound, Tied, RecordFits, EncRecord, After, SnapshotIfFull, Enabled, FlushedTo;
      ghost var log', junks', fits := FlushPlan(dev.data, dev.cur, log, junks, junk, keys);
      var full := dev.Write(EncRecord(r, junk));
      log, junks := log', junks';
      if full {
        FlushMetaData(keys, head, baseJunk);
      }
    }

    /** NewWritableFile, the end of an Append, Truncate and SetWriteLifeTimeHint: nothing reaches the device. */
    method PerformQuiet(op: Op)
      requires Valid() && Enabled(log, Begin(op)) && Quiet(op)
      modifies this
      ensures Valid() && files == Mutate(old(files), op) && log.zones == old(log.zones)
      ensures old(Inv(log)) ==> Inv(log)
    {
      StepSound(log, Begin(op));
      if Inv(log) {
        BeginInv(log, op);
      }
      hide Sound, Inv, Holds, Mutate, OpAllowed;
      files := Mutate(files, op);
      log := After(log, Begin(op));
    }

    /** DeleteFile, RenameFile, Sync and MigrateNodeFile: change the table, then log the change. */
    method Perform(op: Op, keys: seq<Name>, head: seq<Byte>, junk: Junk, baseJunk: Junk)
      requires Valid() && Enabled(log, Begin(op)) && !Quiet(op)
      requires SnapshotIfFull(log, Logged(files, op), Mutate(files, op), keys)
      requires |head| == SECTOR - 5 && JunkOk(Logged(files, op), junk) && SnapshotJunk(keys, baseJunk)
      modifies this, dev
      ensures Valid() && log.phase == Idle && SameTable(files, Mutate(old(files), op))
      ensures old(Inv(log)) ==> Inv(log) && SameTable(Recovered(log.zones), Mutate(old(files), op))
    {
      StepSound(log, Begin(op));
      ghost var kept := Inv(log);
      if kept {
        BeginInv(log, op);
      }
      var r := Logged(files, op);
      files := Mutate(files, op);
      log := After(log, Begin(op));
      hide Sound, Inv, Tied, Holds, Mutate, SnapshotFits, SameTable, Recovered, Replay, Sectors;
      ghost var begun := log;
      FlushRecord(r, keys, head, junk, baseJunk);
      FlushedTable(begun, log, keys);
      if kept {
        FlushedInv(begun, log, keys);
      }
    }

    /** The search over the zone heads. */
    method BestZone(ghost zones: seq<Zone>, ghost js: seq<ZoneJunk>) returns (found: bool, best: nat, number: nat)
      requires dev.Valid() && |zones| == 2 && |js| == 2
      requires forall z :: 0 <= z < 2 ==> Holds(dev.data[z], zones[z], js[z]) && zones[z].number < 0x1_0000_0000
      ensures found <==> zones[0].valid || zones[1].valid
      ensures found ==> best == Winner(zones) && number == zones[best].number
    {
      hide Holds, Zeros, Dec;
      found, best, number := false, 0, 0;
      var z := 0;
      while z < 2
        invariant 0 <= z <= 2
        invariant z == 0 ==> !found
        invariant z == 1 ==> (found <==> zones[0].valid) && (found ==> best == 0 && number == zones[0].number)
        invariant z == 2 ==> (found <==> zones[0].valid || zones[1].valid)
        invariant z == 2 && found ==> best == Winner(zones) && number == zones[best].number
      {
        var sector := dev.Read(z, 0, SECTOR);
        HeadOf(dev.data[z], zones[z], js[z]);
        if sector[0] == MAGIC {
          var n := Dec(sector[4..8]);
          if !found || n >= number {
            best, number := z, n;
          }
          found := true;
        }
        z := z + 1;
      }
    }

    /** The zones are searched, and the best one read and replayed. */
    method Replayed() returns (found: bool, best: nat, number: nat, table: Files)
      requires dev.Valid() && Sound(log) && Tied(dev.data, log.cur, log, junks) && log.sequence <= 0x1_0000_0000
      ensures |log.zones| == 2 && table == Recovered(log.zones)
      ensures found <==> log.zones[0].valid || log.zones[1].valid
      ensures found ==> best == Winner(log.zones) && number == log.zones[best].number
    {
      hide Holds, Replay, Ends, Parse;
      found, best, number := BestZone(log.zones, junks);
      table := map[];
      if found {
        var image := dev.Read(best, 0, ZONE_BYTES);
        BestZoneLoads(dev.data[best], log.zones[best], junks[best], log.sequence, image);
        var records := LoadZone(image);
        table := ReplayAll(records);
      }
    }

    /** LoadMetaData on whatever the device holds after power was lost: finds the valid zone with the
        greatest sequence number, replays it, and writes a snapshot to the other zone.  Memory always
        gets the table the device held.  The device then holds it too exactly when every file with
        pieces was replayed under its own name. */
    method LoadMetaData(keys: seq<Name>, head: seq<Byte>, junk: Junk)
      requires dev.Valid() && Sound(log) && Tied(dev.data, log.cur, log, junks) && |log.zones| == 2
      requires log.sequence <= 0x1_0000_0000 && |head| == SECTOR - 5 && SnapshotJunk(keys, junk)
      requires SnapshotFits(Recovered(log.zones), keys)
      modifies this, dev
      ensures Valid() && log.phase == Idle && SameTable(files, Recovered(old(log).zones))
      ensures OwnNamed(Recovered(old(log).zones)) ==> SameTable(Recovered(log.zones), files)
      ensures DisjointFiles(Recovered(old(log).zones)) && SameTable(Recovered(log.zones), files) ==>
        OwnNamed(Recovered(old(log).zones))
      ensures old(Inv(log)) && NamesAgree(Recovered(old(log).zones)) ==> Inv(log)
    {
      hide Sound, Inv, Tied, Holds, SnapshotFits, Recovered;
      hide NamesAgree, After, Enabled, SameTable, OwnNamed, DisjointFiles;
      ghost var before := log;
      ghost var booted := RebootPlan(dev.data, log, junks, keys);
      var found, best, number, table := Replayed();
      assert |dev.data[0]| < ZONE_BYTES;
      dev.Init();
      sequence, files := 0, table;
      if found {
        dev.SwitchZone(best);
        sequence := number + 1;
      }
      log := booted;
      FlushMetaData(keys, head, junk);
      LoadedTables(before, booted, log, keys);
    }
  }

  /** The log after a restart, and the device it is tied to. */
  lemma {:induction false} RebootPlan(data: seq<seq<Byte>>, log: Log, junks: seq<ZoneJunk>, keys: seq<Name>)
      returns (booted: Log)
    requires Sound(log) && Tied(data, log.cur, log, junks) && |log.zones| == 2
    requires SnapshotFits(Recovered(log.zones), keys)
    ensures Enabled(log, Reboot) && booted == After(log, Reboot)
    ensures |data| == 2 && Sound(booted) && Enabled(booted, TakeSnapshot(keys)) && booted.files == Recovered(log.zones)
    ensures log.zones[0].valid || log.zones[1].valid ==>
      var w := Winner(log.zones);
      booted.sequence == log.zones[w].number + 1 && Tied(data[1 - w := []], 1 - w, booted, junks)
    ensures !(log.zones[0].valid || log.zones[1].valid) ==> booted.sequence == 0 && Tied(data, 0, booted, junks)
  {
    RebootStep(log);
    RestartTable(log);
    StepSound(log, Reboot);
    TiedShape(data, log.cur, log, junks);
    booted := After(log, Reboot);
    var w := Winner(log.zones);
    var z := if log.zones[0].valid || log.zones[1].valid then 1 - w else 0;
    TiedEmpty(data, log.cur, log, junks, z, booted);
    if !log.zones[0].valid && !log.zones[1].valid {
      assert data[0] == [];
      assert data[0 := []] == data;
    }
    hide Sound, Tied, Holds, SnapshotFits, Recovered, SameTable, Winner, After;
  }

  /** What a restart and its snapshot leave in memory and on the device. */
  lemma {:induction false} LoadedTables(before: Log, booted: Log, log: Log, keys: seq<Name>)
    requires Sound(before) && |before.zones| == 2 && Enabled(before, Reboot) && booted == After(before, Reboot)
    requires Sound(booted) && booted.files == Recovered(before.zones)
    requires Enabled(booted, TakeSnapshot(keys)) && log == After(booted, TakeSnapshot(keys))
    ensures log.phase == Idle && |log.zones| == 2 && SameTable(log.files, Recovered(before.zones))
    ensures OwnNamed(Recovered(before.zones)) ==> SameTable(Recovered(log.zones), log.files)
    ensures DisjointFiles(Recovered(before.zones)) && SameTable(Recovered(log.zones), log.files) ==>
      OwnNamed(Recovered(before.zones))
    ensures Inv(before) && NamesAgree(Recovered(before.zones)) ==> Inv(log)
  {
    hide Sound, Inv, Recovered, NamesAgree, After, Enabled, SameTable, OwnNamed, DisjointFiles, Enumerates, ReplayFiles;
    var files := Recovered(before.zones);
    SnapshotStep(booted, keys);
    SnapshotWins(booted, keys);
    if OwnNamed(files) {
      SnapshotReplays(files, keys);
      SameTableReflexive(files);
      SameTableTransitive(log.files, files, files);
      SameTableTransitive(Recovered(log.zones), files, log.files);
    }
    if DisjointFiles(files) && SameTable(Recovered(log.zones), log.files) {
      SameTableTransitive(Recovered(log.zones), log.files, files);
      SnapshotFaithfulIff(files, keys);
    }
    if Inv(before) && NamesAgree(files) {
      RebootInv(before);
      SnapshotInv(booted, keys);
    }
  }

  /** A table whose snapshot is needed, because the zone is full, fits a zone. */
  ghost predicate SnapshotIfFull(log: Log, r: Record, files: Files, keys: seq<Name>) {
    |log.zones| == 2 && log.cur < 2 &&
    (log.zones[log.cur].used + Sectors(r) >= META_SECTORS ==> SnapshotFits(files, keys))
  }

  /** How a flush leaves the log: the record appended, or a snapshot in the other zone. */
  ghost predicate FlushedTo(before: Log, after: Log, keys: seq<Name>) {
    if Enabled(before, Append) then after == After(before, Append)
    else
      Enabled(before, Switch) && Enabled(After(before, Switch), TakeSnapshot(keys)) &&
      after == After(After(before, Switch), TakeSnapshot(keys))
  }

  lemma {:induction false} FlushedToCases(log: Log, keys: seq<Name>)
    requires log.phase.Writing? && SnapshotIfFull(log, log.phase.r, log.files, keys)
    ensures Enabled(log, Append) ==> FlushedTo(log, After(log, Append), keys)
    ensures Enabled(log, Switch) ==>
      var log' := After(log, Switch);
      Enabled(log', TakeSnapshot(keys)) && FlushedTo(log, After(log', TakeSnapshot(keys)), keys)
  {
    hide NamesAgree, SnapshotFits, Sectors;
  }

  /** What the log becomes when its record is written: appended, or the zones switched. */
  lemma {:induction false} FlushPlan(data: seq<seq<Byte>>, cur: nat, log: Log, junks: seq<ZoneJunk>, junk: Junk,
                                     keys: seq<Name>)
      returns (log': Log, junks': seq<ZoneJunk>, fits: bool)
    requires Sound(log) && Tied(data, cur, log, junks) && log.phase.Writing? && JunkOk(log.phase.r, junk)
    requires SnapshotIfFull(log, log.phase.r, log.files, keys)
    ensures |data| == 2 && cur < 2 && RecordFits(log.phase.r) && |EncRecord(log.phase.r, junk)| % SECTOR == 0
    ensures fits <==> |data[cur]| / SECTOR + |EncRecord(log.phase.r, junk)| / SECTOR < META_SECTORS
    ensures Sound(log') && log'.files == log.files && log'.sequence == log.sequence
    ensures fits ==> Tied(data[cur := data[cur] + EncRecord(log.phase.r, junk)], cur, log', junks')
    ensures fits ==> FlushedTo(log, log', keys)
    ensures !fits ==> Tied(data[1 - cur := []], 1 - cur, log', junks')
    ensures !fits ==> Enabled(log', TakeSnapshot(keys)) && FlushedTo(log, After(log', TakeSnapshot(keys)), keys)
  {
    AppendLengths(data, cur, log, junks, junk);
    TiedShape(data, cur, log, junks);
    hide *;
    FlushedToCases(log, keys);
    fits := |data[cur]| / SECTOR + |EncRecord(log.phase.r, junk)| / SECTOR < META_SECTORS;
    if fits {
      AppendStep(log);
      StepSound(log, Append);
      TiedAppend(data, cur, log, junks, junk);
      log', junks' := After(log, Append), junks[cur := junks[cur].(recs := junks[cur].recs + [junk])];
    } else {
      SwitchStep(log);
      StepSound(log, Switch);
      TiedEmpty(data, cur, log, junks, 1 - cur, After(log, Switch));
      log', junks' := After(log, Switch), junks;
    }
  }

  method ReplayAll(records: seq<Record>) returns (files: Files)
    ensures files == Replay(records)
  {
    hide ReplayOne;
    files := map[];
    var i := 0;
    while i < |records|
      invariant 0 <= i <= |records| && files == Replay(records[..i])
    {
      ReplayAppend(records[..i], records[i]);
      assert records[..i] + [records[i]] == records[..i + 1];
      files := ReplayOne(files, records[i]);
      i := i + 1;
    }
    assert records[..|records|] == records;
  }

  /** What the first sector of a zone tells. */
  lemma {:induction false} HeadOf(data: seq<Byte>, z: Zone, j: ZoneJunk)
    requires Holds(data, z, j) && |data| < ZONE_BYTES && z.number < 0x1_0000_0000
    ensures var sector := ZoneImage(data)[0 * SECTOR..0 * SECTOR + SECTOR];
      (sector[0] == MAGIC <==> z.valid) && (z.valid ==> Dec(sector[4..8]) == z.number)
  {
    var sector := ZoneImage(data)[0 * SECTOR..0 * SECTOR + SECTOR];
    if z.valid {
      hide EncZoneHead, EncRecords, Zeros;
      ZoneHeadRoundTripIff(z.number, j.head);
      assert sector == EncZoneHead(z.number, j.head);
    } else {
      assert ZoneImage(data)[0] == 0;
    }
  }

  /** The rest of a valid zone parses to its records. */
  lemma {:induction false} BestZoneLoads(data: seq<Byte>, z: Zone, j: ZoneJunk, sequence: nat, image: seq<Byte>)
    requires z.valid && ZoneOk(z, sequence) && Holds(data, z, j) && |data| < ZONE_BYTES
    requires image == ZoneImage(data)[0 * SECTOR..0 * SECTOR + ZONE_BYTES]
    ensures |image| >= SECTOR && Ends(image[SECTOR..]) && Parse(image[SECTOR..]) == z.recs
  {
    HeldLength(data, z, j, sequence);
    ZoneLoads(z, sequence, j.recs);
    hide EncZoneHead, EncRecords, Zeros, Ends, Parse, RecordFits;
    var rest := EncRecords(z.recs, j.recs) + Zeros((META_SECTORS - z.used) * SECTOR);
    assert image == EncZoneHead(z.number, j.head) + rest;
    assert image[SECTOR..] == rest;
  }

  lemma {:induction false} SameTableTransitive(a: Files, b: Files, c: Files)
    requires SameTable(a, b) && SameTable(b, c)
    ensures SameTable(a, c) && SameTable(b, a)
  {
    forall k ensures Pieces(a, k) == Pieces(c, k) {
      assert Pieces(a, k) == Pieces(b, k) && Pieces(b, k) == Pieces(c, k);
    }
  }

  /** Whichever way the record went, memory holds the table of the operation. */
  lemma {:induction false} FlushedTable(begun: Log, log: Log, keys: seq<Name>)
    requires FlushedTo(begun, log, keys)
    ensures log.phase == Idle && |log.zones| == 2 && SameTable(log.files, begun.files)
  {
    MarkFlushedTable(begun.files);
    SameTableReflexive(begun.files);
    hide Sectors, SnapshotFits, SameTable, MarkFlushed, Snapshot;
  }

  /** If the log was consistent, it still is, and the device holds that table too. */
  lemma {:induction false} FlushedInv(begun: Log, log: Log, keys: seq<Name>)
    requires Inv(begun) && FlushedTo(begun, log, keys)
    ensures Inv(log) && |log.zones| == 2 && SameTable(Recovered(log.zones), begun.files)
  {
    FlushedTable(begun, log, keys);
    hide Inv, Recovered, SameTable, After, Enabled;
    if Enabled(begun, Append) {
      AppendInv(begun);
    } else {
      SwitchInv(begun);
      SnapshotInv(After(begun, Switch), keys);
    }
    InvRecovers(log);
    SameTableTransitive(Recovered(log.zones), log.files, begun.files);
  }

  lemma {:induction false} SameTableReflexive(a: Files)
    ensures SameTable(a, a)
  {
  }

  /** A metadata zone is 96 MiB. */
  lemma {:induction false} MetaZoneSize()
    ensures ZONE_BYTES == META_SECTORS * 4096 == 96 * 1024 * 1024
  {
  }
}
