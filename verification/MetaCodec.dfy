/** The bytes of the metadata log: how records are encoded into sectors and decoded at start.

    Struct padding and the unused part of the zone head are whatever was in memory; they appear here
    as arbitrary `junk` bytes, and decoding must not depend on them. */
module MetaCodec {
  import opened Layout
  import opened Zrocks

  const NAME_LEN: nat := 128
  const HEAD_LEN: nat := 12
  const FILE_META_LEN: nat := 152
  const ENTRY_LEN: nat := 8

  // ----- little-endian integers

  function Pow256(k: nat): nat {
    if k == 0 then 1 else 256 * Pow256(k - 1)
  }

  function Enc(n: nat, k: nat): (s: seq<Byte>)
    ensures |s| == k
  {
    if k == 0 then [] else [n % 256] + Enc(n / 256, k - 1)
  }

  function Dec(s: seq<Byte>): nat {
    if s == [] then 0 else s[0] + 256 * Dec(s[1..])
  }

  lemma {:induction false} DecBound(s: seq<Byte>)
    ensures Dec(s) < Pow256(|s|)
  {
    if s != [] {
      DecBound(s[1..]);
    }
  }

  /** An integer survives the field it is stored in exactly when it fits. */
  lemma {:induction false} DecEncIff(n: nat, k: nat)
    ensures Dec(Enc(n, k)) == n <==> n < Pow256(k)
  {
    DecBound(Enc(n, k));
    if k > 0 {
      DecEncIff(n / 256, k - 1);
      assert Enc(n, k)[1..] == Enc(n / 256, k - 1);
    }
  }

  lemma {:induction false} Widths()
    ensures Pow256(4) == 0x1_0000_0000 && Pow256(8) == 0x1_0000_0000_0000_0000
  {
    assert Pow256(2) == 0x1_0000;
    assert Pow256(4) == 256 * (256 * Pow256(2));
    assert Pow256(6) == 256 * (256 * Pow256(4));
  }

  // ----- mapping entries

  function Pack(p: Piece): nat {
    p.node + p.start * 0x4000 + p.num * 0x10_0000_0000 + p.padding * 0x8000_0000_0000
  }

  function Unpack(w: nat): Piece {
    Piece(w % 0x4000, w / 0x4000 % 0x40_0000, w / 0x10_0000_0000 % 0x800, w / 0x8000_0000_0000 % 0x1_0000)
  }

  lemma {:induction false} Digit14(a: nat, b: nat)
    requires a < 0x4000
    ensures (a + b * 0x4000) / 0x4000 == b && (a + b * 0x4000) % 0x4000 == a
  {
  }

  lemma {:induction false} Digit22(a: nat, b: nat)
    requires a < 0x40_0000
    ensures (a + b * 0x40_0000) / 0x40_0000 == b && (a + b * 0x40_0000) % 0x40_0000 == a
  {
  }

  lemma {:induction false} Digit11(a: nat, b: nat)
    requires a < 0x800
    ensures (a + b * 0x800) / 0x800 == b && (a + b * 0x800) % 0x800 == a
  {
  }

  lemma {:induction false} Digit36(a: nat, b: nat)
    requires a < 0x10_0000_0000
    ensures (a + b * 0x10_0000_0000) / 0x10_0000_0000 == b
  {
  }

  lemma {:induction false} Digit47(a: nat, b: nat)
    requires a < 0x8000_0000_0000
    ensures (a + b * 0x8000_0000_0000) / 0x8000_0000_0000 == b
  {
  }

  lemma {:induction false} UnpackPack(p: Piece)
    requires Packable(p)
    ensures Unpack(Pack(p)) == p && Pack(p) < 0x8000_0000_0000_0000
  {
    var c := p.num + p.padding * 0x800;
    var b := p.start + c * 0x40_0000;
    var low := p.node + p.start * 0x4000;
    assert Pack(p) == p.node + b * 0x4000 == low + c * 0x10_0000_0000;
    assert Pack(p) == (low + p.num * 0x10_0000_0000) + p.padding * 0x8000_0000_0000;
    Digit14(p.node, b);
    Digit22(p.start, c);
    Digit11(p.num, p.padding);
    Digit36(low, c);
    Digit47(low + p.num * 0x10_0000_0000, p.padding);
  }

  function EncPieces(ps: seq<Piece>): (s: seq<Byte>)
    ensures |s| == ENTRY_LEN * |ps|
  {
    if ps == [] then [] else Enc(Pack(ps[0]), ENTRY_LEN) + EncPieces(ps[1..])
  }

  function DecPieces(s: seq<Byte>, n: nat): seq<Piece>
    requires ENTRY_LEN * n <= |s|
  {
    if n == 0 then [] else [Unpack(Dec(s[..ENTRY_LEN]))] + DecPieces(s[ENTRY_LEN..], n - 1)
  }

  lemma {:induction false} PiecesRoundTrip(ps: seq<Piece>, rest: seq<Byte>)
    requires forall i :: 0 <= i < |ps| ==> Packable(ps[i])
    ensures DecPieces(EncPieces(ps) + rest, |ps|) == ps
  {
    if ps != [] {
      var first, s := Enc(Pack(ps[0]), ENTRY_LEN), EncPieces(ps) + rest;
      UnpackPack(ps[0]);
      Widths();
      DecEncIff(Pack(ps[0]), ENTRY_LEN);
      assert s[..ENTRY_LEN] == first;
      assert s[ENTRY_LEN..] == EncPieces(ps[1..]) + rest;
      PiecesRoundTrip(ps[1..], rest);
    }
  }

  // ----- names

  function Zeros(n: nat): (s: seq<Byte>)
    ensures |s| == n
  {
    seq(n, _ => 0)
  }

  /** memcpy of the name into a zeroed field of 128 bytes. */
  function EncName(name: seq<Byte>): (s: seq<Byte>)
    requires |name| <= NAME_LEN
    ensures |s| == NAME_LEN
  {
    name + Zeros(NAME_LEN - |name|)
  }

  /** std::string built from a char pointer: up to the first NUL. */
  function CString(s: seq<Byte>): (r: seq<Byte>)
    ensures |r| <= |s|
  {
    if s == [] || s[0] == 0 then [] else [s[0]] + CString(s[1..])
  }

  /** A name survives exactly when it has no NUL. */
  lemma {:induction false} NameRoundTripIff(name: seq<Byte>, n: nat)
    ensures CString(name + Zeros(n)) == name <==> 0 !in name
  {
    if name == [] {
      assert name + Zeros(n) == Zeros(n);
    } else {
      NameRoundTripIff(name[1..], n);
      assert (name + Zeros(n))[1..] == name[1..] + Zeros(n);
      assert name == [name[0]] + name[1..];
    }
  }

  // ----- file metadata

  datatype FileRec = FileRec(name: seq<Byte>, level: int, size: nat, pieces: seq<Piece>)

  predicate FileFits(f: FileRec) {
    |f.name| < NAME_LEN && -128 <= f.level < 128 && f.size < 0x1_0000_0000_0000_0000 && |f.pieces| < 0x8000_0000
  }

  ghost predicate FileOk(f: FileRec) {
    FileFits(f) && 0 !in f.name && forall i :: 0 <= i < |f.pieces| ==> Packable(f.pieces[i])
  }

  /** ZNSFile::WriteMetaToBuf. */
  function EncFile(f: FileRec, junk: seq<Byte>): (s: seq<Byte>)
    requires FileFits(f) && |junk| == 11
    ensures |s| == FILE_META_LEN + ENTRY_LEN * |f.pieces|
  {
    [f.level % 256] + junk[..7] + Enc(f.size, 8) + Enc(|f.pieces|, 4) + EncName(f.name) + junk[7..] +
    EncPieces(f.pieces)
  }

  function PieceCount(s: seq<Byte>): nat
    requires |s| >= FILE_META_LEN
  {
    var n := Dec(s[16..20]);
    if n < 0x8000_0000 then n else 0
  }

  /** ZNSEnv::RecoverFileFromBuf: the file and the number of bytes parsed. */
  function DecFile(s: seq<Byte>): (FileRec, nat)
    requires |s| >= FILE_META_LEN && FILE_META_LEN + ENTRY_LEN * PieceCount(s) <= |s|
  {
    var n := PieceCount(s);
    (FileRec(CString(s[20..148]), if s[0] < 128 then s[0] else (s[0] as int) - 256, Dec(s[8..16]),
             DecPieces(s[FILE_META_LEN..], n)),
     FILE_META_LEN + ENTRY_LEN * n)
  }

  /** A field in the middle of a byte string. */
  lemma {:induction false} Field(a: seq<Byte>, b: seq<Byte>, c: seq<Byte>)
    ensures (a + b + c)[|a|..|a| + |b|] == b
    ensures (a + b + c)[|a| + |b|..] == c
  {
  }

  lemma {:induction false} FileFields(f: FileRec, junk: seq<Byte>, rest: seq<Byte>)
    requires FileFits(f) && |junk| == 11
    ensures var s := EncFile(f, junk) + rest;
      s[0] == f.level % 256 && s[8..16] == Enc(f.size, 8) && s[16..20] == Enc(|f.pieces|, 4) &&
      s[20..148] == EncName(f.name) && s[FILE_META_LEN..] == EncPieces(f.pieces) + rest
  {
    hide Enc, EncName, EncPieces;
    var s := EncFile(f, junk) + rest;
    var a := [f.level % 256] + junk[..7];
    var sz, n, nm, tail := Enc(f.size, 8), Enc(|f.pieces|, 4), EncName(f.name), EncPieces(f.pieces) + rest;
    assert s == a + sz + (n + nm + junk[7..] + tail);
    Field(a, sz, n + nm + junk[7..] + tail);
    assert s == (a + sz) + n + (nm + junk[7..] + tail);
    Field(a + sz, n, nm + junk[7..] + tail);
    assert s == (a + sz + n) + nm + (junk[7..] + tail);
    Field(a + sz + n, nm, junk[7..] + tail);
    assert s == (a + sz + n + nm) + junk[7..] + tail;
    Field(a + sz + n + nm, junk[7..], tail);
  }

  /** Decoding an encoded file gives it back and consumes exactly its bytes, whatever the junk and
      whatever follows. */
  lemma {:induction false} FileRoundTrip(f: FileRec, junk: seq<Byte>, rest: seq<Byte>)
    requires FileOk(f) && |junk| == 11
    ensures var s := EncFile(f, junk) + rest;
      PieceCount(s) == |f.pieces| && DecFile(s) == (f, |EncFile(f, junk)|)
  {
    hide Enc, Dec, EncPieces, DecPieces, CString, Zeros, EncFile;
    var s := EncFile(f, junk) + rest;
    FileFields(f, junk, rest);
    Widths();
    DecEncIff(f.size, 8);
    DecEncIff(|f.pieces|, 4);
    NameRoundTripIff(f.name, NAME_LEN - |f.name|);
    PiecesRoundTrip(f.pieces, rest);
  }

  /** The name is the only part of a fitting file that can be lost: the round trip holds exactly when
      it has no NUL. */
  lemma {:induction false} FileNameRoundTripIff(f: FileRec, junk: seq<Byte>, rest: seq<Byte>)
    requires FileFits(f) && |junk| == 11 && forall i :: 0 <= i < |f.pieces| ==> Packable(f.pieces[i])
    ensures var s := EncFile(f, junk) + rest;
      PieceCount(s) == |f.pieces| && (DecFile(s).0 == f <==> 0 !in f.name)
  {
    hide Enc, Dec, EncPieces, DecPieces, CString, Zeros, EncFile;
    FileFields(f, junk, rest);
    Widths();
    DecEncIff(|f.pieces|, 4);
    NameRoundTripIff(f.name, NAME_LEN - |f.name|);
    if 0 !in f.name {
      FileRoundTrip(f, junk, rest);
    }
  }

  // ----- records

  /** The five kinds of record, in the order of their tags. */
  datatype Record = Base(files: seq<FileRec>) | Update(f: FileRec) | Replace(src: seq<Byte>, dst: seq<Byte>)
                  | Delete(name: seq<Byte>) | GCChange(f: FileRec)
  {
    function Tag(): Byte {
      match this
      case Base(_) => 0
      case Update(_) => 1
      case Replace(_, _) => 2
      case Delete(_) => 3
      case GCChange(_) => 4
    }
  }

  predicate NameOk(name: seq<Byte>) {
    |name| < NAME_LEN && 0 !in name
  }

  ghost predicate RecordOk(r: Record) {
    match r
    case Base(files) => |files| < 0x1_0000 && forall i :: 0 <= i < |files| ==> FileOk(files[i])
    case Update(f) => FileOk(f)
    case Replace(src, dst) => NameOk(src) && NameOk(dst)
    case Delete(name) => NameOk(name)
    case GCChange(f) => FileOk(f)
  }

  /** What struct padding held when a record was built: in its head, and in each of its files. */
  datatype Junk = Junk(head: seq<Byte>, files: seq<seq<Byte>>)

  function FileCount(r: Record): nat {
    match r
    case Base(files) => |files|
    case Update(_) => 1
    case GCChange(_) => 1
    case _ => 0
  }

  predicate FileJunk(junks: seq<seq<Byte>>, n: nat) {
    |junks| == n && forall i :: 0 <= i < |junks| ==> |junks[i]| == 11
  }

  predicate JunkOk(r: Record, j: Junk) {
    |j.head| == 3 && FileJunk(j.files, FileCount(r))
  }

  function EncFiles(files: seq<FileRec>, junks: seq<seq<Byte>>): seq<Byte>
    requires FileJunk(junks, |files|) && forall i :: 0 <= i < |files| ==> FileFits(files[i])
  {
    if files == [] then [] else EncFile(files[0], junks[0]) + EncFiles(files[1..], junks[1..])
  }

  predicate CanDecFile(s: seq<Byte>) {
    |s| >= FILE_META_LEN && FILE_META_LEN + ENTRY_LEN * PieceCount(s) <= |s|
  }

  /** The file loop of a Base record. */
  function DecFiles(s: seq<Byte>, n: nat): seq<FileRec>
    decreases n
  {
    if n == 0 || !CanDecFile(s) then [] else [DecFile(s).0] + DecFiles(s[DecFile(s).1..], n - 1)
  }

  lemma {:induction false} FilesRoundTrip(files: seq<FileRec>, junks: seq<seq<Byte>>, rest: seq<Byte>)
    requires FileJunk(junks, |files|) && (forall i :: 0 <= i < |files| ==> FileFits(files[i]))
    requires forall i :: 0 <= i < |files| ==> FileOk(files[i])
    ensures DecFiles(EncFiles(files, junks) + rest, |files|) == files
  {
    hide EncFile, DecFile, FileOk, FileFits, PieceCount;
    if files != [] {
      var one, more := EncFile(files[0], junks[0]), EncFiles(files[1..], junks[1..]) + rest;
      var s := one + more;
      FilesRoundTrip(files[1..], junks[1..], rest);
      FileRoundTrip(files[0], junks[0], more);
      assert EncFiles(files, junks) + rest == s && s[|one|..] == more;
    }
  }

  /** What follows the record head. */
  function Payload(r: Record, junks: seq<seq<Byte>>): seq<Byte>
    requires FileJunk(junks, FileCount(r)) && RecordFits(r)
  {
    match r
    case Base(files) => Enc(|files|, 4) + EncFiles(files, junks)
    case Update(f) => EncFile(f, junks[0])
    case Replace(src, dst) => EncName(src) + EncName(dst)
    case Delete(name) => EncName(name)
    case GCChange(f) => EncFile(f, junks[0])
  }

  predicate RecordFits(r: Record) {
    match r
    case Base(files) => forall i :: 0 <= i < |files| ==> FileFits(files[i])
    case Update(f) => FileFits(f)
    case Replace(src, dst) => |src| < NAME_LEN && |dst| < NAME_LEN
    case Delete(name) => |name| < NAME_LEN
    case GCChange(f) => FileFits(f)
  }

  function AlignSector(n: nat): (m: nat)
    ensures m % SECTOR == 0 && n <= m < n + SECTOR
  {
    if n % SECTOR != 0 then (n / SECTOR + 1) * SECTOR else n
  }

  /** A record as the Flush functions write it: head, payload, zeros up to the sector boundary. */
  function EncRecord(r: Record, junk: Junk): (s: seq<Byte>)
    requires JunkOk(r, junk) && RecordFits(r)
    ensures |s| == AlignSector(HEAD_LEN + |Payload(r, junk.files)|)
  {
    var body := Payload(r, junk.files);
    var len := AlignSector(HEAD_LEN + |body|);
    Enc(0, 4) + Enc(len - HEAD_LEN, 4) + [r.Tag()] + junk.head + body + Zeros(len - HEAD_LEN - |body|)
  }

  function DataLength(s: seq<Byte>): nat
    requires |s| >= SECTOR
  {
    Dec(s[4..8])
  }

  /** The switch on the tag in LoadMetaData; other tags are skipped. */
  function DecBody(tag: Byte, s: seq<Byte>): seq<Record>
    requires |s| >= 2 * NAME_LEN
  {
    if tag == 0 then [Base(DecFiles(s[4..], Dec(s[..4])))]
    else if tag == 1 then (if CanDecFile(s) then [Update(DecFile(s).0)] else [])
    else if tag == 2 then [Replace(CString(s[..NAME_LEN]), CString(s[NAME_LEN..2 * NAME_LEN]))]
    else if tag == 3 then [Delete(CString(s[..NAME_LEN]))]
    else if tag == 4 then (if CanDecFile(s) then [GCChange(DecFile(s).0)] else [])
    else []
  }

  lemma {:induction false} BodyRoundTrip(r: Record, junks: seq<seq<Byte>>, rest: seq<Byte>)
    requires RecordOk(r) && RecordFits(r) && FileJunk(junks, FileCount(r))
    requires |Payload(r, junks) + rest| >= 2 * NAME_LEN
    ensures DecBody(r.Tag(), Payload(r, junks) + rest) == [r]
  {
    hide EncFile, DecFile, FileOk, Enc, Dec, CString, Zeros, DecFiles, EncFiles, PieceCount;
    var s := Payload(r, junks) + rest;
    match r
    case Base(files) =>
      Widths();
      DecEncIff(|files|, 4);
      FilesRoundTrip(files, junks, rest);
      assert s[..4] == Enc(|files|, 4) && s[4..] == EncFiles(files, junks) + rest;
    case Update(f) => FileRoundTrip(f, junks[0], rest);
    case Replace(src, dst) =>
      NameRoundTripIff(src, NAME_LEN - |src|);
      NameRoundTripIff(dst, NAME_LEN - |dst|);
      assert s[..NAME_LEN] == EncName(src) && s[NAME_LEN..2 * NAME_LEN] == EncName(dst);
    case Delete(name) =>
      NameRoundTripIff(name, NAME_LEN - |name|);
      assert s[..NAME_LEN] == EncName(name);
    case GCChange(f) => FileRoundTrip(f, junks[0], rest);
  }

  /** Length of the file part of a Base record. */
  function FilesLen(files: seq<FileRec>): nat {
    if files == [] then 0 else FILE_META_LEN + ENTRY_LEN * |files[0].pieces| + FilesLen(files[1..])
  }

  function PayloadLen(r: Record): nat {
    match r
    case Base(files) => 4 + FilesLen(files)
    case Update(f) => FILE_META_LEN + ENTRY_LEN * |f.pieces|
    case Replace(_, _) => 2 * NAME_LEN
    case Delete(_) => NAME_LEN
    case GCChange(f) => FILE_META_LEN + ENTRY_LEN * |f.pieces|
  }

  lemma {:induction false} FilesLenOk(files: seq<FileRec>, junks: seq<seq<Byte>>)
    requires FileJunk(junks, |files|) && forall i :: 0 <= i < |files| ==> FileFits(files[i])
    ensures |EncFiles(files, junks)| == FilesLen(files)
  {
    if files != [] {
      FilesLenOk(files[1..], junks[1..]);
    }
  }

  /** Sectors a record occupies in the zone. */
  function Sectors(r: Record): (n: nat)
    ensures n >= 1
  {
    AlignSector(HEAD_LEN + PayloadLen(r)) / SECTOR
  }

  lemma {:induction false} SectorsOk(r: Record, junk: Junk)
    requires JunkOk(r, junk) && RecordFits(r)
    ensures |EncRecord(r, junk)| == Sectors(r) * SECTOR
  {
    if r.Base? {
      FilesLenOk(r.files, junk.files);
    }
  }

  // ----- a zone

  const MAGIC: Byte := 0x3D

  /** MetaZoneHead: magic, padding, sequence, and the rest of the sector. */
  function EncZoneHead(sequence: nat, junk: seq<Byte>): (s: seq<Byte>)
    requires |junk| == SECTOR - 5
    ensures |s| == SECTOR
  {
    [MAGIC] + junk[..3] + Enc(sequence, 4) + junk[3..]
  }

  lemma {:induction false} ZoneHeadRoundTripIff(sequence: nat, junk: seq<Byte>)
    requires |junk| == SECTOR - 5
    ensures var s := EncZoneHead(sequence, junk);
      s[0] == MAGIC && (Dec(s[4..8]) == sequence <==> sequence < 0x1_0000_0000)
  {
    Widths();
    DecEncIff(sequence, 4);
    Field([MAGIC] + junk[..3], Enc(sequence, 4), junk[3..]);
  }

  /** Sectors by which the load loop advances over the record at the front of `s`. */
  function Advance(s: seq<Byte>): nat
    requires |s| >= SECTOR
  {
    (HEAD_LEN + DataLength(s)) / SECTOR
  }

  /** The load loop started at `s` reaches a head of length zero inside the zone. */
  predicate Ends(s: seq<Byte>)
    decreases |s|
  {
    |s| >= SECTOR &&
    (DataLength(s) == 0 || (1 <= Advance(s) && Advance(s) * SECTOR <= |s| && Ends(s[Advance(s) * SECTOR..])))
  }

  /** The records the load loop meets. */
  function Parse(s: seq<Byte>): seq<Record>
    requires Ends(s)
    decreases |s|
  {
    if DataLength(s) == 0 then []
    else DecBody(s[8], s[HEAD_LEN..]) + Parse(s[Advance(s) * SECTOR..])
  }

  lemma {:induction false} ParseStep(zone: seq<Byte>, slba: nat)
    requires slba * SECTOR <= |zone| && Ends(zone[slba * SECTOR..]) && DataLength(zone[slba * SECTOR..]) != 0
    ensures var s := zone[slba * SECTOR..];
      1 <= Advance(s) && (slba + Advance(s)) * SECTOR <= |zone| && Ends(zone[(slba + Advance(s)) * SECTOR..]) &&
      Parse(s) == DecBody(s[8], s[HEAD_LEN..]) + Parse(zone[(slba + Advance(s)) * SECTOR..])
  {
    hide DecBody, Dec;
    var s := zone[slba * SECTOR..];
    assert s[Advance(s) * SECTOR..] == zone[(slba + Advance(s)) * SECTOR..];
  }

  /** The `while (true)` of LoadMetaData over a zone, from its second sector on. */
  method LoadZone(zone: seq<Byte>) returns (records: seq<Record>)
    requires |zone| >= SECTOR && Ends(zone[SECTOR..])
    ensures records == Parse(zone[SECTOR..])
  {
    hide DecBody, Dec, Advance;
    records := [];
    var slba := 1;
    while true
      invariant 0 <= slba * SECTOR <= |zone| && Ends(zone[slba * SECTOR..])
      invariant Parse(zone[SECTOR..]) == records + Parse(zone[slba * SECTOR..])
      decreases |zone| - slba * SECTOR
    {
      var s := zone[slba * SECTOR..];
      if DataLength(s) == 0 {
        break;
      }
      ParseStep(zone, slba);
      records := records + DecBody(s[8], s[HEAD_LEN..]);
      slba := slba + Advance(s);
    }
  }

  /** Records one after the other, each with its own junk. */
  function EncRecords(rs: seq<Record>, junks: seq<Junk>): seq<Byte>
    requires |junks| == |rs| && (forall i :: 0 <= i < |rs| ==> RecordFits(rs[i]) && JunkOk(rs[i], junks[i]))
  {
    if rs == [] then [] else EncRecord(rs[0], junks[0]) + EncRecords(rs[1..], junks[1..])
  }

  lemma {:induction false} EncRecordsAppend(rs: seq<Record>, junks: seq<Junk>, r: Record, junk: Junk)
    requires |junks| == |rs| && (forall i :: 0 <= i < |rs| ==> RecordFits(rs[i]) && JunkOk(rs[i], junks[i]))
    requires RecordFits(r) && JunkOk(r, junk)
    ensures EncRecords(rs + [r], junks + [junk]) == EncRecords(rs, junks) + EncRecord(r, junk)
  {
    hide EncRecord, RecordFits;
    if rs == [] {
      assert [r][1..] == [] && [junk][1..] == [];
    } else {
      TailOfAppend(rs, r);
      TailOfAppend(junks, junk);
      EncRecordsAppend(rs[1..], junks[1..], r, junk);
    }
  }

  lemma {:induction false} RecordHead(r: Record, junk: Junk, rest: seq<Byte>)
    requires JunkOk(r, junk) && RecordFits(r) && |EncRecord(r, junk)| < 0x1_0000_0000
    ensures var s, body := EncRecord(r, junk) + rest, Payload(r, junk.files);
      0 < DataLength(s) == |EncRecord(r, junk)| - HEAD_LEN && s[8] == r.Tag() &&
      Advance(s) * SECTOR == |EncRecord(r, junk)| &&
      s[HEAD_LEN..] == body + (Zeros(|EncRecord(r, junk)| - HEAD_LEN - |body|) + rest)
  {
    hide Payload, Enc, Dec, Zeros, RecordFits;
    var body := Payload(r, junk.files);
    var len := |EncRecord(r, junk)|;
    var a, b, t, z := Enc(0, 4), Enc(len - HEAD_LEN, 4), [r.Tag()], Zeros(len - HEAD_LEN - |body|);
    Widths();
    DecEncIff(len - HEAD_LEN, 4);
    HeadFields(a, b, t, junk.head, body, z, rest);
  }

  lemma {:induction false} HeadFields(a: seq<Byte>, b: seq<Byte>, t: seq<Byte>, h: seq<Byte>, body: seq<Byte>,
                                      z: seq<Byte>, rest: seq<Byte>)
    requires |a| == 4 && |b| == 4 && |t| == 1 && |h| == 3
    ensures var s := a + b + t + h + body + z + rest;
      s[4..8] == b && s[8] == t[0] && s[HEAD_LEN..] == body + (z + rest)
  {
    var s, tail := a + b + t + h + body + z + rest, body + (z + rest);
    assert s == (a + b + t + h) + tail;
    assert s[4..8] == b && s[8] == t[0];
  }

  lemma {:induction false} ZeroHead(n: nat)
    requires n >= SECTOR
    ensures Ends(Zeros(n)) && Parse(Zeros(n)) == []
  {
    var z := Zeros(n)[4..8];
    assert z == [0, 0, 0, 0];
    assert Dec(z) == 0 by {
      assert z[1..] == [0, 0, 0] && z[1..][1..] == [0, 0] && z[1..][1..][1..] == [0];
      assert Dec([0]) == 0 && Dec([0, 0]) == 0 && Dec([0, 0, 0]) == 0;
    }
  }

  /** A record at the front is met first, and the loop goes on right behind it. */
  lemma {:induction false} ParseFront(r: Record, junk: Junk, more: seq<Byte>)
    requires JunkOk(r, junk) && RecordFits(r) && RecordOk(r) && Sectors(r) < 0x10_0000 && Ends(more)
    ensures Ends(EncRecord(r, junk) + more) && Parse(EncRecord(r, junk) + more) == [r] + Parse(more)
  {
    hide DecBody, RecordOk, RecordFits, EncRecord, Dec, Zeros, Payload, Advance, DataLength, Sectors;
    var one := EncRecord(r, junk);
    var s := one + more;
    SectorsOk(r, junk);
    RecordHead(r, junk, more);
    BodyRoundTrip(r, junk.files, Zeros(|one| - HEAD_LEN - |Payload(r, junk.files)|) + more);
    assert s[|one|..] == more;
  }

  /** Every zone that holds encoded records followed by at least one unwritten sector is loaded in
      finitely many steps, inside the zone, and gives back exactly its records. */
  lemma {:induction false} ZoneRoundTrip(rs: seq<Record>, junks: seq<Junk>, free: nat)
    requires |junks| == |rs| && free >= SECTOR
    requires (forall i :: 0 <= i < |rs| ==> RecordFits(rs[i]) && JunkOk(rs[i], junks[i]))
    requires forall i :: 0 <= i < |rs| ==> RecordOk(rs[i]) && Sectors(rs[i]) < 0x10_0000
    ensures Ends(EncRecords(rs, junks) + Zeros(free)) && Parse(EncRecords(rs, junks) + Zeros(free)) == rs
  {
    hide Ends, Parse, RecordOk, RecordFits, EncRecord, Zeros, Sectors, JunkOk;
    if rs == [] {
      ZeroHead(free);
      assert EncRecords(rs, junks) + Zeros(free) == Zeros(free);
    } else {
      var one, rest := EncRecord(rs[0], junks[0]), EncRecords(rs[1..], junks[1..]);
      var tail := rest + Zeros(free);
      ZoneRoundTrip(rs[1..], junks[1..], free);
      ConcatAssoc(one, rest, Zeros(free));
      ParseFront(rs[0], junks[0], tail);
    }
  }

  // ----- the format, in numbers

  function Pow2(k: nat): nat {
    if k == 0 then 1 else 2 * Pow2(k - 1)
  }

  /** The bits of a word from `low` on. */
  function Bits(w: nat, low: nat, width: nat): nat {
    Pow2Positive(low);
    Pow2Positive(width);
    w / Pow2(low) % Pow2(width)
  }

  lemma {:induction false} Pow2Positive(k: nat)
    ensures Pow2(k) > 0
  {
    if k > 0 {
      Pow2Positive(k - 1);
    }
  }

  lemma {:induction false} Powers()
    ensures Pow2(0) == 1 && Pow2(11) == 0x800 && Pow2(14) == 0x4000 && Pow2(16) == 0x1_0000 && Pow2(22) == 0x40_0000
    ensures Pow2(36) == 0x10_0000_0000 && Pow2(47) == 0x8000_0000_0000
  {
    assert Pow2(5) == 32 && Pow2(10) == 1024 && Pow2(15) == 32768 && Pow2(20) == 0x10_0000 && Pow2(25) == 0x200_0000;
    assert Pow2(30) == 0x4000_0000 && Pow2(35) == 0x8_0000_0000 && Pow2(40) == 0x100_0000_0000;
    assert Pow2(45) == 0x2000_0000_0000;
  }

  /** A mapping entry: 14 bits of node, 22 of start, 11 of number, 16 of padding, from the lowest bit on. */
  lemma {:induction false} EntryLayout(p: Piece)
    requires Packable(p)
    ensures Bits(Pack(p), 0, 14) == p.node && Bits(Pack(p), 14, 22) == p.start
    ensures Bits(Pack(p), 36, 11) == p.num && Bits(Pack(p), 47, 16) == p.padding
  {
    UnpackPack(p);
    Powers();
    hide Pow2;
  }

  /** The number of each kind of record. */
  function Kind(r: Record): nat {
    if r.Base? then 0 else if r.Update? then 1 else if r.Replace? then 2 else if r.Delete? then 3 else 4
  }

  /** A record: four bytes of zero, the length of what follows the head, the kind, three bytes of padding, and from
      byte 12 on the payload; the whole fills sectors of 4096 bytes. */
  lemma {:induction false} RecordLayout(r: Record, junk: Junk)
    requires JunkOk(r, junk) && RecordFits(r) && |EncRecord(r, junk)| < 0x1_0000_0000
    ensures var s, body := EncRecord(r, junk), Payload(r, junk.files);
      |s| % 4096 == 0 && 12 + |body| <= |s| < 12 + |body| + 4096 && s[..4] == [0, 0, 0, 0] &&
      Dec(s[4..8]) == |s| - 12 && s[8] == Kind(r) && s[12..12 + |body|] == body &&
      s[12 + |body|..] == Zeros(|s| - 12 - |body|)
  {
    hide Payload, Enc, Dec, Pow256, Zeros, RecordFits;
    var body := Payload(r, junk.files);
    var len := AlignSector(12 + |body|);
    assert len == |EncRecord(r, junk)|;
    hide AlignSector;
    DecEncIff(len - 12, 4);
    Widths();
    ZeroWord();
    RecordParts(r, junk, len);
    hide EncRecord;
    Parts(Enc(0, 4), Enc(len - 12, 4), [r.Tag()] + junk.head, body, Zeros(len - 12 - |body|));
  }

  lemma {:induction false} RecordParts(r: Record, junk: Junk, len: nat)
    requires JunkOk(r, junk) && RecordFits(r) && len == AlignSector(12 + |Payload(r, junk.files)|)
    ensures var body := Payload(r, junk.files);
      EncRecord(r, junk)
        == Enc(0, 4) + Enc(len - 12, 4) + ([r.Tag()] + junk.head) + body + Zeros(len - 12 - |body|)
  {
    hide Payload, Enc, Zeros, RecordFits, AlignSector;
  }

  lemma {:induction false} ZeroWord()
    ensures Enc(0, 4) == [0, 0, 0, 0]
  {
    assert Enc(0, 1) == [0] && Enc(0, 2) == [0, 0] && Enc(0, 3) == [0, 0, 0];
  }

  lemma {:induction false} Parts(z: seq<Byte>, n: seq<Byte>, t: seq<Byte>, body: seq<Byte>, tail: seq<Byte>)
    requires |z| == |n| == |t| == 4
    ensures var s := z + n + t + body + tail;
      s[..4] == z && s[4..8] == n && s[8] == t[0] && s[12..12 + |body|] == body && s[12 + |body|..] == tail
  {
  }

  /** The payloads: names are 128 bytes; the files of a snapshot follow their number; a file is 152 bytes, with its
      level first, its size at 8, its number of pieces at 16 and its name at 20, and 8 bytes for each piece. */
  lemma {:induction false} PayloadLayout(r: Record, junks: seq<seq<Byte>>)
    requires FileJunk(junks, FileCount(r)) && RecordFits(r)
    ensures r.Replace? ==> Payload(r, junks) == r.src + Zeros(128 - |r.src|) + (r.dst + Zeros(128 - |r.dst|))
    ensures r.Delete? ==> Payload(r, junks) == r.name + Zeros(128 - |r.name|)
    ensures r.Base? ==> |Payload(r, junks)| >= 4 && Payload(r, junks)[..4] == Enc(|r.files|, 4)
    ensures r.Update? || r.GCChange? ==>
      var s := Payload(r, junks);
      |s| == 152 + 8 * |r.f.pieces| && s[0] == r.f.level % 256 && s[8..16] == Enc(r.f.size, 8) &&
      s[16..20] == Enc(|r.f.pieces|, 4) && s[20..148] == r.f.name + Zeros(128 - |r.f.name|)
  {
    if r.Update? || r.GCChange? {
      FileFields(r.f, junks[0], []);
      assert EncFile(r.f, junks[0]) + [] == EncFile(r.f, junks[0]);
    }
  }

  /** A zone begins with 0x3D and, at byte 4, its sequence number; the head fills one sector. */
  lemma {:induction false} ZoneHeadLayout(sequence: nat, junk: seq<Byte>)
    requires |junk| == SECTOR - 5
    ensures var s := EncZoneHead(sequence, junk); |s| == 4096 && s[0] == 0x3D && s[4..8] == Enc(sequence, 4)
  {
    Field([MAGIC] + junk[..3], Enc(sequence, 4), junk[3..]);
  }

  /** Whatever word is found, an entry is read from the same bits; the highest bit is ignored. */
  lemma {:induction false} EntryRead(w: nat)
    ensures Unpack(w) == Piece(Bits(w, 0, 14), Bits(w, 14, 22), Bits(w, 36, 11), Bits(w, 47, 16))
  {
    Powers();
    hide Pow2;
  }

  /** The number of pieces is signed: a negative one is read as no piece, and the next file follows the head. */
  lemma {:induction false} PiecesRead(s: seq<Byte>)
    requires CanDecFile(s)
    ensures var n := Dec(s[16..20]);
      if n < 2147483648 then |DecFile(s).0.pieces| == n && DecFile(s).1 == 152 + 8 * n
      else DecFile(s).0.pieces == [] && DecFile(s).1 == 152
  {
    PiecesCount(s[FILE_META_LEN..], PieceCount(s));
  }

  lemma {:induction false} PiecesCount(s: seq<Byte>, n: nat)
    requires ENTRY_LEN * n <= |s|
    ensures |DecPieces(s, n)| == n
  {
    if n > 0 {
      PiecesCount(s[ENTRY_LEN..], n - 1);
    }
  }
}
