/** Reading what the release packer wrote. */
module ZipRoundTrip {
  import opened Prelude
  import opened ZipFormat
  import opened ZipWriter
  import opened ZipReader
  import opened ZipChecksum

  // ----- pieces of an archive -----

  predicate Has(a: Bytes, at: nat, piece: Bytes) {
    at + |piece| <= |a| && a[at..at + |piece|] == piece
  }

  lemma HasParts(a: Bytes, at: nat, p: Bytes, q: Bytes)
    requires Has(a, at, p + q)
    ensures Has(a, at, p) && Has(a, at + |p|, q)
  {
    var whole := a[at..at + |p + q|];
    assert whole[..|p|] == p == a[at..at + |p|];
    assert whole[|p|..] == q == a[at + |p|..at + |p| + |q|];
  }

  lemma PieceAt(a: Bytes, at: nat, h: Bytes, k: nat)
    requires Has(a, at, h) && k < |h|
    ensures a[at + k] == h[k]
  {
    assert a[at..at + |h|][k] == h[k];
  }

  lemma Reads16(a: Bytes, at: nat, n: nat)
    requires n < 0x1_0000 && at + 2 <= |a| && a[at] == Byte0(n) && a[at + 1] == Byte1(n)
    ensures U16(a, at) == n
  {
  }

  lemma Reads32(a: Bytes, at: nat, n: nat)
    requires n < 0x1_0000_0000 && at + 4 <= |a|
    requires a[at] == Byte0(n) && a[at + 1] == Byte1(n) && a[at + 2] == Byte2(n) && a[at + 3] == Byte3(n)
    ensures U32(a, at) == n
  {
    var q := n / 0x100 / 0x100;
    assert n % 0x100 + 0x100 * (n / 0x100 % 0x100) == n - 0x1_0000 * q;
    assert q < 0x1_0000 && q % 0x100 + 0x100 * (q / 0x100 % 0x100) == q;
  }

  // ----- fields -----

  predicate Holds(a: Bytes, at: nat, field: Field) {
    at + field.Width() <= |a| && field.value == if field.Short? then U16(a, at) else U32(a, at)
  }

  lemma FieldHolds(a: Bytes, at: nat, field: Field)
    requires field.Fits() && Has(a, at, field.Bytes())
    ensures Holds(a, at, field)
  {
    PieceAt(a, at, field.Bytes(), 0);
    PieceAt(a, at, field.Bytes(), 1);
    if field.Short? {
      Reads16(a, at, field.value);
    } else {
      PieceAt(a, at, field.Bytes(), 2);
      PieceAt(a, at, field.Bytes(), 3);
      Reads32(a, at, field.value);
    }
  }

  lemma {:induction false} OffsetOfFront(fields: seq<Field>, n: nat, k: nat)
    requires k <= n <= |fields|
    ensures Offset(fields[..n], k) == Offset(fields, k)
    decreases k
  {
    if k > 0 {
      OffsetOfFront(fields, n, k - 1);
    }
  }

  lemma {:induction false} FieldsLength(fields: seq<Field>)
    ensures |Fields(fields)| == Offset(fields, |fields|)
    decreases |fields|
  {
    if fields != [] {
      FieldsLength(fields[..|fields| - 1]);
      OffsetOfFront(fields, |fields| - 1, |fields| - 1);
    }
  }

  /** Wherever a row of fields is written, each of them reads back at its own offset. */
  lemma {:induction false} FieldsHold(a: Bytes, at: nat, fields: seq<Field>, k: nat)
    requires Has(a, at, Fields(fields)) && k < |fields| && fields[k].Fits()
    ensures Holds(a, at + Offset(fields, k), fields[k])
    decreases |fields|
  {
    var front, last := fields[..|fields| - 1], fields[|fields| - 1];
    HasParts(a, at, Fields(front), last.Bytes());
    OffsetOfFront(fields, |front|, k);
    if k < |front| {
      FieldsHold(a, at, front, k);
    } else {
      FieldsLength(front);
      FieldHolds(a, at + |Fields(front)|, last);
    }
  }

  lemma NameDecodes(name: string)
    requires IsAscii(name)
    ensures DecodeName(NameBytes(name)) == Some(name)
  {
    var bytes := NameBytes(name);
    assert |bytes| >= 3 ==> bytes[0] == bytes[..3][0];
    assert Ascii(bytes) == name;
  }

  lemma FileNamesAreShort()
    ensures forall f | f in FILES :: |f| < 0x1_0000
  {
  }

  // ----- records -----

  /** Inflation undoes deflation for whatever is within the reader's limit. */
  ghost predicate Inverts(codec: Codec) {
    forall data: Bytes | |data| <= MAX_ARCHIVE_OUTPUT_BYTES :: codec.inflate(codec.deflate(data)) == Some(data)
  }

  /** Checksums have 32 bits. */
  ghost predicate Sound(codec: Codec) {
    forall data: Bytes :: codec.crc32(data) < 0x1_0000_0000
  }

  /** The entry the reader should find for a source. */
  function Expected(s: Source, offset: nat, codec: Codec): Entry {
    Entry(s.name, Compression(s, codec), UTF8_FLAG, codec.crc32(s.data), |Payload(s, codec)|, |s.data|, offset)
  }

  predicate Fits(s: Source, offset: nat) {
    IsAscii(s.name) && |s.name| < 0x1_0000 && s.mode < 0x1000 && |s.data| < 0x1_0000_0000 && offset < 0x1_0000_0000
  }

  /** The bytes of a central header at an offset say this. */
  predicate CentralSays(h: Bytes, at: nat, compression: nat, crc: nat, packed: nat, size: nat, name: nat,
                        attributes: nat, offset: nat)
  {
    && at + 46 <= |h|
    && U32(h, at) == ZIP_CENTRAL_HEADER && U16(h, at + 4) / 0x100 == UNIX
    && U16(h, at + 8) == UTF8_FLAG && U16(h, at + 10) == compression
    && U32(h, at + 16) == crc && U32(h, at + 20) == packed && U32(h, at + 24) == size
    && U16(h, at + 28) == name && U16(h, at + 30) == 0 && U16(h, at + 32) == 0 && U16(h, at + 34) == 0
    && U32(h, at + 38) == attributes && U32(h, at + 42) == offset
  }

  lemma CentralHeaderReads(a: Bytes, at: nat, compression: nat, crc: nat, packed: nat, size: nat, name: nat,
                           attributes: nat, offset: nat)
    requires compression < 0x1_0000 && name < 0x1_0000 && attributes < 0x1_0000_0000 && offset < 0x1_0000_0000
    requires crc < 0x1_0000_0000 && packed < 0x1_0000_0000 && size < 0x1_0000_0000
    requires Has(a, at, CentralHeader(compression, crc, packed, size, name, attributes, offset))
    ensures CentralSays(a, at, compression, crc, packed, size, name, attributes, offset)
    ensures |CentralHeader(compression, crc, packed, size, name, attributes, offset)| == 46
  {
    var f := [Long(ZIP_CENTRAL_HEADER), Short(UNIX * 0x100 + VERSION), Short(VERSION), Short(UTF8_FLAG),
              Short(compression), Short(DOS_TIME), Short(DOS_DATE), Long(crc), Long(packed), Long(size), Short(name),
              Short(0), Short(0), Short(0), Short(0), Long(attributes), Long(offset)];
    CentralOffsets(f);
    FieldsLength(f);
    CentralFieldsHold(a, at, f);
  }

  lemma CentralFieldsHold(a: Bytes, at: nat, f: seq<Field>)
    requires |f| == 17 && (forall k | 0 <= k < 17 :: f[k].Long? <==> k in {0, 7, 8, 9, 15, 16})
    requires (forall k | 0 <= k < 17 :: f[k].Fits()) && Has(a, at, Fields(f))
    ensures Holds(a, at, f[0]) && Holds(a, at + 4, f[1]) && Holds(a, at + 8, f[3]) && Holds(a, at + 10, f[4])
    ensures Holds(a, at + 16, f[7]) && Holds(a, at + 20, f[8]) && Holds(a, at + 24, f[9]) && Holds(a, at + 28, f[10])
    ensures Holds(a, at + 30, f[11]) && Holds(a, at + 32, f[12]) && Holds(a, at + 34, f[13])
    ensures Holds(a, at + 38, f[15]) && Holds(a, at + 42, f[16])
  {
    CentralOffsets(f);
    forall k | 0 <= k < 17 ensures Holds(a, at + Offset(f, k), f[k]) {
      FieldsHold(a, at, f, k);
    }
  }

  lemma CentralNameReads(a: Bytes, at: nat, name: string)
    requires at + 46 <= |a| && U16(a, at + 28) == |name| && NextRecord(a, at) <= |a|
    requires IsAscii(name) && Has(a, at + 46, NameBytes(name))
    ensures CentralName(a, at) == Some(name)
  {
    NameDecodes(name);
  }

  /** Reading a central record whose header says the expected things. */
  lemma CentralReads(a: Bytes, at: nat, name: string, compression: nat, crc: nat, packed: nat, size: nat,
                     attributes: nat, offset: nat)
    requires CentralSays(a, at, compression, crc, packed, size, |name|, attributes, offset)
    requires IsAscii(name) && Has(a, at + 46, NameBytes(name))
    requires name in FILES && attributes / 0x1_0000 / 0x1000 == REGULAR_FILE && packed <= size
    requires compression == STORED || compression == DEFLATED
    ensures NextRecord(a, at) == at + 46 + |name|
    ensures CentralOk(a, at) <==> size <= MAX_ARCHIVE_OUTPUT_BYTES
    ensures CentralOk(a, at) ==> EntryAt(a, at) == Entry(name, compression, UTF8_FLAG, crc, packed, size, offset)
  {
    CentralNameReads(a, at, name);
  }

  /** The reader takes a packed central record exactly when the sizes are within its limit. */
  lemma CentralRoundTrip(a: Bytes, at: nat, s: Source, offset: nat, codec: Codec)
    requires Fits(s, offset) && s.name in FILES && Has(a, at, CentralRecord(s, offset, codec)) && Sound(codec)
    ensures NextRecord(a, at) == at + |CentralRecord(s, offset, codec)|
    ensures CentralOk(a, at) <==> |s.data| <= MAX_ARCHIVE_OUTPUT_BYTES
    ensures CentralOk(a, at) ==> EntryAt(a, at) == Expected(s, offset, codec)
  {
    var compression, crc, packed := Compression(s, codec), codec.crc32(s.data), |Payload(s, codec)|;
    var h := CentralHeader(compression, crc, packed, |s.data|, |s.name|, Attributes(s), offset);
    HasParts(a, at, h, NameBytes(s.name));
    CentralHeaderReads(a, at, compression, crc, packed, |s.data|, |s.name|, Attributes(s), offset);
    CentralReads(a, at, s.name, compression, crc, packed, |s.data|, Attributes(s), offset);
  }

  /** The bytes of a local header at an offset say this. */
  predicate LocalSays(h: Bytes, at: nat, compression: nat, crc: nat, packed: nat, size: nat, name: nat) {
    && at + 30 <= |h|
    && U32(h, at) == ZIP_LOCAL_HEADER && U16(h, at + 6) == UTF8_FLAG && U16(h, at + 8) == compression
    && U32(h, at + 14) == crc && U32(h, at + 18) == packed && U32(h, at + 22) == size
    && U16(h, at + 26) == name && U16(h, at + 28) == 0
  }

  lemma LocalHeaderReads(a: Bytes, at: nat, compression: nat, crc: nat, packed: nat, size: nat, name: nat)
    requires compression < 0x1_0000 && name < 0x1_0000
    requires crc < 0x1_0000_0000 && packed < 0x1_0000_0000 && size < 0x1_0000_0000
    requires Has(a, at, LocalHeader(compression, crc, packed, size, name))
    ensures LocalSays(a, at, compression, crc, packed, size, name)
    ensures |LocalHeader(compression, crc, packed, size, name)| == 30
  {
    var f := [Long(ZIP_LOCAL_HEADER), Short(VERSION), Short(UTF8_FLAG), Short(compression), Short(DOS_TIME),
              Short(DOS_DATE), Long(crc), Long(packed), Long(size), Short(name), Short(0)];
    LocalOffsets(f);
    FieldsLength(f);
    forall k | 0 <= k < 11 ensures Holds(a, at + Offset(f, k), f[k]) {
      FieldsHold(a, at, f, k);
    }
    assert Holds(a, at + Offset(f, 0), f[0]) && Holds(a, at + Offset(f, 2), f[2]) && Holds(a, at + Offset(f, 3), f[3]);
    assert Holds(a, at + Offset(f, 6), f[6]) && Holds(a, at + Offset(f, 7), f[7]) && Holds(a, at + Offset(f, 8), f[8]);
    assert Holds(a, at + Offset(f, 9), f[9]) && Holds(a, at + Offset(f, 10), f[10]);
  }

  lemma LocalNameReads(a: Bytes, at: nat, name: string)
    requires at + 30 <= |a| && U16(a, at + 26) == |name| && at + 30 + |name| <= |a|
    requires IsAscii(name) && Has(a, at + 30, NameBytes(name))
    ensures DecodeName(a[at + 30..at + 30 + U16(a, at + 26)]) == Some(name)
  {
    NameDecodes(name);
  }

  lemma LocalDataReads(a: Bytes, payload: Bytes, e: Entry, codec: Codec)
    requires LocalSays(a, e.localOffset, e.compression, e.crc32, e.compressedSize, e.uncompressedSize, |e.name|)
    requires Has(a, e.localOffset + 30 + |e.name|, payload) && |payload| == e.compressedSize
    ensures DataStart(a, e) == e.localOffset + 30 + |e.name| && DataStart(a, e) + e.compressedSize <= |a|
    ensures Unpacked(a, e, codec) == if e.compression == STORED then Some(payload) else codec.inflate(payload)
    ensures LocalRange(a, e) == Range(e.localOffset, e.localOffset + 30 + |e.name| + |payload|)
  {
  }

  lemma LocalIsOk(a: Bytes, payload: Bytes, e: Entry, below: nat)
    requires LocalSays(a, e.localOffset, e.compression, e.crc32, e.compressedSize, e.uncompressedSize, |e.name|)
    requires IsAscii(e.name) && Has(a, e.localOffset + 30, NameBytes(e.name))
    requires Has(a, e.localOffset + 30 + |e.name|, payload) && |payload| == e.compressedSize
    requires e.flags == UTF8_FLAG && e.localOffset + 30 + |e.name| + |payload| <= below
    ensures LocalOk(a, e, below)
  {
    LocalNameReads(a, e.localOffset, e.name);
  }

  lemma LocalRecordReads(a: Bytes, h: Bytes, e: Entry, payload: Bytes, below: nat, codec: Codec)
    requires e.compression < 0x1_0000 && IsAscii(e.name) && |e.name| < 0x1_0000 && e.flags == UTF8_FLAG
    requires e.crc32 < 0x1_0000_0000 && e.compressedSize < 0x1_0000_0000 && e.uncompressedSize < 0x1_0000_0000
    requires Has(a, e.localOffset, h + NameBytes(e.name) + payload) && |h| == 30
    requires LocalSays(a, e.localOffset, e.compression, e.crc32, e.compressedSize, e.uncompressedSize, |e.name|)
    requires |payload| == e.compressedSize && e.localOffset + 30 + |e.name| + |payload| <= below
    ensures LocalOk(a, e, below)
    ensures Unpacked(a, e, codec) == if e.compression == STORED then Some(payload) else codec.inflate(payload)
    ensures LocalRange(a, e) == Range(e.localOffset, e.localOffset + 30 + |e.name| + |payload|)
  {
    HasParts(a, e.localOffset, h + NameBytes(e.name), payload);
    HasParts(a, e.localOffset, h, NameBytes(e.name));
    LocalIsOk(a, payload, e, below);
    LocalDataReads(a, payload, e, codec);
  }

  lemma LocalRoundTrip(a: Bytes, at: nat, s: Source, below: nat, codec: Codec)
    requires Fits(s, at) && Has(a, at, LocalRecord(s, codec)) && at + |LocalRecord(s, codec)| <= below
    requires Inverts(codec) && Sound(codec) && |s.data| <= MAX_ARCHIVE_OUTPUT_BYTES
    ensures EntryOk(a, Expected(s, at, codec), below, codec)
    ensures Unpacked(a, Expected(s, at, codec), codec) == Some(s.data)
    ensures LocalRange(a, Expected(s, at, codec)) == Range(at, at + |LocalRecord(s, codec)|)
  {
    var compression, crc, packed := Compression(s, codec), codec.crc32(s.data), |Payload(s, codec)|;
    var h := LocalHeader(compression, crc, packed, |s.data|, |s.name|);
    HasParts(a, at, h, NameBytes(s.name) + Payload(s, codec)) by {
      assert LocalRecord(s, codec) == h + (NameBytes(s.name) + Payload(s, codec));
    }
    LocalHeaderReads(a, at, compression, crc, packed, |s.data|, |s.name|);
    LocalRecordReads(a, h, Expected(s, at, codec), Payload(s, codec), below, codec);
  }

  // ----- the whole archive -----

  /** The eight release files, each once, in any order. */
  predicate ReleaseNames(sources: seq<Source>) {
    && Packable(sources) && |sources| == |FILES|
    && (forall s | s in sources :: s.name in FILES)
    && (forall i, j | 0 <= i < j < |sources| :: sources[i].name != sources[j].name)
  }

  /** Their sizes have 32 bits, as the packer demands. */
  predicate ReleaseFiles(sources: seq<Source>) {
    ReleaseNames(sources) && forall s | s in sources :: |s.data| < 0x1_0000_0000
  }

  /** Whatever the packer writes without throwing is such a release. */
  lemma WrittenIsRelease(sources: seq<Source>, codec: Codec)
    requires ReleaseNames(sources) && ArchiveFits(sources, codec)
    ensures ReleaseFiles(sources)
  {
    forall s | s in sources ensures |s.data| < 0x1_0000_0000 {
      var k :| 0 <= k < |sources| && sources[k] == s;
      assert FitsAt(sources, PartsOf(sources, codec), k);
    }
  }

  lemma {:induction false} ConcatContains(parts: seq<Bytes>, k: nat)
    requires k < |parts|
    ensures Has(Concat(parts), |Concat(parts[..k])|, parts[k])
    decreases |parts|
  {
    var front, last := parts[..|parts| - 1], parts[|parts| - 1];
    if k < |front| {
      assert front[..k] == parts[..k];
      ConcatContains(front, k);
      HasLonger(Concat(front), last, |Concat(parts[..k])|, parts[k]);
    }
  }

  lemma HasLonger(a: Bytes, more: Bytes, at: nat, piece: Bytes)
    requires Has(a, at, piece)
    ensures Has(a + more, at, piece)
  {
    assert (a + more)[at..at + |piece|] == a[at..at + |piece|];
  }

  lemma HasShifted(front: Bytes, a: Bytes, at: nat, piece: Bytes)
    requires Has(a, at, piece)
    ensures Has(front + a, |front| + at, piece)
  {
    assert (front + a)[|front| + at..|front| + at + |piece|] == a[at..at + |piece|];
  }

  lemma PartsContain(p: Parts, k: nat)
    requires k < |p.locals| == |p.centrals|
    ensures Has(p.Archive(), p.LocalAt(k), p.locals[k])
    ensures Has(p.Archive(), p.CentralAt(k), p.centrals[k])
  {
    ConcatContains(p.locals, k);
    ConcatContains(p.centrals, k);
    HasLonger(Concat(p.locals), Concat(p.centrals), p.LocalAt(k), p.locals[k]);
    HasLonger(Concat(p.locals) + Concat(p.centrals), p.end, p.LocalAt(k), p.locals[k]);
    HasShifted(Concat(p.locals), Concat(p.centrals), |Concat(p.centrals[..k])|, p.centrals[k]);
    HasLonger(Concat(p.locals) + Concat(p.centrals), p.end, p.CentralAt(k), p.centrals[k]);
  }

  lemma LocalAtNext(p: Parts, k: nat)
    requires k < |p.locals|
    ensures p.LocalAt(k + 1) == p.LocalAt(k) + |p.locals[k]|
  {
    NextPart(p.locals, k, p.locals[k]);
  }

  lemma CentralAtNext(p: Parts, k: nat)
    requires k < |p.centrals|
    ensures p.CentralAt(k + 1) == p.CentralAt(k) + |p.centrals[k]|
  {
    NextPart(p.centrals, k, p.centrals[k]);
  }

  lemma {:induction false} LocalAtGrows(p: Parts, j: nat, k: nat)
    requires j <= k <= |p.locals|
    ensures p.LocalAt(j) <= p.LocalAt(k)
    decreases k
  {
    if j < k {
      LocalAtNext(p, k - 1);
      LocalAtGrows(p, j, k - 1);
    }
  }

  lemma WholeParts(p: Parts)
    ensures p.LocalAt(|p.locals|) == |Concat(p.locals)|
    ensures p.CentralAt(|p.centrals|) + |p.end| == |p.Archive()|
  {
    assert p.locals[..|p.locals|] == p.locals && p.centrals[..|p.centrals|] == p.centrals;
  }

  // ----- the end record -----

  lemma EndRecordReads(a: Bytes, at: nat, count: nat, size: nat, offset: nat)
    requires count < 0x1_0000 && size < 0x1_0000_0000 && offset < 0x1_0000_0000
    requires Has(a, at, EndRecord(count, size, offset))
    ensures |EndRecord(count, size, offset)| == 22 && at + 22 <= |a|
    ensures U32(a, at) == ZIP_EOCD && U16(a, at + 4) == 0 && U16(a, at + 6) == 0
    ensures U16(a, at + 8) == count && U16(a, at + 10) == count
    ensures U32(a, at + 12) == size && U32(a, at + 16) == offset && U16(a, at + 20) == 0
  {
    var f := [Long(ZIP_EOCD), Short(0), Short(0), Short(count), Short(count), Long(size), Long(offset), Short(0)];
    EndOffsets(f);
    FieldsLength(f);
    forall k | 0 <= k < 8 ensures Holds(a, at + Offset(f, k), f[k]) {
      FieldsHold(a, at, f, k);
    }
    assert Holds(a, at + Offset(f, 0), f[0]) && Holds(a, at + Offset(f, 1), f[1]) && Holds(a, at + Offset(f, 2), f[2]);
    assert Holds(a, at + Offset(f, 3), f[3]) && Holds(a, at + Offset(f, 4), f[4]) && Holds(a, at + Offset(f, 5), f[5]);
    assert Holds(a, at + Offset(f, 6), f[6]) && Holds(a, at + Offset(f, 7), f[7]);
  }

  /** The last bytes of an archive are its end record, and no later place can hold one. */
  lemma EndOfArchive(a: Bytes, front: Bytes, count: nat, size: nat, offset: nat)
    requires a == front + EndRecord(count, size, offset) && offset + size == |front| < 0x1_0000_0000
    requires count == |FILES|
    ensures |a| == |front| + 22 && IsEnd(a, |front|) && LayoutOk(a, |front|)
    ensures CentralOffset(a, |front|) == offset
  {
    EndRecordReads(a, |front|, count, size, offset);
  }

  // ----- what the reader makes of the parts -----

  function TotalData(sources: seq<Source>): nat {
    if sources == [] then 0 else TotalData(sources[..|sources| - 1]) + |sources[|sources| - 1].data|
  }

  function FilesOf(sources: seq<Source>): map<string, Bytes> {
    if sources == [] then map[]
    else FilesOf(sources[..|sources| - 1])[sources[|sources| - 1].name := sources[|sources| - 1].data]
  }

  /** The archive ends in its end record, behind eight local records and eight central ones. */
  ghost predicate Closed(p: Parts, a: Bytes) {
    && a == p.Archive() && |p.locals| == |p.centrals| == |FILES|
    && IsEnd(a, p.CentralAt(|FILES|)) && LayoutOk(a, p.CentralAt(|FILES|))
    && CentralOffset(a, p.CentralAt(|FILES|)) == p.LocalAt(|FILES|)
  }

  /** A central record reads as its entry, unless its file is too large. */
  predicate CentralRead(p: Parts, k: nat, a: Bytes, e: Entry)
    requires k < |p.centrals|
  {
    var at := p.CentralAt(k);
    && NextRecord(a, at) == at + |p.centrals[k]|
    && (CentralOk(a, at) <==> e.uncompressedSize <= MAX_ARCHIVE_OUTPUT_BYTES)
    && (CentralOk(a, at) ==> EntryAt(a, at) == e)
  }

  /** A local record reads as its entry and unpacks to its file. */
  predicate LocalRead(p: Parts, k: nat, a: Bytes, e: Entry, s: Source, codec: Codec)
    requires k < |p.locals|
  {
    && EntryOk(a, e, |Concat(p.locals)|, codec)
    && e.name == s.name && Unpacked(a, e, codec) == Some(s.data)
    && LocalRange(a, e) == Range(p.LocalAt(k), p.LocalAt(k) + |p.locals[k]|)
  }

  lemma {:induction false} StartIsCentralAt(p: Parts, a: Bytes, entries: seq<Entry>, k: nat)
    requires Closed(p, a) && |entries| == |FILES| && k <= |FILES|
    requires forall j | 0 <= j < |FILES| :: CentralRead(p, j, a, entries[j])
    ensures Start(a, p.CentralAt(|FILES|), k) == p.CentralAt(k)
    decreases k
  {
    if k > 0 {
      StartIsCentralAt(p, a, entries, k - 1);
      assert CentralRead(p, k - 1, a, entries[k - 1]);
      CentralAtNext(p, k - 1);
    } else {
      WholeParts(p);
      assert p.centrals[..0] == [];
    }
  }

  lemma {:induction false} TotalsAgree(sources: seq<Source>, entries: seq<Entry>)
    requires |entries| == |sources|
    requires forall k | 0 <= k < |sources| :: entries[k].uncompressedSize == |sources[k].data|
    ensures TotalOutput(entries) == TotalData(sources)
    decreases |sources|
  {
    if sources != [] {
      TotalsAgree(sources[..|sources| - 1], entries[..|sources| - 1]);
    }
  }

  lemma {:induction false} SizeWithinTotal(entries: seq<Entry>, k: nat)
    requires k < |entries|
    ensures entries[k].uncompressedSize <= TotalOutput(entries)
    decreases |entries|
  {
    if k < |entries| - 1 {
      SizeWithinTotal(entries[..|entries| - 1], k);
    }
  }

  /** The reader takes the directory of a packed archive exactly when its files are small enough together. */
  lemma DirectoryDecided(p: Parts, a: Bytes, entries: seq<Entry>)
    requires Closed(p, a) && |entries| == |FILES| && DistinctNames(entries)
    requires forall k | 0 <= k < |FILES| :: CentralRead(p, k, a, entries[k])
    ensures DirectoryOk(a, p.CentralAt(|FILES|)) <==> TotalOutput(entries) <= MAX_ARCHIVE_OUTPUT_BYTES
    ensures DirectoryOk(a, p.CentralAt(|FILES|)) ==> Entries(a, p.CentralAt(|FILES|), |FILES|) == entries
  {
    var end := p.CentralAt(|FILES|);
    forall k | 0 <= k <= |FILES| ensures Start(a, end, k) == p.CentralAt(k) {
      StartIsCentralAt(p, a, entries, k);
    }
    if RecordsOk(a, end, |FILES|) {
      forall k | 0 <= k < |FILES| ensures Entries(a, end, |FILES|)[k] == entries[k] {
        assert CentralRead(p, k, a, entries[k]);
      }
      assert Entries(a, end, |FILES|) == entries;
    } else {
      var k :| 0 <= k < |FILES| && !CentralOk(a, Start(a, end, k));
      assert CentralRead(p, k, a, entries[k]);
      SizeWithinTotal(entries, k);
    }
  }

  lemma {:induction false} OutputIsFiles(a: Bytes, entries: seq<Entry>, sources: seq<Source>, codec: Codec)
    requires |entries| == |sources| && forall k | 0 <= k < |entries| :: Carries(a, entries[k], sources[k], codec)
    ensures forall e | e in entries ::
              e.localOffset + 30 <= |a| && DataStart(a, e) + e.compressedSize <= |a| && Unpacked(a, e, codec).Some?
    ensures Output(a, entries, codec) == FilesOf(sources)
    decreases |entries|
  {
    forall e | e in entries
      ensures e.localOffset + 30 <= |a| && DataStart(a, e) + e.compressedSize <= |a| && Unpacked(a, e, codec).Some?
    {
      var k :| 0 <= k < |entries| && entries[k] == e;
      assert Carries(a, entries[k], sources[k], codec);
    }
    if entries != [] {
      var n := |entries| - 1;
      OutputIsFiles(a, entries[..n], sources[..n], codec);
      assert Carries(a, entries[n], sources[n], codec);
    }
  }

  /** An entry that unpacks to its source. */
  predicate Carries(a: Bytes, e: Entry, s: Source, codec: Codec) {
    && e.localOffset + 30 <= |a|
    && DataStart(a, e) + e.compressedSize <= |a|
    && e.name == s.name && Unpacked(a, e, codec) == Some(s.data)
  }

  lemma LocalsAreOk(p: Parts, a: Bytes, entries: seq<Entry>, sources: seq<Source>, codec: Codec)
    requires |entries| == |sources| == |p.locals|
    requires forall k | 0 <= k < |entries| :: LocalRead(p, k, a, entries[k], sources[k], codec)
    ensures LocalsOk(a, entries, |Concat(p.locals)|, codec)
    ensures forall k | 0 <= k < |entries| :: Carries(a, entries[k], sources[k], codec)
  {
    forall e | e in entries ensures EntryOk(a, e, |Concat(p.locals)|, codec) {
      var k :| 0 <= k < |entries| && entries[k] == e;
      assert LocalRead(p, k, a, entries[k], sources[k], codec);
    }
    forall k | 0 <= k < |entries| ensures Carries(a, entries[k], sources[k], codec) {
      assert LocalRead(p, k, a, entries[k], sources[k], codec);
    }
  }

  lemma TwoAreApart(p: Parts, a: Bytes, i: nat, j: nat, e: Entry, f: Entry, s: Source, t: Source, codec: Codec)
    requires i < j < |p.locals| && LocalRead(p, i, a, e, s, codec) && LocalRead(p, j, a, f, t, codec)
    requires e.localOffset + 30 <= |a| && f.localOffset + 30 <= |a|
    ensures Apart(LocalRange(a, e), LocalRange(a, f))
  {
    LocalAtNext(p, i);
    LocalAtGrows(p, i + 1, j);
  }

  lemma LocalsAreApart(p: Parts, a: Bytes, entries: seq<Entry>, sources: seq<Source>, codec: Codec)
    requires |entries| == |sources| == |p.locals|
    requires forall k | 0 <= k < |entries| :: LocalRead(p, k, a, entries[k], sources[k], codec)
    requires forall e | e in entries :: e.localOffset + 30 <= |a|
    ensures LocalsApart(a, entries)
  {
    forall i, j | 0 <= i < j < |entries| ensures Apart(LocalRange(a, entries[i]), LocalRange(a, entries[j])) {
      assert LocalRead(p, i, a, entries[i], sources[i], codec) && LocalRead(p, j, a, entries[j], sources[j], codec);
      TwoAreApart(p, a, i, j, entries[i], entries[j], sources[i], sources[j], codec);
    }
  }

  lemma ContentsRead(p: Parts, a: Bytes, entries: seq<Entry>, sources: seq<Source>, codec: Codec)
    requires Closed(p, a) && |entries| == |sources| == |FILES|
    requires forall k | 0 <= k < |entries| :: LocalRead(p, k, a, entries[k], sources[k], codec)
    requires DirectoryOk(a, p.CentralAt(|FILES|)) && Entries(a, p.CentralAt(|FILES|), |FILES|) == entries
    ensures ContentsOk(a, p.CentralAt(|FILES|), codec)
    ensures Output(a, entries, codec) == FilesOf(sources)
  {
    WholeParts(p);
    LocalsAreOk(p, a, entries, sources, codec);
    OutputIsFiles(a, entries, sources, codec);
    LocalsAreApart(p, a, entries, sources, codec);
  }

  /** Whatever archive reads like this part by part, reads like this as a whole. */
  lemma PartsDecide(p: Parts, a: Bytes, entries: seq<Entry>, sources: seq<Source>, codec: Codec)
    requires Closed(p, a) && |entries| == |sources| == |FILES| && DistinctNames(entries)
    requires forall k | 0 <= k < |FILES| :: CentralRead(p, k, a, entries[k])
    requires |a| <= MAX_ARCHIVE_OUTPUT_BYTES && TotalOutput(entries) <= MAX_ARCHIVE_OUTPUT_BYTES ==>
               forall k | 0 <= k < |FILES| :: LocalRead(p, k, a, entries[k], sources[k], codec)
    ensures var fits := |a| <= MAX_ARCHIVE_OUTPUT_BYTES && TotalOutput(entries) <= MAX_ARCHIVE_OUTPUT_BYTES;
            ParsesTo(a, codec, if fits then Some(FilesOf(sources)) else None)
  {
    var end := p.CentralAt(|FILES|);
    DirectoryDecided(p, a, entries);
    if |a| <= MAX_ARCHIVE_OUTPUT_BYTES && TotalOutput(entries) <= MAX_ARCHIVE_OUTPUT_BYTES {
      ContentsRead(p, a, entries, sources, codec);
      AcceptedParses(a, end, codec);
    } else {
      RejectedAt(a, end, codec);
    }
  }

  lemma AcceptedParses(a: Bytes, end: nat, codec: Codec)
    requires Accepts(a, end, codec)
    ensures ParsesTo(a, codec, Some(Output(a, Entries(a, end, |FILES|), codec)))
  {
  }

  // ----- the parts the packer writes -----

  lemma PackedIsClosed(sources: seq<Source>, codec: Codec, p: Parts)
    requires Packable(sources) && |sources| == |FILES| && p == PartsOf(sources, codec)
    requires |p.Archive()| < 0x1_0000_0000
    ensures Closed(p, p.Archive())
  {
    WholeParts(p);
    EndOfArchive(p.Archive(), Concat(p.locals) + Concat(p.centrals), |sources|, |Concat(p.centrals)|,
                 |Concat(p.locals)|);
  }

  /** The entries the reader should find. */
  function ExpectedEntries(sources: seq<Source>, p: Parts, codec: Codec): (entries: seq<Entry>)
    requires |p.locals| == |sources|
    ensures |entries| == |sources|
  {
    seq(|sources|, k requires 0 <= k < |sources| => Expected(sources[k], p.LocalAt(k), codec))
  }

  lemma PackedCentralReads(sources: seq<Source>, k: nat, codec: Codec, p: Parts)
    requires ReleaseFiles(sources) && Sound(codec) && p == PartsOf(sources, codec) && k < |sources|
    requires |p.Archive()| < 0x1_0000_0000
    ensures CentralRead(p, k, p.Archive(), Expected(sources[k], p.LocalAt(k), codec))
  {
    PartsContain(p, k);
    CentralPartAt(sources, k, p.locals, codec);
    FileNamesAreShort();
    CentralRoundTrip(p.Archive(), p.CentralAt(k), sources[k], p.LocalAt(k), codec);
  }

  lemma PackedLocalReads(sources: seq<Source>, k: nat, codec: Codec, p: Parts)
    requires ReleaseFiles(sources) && Sound(codec) && Inverts(codec) && p == PartsOf(sources, codec) && k < |sources|
    requires |p.Archive()| <= MAX_ARCHIVE_OUTPUT_BYTES && |sources[k].data| <= MAX_ARCHIVE_OUTPUT_BYTES
    ensures LocalRead(p, k, p.Archive(), Expected(sources[k], p.LocalAt(k), codec), sources[k], codec)
  {
    PartsContain(p, k);
    LocalPartAt(sources, k, codec);
    FileNamesAreShort();
    LocalAtNext(p, k);
    LocalAtGrows(p, k + 1, |sources|);
    WholeParts(p);
    LocalRoundTrip(p.Archive(), p.LocalAt(k), sources[k], |Concat(p.locals)|, codec);
  }

  lemma ReleaseEntries(sources: seq<Source>, p: Parts, codec: Codec)
    requires ReleaseFiles(sources) && |p.locals| == |sources|
    ensures DistinctNames(ExpectedEntries(sources, p, codec))
    ensures TotalOutput(ExpectedEntries(sources, p, codec)) == TotalData(sources)
  {
    TotalsAgree(sources, ExpectedEntries(sources, p, codec));
  }

  lemma PackedDirectoryReads(sources: seq<Source>, codec: Codec, p: Parts, entries: seq<Entry>)
    requires ReleaseFiles(sources) && Sound(codec) && p == PartsOf(sources, codec)
    requires |p.Archive()| < 0x1_0000_0000 && entries == ExpectedEntries(sources, p, codec)
    ensures forall k | 0 <= k < |FILES| :: CentralRead(p, k, p.Archive(), entries[k])
  {
    forall k | 0 <= k < |FILES| ensures CentralRead(p, k, p.Archive(), entries[k]) {
      PackedCentralReads(sources, k, codec, p);
    }
  }

  lemma PackedLocalsRead(sources: seq<Source>, codec: Codec, p: Parts, entries: seq<Entry>)
    requires ReleaseFiles(sources) && Sound(codec) && Inverts(codec) && p == PartsOf(sources, codec)
    requires |p.Archive()| <= MAX_ARCHIVE_OUTPUT_BYTES && entries == ExpectedEntries(sources, p, codec)
    requires TotalOutput(entries) <= MAX_ARCHIVE_OUTPUT_BYTES
    ensures forall k | 0 <= k < |FILES| :: LocalRead(p, k, p.Archive(), entries[k], sources[k], codec)
  {
    forall k | 0 <= k < |FILES| ensures LocalRead(p, k, p.Archive(), entries[k], sources[k], codec) {
      SizeWithinTotal(entries, k);
      PackedLocalReads(sources, k, codec, p);
    }
  }

  lemma PackedParses(sources: seq<Source>, codec: Codec, p: Parts)
    requires ReleaseFiles(sources) && Sound(codec) && Inverts(codec) && p == PartsOf(sources, codec)
    requires |p.Archive()| < 0x1_0000_0000
    ensures var fits := |p.Archive()| <= MAX_ARCHIVE_OUTPUT_BYTES && TotalData(sources) <= MAX_ARCHIVE_OUTPUT_BYTES;
            ParsesTo(p.Archive(), codec, if fits then Some(FilesOf(sources)) else None)
  {
    var entries := ExpectedEntries(sources, p, codec);
    PackedIsClosed(sources, codec, p);
    ReleaseEntries(sources, p, codec);
    PackedDirectoryReads(sources, codec, p, entries);
    if |p.Archive()| <= MAX_ARCHIVE_OUTPUT_BYTES && TotalOutput(entries) <= MAX_ARCHIVE_OUTPUT_BYTES {
      PackedLocalsRead(sources, codec, p, entries);
    }
    PartsDecide(p, p.Archive(), entries, sources, codec);
  }

  /**
   Reading what the packer wrote gives back exactly the packed files, in whatever order they were packed and whichever
   of them were compressed, if and only if archive and files are within the reader's limit.
   */
  lemma RoundTrip(sources: seq<Source>, codec: Codec)
    requires ReleaseFiles(sources) && Genuine(codec) && Inverts(codec)
    ensures var fits := |Archive(sources, codec)| <= MAX_ARCHIVE_OUTPUT_BYTES
                        && TotalData(sources) <= MAX_ARCHIVE_OUTPUT_BYTES;
            ParsesTo(Archive(sources, codec), codec, if fits then Some(FilesOf(sources)) else None)
  {
    if |Archive(sources, codec)| < 0x1_0000_0000 {
      ChecksumsFit(codec);
      PackedParses(sources, codec, PartsOf(sources, codec));
    }
  }

  /** The packer throws on no release whose archive has a 32-bit size. */
  lemma SmallArchivesFit(sources: seq<Source>, codec: Codec)
    requires ReleaseFiles(sources) && |Archive(sources, codec)| < 0x1_0000_0000
    ensures ArchiveFits(sources, codec)
  {
    var p := PartsOf(sources, codec);
    WholeParts(p);
    forall k | 0 <= k < |sources| ensures FitsAt(sources, p, k) {
      LocalAtGrows(p, k, |p.locals|);
      EntryOfSmallArchive(sources, k, p.LocalAt(k));
    }
  }

  lemma EntryOfSmallArchive(sources: seq<Source>, k: nat, offset: nat)
    requires ReleaseFiles(sources) && k < |sources| && offset < 0x1_0000_0000
    ensures EntryFits(sources[k], offset)
  {
    FileNamesAreShort();
    assert sources[k] in sources;
  }

  // ----- stored archives -----

  /** A codec whose deflation never helps, so that every file is stored. */
  const STORING: Codec := Codec(data => data, data => Some(data), Crc32Of)

  /** The release files with these contents. */
  function Release(contents: seq<Bytes>): (sources: seq<Source>)
    requires |contents| == |FILES|
    ensures |sources| == |FILES|
  {
    seq(|FILES|, k requires 0 <= k < |FILES| => Source(FILES[k], contents[k], 0x1A4))
  }

  lemma FileNamesAreAscii()
    ensures forall f | f in FILES :: IsAscii(f)
  {
  }

  lemma ReleaseIsPackable(contents: seq<Bytes>)
    requires |contents| == |FILES| && forall data | data in contents :: |data| <= MAX_ARCHIVE_OUTPUT_BYTES
    ensures ReleaseFiles(Release(contents))
  {
    var sources := Release(contents);
    FileNamesAreAscii();
    FilesAreDistinct();
    forall s | s in sources ensures s.name in FILES && |s.data| <= MAX_ARCHIVE_OUTPUT_BYTES && s.mode < 0x1000 {
      var k :| 0 <= k < |sources| && sources[k] == s;
      assert contents[k] in contents;
    }
  }

  lemma StoringIsGenuine()
    ensures Genuine(STORING) && Inverts(STORING)
  {
  }

  /** Stored files are never larger together than their local records. */
  lemma {:induction false} StoredWithinLocals(sources: seq<Source>)
    requires Packable(sources)
    ensures TotalData(sources) <= |Concat(LocalParts(sources, STORING))|
    decreases |sources|
  {
    if sources != [] {
      var n := |sources| - 1;
      StoredWithinLocals(sources[..n]);
      assert LocalParts(sources, STORING)[..n] == LocalParts(sources[..n], STORING);
      LocalPartAt(sources, n, STORING);
    }
  }

  /** The files of every stored release come back from its archive, whatever they contain, if it is within the limit. */
  lemma StoredReleaseComesBack(contents: seq<Bytes>)
    requires |contents| == |FILES| && forall data | data in contents :: |data| <= MAX_ARCHIVE_OUTPUT_BYTES
    ensures ReleaseFiles(Release(contents))
    ensures var archive := Archive(Release(contents), STORING);
            |archive| <= MAX_ARCHIVE_OUTPUT_BYTES ==> ParsesTo(archive, STORING, Some(FilesOf(Release(contents))))
  {
    ReleaseIsPackable(contents);
    if |Archive(Release(contents), STORING)| <= MAX_ARCHIVE_OUTPUT_BYTES {
      StoringIsGenuine();
      StoredWithinLocals(Release(contents));
      RoundTrip(Release(contents), STORING);
    }
  }

  /** Reading has one outcome. */
  lemma ParsingIsFunctional(a: Bytes, codec: Codec, x: Option<map<string, Bytes>>, y: Option<map<string, Bytes>>)
    requires ParsesTo(a, codec, x) && ParsesTo(a, codec, y)
    ensures x == y
  {
    if x.Some? && y.Some? {
      var m :| Accepts(a, m, codec) && x.value == Output(a, Entries(a, m, |FILES|), codec);
      var n :| Accepts(a, n, codec) && y.value == Output(a, Entries(a, n, |FILES|), codec);
      EndIsUnique(a, m, n);
    }
  }
}
