/** What the reader of update archives accepts, and what it takes out of them. */
module ZipFormat {
  import opened Prelude

  type Byte = x: int | 0 <= x < 256
  type Bytes = seq<Byte>

  /** Raw deflation, raw inflation (or nothing where it throws), and the checksum. */
  datatype Codec = Codec(deflate: Bytes -> Bytes, inflate: Bytes -> Option<Bytes>, crc32: Bytes -> nat)

  const FILES: seq<string> := [
    "index.mjs", "package.json", "plugin-icon.png", "plugin.json",
    "webui/app.js", "webui/index.html", "webui/release-view.js", "webui/user-security.js"
  ]

  lemma FilesAreDistinct()
    ensures forall i, j | 0 <= i < j < |FILES| :: FILES[i] != FILES[j]
  {
    assert FILES[1][0] == 'p' && FILES[4][0] == 'w';
  }

  const ZIP_LOCAL_HEADER: nat := 0x04034b50
  const ZIP_CENTRAL_HEADER: nat := 0x02014b50
  const ZIP_EOCD: nat := 0x06054b50
  const UTF8_FLAG: nat := 0x0800
  const MAX_ARCHIVE_OUTPUT_BYTES: nat := 100 * 1024 * 1024
  const STORED: nat := 0
  const DEFLATED: nat := 8
  const UNIX: nat := 3
  const REGULAR_FILE: nat := 8  // the top four bits of a Unix mode

  datatype Entry = Entry(name: string, compression: nat, flags: nat, crc32: nat, compressedSize: nat,
                         uncompressedSize: nat, localOffset: nat)

  /** The bytes from start up to end. */
  datatype Range = Range(start: nat, end: nat)

  // ----- little-endian numbers and names -----

  function U16(a: Bytes, at: nat): (n: nat)
    requires at + 2 <= |a|
    ensures n < 0x1_0000
  {
    (a[at] as int) + 0x100 * (a[at + 1] as int)
  }

  function U32(a: Bytes, at: nat): (n: nat)
    requires at + 4 <= |a|
    ensures n < 0x1_0000_0000
  {
    U16(a, at) + 0x1_0000 * U16(a, at + 2)
  }

  function Ascii(bytes: Bytes): string {
    seq(|bytes|, i requires 0 <= i < |bytes| => bytes[i] as char)
  }

  /**
   UTF-8 decoding as far as names go: a leading byte order mark is dropped. A byte above 127 is either an error or
   yields a name that is not expected, so both count as no name.
   */
  function DecodeName(bytes: Bytes): Option<string> {
    var text := if |bytes| >= 3 && bytes[..3] == [0xEF, 0xBB, 0xBF] then bytes[3..] else bytes;
    if forall b | b in text :: b < 128 then Some(Ascii(text)) else None
  }

  // ----- the end record -----

  predicate EndRecordAt(a: Bytes, at: nat) {
    at + 22 <= |a| && U32(a, at) == ZIP_EOCD && at + 22 + U16(a, at + 20) == |a|
  }

  /** The last end record whose comment reaches exactly to the end. */
  predicate IsEnd(a: Bytes, end: nat) {
    EndRecordAt(a, end) && forall at | end < at <= |a| :: !EndRecordAt(a, at)
  }

  function CentralOffset(a: Bytes, end: nat): nat
    requires end + 22 <= |a|
  {
    U32(a, end + 16)
  }

  predicate LayoutOk(a: Bytes, end: nat)
    requires end + 22 <= |a|
  {
    && U16(a, end + 4) == 0 && U16(a, end + 6) == 0
    && U16(a, end + 8) == U16(a, end + 10) == |FILES|
    && CentralOffset(a, end) + U32(a, end + 12) == end
  }

  // ----- the central directory -----

  function NextRecord(a: Bytes, at: nat): nat {
    if at + 46 <= |a| then at + 46 + U16(a, at + 28) + U16(a, at + 30) + U16(a, at + 32) else at
  }

  function CentralName(a: Bytes, at: nat): Option<string>
    requires at + 46 <= |a| && NextRecord(a, at) <= |a|
  {
    DecodeName(a[at + 46..at + 46 + U16(a, at + 28)])
  }

  predicate CentralOk(a: Bytes, at: nat) {
    && at + 46 <= |a|
    && U32(a, at) == ZIP_CENTRAL_HEADER
    && NextRecord(a, at) <= |a|
    && CentralName(a, at).Some? && CentralName(a, at).value in FILES
    && U16(a, at + 8) == UTF8_FLAG
    && (U16(a, at + 10) == STORED || U16(a, at + 10) == DEFLATED)
    && U16(a, at + 34) == 0
    && U16(a, at + 4) / 0x100 == UNIX
    && U32(a, at + 38) / 0x1_0000 / 0x1000 == REGULAR_FILE
    && U32(a, at + 20) <= MAX_ARCHIVE_OUTPUT_BYTES
    && U32(a, at + 24) <= MAX_ARCHIVE_OUTPUT_BYTES
  }

  function EntryAt(a: Bytes, at: nat): Entry
    requires CentralOk(a, at)
  {
    Entry(CentralName(a, at).value, U16(a, at + 10), U16(a, at + 8), U32(a, at + 16), U32(a, at + 20), U32(a, at + 24),
          U32(a, at + 42))
  }

  /** Where the k-th central record starts. */
  function Start(a: Bytes, end: nat, k: nat): nat
    requires end + 22 <= |a|
  {
    if k == 0 then CentralOffset(a, end) else NextRecord(a, Start(a, end, k - 1))
  }

  predicate RecordsOk(a: Bytes, end: nat, n: nat)
    requires end + 22 <= |a|
  {
    forall k | 0 <= k < n :: CentralOk(a, Start(a, end, k))
  }

  function Entries(a: Bytes, end: nat, n: nat): (entries: seq<Entry>)
    requires end + 22 <= |a| && RecordsOk(a, end, n)
    ensures |entries| == n && forall k :: 0 <= k < n ==> entries[k] == EntryAt(a, Start(a, end, k))
  {
    if n == 0 then [] else Entries(a, end, n - 1) + [EntryAt(a, Start(a, end, n - 1))]
  }

  predicate DistinctNames(entries: seq<Entry>) {
    forall i, j | 0 <= i < j < |entries| :: entries[i].name != entries[j].name
  }

  function NamesOf(entries: seq<Entry>): set<string> {
    set e | e in entries :: e.name
  }

  function TotalOutput(entries: seq<Entry>): nat {
    if entries == [] then 0 else TotalOutput(entries[..|entries| - 1]) + entries[|entries| - 1].uncompressedSize
  }

  predicate DirectoryOk(a: Bytes, end: nat)
    requires end + 22 <= |a|
  {
    && RecordsOk(a, end, |FILES|)
    && Start(a, end, |FILES|) == end
    && DistinctNames(Entries(a, end, |FILES|))
    && TotalOutput(Entries(a, end, |FILES|)) <= MAX_ARCHIVE_OUTPUT_BYTES
  }

  // ----- local records -----

  function DataStart(a: Bytes, e: Entry): nat
    requires e.localOffset + 30 <= |a|
  {
    e.localOffset + 30 + U16(a, e.localOffset + 26) + U16(a, e.localOffset + 28)
  }

  /** Its numbers are those of its entry. */
  predicate LocalNumbers(a: Bytes, e: Entry)
    requires e.localOffset + 30 <= |a|
  {
    var at := e.localOffset;
    && U32(a, at) == ZIP_LOCAL_HEADER
    && U16(a, at + 6) == e.flags
    && U16(a, at + 8) == e.compression
    && U32(a, at + 14) == e.crc32
    && U32(a, at + 18) == e.compressedSize
    && U32(a, at + 22) == e.uncompressedSize
  }

  /** It has room for its data, has its entry's name and ends in time. */
  predicate LocalFits(a: Bytes, e: Entry, below: nat)
    requires e.localOffset + 30 <= |a|
  {
    var at := e.localOffset;
    && DataStart(a, e) + e.compressedSize <= |a|
    && DecodeName(a[at + 30..at + 30 + U16(a, at + 26)]) == Some(e.name)
    && DataStart(a, e) + e.compressedSize <= below
  }

  predicate LocalOk(a: Bytes, e: Entry, below: nat) {
    e.localOffset + 30 <= |a| && LocalNumbers(a, e) && LocalFits(a, e, below)
  }

  function LocalRange(a: Bytes, e: Entry): Range
    requires e.localOffset + 30 <= |a|
  {
    Range(e.localOffset, DataStart(a, e) + e.compressedSize)
  }

  function Unpacked(a: Bytes, e: Entry, codec: Codec): Option<Bytes>
    requires e.localOffset + 30 <= |a| && DataStart(a, e) + e.compressedSize <= |a|
  {
    var packed := a[DataStart(a, e)..DataStart(a, e) + e.compressedSize];
    if e.compression == STORED then Some(packed) else codec.inflate(packed)
  }

  predicate Intact(e: Entry, data: Option<Bytes>, codec: Codec) {
    data.Some? && |data.value| == e.uncompressedSize && codec.crc32(data.value) == e.crc32
  }

  predicate EntryOk(a: Bytes, e: Entry, below: nat, codec: Codec) {
    LocalOk(a, e, below) && Intact(e, Unpacked(a, e, codec), codec)
  }

  predicate Apart(p: Range, q: Range) {
    p.end <= q.start || q.end <= p.start
  }

  // ----- archives -----

  ghost predicate LocalsOk(a: Bytes, entries: seq<Entry>, below: nat, codec: Codec) {
    forall e | e in entries :: EntryOk(a, e, below, codec)
  }

  ghost predicate LocalsApart(a: Bytes, entries: seq<Entry>)
    requires forall e | e in entries :: e.localOffset + 30 <= |a|
  {
    forall i, j | 0 <= i < j < |entries| :: Apart(LocalRange(a, entries[i]), LocalRange(a, entries[j]))
  }

  ghost predicate ContentsOk(a: Bytes, end: nat, codec: Codec)
    requires end + 22 <= |a|
  {
    && DirectoryOk(a, end)
    && var entries := Entries(a, end, |FILES|);
    && LocalsOk(a, entries, CentralOffset(a, end), codec)
    && LocalsApart(a, entries)
  }

  /** What the reader requires of an archive whose end record is at the given offset. */
  ghost predicate Accepts(a: Bytes, end: nat, codec: Codec) {
    && 22 <= |a| <= MAX_ARCHIVE_OUTPUT_BYTES
    && IsEnd(a, end)
    && LayoutOk(a, end)
    && ContentsOk(a, end, codec)
  }

  function Output(a: Bytes, entries: seq<Entry>, codec: Codec): map<string, Bytes>
    requires forall e | e in entries ::
      e.localOffset + 30 <= |a| && DataStart(a, e) + e.compressedSize <= |a| && Unpacked(a, e, codec).Some?
  {
    if entries == [] then map[]
    else
      var e := entries[|entries| - 1];
      Output(a, entries[..|entries| - 1], codec)[e.name := Unpacked(a, e, codec).value]
  }

  /** The outcome of reading an archive: its files, or nothing where the reader throws. */
  ghost predicate ParsesTo(a: Bytes, codec: Codec, output: Option<map<string, Bytes>>) {
    match output
    case None => forall end :: !Accepts(a, end, codec)
    case Some(files) =>
      exists end :: Accepts(a, end, codec) && files == Output(a, Entries(a, end, |FILES|), codec)
  }
}

/** The checksum of archive entries, as the number their headers hold. */
module ZipChecksum {
  import opened ZipFormat
  import Crc32

  function Octets(data: Bytes): seq<bv8> {
    seq(|data|, i requires 0 <= i < |data| => data[i] as bv8)
  }

  function Crc32Of(data: Bytes): (crc: nat)
    ensures crc < 0x1_0000_0000
  {
    Crc32.Checksum(Octets(data)) as nat
  }

  /** The codec's checksum is CRC-32. */
  ghost predicate Genuine(codec: Codec) {
    forall data: Bytes {:trigger Crc32Of(data)} :: codec.crc32(data) == Crc32Of(data)
  }

  method Crc32Value(data: Bytes, table: array<bv32>) returns (crc: nat)
    requires Crc32.IsTable(table[..])
    ensures crc == Crc32Of(data)
  {
    var word := Crc32.ComputeCrc32(Octets(data), table);
    crc := word as nat;
  }

  method Checksum(data: Bytes, codec: Codec, table: array<bv32>) returns (crc: nat)
    requires Genuine(codec) && Crc32.IsTable(table[..])
    ensures crc == codec.crc32(data)
  {
    crc := Crc32Value(data, table);
  }

  lemma ChecksumsFit(codec: Codec)
    requires Genuine(codec)
    ensures forall data: Bytes :: codec.crc32(data) < 0x1_0000_0000
  {
    forall data: Bytes ensures codec.crc32(data) < 0x1_0000_0000 {
      assert Crc32Of(data) < 0x1_0000_0000;
    }
  }
}
