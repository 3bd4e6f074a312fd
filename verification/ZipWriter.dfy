/** The packer of the release archives, with the layout it gives an archive. */
module ZipWriter {
  import opened Prelude
  import opened ZipFormat
  import Crc32
  import opened ZipChecksum

  const DOS_TIME: nat := 0x0000
  const DOS_DATE: nat := 0x0021
  const VERSION: nat := 20
  const REGULAR_FILE_MODE: nat := 0x8000

  datatype Source = Source(name: string, data: Bytes, mode: nat)

  // ----- fields -----

  function Byte0(n: nat): Byte {
    n % 0x100
  }

  function Byte1(n: nat): Byte {
    n / 0x100 % 0x100
  }

  function Byte2(n: nat): Byte {
    n / 0x100 / 0x100 % 0x100
  }

  function Byte3(n: nat): Byte {
    n / 0x100 / 0x100 / 0x100 % 0x100
  }

  /** A number written in two or in four bytes. */
  datatype Field = Short(value: nat) | Long(value: nat) {

    predicate Fits() {
      value < if Short? then 0x1_0000 else 0x1_0000_0000
    }

    function Width(): nat {
      if Short? then 2 else 4
    }

    function Bytes(): Bytes {
      if Short? then [Byte0(value), Byte1(value)] else [Byte0(value), Byte1(value), Byte2(value), Byte3(value)]
    }
  }

  /** Fields written one behind the other. */
  function Fields(fields: seq<Field>): Bytes {
    if fields == [] then [] else Fields(fields[..|fields| - 1]) + fields[|fields| - 1].Bytes()
  }

  function Offset(fields: seq<Field>, k: nat): nat
    requires k <= |fields|
  {
    if k == 0 then 0 else Offset(fields, k - 1) + fields[k - 1].Width()
  }

  /** The fields of a central header are short but for these. */
  predicate CentralLayout(f: seq<Field>) {
    |f| == 17 && forall k | 0 <= k < 17 :: f[k].Long? <==> k in {0, 7, 8, 9, 15, 16}
  }

  lemma CentralOffsets(f: seq<Field>)
    requires CentralLayout(f)
    ensures Offset(f, 0) == 0 && Offset(f, 1) == 4 && Offset(f, 2) == 6 && Offset(f, 3) == 8 && Offset(f, 4) == 10
    ensures Offset(f, 5) == 12 && Offset(f, 6) == 14 && Offset(f, 7) == 16 && Offset(f, 8) == 20 && Offset(f, 9) == 24
    ensures Offset(f, 10) == 28 && Offset(f, 11) == 30 && Offset(f, 12) == 32 && Offset(f, 13) == 34
    ensures Offset(f, 14) == 36 && Offset(f, 15) == 38 && Offset(f, 16) == 42 && Offset(f, 17) == 46
  {
    assert f[0].Long? && f[1].Short?;
    assert Offset(f, 1) == 4;
    assert Offset(f, 2) == 6;
    assert Offset(f, 4) == 10;
    assert Offset(f, 6) == 14;
    assert Offset(f, 8) == 20;
    assert Offset(f, 10) == 28;
    assert Offset(f, 12) == 32;
    assert Offset(f, 14) == 36;
    assert Offset(f, 16) == 42;
  }

  /** The fields of a local header are short but for these. */
  predicate LocalLayout(f: seq<Field>) {
    |f| == 11 && forall k | 0 <= k < 11 :: f[k].Long? <==> k in {0, 6, 7, 8}
  }

  lemma LocalOffsets(f: seq<Field>)
    requires LocalLayout(f)
    ensures Offset(f, 0) == 0 && Offset(f, 1) == 4 && Offset(f, 2) == 6 && Offset(f, 3) == 8 && Offset(f, 4) == 10
    ensures Offset(f, 5) == 12 && Offset(f, 6) == 14 && Offset(f, 7) == 18 && Offset(f, 8) == 22 && Offset(f, 9) == 26
    ensures Offset(f, 10) == 28 && Offset(f, 11) == 30
  {
    assert f[0].Long? && f[1].Short?;
    assert Offset(f, 1) == 4;
    assert Offset(f, 2) == 6;
    assert Offset(f, 4) == 10;
    assert Offset(f, 6) == 14;
    assert Offset(f, 8) == 22;
    assert Offset(f, 10) == 28;
  }

  /** The fields of an end record are short but for these. */
  predicate EndLayout(f: seq<Field>) {
    |f| == 8 && forall k | 0 <= k < 8 :: f[k].Long? <==> k in {0, 5, 6}
  }

  lemma EndOffsets(f: seq<Field>)
    requires EndLayout(f)
    ensures Offset(f, 0) == 0 && Offset(f, 1) == 4 && Offset(f, 2) == 6 && Offset(f, 3) == 8 && Offset(f, 4) == 10
    ensures Offset(f, 5) == 12 && Offset(f, 6) == 16 && Offset(f, 7) == 20 && Offset(f, 8) == 22
  {
    assert f[0].Long? && f[1].Short?;
    assert Offset(f, 1) == 4;
    assert Offset(f, 2) == 6;
    assert Offset(f, 4) == 10;
    assert Offset(f, 6) == 16;
  }

  function LocalHeader(compression: nat, crc: nat, packed: nat, size: nat, name: nat): Bytes {
    Fields([Long(ZIP_LOCAL_HEADER), Short(VERSION), Short(UTF8_FLAG), Short(compression), Short(DOS_TIME),
            Short(DOS_DATE), Long(crc), Long(packed), Long(size), Short(name), Short(0)])
  }

  function CentralHeader(compression: nat, crc: nat, packed: nat, size: nat, name: nat, attributes: nat, offset: nat)
    : Bytes
  {
    Fields([Long(ZIP_CENTRAL_HEADER), Short(UNIX * 0x100 + VERSION), Short(VERSION), Short(UTF8_FLAG),
            Short(compression), Short(DOS_TIME), Short(DOS_DATE), Long(crc), Long(packed), Long(size), Short(name),
            Short(0), Short(0), Short(0), Short(0), Long(attributes), Long(offset)])
  }

  function EndRecord(count: nat, size: nat, offset: nat): Bytes {
    Fields([Long(ZIP_EOCD), Short(0), Short(0), Short(count), Short(count), Long(size), Long(offset), Short(0)])
  }

  // ----- records -----

  function NameBytes(name: string): (bytes: Bytes)
    requires IsAscii(name)
    ensures |bytes| == |name|
  {
    seq(|name|, i requires 0 <= i < |name| => name[i] as int)
  }

  predicate IsAscii(name: string) {
    forall i | 0 <= i < |name| :: name[i] as int < 128
  }

  function Compression(s: Source, codec: Codec): nat {
    if |codec.deflate(s.data)| < |s.data| then DEFLATED else STORED
  }

  function Payload(s: Source, codec: Codec): Bytes {
    if |codec.deflate(s.data)| < |s.data| then codec.deflate(s.data) else s.data
  }

  function LocalRecord(s: Source, codec: Codec): Bytes
    requires IsAscii(s.name)
  {
    LocalHeader(Compression(s, codec), codec.crc32(s.data), |Payload(s, codec)|, |s.data|, |s.name|)
    + NameBytes(s.name) + Payload(s, codec)
  }

  function Attributes(s: Source): nat {
    (REGULAR_FILE_MODE + s.mode) * 0x1_0000
  }

  function CentralRecord(s: Source, offset: nat, codec: Codec): Bytes
    requires IsAscii(s.name)
  {
    CentralHeader(Compression(s, codec), codec.crc32(s.data), |Payload(s, codec)|, |s.data|, |s.name|, Attributes(s),
                  offset)
    + NameBytes(s.name)
  }

  /** What the packer is given: ASCII names and permission bits. */
  predicate Packable(sources: seq<Source>) {
    forall s | s in sources :: IsAscii(s.name) && s.mode < 0x1000
  }

  function Concat(parts: seq<Bytes>): Bytes {
    if parts == [] then [] else Concat(parts[..|parts| - 1]) + parts[|parts| - 1]
  }

  lemma ConcatLast(parts: seq<Bytes>, last: Bytes)
    ensures Concat(parts + [last]) == Concat(parts) + last
  {
    assert (parts + [last])[..|parts|] == parts;
  }

  function LocalParts(sources: seq<Source>, codec: Codec): (parts: seq<Bytes>)
    requires Packable(sources)
    ensures |parts| == |sources|
  {
    seq(|sources|, k requires 0 <= k < |sources| => LocalRecord(sources[k], codec))
  }

  function CentralParts(sources: seq<Source>, locals: seq<Bytes>, codec: Codec): (parts: seq<Bytes>)
    requires Packable(sources) && |locals| == |sources|
    ensures |parts| == |sources|
  {
    seq(|sources|, k requires 0 <= k < |sources| => CentralRecord(sources[k], |Concat(locals[..k])|, codec))
  }

  /** An archive taken apart: its local records, its directory and its end record. */
  datatype Parts = Parts(locals: seq<Bytes>, centrals: seq<Bytes>, end: Bytes) {

    function Archive(): Bytes {
      Concat(locals) + Concat(centrals) + end
    }

    /** Where the k-th local record starts. */
    function LocalAt(k: nat): nat
      requires k <= |locals|
    {
      |Concat(locals[..k])|
    }

    /** Where the k-th central record starts. */
    function CentralAt(k: nat): nat
      requires k <= |centrals|
    {
      |Concat(locals)| + |Concat(centrals[..k])|
    }
  }

  function PartsOf(sources: seq<Source>, codec: Codec): Parts
    requires Packable(sources)
  {
    var locals := LocalParts(sources, codec);
    var centrals := CentralParts(sources, locals, codec);
    Parts(locals, centrals, EndRecord(|sources|, |Concat(centrals)|, |Concat(locals)|))
  }

  function Archive(sources: seq<Source>, codec: Codec): Bytes
    requires Packable(sources)
  {
    PartsOf(sources, codec).Archive()
  }

  lemma LocalPartAt(sources: seq<Source>, k: nat, codec: Codec)
    requires Packable(sources) && k < |sources|
    ensures LocalParts(sources, codec)[k] == LocalRecord(sources[k], codec)
  {
  }

  lemma CentralPartAt(sources: seq<Source>, k: nat, locals: seq<Bytes>, codec: Codec)
    requires Packable(sources) && k < |sources| == |locals|
    ensures CentralParts(sources, locals, codec)[k] == CentralRecord(sources[k], |Concat(locals[..k])|, codec)
  {
  }

  // ----- writing -----

  /** Writing a number that fits into its place in a buffer. */
  method Put(buffer: array<Byte>, at: nat, field: Field, ghost fields: seq<Field>, ghost k: nat)
    requires k < |fields| && fields[k] == field && field.Fits()
    requires at == Offset(fields, k) && at + field.Width() <= buffer.Length && buffer[..at] == Fields(fields[..k])
    modifies buffer
    ensures buffer[..at + field.Width()] == Fields(fields[..k + 1])
  {
    ghost var before := buffer[..at];
    buffer[at] := Byte0(field.value);
    buffer[at + 1] := Byte1(field.value);
    if field.Long? {
      buffer[at + 2] := Byte2(field.value);
      buffer[at + 3] := Byte3(field.value);
    }
    assert buffer[..at + field.Width()] == before + field.Bytes();
    assert fields[..k + 1][..k] == fields[..k];
  }

  /** Writing a number throws where it does not fit. */
  method Write(buffer: array<Byte>, at: nat, field: Field, ghost fields: seq<Field>, ghost k: nat)
    returns (r: Outcome<()>)
    requires k < |fields| && fields[k] == field
    requires at == Offset(fields, k) && at + field.Width() <= buffer.Length && buffer[..at] == Fields(fields[..k])
    modifies buffer
    ensures !r.Crashed? && (r.Done? <==> field.Fits())
    ensures r.Done? ==> buffer[..at + field.Width()] == Fields(fields[..k + 1])
  {
    if !field.Fits() {
      return Threw;
    }
    Put(buffer, at, field, fields, k);
    return Done(());
  }

  /** The constant front of a local header. */
  method PutLocalFront(local: array<Byte>, compression: nat, ghost f: seq<Field>)
    requires local.Length == 30 && LocalLayout(f) && compression < 0x1_0000
    requires f[0] == Long(ZIP_LOCAL_HEADER) && f[1] == Short(VERSION) && f[2] == Short(UTF8_FLAG)
    requires f[3] == Short(compression) && f[4] == Short(DOS_TIME) && f[5] == Short(DOS_DATE)
    modifies local
    ensures local[..14] == Fields(f[..6])
  {
    LocalOffsets(f);
    Put(local, 0, Long(ZIP_LOCAL_HEADER), f, 0);
    Put(local, 4, Short(VERSION), f, 1);
    Put(local, 6, Short(UTF8_FLAG), f, 2);
    Put(local, 8, Short(compression), f, 3);
    Put(local, 10, Short(DOS_TIME), f, 4);
    Put(local, 12, Short(DOS_DATE), f, 5);
  }

  /** Checksum, sizes and name length, and no extra field. */
  method WriteLocalRest(local: array<Byte>, crc: nat, packed: nat, size: nat, name: nat, ghost f: seq<Field>)
    returns (r: Outcome<()>)
    requires local.Length == 30 && LocalLayout(f) && local[..14] == Fields(f[..6])
    requires f[6] == Long(crc) && f[7] == Long(packed) && f[8] == Long(size) && f[9] == Short(name) && f[10] == Short(0)
    modifies local
    ensures !r.Crashed?
    ensures r.Done? <==> crc < 0x1_0000_0000 && packed < 0x1_0000_0000 && size < 0x1_0000_0000 && name < 0x1_0000
    ensures r.Done? ==> local[..] == Fields(f)
  {
    LocalOffsets(f);
    var _ :- Write(local, 14, Long(crc), f, 6);
    var _ :- Write(local, 18, Long(packed), f, 7);
    var _ :- Write(local, 22, Long(size), f, 8);
    var _ :- Write(local, 26, Short(name), f, 9);
    Put(local, 28, Short(0), f, 10);
    assert f[..11] == f && local[..30] == local[..];
    return Done(());
  }

  method WriteLocalHeader(compression: nat, crc: nat, packed: nat, size: nat, name: nat) returns (r: Outcome<Bytes>)
    requires compression < 0x1_0000
    ensures !r.Crashed?
    ensures r.Done? <==> crc < 0x1_0000_0000 && packed < 0x1_0000_0000 && size < 0x1_0000_0000 && name < 0x1_0000
    ensures r.Done? ==> r.value == LocalHeader(compression, crc, packed, size, name)
  {
    ghost var f := [Long(ZIP_LOCAL_HEADER), Short(VERSION), Short(UTF8_FLAG), Short(compression), Short(DOS_TIME),
                    Short(DOS_DATE), Long(crc), Long(packed), Long(size), Short(name), Short(0)];
    var local := new Byte[30](_ => 0);
    PutLocalFront(local, compression, f);
    var _ :- WriteLocalRest(local, crc, packed, size, name, f);
    return Done(local[..]);
  }

  /** The constant front of a central header. */
  method PutCentralFront(central: array<Byte>, compression: nat, ghost f: seq<Field>)
    requires central.Length == 46 && CentralLayout(f) && compression < 0x1_0000
    requires f[0] == Long(ZIP_CENTRAL_HEADER) && f[1] == Short(UNIX * 0x100 + VERSION) && f[2] == Short(VERSION)
    requires f[3] == Short(UTF8_FLAG) && f[4] == Short(compression) && f[5] == Short(DOS_TIME) && f[6] == Short(DOS_DATE)
    modifies central
    ensures central[..16] == Fields(f[..7])
  {
    CentralOffsets(f);
    Put(central, 0, Long(ZIP_CENTRAL_HEADER), f, 0);
    Put(central, 4, Short(UNIX * 0x100 + VERSION), f, 1);
    Put(central, 6, Short(VERSION), f, 2);
    Put(central, 8, Short(UTF8_FLAG), f, 3);
    Put(central, 10, Short(compression), f, 4);
    Put(central, 12, Short(DOS_TIME), f, 5);
    Put(central, 14, Short(DOS_DATE), f, 6);
  }

  /** Checksum, sizes and name length. */
  method WriteCentralSizes(central: array<Byte>, crc: nat, packed: nat, size: nat, name: nat, ghost f: seq<Field>)
    returns (r: Outcome<()>)
    requires central.Length == 46 && CentralLayout(f) && central[..16] == Fields(f[..7])
    requires f[7] == Long(crc) && f[8] == Long(packed) && f[9] == Long(size) && f[10] == Short(name)
    modifies central
    ensures !r.Crashed?
    ensures r.Done? <==> crc < 0x1_0000_0000 && packed < 0x1_0000_0000 && size < 0x1_0000_0000 && name < 0x1_0000
    ensures r.Done? ==> central[..30] == Fields(f[..11])
  {
    CentralOffsets(f);
    var _ :- Write(central, 16, Long(crc), f, 7);
    var _ :- Write(central, 20, Long(packed), f, 8);
    var _ :- Write(central, 24, Long(size), f, 9);
    r := Write(central, 28, Short(name), f, 10);
  }

  /** No extra field, no comment, no disk, no internal attributes. */
  method PutCentralZeros(central: array<Byte>, ghost f: seq<Field>)
    requires central.Length == 46 && CentralLayout(f) && central[..30] == Fields(f[..11])
    requires f[11] == f[12] == f[13] == f[14] == Short(0)
    modifies central
    ensures central[..38] == Fields(f[..15])
  {
    CentralOffsets(f);
    Put(central, 30, Short(0), f, 11);
    Put(central, 32, Short(0), f, 12);
    Put(central, 34, Short(0), f, 13);
    Put(central, 36, Short(0), f, 14);
  }

  /** What is left: those zeros, the attributes and the place of the local record. */
  method WriteCentralRest(central: array<Byte>, attributes: nat, offset: nat, ghost f: seq<Field>)
    returns (r: Outcome<()>)
    requires central.Length == 46 && CentralLayout(f) && central[..30] == Fields(f[..11]) && attributes < 0x1_0000_0000
    requires f[11] == f[12] == f[13] == f[14] == Short(0) && f[15] == Long(attributes) && f[16] == Long(offset)
    modifies central
    ensures !r.Crashed? && (r.Done? <==> offset < 0x1_0000_0000)
    ensures r.Done? ==> central[..] == Fields(f)
  {
    CentralOffsets(f);
    PutCentralZeros(central, f);
    Put(central, 38, Long(attributes), f, 15);
    r := Write(central, 42, Long(offset), f, 16);
    assert f[..17] == f && central[..46] == central[..];
  }

  method WriteCentralHeader(compression: nat, crc: nat, packed: nat, size: nat, name: nat, attributes: nat, offset: nat)
    returns (r: Outcome<Bytes>)
    requires compression < 0x1_0000 && attributes < 0x1_0000_0000
    ensures !r.Crashed?
    ensures r.Done? <==> && crc < 0x1_0000_0000 && packed < 0x1_0000_0000 && size < 0x1_0000_0000 && name < 0x1_0000
                         && offset < 0x1_0000_0000
    ensures r.Done? ==> r.value == CentralHeader(compression, crc, packed, size, name, attributes, offset)
  {
    ghost var f := [Long(ZIP_CENTRAL_HEADER), Short(UNIX * 0x100 + VERSION), Short(VERSION), Short(UTF8_FLAG),
                    Short(compression), Short(DOS_TIME), Short(DOS_DATE), Long(crc), Long(packed), Long(size),
                    Short(name), Short(0), Short(0), Short(0), Short(0), Long(attributes), Long(offset)];
    var central := new Byte[46](_ => 0);
    PutCentralFront(central, compression, f);
    var _ :- WriteCentralSizes(central, crc, packed, size, name, f);
    var _ :- WriteCentralRest(central, attributes, offset, f);
    return Done(central[..]);
  }

  /** The constant front of an end record, and the number of files, twice. */
  method WriteEndFront(end: array<Byte>, count: nat, ghost f: seq<Field>) returns (r: Outcome<()>)
    requires end.Length == 22 && EndLayout(f) && f[0] == Long(ZIP_EOCD) && f[1] == f[2] == Short(0)
    requires f[3] == f[4] == Short(count)
    modifies end
    ensures !r.Crashed? && (r.Done? <==> count < 0x1_0000)
    ensures r.Done? ==> end[..12] == Fields(f[..5])
  {
    EndOffsets(f);
    Put(end, 0, Long(ZIP_EOCD), f, 0);
    Put(end, 4, Short(0), f, 1);
    Put(end, 6, Short(0), f, 2);
    var _ :- Write(end, 8, Short(count), f, 3);
    Put(end, 10, Short(count), f, 4);
    return Done(());
  }

  /** Size and place of the directory, and no comment. */
  method WriteEndRest(end: array<Byte>, size: nat, offset: nat, ghost f: seq<Field>) returns (r: Outcome<()>)
    requires end.Length == 22 && EndLayout(f) && end[..12] == Fields(f[..5])
    requires f[5] == Long(size) && f[6] == Long(offset) && f[7] == Short(0)
    modifies end
    ensures !r.Crashed? && (r.Done? <==> size < 0x1_0000_0000 && offset < 0x1_0000_0000)
    ensures r.Done? ==> end[..] == Fields(f)
  {
    EndOffsets(f);
    var _ :- Write(end, 12, Long(size), f, 5);
    var _ :- Write(end, 16, Long(offset), f, 6);
    Put(end, 20, Short(0), f, 7);
    assert f[..8] == f && end[..22] == end[..];
    return Done(());
  }

  method WriteEndRecord(count: nat, size: nat, offset: nat) returns (r: Outcome<Bytes>)
    ensures !r.Crashed?
    ensures r.Done? <==> count < 0x1_0000 && size < 0x1_0000_0000 && offset < 0x1_0000_0000
    ensures r.Done? ==> r.value == EndRecord(count, size, offset)
  {
    ghost var f := [Long(ZIP_EOCD), Short(0), Short(0), Short(count), Short(count), Long(size), Long(offset), Short(0)];
    var end := new Byte[22](_ => 0);
    var _ :- WriteEndFront(end, count, f);
    var _ :- WriteEndRest(end, size, offset, f);
    return Done(end[..]);
  }

  /** Every number of a file's two headers fits. */
  predicate EntryFits(s: Source, offset: nat) {
    |s.name| < 0x1_0000 && |s.data| < 0x1_0000_0000 && offset < 0x1_0000_0000
  }

  /** Packs one file, deflated where that is shorter; throws exactly where a number does not fit its header. */
  method PackEntry(s: Source, offset: nat, codec: Codec, table: array<bv32>) returns (r: Outcome<(Bytes, Bytes)>)
    requires IsAscii(s.name) && s.mode < 0x1000 && Genuine(codec) && Crc32.IsTable(table[..])
    ensures !r.Crashed? && (r.Done? ==> r.value == (LocalRecord(s, codec), CentralRecord(s, offset, codec)))
    ensures r.Done? <==> EntryFits(s, offset)
  {
    var nameBuffer := NameBytes(s.name);
    var crc := Checksum(s.data, codec, table);
    ChecksumsFit(codec);
    var compressed := codec.deflate(s.data);
    var useDeflate := |compressed| < |s.data|;
    var payload := if useDeflate then compressed else s.data;
    var compression := if useDeflate then DEFLATED else STORED;
    var local :- WriteLocalHeader(compression, crc, |payload|, |s.data|, |nameBuffer|);
    var central :- WriteCentralHeader(compression, crc, |payload|, |s.data|, |nameBuffer|, Attributes(s), offset);
    return Done((local + nameBuffer + payload, central + nameBuffer));
  }

  /** Appending the next part to the parts so far. */
  lemma NextPart(all: seq<Bytes>, k: nat, part: Bytes)
    requires k < |all| && all[k] == part
    ensures all[..k + 1] == all[..k] + [part]
    ensures Concat(all[..k + 1]) == Concat(all[..k]) + part
  {
    assert all[..k + 1] == all[..k] + [part];
    ConcatLast(all[..k], part);
  }

  /** The k-th parts are the records of the k-th file. */
  predicate PartsAgree(p: Parts, sources: seq<Source>, k: nat, codec: Codec)
    requires k < |sources| && IsAscii(sources[k].name)
  {
    && k < |p.locals| && k < |p.centrals|
    && p.locals[k] == LocalRecord(sources[k], codec)
    && p.centrals[k] == CentralRecord(sources[k], p.LocalAt(k), codec)
  }

  /** All parts are the records of the files. */
  predicate AllAgree(p: Parts, sources: seq<Source>, codec: Codec)
    requires Packable(sources)
  {
    && |p.locals| == |p.centrals| == |sources|
    && forall k {:trigger PartsAgree(p, sources, k, codec)} | 0 <= k < |sources| ::
         IsAscii(sources[k].name) && PartsAgree(p, sources, k, codec)
  }

  /** Every number of the k-th file's headers fits. */
  predicate FitsAt(sources: seq<Source>, p: Parts, k: nat)
    requires k < |sources| && k <= |p.locals|
  {
    EntryFits(sources[k], p.LocalAt(k))
  }

  method PackPart(sources: seq<Source>, index: nat, offset: nat, codec: Codec, table: array<bv32>, ghost p: Parts)
    returns (r: Outcome<(Bytes, Bytes)>)
    requires Genuine(codec) && Crc32.IsTable(table[..]) && Packable(sources) && index < |sources|
    requires AllAgree(p, sources, codec) && offset == p.LocalAt(index)
    ensures !r.Crashed? && (r.Done? <==> FitsAt(sources, p, index))
    ensures r.Done? ==> r.value == (p.locals[index], p.centrals[index])
  {
    assert sources[index] in sources;
    assert PartsAgree(p, sources, index, codec);
    r := PackEntry(sources[index], offset, codec, table);
  }

  /** Every number of every file's headers fits. */
  predicate EntriesFit(sources: seq<Source>, p: Parts)
    requires |p.locals| == |sources|
  {
    forall k | 0 <= k < |sources| :: FitsAt(sources, p, k)
  }

  /** The parts of the files so far, whose numbers all fit. */
  ghost predicate PackedSoFar(sources: seq<Source>, p: Parts, index: nat, localParts: seq<Bytes>,
                              centralParts: seq<Bytes>, offset: nat)
    requires |p.locals| == |p.centrals| == |sources| && index <= |sources|
  {
    && localParts == p.locals[..index] && centralParts == p.centrals[..index] && offset == p.LocalAt(index)
    && forall k | 0 <= k < index :: FitsAt(sources, p, k)
  }

  lemma NothingPacked(sources: seq<Source>, p: Parts)
    requires |p.locals| == |p.centrals| == |sources|
    ensures PackedSoFar(sources, p, 0, [], [], 0)
  {
    assert p.locals[..0] == [];
  }

  lemma PacksOneMore(sources: seq<Source>, p: Parts, index: nat, localParts: seq<Bytes>, centralParts: seq<Bytes>,
                     offset: nat)
    requires |p.locals| == |p.centrals| == |sources| && index < |sources| && FitsAt(sources, p, index)
    requires PackedSoFar(sources, p, index, localParts, centralParts, offset)
    ensures PackedSoFar(sources, p, index + 1, localParts + [p.locals[index]], centralParts + [p.centrals[index]],
                        offset + |p.locals[index]|)
  {
    NextPart(p.locals, index, p.locals[index]);
    NextPart(p.centrals, index, p.centrals[index]);
  }

  lemma AllPacked(sources: seq<Source>, p: Parts, localParts: seq<Bytes>, centralParts: seq<Bytes>, offset: nat)
    requires |p.locals| == |p.centrals| == |sources|
    requires PackedSoFar(sources, p, |sources|, localParts, centralParts, offset)
    ensures EntriesFit(sources, p)
    ensures localParts == p.locals && centralParts == p.centrals && offset == |Concat(p.locals)|
  {
    assert p.locals[..|sources|] == p.locals && p.centrals[..|sources|] == p.centrals;
  }

  method PackEntries(sources: seq<Source>, codec: Codec, table: array<bv32>, ghost p: Parts)
    returns (r: Outcome<(seq<Bytes>, seq<Bytes>, nat)>)
    requires Genuine(codec) && Crc32.IsTable(table[..]) && Packable(sources) && AllAgree(p, sources, codec)
    ensures !r.Crashed? && (r.Done? <==> EntriesFit(sources, p))
    ensures r.Done? ==> r.value == (p.locals, p.centrals, |Concat(p.locals)|)
  {
    var localParts: seq<Bytes>, centralParts: seq<Bytes>, offset: nat := [], [], 0;
    var index := 0;
    NothingPacked(sources, p);
    while index < |sources|
      invariant 0 <= index <= |sources|
      invariant PackedSoFar(sources, p, index, localParts, centralParts, offset)
    {
      var packed :- PackPart(sources, index, offset, codec, table, p);
      PacksOneMore(sources, p, index, localParts, centralParts, offset);
      localParts := localParts + [packed.0];
      centralParts := centralParts + [packed.1];
      offset := offset + |packed.0|;
      index := index + 1;
    }
    AllPacked(sources, p, localParts, centralParts, offset);
    return Done((localParts, centralParts, offset));
  }

  /** Every number of an archive fits the field it is written to. */
  predicate ArchiveFits(sources: seq<Source>, codec: Codec)
    requires Packable(sources)
  {
    var p := PartsOf(sources, codec);
    && EntriesFit(sources, p)
    && |sources| < 0x1_0000 && |Concat(p.centrals)| < 0x1_0000_0000 && |Concat(p.locals)| < 0x1_0000_0000
  }

  /** Packs in one pass, keeping the offset of the next local record; throws exactly where some number does not fit. */
  method WriteDeterministicZip(sources: seq<Source>, codec: Codec, table: array<bv32>) returns (r: Outcome<Bytes>)
    requires Packable(sources) && Genuine(codec) && Crc32.IsTable(table[..])
    ensures !r.Crashed? && (r.Done? <==> ArchiveFits(sources, codec))
    ensures r.Done? ==> r.value == Archive(sources, codec)
  {
    ghost var p := PartsOf(sources, codec);
    PackedPartsAgree(sources, codec);
    var packed :- PackEntries(sources, codec, table, p);
    var centralDirectory := Concat(packed.1);
    var end :- WriteEndRecord(|sources|, |centralDirectory|, packed.2);
    return Done(Concat(packed.0) + centralDirectory + end);
  }

  lemma PackedPartsAgree(sources: seq<Source>, codec: Codec)
    requires Packable(sources)
    ensures AllAgree(PartsOf(sources, codec), sources, codec)
  {
    var p := PartsOf(sources, codec);
    forall k | 0 <= k < |sources| ensures IsAscii(sources[k].name) && PartsAgree(p, sources, k, codec) {
      LocalPartAt(sources, k, codec);
      CentralPartAt(sources, k, LocalParts(sources, codec), codec);
    }
  }
}
