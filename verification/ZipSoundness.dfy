/** What an accepted archive is bound to be. */
module ZipSoundness {
  import opened Prelude
  import opened ZipFormat

  lemma {:induction false} DistinctNamesCount(entries: seq<Entry>)
    requires DistinctNames(entries)
    ensures |NamesOf(entries)| == |entries|
    decreases |entries|
  {
    if entries != [] {
      var n := |entries| - 1;
      var front := entries[..n];
      DistinctNamesCount(front);
      assert entries[n].name !in NamesOf(front);
      assert NamesOf(entries) == NamesOf(front) + {entries[n].name} by {
        assert entries == front + [entries[n]];
      }
    }
  }

  function FileNames(): set<string> {
    set f | f in FILES
  }

  lemma {:induction false} DistinctStringsCount(names: seq<string>)
    requires forall i, j | 0 <= i < j < |names| :: names[i] != names[j]
    ensures |set f | f in names| == |names|
    decreases |names|
  {
    if names != [] {
      var front, last := names[..|names| - 1], names[|names| - 1];
      assert names == front + [last];
      DistinctStringsCount(front);
      assert (set f | f in names) == (set f | f in front) + {last};
    }
  }

  lemma FileNamesCount()
    ensures |FileNames()| == |FILES|
  {
    FilesAreDistinct();
    DistinctStringsCount(FILES);
  }

  /** Eight distinct names taken from the eight expected ones are all of them. */
  lemma NamesAreFiles(entries: seq<Entry>)
    requires DistinctNames(entries) && |entries| == |FILES| && forall e | e in entries :: e.name in FILES
    ensures NamesOf(entries) == FileNames()
  {
    DistinctNamesCount(entries);
    FileNamesCount();
    SubsetSize(NamesOf(entries), FileNames());
  }

  lemma {:induction false} OutputHolds(a: Bytes, entries: seq<Entry>, codec: Codec)
    requires DistinctNames(entries)
    requires forall e | e in entries ::
      e.localOffset + 30 <= |a| && DataStart(a, e) + e.compressedSize <= |a| && Unpacked(a, e, codec).Some?
    ensures Output(a, entries, codec).Keys == NamesOf(entries)
    ensures forall e | e in entries :: Output(a, entries, codec)[e.name] == Unpacked(a, e, codec).value
    decreases |entries|
  {
    if entries != [] {
      var front := entries[..|entries| - 1];
      LastIsNamedApart(entries);
      OutputHolds(a, front, codec);
    }
  }

  lemma LastIsNamedApart(entries: seq<Entry>)
    requires DistinctNames(entries) && entries != []
    ensures var front, last := entries[..|entries| - 1], entries[|entries| - 1];
            && DistinctNames(front) && NamesOf(entries) == NamesOf(front) + {last.name}
            && (forall e | e in entries :: e in front || e == last)
            && (forall e | e in front :: e in entries && e.name != last.name)
  {
    var front, last := entries[..|entries| - 1], entries[|entries| - 1];
    assert entries == front + [last];
    forall e | e in front ensures e.name != last.name {
      var i :| 0 <= i < |front| && front[i] == e;
      assert entries[i].name != last.name;
    }
  }

  /**
   An accepted archive holds exactly the eight release files; each has its declared length and checksum, and together
   they are within the limit.
   */
  lemma AcceptedFiles(a: Bytes, end: nat, codec: Codec)
    requires Accepts(a, end, codec)
    ensures var entries := Entries(a, end, |FILES|);
            var files := Output(a, entries, codec);
            && files.Keys == FileNames()
            && TotalOutput(entries) <= MAX_ARCHIVE_OUTPUT_BYTES
            && forall e | e in entries ::
                 |files[e.name]| == e.uncompressedSize && codec.crc32(files[e.name]) == e.crc32
  {
    var entries := Entries(a, end, |FILES|);
    forall e | e in entries ensures EntryOk(a, e, CentralOffset(a, end), codec) && e.name in FILES {
      var k :| 0 <= k < |entries| && entries[k] == e;
      assert CentralOk(a, Start(a, end, k));
    }
    NamesAreFiles(entries);
    OutputHolds(a, entries, codec);
  }

  lemma {:induction false} StartsRise(a: Bytes, end: nat, j: nat, k: nat)
    requires end + 22 <= |a| && j <= k
    ensures Start(a, end, j) <= Start(a, end, k)
    decreases k
  {
    if j < k {
      StartsRise(a, end, j, k - 1);
    }
  }

  lemma {:induction false} RecordOver(a: Bytes, end: nat, at: nat, n: nat) returns (k: nat)
    requires end + 22 <= |a| && CentralOffset(a, end) <= at < Start(a, end, n)
    ensures k < n && Start(a, end, k) <= at < Start(a, end, k + 1)
    decreases n
  {
    if Start(a, end, n - 1) <= at {
      k := n - 1;
    } else {
      k := RecordOver(a, end, at, n - 1);
    }
  }

  predicate InRecord(a: Bytes, end: nat, k: nat, at: nat)
    requires end + 22 <= |a|
  {
    Start(a, end, k) <= at < Start(a, end, k + 1)
  }

  /** Every byte from the directory's offset to the end record belongs to exactly one of the eight central records. */
  lemma DirectoryIsTiled(a: Bytes, end: nat, codec: Codec, at: nat) returns (k: nat)
    requires Accepts(a, end, codec) && CentralOffset(a, end) <= at < end
    ensures end + 22 <= |a| && k < |FILES| && InRecord(a, end, k, at)
    ensures forall j | 0 <= j < |FILES| && j != k :: !InRecord(a, end, j, at)
  {
    k := RecordOver(a, end, at, |FILES|);
    forall j | 0 <= j < |FILES| && j != k ensures !InRecord(a, end, j, at) {
      RecordsAreOwn(a, end, j, k, at);
    }
  }

  lemma RecordsAreOwn(a: Bytes, end: nat, j: nat, k: nat, at: nat)
    requires end + 22 <= |a| && j != k && InRecord(a, end, k, at)
    ensures !InRecord(a, end, j, at)
  {
    if j < k {
      StartsRise(a, end, j + 1, k);
    } else {
      StartsRise(a, end, k + 1, j);
    }
  }

  predicate Covers(range: Range, at: nat) {
    range.start <= at < range.end
  }

  /** No byte serves two local records, and none of theirs lies in the directory or beyond it. */
  lemma LocalBytesAreOwn(a: Bytes, end: nat, codec: Codec, entries: seq<Entry>, i: nat, j: nat, at: nat)
    requires Accepts(a, end, codec) && entries == Entries(a, end, |FILES|)
    requires i < |FILES| && j < |FILES| && i != j
    requires entries[i].localOffset + 30 <= |a| && entries[j].localOffset + 30 <= |a|
    requires Covers(LocalRange(a, entries[i]), at)
    ensures !Covers(LocalRange(a, entries[j]), at) && at < CentralOffset(a, end)
  {
    RangesAreApart(a, entries, CentralOffset(a, end), codec, i, j);
  }

  lemma RangesAreApart(a: Bytes, entries: seq<Entry>, below: nat, codec: Codec, i: nat, j: nat)
    requires LocalsOk(a, entries, below, codec) && LocalsApart(a, entries)
    requires i < |entries| && j < |entries| && i != j
    ensures entries[i].localOffset + 30 <= |a| && entries[j].localOffset + 30 <= |a|
    ensures Apart(LocalRange(a, entries[i]), LocalRange(a, entries[j])) && LocalRange(a, entries[i]).end <= below
  {
    var p, q := entries[i], entries[j];
    assert p in entries && q in entries;
    assert EntryOk(a, p, below, codec) && EntryOk(a, q, below, codec);
    if i < j {
      assert Apart(LocalRange(a, p), LocalRange(a, q));
    } else {
      assert Apart(LocalRange(a, q), LocalRange(a, p));
    }
  }

  // ----- the format, byte by byte -----

  /** Numbers are little-endian. */
  lemma NumbersOnBytes(a: Bytes, at: nat)
    requires at + 4 <= |a|
    ensures U16(a, at) == a[at] as int + 256 * a[at + 1] as int
    ensures U32(a, at) == a[at] as int + 256 * a[at + 1] as int + 65536 * a[at + 2] as int + 16777216 * a[at + 3] as int
  {
  }

  lemma ShortIs(a: Bytes, at: nat, low: Byte, high: Byte)
    requires at + 2 <= |a|
    ensures U16(a, at) == low + 256 * high <==> a[at] == low && a[at + 1] == high
  {
  }

  lemma SignatureIs(a: Bytes, at: nat, third: Byte, fourth: Byte)
    requires at + 4 <= |a|
    ensures U32(a, at) == 0x4b50 + 65536 * (third + 256 * fourth) <==> a[at..at + 4] == [0x50, 0x4b, third, fourth]
  {
    ShortIs(a, at, 0x50, 0x4b);
    ShortIs(a, at + 2, third, fourth);
  }

  /** An end record is its signature, and a comment that reaches the end of the archive. */
  lemma EndOnBytes(a: Bytes, at: nat)
    ensures EndRecordAt(a, at) <==>
              && at + 22 <= |a| && a[at..at + 4] == [0x50, 0x4b, 5, 6]
              && at + 22 + a[at + 20] as int + 256 * a[at + 21] as int == |a|
  {
    if at + 22 <= |a| {
      SignatureIs(a, at, 5, 6);
    }
  }

  /** One disk, eight entries on it, and a directory that ends at the end record. */
  lemma LayoutOnBytes(a: Bytes, end: nat)
    requires end + 22 <= |a|
    ensures LayoutOk(a, end) <==>
              && a[end + 4..end + 12] == [0, 0, 0, 0, 8, 0, 8, 0]
              && U32(a, end + 16) + U32(a, end + 12) == end
  {
    ShortIs(a, end + 4, 0, 0);
    ShortIs(a, end + 6, 0, 0);
    ShortIs(a, end + 8, 8, 0);
    ShortIs(a, end + 10, 8, 0);
  }

  /** What a central record's fixed bytes have to be: a regular file made under Unix, on disk zero, not encrypted. */
  predicate CentralBytes(a: Bytes, at: nat)
    requires at + 46 <= |a|
  {
    && a[at..at + 4] == [0x50, 0x4b, 1, 2] && a[at + 5] == 3
    && a[at + 8] == 0 && a[at + 9] == 8
    && (a[at + 10] == 0 || a[at + 10] == 8) && a[at + 11] == 0
    && a[at + 34] == 0 && a[at + 35] == 0
    && 0x80 <= a[at + 41] < 0x90
  }

  lemma CentralNumbersOnBytes(a: Bytes, at: nat)
    requires at + 46 <= |a|
    ensures U32(a, at) == ZIP_CENTRAL_HEADER <==> a[at..at + 4] == [0x50, 0x4b, 1, 2]
    ensures U16(a, at + 8) == UTF8_FLAG <==> a[at + 8] == 0 && a[at + 9] == 8
    ensures U16(a, at + 10) == STORED <==> a[at + 10] == 0 && a[at + 11] == 0
    ensures U16(a, at + 10) == DEFLATED <==> a[at + 10] == 8 && a[at + 11] == 0
    ensures U16(a, at + 34) == 0 <==> a[at + 34] == 0 && a[at + 35] == 0
    ensures U16(a, at + 4) / 0x100 == UNIX <==> a[at + 5] == 3
    ensures U32(a, at + 38) / 0x1_0000 / 0x1000 == REGULAR_FILE <==> 0x80 <= a[at + 41] < 0x90
  {
    SignatureIs(a, at, 1, 2);
    ShortIs(a, at + 8, 0, 8);
    ShortIs(a, at + 10, 0, 0);
    ShortIs(a, at + 10, 8, 0);
    ShortIs(a, at + 34, 0, 0);
    HighByte(a[at + 4], a[at + 5]);
    HighHalf(U16(a, at + 38), U16(a, at + 40));
    HighNibble(a[at + 40], a[at + 41]);
  }

  lemma HighByte(low: Byte, high: Byte)
    ensures (low + 0x100 * high) / 0x100 == high
  {
  }

  lemma HighHalf(low: nat, high: nat)
    requires low < 0x1_0000
    ensures (low + 0x1_0000 * high) / 0x1_0000 == high
  {
  }

  lemma HighNibble(low: Byte, high: Byte)
    ensures (low + 0x100 * high) / 0x1000 == 8 <==> 0x80 <= high < 0x90
  {
  }

  /** A central record is acceptable exactly if these bytes, its name, its sizes and its length are. */
  lemma CentralOnBytes(a: Bytes, at: nat)
    ensures CentralOk(a, at) <==>
              && at + 46 <= |a| && CentralBytes(a, at)
              && at + 46 + U16(a, at + 28) + U16(a, at + 30) + U16(a, at + 32) <= |a|
              && (exists f | f in FILES :: DecodeName(a[at + 46..at + 46 + U16(a, at + 28)]) == Some(f))
              && U32(a, at + 20) <= 104857600 && U32(a, at + 24) <= 104857600
    ensures at + 46 <= |a| ==> NextRecord(a, at) == at + 46 + U16(a, at + 28) + U16(a, at + 30) + U16(a, at + 32)
  {
    if at + 46 <= |a| {
      CentralNumbersOnBytes(a, at);
    }
  }

  predicate SameTwo(a: Bytes, p: nat, q: nat)
    requires p + 2 <= |a| && q + 2 <= |a|
  {
    a[p] == a[q] && a[p + 1] == a[q + 1]
  }

  predicate SameFour(a: Bytes, p: nat, q: nat)
    requires p + 4 <= |a| && q + 4 <= |a|
  {
    SameTwo(a, p, q) && SameTwo(a, p + 2, q + 2)
  }

  lemma SameShort(a: Bytes, p: nat, q: nat)
    requires p + 2 <= |a| && q + 2 <= |a|
    ensures U16(a, p) == U16(a, q) <==> SameTwo(a, p, q)
  {
    ShortIs(a, p, a[q], a[q + 1]);
  }

  lemma SameLong(a: Bytes, p: nat, q: nat)
    requires p + 4 <= |a| && q + 4 <= |a|
    ensures U32(a, p) == U32(a, q) <==> SameFour(a, p, q)
  {
    SameShort(a, p, q);
    SameShort(a, p + 2, q + 2);
  }

  /** What a local record has to share with a central one, byte for byte, behind a signature of its own. */
  predicate LocalBytes(a: Bytes, local: nat, at: nat)
    requires local + 30 <= |a| && at + 46 <= |a|
  {
    && a[local..local + 4] == [0x50, 0x4b, 3, 4]
    && SameFour(a, local + 6, at + 8) && SameFour(a, local + 14, at + 16)
    && SameFour(a, local + 18, at + 20) && SameFour(a, local + 22, at + 24)
  }

  lemma LocalNumbersOnBytes(a: Bytes, local: nat, at: nat)
    requires local + 30 <= |a| && at + 46 <= |a|
    ensures LocalBytes(a, local, at) <==>
              && U32(a, local) == ZIP_LOCAL_HEADER
              && U16(a, local + 6) == U16(a, at + 8) && U16(a, local + 8) == U16(a, at + 10)
              && U32(a, local + 14) == U32(a, at + 16) && U32(a, local + 18) == U32(a, at + 20)
              && U32(a, local + 22) == U32(a, at + 24)
  {
    SignatureIs(a, local, 3, 4);
    SameShort(a, local + 6, at + 8);
    SameShort(a, local + 8, at + 10);
    SameLong(a, local + 14, at + 16);
    SameLong(a, local + 18, at + 20);
    SameLong(a, local + 22, at + 24);
  }

  /** An entry is what stands at these places of its central record. */
  lemma EntryOnBytes(a: Bytes, at: nat)
    requires CentralOk(a, at)
    ensures var e := EntryAt(a, at);
            && Some(e.name) == CentralName(a, at) && e.localOffset == U32(a, at + 42)
            && e.flags == U16(a, at + 8) && e.compression == U16(a, at + 10) && e.crc32 == U32(a, at + 16)
            && e.compressedSize == U32(a, at + 20) && e.uncompressedSize == U32(a, at + 24)
  {
  }

  lemma PlaceOnBytes(a: Bytes, e: Entry, below: nat)
    requires e.localOffset + 30 <= |a|
    ensures var local := e.localOffset;
            var data := local + 30 + U16(a, local + 26) + U16(a, local + 28);
            LocalFits(a, e, below) <==>
              && data + e.compressedSize <= |a| && data + e.compressedSize <= below
              && DecodeName(a[local + 30..local + 30 + U16(a, local + 26)]) == Some(e.name)
  {
  }

  /**
   A local record is acceptable exactly if it shares these bytes and the name with its central one, and its data ends
   below the directory.
   */
  lemma LocalOnBytes(a: Bytes, e: Entry, at: nat, below: nat)
    requires at + 46 <= |a|
    requires e.flags == U16(a, at + 8) && e.compression == U16(a, at + 10) && e.crc32 == U32(a, at + 16)
    requires e.compressedSize == U32(a, at + 20) && e.uncompressedSize == U32(a, at + 24)
    ensures LocalOk(a, e, below) <==>
              e.localOffset + 30 <= |a| && LocalBytes(a, e.localOffset, at) && LocalFits(a, e, below)
  {
    if e.localOffset + 30 <= |a| {
      LocalNumbersOnBytes(a, e.localOffset, at);
    }
  }

  /** Names are read as ASCII, behind a byte order mark or not. */
  lemma NamesOnBytes(bytes: Bytes, name: string)
    requires forall i | 0 <= i < |name| :: name[i] as int < 128
    ensures DecodeName(bytes) == Some(name) <==>
              var text := if |bytes| >= 3 && bytes[0] == 0xEF && bytes[1] == 0xBB && bytes[2] == 0xBF then bytes[3..]
                          else bytes;
              |text| == |name| && forall i | 0 <= i < |name| :: text[i] == name[i] as int
  {
    var text := if |bytes| >= 3 && bytes[..3] == [0xEF, 0xBB, 0xBF] then bytes[3..] else bytes;
    assert |bytes| >= 3 ==> bytes[..3] == [bytes[0], bytes[1], bytes[2]];
    if |text| == |name| && forall i | 0 <= i < |name| :: text[i] == name[i] as int {
      forall b | b in text ensures b < 128 {
        var i :| 0 <= i < |text| && text[i] == b;
      }
      assert Ascii(text) == name;
    } else if DecodeName(bytes) == Some(name) {
      forall i | 0 <= i < |name| ensures text[i] == name[i] as int {
        assert Ascii(text)[i] == name[i];
      }
    }
  }
}
