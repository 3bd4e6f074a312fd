/** The reading of update archives, loop by loop. */
module ZipReader {
  import opened Prelude
  import opened ZipFormat
  import Crc32
  import opened ZipChecksum

  /** Scans backwards, so that the end record it finds is the last one. */
  method FindEndRecord(a: Bytes) returns (end: Option<nat>)
    requires |a| >= 22
    ensures end.Some? ==> IsEnd(a, end.value)
    ensures end.None? ==> forall at: nat :: !EndRecordAt(a, at)
  {
    var minimum := if |a| - 0xffff - 22 < 0 then 0 else |a| - 0xffff - 22;
    var offset := |a| - 22;
    while offset >= minimum
      invariant minimum - 1 <= offset <= |a| - 22
      invariant forall at: nat :: EndRecordAt(a, at) ==> at <= offset
      decreases offset
    {
      if U32(a, offset) == ZIP_EOCD && offset + 22 + U16(a, offset + 20) == |a| {
        return Some(offset);
      }
      offset := offset - 1;
    }
    return None;
  }

  lemma {:induction false} TotalGrows(entries: seq<Entry>, n: nat)
    requires n <= |entries|
    ensures TotalOutput(entries[..n]) <= TotalOutput(entries)
    decreases |entries|
  {
    if n < |entries| {
      assert entries[..|entries| - 1][..n] == entries[..n];
      TotalGrows(entries[..|entries| - 1], n);
    } else {
      assert entries[..n] == entries;
    }
  }

  lemma PrefixOfDistinct(entries: seq<Entry>, n: nat)
    requires n <= |entries| && DistinctNames(entries)
    ensures DistinctNames(entries[..n])
  {
    forall i, j | 0 <= i < j < n ensures entries[..n][i].name != entries[..n][j].name {
      assert entries[i].name != entries[j].name;
    }
  }

  /** What one more entry does to the running checks. */
  lemma OneMoreEntry(entries: seq<Entry>, e: Entry)
    ensures DistinctNames(entries + [e]) <==> DistinctNames(entries) && e.name !in NamesOf(entries)
    ensures TotalOutput(entries + [e]) == TotalOutput(entries) + e.uncompressedSize
    ensures NamesOf(entries + [e]) == NamesOf(entries) + {e.name}
  {
    var longer := entries + [e];
    assert longer[..|entries|] == entries && longer[|entries|] == e;
    if DistinctNames(longer) {
      PrefixOfDistinct(longer, |entries|);
      forall x | x in entries ensures x.name != e.name {
        var i :| 0 <= i < |entries| && entries[i] == x;
        assert longer[i].name != longer[|entries|].name;
      }
    }
    assert e in longer;
    forall x | x in entries ensures x in longer {
    }
  }

  /** A directory prefix that repeats a name or declares too much cannot be completed. */
  lemma BadPrefix(all: seq<Entry>, n: nat)
    requires n <= |all|
    requires !DistinctNames(all[..n]) || TotalOutput(all[..n]) > MAX_ARCHIVE_OUTPUT_BYTES
    ensures !(DistinctNames(all) && TotalOutput(all) <= MAX_ARCHIVE_OUTPUT_BYTES)
  {
    TotalGrows(all, n);
    if DistinctNames(all) {
      PrefixOfDistinct(all, n);
    }
  }

  lemma {:induction false} EntriesSoFar(a: Bytes, end: nat, n: nat, m: nat)
    requires end + 22 <= |a| && RecordsOk(a, end, m) && n <= m
    ensures Entries(a, end, n) == Entries(a, end, m)[..n]
    decreases m
  {
    if n < m {
      EntriesSoFar(a, end, n, m - 1);
    }
  }

  lemma BadDirectory(a: Bytes, end: nat, n: nat)
    requires end + 22 <= |a| && RecordsOk(a, end, n) && n <= |FILES|
    requires !DistinctNames(Entries(a, end, n)) || TotalOutput(Entries(a, end, n)) > MAX_ARCHIVE_OUTPUT_BYTES
    ensures !DirectoryOk(a, end)
  {
    if RecordsOk(a, end, |FILES|) {
      EntriesSoFar(a, end, n, |FILES|);
      BadPrefix(Entries(a, end, |FILES|), n);
    }
  }

  /** One central record: its entry and where the next record starts. */
  method ReadRecord(a: Bytes, end: nat, ghost index: nat, offset: nat) returns (record: Option<(Entry, nat)>)
    requires end + 22 <= |a| && offset == Start(a, end, index) && RecordsOk(a, end, index)
    ensures record.Some? <==> RecordsOk(a, end, index + 1)
    ensures record.Some? ==> Entries(a, end, index + 1) == Entries(a, end, index) + [record.value.0]
    ensures record.Some? ==> record.value.1 == Start(a, end, index + 1)
  {
    if CentralOk(a, offset) {
      record := Some((EntryAt(a, offset), NextRecord(a, offset)));
    } else {
      record := None;
    }
  }

  /** The loop over the directory after the first records. */
  predicate ReadSoFar(a: Bytes, end: nat, index: nat, entries: seq<Entry>, offset: nat, seenNames: set<string>,
                      totalOutputBytes: nat)
    requires end + 22 <= |a|
  {
    && RecordsOk(a, end, index) && entries == Entries(a, end, index) && offset == Start(a, end, index)
    && seenNames == NamesOf(entries) && DistinctNames(entries)
    && totalOutputBytes == TotalOutput(entries) <= MAX_ARCHIVE_OUTPUT_BYTES
  }

  /** One more record either goes on with the directory, or spoils it. */
  lemma TakesOneMore(a: Bytes, end: nat, index: nat, entries: seq<Entry>, offset: nat, seenNames: set<string>,
                     totalOutputBytes: nat, entry: Entry, next: nat)
    requires end + 22 <= |a| && index < |FILES| && RecordsOk(a, end, index + 1)
    requires ReadSoFar(a, end, index, entries, offset, seenNames, totalOutputBytes)
    requires Entries(a, end, index + 1) == Entries(a, end, index) + [entry] && next == Start(a, end, index + 1)
    ensures if entry.name in seenNames || totalOutputBytes + entry.uncompressedSize > MAX_ARCHIVE_OUTPUT_BYTES then
              !DirectoryOk(a, end)
            else
              ReadSoFar(a, end, index + 1, entries + [entry], next, seenNames + {entry.name},
                        totalOutputBytes + entry.uncompressedSize)
  {
    OneMoreEntry(entries, entry);
    if entry.name in seenNames || totalOutputBytes + entry.uncompressedSize > MAX_ARCHIVE_OUTPUT_BYTES {
      BadDirectory(a, end, index + 1);
    }
  }

  method ReadDirectory(a: Bytes, end: nat) returns (directory: Option<seq<Entry>>)
    requires end + 22 <= |a|
    ensures directory.Some? <==> DirectoryOk(a, end)
    ensures directory.Some? ==> directory.value == Entries(a, end, |FILES|)
  {
    var entries: seq<Entry> := [];
    var seenNames: set<string> := {};
    var offset := CentralOffset(a, end);
    var totalOutputBytes: nat := 0;
    var index := 0;
    while index < |FILES|
      invariant 0 <= index <= |FILES|
      invariant ReadSoFar(a, end, index, entries, offset, seenNames, totalOutputBytes)
    {
      var record := ReadRecord(a, end, index, offset);
      if record.None? {
        return None;
      }
      var entry := record.value.0;
      TakesOneMore(a, end, index, entries, offset, seenNames, totalOutputBytes, entry, record.value.1);
      if entry.name in seenNames {
        return None;
      }
      totalOutputBytes := totalOutputBytes + entry.uncompressedSize;
      if totalOutputBytes > MAX_ARCHIVE_OUTPUT_BYTES {
        return None;
      }
      seenNames := seenNames + {entry.name};
      entries := entries + [entry];
      offset := record.value.1;
      index := index + 1;
    }
    if offset != end {
      return None;
    }
    return Some(entries);
  }

  /** Checks one local record and unpacks it. */
  method ReadLocal(a: Bytes, e: Entry, below: nat, codec: Codec, table: array<bv32>)
    returns (data: Option<Bytes>)
    requires Genuine(codec) && Crc32.IsTable(table[..])
    ensures data.Some? <==> EntryOk(a, e, below, codec)
    ensures data.Some? ==> data == Unpacked(a, e, codec)
  {
    if !LocalOk(a, e, below) {
      return None;
    }
    data := Unpacked(a, e, codec);
    if data.None? || |data.value| != e.uncompressedSize {
      return None;
    }
    var crc := Checksum(data.value, codec, table);
    if crc != e.crc32 {
      return None;
    }
  }

  function Ranges(a: Bytes, entries: seq<Entry>): (ranges: seq<Range>)
    requires forall e | e in entries :: e.localOffset + 30 <= |a|
    ensures |ranges| == |entries|
  {
    seq(|entries|, i requires 0 <= i < |entries| => LocalRange(a, entries[i]))
  }

  lemma OneMoreOutput(a: Bytes, entries: seq<Entry>, e: Entry, codec: Codec)
    requires forall x | x in entries + [e] ::
      x.localOffset + 30 <= |a| && DataStart(a, x) + x.compressedSize <= |a| && Unpacked(a, x, codec).Some?
    ensures forall x | x in entries ::
      x.localOffset + 30 <= |a| && DataStart(a, x) + x.compressedSize <= |a| && Unpacked(a, x, codec).Some?
    ensures e in entries + [e]
    ensures Output(a, entries + [e], codec) == Output(a, entries, codec)[e.name := Unpacked(a, e, codec).value]
  {
    var longer := entries + [e];
    assert longer[|longer| - 1] == e && longer[..|longer| - 1] == entries;
    forall x | x in entries ensures x in longer {
    }
  }

  lemma OneMoreRange(a: Bytes, entries: seq<Entry>, e: Entry)
    requires e.localOffset + 30 <= |a| && forall x | x in entries :: x.localOffset + 30 <= |a|
    ensures forall x | x in entries + [e] :: x.localOffset + 30 <= |a|
    ensures Ranges(a, entries + [e]) == Ranges(a, entries) + [LocalRange(a, e)]
  {
  }

  lemma OneMoreLocal(a: Bytes, entries: seq<Entry>, n: nat, below: nat, codec: Codec)
    requires n < |entries| && LocalsOk(a, entries[..n], below, codec) && EntryOk(a, entries[n], below, codec)
    ensures LocalsOk(a, entries[..n + 1], below, codec)
    ensures Output(a, entries[..n + 1], codec)
         == Output(a, entries[..n], codec)[entries[n].name := Unpacked(a, entries[n], codec).value]
    ensures Ranges(a, entries[..n + 1]) == Ranges(a, entries[..n]) + [LocalRange(a, entries[n])]
  {
    assert entries[..n + 1] == entries[..n] + [entries[n]];
    OneMoreOutput(a, entries[..n], entries[n], codec);
    OneMoreRange(a, entries[..n], entries[n]);
  }

  lemma BadLocal(a: Bytes, entries: seq<Entry>, n: nat, below: nat, codec: Codec)
    requires n < |entries| && !EntryOk(a, entries[n], below, codec)
    ensures !LocalsOk(a, entries, below, codec)
  {
    assert entries[n] in entries;
  }

  method ReadLocals(a: Bytes, entries: seq<Entry>, below: nat, codec: Codec, table: array<bv32>)
    returns (read: Option<(map<string, Bytes>, seq<Range>)>)
    requires Genuine(codec) && Crc32.IsTable(table[..])
    ensures read.Some? <==> LocalsOk(a, entries, below, codec)
    ensures read.Some? ==> read.value == (Output(a, entries, codec), Ranges(a, entries))
  {
    var localRanges: seq<Range> := [];
    var output: map<string, Bytes> := map[];
    var index := 0;
    while index < |entries|
      invariant 0 <= index <= |entries|
      invariant LocalsOk(a, entries[..index], below, codec)
      invariant output == Output(a, entries[..index], codec)
      invariant localRanges == Ranges(a, entries[..index])
    {
      var entry := entries[index];
      var data := ReadLocal(a, entry, below, codec, table);
      if data.None? {
        BadLocal(a, entries, index, below, codec);
        return None;
      }
      OneMoreLocal(a, entries, index, below, codec);
      localRanges := localRanges + [LocalRange(a, entry)];
      output := output[entry.name := data.value];
      index := index + 1;
    }
    assert entries[..index] == entries;
    return Some((output, localRanges));
  }

  // ----- overlap -----

  /** A stable sort by start: each range goes behind those that start no later. */
  function InsertRange(sorted: seq<Range>, range: Range): seq<Range> {
    if sorted != [] && range.start < sorted[|sorted| - 1].start then
      InsertRange(sorted[..|sorted| - 1], range) + [sorted[|sorted| - 1]]
    else sorted + [range]
  }

  function SortByStart(ranges: seq<Range>): seq<Range> {
    if ranges == [] then [] else InsertRange(SortByStart(ranges[..|ranges| - 1]), ranges[|ranges| - 1])
  }

  predicate AllApart(ranges: seq<Range>) {
    forall i, j | 0 <= i < j < |ranges| :: Apart(ranges[i], ranges[j])
  }

  predicate NeighboursApart(ranges: seq<Range>) {
    forall i | 1 <= i < |ranges| :: ranges[i - 1].end <= ranges[i].start
  }

  predicate Ordered(ranges: seq<Range>) {
    forall i, j | 0 <= i < j < |ranges| :: ranges[i].start <= ranges[j].start
  }

  predicate Solid(ranges: seq<Range>) {
    forall r | r in ranges :: r.start < r.end
  }

  predicate ApartFrom(ranges: seq<Range>, range: Range) {
    forall r | r in ranges :: Apart(r, range)
  }

  lemma AllApartLast(ranges: seq<Range>, last: Range)
    ensures AllApart(ranges + [last]) <==> AllApart(ranges) && ApartFrom(ranges, last)
  {
    var longer := ranges + [last];
    if AllApart(longer) {
      forall i, j | 0 <= i < j < |ranges| ensures Apart(ranges[i], ranges[j]) {
        assert Apart(longer[i], longer[j]);
      }
      forall r | r in ranges ensures Apart(r, last) {
        var i :| 0 <= i < |ranges| && ranges[i] == r;
        assert Apart(longer[i], longer[|ranges|]);
      }
    }
  }

  lemma {:induction false} InsertKeeps(sorted: seq<Range>, range: Range)
    requires Ordered(sorted)
    ensures Ordered(InsertRange(sorted, range))
    ensures forall r :: r in InsertRange(sorted, range) <==> r == range || r in sorted
    ensures AllApart(InsertRange(sorted, range)) <==> AllApart(sorted) && ApartFrom(sorted, range)
    decreases |sorted|
  {
    if sorted != [] && range.start < sorted[|sorted| - 1].start {
      var front, last := sorted[..|sorted| - 1], sorted[|sorted| - 1];
      assert sorted == front + [last];
      InsertKeeps(front, range);
      var inserted := InsertRange(front, range);
      OrderedLast(inserted, last);
      AllApartLast(inserted, last);
      AllApartLast(front, last);
      assert Apart(range, last) == Apart(last, range);
      assert ApartFrom(inserted, last) <==> ApartFrom(front, last) && Apart(range, last) by {
        assert range in inserted;
      }
      assert ApartFrom(sorted, range) <==> ApartFrom(front, range) && Apart(last, range) by {
        assert last in sorted;
      }
    } else {
      AllApartLast(sorted, range);
    }
  }

  lemma OrderedLast(front: seq<Range>, last: Range)
    requires Ordered(front) && forall r | r in front :: r.start <= last.start
    ensures Ordered(front + [last])
  {
  }

  lemma {:induction false} SortKeeps(ranges: seq<Range>)
    ensures Ordered(SortByStart(ranges))
    ensures forall r :: r in SortByStart(ranges) <==> r in ranges
    ensures AllApart(SortByStart(ranges)) <==> AllApart(ranges)
    decreases |ranges|
  {
    if ranges != [] {
      var front, last := ranges[..|ranges| - 1], ranges[|ranges| - 1];
      assert ranges == front + [last];
      SortKeeps(front);
      InsertKeeps(SortByStart(front), last);
      AllApartLast(front, last);
    }
  }

  lemma {:induction false} NeighboursReach(ranges: seq<Range>, i: nat, j: nat)
    requires Solid(ranges) && NeighboursApart(ranges) && i < j < |ranges|
    ensures ranges[i].end <= ranges[j].start
    decreases j
  {
    if i < j - 1 {
      NeighboursReach(ranges, i, j - 1);
      assert ranges[j - 1] in ranges;
    }
  }

  /** Looking at neighbours after sorting decides whether any two ranges overlap. */
  lemma NeighboursDecide(ranges: seq<Range>)
    requires Solid(ranges)
    ensures NeighboursApart(SortByStart(ranges)) <==> AllApart(ranges)
  {
    var sorted := SortByStart(ranges);
    SortKeeps(ranges);
    assert Solid(sorted);
    if NeighboursApart(sorted) {
      forall i, j | 0 <= i < j < |sorted| ensures Apart(sorted[i], sorted[j]) {
        NeighboursReach(sorted, i, j);
      }
    }
    if AllApart(sorted) {
      forall i | 1 <= i < |sorted| ensures sorted[i - 1].end <= sorted[i].start {
        assert Apart(sorted[i - 1], sorted[i]) && sorted[i] in sorted;
      }
    }
  }

  method CheckOverlap(ranges: seq<Range>) returns (ok: bool)
    requires Solid(ranges)
    ensures ok <==> AllApart(ranges)
  {
    NeighboursDecide(ranges);
    var localRanges := SortByStart(ranges);
    var index := 1;
    while index < |localRanges|
      invariant 1 <= index
      invariant forall i | 1 <= i < index && i < |localRanges| :: localRanges[i - 1].end <= localRanges[i].start
    {
      if localRanges[index - 1].end > localRanges[index].start {
        return false;
      }
      index := index + 1;
    }
    return true;
  }

  // ----- the whole reader -----

  lemma ApartByEntries(a: Bytes, entries: seq<Entry>)
    requires forall e | e in entries :: e.localOffset + 30 <= |a|
    ensures AllApart(Ranges(a, entries)) <==> LocalsApart(a, entries)
    ensures Solid(Ranges(a, entries))
  {
    var ranges := Ranges(a, entries);
    if AllApart(ranges) {
      forall i, j | 0 <= i < j < |entries| ensures Apart(LocalRange(a, entries[i]), LocalRange(a, entries[j])) {
        assert Apart(ranges[i], ranges[j]);
      }
    }
  }

  lemma EndIsUnique(a: Bytes, end: nat, other: nat)
    requires IsEnd(a, end) && IsEnd(a, other)
    ensures end == other
  {
    assert EndRecordAt(a, end) && EndRecordAt(a, other);
  }

  lemma RejectedAt(a: Bytes, end: nat, codec: Codec)
    requires IsEnd(a, end) && !Accepts(a, end, codec)
    ensures ParsesTo(a, codec, None)
  {
    forall other: nat ensures !Accepts(a, other, codec) {
      if Accepts(a, other, codec) {
        EndIsUnique(a, end, other);
      }
    }
  }

  method ReadContents(a: Bytes, end: nat, codec: Codec, table: array<bv32>)
    returns (output: Option<map<string, Bytes>>)
    requires Genuine(codec) && Crc32.IsTable(table[..]) && end + 22 <= |a|
    ensures output.Some? <==> ContentsOk(a, end, codec)
    ensures output.Some? ==> output.value == Output(a, Entries(a, end, |FILES|), codec)
  {
    var directory := ReadDirectory(a, end);
    if directory.None? {
      return None;
    }
    var entries := directory.value;
    var read := ReadLocals(a, entries, CentralOffset(a, end), codec, table);
    if read.None? {
      return None;
    }
    ApartByEntries(a, entries);
    var ok := CheckOverlap(read.value.1);
    output := if ok then Some(read.value.0) else None;
  }

  /** Succeeds exactly on the archives the format accepts, with exactly the files they hold. */
  method ParseNapCatUpdateArchive(a: Bytes, codec: Codec, table: array<bv32>)
    returns (output: Option<map<string, Bytes>>)
    requires Genuine(codec) && Crc32.IsTable(table[..])
    ensures ParsesTo(a, codec, output)
  {
    if |a| < 22 || |a| > MAX_ARCHIVE_OUTPUT_BYTES {
      return None;
    }
    var found := FindEndRecord(a);
    if found.None? {
      return None;
    }
    var end := found.value;
    if !LayoutOk(a, end) {
      RejectedAt(a, end, codec);
      return None;
    }
    output := ReadContents(a, end, codec, table);
    if output.None? {
      RejectedAt(a, end, codec);
    }
  }
}
