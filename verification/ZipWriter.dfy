// A central directory as the .ZIP File Format Specification has it written, and what the preflight
// makes of it.
module ZipWriter {
  import opened ZipDirectory

  // A central directory header: what the preflight reads, and around it what it does not read.
  datatype Entry = Entry(
    lead: seq<byte>, compressed: nat, uncompressed: nat, tail: seq<byte>,
    name: seq<byte>, extra: seq<byte>, comment: seq<byte>)

  predicate EntryWritable(e: Entry) {
    && |e.lead| == 16 && |e.tail| == 12
    && e.compressed <= 0xffff_ffff && e.uncompressed <= 0xffff_ffff
    && |e.name| <= 0xffff && |e.extra| <= 0xffff && |e.comment| <= 0xffff
  }

  function Write16(v: nat): (s: seq<byte>)
    requires v <= 0xffff
    ensures |s| == 2 && Read16(s, 0) == v
  {
    [v % 0x100, v / 0x100]
  }

  function Write32(v: nat): (s: seq<byte>)
    requires v <= 0xffff_ffff
    ensures |s| == 4 && Read32(s, 0) == v
  {
    Write16(v % 0x1_0000) + Write16(v / 0x1_0000)
  }

  // APPNOTE section 4.3.12.
  function WriteEntry(e: Entry): (s: seq<byte>)
    requires EntryWritable(e)
    ensures |s| == HEADER_BYTES + |e.name| + |e.extra| + |e.comment|
  {
    Write32(HEADER_SIGNATURE) + e.lead + Write32(e.compressed) + Write32(e.uncompressed)
    + Write16(|e.name|) + Write16(|e.extra|) + Write16(|e.comment|) + e.tail
    + e.name + e.extra + e.comment
  }

  function WriteEntries(entries: seq<Entry>): (blocks: seq<seq<byte>>)
    requires forall e :: e in entries ==> EntryWritable(e)
    ensures |blocks| == |entries|
  {
    if entries == [] then [] else [WriteEntry(entries[0])] + WriteEntries(entries[1..])
  }

  function Join(blocks: seq<seq<byte>>): seq<byte> {
    if blocks == [] then [] else blocks[0] + Join(blocks[1..])
  }

  // APPNOTE section 4.3.16; `disks` stands for the fields about splitting over several disks.
  function WriteEnd(disks: seq<byte>, count: nat, size: nat, offset: nat, comment: seq<byte>): (s: seq<byte>)
    requires |disks| == 6 && count <= 0xffff && size <= 0xffff_ffff && offset <= 0xffff_ffff && |comment| <= 0xffff
    ensures |s| == END_BYTES + |comment|
  {
    Write32(END_SIGNATURE) + disks + Write16(count) + Write32(size) + Write32(offset) + Write16(|comment|) + comment
  }

  // Compressed files first, then the directory, then the end record.
  datatype Archive = Archive(files: seq<byte>, entries: seq<Entry>, disks: seq<byte>, comment: seq<byte>) {
    predicate Writable() {
      && (forall e :: e in entries ==> EntryWritable(e))
      && |entries| <= 0xffff && |disks| == 6 && |comment| <= 0xffff
      && |files| <= 0xffff_ffff && |Directory()| <= 0xffff_ffff
    }

    function Directory(): seq<byte>
      requires forall e :: e in entries ==> EntryWritable(e)
    {
      Join(WriteEntries(entries))
    }

    function Bytes(): seq<byte>
      requires Writable()
    {
      files + Directory() + WriteEnd(disks, |entries|, |Directory()|, |files|, comment)
    }

    function End(): (s: seq<byte>)
      requires Writable()
      ensures |s| == END_BYTES + |comment|
    {
      WriteEnd(disks, |entries|, |Directory()|, |files|, comment)
    }

    // The end record, with the archive comment, holds no other end record: what a writer can check
    // before it writes a comment.
    ghost predicate EndIsAlone()
      requires Writable()
    {
      forall j: nat :: j > 0 ==> !IsEndRecord(End(), j)
    }

    function EndOffset(): nat
      requires Writable()
    {
      |files| + |Directory()|
    }
  }

  predicate WithinLimits(e: Entry) {
    e.uncompressed <= MAX_ENTRY_BYTES && !Suspicious(e.compressed, e.uncompressed)
    && e.compressed != ZIP64_MARK
  }

  function Inflated(entries: seq<Entry>): nat {
    if entries == [] then 0 else entries[0].uncompressed + Inflated(entries[1..])
  }

  ghost predicate WithinBudget(entries: seq<Entry>, budget: int) {
    (forall e :: e in entries ==> WithinLimits(e)) && Inflated(entries) <= budget
  }

  // ----- Reading back what was written -----

  lemma Read16In(w: seq<byte>, i: nat, v: nat)
    requires v <= 0xffff && i + 2 <= |w| && w[i..i + 2] == Write16(v)
    ensures Read16(w, i) == v
  {
    assert w[i] == Write16(v)[0] && w[i + 1] == Write16(v)[1];
  }

  lemma Read32In(w: seq<byte>, i: nat, v: nat)
    requires v <= 0xffff_ffff && i + 4 <= |w| && w[i..i + 4] == Write32(v)
    ensures Read32(w, i) == v
  {
    assert w[i..i + 2] == Write32(v)[..2] == Write16(v % 0x1_0000);
    assert w[i + 2..i + 4] == Write32(v)[2..] == Write16(v / 0x1_0000);
    Read16In(w, i, v % 0x1_0000);
    Read16In(w, i + 2, v / 0x1_0000);
  }

  predicate ReadsAs(w: seq<byte>, e: Entry) {
    && |w| >= HEADER_BYTES && Extent(w, 0) == |w|
    && Read32(w, 0) == HEADER_SIGNATURE
    && Compressed(w, 0) == e.compressed && Uncompressed(w, 0) == e.uncompressed
  }

  lemma WrittenEntryReads(e: Entry)
    requires EntryWritable(e)
    ensures ReadsAs(WriteEntry(e), e)
  {
    var w := WriteEntry(e);
    assert w[0..4] == Write32(HEADER_SIGNATURE);
    assert w[20..24] == Write32(e.compressed);
    assert w[24..28] == Write32(e.uncompressed);
    assert w[28..30] == Write16(|e.name|);
    assert w[30..32] == Write16(|e.extra|);
    assert w[32..34] == Write16(|e.comment|);
    Read32In(w, 0, HEADER_SIGNATURE);
    Read32In(w, 20, e.compressed);
    Read32In(w, 24, e.uncompressed);
    Read16In(w, 28, |e.name|);
    Read16In(w, 30, |e.extra|);
    Read16In(w, 32, |e.comment|);
  }

  predicate EndReadsAs(w: seq<byte>, count: nat, size: nat, offset: nat) {
    && IsEndRecord(w, 0)
    && EntryCount(w, 0) == count && DirectorySize(w, 0) == size && DirectoryOffset(w, 0) == offset
  }

  lemma WrittenEndReads(disks: seq<byte>, count: nat, size: nat, offset: nat, comment: seq<byte>)
    requires |disks| == 6 && count <= 0xffff && size <= 0xffff_ffff && offset <= 0xffff_ffff && |comment| <= 0xffff
    ensures EndReadsAs(WriteEnd(disks, count, size, offset, comment), count, size, offset)
  {
    var w := WriteEnd(disks, count, size, offset, comment);
    assert w[0..4] == Write32(END_SIGNATURE);
    assert w[10..12] == Write16(count);
    assert w[12..16] == Write32(size);
    assert w[16..20] == Write32(offset);
    Read32In(w, 0, END_SIGNATURE);
    Read16In(w, 10, count);
    Read32In(w, 12, size);
    Read32In(w, 16, offset);
  }

  // The bytes w stand in s at offset o.
  predicate At(s: seq<byte>, o: nat, w: seq<byte>) {
    o + |w| <= |s| && forall k :: 0 <= k < |w| ==> s[o + k] == w[k]
  }

  lemma ReadsThere(s: seq<byte>, o: nat, w: seq<byte>, i: nat)
    requires At(s, o, w) && i + 4 <= |w|
    ensures Read16(s, o + i) == Read16(w, i) && Read32(s, o + i) == Read32(w, i)
  {
    assert s[o + i] == w[i] && s[o + (i + 1)] == w[i + 1] && s[o + (i + 2)] == w[i + 2] && s[o + (i + 3)] == w[i + 3];
  }

  lemma EntryReadsThere(s: seq<byte>, o: nat, w: seq<byte>, e: Entry, end: nat)
    requires At(s, o, w) && ReadsAs(w, e) && o + |w| <= end <= |s|
    ensures IsHeader(s, o, end) && Compressed(s, o) == e.compressed
    ensures Uncompressed(s, o) == e.uncompressed && Extent(s, o) == |w|
    ensures EntryOk(s, o, end) <==> WithinLimits(e)
  {
    ReadsThere(s, o, w, 0);
    ReadsThere(s, o, w, 20);
    ReadsThere(s, o, w, 24);
    ReadsThere(s, o, w, 28);
    ReadsThere(s, o, w, 30);
    ReadsThere(s, o, w, 32);
  }

  lemma SplitAt(s: seq<byte>, o: nat, blocks: seq<seq<byte>>)
    requires blocks != [] && At(s, o, Join(blocks))
    ensures At(s, o, blocks[0]) && At(s, o + |blocks[0]|, Join(blocks[1..]))
  {
    var w, n, rest := Join(blocks), |blocks[0]|, Join(blocks[1..]);
    assert w == blocks[0] + rest;
    forall k | 0 <= k < n
      ensures s[o + k] == blocks[0][k]
    {
      assert s[o + k] == w[k];
    }
    forall k | 0 <= k < |rest|
      ensures s[(o + n) + k] == rest[k]
    {
      assert s[o + (n + k)] == w[n + k];
    }
  }

  lemma BudgetSplits(entries: seq<Entry>, budget: int)
    requires entries != []
    ensures WithinBudget(entries, budget)
       <==> WithinLimits(entries[0]) && WithinBudget(entries[1..], budget - entries[0].uncompressed)
  {
    assert forall x :: x in entries <==> x == entries[0] || x in entries[1..];
  }

  // Written entries are n good ones exactly when each keeps to the limits and all keep to the budget.
  lemma {:induction false} WrittenEntriesAreTiled(
    s: seq<byte>, o: nat, blocks: seq<seq<byte>>, entries: seq<Entry>, budget: int)
    requires |blocks| == |entries| && forall i :: 0 <= i < |blocks| ==> ReadsAs(blocks[i], entries[i])
    requires At(s, o, Join(blocks))
    ensures Tiled(s, o, o + |Join(blocks)|, |entries|, budget) <==> WithinBudget(entries, budget)
    decreases |entries|
  {
    if entries != [] {
      var e, rest := entries[0], entries[1..];
      var end := o + |Join(blocks)|;
      SplitAt(s, o, blocks);
      EntryReadsThere(s, o, blocks[0], e, end);
      WrittenEntriesAreTiled(s, o + |blocks[0]|, blocks[1..], rest, budget - e.uncompressed);
      BudgetSplits(entries, budget);
    }
  }

  lemma {:induction false} WrittenEntriesRead(entries: seq<Entry>)
    requires forall e :: e in entries ==> EntryWritable(e)
    ensures forall i :: 0 <= i < |entries| ==> ReadsAs(WriteEntries(entries)[i], entries[i])
  {
    if entries != [] {
      WrittenEntryReads(entries[0]);
      WrittenEntriesRead(entries[1..]);
    }
  }

  lemma DirectoryIsThere(a: Archive)
    requires a.Writable()
    ensures At(a.Bytes(), |a.files|, a.Directory())
    ensures At(a.Bytes(), a.EndOffset(), WriteEnd(a.disks, |a.entries|, |a.Directory()|, |a.files|, a.comment))
  {
  }

  lemma EndReadsThere(s: seq<byte>, o: nat, w: seq<byte>, count: nat, size: nat, offset: nat)
    requires At(s, o, w) && EndReadsAs(w, count, size, offset)
    ensures IsEndRecord(s, o) && EntryCount(s, o) == count
    ensures DirectorySize(s, o) == size && DirectoryOffset(s, o) == offset
  {
    ReadsThere(s, o, w, 0);
    ReadsThere(s, o, w, 10);
    ReadsThere(s, o, w, 12);
    ReadsThere(s, o, w, 16);
  }

  lemma EndIsThere(a: Archive)
    requires a.Writable()
    ensures var s, o := a.Bytes(), a.EndOffset();
      && o + END_BYTES + |a.comment| == |s| && IsEndRecord(s, o) && EntryCount(s, o) == |a.entries|
      && DirectorySize(s, o) == |a.Directory()| && DirectoryOffset(s, o) == |a.files|
  {
    var w := WriteEnd(a.disks, |a.entries|, |a.Directory()|, |a.files|, a.comment);
    WrittenEndReads(a.disks, |a.entries|, |a.Directory()|, |a.files|, a.comment);
    DirectoryIsThere(a);
    EndReadsThere(a.Bytes(), a.EndOffset(), w, |a.entries|, |a.Directory()|, |a.files|);
  }

  // What stands after the start of the end record is what was written there.
  lemma TailIsEnd(a: Archive, j: nat)
    requires a.Writable()
    ensures IsEndRecord(a.Bytes(), a.EndOffset() + j) <==> IsEndRecord(a.End(), j)
  {
    DirectoryIsThere(a);
    if j + END_BYTES <= |a.End()| {
      ReadsThere(a.Bytes(), a.EndOffset(), a.End(), j);
    }
  }

  // The end record that was written is the one that is used, unless a later one hides it.
  lemma WrittenEndIsFound(a: Archive)
    requires a.Writable()
    ensures FindEnd(a.Bytes()) == a.EndOffset() <==> a.EndIsAlone()
  {
    var s, o := a.Bytes(), a.EndOffset();
    EndIsThere(a);
    EndAtOrBelowFinds(s, |s| - END_BYTES);
    assert LowestEnd(s) <= o;
    var e := FindEnd(s);
    assert e >= 0 && IsLastEndRecord(s, e);
    if a.EndIsAlone() {
      if e > o {
        TailIsEnd(a, e - o);
      }
      assert e <= o;
    }
    if e == o {
      forall j: nat | j > 0
        ensures !IsEndRecord(a.End(), j)
      {
        TailIsEnd(a, j);
        assert o + j > e;
      }
    }
  }

  // A written archive whose end record stands alone is accepted exactly when it keeps to the limits.
  lemma WrittenArchiveIsJudged(a: Archive)
    requires a.Writable() && a.EndIsAlone()
    ensures Preflight(a.Bytes()) == Accepted
       <==> |a.entries| <= MAX_ENTRIES && WithinBudget(a.entries, MAX_TOTAL_BYTES)
  {
    WrittenEndIsFound(a);
    EndIsThere(a);
    DirectoryIsThere(a);
    WrittenEntriesRead(a.entries);
    DirectoryIsJudged(a.Bytes(), |a.files|, a.EndOffset(), WriteEntries(a.entries), a.entries);
  }

  lemma DirectoryIsJudged(s: seq<byte>, begin: nat, end: nat, blocks: seq<seq<byte>>, entries: seq<Entry>)
    requires |blocks| == |entries| && forall i :: 0 <= i < |blocks| ==> ReadsAs(blocks[i], entries[i])
    requires At(s, begin, Join(blocks)) && end == begin + |Join(blocks)| && FindEnd(s) == end && IsEndRecord(s, end)
    requires EntryCount(s, end) == |entries| && DirectorySize(s, end) == |Join(blocks)| && DirectoryOffset(s, end) == begin
    ensures Preflight(s) == Accepted <==> |entries| <= MAX_ENTRIES && WithinBudget(entries, MAX_TOTAL_BYTES)
  {
    WrittenEntriesAreTiled(s, begin, blocks, entries, MAX_TOTAL_BYTES);
    if |entries| <= MAX_ENTRIES {
      ScanAccepts(s, begin, end, |entries|, 0, 0);
    }
  }

  // What the first entry that breaks a limit is refused for.
  function EntriesVerdict(entries: seq<Entry>, seen: nat, total: nat): Verdict {
    if entries == [] then Accepted
    else
      var e := entries[0];
      var v := SizesVerdict(e.compressed, e.uncompressed, seen, total);
      if v != Accepted then v else EntriesVerdict(entries[1..], seen + 1, total + e.uncompressed)
  }

  lemma {:induction false} WrittenEntriesAreScanned(
    s: seq<byte>, o: nat, blocks: seq<seq<byte>>, entries: seq<Entry>, seen: nat, total: nat)
    requires |blocks| == |entries| && forall i :: 0 <= i < |blocks| ==> ReadsAs(blocks[i], entries[i])
    requires At(s, o, Join(blocks))
    ensures Scan(s, o, o + |Join(blocks)|, seen + |entries|, seen, total) == EntriesVerdict(entries, seen, total)
    decreases |entries|
  {
    if entries != [] {
      var e, end := entries[0], o + |Join(blocks)|;
      SplitAt(s, o, blocks);
      EntryReadsThere(s, o, blocks[0], e, end);
      WrittenEntriesAreScanned(s, o + |blocks[0]|, blocks[1..], entries[1..], seen + 1, total + e.uncompressed);
    }
  }

  // The error for a written archive that breaks a limit: too many entries, or else the first entry that
  // breaks one.
  lemma WrittenArchiveVerdict(a: Archive)
    requires a.Writable() && a.EndIsAlone()
    ensures Preflight(a.Bytes())
         == if |a.entries| > MAX_ENTRIES then TooManyEntries else EntriesVerdict(a.entries, 0, 0)
  {
    WrittenEndIsFound(a);
    EndIsThere(a);
    DirectoryIsThere(a);
    WrittenEntriesRead(a.entries);
    DirectoryVerdict(a.Bytes(), |a.files|, a.EndOffset(), WriteEntries(a.entries), a.entries);
  }

  lemma DirectoryVerdict(s: seq<byte>, begin: nat, end: nat, blocks: seq<seq<byte>>, entries: seq<Entry>)
    requires |blocks| == |entries| && forall i :: 0 <= i < |blocks| ==> ReadsAs(blocks[i], entries[i])
    requires At(s, begin, Join(blocks)) && end == begin + |Join(blocks)| && FindEnd(s) == end && IsEndRecord(s, end)
    requires EntryCount(s, end) == |entries| && DirectorySize(s, end) == |Join(blocks)| && DirectoryOffset(s, end) == begin
    ensures Preflight(s) == if |entries| > MAX_ENTRIES then TooManyEntries else EntriesVerdict(entries, 0, 0)
  {
    WrittenEntriesAreScanned(s, begin, blocks, entries, 0, 0);
  }

  // Without an archive comment nothing can hide the end record.
  lemma NoCommentHidesNothing(a: Archive)
    requires a.Writable() && a.comment == []
    ensures a.EndIsAlone() && FindEnd(a.Bytes()) == a.EndOffset()
  {
    WrittenEndIsFound(a);
  }

  // The last bytes of a written archive are its comment.
  lemma CommentIsLast(a: Archive)
    requires a.Writable()
    ensures At(a.Bytes(), |a.Bytes()| - |a.comment|, a.comment)
  {
    var w := WriteEnd(a.disks, |a.entries|, |a.Directory()|, |a.files|, a.comment);
    assert w[END_BYTES..] == a.comment;
    SuffixAt(a.files + a.Directory(), w, END_BYTES);
  }

  lemma SuffixAt(front: seq<byte>, w: seq<byte>, n: nat)
    requires n <= |w|
    ensures At(front + w, |front| + n, w[n..])
  {
  }

  // With one, something can: whatever the archive, a comment that is itself the end record of a
  // directory with one entry in no bytes makes it invalid.
  lemma CommentHidesTheEnd(a: Archive)
    requires a.Writable() && |a.comment| == END_BYTES && EndReadsAs(a.comment, 1, 0, 0)
    ensures Preflight(a.Bytes()) == InvalidArchive
  {
    var s := a.Bytes();
    var end := |s| - END_BYTES;
    CommentIsLast(a);
    EndReadsThere(s, end, a.comment, 1, 0, 0);
    MissingEntry(s, end);
  }

  lemma MissingEntry(s: seq<byte>, end: nat)
    requires end + END_BYTES == |s| && Read32(s, end) == END_SIGNATURE
    requires EntryCount(s, end) == 1 && DirectorySize(s, end) == 0 && DirectoryOffset(s, end) == 0
    ensures Preflight(s) == InvalidArchive
  {
    assert FindEnd(s) == end;
    assert Scan(s, 0, 0, 1, 0, 0) == InvalidArchive;
  }

  // An empty archive is accepted, and the same archive with such a comment is not.
  lemma EmptyArchiveIsHidden(disks: seq<byte>)
    requires |disks| == 6
    ensures var a := Archive([], [], disks, WriteEnd(disks, 1, 0, 0, []));
      && a.Writable() && Preflight(a.Bytes()) == InvalidArchive
      && Preflight(a.(comment := []).Bytes()) == Accepted
  {
    WrittenEndReads(disks, 1, 0, 0, []);
    CommentHidesTheEnd(Archive([], [], disks, WriteEnd(disks, 1, 0, 0, [])));
    NoCommentHidesNothing(Archive([], [], disks, []));
    WrittenArchiveIsJudged(Archive([], [], disks, []));
  }
}
