// The central directory of a ZIP archive, after the .ZIP File Format Specification (APPNOTE.TXT):
// central directory headers (section 4.3.12) and the end record (section 4.3.16).
module ZipDirectory {
  type byte = b: int | 0 <= b < 256

  const MAX_ENTRIES: nat := 256
  const MAX_ENTRY_BYTES: nat := 32 * 1024 * 1024
  const MAX_TOTAL_BYTES: nat := 64 * 1024 * 1024

  const HEADER_SIGNATURE: nat := 0x02014b50
  const END_SIGNATURE: nat := 0x06054b50
  const ZIP64_MARK: nat := 0xffffffff
  const HEADER_BYTES: nat := 46
  const END_BYTES: nat := 22

  datatype Verdict = Accepted | InvalidArchive | TooManyEntries | TooLarge | SuspiciouslyCompressed

  // ----- Little-endian fields -----

  function Read16(s: seq<byte>, o: nat): nat
    requires o + 2 <= |s|
  {
    s[o] as int + 0x100 * s[o + 1] as int
  }

  function Read32(s: seq<byte>, o: nat): nat
    requires o + 4 <= |s|
  {
    Read16(s, o) + 0x1_0000 * Read16(s, o + 2)
  }

  // ----- What an entry says -----

  predicate IsHeader(s: seq<byte>, o: nat, end: nat) {
    o + HEADER_BYTES <= end <= |s| && Read32(s, o) == HEADER_SIGNATURE
  }

  function Compressed(s: seq<byte>, o: nat): nat
    requires o + HEADER_BYTES <= |s|
  {
    Read32(s, o + 20)
  }

  function Uncompressed(s: seq<byte>, o: nat): nat
    requires o + HEADER_BYTES <= |s|
  {
    Read32(s, o + 24)
  }

  function Extent(s: seq<byte>, o: nat): nat
    requires o + HEADER_BYTES <= |s|
  {
    HEADER_BYTES + Read16(s, o + 28) + Read16(s, o + 30) + Read16(s, o + 32)
  }

  // Inflating by more than the allowed ratio, or from nothing.
  predicate Suspicious(compressed: nat, uncompressed: nat) {
    uncompressed > 0 && (compressed == 0 || uncompressed > 1_000 * compressed)
  }

  predicate EntryOk(s: seq<byte>, o: nat, end: nat) {
    && IsHeader(s, o, end)
    && Compressed(s, o) != ZIP64_MARK && Uncompressed(s, o) != ZIP64_MARK
    && Uncompressed(s, o) <= MAX_ENTRY_BYTES
    && !Suspicious(Compressed(s, o), Uncompressed(s, o))
  }

  // ----- The reference meaning of an acceptable archive -----

  predicate IsEndRecord(s: seq<byte>, o: nat) {
    o + END_BYTES <= |s| && Read32(s, o) == END_SIGNATURE
  }

  function LowestEnd(s: seq<byte>): nat {
    if |s| > 0xffff + END_BYTES then |s| - 0xffff - END_BYTES else 0
  }

  // The end record at the greatest offset of the scanned tail.
  ghost predicate IsLastEndRecord(s: seq<byte>, o: nat) {
    && LowestEnd(s) <= o && IsEndRecord(s, o)
    && forall later :: later > o ==> !IsEndRecord(s, later)
  }

  function EntryCount(s: seq<byte>, end: nat): nat
    requires end + END_BYTES <= |s|
  {
    Read16(s, end + 10)
  }

  function DirectorySize(s: seq<byte>, end: nat): nat
    requires end + END_BYTES <= |s|
  {
    Read32(s, end + 12)
  }

  function DirectoryOffset(s: seq<byte>, end: nat): nat
    requires end + END_BYTES <= |s|
  {
    Read32(s, end + 16)
  }

  // The entries start one after the other, without gap or overrun, and fill the directory.
  ghost predicate Tiles(s: seq<byte>, starts: seq<nat>, begin: nat, end: nat) {
    && end <= |s| && |starts| > 0 && starts[0] == begin && starts[|starts| - 1] == end
    && forall i :: 0 <= i < |starts| - 1 ==>
         IsHeader(s, starts[i], end) && starts[i + 1] == starts[i] + Extent(s, starts[i])
  }

  ghost function TotalUncompressed(s: seq<byte>, starts: seq<nat>): nat
    requires forall i :: 0 <= i < |starts| - 1 ==> starts[i] + HEADER_BYTES <= |s|
  {
    if |starts| <= 1 then 0 else Uncompressed(s, starts[0]) + TotalUncompressed(s, starts[1..])
  }

  // Good entries start at all of the listed points but the last, and together keep to the budget.
  ghost predicate Starts(s: seq<byte>, starts: seq<nat>, begin: nat, end: nat, count: nat, budget: int) {
    && |starts| == count + 1 && Tiles(s, starts, begin, end)
    && (forall i :: 0 <= i < count ==> EntryOk(s, starts[i], end))
    && TotalUncompressed(s, starts) <= budget
  }

  ghost predicate Directory(s: seq<byte>, begin: nat, end: nat, count: nat, budget: int) {
    exists starts: seq<nat> :: Starts(s, starts, begin, end, count, budget)
  }

  ghost predicate Acceptable(s: seq<byte>) {
    exists e: nat ::
      && IsLastEndRecord(s, e)
      && EntryCount(s, e) <= MAX_ENTRIES
      && DirectoryOffset(s, e) + DirectorySize(s, e) <= |s|
      && Directory(s, DirectoryOffset(s, e), DirectoryOffset(s, e) + DirectorySize(s, e),
                   EntryCount(s, e), MAX_TOTAL_BYTES)
  }

  // ----- Checking entry by entry -----

  // What an entry that comes after `seen` others of `total` bytes is refused for, if anything.
  function SizesVerdict(compressed: nat, uncompressed: nat, seen: nat, total: nat): Verdict {
    if compressed == ZIP64_MARK || uncompressed == ZIP64_MARK then InvalidArchive
    else if seen + 1 > MAX_ENTRIES then TooManyEntries
    else if uncompressed > MAX_ENTRY_BYTES || total + uncompressed > MAX_TOTAL_BYTES then TooLarge
    else if Suspicious(compressed, uncompressed) then SuspiciouslyCompressed
    else Accepted
  }

  function EntryVerdict(s: seq<byte>, o: nat, end: nat, seen: nat, total: nat): Verdict {
    if !IsHeader(s, o, end) then InvalidArchive
    else SizesVerdict(Compressed(s, o), Uncompressed(s, o), seen, total)
  }

  // The verdict of the scan from offset o on, after `seen` entries of `total` bytes.
  function Scan(s: seq<byte>, o: nat, end: nat, count: nat, seen: nat, total: nat): Verdict
    requires end <= |s|
    decreases end - o
  {
    if o >= end then
      if seen == count && o == end then Accepted else InvalidArchive
    else if EntryVerdict(s, o, end, seen, total) != Accepted then EntryVerdict(s, o, end, seen, total)
    else Scan(s, o + Extent(s, o), end, count, seen + 1, total + Uncompressed(s, o))
  }

  // Exactly n good entries lie between o and end, and inflate to at most the budget.
  ghost predicate Tiled(s: seq<byte>, o: nat, end: nat, n: nat, budget: int)
    decreases n
  {
    if n == 0 then o == end && end <= |s| && budget >= 0
    else
      EntryOk(s, o, end) && Tiled(s, o + Extent(s, o), end, n - 1, budget - Uncompressed(s, o))
  }

  lemma {:induction false} TiledIsBounded(s: seq<byte>, o: nat, end: nat, n: nat, budget: int)
    requires Tiled(s, o, end, n, budget)
    ensures o <= end <= |s| && budget >= 0 && (o == end <==> n == 0)
    decreases n
  {
    if n > 0 {
      TiledIsBounded(s, o + Extent(s, o), end, n - 1, budget - Uncompressed(s, o));
    }
  }

  // The scan accepts exactly what the recursive reading of "n good entries" describes.
  lemma {:induction false} ScanAccepts(s: seq<byte>, o: nat, end: nat, count: nat, seen: nat, total: nat)
    requires end <= |s| && count <= MAX_ENTRIES && total <= MAX_TOTAL_BYTES
    ensures Scan(s, o, end, count, seen, total) == Accepted
       <==> seen <= count && Tiled(s, o, end, count - seen, MAX_TOTAL_BYTES - total)
    decreases end - o
  {
    if seen <= count && Tiled(s, o, end, count - seen, MAX_TOTAL_BYTES - total) {
      TiledIsBounded(s, o, end, count - seen, MAX_TOTAL_BYTES - total);
      if o < end {
        var u := Uncompressed(s, o);
        TiledIsBounded(s, o + Extent(s, o), end, count - seen - 1, MAX_TOTAL_BYTES - total - u);
      }
    }
    if o < end && EntryOk(s, o, end) && seen + 1 <= MAX_ENTRIES && total + Uncompressed(s, o) <= MAX_TOTAL_BYTES {
      ScanAccepts(s, o + Extent(s, o), end, count, seen + 1, total + Uncompressed(s, o));
    }
  }

  lemma PrependStart(s: seq<byte>, o: nat, rest: seq<nat>, end: nat)
    requires IsHeader(s, o, end) && Tiles(s, rest, o + Extent(s, o), end)
    ensures Tiles(s, [o] + rest, o, end)
    ensures TotalUncompressed(s, [o] + rest) == Uncompressed(s, o) + TotalUncompressed(s, rest)
  {
    var starts := [o] + rest;
    assert starts[1..] == rest;
    forall i | 0 <= i < |starts| - 1
      ensures IsHeader(s, starts[i], end) && starts[i + 1] == starts[i] + Extent(s, starts[i])
    {
      if i > 0 {
        assert IsHeader(s, rest[i - 1], end);
      }
    }
  }

  // "n good entries" one after the other is the same as a list of their starting points.
  lemma {:induction false} TiledHasStarts(s: seq<byte>, o: nat, end: nat, n: nat, budget: int) returns (starts: seq<nat>)
    requires Tiled(s, o, end, n, budget)
    ensures Starts(s, starts, o, end, n, budget)
    decreases n
  {
    if n == 0 {
      starts := [o];
    } else {
      var rest := TiledHasStarts(s, o + Extent(s, o), end, n - 1, budget - Uncompressed(s, o));
      starts := [o] + rest;
      PrependStart(s, o, rest, end);
    }
  }

  lemma {:induction false} StartsAreTiled(s: seq<byte>, starts: seq<nat>, o: nat, end: nat, n: nat, budget: int)
    requires Starts(s, starts, o, end, n, budget)
    ensures Tiled(s, o, end, n, budget)
    decreases n
  {
    if n > 0 {
      assert EntryOk(s, starts[0], end);
      StartsAreTiled(s, starts[1..], starts[1], end, n - 1, budget - Uncompressed(s, o));
    }
  }

  lemma TiledIsDirectory(s: seq<byte>, o: nat, end: nat, n: nat, budget: int)
    ensures Tiled(s, o, end, n, budget) <==> Directory(s, o, end, n, budget)
  {
    if Tiled(s, o, end, n, budget) {
      var starts := TiledHasStarts(s, o, end, n, budget);
    }
    if starts: seq<nat> :| Starts(s, starts, o, end, n, budget) {
      StartsAreTiled(s, starts, o, end, n, budget);
    }
  }

  // ----- The whole preflight, as a function of the bytes -----

  // The greatest end record at or below o in the scanned tail, or -1.
  function EndAtOrBelow(s: seq<byte>, o: int): int
    requires o + END_BYTES <= |s|
    decreases o
  {
    if o < LowestEnd(s) then -1
    else if Read32(s, o) == END_SIGNATURE then o
    else EndAtOrBelow(s, o - 1)
  }

  function FindEnd(s: seq<byte>): int {
    EndAtOrBelow(s, |s| - END_BYTES)
  }

  lemma {:induction false} EndAtOrBelowFinds(s: seq<byte>, o: int)
    requires o + END_BYTES <= |s|
    requires forall later: nat :: later > o ==> !IsEndRecord(s, later)
    ensures var e := EndAtOrBelow(s, o);
      if e < 0 then forall x :: LowestEnd(s) <= x ==> !IsEndRecord(s, x) else IsLastEndRecord(s, e)
    decreases o
  {
    if o >= LowestEnd(s) && Read32(s, o) != END_SIGNATURE {
      EndAtOrBelowFinds(s, o - 1);
    }
  }

  function Preflight(s: seq<byte>): Verdict {
    var e := FindEnd(s);
    if e < 0 then InvalidArchive
    else if e + END_BYTES > |s| then InvalidArchive
    else if EntryCount(s, e) > MAX_ENTRIES then TooManyEntries
    else
      var begin, size := DirectoryOffset(s, e), DirectorySize(s, e);
      if begin + size > |s| then InvalidArchive
      else Scan(s, begin, begin + size, EntryCount(s, e), 0, 0)
  }

  // The preflight accepts exactly the acceptable archives.
  lemma PreflightAccepts(s: seq<byte>)
    ensures Preflight(s) == Accepted <==> Acceptable(s)
  {
    EndAtOrBelowFinds(s, |s| - END_BYTES);
    var e := FindEnd(s);
    if e >= 0 {
      assert forall x: nat :: IsLastEndRecord(s, x) ==> x == e;
      var begin, size, count := DirectoryOffset(s, e), DirectorySize(s, e), EntryCount(s, e);
      if count <= MAX_ENTRIES && begin + size <= |s| {
        ScanAccepts(s, begin, begin + size, count, 0, 0);
        TiledIsDirectory(s, begin, begin + size, count, MAX_TOTAL_BYTES);
      }
    }
  }
}
