// The preflight of an uploaded workbook, over its bytes in place.
module ZipPreflight {
  import opened ZipDirectory

  function ReadUInt16LE(buffer: array<byte>, offset: nat): (v: nat)
    requires offset + 2 <= buffer.Length
    reads buffer
    ensures v == Read16(buffer[..], offset)
  {
    buffer[offset] as int + 0x100 * buffer[offset + 1] as int
  }

  function ReadUInt32LE(buffer: array<byte>, offset: nat): (v: nat)
    requires offset + 4 <= buffer.Length
    reads buffer
    ensures v == Read32(buffer[..], offset)
  {
    ReadUInt16LE(buffer, offset) + 0x1_0000 * ReadUInt16LE(buffer, offset + 2)
  }

  // Every read lies inside the buffer: that is what the two functions above require.
  method FindEndOfCentralDirectory(buffer: array<byte>) returns (end: int)
    ensures end == FindEnd(buffer[..])
    ensures if end < 0 then forall x :: LowestEnd(buffer[..]) <= x ==> !IsEndRecord(buffer[..], x)
            else IsLastEndRecord(buffer[..], end)
  {
    ghost var s := buffer[..];
    var minOffset: int := if buffer.Length > 0xffff + END_BYTES then buffer.Length - 0xffff - END_BYTES else 0;
    var offset := buffer.Length - END_BYTES;
    end := -1;
    EndAtOrBelowFinds(s, offset);
    while offset >= minOffset
      invariant offset + END_BYTES <= buffer.Length
      invariant FindEnd(s) == EndAtOrBelow(s, offset)
      decreases offset
    {
      var signature := ReadUInt32LE(buffer, offset);
      if signature == END_SIGNATURE {
        return offset;
      }
      offset := offset - 1;
    }
  }

  // The entry at offset: what it is refused for, if anything, where the next one starts, and how
  // many bytes the entries inflate to so far.
  method CheckEntry(buffer: array<byte>, offset: nat, directoryEnd: nat, seenEntries: nat, totalUncompressed: nat)
      returns (verdict: Verdict, next: nat, total: nat)
    requires directoryEnd <= buffer.Length
    ensures verdict == EntryVerdict(buffer[..], offset, directoryEnd, seenEntries, totalUncompressed)
    ensures verdict == Accepted ==>
      && next == offset + Extent(buffer[..], offset)
      && total == totalUncompressed + Uncompressed(buffer[..], offset)
  {
    next, total := offset, totalUncompressed;
    if offset + HEADER_BYTES > directoryEnd {
      return InvalidArchive, next, total;
    }
    if ReadUInt32LE(buffer, offset) != HEADER_SIGNATURE {
      return InvalidArchive, next, total;
    }
    var compressedSize := ReadUInt32LE(buffer, offset + 20);
    var uncompressedSize := ReadUInt32LE(buffer, offset + 24);
    var nameLength := ReadUInt16LE(buffer, offset + 28);
    var extraLength := ReadUInt16LE(buffer, offset + 30);
    var commentLength := ReadUInt16LE(buffer, offset + 32);
    next := offset + HEADER_BYTES + nameLength + extraLength + commentLength;
    total := totalUncompressed + uncompressedSize;
    verdict := CheckSizes(compressedSize, uncompressedSize, seenEntries + 1, total);
  }

  method CheckSizes(compressedSize: nat, uncompressedSize: nat, seenEntries: nat, totalUncompressed: nat)
      returns (verdict: Verdict)
    requires seenEntries > 0 && totalUncompressed >= uncompressedSize
    ensures verdict
         == SizesVerdict(compressedSize, uncompressedSize, seenEntries - 1, totalUncompressed - uncompressedSize)
  {
    if compressedSize == ZIP64_MARK || uncompressedSize == ZIP64_MARK {
      return InvalidArchive;
    }
    if seenEntries > MAX_ENTRIES {
      return TooManyEntries;
    }
    if uncompressedSize > MAX_ENTRY_BYTES || totalUncompressed > MAX_TOTAL_BYTES {
      return TooLarge;
    }
    if uncompressedSize > 0 && (compressedSize == 0 || uncompressedSize > 1_000 * compressedSize) {
      return SuspiciouslyCompressed;
    }
    verdict := Accepted;
  }

  method PreflightWorkbookArchive(buffer: array<byte>) returns (verdict: Verdict)
    ensures verdict == Preflight(buffer[..])
  {
    var endOffset := FindEndOfCentralDirectory(buffer);
    if endOffset < 0 {
      return InvalidArchive;
    }
    var entryCount := ReadUInt16LE(buffer, endOffset + 10);
    var directorySize := ReadUInt32LE(buffer, endOffset + 12);
    var directoryOffset := ReadUInt32LE(buffer, endOffset + 16);
    if entryCount > MAX_ENTRIES {
      return TooManyEntries;
    }
    if directoryOffset + directorySize > buffer.Length {
      return InvalidArchive;
    }
    verdict := ScanDirectory(buffer, directoryOffset, directoryOffset + directorySize, entryCount);
  }

  method ScanDirectory(buffer: array<byte>, directoryOffset: nat, directoryEnd: nat, entryCount: nat)
      returns (verdict: Verdict)
    requires directoryEnd <= buffer.Length
    ensures verdict == Scan(buffer[..], directoryOffset, directoryEnd, entryCount, 0, 0)
  {
    ghost var expected := Scan(buffer[..], directoryOffset, directoryEnd, entryCount, 0, 0);
    var offset := directoryOffset;
    var seenEntries: nat, totalUncompressed: nat := 0, 0;
    while offset < directoryEnd
      invariant expected == Scan(buffer[..], offset, directoryEnd, entryCount, seenEntries, totalUncompressed)
      decreases directoryEnd - offset
    {
      var entryVerdict, next, total := CheckEntry(buffer, offset, directoryEnd, seenEntries, totalUncompressed);
      if entryVerdict != Accepted {
        return entryVerdict;
      }
      offset, seenEntries, totalUncompressed := next, seenEntries + 1, total;
    }
    verdict := if seenEntries != entryCount || offset != directoryEnd then InvalidArchive else Accepted;
  }
}
