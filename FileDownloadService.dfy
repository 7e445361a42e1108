/** tcp-client FileDownloadService.parseFileList: turns the text of a FILE_LIST reply into
    file entries. The client's FileInfo class is not part of this model; the server's
    FileTransferProtocol.FileInfo stands in for it. */
module FileDownloadService {
  import opened Wrappers
  import opened JavaText
  import opened FileTransferProtocol

  /** What one listing line contributes: nothing for a blank line or one fromString maps to
      null, one entry, or an exception (None). */
  function LineEntries(line: string): Option<seq<FileInfo>> {
    var trimmed := Trim(line);
    if trimmed == "" then Some([])
    else match FileInfoFromString(trimmed)
      case NumberFormatError => None
      case Null => Some([])
      case Info(f) => Some([f])
  }

  /** Entries of a list of lines parsed front to back; the first NumberFormatException
      aborts the whole parse. */
  function ParseLines(lines: seq<string>): Option<seq<FileInfo>>
    decreases |lines|
  {
    if |lines| == 0 then Some([])
    else match ParseLines(lines[..|lines| - 1])
      case None => None
      case Some(acc) =>
        match LineEntries(lines[|lines| - 1])
        case None => None
        case Some(e) => Some(acc + e)
  }

  /** parseFileList: null or blank text gives no entries; otherwise the text is split on
      newlines. A NumberFormatException propagates to the caller (None). */
  function ParsedFileList(text: Option<string>): Option<seq<FileInfo>> {
    if text.None? || Trim(text.value) == "" then Some([])
    else ParseLines(Split(text.value, '\n'))
  }

  method ParseFileList(fileListStr: Option<string>) returns (r: Option<seq<FileInfo>>)
    ensures r == ParsedFileList(fileListStr)
  {
    var fileList: seq<FileInfo> := [];
    if fileListStr.Some? && Trim(fileListStr.value) != "" {
      var lines := Split(fileListStr.value, '\n');
      var i := 0;
      while i < |lines|
        invariant 0 <= i <= |lines|
        invariant ParseLines(lines[..i]) == Some(fileList)
      {
        assert lines[..i + 1][..i] == lines[..i];
        assert lines[..i + 1][i] == lines[i];
        assert ParseLines(lines[..i + 1]) ==
          if LineEntries(lines[i]).None? then None else Some(fileList + LineEntries(lines[i]).value);
        assert fileList + [] == fileList;
        var line := Trim(lines[i]);
        if line != "" {
          var fileInfo := FileInfoFromString(line);
          if fileInfo.NumberFormatError? {
            assert ParseLines(lines[..i + 1]) == None;
            NoneAbsorbs(lines[..i + 1], lines[i + 1..]);
            assert lines[..i + 1] + lines[i + 1..] == lines;
            return None;
          }
          if fileInfo.Info? {
            fileList := fileList + [fileInfo.info];
          }
        }
        i := i + 1;
      }
      assert lines[..i] == lines;
    }
    r := Some(fileList);
  }

  /** Once a line has thrown, nothing after it matters. */
  lemma {:induction false} NoneAbsorbs(a: seq<string>, b: seq<string>)
    requires ParseLines(a) == None
    ensures ParseLines(a + b) == None
    decreases |b|
  {
    if |b| > 0 {
      assert (a + b)[..|a + b| - 1] == a + b[..|b| - 1];
      NoneAbsorbs(a, b[..|b| - 1]);
    } else {
      assert a + b == a;
    }
  }

  /** Parsing is line by line and keeps order: the entries of a + b are those of a followed
      by those of b, and an exception in either part is an exception of the whole. */
  lemma {:induction false} ParseLinesAppend(a: seq<string>, b: seq<string>)
    ensures ParseLines(a + b) ==
      if ParseLines(a).None? || ParseLines(b).None? then None
      else Some(ParseLines(a).value + ParseLines(b).value)
    decreases |b|
  {
    if |b| == 0 {
      assert a + b == a;
      if ParseLines(a).Some? {
        assert ParseLines(a).value + [] == ParseLines(a).value;
      }
    } else {
      var b' := b[..|b| - 1];
      assert (a + b)[..|a + b| - 1] == a + b';
      assert (a + b)[|a + b| - 1] == b[|b| - 1];
      ParseLinesAppend(a, b');
      if ParseLines(a).None? {
        NoneAbsorbs(a, b);
      } else if ParseLines(b').None? {
        assert ParseLines(b).None?;
        assert ParseLines(a + b').None?;
      } else if LineEntries(b[|b| - 1]).Some? {
        var e := LineEntries(b[|b| - 1]).value;
        assert ParseLines(b) == Some(ParseLines(b').value + e);
        assert ParseLines(a + b) == Some(ParseLines(a).value + ParseLines(b').value + e);
        assert ParseLines(a).value + ParseLines(b').value + e == ParseLines(a).value + (ParseLines(b').value + e);
      }
    }
  }

  /** A single line: blank lines and lines fromString maps to null are dropped, a line that
      parses contributes exactly its entry, and a bad number is an exception. */
  lemma ParseOneLine(line: string)
    ensures ParseLines([line]) == LineEntries(line)
    ensures Trim(line) == "" ==> ParseLines([line]) == Some([])
    ensures Trim(line) != "" && FileInfoFromString(Trim(line)).Null? ==> ParseLines([line]) == Some([])
    ensures Trim(line) != "" && FileInfoFromString(Trim(line)).Info? ==>
      ParseLines([line]) == Some([FileInfoFromString(Trim(line)).info])
    ensures Trim(line) != "" && FileInfoFromString(Trim(line)).NumberFormatError? ==> ParseLines([line]) == None
  {
    assert [line][..0] == [];
    if LineEntries(line).Some? {
      assert [] + LineEntries(line).value == LineEntries(line).value;
    }
  }

  /** A name the listing format carries intact: no ',' and no '\n', and no white at the
      front that trimming the line would strip. */
  predicate ListableName(name: string) {
    ',' !in name && '\n' !in name && (|name| == 0 || !IsWhite(name[0]))
  }

  /** The client's parser inverts the server's listing text. */
  lemma ListingRoundTrip(files: seq<FileInfo>)
    requires forall i :: 0 <= i < |files| ==> ListableName(files[i].fileName)
    ensures ParsedFileList(Some(ListingText(files))) == Some(files)
  {
    if |files| == 0 {
      return;
    }
    var lines := ListingLines(files);
    ListingLinesPlain(files);
    LineRoundTrip(files[|files| - 1]);
    SplitJoin(lines, '\n');
    ParseListingLines(files);
    ListingNotBlank(files);
  }

  /** No listing line holds a newline. */
  lemma ListingLinesPlain(files: seq<FileInfo>)
    requires forall i :: 0 <= i < |files| ==> ListableName(files[i].fileName)
    ensures NoneContains(ListingLines(files), '\n')
  {
    var lines := ListingLines(files);
    forall i | 0 <= i < |lines| ensures '\n' !in lines[i] {
      LongToStringChars(files[i].fileSize, '\n');
      LongToStringChars(files[i].lastModified, '\n');
    }
  }

  /** A non-empty listing ends in a digit, so it is not blank. */
  lemma ListingNotBlank(files: seq<FileInfo>)
    requires |files| > 0 && ListableName(files[|files| - 1].fileName)
    ensures Trim(ListingText(files)) != ""
  {
    var lines := ListingLines(files);
    var j := ListingText(files);
    var last := lines[|lines| - 1];
    LineRoundTrip(files[|files| - 1]);
    JoinLastLine(lines, '\n');
    assert j[|j| - 1] == last[|last| - 1];
    assert !IsWhite(j[|j| - 1]);
    TrimShape(j);
  }

  /** A listing line is free of edge white and fromString reads it back. */
  lemma LineRoundTrip(f: FileInfo)
    requires ListableName(f.fileName)
    ensures var line := FileInfoToString(f);
      && line != "" && NoEdgeWhite(line) && Trim(line) == line
      && FileInfoFromString(line) == Info(f)
  {
    var line := FileInfoToString(f);
    var last := LongToString(f.lastModified);
    assert line == f.fileName + "," + LongToString(f.fileSize) + "," + last;
    LongToStringShape(f.lastModified);
    assert line[|line| - 1] == last[|last| - 1];
    assert line[0] == if |f.fileName| == 0 then ',' else f.fileName[0];
    TrimNoEdgeWhite(line);
    FileInfoRoundTrip(f);
  }

  lemma LineEntriesOfListing(f: FileInfo)
    requires ListableName(f.fileName)
    ensures LineEntries(FileInfoToString(f)) == Some([f])
  {
    LineRoundTrip(f);
  }

  /** The decimal text of a number is not empty and ends in a digit. */
  lemma LongToStringShape(n: int)
    ensures |LongToString(n)| >= 1 && IsDigit(LongToString(n)[|LongToString(n)| - 1])
  {
  }

  /** Lines that each contribute exactly one entry parse to those entries, in order. */
  lemma {:induction false} ParseEntryLines(lines: seq<string>, files: seq<FileInfo>)
    requires |lines| == |files|
    requires forall i :: 0 <= i < |lines| ==> LineEntries(lines[i]) == Some([files[i]])
    ensures ParseLines(lines) == Some(files)
    decreases |lines|
  {
    if |lines| > 0 {
      var n := |lines| - 1;
      var init, first := lines[..n], files[..n];
      forall i | 0 <= i < n ensures LineEntries(init[i]) == Some([first[i]]) {
        assert init[i] == lines[i] && first[i] == files[i];
      }
      ParseEntryLines(init, first);
      var e := LineEntries(lines[n]);
      assert e == Some([files[n]]);
      assert ParseLines(lines) == Some(first + e.value);
      assert first + [files[n]] == files;
    }
  }

  lemma ParseListingLines(files: seq<FileInfo>)
    requires forall i :: 0 <= i < |files| ==> ListableName(files[i].fileName)
    ensures ParseLines(ListingLines(files)) == Some(files)
  {
    var lines := ListingLines(files);
    forall i | 0 <= i < |lines| ensures LineEntries(lines[i]) == Some([files[i]]) {
      LineEntriesOfListing(files[i]);
    }
    ParseEntryLines(lines, files);
  }

  /** The last piece of a join is a suffix of it. */
  lemma {:induction false} JoinLastLine(parts: seq<string>, sep: char)
    requires |parts| >= 1
    ensures var j := Join(parts, sep); var p := parts[|parts| - 1];
      |p| <= |j| && j[|j| - |p|..] == p
    decreases |parts|
  {
    if |parts| > 1 {
      JoinLastLine(parts[1..], sep);
    }
  }
}
