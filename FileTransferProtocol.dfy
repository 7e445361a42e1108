/** The file-transfer protocol: messages are a type octet, a 4-octet big-endian length and
    that many payload octets; a file listing is one `name,size,lastModified` line per file. */
module FileTransferProtocol {
  import opened Wrappers
  import opened Bytes
  import opened JavaText

  const MSG_TYPE_LIST_FILES: Byte := 1
  const MSG_TYPE_FILE_LIST: Byte := 2
  const MSG_TYPE_DOWNLOAD_FILE: Byte := 3
  const MSG_TYPE_FILE_DATA: Byte := 4
  const MSG_TYPE_ERROR: Byte := 5
  const MSG_TYPE_SUCCESS: Byte := 6

  /** A message: its type octet, the length it declares and its payload. */
  datatype Message = Message(msgType: Byte, length: Int32, data: Bytes)

  /** Message(type, byte[]): null data becomes empty, and the length is the payload size
      (a Java array never holds more than INT32_MAX octets). */
  function NewMessage(msgType: Byte, data: Option<Bytes>): (m: Message)
    ensures m.msgType == msgType
    ensures |m.data| <= INT32_MAX ==> m.length == |m.data|
    ensures data.Some? ==> m.data == data.value
    ensures data.None? ==> m.data == [] && m.length == 0
  {
    var d := if data.Some? then data.value else [];
    Message(msgType, ToInt32(|d|), d)
  }

  /** Message(type, String): the text's octets, or nothing for a null text. */
  function TextMessage(msgType: Byte, text: Option<string>): (m: Message)
    ensures m.msgType == msgType
    ensures |m.data| <= INT32_MAX ==> m.length == |m.data|
    ensures text.None? ==> m.data == [] && m.length == 0
  {
    if text.Some? then NewMessage(msgType, Some(StringToBytes(text.value)))
    else NewMessage(msgType, None)
  }

  /** The payload of a text message reads back as the text, and its length is the text's. */
  lemma TextMessageText(msgType: Byte, text: string)
    requires IsAscii(text) && |text| <= INT32_MAX
    ensures BytesToString(TextMessage(msgType, Some(text)).data) == text
    ensures TextMessage(msgType, Some(text)).length == |text|
  {
    AsciiRoundTrip(text);
  }

  datatype FileInfo = FileInfo(fileName: string, fileSize: Int64, lastModified: Int64)

  /** FileInfo.toString. */
  function FileInfoToString(f: FileInfo): string {
    f.fileName + "," + LongToString(f.fileSize) + "," + LongToString(f.lastModified)
  }

  /** The listing lines of a sequence of files. */
  function ListingLines(files: seq<FileInfo>): (r: seq<string>)
    ensures |r| == |files|
    ensures forall i :: 0 <= i < |files| ==> r[i] == FileInfoToString(files[i])
  {
    seq(|files|, i requires 0 <= i < |files| => FileInfoToString(files[i]))
  }

  /** The text of a FILE_LIST payload: the files' toString joined by newlines. */
  function ListingText(files: seq<FileInfo>): string {
    Join(ListingLines(files), '\n')
  }

  /** What FileInfo.fromString produces: a FileInfo, null, or a NumberFormatException. */
  datatype Parsed = Info(info: FileInfo) | Null | NumberFormatError

  /** FileInfo.fromString: split on ','; anything but exactly three pieces is null; the
      size and the time must both parse as longs. */
  function FileInfoFromString(s: string): Parsed {
    var parts := Split(s, ',');
    if |parts| != 3 then Null
    else
      var size := ParseLong(parts[1]);
      var lastModified := ParseLong(parts[2]);
      if size.None? || lastModified.None? then NumberFormatError
      else Info(FileInfo(parts[0], size.value, lastModified.value))
  }

  /** The listing line is the three fields joined by ','. */
  lemma FileInfoToStringIsJoin(f: FileInfo)
    ensures FileInfoToString(f) == Join([f.fileName, LongToString(f.fileSize), LongToString(f.lastModified)], ',')
  {
    var parts := [f.fileName, LongToString(f.fileSize), LongToString(f.lastModified)];
    assert parts[1..] == [LongToString(f.fileSize), LongToString(f.lastModified)];
    assert parts[1..][1..] == [LongToString(f.lastModified)];
    assert Join(parts[1..], ',') == LongToString(f.fileSize) + "," + LongToString(f.lastModified);
  }

  /** fromString parses toString back whenever the name holds no ','. */
  lemma FileInfoRoundTrip(f: FileInfo)
    requires ',' !in f.fileName
    ensures FileInfoFromString(FileInfoToString(f)) == Info(f)
  {
    var parts := [f.fileName, LongToString(f.fileSize), LongToString(f.lastModified)];
    FileInfoToStringIsJoin(f);
    LongToStringChars(f.fileSize, ',');
    LongToStringChars(f.lastModified, ',');
    assert NoneContains(parts, ',');
    SplitJoin(parts, ',');
    ParseLongToString(f.fileSize);
    ParseLongToString(f.lastModified);
  }

  /** Which inputs fromString refuses: null unless there are exactly three pieces, and a
      NumberFormatException when either number does not parse. A piece that parses is kept
      as its value, the name is kept verbatim. */
  lemma FileInfoFromStringCases(s: string)
    ensures var parts := Split(s, ',');
      && (|parts| != 3 <==> FileInfoFromString(s) == Null)
      && (|parts| == 3 ==>
            (FileInfoFromString(s) == NumberFormatError <==> ParseLong(parts[1]).None? || ParseLong(parts[2]).None?))
      && (FileInfoFromString(s).Info? ==>
            && FileInfoFromString(s).info.fileName == parts[0]
            && ParseLong(parts[1]) == Some(FileInfoFromString(s).info.fileSize)
            && ParseLong(parts[2]) == Some(FileInfoFromString(s).info.lastModified))
  {
  }

  /** Java's split drops trailing empty pieces, so one trailing ',' is still accepted. */
  lemma TrailingSeparatorAccepted(f: FileInfo)
    requires ',' !in f.fileName
    ensures FileInfoFromString(FileInfoToString(f) + ",") == Info(f)
  {
    var parts := [f.fileName, LongToString(f.fileSize), LongToString(f.lastModified)];
    FileInfoToStringIsJoin(f);
    LongToStringChars(f.fileSize, ',');
    LongToStringChars(f.lastModified, ',');
    var withEmpty := parts + [""];
    assert NoneContains(withEmpty, ',');
    assert Join(withEmpty, ',') == FileInfoToString(f) + "," by {
      JoinAppendEmpty(parts, ',');
    }
    SplitAllJoin(withEmpty, ',');
    JoinContains(withEmpty, ',');
    assert withEmpty[..3] == parts;
    assert DropTrailingEmpty(withEmpty) == DropTrailingEmpty(parts) == parts;
    assert Split(FileInfoToString(f) + ",", ',') == parts;
    ParseLongToString(f.fileSize);
    ParseLongToString(f.lastModified);
  }

  /** Joining with one more, empty, piece appends one separator. */
  lemma {:induction false} JoinAppendEmpty(parts: seq<string>, sep: char)
    requires |parts| >= 1
    ensures Join(parts + [""], sep) == Join(parts, sep) + [sep]
    decreases |parts|
  {
    if |parts| == 1 {
      assert (parts + [""])[1..] == [""];
    } else {
      assert (parts + [""])[1..] == parts[1..] + [""];
      JoinAppendEmpty(parts[1..], sep);
    }
  }
}
