/** The file list travelling end to end: the server's FILE_LIST reply, as the client's
    parseFileList reads it. */
module FileListExchange {
  import opened Wrappers
  import opened Bytes
  import opened FileTransferProtocol
  import opened FileTransferHandler
  import opened FileDownloadService

  /** When listing succeeds and every name is carried intact by the listing format (no ',',
      no newline, no leading white) and the text is ASCII, the client parses the reply's
      payload back to exactly the server's list, in order. */
  lemma ListReplyRoundTrip(store: FileStore)
    requires store.listing.Success?
    requires forall i :: 0 <= i < |store.listing.value| ==> ListableName(store.listing.value[i].fileName)
    requires IsAscii(ListingText(store.listing.value))
    ensures ListReply(store).msgType == MSG_TYPE_FILE_LIST
    ensures ParsedFileList(Some(BytesToString(ListReply(store).data))) == Some(store.listing.value)
  {
    var files := store.listing.value;
    AsciiRoundTrip(ListingText(files));
    ListingRoundTrip(files);
  }
}
