/** tcp-server FileTransferHandler: answers file-transfer requests, one reply per request,
    and keeps connection and download statistics. The file service it calls is given as a
    value saying what each of its calls returns. */
module FileTransferHandler {
  import opened Wrappers
  import opened Bytes
  import opened JavaText
  import opened Netty
  import opened FileTransferProtocol

  /** What the file service answers: the file list (or the message of the exception listing
      throws), the names that exist as regular files, the contents a read returns (a name
      with no entry reads as null), and the names for which a runtime exception, such as an
      invalid path, escapes the service, with the exception's message. */
  datatype FileStore = FileStore(
    listing: Result<seq<FileInfo>, string>,
    existing: set<string>,
    contents: map<string, Bytes>,
    failures: map<string, string>)

  /** sendError: an ERROR message carrying the text. */
  function ErrorReply(text: string): Message {
    TextMessage(MSG_TYPE_ERROR, Some(text))
  }

  /** handleListFiles: the entries' listing lines joined by newlines in a FILE_LIST message. */
  function ListReply(store: FileStore): Message {
    match store.listing
    case Success(files) => TextMessage(MSG_TYPE_FILE_LIST, Some(ListingText(files)))
    case Failure(e) => ErrorReply("Error getting file list: " + e)
  }

  /** handleDownloadFile for the requested name. */
  function DownloadReply(name: string, store: FileStore): Message {
    if name in store.failures then ErrorReply("Error downloading file: " + store.failures[name])
    else if name !in store.existing then ErrorReply("File not found: " + name)
    else if name !in store.contents then ErrorReply("Error reading file: " + name)
    else NewMessage(MSG_TYPE_FILE_DATA, Some(store.contents[name]))
  }

  /** The one reply channelRead0 writes for a message. */
  function Reply(msg: Message, store: FileStore): Message {
    if msg.msgType == MSG_TYPE_LIST_FILES then ListReply(store)
    else if msg.msgType == MSG_TYPE_DOWNLOAD_FILE then DownloadReply(BytesToString(msg.data), store)
    else ErrorReply("Unknown message type")
  }

  /** A download that succeeds. */
  predicate Serves(msg: Message, store: FileStore) {
    var name := BytesToString(msg.data);
    msg.msgType == MSG_TYPE_DOWNLOAD_FILE && name !in store.failures && name in store.existing && name in store.contents
  }

  /** The handler's statistics (static fields in the source, shared by all connections). */
  class Handler {
    var connectedClients: int
    var totalFilesServed: int
    var connectedClientAddresses: set<string>

    constructor ()
      ensures connectedClients == 0 && totalFilesServed == 0 && connectedClientAddresses == {}
    {
      connectedClients := 0;
      totalFilesServed := 0;
      connectedClientAddresses := {};
    }

    method ChannelActive(clientAddress: string)
      modifies this`connectedClients, this`connectedClientAddresses
      ensures connectedClients == old(connectedClients) + 1
      ensures connectedClientAddresses == old(connectedClientAddresses) + {clientAddress}
    {
      connectedClients := connectedClients + 1;
      connectedClientAddresses := connectedClientAddresses + {clientAddress};
    }

    method ChannelInactive(clientAddress: string)
      modifies this`connectedClients, this`connectedClientAddresses
      ensures connectedClients == old(connectedClients) - 1
      ensures connectedClientAddresses == old(connectedClientAddresses) - {clientAddress}
    {
      connectedClients := connectedClients - 1;
      connectedClientAddresses := connectedClientAddresses - {clientAddress};
    }

    /** Exactly one reply is written; the served count grows by one on a successful
        download and on no other path. */
    method ChannelRead0(ctx: Channel<Message>, msg: Message, store: FileStore)
      modifies ctx`written, this`totalFilesServed
      ensures ctx.written == old(ctx.written) + [Reply(msg, store)]
      ensures totalFilesServed == old(totalFilesServed) + (if Serves(msg, store) then 1 else 0)
    {
      if msg.msgType == MSG_TYPE_LIST_FILES {
        HandleListFiles(ctx, store);
      } else if msg.msgType == MSG_TYPE_DOWNLOAD_FILE {
        HandleDownloadFile(ctx, msg, store);
      } else {
        SendError(ctx, "Unknown message type");
      }
    }

    method HandleListFiles(ctx: Channel<Message>, store: FileStore)
      modifies ctx`written
      ensures ctx.written == old(ctx.written) + [ListReply(store)]
    {
      if store.listing.Failure? {
        SendError(ctx, "Error getting file list: " + store.listing.error);
        return;
      }
      var fileListStr := ListingText(store.listing.value);
      var response := TextMessage(MSG_TYPE_FILE_LIST, Some(fileListStr));
      ctx.WriteAndFlush(response);
    }

    method HandleDownloadFile(ctx: Channel<Message>, msg: Message, store: FileStore)
      requires msg.msgType == MSG_TYPE_DOWNLOAD_FILE
      modifies ctx`written, this`totalFilesServed
      ensures ctx.written == old(ctx.written) + [DownloadReply(BytesToString(msg.data), store)]
      ensures totalFilesServed == old(totalFilesServed) + (if Serves(msg, store) then 1 else 0)
    {
      var fileName := BytesToString(msg.data);
      if fileName in store.failures {
        SendError(ctx, "Error downloading file: " + store.failures[fileName]);
        return;
      }
      if fileName !in store.existing {
        SendError(ctx, "File not found: " + fileName);
        return;
      }
      var fileData := if fileName in store.contents then Some(store.contents[fileName]) else None;
      if fileData.None? {
        SendError(ctx, "Error reading file: " + fileName);
        return;
      }
      var response := NewMessage(MSG_TYPE_FILE_DATA, fileData);
      ctx.WriteAndFlush(response);
      totalFilesServed := totalFilesServed + 1;
    }

    method SendError(ctx: Channel<Message>, errorMessage: string)
      modifies ctx`written
      ensures ctx.written == old(ctx.written) + [ErrorReply(errorMessage)]
    {
      ctx.WriteAndFlush(ErrorReply(errorMessage));
    }

    method ExceptionCaught(ctx: Channel<Message>)
      modifies ctx`open
      ensures !ctx.open
    {
      ctx.Close();
    }
  }

  /** The served count grows exactly when the reply written is FILE_DATA: every other path
      replies ERROR or FILE_LIST. */
  lemma ServedIffFileData(msg: Message, store: FileStore)
    ensures Serves(msg, store) <==> Reply(msg, store).msgType == MSG_TYPE_FILE_DATA
  {
  }

  /** Download replies: an unknown name is reported not found, a null read is reported as a
      read error, and a successful download carries exactly the file's octets with their
      count as the length. */
  lemma DownloadReplyCases(name: string, store: FileStore)
    requires name !in store.failures
    ensures name !in store.existing ==>
      DownloadReply(name, store) == ErrorReply("File not found: " + name)
    ensures name in store.existing && name !in store.contents ==>
      DownloadReply(name, store) == ErrorReply("Error reading file: " + name)
    ensures name in store.existing && name in store.contents && |store.contents[name]| <= INT32_MAX ==>
      var m := DownloadReply(name, store);
      m.msgType == MSG_TYPE_FILE_DATA && m.data == store.contents[name] && m.length == |m.data|
  {
  }
}
