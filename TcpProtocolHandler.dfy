/** tcp-server TcpProtocolHandler: answers each request with exactly one response, chosen by
    transaction type and (for business requests) trimmed transaction code, and keeps
    connection and traffic statistics. Inbound responses are only counted. */
module TcpProtocolHandler {
  import opened Wrappers
  import opened Bytes
  import opened JavaText
  import opened TcpProtocol
  import opened Netty
  import opened ConfigJson
  import opened ResponseConfigService
  import ClientTcpDecoder

  /** The status of the response to a request. */
  function ResponseStatus(h: RequestHeader): Byte {
    if h.transactionType == TRANSACTION_TYPE_SIGNIN then SigninSuccessStatus()
    else if h.transactionType == TRANSACTION_TYPE_BUSINESS then
      var code := Trim(h.transactionCode);
      if code == "QUERY" || code == "UPDATE" || code == "DELETE" then BusinessSuccessStatus()
      else BusinessFailedStatus()
    else RESPONSE_FAILED
  }

  /** The text of the response to a request, under configuration `cache` at time `now`. */
  function ResponseBody(cache: map<string, Json>, h: RequestHeader, data: Bytes, now: string): string {
    if h.transactionType == TRANSACTION_TYPE_SIGNIN then
      ResponseText(cache, SIGNIN_SUCCESS_KEY, SigninSuccessDefault(now), now)
    else if h.transactionType == TRANSACTION_TYPE_BUSINESS then
      var code := Trim(h.transactionCode);
      var text := Some(BytesToString(data));
      if code == "QUERY" then ResponseText(cache, QUERY_SUCCESS_KEY, QueryDefault(text, now), now)
      else if code == "UPDATE" then ResponseText(cache, UPDATE_SUCCESS_KEY, UpdateDefault(text, now), now)
      else if code == "DELETE" then ResponseText(cache, DELETE_SUCCESS_KEY, DeleteDefault(text, now), now)
      else ResponseText(cache, UNKNOWN_CODE_KEY, UnknownCodeDefault(Some(h.transactionCode)), now)
    else ResponseText(cache, UNKNOWN_TYPE_KEY, UnknownTypeDefault(h.transactionType), now)
  }

  /** The response message written for a request. */
  function ResponseFor(cache: map<string, Json>, h: RequestHeader, data: Bytes, now: string): Message {
    NewResponse(ResponseHeader(ResponseStatus(h)), Some(StringToBytes(ResponseBody(cache, h, data, now))))
  }

  /** The handler's statistics (static fields in the source) and its config service. */
  class Handler {
    var connectedClients: int
    var totalRequests: int
    var totalResponses: int
    var transactionSerialCounter: int
    const responseConfigService: ResponseConfigService

    constructor (service: ResponseConfigService)
      ensures responseConfigService == service
      ensures connectedClients == 0 && totalRequests == 0 && totalResponses == 0
      ensures transactionSerialCounter == 1
    {
      responseConfigService := service;
      connectedClients := 0;
      totalRequests := 0;
      totalResponses := 0;
      transactionSerialCounter := 1;
    }

    method ChannelActive()
      modifies this`connectedClients
      ensures connectedClients == old(connectedClients) + 1
    {
      connectedClients := connectedClients + 1;
    }

    method ChannelInactive()
      modifies this`connectedClients
      ensures connectedClients == old(connectedClients) - 1
    {
      connectedClients := connectedClients - 1;
    }

    /** A request is counted and answered by exactly one response; a response is counted
        and nothing is written. */
    method ChannelRead0(ctx: Channel<Message>, msg: Message, now: string)
      modifies this`totalRequests, this`totalResponses, ctx`written
      ensures msg.IsRequest() ==>
        && totalRequests == old(totalRequests) + 1 && totalResponses == old(totalResponses)
        && ctx.written == old(ctx.written) + [ResponseFor(responseConfigService.configCache, msg.header.request, msg.data, now)]
      ensures !msg.IsRequest() ==>
        && totalResponses == old(totalResponses) + 1 && totalRequests == old(totalRequests)
        && ctx.written == old(ctx.written)
    {
      if msg.IsRequest() {
        HandleRequest(ctx, msg, now);
      } else {
        HandleResponse(msg);
      }
    }

    method HandleRequest(ctx: Channel<Message>, msg: Message, now: string)
      requires msg.IsRequest()
      modifies this`totalRequests, ctx`written
      ensures totalRequests == old(totalRequests) + 1
      ensures ctx.written == old(ctx.written) + [ResponseFor(responseConfigService.configCache, msg.header.request, msg.data, now)]
    {
      totalRequests := totalRequests + 1;
      var header := msg.header.request;
      if header.transactionType == TRANSACTION_TYPE_SIGNIN {
        HandleSignInRequest(ctx, msg, now);
      } else if header.transactionType == TRANSACTION_TYPE_BUSINESS {
        HandleBusinessRequest(ctx, msg, now);
      } else {
        var errorMessage := responseConfigService.GenerateUnknownTransactionTypeResponse(header.transactionType, now);
        SendErrorResponse(ctx, errorMessage);
      }
    }

    method HandleResponse(msg: Message)
      modifies this`totalResponses
      ensures totalResponses == old(totalResponses) + 1
    {
      totalResponses := totalResponses + 1;
    }

    method HandleSignInRequest(ctx: Channel<Message>, msg: Message, now: string)
      requires msg.IsRequest() && msg.header.request.transactionType == TRANSACTION_TYPE_SIGNIN
      modifies ctx`written
      ensures ctx.written == old(ctx.written) + [ResponseFor(responseConfigService.configCache, msg.header.request, msg.data, now)]
    {
      var responseData := responseConfigService.GenerateSigninSuccessResponse(now);
      var responseStatus := SigninSuccessStatus();
      var response := NewResponse(ResponseHeader(responseStatus), Some(StringToBytes(responseData)));
      ctx.WriteAndFlush(response);
    }

    method HandleBusinessRequest(ctx: Channel<Message>, msg: Message, now: string)
      requires msg.IsRequest() && msg.header.request.transactionType == TRANSACTION_TYPE_BUSINESS
      modifies ctx`written
      ensures ctx.written == old(ctx.written) + [ResponseFor(responseConfigService.configCache, msg.header.request, msg.data, now)]
    {
      var transactionCode := msg.header.request.transactionCode;
      var responseData: string;
      var responseStatus: Byte;
      var code := Trim(transactionCode);
      if code == "QUERY" {
        responseData := responseConfigService.GenerateQuerySuccessResponse(Some(BytesToString(msg.data)), now);
        responseStatus := BusinessSuccessStatus();
      } else if code == "UPDATE" {
        responseData := responseConfigService.GenerateUpdateSuccessResponse(Some(BytesToString(msg.data)), now);
        responseStatus := BusinessSuccessStatus();
      } else if code == "DELETE" {
        responseData := responseConfigService.GenerateDeleteSuccessResponse(Some(BytesToString(msg.data)), now);
        responseStatus := BusinessSuccessStatus();
      } else {
        responseData := responseConfigService.GenerateUnknownTransactionCodeResponse(Some(transactionCode), now);
        responseStatus := BusinessFailedStatus();
      }
      var response := NewResponse(ResponseHeader(responseStatus), Some(StringToBytes(responseData)));
      ctx.WriteAndFlush(response);
    }

    method SendErrorResponse(ctx: Channel<Message>, errorMessage: string)
      modifies ctx`written
      ensures ctx.written == old(ctx.written) + [NewResponse(ResponseHeader(RESPONSE_FAILED), Some(StringToBytes(errorMessage)))]
    {
      var errorResponse := NewResponse(ResponseHeader(RESPONSE_FAILED), Some(StringToBytes(errorMessage)));
      ctx.WriteAndFlush(errorResponse);
    }

    method ExceptionCaught(ctx: Channel<Message>)
      modifies ctx`open
      ensures !ctx.open
    {
      ctx.Close();
    }

    /** getNextTransactionSerial: getAndIncrement on a counter that starts at 1. */
    method GetNextTransactionSerial() returns (r: int)
      modifies this`transactionSerialCounter
      ensures r == old(transactionSerialCounter)
      ensures transactionSerialCounter == old(transactionSerialCounter) + 1
    {
      r := transactionSerialCounter;
      transactionSerialCounter := transactionSerialCounter + 1;
    }
  }

  /** Successive serials from a fresh handler are 1, 2, 3, ...: after n calls the counter
      holds n + 1, and the k-th call (from 0) returned k + 1. */
  method SerialsCountUp(h: Handler, n: nat) returns (serials: seq<int>)
    requires h.transactionSerialCounter == 1
    modifies h`transactionSerialCounter
    ensures |serials| == n
    ensures forall k :: 0 <= k < n ==> serials[k] == k + 1
    ensures h.transactionSerialCounter == n + 1
  {
    serials := [];
    while |serials| < n
      invariant |serials| <= n
      invariant forall k :: 0 <= k < |serials| ==> serials[k] == k + 1
      invariant h.transactionSerialCounter == |serials| + 1
    {
      var s := h.GetNextTransactionSerial();
      serials := serials + [s];
    }
  }

  /** The configured status getters give the two codes the wire format treats as
      responses: success and failure differ, and each, followed by the zero second header
      octet, matches the pattern the client decoder takes for a response. */
  lemma StatusGettersOnTheWire()
    ensures SigninSuccessStatus() == BusinessSuccessStatus() == RESPONSE_SUCCESS
    ensures SigninFailedStatus() == BusinessFailedStatus() == RESPONSE_FAILED
    ensures RESPONSE_SUCCESS != RESPONSE_FAILED
    ensures IsResponsePattern(RESPONSE_SUCCESS, 0) && IsResponsePattern(RESPONSE_FAILED, 0)
  {
  }

  /** Status by request: signin succeeds, a business request succeeds exactly for the
      codes QUERY, UPDATE and DELETE (after trimming) and fails otherwise, and any other
      transaction type fails. Every status is 0 or 1. */
  lemma ResponseStatusCases(h: RequestHeader)
    ensures h.transactionType == TRANSACTION_TYPE_SIGNIN ==> ResponseStatus(h) == RESPONSE_SUCCESS
    ensures h.transactionType == TRANSACTION_TYPE_BUSINESS ==>
      (ResponseStatus(h) == RESPONSE_SUCCESS <==> Trim(h.transactionCode) in {"QUERY", "UPDATE", "DELETE"})
    ensures h.transactionType != TRANSACTION_TYPE_SIGNIN && h.transactionType != TRANSACTION_TYPE_BUSINESS ==>
      ResponseStatus(h) == RESPONSE_FAILED
    ensures ResponseStatus(h) == RESPONSE_SUCCESS || ResponseStatus(h) == RESPONSE_FAILED
  {
  }

  /** With the default (empty) configuration the texts are the built-in ones: the signin
      time, the request data echoed with the time, or the unknown code or type. */
  lemma DefaultResponseBodies(h: RequestHeader, data: Bytes, now: string)
    ensures var body := ResponseBody(map[], h, data, now);
      var code := Trim(h.transactionCode);
      var text := Some(BytesToString(data));
      && (h.transactionType == TRANSACTION_TYPE_SIGNIN ==> body == "Sign in successful at " + now)
      && (h.transactionType == TRANSACTION_TYPE_BUSINESS && code == "QUERY" ==> body == QueryDefault(text, now))
      && (h.transactionType == TRANSACTION_TYPE_BUSINESS && code == "UPDATE" ==> body == UpdateDefault(text, now))
      && (h.transactionType == TRANSACTION_TYPE_BUSINESS && code == "DELETE" ==> body == DeleteDefault(text, now))
      && (h.transactionType == TRANSACTION_TYPE_BUSINESS && code !in {"QUERY", "UPDATE", "DELETE"} ==>
            body == "Unknown transaction code: " + h.transactionCode)
      && (h.transactionType != TRANSACTION_TYPE_SIGNIN && h.transactionType != TRANSACTION_TYPE_BUSINESS ==>
            body == "Unknown transaction type: " + LongToString(SignedByte(h.transactionType)))
  {
    EmptyConfigUsesDefault(SIGNIN_SUCCESS_KEY, SigninSuccessDefault(now), now);
    EmptyConfigUsesDefault(QUERY_SUCCESS_KEY, QueryDefault(Some(BytesToString(data)), now), now);
    EmptyConfigUsesDefault(UPDATE_SUCCESS_KEY, UpdateDefault(Some(BytesToString(data)), now), now);
    EmptyConfigUsesDefault(DELETE_SUCCESS_KEY, DeleteDefault(Some(BytesToString(data)), now), now);
    EmptyConfigUsesDefault(UNKNOWN_CODE_KEY, UnknownCodeDefault(Some(h.transactionCode)), now);
    EmptyConfigUsesDefault(UNKNOWN_TYPE_KEY, UnknownTypeDefault(h.transactionType), now);
  }

  /** Every response the handler writes reaches the client intact: its status matches the
      response pattern, so the client's decoder emits it from the encoded frame and
      Message.fromBytes gives it back. */
  lemma ResponsesReachClient(cache: map<string, Json>, h: RequestHeader, data: Bytes, now: string, rest: Bytes)
    requires RESPONSE_HEADER_LENGTH + LENGTH_FIELD_LENGTH + |ResponseBody(cache, h, data, now)| <= ClientTcpDecoder.MAX_MESSAGE_LENGTH
    ensures var m := ResponseFor(cache, h, data, now);
      && EncodedMessage(m).Success?
      && ParsedMessage(EncodedMessage(m).value) == Success(m)
      && ClientTcpDecoder.DecodeStep(EncodedMessage(m).value + rest) == Step(Emit(m), |EncodedMessage(m).value|)
  {
    ResponseStatusCases(h);
    var body := StringToBytes(ResponseBody(cache, h, data, now));
    ResponseRoundTrip(ResponseStatus(h), body);
    ClientTcpDecoder.ResponseDelivery(ResponseStatus(h), body, 0, rest);
  }
}
