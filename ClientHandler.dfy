/** tcp-client ClientHandler: a single slot for the request in flight. A request is sent
    only while no earlier one is pending; the next inbound message completes it; a
    disconnect or an exception fails whatever is still pending. */
module ClientHandler {
  import opened FileTransferProtocol
  import opened Netty

  const CONNECTION_CLOSED := "Connection closed"
  const REQUEST_IN_PROGRESS := "Another request is in progress"

  /** A CompletableFuture's state; an exception is carried by its message. */
  datatype FutureState = Pending | Completed(message: Message) | Failed(reason: string)

  /** completeExceptionally(reason) as a function of the state: only a pending future
      changes. */
  function FailedIfPending(s: FutureState, reason: string): (r: FutureState)
    ensures s.Pending? ==> r == Failed(reason)
    ensures !s.Pending? ==> r == s
  {
    if s.Pending? then Failed(reason) else s
  }

  class CompletableFuture {
    var state: FutureState

    constructor ()
      ensures state == Pending
    {
      state := Pending;
    }

    /** CompletableFuture.failedFuture. */
    constructor FailedFuture(reason: string)
      ensures state == Failed(reason)
    {
      state := Failed(reason);
    }

    predicate IsDone()
      reads this
    {
      !state.Pending?
    }

    /** complete: true exactly when this call settled the future. */
    method Complete(m: Message) returns (settled: bool)
      modifies this
      ensures settled == old(state).Pending?
      ensures state == if settled then Completed(m) else old(state)
    {
      settled := state.Pending?;
      if settled {
        state := Completed(m);
      }
    }

    /** completeExceptionally: true exactly when this call settled the future. */
    method CompleteExceptionally(reason: string) returns (settled: bool)
      modifies this
      ensures settled == old(state).Pending?
      ensures state == FailedIfPending(old(state), reason)
    {
      settled := state.Pending?;
      if settled {
        state := Failed(reason);
      }
    }
  }

  class Handler {
    /** Filled by no code path of the client; kept because a disconnect drains it. */
    var pendingRequests: map<int, CompletableFuture>
    var currentRequest: CompletableFuture?

    constructor ()
      ensures pendingRequests == map[] && currentRequest == null
    {
      pendingRequests := map[];
      currentRequest := null;
    }

    /** A request is in flight: the slot holds a future that is not done. */
    predicate Busy()
      reads this, currentRequest
    {
      currentRequest != null && !currentRequest.IsDone()
    }

    /** channelInactive: every future in pendingRequests and a pending current one fail
        with "Connection closed" (futures already done keep their state); the map is
        emptied and the slot keeps its (now done) future. */
    method ChannelInactive()
      modifies this`pendingRequests, pendingRequests.Values, currentRequest
      ensures pendingRequests == map[]
      ensures currentRequest == old(currentRequest)
      ensures forall f :: f in old(pendingRequests).Values ==> f.state == FailedIfPending(old(f.state), CONNECTION_CLOSED)
      ensures currentRequest != null ==> currentRequest.state == FailedIfPending(old(currentRequest.state), CONNECTION_CLOSED)
      ensures !Busy()
    {
      var futures := pendingRequests.Values;
      var remaining := futures;
      while remaining != {}
        invariant remaining <= futures
        invariant forall f :: f in futures ==>
          f.state == if f in remaining then old(f.state) else FailedIfPending(old(f.state), CONNECTION_CLOSED)
        invariant currentRequest != null && currentRequest !in futures ==> currentRequest.state == old(currentRequest.state)
        decreases remaining
      {
        var f :| f in remaining;
        var _ := f.CompleteExceptionally(CONNECTION_CLOSED);
        remaining := remaining - {f};
      }
      pendingRequests := map[];
      if currentRequest != null && !currentRequest.IsDone() {
        var _ := currentRequest.CompleteExceptionally(CONNECTION_CLOSED);
      }
    }

    /** channelRead0: a pending request is completed with the message and the slot is
        cleared; with nothing pending the message is dropped and nothing changes. */
    method ChannelRead0(msg: Message)
      modifies this`currentRequest, currentRequest
      ensures old(Busy()) ==> old(currentRequest).state == Completed(msg) && currentRequest == null
      ensures !old(Busy()) ==> currentRequest == old(currentRequest)
      ensures !old(Busy()) && currentRequest != null ==> currentRequest.state == old(currentRequest.state)
    {
      if currentRequest != null && !currentRequest.IsDone() {
        var _ := currentRequest.Complete(msg);
        currentRequest := null;
      }
    }

    /** sendRequest: refused with a failed future while a request is pending (the slot and
        the channel untouched); otherwise a fresh pending future takes the slot and the
        request is written once. */
    method SendRequest(ctx: Channel<Message>, request: Message) returns (f: CompletableFuture)
      modifies this`currentRequest, ctx`written
      ensures fresh(f)
      ensures old(Busy()) ==> f.state == Failed(REQUEST_IN_PROGRESS) && currentRequest == old(currentRequest) && ctx.written == old(ctx.written)
      ensures !old(Busy()) ==> f.state == Pending && currentRequest == f && ctx.written == old(ctx.written) + [request]
    {
      if currentRequest != null && !currentRequest.IsDone() {
        f := new CompletableFuture.FailedFuture(REQUEST_IN_PROGRESS);
        return;
      }
      currentRequest := new CompletableFuture();
      ctx.WriteAndFlush(request);
      f := currentRequest;
    }

    /** exceptionCaught: a pending request fails with the cause, and the channel closes. */
    method ExceptionCaught(ctx: Channel<Message>, cause: string)
      modifies currentRequest, ctx`open
      ensures !ctx.open
      ensures currentRequest != null ==> currentRequest.state == FailedIfPending(old(currentRequest.state), cause)
    {
      if currentRequest != null && !currentRequest.IsDone() {
        var _ := currentRequest.CompleteExceptionally(cause);
      }
      ctx.Close();
    }
  }

  /** After a disconnect the slot is free again: the next request is accepted and
      written, and the request that was in flight has failed with "Connection closed". */
  method ReconnectAccepts(h: Handler, ctx: Channel<Message>, request: Message) returns (f: CompletableFuture)
    modifies h, h.pendingRequests.Values, h.currentRequest, ctx`written
    ensures old(h.Busy()) ==> old(h.currentRequest).state == Failed(CONNECTION_CLOSED)
    ensures fresh(f) && f.state == Pending && h.currentRequest == f
    ensures ctx.written == old(ctx.written) + [request]
  {
    h.ChannelInactive();
    f := h.SendRequest(ctx, request);
  }

  /** A future is settled at most once: once done, neither completion changes it, and
      failing twice is failing once. */
  lemma SettledOnce(s: FutureState, r1: string, r2: string)
    ensures FailedIfPending(FailedIfPending(s, r1), r2) == FailedIfPending(s, r1)
    ensures FailedIfPending(s, r1).Pending? == false
  {
  }
}
