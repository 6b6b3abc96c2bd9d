/** The OTA firmware-update coordinator as an object: the fields it updates
    in place, and one method per handler. Every call it makes into a
    collaborator (transport, attribute layer, transfer engine, user
    callbacks) is appended to the ghost `log`; what a collaborator answers
    is a parameter of the method that asks. */
module OtaCoordinator {
  import opened CStrings
  import opened OtaProtocol

  /** The client's request-id counter, which the coordinator reaches
      through the pointer the client hands out and increments in place. */
  class RequestIdCounter {
    var value: nat

    constructor (start: nat)
      ensures value == start
    {
      value := start;
    }
  }

  class OtaFirmwareUpdate {
    /** The active update request; `DefaultCallback` when none is active. */
    var fwCallback: UpdateCallback
    /** The receive-buffer size read before the last negotiation. */
    var previousBufferSize: uint16
    /** Whether the last negotiation found the receive buffer too small. */
    var changedBufferSize: bool
    /** The bounded response-topic buffer incoming topics are matched against. */
    var responseTopic: CString
    /** The request id `responseTopic` was last written from. */
    ghost var topicId: nat
    /** Every collaborator call made so far, oldest first. */
    ghost var log: seq<Event>

    /** The response-topic buffer holds what writing `topicId`'s topic into it gives. */
    ghost predicate Valid()
      reads this`responseTopic, this`topicId
    {
      responseTopic == ResponseTopicBuffer(topicId)
    }

    /** A new coordinator has no active request, and its response topic
        carries request id 0, which no update ever uses. */
    constructor ()
      ensures Valid() && topicId == 0
      ensures fwCallback == DefaultCallback && previousBufferSize == 0 && !changedBufferSize
      ensures log == []
    {
      fwCallback := DefaultCallback;
      previousBufferSize := 0;
      changedBufferSize := false;
      responseTopic := ResponseTopicBuffer(0);
      topicId := 0;
      log := [];
    }

    // -------------------------------------------------------------------
    // Telemetry

    /** Sends the device's current firmware title and version; `sent` is
        what the transport answers. */
    method SendInfo(title: CString, version: CString, sent: bool) returns (ok: bool)
      modifies this`log
      ensures ok == sent
      ensures log == old(log) + [SentJson(CurrentFirmware(title, version))]
    {
      log := log + [SentJson(CurrentFirmware(title, version))];
      ok := sent;
    }

    /** Sends an update state with its error text (empty unless given).
        The coordinator's own handlers discard the answer, so they pass
        `false` only to fill the parameter. */
    method SendState(sent: bool, state: FwState, error: ErrorText := Text("")) returns (ok: bool)
      modifies this`log
      ensures ok == sent
      ensures log == old(log) + [StateReport(state, error)]
    {
      log := log + [StateReport(state, error)];
      ok := sent;
    }

    // -------------------------------------------------------------------
    // Starting an update

    /** What preparing does to the active request and the client's counter:
        when it can succeed, the counter is incremented and the request and
        the topic id take its new value; otherwise none of them changes. */
    twostate predicate TookRequestId(callback: UpdateCallback, infoSent: bool, counter: RequestIdCounter?)
      reads this`fwCallback, this`topicId, counter
    {
      if Preparable(callback, infoSent, counter != null) then
        counter.value == old(counter.value) + 1
        && fwCallback == callback.(requestId := counter.value)
        && topicId == counter.value
      else
        fwCallback == old(fwCallback) && topicId == old(topicId)
        && (counter != null ==> counter.value == old(counter.value))
    }

    /** Checks the request's title and version, announces them, and takes a
        fresh request id from the client's counter (`counter` is null when
        the client has none to give). */
    method PrepareFirmwareSettings(callback: UpdateCallback, infoSent: bool, counter: RequestIdCounter?)
      returns (ok: bool)
      requires Valid()
      modifies this`fwCallback, this`responseTopic, this`topicId, this`log, counter
      ensures Valid()
      ensures ok == Preparable(callback, infoSent, counter != null)
      ensures log == old(log) + PrepareTrace(callback, infoSent)
      ensures TookRequestId(callback, infoSent, counter)
    {
      if NullOrEmpty(callback.title) || NullOrEmpty(callback.version) {
        return false;
      }
      var infoOk := SendInfo(callback.title.value, callback.version.value, infoSent);
      if !infoOk {
        return false;
      }
      log := log + [RequestIdRead];
      if counter == null {
        return false;
      }
      counter.value := counter.value + 1;
      fwCallback := callback.(requestId := counter.value);
      responseTopic := ResponseTopicBuffer(counter.value);
      topicId := counter.value;
      ok := true;
    }

    /** Prepares the update, then asks once for the five firmware
        attributes, with the request's timeout; `registered` is what the
        attribute layer answers. */
    method StartFirmwareUpdate(callback: UpdateCallback, infoSent: bool, counter: RequestIdCounter?, registered: bool)
      returns (ok: bool)
      requires Valid()
      modifies this`fwCallback, this`responseTopic, this`topicId, this`log, counter
      ensures Valid()
      ensures ok == (Preparable(callback, infoSent, counter != null) && registered)
      ensures log == old(log) + PrepareTrace(callback, infoSent)
        + (if Preparable(callback, infoSent, counter != null) then [AttributesRequested(FirmwareKeys, callback.timeout)] else [])
      ensures TookRequestId(callback, infoSent, counter)
    {
      var prepared := PrepareFirmwareSettings(callback, infoSent, counter);
      if !prepared {
        return false;
      }
      log := log + [AttributesRequested(FirmwareKeys, callback.timeout)];
      ok := registered;
    }

    /** Prepares the update, then subscribes to changes of the five
        firmware attributes; `registered` is what the attribute layer answers. */
    method SubscribeFirmwareUpdate(callback: UpdateCallback, infoSent: bool, counter: RequestIdCounter?, registered: bool)
      returns (ok: bool)
      requires Valid()
      modifies this`fwCallback, this`responseTopic, this`topicId, this`log, counter
      ensures Valid()
      ensures ok == (Preparable(callback, infoSent, counter != null) && registered)
      ensures log == old(log) + PrepareTrace(callback, infoSent)
        + (if Preparable(callback, infoSent, counter != null) then [AttributesSubscribed(FirmwareKeys)] else [])
      ensures TookRequestId(callback, infoSent, counter)
    {
      var prepared := PrepareFirmwareSettings(callback, infoSent, counter);
      if !prepared {
        return false;
      }
      log := log + [AttributesSubscribed(FirmwareKeys)];
      ok := registered;
    }

    /** Hands the stop request to the transfer engine. */
    method StopFirmwareUpdate()
      modifies this`log
      ensures log == old(log) + [EngineStopped]
    {
      log := log + [EngineStopped];
    }

    /** Unsubscribing the coordinator from the client stops any update and succeeds. */
    method Unsubscribe() returns (ok: bool)
      modifies this`log
      ensures ok
      ensures log == old(log) + [EngineStopped]
    {
      StopFirmwareUpdate();
      ok := true;
    }

    // -------------------------------------------------------------------
    // Response topic

    /** Subscribes to every firmware response; on failure reports it. */
    method FirmwareOtaSubscribe(subscribed: bool) returns (ok: bool)
      modifies this`log
      ensures ok == subscribed
      ensures log == old(log) + [Subscribed(ResponseSubscribeTopic)]
        + (if subscribed then [] else [StateReport(Failed, SubscribeFailed(ResponseSubscribeTopic))])
    {
      log := log + [Subscribed(ResponseSubscribeTopic)];
      if !subscribed {
        var _ := SendState(false, Failed, SubscribeFailed(ResponseSubscribeTopic));
        return false;
      }
      ok := true;
    }

    method ResubscribeTopic(subscribed: bool) returns (ok: bool)
      modifies this`log
      ensures ok == subscribed
      ensures log == old(log) + [Subscribed(ResponseSubscribeTopic)]
        + (if subscribed then [] else [StateReport(Failed, SubscribeFailed(ResponseSubscribeTopic))])
    {
      ok := FirmwareOtaSubscribe(subscribed);
    }

    /** `Compare_Response_Topic`: whether an incoming topic belongs to this
        coordinator, compared with `strncmp` over the stored topic's length. */
    function CompareResponseTopic(topic: CString): (r: bool)
      reads this
      ensures r <==> responseTopic <= topic
    {
      StrnEqualIsPrefix(responseTopic, topic);
      StrnEqual(responseTopic, topic, |responseTopic|)
    }

    /** Routes a raw response to the transfer engine. The chunk index is
        what the client's topic parser returns for the prefix built from
        the active request id. */
    method ProcessResponse(topic: CString, payload: seq<bv8>, chunk: nat)
      modifies this`log
      ensures log == old(log) + [RequestIdParsed(ResponseTopic(fwCallback.requestId), topic), EnginePacket(chunk, payload)]
    {
      var prefix := ResponseTopic(fwCallback.requestId);
      log := log + [RequestIdParsed(prefix, topic), EnginePacket(chunk, payload)];
    }

    // -------------------------------------------------------------------
    // Callbacks handed to the transfer engine and the attribute layer

    /** Cleanup: restores the receive buffer if it was grown, forgets the
        active request and unsubscribes; `unsubscribed` is the transport's answer. */
    method FirmwareOtaUnsubscribe(sendSize: uint16, unsubscribed: bool) returns (ok: bool)
      requires Valid()
      modifies this`log, this`fwCallback
      ensures Valid()
      ensures ok == unsubscribed
      ensures log == old(log) + CleanupTrace(old(changedBufferSize), old(previousBufferSize), sendSize)
      ensures fwCallback == DefaultCallback
    {
      if changedBufferSize {
        log := log + [SendSizeRead, BufferSizeSet(previousBufferSize, sendSize)];
      }
      fwCallback := DefaultCallback;
      log := log + [Unsubscribed(ResponseSubscribeTopic)];
      ok := unsubscribed;
    }

    /** Publishes a request for one chunk: the chunk size in decimal, on
        the request topic of `requestId` and `chunk`. */
    method PublishChunkRequest(requestId: nat, chunk: nat, published: bool) returns (ok: bool)
      modifies this`log
      ensures ok == published
      ensures log == old(log) + [SentJsonString(ChunkRequestTopic(requestId, chunk), ChunkSizePayload(fwCallback.chunkSize))]
    {
      var size := Format(NumberFormat, [U(fwCallback.chunkSize)]);
      var topic := Format(RequestTopicFormat, [U(requestId), U(chunk)]);
      log := log + [SentJsonString(topic, size)];
      ok := published;
    }

    /** The attribute request went unanswered: report the failure. */
    method RequestTimeout()
      modifies this`log
      ensures log == old(log) + [StateReport(Failed, Text(NoRequestResponseMessage))]
    {
      var _ := SendState(false, Failed, Text(NoRequestResponseMessage));
    }

    /** Screens received firmware metadata with `Screen`, reporting a
        refusal as a state, and, when it names a new
        firmware for this device with a supported checksum algorithm,
        subscribes, negotiates the receive buffer and starts the engine. */
    method FirmwareSharedAttributeReceived(a: Attributes, r: Replies)
      modifies this`log, this`previousBufferSize, this`changedBufferSize
      ensures log == old(log) + AttributeTrace(fwCallback, a, r)
      ensures Negotiates(fwCallback, a, r) ==>
                previousBufferSize == r.receiveSize
                && changedBufferSize == NeedsGrow(r.receiveSize, fwCallback.chunkSize)
      ensures !Negotiates(fwCallback, a, r) ==>
                previousBufferSize == old(previousBufferSize) && changedBufferSize == old(changedBufferSize)
    {
      var verdict := Screen(fwCallback, a);
      if verdict.Reject? {
        var _ := SendState(false, verdict.state, verdict.error);
        return;
      }
      log := log + [UpdateStartingCalled];
      var subscribed := FirmwareOtaSubscribe(r.subscribed);
      if !subscribed {
        log := log + [FinishCalled(false)];
        return;
      }
      NegotiateAndStart(a, verdict.algorithm, r);
    }

    /** Reads the receive-buffer size, grows the buffer when a chunk and
        its margin would not fit, and hands the update to the engine unless
        growing failed. */
    method NegotiateAndStart(a: Attributes, algorithm: Algorithm, r: Replies)
      requires a.checksum.Some?
      modifies this`log, this`previousBufferSize, this`changedBufferSize
      ensures log == old(log) + NegotiationTrace(fwCallback, a, algorithm, r)
      ensures previousBufferSize == r.receiveSize
      ensures changedBufferSize == NeedsGrow(r.receiveSize, fwCallback.chunkSize)
    {
      var chunkSize := fwCallback.chunkSize;
      log := log + [ReceiveSizeRead];
      previousBufferSize := r.receiveSize;
      changedBufferSize := previousBufferSize < chunkSize + BufferMargin;
      if changedBufferSize {
        log := log + [SendSizeRead, BufferSizeSet(AsUint16(chunkSize + BufferMargin), r.sendSize)];
        if !r.grown {
          var _ := SendState(false, Failed, Text(NotEnoughRamMessage));
          log := log + [FinishCalled(false)];
          return;
        }
      }
      log := log + [EngineStarted(fwCallback, a.size, a.checksum.value, algorithm)];
    }
  }
}
