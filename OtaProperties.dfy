/** What the coordinator's handlers guarantee, stated over the call traces
    and messages of `OtaProtocol` and over the coordinator object. */
module OtaProperties {
  import opened CStrings
  import opened OtaProtocol
  import opened OtaCoordinator

  /** Some call in `t` hands an update to the transfer engine. */
  ghost predicate StartsEngine(t: seq<Event>)
  {
    exists i :: 0 <= i < |t| && t[i].EngineStarted?
  }

  /** Some call in `t` resizes the client's buffers. */
  ghost predicate ResizesBuffer(t: seq<Event>)
  {
    exists i :: 0 <= i < |t| && t[i].BufferSizeSet?
  }

  /** Some call in `t` subscribes, resizes buffers or starts the engine. */
  ghost predicate ActsOnUpdate(t: seq<Event>)
  {
    exists i :: 0 <= i < |t| && Acts(t[i])
  }

  // ---------------------------------------------------------------------
  // Screening: why metadata is turned away

  lemma ScreenMissingKey(current: UpdateCallback, a: Attributes)
    requires !HasAllKeys(a)
    ensures Screen(current, a) == Reject(Failed, Text(NoFwMessage))
  {
  }

  lemma ScreenNullValue(current: UpdateCallback, a: Attributes)
    requires HasAllKeys(a) && AnyNull(current, a)
    ensures Screen(current, a) == Reject(Failed, Text(EmptyFwMessage))
  {
  }

  /** Metadata whose title and version both start with the installed ones
      is reported as already updated, with an empty error. */
  lemma ScreenAlreadyUpdated(current: UpdateCallback, a: Attributes)
    requires HasAllKeys(a) && !AnyNull(current, a)
    requires current.title.value <= a.title.value && current.version.value <= a.version.value
    ensures Screen(current, a) == Reject(Updated, Text(""))
  {
    StrnEqualIsPrefix(current.title.value, a.title.value);
    StrnEqualIsPrefix(current.version.value, a.version.value);
  }

  /** Metadata whose title does not start with the installed title is
      refused with a message naming both titles; this check comes after
      the already-updated one. */
  lemma ScreenWrongTitle(current: UpdateCallback, a: Attributes)
    requires HasAllKeys(a) && !AnyNull(current, a)
    requires !(current.title.value <= a.title.value)
    ensures Screen(current, a).Reject? && Screen(current, a).state == Failed
    ensures Screen(current, a).error.Text?
    ensures Contains(Screen(current, a).error.s, a.title.value)
    ensures Contains(Screen(current, a).error.s, current.title.value)
  {
    StrnEqualIsPrefix(current.title.value, a.title.value);
  }

  /** A new version of this device's firmware whose algorithm token starts
      with no supported name is refused with a message naming the token. */
  lemma ScreenUnsupportedAlgorithm(current: UpdateCallback, a: Attributes)
    requires HasAllKeys(a) && !AnyNull(current, a)
    requires current.title.value <= a.title.value && !(current.version.value <= a.version.value)
    requires forall alg :: !(AlgorithmName(alg) <= a.algorithm.value)
    ensures Screen(current, a).Reject? && Screen(current, a).state == Failed
    ensures Screen(current, a).error.Text?
    ensures Contains(Screen(current, a).error.s, a.algorithm.value)
  {
    StrnEqualIsPrefix(current.title.value, a.title.value);
    StrnEqualIsPrefix(current.version.value, a.version.value);
    if SelectAlgorithm(a.algorithm.value).Some? {
      var alg := SelectAlgorithm(a.algorithm.value).value;
      SelectAlgorithmByPrefix(a.algorithm.value, alg);
    }
  }

  /** Screening lets metadata through exactly when every key is present,
      nothing is null or empty, the title starts with the installed title,
      the version does not start with the installed version, and the
      algorithm token starts with the name of the selected algorithm. */
  lemma ScreenAccepts(current: UpdateCallback, a: Attributes, alg: Algorithm)
    ensures Screen(current, a) == Accept(alg)
        <==> HasAllKeys(a) && !AnyNull(current, a)
             && current.title.value <= a.title.value
             && !(current.version.value <= a.version.value)
             && AlgorithmName(alg) <= a.algorithm.value
  {
    if HasAllKeys(a) && !AnyNull(current, a) {
      StrnEqualIsPrefix(current.title.value, a.title.value);
      StrnEqualIsPrefix(current.version.value, a.version.value);
      SelectAlgorithmByPrefix(a.algorithm.value, alg);
    }
  }

  // ---------------------------------------------------------------------
  // The metadata handler's trace

  /** Refused metadata produces one state report and nothing else: no
      subscription, no resize, no engine start. */
  lemma RejectOnlyReports(current: UpdateCallback, a: Attributes, r: Replies)
    requires Screen(current, a).Reject?
    ensures AttributeTrace(current, a, r) == [StateReport(Screen(current, a).state, Screen(current, a).error)]
    ensures !ActsOnUpdate(AttributeTrace(current, a, r))
  {
  }

  /** A failed response-topic subscription reports the failure and ends
      the update through the finish callback, before any buffer work. */
  lemma SubscribeFailureTrace(current: UpdateCallback, a: Attributes, r: Replies)
    requires Screen(current, a).Accept? && !r.subscribed
    ensures AttributeTrace(current, a, r)
         == [UpdateStartingCalled, Subscribed(ResponseSubscribeTopic),
             StateReport(Failed, SubscribeFailed(ResponseSubscribeTopic)), FinishCalled(false)]
    ensures !StartsEngine(AttributeTrace(current, a, r)) && !ResizesBuffer(AttributeTrace(current, a, r))
  {
  }

  /** The handler resizes the buffers exactly when it reaches negotiation
      and the receive buffer is smaller than a chunk plus the margin. */
  lemma ResizeIff(current: UpdateCallback, a: Attributes, r: Replies)
    ensures ResizesBuffer(AttributeTrace(current, a, r))
        <==> Negotiates(current, a, r) && NeedsGrow(r.receiveSize, current.chunkSize)
  {
    var t := AttributeTrace(current, a, r);
    if Negotiates(current, a, r) && NeedsGrow(r.receiveSize, current.chunkSize) {
      assert t[4].BufferSizeSet?;
    }
  }

  /** The size asked for is the chunk size plus the margin, truncated to
      the 16 bits the resize call takes; the send size is kept. */
  lemma ResizeRequest(current: UpdateCallback, a: Attributes, r: Replies)
    requires Negotiates(current, a, r) && NeedsGrow(r.receiveSize, current.chunkSize)
    ensures AttributeTrace(current, a, r)[4]
         == BufferSizeSet((current.chunkSize + BufferMargin) % 0x1_0000, r.sendSize)
  {
  }

  /** The engine is started exactly when the handler reaches negotiation
      and either no resize was needed or the resize succeeded. */
  lemma EngineStartIff(current: UpdateCallback, a: Attributes, r: Replies)
    ensures StartsEngine(AttributeTrace(current, a, r))
        <==> Negotiates(current, a, r) && (!NeedsGrow(r.receiveSize, current.chunkSize) || r.grown)
  {
    var t := AttributeTrace(current, a, r);
    if Negotiates(current, a, r) && (!NeedsGrow(r.receiveSize, current.chunkSize) || r.grown) {
      assert t[|t| - 1].EngineStarted?;
    }
  }

  /** When the engine is started it is the last call, and it receives the
      active request, the announced size, the checksum and an algorithm
      whose name starts the received token. */
  lemma EngineStartArguments(current: UpdateCallback, a: Attributes, r: Replies)
    requires StartsEngine(AttributeTrace(current, a, r))
    ensures var t := AttributeTrace(current, a, r);
            t[|t| - 1].EngineStarted?
            && t[|t| - 1].callback == current
            && t[|t| - 1].size == a.size
            && t[|t| - 1].checksum == a.checksum.value
            && AlgorithmName(t[|t| - 1].algorithm) <= a.algorithm.value
  {
    EngineStartIff(current, a, r);
    var alg := Screen(current, a).algorithm;
    SelectAlgorithmByPrefix(a.algorithm.value, alg);
  }

  /** A failed resize reports the lack of memory and ends the update. */
  lemma GrowFailureEndsUpdate(current: UpdateCallback, a: Attributes, r: Replies)
    requires Negotiates(current, a, r) && NeedsGrow(r.receiveSize, current.chunkSize) && !r.grown
    ensures var t := AttributeTrace(current, a, r);
            t[|t| - 2..] == [StateReport(Failed, Text(NotEnoughRamMessage)), FinishCalled(false)]
    ensures var t := AttributeTrace(current, a, r);
            t[1] == Subscribed(ResponseSubscribeTopic) && Unsubscribed(ResponseSubscribeTopic) !in t
  {
  }

  /** Neither failed exit cleans up: a failed subscribe makes no
      unsubscribe call, and after a failed resize the response
      subscription stays in place. */
  lemma FailedStartNeverUnsubscribes(current: UpdateCallback, a: Attributes, r: Replies)
    requires Screen(current, a).Accept?
    requires !r.subscribed || (NeedsGrow(r.receiveSize, current.chunkSize) && !r.grown)
    ensures Unsubscribed(ResponseSubscribeTopic) !in AttributeTrace(current, a, r)
    ensures !StartsEngine(AttributeTrace(current, a, r))
  {
  }

  /** A chunk size of 65486 or more makes `chunk_size + 50` overflow the
      16-bit resize argument: the size requested is then smaller than
      the chunk itself. */
  lemma GrowSizeWraps(chunkSize: uint16)
    requires chunkSize >= 0x1_0000 - BufferMargin
    ensures AsUint16(GrowSize(chunkSize)) == chunkSize + BufferMargin - 0x1_0000
    ensures AsUint16(GrowSize(chunkSize)) < chunkSize
  {
  }

  /** Below that bound the requested size is exact. */
  lemma GrowSizeExact(chunkSize: uint16)
    requires chunkSize < 0x1_0000 - BufferMargin
    ensures AsUint16(GrowSize(chunkSize)) == chunkSize + BufferMargin
  {
  }

  // ---------------------------------------------------------------------
  // Cleanup

  /** Cleanup restores the previous receive size exactly when the buffer
      was changed, and always ends by unsubscribing. */
  lemma CleanupRestoreIff(changed: bool, previous: uint16, sendSize: uint16)
    ensures ResizesBuffer(CleanupTrace(changed, previous, sendSize)) <==> changed
    ensures changed ==> CleanupTrace(changed, previous, sendSize)[1] == BufferSizeSet(previous, sendSize)
    ensures var t := CleanupTrace(changed, previous, sendSize); t[|t| - 1] == Unsubscribed(ResponseSubscribeTopic)
  {
    var t := CleanupTrace(changed, previous, sendSize);
    if changed {
      assert t[1].BufferSizeSet?;
    }
  }

  /** After cleanup the coordinator holds no title or version, so any
      metadata that arrives with all keys is refused as null. */
  lemma AfterCleanupMetadataIsNull(a: Attributes, r: Replies)
    requires HasAllKeys(a)
    ensures AttributeTrace(DefaultCallback, a, r) == [StateReport(Failed, Text(EmptyFwMessage))]
  {
    assert AnyNull(DefaultCallback, a);
  }

  // ---------------------------------------------------------------------
  // Preparation

  /** A request without a title or version sends nothing; otherwise the
      announcement goes first, and the counter is read only after it was sent. */
  lemma PrepareAnnouncesFirst(callback: UpdateCallback, infoSent: bool)
    ensures PrepareTrace(callback, infoSent) == [] <==> NullOrEmpty(callback.title) || NullOrEmpty(callback.version)
    ensures (RequestIdRead in PrepareTrace(callback, infoSent))
        <==> !NullOrEmpty(callback.title) && !NullOrEmpty(callback.version) && infoSent
  {
    var t := PrepareTrace(callback, infoSent);
    if !NullOrEmpty(callback.title) && !NullOrEmpty(callback.version) {
      assert t[0] == SentJson(CurrentFirmware(callback.title.value, callback.version.value));
      if infoSent {
        assert t[1] == RequestIdRead;
      } else {
        assert t == [t[0]];
      }
    }
  }

  // ---------------------------------------------------------------------
  // Routing responses by topic

  /** With a request id that fits the topic buffer, a chunk topic belongs
      to the coordinator exactly when it carries the same request id. */
  lemma ResponseRouting(active: nat, id: nat, chunk: nat)
    requires active < 0x1_0000_0000
    ensures ResponseTopicBuffer(active) <= ChunkResponseTopic(id, chunk) <==> active == id
  {
    ResponseTopicFits(active);
    ResponseTopicPrefixOwnership(active, id, Decimal(chunk));
  }

  /** The same, for the coordinator object's own comparison. */
  lemma CompareRouting(o: OtaFirmwareUpdate, id: nat, chunk: nat)
    requires o.Valid() && o.topicId < 0x1_0000_0000
    ensures o.CompareResponseTopic(ChunkResponseTopic(id, chunk)) <==> id == o.topicId
  {
    ResponseRouting(o.topicId, id, chunk);
  }

  /** Cleanup forgets the request but keeps the stored topic. The object
      then still claims the chunks of the request it last prepared, while
      the prefix `ProcessResponse` builds from the reset request is the
      topic of id 0, which does not start them. */
  lemma StaleTopicClaimedAfterCleanup(o: OtaFirmwareUpdate, chunk: nat)
    requires o.Valid() && 0 < o.topicId < 0x1_0000_0000
    requires o.fwCallback == DefaultCallback
    ensures o.CompareResponseTopic(ChunkResponseTopic(o.topicId, chunk))
    ensures !(ResponseTopic(o.fwCallback.requestId) <= ChunkResponseTopic(o.topicId, chunk))
  {
    CompareRouting(o, o.topicId, chunk);
    ResponseTopicFits(0);
    ResponseRouting(0, o.topicId, chunk);
  }

  /** Preparing an update and then cleaning up reaches that state. */
  method PrepareThenCleanUp(o: OtaFirmwareUpdate, callback: UpdateCallback, counter: RequestIdCounter,
                            sendSize: uint16, chunk: nat)
    requires o.Valid() && Preparable(callback, true, true)
    requires counter.value + 1 < 0x1_0000_0000
    modifies o, counter
    ensures o.topicId == counter.value && o.topicId > 0
    ensures o.CompareResponseTopic(ChunkResponseTopic(o.topicId, chunk))
    ensures !(ResponseTopic(o.fwCallback.requestId) <= ChunkResponseTopic(o.topicId, chunk))
  {
    var _ := o.PrepareFirmwareSettings(callback, true, counter);
    var _ := o.FirmwareOtaUnsubscribe(sendSize, true);
    StaleTopicClaimedAfterCleanup(o, chunk);
  }

  /** Chunk 3 of request 5, as the server publishes it. */
  const ExampleChunkTopic: string := "v2/fw/response/" + "5" + "/chunk/" + "3"

  /** A coordinator that took request id 5 accepts chunk 3 of request 5;
      a fresh coordinator (id 0) and one that took id 6 do not. */
  lemma RoutingExample()
    ensures ResponseTopicBuffer(5) <= ExampleChunkTopic
    ensures !(ResponseTopicBuffer(0) <= ExampleChunkTopic)
    ensures !(ResponseTopicBuffer(6) <= ExampleChunkTopic)
  {
    assert Decimal(5) == "5" && Decimal(3) == "3";
    ResponseTopicSpelled(5);
    assert ChunkResponseTopic(5, 3) == ExampleChunkTopic;
    ResponseRouting(5, 5, 3);
    ResponseRouting(0, 5, 3);
    ResponseRouting(6, 5, 3);
  }

  // ---------------------------------------------------------------------
  // What prefix matching means for real titles and versions

  const AllKeys: set<string> := {FwTitleKey, FwVersionKey, FwChecksumKey, FwChecksumAlgorithmKey, FwSizeKey}

  /** Device `app` at version `1.0` is offered version `1.0.1`: since the
      installed version is a prefix of the offered one, the offer is
      reported as already installed and no update starts. */
  lemma ExtendedVersionCountsAsInstalled()
    ensures Screen(UpdateCallback(Some("app"), Some("1.0"), 256, 5000, 1),
                   Attributes(AllKeys, Some("app"), Some("1.0.1"), Some("c0ffee"), Some("SHA256"), 4096))
         == Reject(Updated, Text(""))
  {
    var current := UpdateCallback(Some("app"), Some("1.0"), 256, 5000, 1);
    var a := Attributes(AllKeys, Some("app"), Some("1.0.1"), Some("c0ffee"), Some("SHA256"), 4096);
    assert "1.0" <= "1.0.1";
    ScreenAlreadyUpdated(current, a);
  }

  /** Device `app` at version `1.0` is offered `app-other` version `2.0`:
      since `app` is a prefix of `app-other`, the title check passes and
      the update goes ahead with SHA-256. */
  lemma ExtendedTitleIsAccepted()
    ensures Screen(UpdateCallback(Some("app"), Some("1.0"), 256, 5000, 1),
                   Attributes(AllKeys, Some("app-other"), Some("2.0"), Some("c0ffee"), Some("SHA256"), 4096))
         == Accept(SHA256)
  {
    var current := UpdateCallback(Some("app"), Some("1.0"), 256, 5000, 1);
    var a := Attributes(AllKeys, Some("app-other"), Some("2.0"), Some("c0ffee"), Some("SHA256"), 4096);
    assert "app" <= "app-other";
    assert "2.0"[..3][0] == '2';
    ScreenAccepts(current, a, SHA256);
  }
}
