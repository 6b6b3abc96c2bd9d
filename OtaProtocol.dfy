/** The values the OTA firmware-update coordinator exchanges with the
    ThingsBoard server and with its collaborators: topics, payloads, the
    firmware metadata it screens, and the ordered collaborator calls each of
    its handlers makes, written as pure functions of the collaborators'
    answers. */
module OtaProtocol {
  import opened CStrings

  datatype Option<T> = None | Some(value: T)

  /** C's `uint16_t`. */
  type uint16 = x: int | 0 <= x < 0x1_0000

  /** Wraps a value into a `uint16_t` parameter, as C's conversion does. */
  function AsUint16(x: nat): uint16
  {
    x % 0x1_0000
  }

  // ---------------------------------------------------------------------
  // Constants

  /** Capacity of the `m_response_topic` buffer, terminator included. */
  const MaxFwTopicSize: nat := 33
  const ResponseTopicFormat: string := "v2/fw/response/%u/chunk/"
  const ResponseSubscribeTopic: string := "v2/fw/response/+"
  const RequestTopicFormat: string := "v2/fw/request/%u/chunk/%u"
  const NumberFormat: string := "%u"

  const FwTitleKey: string := "fw_title"
  const FwVersionKey: string := "fw_version"
  const FwChecksumKey: string := "fw_checksum"
  const FwChecksumAlgorithmKey: string := "fw_checksum_algorithm"
  const FwSizeKey: string := "fw_size"

  /** The five firmware shared attributes, `fw_checksum`,
      `fw_checksum_algorithm`, `fw_size`, `fw_title` and `fw_version`. */
  datatype FirmwareKey = ChecksumKey | ChecksumAlgorithmKey | SizeKey | TitleKey | VersionKey

  /** The keys requested or subscribed to, in the order the coordinator lists them. */
  const FirmwareKeys: seq<FirmwareKey> := [ChecksumKey, ChecksumAlgorithmKey, SizeKey, TitleKey, VersionKey]

  const NoFwMessage: string := "Missing shared attribute firmware keys. Ensure you assigned an OTA update with binary"
  const EmptyFwMessage: string := "Received shared attribute firmware keys were NULL"
  // The two formats below are written as short literal pieces joined by
  // `+`: the solver checks facts about short literals (such as "no `%` in
  // this piece") far more cheaply than about one long literal.

  /** The wrong-title format, `NotForUsHead` + `%s` + `NotForUsMiddle` + `%s` + `NotForUsTail`. */
  const NotForUsHead: string := "Received firmware" + " title ("
  const NotForUsMiddle: string := ") is different" + " and not meant" + " for this device ("
  const NotForUsTail: string := ")"
  const NotForUsFormat: string := NotForUsHead + "%s" + NotForUsMiddle + "%s" + NotForUsTail
  /** The unsupported-algorithm format, `AlgorithmHead` + `%s` + `AlgorithmTail`. */
  const AlgorithmHead: string := "Received checksum" + " algorithm ("
  const AlgorithmTail: string := ") is not supported"
  const AlgorithmNotSupportedFormat: string := AlgorithmHead + "%s" + AlgorithmTail
  const NotEnoughRamMessage: string := "Temporary allocating more internal client buffer failed, decrease OTA chunk size or decrease overall heap usage"
  const NoRequestResponseMessage: string := "Did not receive requested shared attribute firmware keys. Ensure keys exist and device is connected"

  /** Margin added to the chunk size when sizing the receive buffer. */
  const BufferMargin: nat := 50

  // ---------------------------------------------------------------------
  // Topics and payloads

  /** The response topic for request `id`, as `snprintf` expands its format
      into a buffer large enough for it. */
  function ResponseTopic(id: nat): CString
  {
    ResponseTopicExpands(id);
    ResponseTopicHasNoNul(id);
    Format(ResponseTopicFormat, [U(id)])
  }

  /** The response topic of request `id` spelled out. */
  lemma ResponseTopicSpelled(id: nat)
    ensures ResponseTopic(id) == "v2/fw/response/" + Decimal(id) + "/chunk/"
  {
    ResponseTopicExpands(id);
  }

  lemma ResponseTopicExpands(id: nat)
    ensures Format(ResponseTopicFormat, [U(id)]) == "v2/fw/response/" + Decimal(id) + "/chunk/"
  {
    assert ResponseTopicFormat == "v2/fw/response/" + "%u" + "/chunk/";
    FormatOneUnsigned("v2/fw/response/", "/chunk/", id);
  }

  lemma ResponseTopicHasNoNul(id: nat)
    ensures '\0' !in "v2/fw/response/" + Decimal(id) + "/chunk/"
  {
    DecimalHasNoNul(id);
  }

  /** What the 33-byte `m_response_topic` buffer holds once request `id`'s
      topic has been written into it. */
  function ResponseTopicBuffer(id: nat): (t: CString)
    ensures |t| < MaxFwTopicSize
    ensures t <= ResponseTopic(id)
  {
    var t := Snprintf(MaxFwTopicSize, ResponseTopicFormat, [U(id)]);
    assert '\0' !in t by {
      forall i | 0 <= i < |t| ensures t[i] != '\0' {
        assert t[i] == ResponseTopic(id)[i];
        assert ResponseTopic(id)[i] in ResponseTopic(id);
      }
    }
    t
  }

  /** The buffer is large enough for every request id a 32-bit `%u` can print. */
  lemma ResponseTopicFits(id: nat)
    requires id < 0x1_0000_0000
    ensures ResponseTopicBuffer(id) == ResponseTopic(id)
  {
    assert Pow10(10) == 10_000_000_000;
    DecimalLength(id, 10);
    ResponseTopicSpelled(id);
  }

  /** A topic the server publishes chunk `chunk` of request `id` on. */
  function ChunkResponseTopic(id: nat, chunk: nat): (t: CString)
    ensures ResponseTopic(id) <= t
  {
    DecimalHasNoNul(chunk);
    ResponseTopic(id) + Decimal(chunk)
  }

  /** The response topic of request `active` is a prefix of the response
      topic of request `id` (whatever follows it) exactly when the two
      ids are the same. */
  lemma {:induction false} ResponseTopicPrefixOwnership(active: nat, id: nat, suffix: string)
    ensures ResponseTopic(active) <= ResponseTopic(id) + suffix <==> active == id
  {
    ResponseTopicSpelled(active);
    ResponseTopicSpelled(id);
    DecimalFieldOwnership("v2/fw/response/", "/chunk/", active, id, suffix);
  }

  /** The topic chunk requests for request `id` are published on. */
  function ChunkRequestTopic(id: nat, chunk: nat): (t: string)
    ensures t == "v2/fw/request/" + Decimal(id) + "/chunk/" + Decimal(chunk)
  {
    RequestTopicExpands(id, chunk);
    Format(RequestTopicFormat, [U(id), U(chunk)])
  }

  lemma RequestTopicExpands(id: nat, chunk: nat)
    ensures Format(RequestTopicFormat, [U(id), U(chunk)]) == "v2/fw/request/" + Decimal(id) + "/chunk/" + Decimal(chunk)
  {
    RequestTopicFormatPieces();
    FormatTwoUnsigned("v2/fw/request/", "/chunk/", "", id, chunk);
    SeqAssociates("v2/fw/request/", Decimal(id), "/chunk/", Decimal(chunk));
  }

  lemma RequestTopicFormatPieces()
    ensures RequestTopicFormat == "v2/fw/request/" + ("%u" + ("/chunk/" + ("%u" + "")))
  {
  }

  lemma SeqAssociates(a: string, b: string, c: string, d: string)
    ensures a + (b + (c + (d + ""))) == a + b + c + d
  {
  }

  /** The payload of a chunk request: the chunk size in decimal, which reads
      back as the chunk size. */
  function ChunkSizePayload(chunkSize: uint16): (p: string)
    ensures |p| >= 1 && forall i :: 0 <= i < |p| ==> IsDigit(p[i])
    ensures ParseDecimal(p) == chunkSize
  {
    assert NumberFormat == "" + "%u" + "";
    FormatOneUnsigned("", "", chunkSize);
    assert "" + Decimal(chunkSize) + "" == Decimal(chunkSize);
    DecimalRoundTrip(chunkSize);
    Format(NumberFormat, [U(chunkSize)])
  }

  // ---------------------------------------------------------------------
  // Checksum algorithms

  /** The digest types the transfer engine can verify with
      (MD5 of RFC 1321, SHA-256/384/512 of FIPS 180-4). */
  datatype Algorithm = MD5 | SHA256 | SHA384 | SHA512

  function AlgorithmName(alg: Algorithm): CString
  {
    match alg
    case MD5 => "MD5"
    case SHA256 => "SHA256"
    case SHA384 => "SHA384"
    case SHA512 => "SHA512"
  }

  /** The order in which the coordinator tries the algorithm names. */
  const AlgorithmOrder: seq<Algorithm> := [MD5, SHA256, SHA384, SHA512]

  /** The coordinator's lookup: each name is compared with
      `strncmp(name, token, strlen(name))`, in `AlgorithmOrder`. */
  function SelectAlgorithm(token: CString): Option<Algorithm>
  {
    if StrnEqual(AlgorithmName(MD5), token, |AlgorithmName(MD5)|) then Some(MD5)
    else if StrnEqual(AlgorithmName(SHA256), token, |AlgorithmName(SHA256)|) then Some(SHA256)
    else if StrnEqual(AlgorithmName(SHA384), token, |AlgorithmName(SHA384)|) then Some(SHA384)
    else if StrnEqual(AlgorithmName(SHA512), token, |AlgorithmName(SHA512)|) then Some(SHA512)
    else None
  }

  /** Reference definition: the first algorithm of `order` whose name starts `token`. */
  function FirstPrefixed(order: seq<Algorithm>, token: string): (r: Option<Algorithm>)
    ensures r.Some? ==> r.value in order && AlgorithmName(r.value) <= token
    ensures r.None? ==> forall alg :: alg in order ==> !(AlgorithmName(alg) <= token)
  {
    if |order| == 0 then None
    else if AlgorithmName(order[0]) <= token then Some(order[0])
    else FirstPrefixed(order[1..], token)
  }

  /** The lookup picks the first algorithm, in order, whose name is a prefix of the token. */
  lemma SelectAlgorithmIsFirstPrefixed(token: CString)
    ensures SelectAlgorithm(token) == FirstPrefixed(AlgorithmOrder, token)
  {
    StrnEqualIsPrefix(AlgorithmName(MD5), token);
    StrnEqualIsPrefix(AlgorithmName(SHA256), token);
    StrnEqualIsPrefix(AlgorithmName(SHA384), token);
    StrnEqualIsPrefix(AlgorithmName(SHA512), token);
    var o := AlgorithmOrder;
    assert o[1..] == [SHA256, SHA384, SHA512];
    assert o[1..][1..] == [SHA384, SHA512];
    assert o[1..][1..][1..] == [SHA512];
    assert o[1..][1..][1..][1..] == [];
  }

  /** Two strings agree wherever both are defined: one is a prefix of the other. */
  ghost predicate Comparable(s: string, t: string)
  {
    forall i :: 0 <= i < |s| && i < |t| ==> s[i] == t[i]
  }

  lemma PrefixesComparable(s: string, t: string, u: string)
    requires s <= u && t <= u
    ensures Comparable(s, t)
  {
    forall i | 0 <= i < |s| && i < |t| ensures s[i] == t[i] {
      assert s[i] == u[i] && t[i] == u[i];
    }
  }

  /** No algorithm name is a prefix of another. */
  lemma NamesIncomparable(a1: Algorithm, a2: Algorithm)
    ensures Comparable(AlgorithmName(a1), AlgorithmName(a2)) ==> a1 == a2
  {
    var n1, n2 := AlgorithmName(a1), AlgorithmName(a2);
    if a1 != a2 {
      if a1 == MD5 || a2 == MD5 {
        assert n1[0] != n2[0];
      } else {
        assert n1[3] != n2[3];
      }
    }
  }

  /** No token starts with two of the names, so the order of the tries
      never changes the outcome: an algorithm is selected exactly when its
      name is a prefix of the token. */
  lemma SelectAlgorithmByPrefix(token: CString, alg: Algorithm)
    ensures SelectAlgorithm(token) == Some(alg) <==> AlgorithmName(alg) <= token
  {
    SelectAlgorithmIsFirstPrefixed(token);
    var r := SelectAlgorithm(token);
    if AlgorithmName(alg) <= token {
      assert alg in AlgorithmOrder;
      PrefixesComparable(AlgorithmName(r.value), AlgorithmName(alg), token);
      NamesIncomparable(r.value, alg);
    }
  }

  // ---------------------------------------------------------------------
  // Firmware metadata and the update request

  /** The shared attributes delivered by the attribute request or
      subscription. A value is `None` when the key holds no string (JSON
      null or another type); `size` is the already converted `fw_size`. */
  datatype Attributes = Attributes(
    keys: set<string>,
    title: Option<CString>,
    version: Option<CString>,
    checksum: Option<CString>,
    algorithm: Option<CString>,
    size: nat)

  predicate HasAllKeys(a: Attributes)
  {
    FwVersionKey in a.keys && FwTitleKey in a.keys && FwChecksumKey in a.keys
    && FwChecksumAlgorithmKey in a.keys && FwSizeKey in a.keys
  }

  /** The attribute name of each firmware key. */
  function KeyName(k: FirmwareKey): string
  {
    match k
    case ChecksumKey => FwChecksumKey
    case ChecksumAlgorithmKey => FwChecksumAlgorithmKey
    case SizeKey => FwSizeKey
    case TitleKey => FwTitleKey
    case VersionKey => FwVersionKey
  }

  /** The keys the handler checks for are exactly the keys that are
      requested and subscribed to. */
  lemma HasAllKeysIsFirmwareKeys(a: Attributes)
    ensures HasAllKeys(a) <==> forall k :: k in FirmwareKeys ==> KeyName(k) in a.keys
  {
    if HasAllKeys(a) {
      forall k | k in FirmwareKeys
        ensures KeyName(k) in a.keys
      {
        match k
        case ChecksumKey =>
        case ChecksumAlgorithmKey =>
        case SizeKey =>
        case TitleKey =>
        case VersionKey =>
      }
    } else {
      assert KeyName(ChecksumKey) == FwChecksumKey && KeyName(ChecksumAlgorithmKey) == FwChecksumAlgorithmKey;
      assert KeyName(SizeKey) == FwSizeKey && KeyName(TitleKey) == FwTitleKey && KeyName(VersionKey) == FwVersionKey;
      assert FirmwareKeys[0] == ChecksumKey && FirmwareKeys[1] == ChecksumAlgorithmKey && FirmwareKeys[2] == SizeKey;
      assert FirmwareKeys[3] == TitleKey && FirmwareKeys[4] == VersionKey;
    }
  }

  /** The data an `OTA_Update_Callback` carries; its user callbacks appear
      only as logged calls. A `None` title or version is a null pointer. */
  datatype UpdateCallback = UpdateCallback(
    title: Option<CString>,
    version: Option<CString>,
    chunkSize: uint16,
    timeout: nat,
    requestId: nat)

  /** The value `m_fw_callback` is reset to. */
  const DefaultCallback: UpdateCallback := UpdateCallback(None, None, 0, 0, 0)

  /** `Helper::stringIsNullorEmpty`. */
  predicate NullOrEmpty(s: Option<CString>)
  {
    s.None? || s.value == ""
  }

  /** Any of the values the screening dereferences is null. */
  predicate AnyNull(current: UpdateCallback, a: Attributes)
  {
    a.title.None? || a.version.None? || current.title.None? || current.version.None?
    || a.algorithm.None? || a.checksum.None?
  }

  // ---------------------------------------------------------------------
  // Reported state and collaborator calls

  /** The `fw_state` values the coordinator reports; the transfer engine's
      own states are not part of this model. */
  datatype FwState = Failed | Updated

  /** An `fw_error` text. A failed subscribe is described by the topic it names. */
  datatype ErrorText = Text(s: string) | SubscribeFailed(topic: string)

  /** Telemetry documents the coordinator sends. */
  datatype Telemetry =
    | CurrentFirmware(title: CString, version: CString)
    | FirmwareState(state: FwState, error: ErrorText)

  /** One call the coordinator makes into a collaborator. */
  datatype Event =
    | SentJson(telemetry: Telemetry)
    | SentJsonString(topic: string, payload: string)
    | Subscribed(topic: string)
    | Unsubscribed(topic: string)
    | ReceiveSizeRead
    | SendSizeRead
    | BufferSizeSet(receiveSize: uint16, sendSize: uint16)
    | RequestIdRead
    | AttributesRequested(keys: seq<FirmwareKey>, timeout: nat)
    | AttributesSubscribed(keys: seq<FirmwareKey>)
    | UpdateStartingCalled
    | FinishCalled(success: bool)
    | EngineStarted(callback: UpdateCallback, size: nat, checksum: CString, algorithm: Algorithm)
    | EngineStopped
    | RequestIdParsed(prefix: string, topic: string)
    | EnginePacket(chunk: nat, data: seq<bv8>)

  function StateReport(state: FwState, error: ErrorText): Event
  {
    SentJson(FirmwareState(state, error))
  }

  /** An event that subscribes, touches the buffer or starts the engine. */
  predicate Acts(e: Event)
  {
    e.Subscribed? || e.ReceiveSizeRead? || e.SendSizeRead? || e.BufferSizeSet? || e.EngineStarted?
  }

  // ---------------------------------------------------------------------
  // Preparing an update

  /** The calls made while preparing an update with `callback`, given
      whether the device information could be sent. */
  function PrepareTrace(callback: UpdateCallback, infoSent: bool): (t: seq<Event>)
    ensures NullOrEmpty(callback.title) || NullOrEmpty(callback.version) ==> t == []
    ensures t != [] ==> t[0] == SentJson(CurrentFirmware(callback.title.value, callback.version.value))
    ensures forall i :: 0 < i < |t| ==> t[i] == RequestIdRead
  {
    if NullOrEmpty(callback.title) || NullOrEmpty(callback.version) then []
    else
      [SentJson(CurrentFirmware(callback.title.value, callback.version.value))]
      + (if infoSent then [RequestIdRead] else [])
  }

  /** Preparation succeeds: the request names a title and a version, the
      announcement of them was sent, and the client has a request-id counter. */
  predicate Preparable(callback: UpdateCallback, infoSent: bool, hasCounter: bool)
  {
    !NullOrEmpty(callback.title) && !NullOrEmpty(callback.version) && infoSent && hasCounter
  }

  // ---------------------------------------------------------------------
  // Screening received metadata

  lemma NotForUsPiecesArePlain()
    ensures '%' !in NotForUsHead && '%' !in NotForUsMiddle && '%' !in NotForUsTail
  {
    assert '%' !in "Received firmware" && '%' !in " title (";
    assert '%' !in ") is different";
    assert '%' !in " and not meant";
    assert '%' !in " for this device (";
  }

  /** The message naming a received title that is not this device's. */
  function NotForUsText(received: CString, current: CString): (m: string)
    ensures m == NotForUsHead + received + NotForUsMiddle + current + NotForUsTail
    ensures Contains(m, received) && Contains(m, current)
  {
    NotForUsExpands(received, current);
    NotForUsMentions(received, current);
    Snprintf(|NotForUsFormat| + |received| + |current| + 3, NotForUsFormat, [S(received), S(current)])
  }

  lemma NotForUsExpands(received: string, current: string)
    ensures Format(NotForUsFormat, [S(received), S(current)])
         == NotForUsHead + received + NotForUsMiddle + current + NotForUsTail
  {
    NotForUsPiecesArePlain();
    NotForUsFormatPieces();
    FormatTwoStrings(NotForUsHead, NotForUsMiddle, NotForUsTail, received, current);
    SeqAssociates5(NotForUsHead, received, NotForUsMiddle, current, NotForUsTail);
  }

  lemma NotForUsFormatPieces()
    ensures NotForUsFormat == NotForUsHead + ("%s" + (NotForUsMiddle + ("%s" + NotForUsTail)))
  {
    SeqAssociates5(NotForUsHead, "%s", NotForUsMiddle, "%s", NotForUsTail);
  }

  lemma SeqAssociates5(a: string, b: string, c: string, d: string, e: string)
    ensures a + (b + (c + (d + e))) == a + b + c + d + e
  {
  }

  lemma NotForUsMentions(received: string, current: string)
    ensures Contains(NotForUsHead + received + NotForUsMiddle + current + NotForUsTail, received)
    ensures Contains(NotForUsHead + received + NotForUsMiddle + current + NotForUsTail, current)
  {
    var p1, p2, p3 := NotForUsHead, NotForUsMiddle, NotForUsTail;
    ContainsMiddle(p1, received, p2 + current + p3);
    assert p1 + received + (p2 + current + p3) == p1 + received + p2 + current + p3;
    ContainsMiddle(p1 + received + p2, current, p3);
  }

  /** The message naming an unsupported checksum algorithm token. */
  function AlgorithmNotSupportedText(token: CString): (m: string)
    ensures m == AlgorithmHead + token + AlgorithmTail
    ensures Contains(m, token)
  {
    assert '%' !in "Received checksum" && '%' !in " algorithm (";
    assert '%' !in AlgorithmTail;
    FormatOneString(AlgorithmHead, AlgorithmTail, token);
    ContainsMiddle(AlgorithmHead, token, AlgorithmTail);
    Snprintf(|AlgorithmNotSupportedFormat| + |token| + 2, AlgorithmNotSupportedFormat, [S(token)])
  }

  /** The outcome of screening metadata against the active update request:
      stop with a state report, or go on with the selected algorithm. */
  datatype Verdict = Reject(state: FwState, error: ErrorText) | Accept(algorithm: Algorithm)

  /** The coordinator's checks on received metadata, in the order it makes them. */
  function Screen(current: UpdateCallback, a: Attributes): (v: Verdict)
    ensures v.Accept? ==> HasAllKeys(a) && !AnyNull(current, a)
    ensures v.Accept? ==> SelectAlgorithm(a.algorithm.value) == Some(v.algorithm)
  {
    if !HasAllKeys(a) then Reject(Failed, Text(NoFwMessage))
    else if AnyNull(current, a) then Reject(Failed, Text(EmptyFwMessage))
    else
      var title, version := current.title.value, current.version.value;
      if StrnEqual(title, a.title.value, |title|) && StrnEqual(version, a.version.value, |version|) then
        Reject(Updated, Text(""))
      else if !StrnEqual(title, a.title.value, |title|) then
        Reject(Failed, Text(NotForUsText(a.title.value, title)))
      else match SelectAlgorithm(a.algorithm.value)
        case None => Reject(Failed, Text(AlgorithmNotSupportedText(a.algorithm.value)))
        case Some(alg) => Accept(alg)
  }

  // ---------------------------------------------------------------------
  // Collaborator answers during the metadata handler and its call trace

  /** What the collaborators answer while the metadata handler runs: the
      subscribe result, the current buffer sizes, and the grow result. */
  datatype Replies = Replies(subscribed: bool, receiveSize: uint16, sendSize: uint16, grown: bool)

  /** `chunk_size + 50U`, computed in `unsigned int` without wrapping. */
  function GrowSize(chunkSize: uint16): nat
  {
    chunkSize + BufferMargin
  }

  /** The receive buffer has to grow before chunks of `chunkSize` fit. */
  predicate NeedsGrow(receiveSize: uint16, chunkSize: uint16)
  {
    receiveSize < GrowSize(chunkSize)
  }

  /** Calls made from reading the receive size to handing over to the engine. */
  function NegotiationTrace(current: UpdateCallback, a: Attributes, alg: Algorithm, r: Replies): seq<Event>
    requires a.checksum.Some?
  {
    var start := [EngineStarted(current, a.size, a.checksum.value, alg)];
    if NeedsGrow(r.receiveSize, current.chunkSize) then
      [ReceiveSizeRead, SendSizeRead, BufferSizeSet(AsUint16(GrowSize(current.chunkSize)), r.sendSize)]
      + (if r.grown then start else [StateReport(Failed, Text(NotEnoughRamMessage)), FinishCalled(false)])
    else
      [ReceiveSizeRead] + start
  }

  /** Every call the metadata handler makes, in order. */
  function AttributeTrace(current: UpdateCallback, a: Attributes, r: Replies): seq<Event>
  {
    match Screen(current, a)
    case Reject(state, error) => [StateReport(state, error)]
    case Accept(alg) =>
      [UpdateStartingCalled, Subscribed(ResponseSubscribeTopic)]
      + if !r.subscribed then
          [StateReport(Failed, SubscribeFailed(ResponseSubscribeTopic)), FinishCalled(false)]
        else NegotiationTrace(current, a, alg, r)
  }

  /** The handler reaches buffer negotiation. */
  predicate Negotiates(current: UpdateCallback, a: Attributes, r: Replies)
  {
    Screen(current, a).Accept? && r.subscribed
  }

  /** The calls cleanup makes: restore the receive buffer only if it was
      changed, then unsubscribe. */
  function CleanupTrace(changed: bool, previous: uint16, sendSize: uint16): seq<Event>
  {
    (if changed then [SendSizeRead, BufferSizeSet(previous, sendSize)] else [])
    + [Unsubscribed(ResponseSubscribeTopic)]
  }
}
