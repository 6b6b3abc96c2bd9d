# OTA firmware-update coordinator, modelled in Dafny

This project models `OTA_Firmware_Update`, the part of a ThingsBoard MQTT
client that drives over-the-air firmware updates. The coordinator:

- announces the device's current firmware title and version as telemetry;
- takes a fresh request id from the client and builds the response topic
  `v2/fw/response/<id>/chunk/` in a 33-byte buffer;
- asks for the five firmware shared attributes (`fw_checksum`,
  `fw_checksum_algorithm`, `fw_size`, `fw_title`, `fw_version`), or
  subscribes to them;
- screens the metadata that arrives: every key present, nothing null,
  not already installed, meant for this device, checksum algorithm
  supported;
- subscribes to `v2/fw/response/+`, grows the client's receive buffer
  when one chunk plus a 50-byte margin would not fit, and hands the
  update to the transfer engine;
- publishes chunk requests on `v2/fw/request/<id>/chunk/<n>` with the
  chunk size as a decimal payload;
- routes incoming topics by a `strncmp` prefix test against its stored
  response topic;
- on cleanup, restores the receive buffer if it was grown, forgets the
  request and unsubscribes.

Files:

- `CStrings.dfy` holds the C string operations the coordinator relies on:
  - `strncmp(a, b, strlen(a)) == 0`, proved to be the prefix test `a <= b`;
  - `%u` decimal rendering, with its parse-back round trip;
  - `snprintf` with the `%u` and `%s` conversions and truncation to the buffer size.
- `OtaProtocol.dfy` holds the constants, topics and messages, the
  checksum-algorithm lookup, the metadata screening, and the call trace
  each handler produces. Traces are pure functions of the input and of
  the collaborators' answers.
- `OtaCoordinator.dfy` holds the coordinator as a class. Its fields are
  the ones the source updates: the active request, the previous buffer
  size, the changed-buffer flag and the response topic. Each handler is a
  method. Every call into a collaborator (transport, attribute layer,
  transfer engine, user callbacks) is appended to a ghost `log`. What a
  collaborator answers is a parameter, and each method's `ensures` gives
  the calls it appends to the log (for the handlers with branches, as a
  trace function of `OtaProtocol`).
- `OtaProperties.dfy` holds the properties, proved over those traces and
  over the object.

## Model

| member | source | states |
|---|---|---|
| CStrings.StrnEqualIsPrefix | src/OTA_Firmware_Update.h:196-198 | `strncmp(a, b, strlen(a)) == 0` holds exactly when `a` is a prefix of `b` |
| CStrings.StrnEqual | src/OTA_Firmware_Update.h:197 | `strncmp(a, b, n) == 0`, as also used at lines 342, 348 and 358-367: compares until a difference, a shared terminator or `n` characters; `StrnEqualIsPrefix` states its meaning |
| CStrings.Decimal | src/OTA_Firmware_Update.h:33 | `%u` rendering: non-empty, all digits, no leading zero unless the value is 0 |
| CStrings.DecimalRoundTrip | src/OTA_Firmware_Update.h:300-301 | parsing the `%u` rendering of `n` gives back `n` |
| CStrings.DecimalInjective | src/OTA_Firmware_Update.h:15 | distinct ids render to distinct decimals |
| CStrings.DecimalLength | src/OTA_Firmware_Update.h:11 | a value below 10^k renders in at most k digits |
| CStrings.Snprintf | src/OTA_Firmware_Update.h:80 | the written string is a prefix of the full expansion, at most `size - 1` long, and all of it when it fits |
| CStrings.DecimalFieldOwnership | src/OTA_Firmware_Update.h:197 | a prefix ending in a decimal field and a non-digit matches a string built the same way exactly when the two numbers are equal |
| OtaProtocol.ResponseTopicSpelled | src/OTA_Firmware_Update.h:186-187 | the response topic of request `id` is `v2/fw/response/` + decimal id + `/chunk/` |
| OtaProtocol.ResponseTopic | src/OTA_Firmware_Update.h:186-187 | `FIRMWARE_RESPONSE_TOPIC` expanded with the request id in a buffer sized for the whole expansion; `ResponseTopicSpelled` states its text |
| OtaProtocol.ResponseTopicBuffer | src/OTA_Firmware_Update.h:80 | the topic written into the 33-byte buffer is shorter than the buffer and a prefix of the full topic |
| OtaProtocol.ResponseTopicFits | src/OTA_Firmware_Update.h:257 | for a 32-bit id, the topic written into the buffer is the full topic |
| OtaProtocol.ChunkResponseTopic | src/OTA_Firmware_Update.h:184-188 | a chunk response topic starts with the response topic of its request |
| OtaProtocol.ResponseTopicPrefixOwnership | src/OTA_Firmware_Update.h:196-198 | the response topic of `active` starts a topic built from request `id` exactly when `active == id` |
| OtaProtocol.ChunkRequestTopic | src/OTA_Firmware_Update.h:303-304 | the chunk request topic is `v2/fw/request/` + decimal id + `/chunk/` + decimal chunk |
| OtaProtocol.ChunkSizePayload | src/OTA_Firmware_Update.h:297-301 | the payload is all digits and parses back to the chunk size |
| OtaProtocol.SelectAlgorithm | src/OTA_Firmware_Update.h:358-369 | the four `strncmp` tries in MD5, SHA256, SHA384, SHA512 order, none when all fail; `SelectAlgorithmIsFirstPrefixed` and `SelectAlgorithmByPrefix` state what it selects |
| OtaProtocol.FirstPrefixed | src/OTA_Firmware_Update.h:358-370 | the first algorithm in MD5, SHA256, SHA384, SHA512 order whose name starts the token, if any |
| OtaProtocol.SelectAlgorithmIsFirstPrefixed | src/OTA_Firmware_Update.h:358-376 | the `strncmp` chain selects the first algorithm whose name starts the token |
| OtaProtocol.NamesIncomparable | src/OTA_Firmware_Update.h:28-31 | no algorithm name is a prefix of another |
| OtaProtocol.SelectAlgorithmByPrefix | src/OTA_Firmware_Update.h:358-376 | the chain selects `alg` exactly when `alg`'s name starts the token |
| OtaProtocol.PrepareTrace | src/OTA_Firmware_Update.h:237-252 | with a null or empty title or version nothing is sent; otherwise the announcement comes first and only the request-id read may follow |
| OtaProtocol.NotForUsText | src/OTA_Firmware_Update.h:349-350 | the wrong-title message is the format with the received and the current title filled in, and names both |
| OtaProtocol.AlgorithmNotSupportedText | src/OTA_Firmware_Update.h:371-372 | the unsupported-algorithm message is the format with the token filled in, and names it |
| OtaProtocol.Screen | src/OTA_Firmware_Update.h:320-376 | accepted metadata has every key and no null value, and its algorithm is the one the lookup selects |
| OtaProtocol.HasAllKeys | src/OTA_Firmware_Update.h:320 | all five firmware keys are present; `ScreenMissingKey` states the refusal when one is not |
| OtaProtocol.KeyName | src/OTA_Firmware_Update.h:100 | the attribute name of each of the five keys listed for the request and the subscription |
| OtaProtocol.HasAllKeysIsFirmwareKeys | src/OTA_Firmware_Update.h:320 | the keys the handler checks for are exactly the keys requested at line 100 and subscribed to at line 138 |
| OtaProtocol.NullOrEmpty | src/OTA_Firmware_Update.h:241 | `Helper::stringIsNullorEmpty`: null or the empty string; `PrepareAnnouncesFirst` states its effect on preparation |
| OtaProtocol.AnyNull | src/OTA_Firmware_Update.h:335 | one of the six pointers the screening dereferences is null; `ScreenNullValue` states the refusal |
| OtaProtocol.AttributeTrace | src/OTA_Firmware_Update.h:318-411 | the calls of the metadata handler in order: one report on a refusal, else the starting callback and the subscribe, then the failure exit or the negotiation; `RejectOnlyReports`, `SubscribeFailureTrace`, `ResizeIff` and `EngineStartIff` state its properties |
| OtaProtocol.NegotiationTrace | src/OTA_Firmware_Update.h:396-410 | the receive-size read, the resize with the send size only when needed, then the engine start or the memory-failure exit; `ResizeRequest`, `EngineStartArguments` and `GrowFailureEndsUpdate` state its properties |
| OtaProtocol.GrowSize | src/OTA_Firmware_Update.h:400 | a chunk plus the 50-byte margin, computed without wrapping as in the comparison |
| OtaProtocol.NeedsGrow | src/OTA_Firmware_Update.h:400 | the cached receive size is smaller than the chunk plus the margin; `ResizeIff` states that resizing happens exactly then |
| OtaProtocol.AsUint16 | src/OTA_Firmware_Update.h:403 | truncation to the 16-bit resize argument; `GrowSizeWraps` and `GrowSizeExact` state when it changes the value |
| OtaProtocol.CleanupTrace | src/OTA_Firmware_Update.h:281-287 | the restore call only when the buffer was changed, then the unsubscribe; `CleanupRestoreIff` states its properties |
| OtaCoordinator.RequestIdCounter.constructor | src/OTA_Firmware_Update.h:463 | the client's request-id counter starts at the given value |
| OtaCoordinator.OtaFirmwareUpdate.constructor | src/OTA_Firmware_Update.h:55-84 | a new coordinator has no request, an unchanged buffer, and the response topic of id 0 |
| OtaCoordinator.OtaFirmwareUpdate.SendInfo | src/OTA_Firmware_Update.h:160-165 | sends the current title and version; the result is the transport's |
| OtaCoordinator.OtaFirmwareUpdate.SendState | src/OTA_Firmware_Update.h:173-178 | sends a state with its error, empty unless given; the result is the transport's |
| OtaCoordinator.OtaFirmwareUpdate.PrepareFirmwareSettings | src/OTA_Firmware_Update.h:237-259 | succeeds exactly when the title and version are present and non-empty, the announcement was sent and a counter exists; then the counter is incremented, the request takes its new value and the topic is rebuilt from it; otherwise no field changes |
| OtaCoordinator.OtaFirmwareUpdate.StartFirmwareUpdate | src/OTA_Firmware_Update.h:93-115 | prepares, then requests the five keys with the request's timeout; succeeds when both succeed |
| OtaCoordinator.OtaFirmwareUpdate.SubscribeFirmwareUpdate | src/OTA_Firmware_Update.h:131-153 | prepares, then subscribes to the five keys; succeeds when both succeed |
| OtaCoordinator.OtaFirmwareUpdate.StopFirmwareUpdate | src/OTA_Firmware_Update.h:119-121 | logs the hand-over to the engine |
| OtaCoordinator.OtaFirmwareUpdate.Unsubscribe | src/OTA_Firmware_Update.h:200-203 | stops the update and reports success |
| OtaCoordinator.OtaFirmwareUpdate.FirmwareOtaSubscribe | src/OTA_Firmware_Update.h:263-272 | subscribes to the response wildcard; on failure reports it as a failed state and returns false |
| OtaCoordinator.OtaFirmwareUpdate.ResubscribeTopic | src/OTA_Firmware_Update.h:205-207 | the same as subscribing to the response wildcard |
| OtaCoordinator.OtaFirmwareUpdate.CompareResponseTopic | src/OTA_Firmware_Update.h:196-198 | a topic is claimed exactly when the stored response topic is a prefix of it |
| OtaCoordinator.OtaFirmwareUpdate.ProcessResponse | src/OTA_Firmware_Update.h:184-190 | parses the chunk index against the full response topic of the active request and passes the payload to the engine |
| OtaCoordinator.OtaFirmwareUpdate.FirmwareOtaUnsubscribe | src/OTA_Firmware_Update.h:277-288 | restores the previous receive size only if it was changed, resets the request and unsubscribes; the topic and the changed flag are kept |
| OtaCoordinator.OtaFirmwareUpdate.PublishChunkRequest | src/OTA_Firmware_Update.h:294-306 | publishes the decimal chunk size on the request topic of the given id and chunk |
| OtaCoordinator.OtaFirmwareUpdate.RequestTimeout | src/OTA_Firmware_Update.h:310-313 | reports a failed state with the no-response message and changes no field |
| OtaCoordinator.OtaFirmwareUpdate.FirmwareSharedAttributeReceived | src/OTA_Firmware_Update.h:318-411 | the calls made are the metadata trace, with a refusal reported as a state; the buffer fields change exactly when negotiation is reached, and the active request is never changed |
| OtaCoordinator.OtaFirmwareUpdate.NegotiateAndStart | src/OTA_Firmware_Update.h:396-410 | caches the receive size and whether it is below chunk size plus 50, grows the buffer if so, and starts the engine unless growing failed |
| OtaProperties.ScreenMissingKey | src/OTA_Firmware_Update.h:320-324 | a missing key is reported as failed with the no-firmware message |
| OtaProperties.ScreenNullValue | src/OTA_Firmware_Update.h:335-339 | a null value is reported as failed with the null-keys message |
| OtaProperties.ScreenAlreadyUpdated | src/OTA_Firmware_Update.h:342-345 | a title and a version that start with the installed ones are reported as updated, with an empty error |
| OtaProperties.ScreenWrongTitle | src/OTA_Firmware_Update.h:348-354 | a title that does not start with the installed one is refused with a message naming both titles |
| OtaProperties.ScreenUnsupportedAlgorithm | src/OTA_Firmware_Update.h:358-376 | a token that starts with no supported name is refused with a message naming it |
| OtaProperties.ScreenAccepts | src/OTA_Firmware_Update.h:320-376 | metadata goes through exactly when all keys are present, nothing is null, the title matches, the version does not, and the token starts with the selected name |
| OtaProperties.RejectOnlyReports | src/OTA_Firmware_Update.h:320-376 | refused metadata causes one state report and no subscribe, resize or engine start |
| OtaProperties.SubscribeFailureTrace | src/OTA_Firmware_Update.h:378-383 | a failed subscribe gives the starting callback, the subscribe, the failure report and `finish(false)`, with no resize and no engine start |
| OtaProperties.ResizeIff | src/OTA_Firmware_Update.h:399-403 | the buffers are resized exactly when negotiation is reached and the receive size is below chunk size plus 50 |
| OtaProperties.ResizeRequest | src/OTA_Firmware_Update.h:403 | the size asked for is chunk size plus 50 modulo 2^16, with the send size kept |
| OtaProperties.EngineStartIff | src/OTA_Firmware_Update.h:403-410 | the engine is started exactly when negotiation is reached and no resize was needed or it succeeded |
| OtaProperties.EngineStartArguments | src/OTA_Firmware_Update.h:410 | the engine start is the last call and gets the active request, the size, the checksum and an algorithm whose name starts the token |
| OtaProperties.GrowFailureEndsUpdate | src/OTA_Firmware_Update.h:403-408 | a failed resize ends with the not-enough-memory report and `finish(false)`, and the response subscription made before it stays in place |
| OtaProperties.FailedStartNeverUnsubscribes | src/OTA_Firmware_Update.h:378-408 | neither a failed subscribe nor a failed resize makes an unsubscribe call or starts the engine |
| OtaProperties.GrowSizeWraps | src/OTA_Firmware_Update.h:403 | for a chunk size of 65486 or more, the size requested wraps below the chunk size |
| OtaProperties.GrowSizeExact | src/OTA_Firmware_Update.h:403 | below 65486 the size requested is exactly chunk size plus 50 |
| OtaProperties.CleanupRestoreIff | src/OTA_Firmware_Update.h:277-288 | cleanup resizes exactly when the buffer was changed, to the cached size, and ends by unsubscribing |
| OtaProperties.AfterCleanupMetadataIsNull | src/OTA_Firmware_Update.h:285 | after the reset, metadata with all keys is refused as null |
| OtaProperties.PrepareAnnouncesFirst | src/OTA_Firmware_Update.h:237-252 | nothing is sent exactly when the title or version is null or empty; the counter is read exactly when the announcement was sent |
| OtaProperties.ResponseRouting | src/OTA_Firmware_Update.h:196-198 | with a 32-bit active id, a chunk topic is claimed exactly when it carries the active id |
| OtaProperties.CompareRouting | src/OTA_Firmware_Update.h:196-198 | the coordinator object claims a chunk topic exactly when it carries the id its topic was built from |
| OtaProperties.StaleTopicClaimedAfterCleanup | src/OTA_Firmware_Update.h:281-287 | after cleanup the object still claims the chunk topics of the request it last prepared, while the prefix built from the reset request (id 0) does not start them |
| OtaProperties.PrepareThenCleanUp | src/OTA_Firmware_Update.h:281-287 | preparing with a fresh id and then cleaning up reaches that state |
| OtaProperties.RoutingExample | src/OTA_Firmware_Update.h:80 | the topic of chunk 3 of request 5 is claimed by request 5, and not by the initial id 0 or by 6 |
| OtaProperties.ExtendedVersionCountsAsInstalled | src/OTA_Firmware_Update.h:342-345 | installed `app` 1.0 offered `app` 1.0.1 is reported as already updated |
| OtaProperties.ExtendedTitleIsAccepted | src/OTA_Firmware_Update.h:348-376 | installed `app` offered `app-other` 2.0 with SHA256 passes screening |

## Left out

- The transfer engine (`OTA_Handler`): chunk bookkeeping, flashing, hashing, retries and what stopping does. Its entry points appear only as logged calls.
- JSON documents, `Helper::Measure_Json` and `Helper::detectSize`. Telemetry is a datatype, and buffers sized with `detectSize` hold the full expansion.
- `Helper::parseRequestId`. The chunk index it returns is a parameter of `ProcessResponse`.
- Logging (`Logger::printfln`, the debug-only banner at lines 385-392) and `RESETTING_FAILED`, which is only logged.
- The build without `THINGSBOARD_ENABLE_STL`. The model covers the build in which `std::bind` hands the handlers to the engine and the attribute layer directly (lines 69, 103, 109, 141 and 147). In the other build the static trampolines (lines 413-453) forward through `m_subscribedInstance`, which this file only ever sets to null (lines 82 and 480). Each trampoline therefore takes its null exit: the metadata and timeout handlers are never reached, and the engine's publish, state and cleanup callbacks return false without doing anything.
- `loop`, `Initialize`, `Set_Client_Callbacks`, `Get_Process_Type` and `Process_Json_Response`. These are wiring with no decisions of their own.
- The attribute-request and attribute-subscription callback objects and their build variants (lines 101-113, 139-151). Each is one logged call carrying the key list and, for the request, the timeout.
- `TELEMETRY_TOPIC`, `FW_STATE_FAILED`, `FW_STATE_UPDATED`, `SUBSCRIBE_TOPIC_FAILED` and `REQUEST_ID_NULL` are defined elsewhere and are not part of this model. States are the constructors `Failed` and `Updated`. The subscribe-failure message is `SubscribeFailed(topic)`.
- The default `OTA_Update_Callback` is defined outside this file. The model assumes it is `DefaultCallback`: null title and version, chunk size 0, timeout 0 and request id 0. `AfterCleanupMetadataIsNull` and `StaleTopicClaimedAfterCleanup` depend on that assumption.
- `fw_size` conversion from JSON: `Attributes.size` is the converted value.
- PrepareFirmwareSettings: the request id is an unbounded `nat`, so `size_t` wrap-around of the counter is not modelled. `ResponseTopicFits` shows the 33-byte topic buffer holds the full topic for any 32-bit id.
- StopFirmwareUpdate: the engine's stop, and the cleanup and user finish call it makes through its callbacks, are separate invocations of `FirmwareOtaUnsubscribe` and the user callback that this member does not make; its contract covers only the hand-over.
- ProcessResponse: the request id is printed with `%u` from a `size_t`; the model renders the full value.
- PublishChunkRequest: the request id and chunk index are printed with `%u` from `size_t` values; the model renders the full values.

## Behaviour of the code that differs from a plain reading

- Titles, versions, algorithm names and response topics are compared with `strncmp` over the length of the stored or expected string. That is a prefix test, not equality. The model keeps the prefix test (`StrnEqualIsPrefix`, `SelectAlgorithmByPrefix`, `ScreenAccepts`). Three consequences follow:
  - installed version `1.0` offered `1.0.1` reports "updated" and never downloads (`ExtendedVersionCountsAsInstalled`);
  - installed title `app` accepts firmware titled `app-other` (`ExtendedTitleIsAccepted`);
  - a token `SHA256-extra` selects SHA256.
- Cleanup resets neither the response topic nor the changed-buffer flag. A second cleanup with no negotiation in between restores the buffer again (`FirmwareOtaUnsubscribe`, `CleanupRestoreIff`). A failed resize leaves the flag set, so the later cleanup also restores.
- Because cleanup keeps the response topic, a stopped update does not stop the prefix test from claiming its chunks: `Compare_Response_Topic` still claims `v2/fw/response/<old id>/chunk/<n>`, while `Process_Response` builds its prefix from the reset request, id 0 (`StaleTopicClaimedAfterCleanup`, `PrepareThenCleanUp`). Whether such a message is then ignored depends on the engine, not on the prefix test.
- The failed-subscribe and failed-resize exits of the metadata handler (lines 378-383 and 403-408) never call cleanup. After a failed resize the coordinator stays subscribed to `v2/fw/response/+` and keeps the active request (`FailedStartNeverUnsubscribes`, `GrowFailureEndsUpdate`, and the frame of `FirmwareSharedAttributeReceived`).
- `chunk_size + 50U` is passed to a `uint16_t` parameter. For chunk sizes of 65486 or more the requested size wraps below the chunk size, while the comparison at line 400 is done without wrapping (`GrowSizeWraps`).
