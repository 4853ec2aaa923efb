# Verification of the netremote service

A Dafny model of the parts of the netremote service where state, order and failure interact, and proofs about them.
`dafny verify dfyconfig.toml` checks the whole project.

**Data streaming.** `DownloadReactor.dfy` is the gRPC write reactor as a class over its fields, with ghost logs of the
messages handed to `StartWrite` and the statuses handed to `Finish`; `DownloadRuns.dfy` proves what holds in every
order of `OnWriteDone` and `OnCancel` that gRPC may produce, each callback being one step, and `DownloadMessages.dfy`
which messages are sent then, word by word. `DownloadCancelRace.dfy` splits the callbacks into their single accesses
to the atomic flags and considers every interleaving.
`DuplexReactor.dfy` is the bidirectional reactor. `DataStream.dfy` holds messages, statuses and the 32-bit counters.

**hostapd configuration.** `Daemon.dfy` is the daemon: an accepted `SET` changes the staged configuration, an accepted
`RELOAD` makes it the active one, a rejected command changes nothing, and which commands are rejected is arbitrary.
`HostapdPlans.dfy` has for each operation its plan, the list of its steps, and `HostapdControl.dfy` the imperative
`Hostapd` class proved to perform it; `HostapdTransactions.dfy` and `RadiusConfiguration.dfy` say what that
guarantees. `HostapdProtocol.dfy` holds the property names and values, `BitMask.dfy` the bit operations.

**Texts.** `Text.dfy` (split, join, decimals), `PropertyCodecs.dfy` (key management lists, cipher lists, SAE
passwords), `SaePasswordTexts.dfy` (which passwords share a text), `ResponseParser.dfy` (key=value responses),
`StatusDecoder.dfy` (the STATUS response). `CipherSuites.dfy` follows cipher suites from a request through three hash
tables (`HashTable.dfy`, iterated in any order) into hostapd. `Sequences.dfy` holds facts about sequences.

**Registries.** `AccessPointRegistry.dfy` and `EventListeners.dfy`: the access points under any history of arrivals,
departures and probe results, and the table of event listeners while an event is dispatched to a copy of it.

**Service operations.** `AccessPointControl.dfy` is the controller as a record whose calls fail arbitrarily,
`ServicePlans.dfy` and `RemoteService.dfy` the operations on it, `ServiceEffects.dfy` what each of them leaves in the
record, told from the fields of its request, and `ServiceRuns.dfy` what they guarantee in any sequence.

A method is tied by its contract to a function of its inputs and the old state; lemmas about those functions then
speak of whole runs. What ends up in a message, in a property of hostapd, in a status or in the record is stated in
terms of the input and with the names, texts and numbers of the protocol written out.

## Findings

Properties one might expect that do not hold as stated, each with the exact condition under which they do:

- A download can be finished twice: with callbacks as atomic steps exactly when a cancellation follows the `Finish` of a
  stream that was sent to its end, because that `Finish` does not set the completion flag
  (`DownloadRuns.CompletedExactlyOnce`). Between single accesses to the flags it is finished twice exactly when the
  callback had called `Finish` or was bound to when the cancel flag was set, and `OnCancel` then read the completion
  flag as unset (`DownloadCancelRace.FinishedTwiceExactly`); so a refused request can be finished twice as well.
  Inputs: `DownloadRuns.EmptyStreamFinishedTwice`, `DownloadCancelRace.RaceFinishesTwice`.
- The bidirectional reactor is finished twice exactly when the reads end and the message about a failed write is
  reported done, with nothing canceled and no successful read in between (`DuplexReactor.FinishedExactly`, input:
  `DuplexReactor.FinishedTwice`). That message is not always the last: reads and writes share one status, and a
  successful read in between makes the reactor go on writing (`DuplexReactor.WritesAgainExactly`, input:
  `DuplexReactor.FailureForgotten`).
- `SetKeyManagement` is not a transaction: with a fast transition suite it sets the server identifier with the default
  `Now` and so reloads before its last command. A failed call leaves the active configuration as it was exactly when
  there is no such suite or that reload did not happen (`HostapdTransactions.KeyManagementFailure`). Input:
  `HostapdTransactions.FailedKeyManagementIsActive`. For the same reason a call with `Defer` puts the identifier into
  force (`HostapdTransactions.KeyManagementAccepted`).
- A failed operation is not undone. One that throws before its first SET, as for an empty list or an invalid first
  RADIUS endpoint, leaves nothing behind; any other does so exactly when its very first SET was rejected
  (`Daemon.NothingLeftOver`). What it leaves becomes active with a later reload (`Daemon.LeftoversActivateLater`).
- SAE passwords in force are those given exactly when none has an empty text, which clears those before it
  (`HostapdTransactions.SaePasswordsInForce`, input: `HostapdTransactions.EmptyPasswordClears`). A text identifies its
  password exactly when that one has no optional fields and no tag in its credential
  (`SaePasswordTexts.TextIdentifiesExactly`); passwords with optional fields are told apart exactly as far as no field
  holds a tag where another field could start (`SaePasswordTexts.TidyDecides`).
- The authentication algorithm `Invalid` and the protocol `Unknown` are 0 and pass the masks
  (`HostapdTransactions.AlgorithmsAccepted`, `HostapdTransactions.ProtocolsAccepted`).
- WPA2 and WPA3 are the same enumerator for hostapd. Every protocol that is named is given its own ciphers exactly
  when WPA2 and WPA3 are not both named with lists that differ once converted (`CipherSuites.AllArriveExactly`);
  otherwise one of the two lists arrives, whole (`CipherSuites.CiphersPreserved`). Input: `CipherSuites.CiphersCanBeLost`.
- The documentation of `TryParseProperties` says that it returns false when properties are missing; the code never
  does (`ResponseParser.WpaResponseParser.TryParseProperties`). The table is keyed without the index: a BSS of a STATUS
  response is known exactly as far as the last line for each key speaks of it (`StatusDecoder.OnlyLastLineKnown`).
- Listener tokens are 32 bits wide. A live listener is never lost exactly as long as no more than 2^32 registrations
  are made (`EventListeners.NeverLosesExactly`); with one more it can be (`EventListeners.ReusedTokenLosesListener`).

## Model

| member | source | states |
|---|---|---|
| DownloadRuns.CompletedExactlyOnce | src/common/service/NetRemoteDataStreamingReactors.cxx:107-254 | in every run of a download Finish is called at most twice, and twice exactly when an OnCancel follows the Finish of a stream that was sent to its end; at most one write is outstanding, and with none outstanding the RPC is finished |
| DownloadRuns.FinishedExactlyOnce | src/common/service/NetRemoteDataStreamingReactors.cxx:144-192 | without such a late cancellation a run that leaves no write outstanding has finished exactly once, with CANCELLED exactly when the cancellation came before completion |
| DownloadRuns.NumberedInOrder | src/common/service/NetRemoteDataStreamingReactors.cxx:201-254 | data messages carry 1, 2, 3, ... modulo 2^32; a failure message repeats the last number, there is at most one and it is the last message |
| DataStream.NumberedWithoutGap | src/common/service/NetRemoteDataStreamingReactors.cxx:217-222 | what the numbering says message by message: each data message has the successor of the number before it, a failure message that number, or 0 when it is the first |
| DownloadRuns.BlocksConserved | src/common/service/NetRemoteDataStreamingReactors.cxx:112-177 | fixed streams: blocks acknowledged plus blocks remaining is always N, so the counter never passes zero |
| DownloadRuns.DataMessagesBounded | src/common/service/NetRemoteDataStreamingReactors.cxx:201-239 | fixed streams: no more data messages than blocks acknowledged, but for the one under way |
| DownloadRuns.WritesBounded | src/common/service/NetRemoteDataStreamingReactors.cxx:112-254 | a stream of N blocks makes at most N + 1 StartWrite calls and receives at most N + 1 OnWriteDone callbacks, in every run |
| DownloadRuns.WritesAccountedFor | src/common/service/NetRemoteDataStreamingReactors.cxx:144-254 | every write was reported done or is still outstanding |
| DownloadRuns.FixedStreamDelivered | src/common/service/NetRemoteDataStreamingReactors.cxx:201-239 | a fixed Constant stream of N blocks with all writes successful and no cancellation sends exactly the N blocks it was given, in order and numbered 1 to N, the first with status Unknown and the others with Succeeded, and ends with one Finish(OK) |
| DownloadMessages.MessagesExactly | src/common/service/NetRemoteDataStreamingReactors.cxx:107-254 | in every run, of any request, how many messages are sent and each of them in full, as a function of the request and the callbacks: the refusal or the first block with status Unknown, then one block with status Succeeded and the next number per successful write, and after a failed write the last message again with status Failed |
| DownloadRuns.ControlAlways | src/common/service/NetRemoteDataStreamingReactors.cxx:107-254 | the five situations a download can be in, each tied to the request and the callbacks so far; every callback leads from one to another |
| DownloadReactor.DataStreamWriter.constructor | src/common/service/NetRemoteDataStreamingReactors.cxx:107-142 | the reactor after construction, with the first block written or the request refused, is the specified one |
| DownloadReactor.DataStreamWriter.Prepare | src/common/service/NetRemoteDataStreamingReactors.cxx:109-139 | a request is refused, with a failure message, exactly when its properties are not those of its stream type |
| DownloadReactor.DataStreamWriter.OnWriteDone | src/common/service/NetRemoteDataStreamingReactors.cxx:144-177 | the whole new state of the reactor and of the RPC after a write is reported done |
| DownloadReactor.DataStreamWriter.OnCancel | src/common/service/NetRemoteDataStreamingReactors.cxx:179-192 | the whole new state after a cancellation: a second one does nothing |
| DownloadReactor.DataStreamWriter.NextWrite | src/common/service/NetRemoteDataStreamingReactors.cxx:201-240 | the whole new state after trying the next write |
| DownloadReactor.DataStreamWriter.HandleFailure | src/common/service/NetRemoteDataStreamingReactors.cxx:242-254 | the whole new state after reporting a failure to the client |
| DownloadCancelRace.CancellationStopsWriting | src/common/service/NetRemoteDataStreamingReactors.cxx:144-240 | with every access to an atomic flag a step of its own and any interleaving: at most one StartWrite after the cancel flag is set, at most two Finish calls, and at least one once nothing runs or is outstanding |
| DownloadCancelRace.FinishedTwiceExactly | src/common/service/NetRemoteDataStreamingReactors.cxx:144-240 | every canceled run, once nothing runs any more: Finish(OK) was called exactly when the callback side had called it or was past its last check and bound to when the cancel flag was set, Finish(CANCELLED) exactly when OnCancel read the completion flag as unset, so both if and only if both hold |
| DownloadCancelRace.FinishedOnceWithoutCancel | src/common/service/NetRemoteDataStreamingReactors.cxx:144-240 | a run without cancellation finishes at most once, and exactly once, with OK, when nothing runs or is outstanding |
| DownloadCancelRace.RaceFinishesTwice | src/common/service/NetRemoteDataStreamingReactors.cxx:144-192 | a run of that kind: a refused request finished twice, although with callbacks as atomic steps it cannot be |
| DownloadCancelRace.UninterruptedWriteDone | src/common/service/NetRemoteDataStreamingReactors.cxx:144-177 | the single steps, taken without interference, make up OnWriteDone |
| DownloadCancelRace.UninterruptedStart | src/common/service/NetRemoteDataStreamingReactors.cxx:107-142 | the same for the constructor |
| DownloadCancelRace.UninterruptedCancel | src/common/service/NetRemoteDataStreamingReactors.cxx:179-192 | the same for OnCancel |
| DuplexReactor.NumberedInOrder | src/common/service/NetRemoteDataStreamingReactors.cxx:256-371 | bidirectional stream, every run: at most one write and one read outstanding, messages numbered without a gap, successful reads counted modulo 2^32 |
| DuplexReactor.CancelStopsWriting | src/common/service/NetRemoteDataStreamingReactors.cxx:286-371 | nothing is written after a cancellation: the messages are those written before the first one |
| DuplexReactor.DataStreamReaderWriter.constructor | src/common/service/NetRemoteDataStreamingReactors.cxx:256-264 | the reactor after construction |
| DuplexReactor.DataStreamReaderWriter.OnReadDone | src/common/service/NetRemoteDataStreamingReactors.cxx:266-284 | the whole new state after a read is reported done |
| DuplexReactor.DataStreamReaderWriter.OnWriteDone | src/common/service/NetRemoteDataStreamingReactors.cxx:286-316 | the whole new state after a write is reported done |
| DuplexReactor.FinishedExactly | src/common/service/NetRemoteDataStreamingReactors.cxx:266-328 | in every run Finish is called once if the reads ended and once more if the message about a failed write was reported done with nothing canceled and no successful read in between; no write is outstanding after the latter, and nothing else finishes the RPC |
| DuplexReactor.WritesAgainExactly | src/common/service/NetRemoteDataStreamingReactors.cxx:256-371 | in every run the first message carries the first block with status Unknown; an event is followed by a message exactly when it reports a write done, nothing has been canceled, no failure is pending and it is no failure after the end of the reads; that message is the next block with status Succeeded and the next number, or the last one again with status Failed |
| DuplexReactor.FailureForgotten | src/common/service/NetRemoteDataStreamingReactors.cxx:266-316 | a run in which data follows the message about a failure, and nothing is finished: a successful read has replaced the status |
| DuplexReactor.FinishedTwice | src/common/service/NetRemoteDataStreamingReactors.cxx:266-316 | a run with two: a write fails, the message about it is reported done, then the reads end |
| DownloadRuns.EmptyStreamFinishedTwice | src/common/service/NetRemoteDataStreamingReactors.cxx:179-240 | a fixed stream of no blocks and one cancellation: finished with OK and with CANCELLED |
| Daemon.TransactionSafety | src/linux/net/wifi/wpa-controller/Hostapd.cxx:92-106 | any operation that reloads once, at its end: it succeeds exactly when every command is accepted, then all its settings are active; after a failure the active configuration is what it was |
| Daemon.AcceptedIsPrefix | src/linux/net/wifi/wpa-controller/Hostapd.cxx:154-180 | whatever is rejected, the accepted commands are a prefix of the intended ones, the whole exactly on success |
| Daemon.StagedIsAccepted | src/linux/net/wifi/wpa-controller/Hostapd.cxx:154-180 | staged are exactly the settings of the accepted commands |
| Daemon.LeftoversActivateLater | src/linux/net/wifi/wpa-controller/Hostapd.cxx:92-180 | nothing is rolled back: what any failed operation had staged becomes active with the next one that succeeds and ends by reloading |
| Daemon.NothingLeftOver | src/linux/net/wifi/wpa-controller/Hostapd.cxx:154-180 | an operation that starts with a SET leaves nothing staged exactly when that first command is rejected |
| Daemon.ConsistentAlways | src/linux/net/wifi/wpa-controller/WpaController.cxx:90-122 | every operation keeps this, whatever is rejected: staged holds the accepted settings, active those before the last accepted RELOAD |
| Daemon.ReachableDaemons | src/linux/net/wifi/wpa-controller/WpaController.cxx:90-122 | so after any sequence of operations from the empty daemon; the active configuration is always a prefix of the staged one |
| HostapdControl.Hostapd.SendCommand | src/linux/net/wifi/wpa-controller/WpaController.cxx:90-122 | the daemon's state after a command, and whether it was accepted |
| HostapdControl.Hostapd.Reload | src/linux/net/wifi/wpa-controller/Hostapd.cxx:92-106 | the commands sent and the outcome |
| HostapdControl.Hostapd.SetProperty | src/linux/net/wifi/wpa-controller/Hostapd.cxx:154-180 | the commands sent and the outcome, with and without a reload |
| HostapdTransactions.DeferralPreservesMeaning | src/linux/net/wifi/wpa-controller/Hostapd.cxx:92-180 | accepted property changes: setting each with Now ends in the same active configuration as setting all with Defer and reloading once |
| HostapdTransactions.DeferAloneChangesNothing | src/linux/net/wifi/wpa-controller/Hostapd.cxx:154-180 | with Defer alone the active configuration never moves, accepted or not |
| HostapdTransactions.PropertyOutcome | src/linux/net/wifi/wpa-controller/Hostapd.cxx:154-180 | one property: success exactly when its one or two commands are accepted, staged then, and in force only with Now |
| HostapdControl.Hostapd.SetSaePasswords | src/linux/net/wifi/wpa-controller/Hostapd.cxx:423-442 | the commands sent and the outcome: clear, add one by one, reload; stop at the first rejection |
| HostapdControl.Hostapd.AddSaePassword | src/linux/net/wifi/wpa-controller/Hostapd.cxx:444-474 | the command sent for one password |
| HostapdTransactions.SaePasswordsTransaction | src/linux/net/wifi/wpa-controller/Hostapd.cxx:423-474 | SetSaePasswords with Now succeeds exactly when all its n + 2 (for n passwords) commands are accepted; otherwise the active configuration is untouched |
| HostapdTransactions.SaePasswordsInForce | src/linux/net/wifi/wpa-controller/Hostapd.cxx:423-474 | after success the passwords in force are exactly those given, in order, whatever was set before, if and only if none of them has an empty text (that one clears those before it) |
| HostapdTransactions.SaePasswordsDeferred | src/linux/net/wifi/wpa-controller/Hostapd.cxx:423-442 | with Defer it succeeds exactly when its n + 1 (for n passwords) commands are accepted and only stages |
| HostapdControl.Hostapd.AddRadiusEndpoints | src/linux/net/wifi/wpa-controller/Hostapd.cxx:486-522 | the commands sent and the outcome for a list of endpoints; an invalid one throws when its turn comes |
| HostapdControl.Hostapd.AddRadiusEndpoint | src/linux/net/wifi/wpa-controller/Hostapd.cxx:492-518 | the commands sent for one endpoint: address, secret, then the port if there is one |
| RadiusConfiguration.AccessPointControllerLinux.ConvertEndpoints | src/linux/net/wifi/core/AccessPointControllerLinux.cxx:607-624 | the array of endpoints: authentication, optional accounting, then the fallbacks in order |
| RadiusConfiguration.AccessPointControllerLinux.SetRadiusConfiguration | src/linux/net/wifi/core/AccessPointControllerLinux.cxx:601-665 | the commands sent and the outcome |
| RadiusConfiguration.RadiusTransaction | src/linux/net/wifi/core/AccessPointControllerLinux.cxx:601-665 | succeeds exactly when every server has a known type, an address and a secret and every command is accepted; then auth_server_addr, auth_server_shared_secret and, with a port, auth_server_port (acct_... for accounting) hold the server's own address, secret and port, server by server, followed by eap_server 0 and own_ip_addr; otherwise the active configuration is untouched |
| RadiusConfiguration.EndpointsDeferred | src/linux/net/wifi/wpa-controller/Hostapd.cxx:486-522 | AddRadiusEndpoints with Defer succeeds exactly for endpoints with a known type, an address and a secret whose commands are all accepted; auth_server_addr, auth_server_shared_secret and auth_server_port (acct_...) are staged with each one's own fields, in order, and nothing else moves |
| RadiusConfiguration.EndpointsInForce | src/linux/net/wifi/wpa-controller/Hostapd.cxx:486-522 | with Now there is one command more to be accepted, and then the same settings are in force |
| RadiusConfiguration.ConversionKeepsFields | src/linux/net/wifi/core/Ieee8021xWpaAdapters.cxx:8-24 | a converted server is valid exactly when the server has a known type, an address and a secret, and makes the settings with the server's own fields |
| HostapdControl.BuildKeyManagementText | src/linux/net/wifi/wpa-controller/Hostapd.cxx:326-342 | the loop builds the text of the list, or finds an invalid value |
| HostapdControl.Hostapd.SetKeyManagement | src/linux/net/wifi/wpa-controller/Hostapd.cxx:320-364 | the commands sent and the outcome, including the side settings |
| HostapdControl.Hostapd.SetNetworkAccessServerId | src/linux/net/wifi/wpa-controller/Hostapd.cxx:536-544 | the SET and the RELOAD that setting the server identifier sends |
| HostapdTransactions.KeyManagementRefused | src/linux/net/wifi/wpa-controller/Hostapd.cxx:320-342 | a list is refused, before any command is sent, exactly when it is empty or has an invalid value |
| HostapdTransactions.KeyManagementFailure | src/linux/net/wifi/wpa-controller/Hostapd.cxx:344-364 | with Now a failed call leaves the active configuration unchanged exactly when no suite named WPA-EAP or FT-... is in a list of supported suites or the first SET and its RELOAD were not both accepted: setting the server identifier reloads on its own |
| HostapdTransactions.KeyManagementInForce | src/linux/net/wifi/wpa-controller/Hostapd.cxx:320-364 | after success with Now exactly the server identifier (for WPA-EAP and FT-... suites), the 802.1X flag (for EAP, FILS and OSEN suites) and the list have been added to what is in force, and the list is read back from its property |
| HostapdTransactions.KeyManagementAccepted | src/linux/net/wifi/wpa-controller/Hostapd.cxx:320-364 | success exactly for a list, not empty, of supported suites whose commands are all accepted, and how many those are; with Defer the server identifier alone is put into force |
| HostapdTransactions.ServerIdClass | src/linux/net/wifi/wpa-controller/include/Wpa/ProtocolHostapd.hxx:346-354 | the supported suites that need a server identifier are exactly those named WPA-EAP or FT-... |
| HostapdTransactions.Dot1xClass | src/linux/net/wifi/wpa-controller/include/Wpa/ProtocolHostapd.hxx:359-372 | the supported suites that need the 802.1X flag are exactly those named WPA-EAP..., FT-EAP..., FILS-..., FT-FILS-... or OSEN |
| HostapdTransactions.SupportedClass | src/linux/net/wifi/wpa-controller/include/Wpa/ProtocolHostapd.hxx:800-850 | which suites have no property value and are refused |
| HostapdTransactions.FailedKeyManagementIsActive | src/linux/net/wifi/wpa-controller/Hostapd.cxx:344-364 | one such failure: with FT-PSK the list is rejected, and the server identifier alone has become active |
| HostapdTransactions.EmptyPasswordClears | src/linux/net/wifi/wpa-controller/Hostapd.cxx:423-474 | a list that ends in an empty credential without optional fields is accepted and leaves no password in force |
| PropertyCodecs.KeyManagementRoundTrip | src/linux/net/wifi/wpa-controller/ProtocolHostapd.cxx:93-155 | parsing the text of a non-empty list of valid key managements gives the same list in the same order |
| HostapdControl.CombineMask | src/linux/net/wifi/wpa-controller/Hostapd.cxx:271-288 | the OR loop: it stops at a value outside the mask, and the final masking changes nothing |
| HostapdControl.Hostapd.SetAuthenticationAlgorithms | src/linux/net/wifi/wpa-controller/Hostapd.cxx:262-292 | the commands sent and the outcome |
| HostapdControl.Hostapd.SetWpaSecurityProtocols | src/linux/net/wifi/wpa-controller/Hostapd.cxx:294-318 | the commands sent and the outcome |
| HostapdTransactions.MaskPlanMeaning | src/linux/net/wifi/wpa-controller/Hostapd.cxx:262-318 | an empty list or a value outside the mask is refused with no command sent; otherwise a bit is set in the number sent exactly when some value has it |
| HostapdTransactions.MaskPlanOfSameValues | src/linux/net/wifi/wpa-controller/Hostapd.cxx:262-318 | reordering or repeating values changes nothing of what is sent |
| HostapdTransactions.AlgorithmsAccepted | src/linux/net/wifi/wpa-controller/include/Wpa/ProtocolHostapd.hxx:48-90 | a list of algorithms is accepted exactly when it holds only open system, shared key and the Invalid enumerator, which is 0 and passes the mask |
| HostapdTransactions.ProtocolsAccepted | src/linux/net/wifi/wpa-controller/Hostapd.cxx:294-318 | every list of protocols but the empty one is accepted; Unknown is 0, passes the mask and is sent as 0 alone |
| HostapdTransactions.AlgorithmsInForce | src/linux/net/wifi/wpa-controller/Hostapd.cxx:262-292 | with Now: success exactly for open system, shared key and Invalid with both commands accepted, and then auth_algs is in force as 0, 1, 2 or 3, 1 for open system plus 2 for shared key; otherwise nothing moves |
| HostapdTransactions.ProtocolsInForce | src/linux/net/wifi/wpa-controller/Hostapd.cxx:294-318 | with Now: success exactly for a list that is not empty with both commands accepted, and then wpa is in force as 0, 1, 2 or 3, 1 for WPA plus 2 for WPA2 or WPA3; otherwise nothing moves |
| BitMask.WithinIsSubset | src/linux/net/wifi/wpa-controller/Hostapd.cxx:275-281 | a value passes the test of the OR loop exactly when each of its bits is a bit of the mask |
| BitMask.OrAllMasked | src/linux/net/wifi/wpa-controller/Hostapd.cxx:283-288 | the masking after the OR loop is a no-op on accepted values |
| BitMask.OrAllBit | src/linux/net/wifi/wpa-controller/Hostapd.cxx:271-282 | a bit is set in the OR of a list exactly when some value has it |
| PropertyCodecs.SaePasswordTextInjective | src/linux/net/wifi/wpa-controller/Hostapd.cxx:445-467 | passwords whose fields hold no separator have the same text only if credential, id, address and VLAN id are all equal |
| PropertyCodecs.SaeSeparatorNeeded | src/linux/net/wifi/wpa-controller/Hostapd.cxx:445-467 | every password with optional fields shares its text with one that has none and carries them inside its credential |
| SaePasswordTexts.TextIdentifiesExactly | src/linux/net/wifi/wpa-controller/Hostapd.cxx:445-467 | a text stands for a single password of all if and only if that one has no optional fields and its credential holds no id tag and no mac tag and does not end in a vlanid tag and a number |
| SaePasswordTexts.TidyDecides | src/linux/net/wifi/wpa-controller/Hostapd.cxx:445-467 | the tidy passwords, whose fields hold no tag where it could be taken for the start of a field, are exactly those whose text no other tidy password has |
| SaePasswordTexts.TidyIsUnique | src/linux/net/wifi/wpa-controller/Hostapd.cxx:445-467 | two tidy passwords with the same text are the same |
| SaePasswordTexts.TidyExists | src/linux/net/wifi/wpa-controller/Hostapd.cxx:445-467 | every password shares its text with a tidy one |
| SaePasswordTexts.SeparatorFreeIsTidy | src/linux/net/wifi/wpa-controller/Hostapd.cxx:445-467 | passwords without separators are tidy |
| PropertyCodecs.CipherTextInjective | src/linux/net/wifi/wpa-controller/Hostapd.cxx:390-404 | the text of a list of valid ciphers determines the list, order included |
| HostapdControl.BuildCipherText | src/linux/net/wifi/wpa-controller/Hostapd.cxx:387-398 | the loop builds the text of the list, or finds an invalid cipher |
| HostapdControl.Hostapd.SetPairwiseCipherSuites | src/linux/net/wifi/wpa-controller/Hostapd.cxx:372-409 | the commands sent and the outcome, for any order of the table |
| CipherSuites.SetPairwiseCipherSuites | src/common/service/NetRemoteService.cxx:996-1044 | an empty request or an unknown protocol is refused and nothing is sent; any other is taken through the three tables, each in some order, and the plan of the last is performed, with its outcome |
| CipherSuites.UnknownConverted | src/common/net/wifi/dot11/adapter/Ieee80211Dot11Adapters.cxx:562-574 | the second table has an entry for an unknown protocol exactly when the request names one |
| CipherSuites.SecondTable | src/common/net/wifi/dot11/adapter/Ieee80211Dot11Adapters.cxx:562-574 | the second table has a known protocol exactly when the first has it, with the same ciphers, whatever the order |
| CipherSuites.ThirdTable | src/linux/net/wifi/core/Ieee80211WpaAdapters.cxx:193-207 | in the third table WPA keeps its ciphers, and the one entry for WPA2 and WPA3 has the whole list of one of them |
| CipherSuites.CiphersPreserved | src/common/net/wifi/dot11/adapter/Ieee80211Dot11Adapters.cxx:525-574 | from the request to the entries given to hostapd: the ciphers of the first request entry for each protocol, in order; of WPA2 and WPA3 named together one list survives, whole; nothing else |
| CipherSuites.AllArriveExactly | src/linux/net/wifi/core/Ieee80211WpaAdapters.cxx:193-207 | every protocol that the request names is given its own ciphers if and only if WPA2 and WPA3 are not both named with lists that differ once converted |
| CipherSuites.SecondListCanBeLost | src/linux/net/wifi/core/Ieee80211WpaAdapters.cxx:193-207 | whatever two lists a request has for WPA2 and WPA3, hostapd may be given the first alone |
| CipherSuites.CiphersCanBeLost | src/linux/net/wifi/core/Ieee80211WpaAdapters.cxx:193-207 | a request for CCMP with WPA2 and GCMP-256 with WPA3 may leave hostapd without the latter |
| CipherSuites.CiphersInForce | src/linux/net/wifi/wpa-controller/Hostapd.cxx:372-409 | success exactly when every entry has a protocol and known ciphers and both commands for each are accepted; then one property per entry, wpa_pairwise for WPA and rsn_pairwise for WPA2, with the text of its ciphers, has been added to what is in force |
| CipherSuites.CipherSuitesEndToEnd | src/linux/net/wifi/core/Ieee80211WpaAdapters.cxx:193-207 | from the request to the configuration in force: exactly wpa_pairwise with the ciphers of WPA1 and rsn_pairwise with those of WPA2 or WPA3 have been added, and reading the names in each value back gives the numbers of the request, in order |
| CipherSuites.CiphersReadBack | src/linux/net/wifi/wpa-controller/include/Wpa/ProtocolHostapd.hxx:893-930 | the names in the text of the converted ciphers, read one by one, stand for the numbers that were requested |
| HashTable.FirstIsFirst | src/common/net/wifi/dot11/adapter/Ieee80211Dot11Adapters.cxx:526-537 | of several request entries with one key the first decides |
| CipherSuites.RequestedCiphersReadable | src/linux/net/wifi/core/Ieee80211WpaAdapters.cxx:156-190 | the text tells which ciphers were requested, and in which order |
| ResponseParser.WpaResponseParser.TryParseProperties | src/linux/net/wifi/wpa-controller/WpaResponseParser.cxx:62-128 | the table after parsing, the exception for an unreadable index, and which of the requested properties remain; without requested properties nothing is read |
| ResponseParser.WpaResponseParser.LoadLines | src/linux/net/wifi/wpa-controller/WpaResponseParser.cxx:81-122 | the loop over the lines fills the table up to the first unreadable line |
| ResponseParser.ReadLine | src/linux/net/wifi/wpa-controller/WpaResponseParser.cxx:82-119 | one line: skipped, a property, or an unreadable index |
| ResponseParser.LineIsKeyAndValue | src/linux/net/wifi/wpa-controller/WpaResponseParser.cxx:83-119 | a line is its key and what stands between the first and the second delimiter |
| ResponseParser.MalformedLines | src/linux/net/wifi/wpa-controller/WpaResponseParser.cxx:83-102 | the lines that are skipped are exactly those without a delimiter or starting with one |
| ResponseParser.MalformedLinesChangeNothing | src/linux/net/wifi/wpa-controller/WpaResponseParser.cxx:82-102 | removing a malformed line anywhere leaves the table that is loaded, up to the first unreadable line, and the outcome as they are |
| ResponseParser.LastLineWins | src/linux/net/wifi/wpa-controller/WpaResponseParser.cxx:104-120 | the entry of a key is that of the last line for it, its index stripped |
| ResponseParser.KeyWithoutLines | src/linux/net/wifi/wpa-controller/WpaResponseParser.cxx:120 | a key without lines is as it was before |
| ResponseParser.BracketsReversed | src/linux/net/wifi/wpa-controller/WpaResponseParser.cxx:106-117 | a key whose first closing bracket stands before its first opening one is read all the same: the index is whatever follows the opening one |
| ResponseParser.Missing | src/linux/net/wifi/wpa-controller/WpaResponseParser.cxx:125 | the properties that remain to be parsed are exactly the requested ones that were not found |
| ResponseParser.RoundTrip | src/linux/net/wifi/wpa-controller/WpaResponseParser.cxx:62-128 | printing any table of plain keys with optional indexes, in any order, and parsing the text gives exactly that table |
| Text.SplitJoin | src/linux/net/wifi/wpa-controller/WpaResponseParser.cxx:79 | splitting undoes joining for parts without the separator |
| Text.StoulDecimal | src/linux/net/wifi/wpa-controller/WpaResponseParser.cxx:113 | std::stoul reads back every printed 64-bit number |
| Text.StoulReads | src/linux/net/wifi/wpa-controller/WpaResponseParser.cxx:113 | what std::stoul makes of spaces, a sign, digits and a rest: a minus negates modulo 2^64, 2^64 and more throw |
| Text.StoulThrows | src/linux/net/wifi/wpa-controller/WpaResponseParser.cxx:113 | it throws where no digit follows the spaces and the sign |
| StatusDecoder.ParsePayload | src/linux/net/wifi/wpa-controller/WpaCommandStatus.cxx:41-100 | whatever the iteration order: the status that the table describes, or a failure exactly when a BSS property has no usable index |
| StatusDecoder.DecodeBss | src/linux/net/wifi/wpa-controller/WpaCommandStatus.cxx:50-85 | a BSS property makes the list long enough and changes one place of it |
| StatusDecoder.DecodeGlobal | src/linux/net/wifi/wpa-controller/WpaCommandStatus.cxx:58-71 | a property of the interface changes its field, any other key nothing |
| StatusDecoder.BssCountIsLargest | src/linux/net/wifi/wpa-controller/WpaCommandStatus.cxx:50-85 | the BSS list is one longer than the largest index present, or empty |
| StatusDecoder.Parse | src/linux/net/wifi/wpa-controller/WpaResponseParser.cxx:37-48 | parsing and decoding a STATUS response gives what its lines say |
| StatusDecoder.PrintedStatusDecoded | src/linux/net/wifi/wpa-controller/WpaCommandStatus.cxx:41-100 | a printed table is understood as the status it describes, in any line order and any iteration order |
| StatusDecoder.ParseIntReadsBack | src/linux/net/wifi/wpa-controller/WpaParsingUtilities.cxx:14-23 | a printed 32-bit number is read back, whatever non-digit follows it |
| StatusDecoder.ParseIntReads | src/linux/net/wifi/wpa-controller/WpaParsingUtilities.cxx:14-23 | digits with or without a minus sign are read whatever follows them, and a number that does not fit into 32 bits leaves the variable as it was |
| StatusDecoder.ParseIntKeeps | src/linux/net/wifi/wpa-controller/WpaParsingUtilities.cxx:14-23 | where no number stands the variable keeps its value |
| StatusDecoder.InterfaceStateIsNamed | src/linux/net/wifi/wpa-controller/ProtocolHostapd.cxx:16-43 | a text is decoded to a state exactly when it starts with the name of that state, and to Unknown exactly when it starts with none of the eight names |
| StatusDecoder.UnderstoodExactly | src/linux/net/wifi/wpa-controller/WpaCommandStatus.cxx:50-85 | a payload is understood exactly when all its lines are readable and the last line for each of bss, bssid, ssid and num_sta has an index that can be used |
| StatusDecoder.StateKnown | src/linux/net/wifi/wpa-controller/WpaCommandStatus.cxx:58-59 | any payload that is understood: the state is the one that the last state line names, Unknown without one |
| StatusDecoder.NumberKnown | src/linux/net/wifi/wpa-controller/WpaCommandStatus.cxx:60-71 | likewise each of the six 802.11 numbers is what the last line for its key starts with, 0 without one |
| StatusDecoder.StationsUnknown | src/linux/net/wifi/wpa-controller/WpaCommandStatus.cxx:81-83 | without a num_sta line every BSS has 0 stations |
| StatusDecoder.StationsKnown | src/linux/net/wifi/wpa-controller/WpaCommandStatus.cxx:81-83 | likewise the number of stations of a BSS is what the last num_sta line starts with if it is about this BSS, else 0 |
| StatusDecoder.OnlyLastLineKnown | src/linux/net/wifi/wpa-controller/WpaResponseParser.cxx:104-120 | any payload that is understood: a BSS has a name, address or SSID exactly when the last line for that key, index stripped, gives it at this index |
| StatusDecoder.LaterBssReplacesEarlier | src/linux/net/wifi/wpa-controller/WpaResponseParser.cxx:104-120 | so of two lines for a key with different indexes, in either order, the earlier one leaves its BSS with an empty field or beyond the list |
| AccessPointRegistry.HistoryDecides | src/common/net/wifi/apmanager/AccessPointManager.cxx:43-110 | after any history a name is known exactly when a controllable add followed its last removal, and it stands for the access point of the first such add |
| AccessPointRegistry.NamesStayDistinct | src/common/net/wifi/apmanager/AccessPointManager.cxx:43-95 | interface names stay pairwise distinct |
| AccessPointRegistry.OrderOfArrival | src/common/net/wifi/apmanager/AccessPointManager.cxx:43-95 | the list is in the order in which the access points were introduced |
| AccessPointRegistry.InterleavingsAgree | src/common/net/wifi/apmanager/AccessPointManager.cxx:43-72 | without departures every interleaving of the same arrivals and probe results ends with the same names, those of the controllable adds |
| AccessPointRegistry.AddedLooksUp | src/common/net/wifi/apmanager/AccessPointManager.cxx:43-72 | adding changes the lookup of one name, and only if it was unknown and the access point is controllable |
| AccessPointRegistry.RemovedLooksUp | src/common/net/wifi/apmanager/AccessPointManager.cxx:74-95 | removing makes one name unknown and changes no other lookup |
| AccessPointRegistry.AccessPointManager.AddAccessPoint | src/common/net/wifi/apmanager/AccessPointManager.cxx:43-72 | the new list, and the history it belongs to |
| AccessPointRegistry.AccessPointManager.RemoveAccessPoint | src/common/net/wifi/apmanager/AccessPointManager.cxx:74-95 | the new list, and the history it belongs to |
| AccessPointRegistry.AccessPointManager.GetAccessPoint | src/common/net/wifi/apmanager/AccessPointManager.cxx:97-110 | the access point that the history explains, or none |
| AccessPointRegistry.AccessPointManager.GetAllAccessPoints | src/common/net/wifi/apmanager/AccessPointManager.cxx:112-124 | every access point that the history explains, once |
| AccessPointRegistry.AccessPointManager.OnAccessPointPresenceChanged | src/common/net/wifi/apmanager/AccessPointManager.cxx:190-205 | an arrival adds, a departure removes, anything else does nothing |
| AccessPointRegistry.AccessPointManager.AddDiscoveryAgent | src/common/net/wifi/apmanager/AccessPointManager.cxx:139-188 | the agent is kept and all results of a probe that ended in time are added, in order |
| EventListeners.EveryLivingListenerIsNotified | src/linux/net/wifi/wpa-controller/WpaEventHandler.cxx:127-146 | when a round is over every listener of the copy was delivered the event exactly once or found destroyed, never both, and one still alive was delivered |
| EventListeners.LivingListenerStays | src/linux/net/wifi/wpa-controller/WpaEventHandler.cxx:32-55 | in every interleaving that does not use up the 2^32 tokens a listener that stays alive leaves the table only through Unregister with its token |
| EventListeners.NeverLosesExactly | src/linux/net/wifi/wpa-controller/WpaEventHandler.cxx:32-154 | no run with at most so many registrations loses a living listener if and only if the limit is no larger than 2^32 |
| EventListeners.ErasedListenersAreDead | src/linux/net/wifi/wpa-controller/WpaEventHandler.cxx:148-154 | under the same condition the erasure removes only destroyed listeners |
| EventListeners.InvariantAlways | src/linux/net/wifi/wpa-controller/WpaEventHandler.cxx:32-154 | what every step keeps: tokens in use were issued and the next was not, copy and table agree, the visits so far are partitioned |
| EventListeners.ReachableHandlers | src/linux/net/wifi/wpa-controller/WpaEventHandler.cxx:32-154 | every state that any steps can lead to from the empty table has that invariant, so the claims above hold of it |
| EventListeners.RegisterDisplaces | src/linux/net/wifi/wpa-controller/WpaEventHandler.cxx:32-42 | in every reachable state: no displacement before all 2^32 tokens have been issued, afterwards only of the listener that still holds the next token |
| EventListeners.ReusedTokenLosesListener | src/linux/net/wifi/wpa-controller/WpaEventHandler.cxx:127-154 | one registration more and the claims fail: a run from the empty table with 2^32 + 1 registrations in which a dispatch removes a live listener that was never unregistered |
| EventListeners.WpaEventHandler.RegisterEventListener | src/linux/net/wifi/wpa-controller/WpaEventHandler.cxx:32-42 | the token returned and the new table |
| EventListeners.WpaEventHandler.UnregisterEventListener | src/linux/net/wifi/wpa-controller/WpaEventHandler.cxx:44-55 | the new table |
| EventListeners.WpaEventHandler.DispatchEvent | src/linux/net/wifi/wpa-controller/WpaEventHandler.cxx:127-155 | with anything other threads may do between its steps: it makes exactly the steps of a dispatch; no listener is notified twice, and every one registered at the start and alive at the end was notified |
| EventListeners.WpaEventHandler.NotifyEach | src/linux/net/wifi/wpa-controller/WpaEventHandler.cxx:136-147 | the loop over the copy |
| EventListeners.WpaEventHandler.EraseEach | src/linux/net/wifi/wpa-controller/WpaEventHandler.cxx:149-154 | the loop over the expired tokens removes exactly those |
| ServiceRuns.EnableIsFailFast | src/common/service/NetRemoteService.cxx:495-600 | for every configuration and every failure: the settings made are a prefix of those asked for, in the order PHY, 802.1X, algorithms, data, AKM, ciphers, SSID, bands, and then the switch; Succeeded exactly when the access point was found, all items are valid and every call succeeded, and then all of it is stored |
| ServiceRuns.EnabledExactlyOnSuccess | src/common/service/NetRemoteService.cxx:573-599 | an access point that was off is on afterwards exactly when the operation succeeded |
| ServiceEffects.EnableStores | src/common/service/NetRemoteService.cxx:495-600 | for every configuration and every failure: some number of items, counted in the order PHY, 802.1X, algorithms, data, AKM, ciphers, SSID, bands, has been stored, each as its own field of the request says, and nothing else; success exactly when the access point was found, each item can be set and all calls are answered, and then all are stored and it is on |
| ServiceEffects.EnableSwitches | src/common/service/NetRemoteService.cxx:573-599 | without a configuration only the switch |
| ServiceEffects.DisabledExactlyOnSuccess | src/common/service/NetRemoteService.cxx:602-643 | success exactly when the access point was found and all calls are answered; one that was on is off afterwards exactly on success, and no other entry of the record changes; the state is read first and set only when on |
| ServiceEffects.PhyTypeStored | src/common/service/NetRemoteService.cxx:645-699 | success exactly for a PHY type among the capabilities, with all calls answered; then the record holds the type with the number of the request, and otherwise what it held; the capabilities are read first |
| ServiceEffects.BandsStored | src/common/service/NetRemoteService.cxx:701-763 | the same for a list of bands, each by its number, in order |
| ServiceEffects.BridgeStored | src/common/service/NetRemoteService.cxx:765-792 | the same for the network bridge, which is stored as it is |
| ServiceEffects.AlgorithmsStored | src/common/service/NetRemoteService.cxx:794-843 | the same for authentication algorithms 1 to 8, in order |
| ServiceEffects.DataStored | src/common/service/NetRemoteService.cxx:845-943 | the same for authentication data: passphrases of 8 to 63 characters, keys of 64 hex digits or 32 bytes, at least one SAE password |
| ServiceEffects.AkmSuitesStored | src/common/service/NetRemoteService.cxx:945-994 | the same for AKM suites 1 to 22, in order |
| ServiceEffects.CiphersStored | src/common/service/NetRemoteService.cxx:996-1044 | the same for cipher suites of protocols 1 to 3: the table has exactly the protocols named, with the ciphers of the first entry for each, by their numbers, in order |
| ServiceEffects.SsidStored | src/common/service/NetRemoteService.cxx:1046-1097 | the same for an SSID as a name, in hex or as data |
| ServiceEffects.Dot1xStored | src/common/service/NetRemoteService.cxx:1184-1270 | the same for RADIUS servers that all have an address and a secret: each is stored with its own type, address, secret and port, the port cut to 16 bits and 0 for none |
| ServiceRuns.ReachableConfigurationsAreSound | src/common/service/NetRemoteService.cxx:645-1270 | after any sequence of requests, with any failures: PHY type and bands lie within the capabilities, algorithm and AKM lists are non-empty without Unknown, no cipher table has an unknown protocol, RADIUS servers have address and secret, authentication data has the required lengths |
| AccessPointControl.CallsStopAtFailure | src/common/service/NetRemoteService.cxx:495-600 | calls are made only while all succeed, the operation succeeds exactly when nothing is refused and no call failed |
| AccessPointControl.CallsAreStored | src/common/service/NetRemoteService.cxx:495-600 | all calls that were made are stored in the record, in order, except a last one that failed |
| AccessPointControl.CallsArePrefix | src/common/service/NetRemoteService.cxx:495-600 | the calls made are a prefix of the plan's, and all of them on success |
| AccessPointControl.AccessPointController.Invoke | tests/unit/net/wifi/helpers/AccessPointControllerTest.cxx:75-204 | a call that succeeds replaces one entry of the record, one that fails none |
| RemoteService.NetRemoteService.Enable | src/common/service/NetRemoteService.cxx:495-600 | the calls made, the new record and the code |
| RemoteService.NetRemoteService.Configure | src/common/service/NetRemoteService.cxx:511-571 | the items that are present, one after the other until one fails |
| RemoteService.NetRemoteService.Disable | src/common/service/NetRemoteService.cxx:602-643 | the calls made, the new record and the code |
| RemoteService.NetRemoteService.SetPhyType | src/common/service/NetRemoteService.cxx:645-699 | the calls made, the new record and the code |
| RemoteService.NetRemoteService.SetFrequencyBands | src/common/service/NetRemoteService.cxx:701-763 | the calls made, the new record and the code |
| RemoteService.NetRemoteService.AreSupported | src/common/service/NetRemoteService.cxx:743-750 | the loop finds a band outside the capabilities exactly when there is one |
| RemoteService.NetRemoteService.SetNetworkBridge | src/common/service/NetRemoteService.cxx:765-792 | the calls made, the new record and the code |
| RemoteService.NetRemoteService.SetAuthenticationAlgorithms | src/common/service/NetRemoteService.cxx:794-843 | the calls made, the new record and the code |
| RemoteService.NetRemoteService.SetAuthenticationData | src/common/service/NetRemoteService.cxx:845-943 | the calls made, the new record and the code: nested checks of presence and length |
| RemoteService.NetRemoteService.SetAkmSuites | src/common/service/NetRemoteService.cxx:945-994 | the calls made, the new record and the code |
| RemoteService.NetRemoteService.SetPairwiseCipherSuites | src/common/service/NetRemoteService.cxx:996-1044 | the calls made, the new record and the code, independent of the order of the tables |
| RemoteService.NetRemoteService.SetSsid | src/common/service/NetRemoteService.cxx:1046-1097 | the calls made, the new record and the code |
| RemoteService.NetRemoteService.SetAuthenticationDot1x | src/common/service/NetRemoteService.cxx:1184-1270 | the calls made, the new record and the code |
| RemoteService.KnownConverted | src/common/net/wifi/dot11/adapter/Ieee80211Dot11Adapters.cxx:562-574 | the converted cipher table is the one the request describes, whatever the iteration order |
| ServiceRuns.ServersAreComplete | src/common/net/service-api/adapter/ServiceApiNetworkDot1xAdapters.cxx:63-80 | a valid RADIUS request is converted to servers that all have an address and a secret |

## Left out

- DownloadCancelRace.CancellationStopsWriting: interleavings are sequentially consistent; the reordering that relaxed atomics allow is not modelled.
- DownloadCancelRace.FinishedTwiceExactly: the same.
- Daemon.TransactionSafety: a command whose response is lost counts as rejected; a daemon that applied it nevertheless is not modelled.
- StatusDecoder.ParsePayload: an index of 2^64 - 1 wraps the list size to zero and the source then accesses out of range; the model counts this as a failure. An index too large for memory is not modelled.
- EventListeners.LivingListenerStays: holds for up to 2^32 registrations in all; ReusedTokenLosesListener shows that one more is too many.
- EventListeners.WpaEventHandler.DispatchEvent: receiving and parsing the event, and what listeners do with it, are not part of the model.
- AccessPointRegistry.AccessPointManager.AddDiscoveryAgent: the callback registration, starting the agent and the three second wait are reduced to the outcome of the probe.
- AccessPointControl.AccessPointController.Invoke: one method stands for all controller calls; the band check that the record controller makes itself is one of the arbitrary failures.
- RemoteService.NetRemoteService.SetAuthenticationData: the record keeps the data as requested; its conversion, including that of PSK hex values, is not modelled.
- RemoteService.NetRemoteService.Configure: the eight steps of the source stand in one function there; the text of status messages is not modelled.
- HostapdControl.Hostapd.SendCommand: connection, payload, response and timeout are reduced to whether the command was accepted.
- HostapdControl.Hostapd.SetKeyManagement: the random server identifier is a parameter.
- DownloadReactor.DataStreamWriter.NextWrite: the random data of a block is a parameter.
- The upload reactor DataStreamReader.
- DuplexReactor.FinishedExactly: its callbacks are atomic steps; interleavings of their single accesses are considered for downloads only.
- Threads, sockets, epoll, starting and stopping the listener thread, netlink, gRPC transport and protobuf: environment steps stand for them.
- The PHY type and frequency band settings of hostapd, SetAkmSuites of AccessPointControllerLinux and the map from AKM suites to key managements: tables.
- CipherSuites.SetPairwiseCipherSuites: after the settings were accepted the controller reads the configuration back outside any try, in a noexcept function (AccessPointControllerLinux.cxx:508); when GET_CONFIG fails there the process terminates. The read-back has no place in the outcome.
- The same read-back after the AKM suites and the SSID were set (AccessPointControllerLinux.cxx:454, 572). Its comparison with what was set only logs.
- Pairwise cipher suites with Now reload once per protocol, so no transaction is claimed for them.
- Command line, JSON configuration, logging, service discovery.
