# Verified models of librustdesk_core

A Dafny 4.11 model of the parts of this repository that hold real state, arithmetic or
round trips, with proofs about every input and every run. `dafny verify dfyconfig.toml`
checks everything.

| file | models |
|---|---|
| `Strings.dfy` | `replace`, `split`, `find`, ASCII lower-casing, trimming, reversal |
| `Json.dfy` | a reader for JSON texts (RFC 8259), independent of the printers below |
| `Base64Url.dfy` | base64url without padding (sections 3.2 and 5 of RFC 4648) |
| `CustomServer.dfy` | the licence record, `gen_name`, and the file-name parser with its loops |
| `LicenceNames.dfy` | file names around a generated token parse back |
| `SignedNames.dfy` | what the signature check decides about a name |
| `HostNames.dfy` | the `host=...,key=...` file names |
| `AudioRing.dfy`, `AudioBuffer.dfy`, `AudioRuns.dfy` | the ring buffer, the jitter buffer on it, and its runs |
| `LoginState.dfy`, `LoginConfigHandler.dfy` | the session's login state as functions on values, and the handler object proved against them |
| `Logins.dfy` | what a login offers, keeps and forgets, step by step, and what the serving side makes of it |
| `ToggleNames.dfy` | what the names of the options mean |
| `ToggleOptions.dfy` | incremental option messages against the full login message |
| `PasswordRuns.dfy` | where passwords come from and which are saved, over every run |
| `Reconnect.dfy` | restoring a connection from what was stored |
| `VideoDecoder.dfy` | decoder failures, and the list of unsupported codecs shared by display threads |
| `BridgeState.dfy` | the bridge's JSON snapshot and its bounded event queue |
| `Branding.dfy` | app-name substitution in translated texts |
| `Clipboard.dfy` | clipboard items to the protocol and back |
| `OnlineStates.dfy` | the online bitmap |
| `UdpProbe.dfy` | the retry back-off of the UDP NAT test |
| `BlockSort.dfy` | `qsort_r` on raw bytes |

SHA-256, compression, the UTF-8 of clipboard items and signature verification are
parameters: any function for SHA-256 and verification (data shorter than a signature
fails); for compression only that decompressing undoes every compression that made the
data shorter; and for UTF-8 only that decoding undoes encoding. The UTF-8 of licence records
is written out. Time, message arrival, the address book and random numbers are inputs. What is
on disk is a map from peer id to the configuration last stored, and the user's defaults,
whatever they are, for peers never stored.

## Where the code is weaker than it looks

Each of these is a theorem with its exact condition.

- A licence name stops working exactly when the text behind the token contains a `host=`
  label, in any letter case: the token is then never looked at
  (`ReadableExactlyWithoutHostLabel`).
- The app-name substitution turns texts away that contain its whole placeholder, and these
  keep their brand unless it occurs inside app names only. The texts it lets through fail
  exactly when an app name stands right behind `#A-P-P-N-A-M-E` (`LocalizeExact`, with
  the inputs `GuardIsNotEnough` and `GuardLeavesBrand`).
- `escape_json` leaves every control character but newline and carriage return alone, and
  any of them makes the snapshot, or the whole drained array, unreadable JSON
  (`SnapshotReadsBack`, `DrainReadsBack`).
- Special clipboard items whose data does not compress come back as the bytes of their name,
  and RGBA dimensions from 2^31 up do not come back, except the topmost 2^31 of the 2^64
  values (`ClipboardRoundTrip`, `DimensionSurvives`).
- The messages of `toggle_option` do not always add up to what a fresh login would set, in
  all twelve flags they carry. At a screen or camera they part from it exactly when an
  option that view-only overrides is switched away from what view-only dictates while it is
  on, when the cursor is shown while it is off, or when input blocking, privacy mode or a
  terminal's persistence is switched on, which no such login carries. In any other session
  they part exactly when something is switched on that its login does not carry
  (`DeltasRefineLogin`, with the inputs in `SilentOptionsPart`).
- A `host=` name without a final comma loses `.exe` from its last value if that ends so
  (`NoFinalCommaExactly`).
- A second relay suffix in front of the `@` loses the stored connection: `7/r/r@host` is
  stored as `7/r@host` and then looked for as `7@host` (`ReconnectRestores`,
  `SecondSuffixLosesStored`). This is about the stripping in
  rustdesk-master/src/ui_interface.rs:1589-1595.
- Peer info that came before the hash message would save a shared password whenever the
  salt matters to its digest (`EarlyPeerInfoSaves`), and so would a confirmed switch of
  sides, which forgets where the password came from (`SwitchForgetsSource`). The provenance
  results are about runs without either.
- A resize of the audio buffer to the same capacity keeps the old samples: the channels of
  what follows are swapped exactly when their number is odd and the new samples do not
  overflow the queue (`ResizeAlignsExactly`, with half a frame of mono as the input in
  `SameCapacityKeepsHalfFrame`).
- The comment in `try_shrink` calls `max` the level taking most of the time. Bucket 0 is
  cleared before it is compared, so levels below 100 ms never win (`PeakIsFirstFullest`).

## Model

| member | source | states |
|---|---|---|
| CustomServer.TokenDecodes | rustdesk-master/src/custom_server.rs:21-37 | for every record, whatever its characters and whatever the signature check does, decoding the generated token gives back that record |
| CustomServer.RecordReadsBack | rustdesk-master/src/custom_server.rs:8-18 | every record serialized, in UTF-8 and with every escape the serializer uses, deserializes to the same four fields |
| CustomServer.Utf8Canonical | rustdesk-master/src/custom_server.rs:28 | bytes that read as a text are its UTF-8, so nothing overlong, cut off or beyond the code space is accepted |
| CustomServer.Utf8Reads | rustdesk-master/src/custom_server.rs:28 | the UTF-8 of every text reads back |
| CustomServer.ObjectIsRecord | rustdesk-master/src/custom_server.rs:8-18 | an object is a record if and only if every field it gives is a string given once; other members do not matter, and each field is what the object says, or empty |
| CustomServer.ArrayIsRecord | rustdesk-master/src/custom_server.rs:8-18 | so is an array of up to four strings, the fields in their order |
| CustomServer.SignedToken | rustdesk-master/src/custom_server.rs:27-36 | a token of bytes that are no record stands for exactly what the signature check makes of them, and for nothing if it rejects them or they are shorter than a signature |
| CustomServer.SignedRecordReadsBack | rustdesk-master/src/custom_server.rs:27-36 | bytes opened to the text of a record give that record, rejected bytes give none |
| SignedNames.UnsignedNamesOnly | rustdesk-master/src/custom_server.rs:39-107 | if the signature check rejects everything, a name without `host=` stands for a record if and only if one of its parts is the token of an unsigned record |
| SignedNames.SignedNameParsesBack | rustdesk-master/src/custom_server.rs:21-107 | a name around an unbroken token of signed bytes stands for exactly the record they open to, and for none if they are rejected |
| SignedNames.AnyRecordParsesBack | rustdesk-master/src/custom_server.rs:21-107 | a record of any characters is found in a name if its token holds no `--` and no marker |
| Base64Url.DecodeEncode | rustdesk-master/src/naming.rs:6 | decoding inverts encoding for every byte sequence, whatever its length modulo three |
| Base64Url.DecodedEncodes | rustdesk-master/src/custom_server.rs:22-23 | only encodings decode: an accepted text is the encoding of its bytes, trailing bits included |
| Base64Url.DashOnlyAtGroupEnds | rustdesk-master/src/naming.rs:6 | printable ASCII puts the symbol `-` only at positions congruent to 3 modulo 4 |
| LicenceNames.GeneratedTokensAreShaped | rustdesk-master/src/naming.rs:5-8 | every generated token consists of base64url symbols, starts with 9, Q or 0, ends with e, and has dashes only at distances divisible by four, so never `--` or `-licensed-` |
| LicenceNames.TokenHasNoMarker | rustdesk-master/src/custom_server.rs:89-92 | no `-licensed-` marker of any length starts inside a token, not even one running into what follows it |
| LicenceNames.LicenceNameParsesBack | rustdesk-master/src/custom_server.rs:39-107 | `rustdesk--T` and `rustdesk-licensed` with one to three dashes before T, then white space, then nothing or `--` or `(` and any ASCII text without `host=`, with `.exe` in any case or no extension, parse back to exactly the record of T |
| LicenceNames.ReadableExactlyWithoutHostLabel | rustdesk-master/src/custom_server.rs:59-87 | a tail keeps every record readable if and only if it contains no `host=` in any letter case |
| LicenceNames.BareNameFails | rustdesk-master/src/custom_server.rs:117-118 | the program's own name is no token, for any signature check |
| CustomServer.GetCustomServerFromString | rustdesk-master/src/custom_server.rs:39-107 | the parser with its loops and early returns computes the function the theorems are about |
| CustomServer.ReadHostPieces | rustdesk-master/src/custom_server.rs:62-80 | the loop over pieces, updating four variables, computes the fold of the pieces |
| CustomServer.TryPieces | rustdesk-master/src/custom_server.rs:93-105 | the outer loop returns the first record any piece or parenthesised part yields, or none |
| HostNames.LastLabelWins | rustdesk-master/src/custom_server.rs:59-87 | in an ASCII name, host first, then labelled values in any order, case and number, a final comma and text that starts no label: each field is the value of the last entry with its label |
| HostNames.AnyOrderSameRecord | rustdesk-master/src/custom_server.rs:59-87 | every order of key, api and relay behind the host gives the same record |
| HostNames.NoFinalCommaExactly | rustdesk-master/src/custom_server.rs:39-87 | without a final comma the same record comes out if and only if the last value does not itself end in `.exe` |
| AudioRing.Ring.PushSliceOverwrite | rustdesk-master/src/client.rs:1345-1360 | the array ring then holds the last capacity elements of old plus new, in order |
| AudioRing.Ring.PopSlice | rustdesk-master/src/client.rs:1578-1581 | removes and returns the oldest elements in order |
| AudioBuffer.AudioBuffer.AppendPcm2 | rustdesk-master/src/client.rs:1345-1360 | keeps exactly the last capacity samples of old plus new and returns the new level |
| AudioBuffer.AudioBuffer.Resize | rustdesk-master/src/client.rs:1270-1278 | capacity stays three times rate times channels; the queue is emptied exactly when that product changes |
| AudioBuffer.AudioBuffer.ScanHistogram | rustdesk-master/src/client.rs:1301-1319 | the in-place loop finds the empty run and the peak and leaves every bucket zero |
| AudioBuffer.AudioBuffer.TryShrink | rustdesk-master/src/client.rs:1280-1340 | counts the level; only twelve seconds after the last pass of any buffer drops from the front, exactly the number these levels call for, and then clears the histogram; whatever playback took in between, that is at most two thirds of any level since this buffer's last pass plus one sample, nothing if one was below 200 ms, less than a third of what is queued, and an even number |
| AudioBuffer.DropIsExact | rustdesk-master/src/client.rs:1301-1337 | for every histogram: nothing if the first fullest bucket is below 600 ms; otherwise the even number within one of a quarter of that bucket or of four times two thirds of the first filled one, whichever is less, if more than three times as much is queued |
| AudioBuffer.SkipUnique | rustdesk-master/src/client.rs:1326-1335 | there is only one such number |
| AudioBuffer.SteadyLevelIsCut | rustdesk-master/src/client.rs:1280-1340 | when all levels and the queue lie in one bucket of 600 ms or more, a pass drops a quarter of it, give or take one sample |
| AudioBuffer.SteadySecondAndAHalf | rustdesk-master/src/client.rs:1280-1340 | 1500 ms of stereo at 48 kHz lose exactly 36000 samples |
| AudioBuffer.AudioBuffer.AppendPcm | rustdesk-master/src/client.rs:1365-1369 | appending and then shrinking, with nothing in between, keeps all but a gentle drop, and everything between passes |
| AudioBuffer.ShrinkIsGentle | rustdesk-master/src/client.rs:1280-1340 | the same bounds for every list of recorded levels and every histogram that counts them |
| AudioBuffer.PeakIsFirstFullest | rustdesk-master/src/client.rs:1309-1314 | the loop picks the first of the fullest buckets from 100 ms up, and none exactly when these are empty |
| AudioBuffer.AudioBuffer.Play | rustdesk-master/src/client.rs:1549-1590 | the output is the oldest samples and then silence |
| AudioRuns.QueueIsFifo | rustdesk-master/src/client.rs:1345-1360 | in every interleaving each sample pushed is played, dropped or queued exactly once and in order, what is heard is what was played, and the queue never exceeds its capacity |
| AudioRuns.ChannelsNeverSwap | rustdesk-master/src/client.rs:1335-1337 | with whole stereo frames in and even reads, queue and output are always whole frames, left first |
| AudioRuns.StepKeepsFrames | rustdesk-master/src/client.rs:1353-1356 | every single overflow drop, shrink drop and pop removes an even number of samples and keeps frames whole |
| AudioRuns.ResizeAlignsExactly | rustdesk-master/src/client.rs:1270-1278 | for every queue, capacity and stereo samples, those appended after a resize lie left first if and only if the capacity changed, the queue was even, or they overflow it |
| AudioRuns.SameCapacityKeepsHalfFrame | rustdesk-master/src/client.rs:1270-1278 | the concrete failure: one sample of mono, the same capacity, and one stereo frame behind it |
| AudioRuns.Perform | rustdesk-master/src/client.rs:1270-1369 | each method of the buffer object is one step of the runs, with queue, capacity and output equal |
| AudioRuns.PerformAll | rustdesk-master/src/client.rs:1270-1369 | over any sequence of calls on the object from an empty queue, what it was given is, in order, what was played or dropped and then what is queued, and what was heard is what was played |
| LoginConfigHandler.LoginConfigHandler.Initialize | rustdesk-master/src/client.rs:1843-1945 | the fields after initialising are those of the value-level function, from any earlier state |
| Logins.TokenRestores | rustdesk-master/src/client.rs:1897-1904 | a token carries password, source and session id over to another handler |
| Logins.InitializeSession | rustdesk-master/src/client.rs:1888-1945 | the session id is never zero, a peer is remembered if and only if a password is stored for it, and only a terminal can be an administrator's |
| Logins.SwitchBackAllowed | rustdesk-master/src/client.rs:3519-3534 | switching back is allowed if and only if a switch of sides was confirmed, until the next initialising |
| LoginConfigHandler.LoginConfigHandler.HandleHash | rustdesk-master/src/client.rs:3506-3620 | the fields are those of the value-level function; a confirmed switch of sides is answered with its uuid, otherwise the login sent answers the challenge with the password chosen |
| Logins.LoginAnswersChallenge | rustdesk-master/src/client.rs:3587-3619 | what is sent is the best candidate hashed with the challenge of this message, an empty password if and only if there is no candidate, and nothing yet if and only if it is an administrator's terminal |
| Logins.RightPasswordAccepted | rustdesk-master/src/server/connection.rs:2077-2099 | the serving side that knows the text of the best candidate accepts what is sent |
| Logins.HashAgainKeepsPassword | rustdesk-master/src/client.rs:3535-3585 | a second hash message is answered with the password of the first |
| Logins.AddressBookPassword | rustdesk-master/src/client.rs:3622-3646 | a password comes from the first entry of the peer in the first personal book, and only while the book belongs to the account logged in |
| Logins.AddressBookNothing | rustdesk-master/src/client.rs:3622-3646 | and there is none without such an entry |
| LoginConfigHandler.LoginConfigHandler.HandleLoginError | rustdesk-master/src/client.rs:3422-3465 | a refused password is forgotten, a refused second factor clears the trust option, and the result says whether to try again |
| Logins.RefusedIsForgotten | rustdesk-master/src/client.rs:3427-3434 | a refused password is neither handed on in a token nor offered again, and any other error keeps it |
| Logins.TrustEnds | rustdesk-master/src/client.rs:3435-3444 | a refused second factor ends the trust in this device, and no other error touches an option |
| LoginConfigHandler.LoginConfigHandler.HandleLoginFromUi | rustdesk-master/src/client.rs:3682-3718 | a typed password replaces source and remember; an empty one falls back to the last and then the stored one |
| Logins.TypedPasswordAccepted | rustdesk-master/src/client.rs:3699-3715 | a typed password is accepted by the serving side that knows it |
| Logins.NothingTyped | rustdesk-master/src/client.rs:3690-3698 | with nothing typed the first there is of last and stored password is offered, with its source |
| Logins.TypedPasswordStored | rustdesk-master/src/client.rs:2605-2628 | once the peer has answered, a typed password is stored if it is to be remembered, and otherwise none is |
| LoginConfigHandler.LoginConfigHandler.HandlePeerInfo | rustdesk-master/src/client.rs:2593-2690 | what is stored about the peer afterwards, and which password is offered to the personal address book |
| Logins.PeerInfoStores | rustdesk-master/src/client.rs:2598-2640 | what the peer says of itself is stored; toggles, other options and other peers stay, and the two options about the connection change exactly when this session has something to say |
| Logins.PeerInfoTwice | rustdesk-master/src/client.rs:2593-2690 | hearing it twice changes nothing more |
| LoginConfigHandler.LoginConfigHandler.ToggleOption | rustdesk-master/src/client.rs:2132-2278 | the configuration saved and the message returned for every option name |
| ToggleNames.ToggleNegatesOne | rustdesk-master/src/client.rs:2132-2278 | for every two names: toggling one negates what `get_toggle_option` says of that one and of no other, but leaving view-only hides the cursor, and three names change nothing |
| ToggleNames.ToggleIsStored | rustdesk-master/src/client.rs:2262-2278 | every toggle is stored for the peer, and input blocking is not |
| ToggleNames.ToggleTwice | rustdesk-master/src/client.rs:2132-2278 | toggling twice restores what it says of every name, but the cursor after view-only |
| ToggleNames.MessageSpeaksOfOne | rustdesk-master/src/client.rs:2132-2278 | view-only apart, the message carries the negated value in the field of that option and leaves every other unset |
| ToggleNames.StringOptionToggles | rustdesk-master/src/client.rs:2262-2273 | a string option appears as "Y" or disappears, and no other option is touched |
| LoginConfigHandler.LoginConfigHandler.LoginOptions | rustdesk-master/src/client.rs:2292-2364 | the options of the login message built field by field |
| ToggleOptions.DeltasRefineLogin | rustdesk-master/src/client.rs:2132-2364 | over every run of toggles in any kind of session, the peer folding the messages agrees with a fresh login in all twelve flags after every step if and only if no toggle is a parting one, and then show-my-cursor implies view-only throughout |
| ToggleOptions.ToggleStep | rustdesk-master/src/client.rs:2132-2278 | one toggle keeps the agreement in all twelve flags if and only if it is not a parting one |
| ToggleOptions.BareFlip | rustdesk-master/src/client.rs:2132-2278 | outside screen and camera sessions a toggle is a parting one if and only if its message switches something on, persistence aside |
| ToggleOptions.SilentOptionsPart | rustdesk-master/src/client.rs:2292-2364 | the concrete failures: block-input, and privacy-mode or terminal-persistent while off, part the peer at once |
| ToggleOptions.RuleNeverParts | rustdesk-master/src/client.rs:2223-2261 | at a screen or camera, over every run in which overridden options are toggled only while view-only is off, the cursor only while it is on, and input blocking, privacy mode and persistence are never switched on, the peer agrees with a fresh login in all twelve flags after every step |
| ToggleOptions.RuleKeepsShown | rustdesk-master/src/client.rs:2223-2261 | without the last condition the nine flags such a login carries still agree after every run |
| ToggleOptions.InitializeSyncs | rustdesk-master/src/client.rs:1888-1895 | initialising leaves the configuration in memory as loaded, stored or not, which is where the toggle results start |
| PasswordRuns.SharedPasswordsAreNeverSaved | rustdesk-master/src/client.rs:2605-2628 | over every interleaving of any number of handlers that share the disk, with one salt for each peer and issued tokens only, a non-empty password agrees with its recorded source, and every password stored for any peer was there before or is one the user presented |
| PasswordRuns.RememberOffForgets | rustdesk-master/src/client.rs:2618-2627 | with remember off the stored password ends as the personal address book's one in use, or empty |
| PasswordRuns.SyncedPasswordIsOwn | rustdesk-master/src/client.rs:2641-2658 | a password offered to the personal address book is the user's own |
| PasswordRuns.SyncedExactly | rustdesk-master/src/client.rs:2641-2658 | one is offered if and only if a password is stored afterwards that is neither the personal book's nor a shared one, and it is the stored one |
| PasswordRuns.StepKeepsInv | rustdesk-master/src/client.rs:1752-1780 | whatever one handler does, the passwords, sources, tokens and stored passwords of all of them keep agreeing |
| Logins.ChoiceIsFirstNonEmpty | rustdesk-master/src/client.rs:3536-3591 | the password used is the first there is in the order shared, last, preset, stored, personal, built-in, with its own source |
| PasswordRuns.SharedSavedExactly | rustdesk-master/src/client.rs:2609-2617 | for a remembered peer, peer info writes a new password if and only if the salt at hand does not show that it is a shared one |
| PasswordRuns.EarlyPeerInfoSaves | rustdesk-master/src/client.rs:2605-2628 | in the run where a token takes a shared password to a second handler that gets peer info before its hash message, the disk then holds that password if and only if the salt matters to its digest |
| PasswordRuns.SwitchForgetsSource | rustdesk-master/src/client.rs:3516-3534 | in the same run with a confirmed switch of sides instead, the disk always does |
| Reconnect.ReconnectRestores | rustdesk-master/src/client.rs:1853-1925 | for every id with an `@`, initialising again after peer info gives the same id, server and key if and only if the id as typed has no second relay suffix in front of the `@`, and forced relay mode stays |
| Reconnect.SecondSuffixLosesStored | rustdesk-master/src/client.rs:1877-1883 | the concrete failure: `7/r/r@host` is stored as `7/r@host` and then looked for as `7@host` |
| Reconnect.TypedIdParses | rustdesk-master/src/client.rs:1853-1883 | a well-formed `id@server?key=K` parses to id without relay suffix, server and K, equal signs in K included |
| Reconnect.StoredIdParses | rustdesk-master/src/client.rs:1853-1883 | a stored id parses without a key, unless the server is the public one |
| Reconnect.DirectReconnects | rustdesk-master/src/client.rs:1881-1888 | an id without an `@` is found again if and only if it had no second relay suffix, with relay mode kept and no other server |
| Reconnect.RelaySuffixes | rustdesk-master/src/ui_interface.rs:1589-1595 | exactly one suffix, of either kind, is stripped |
| Reconnect.LastKeyCounts | rustdesk-master/src/client.rs:1862-1872 | of several arguments the last one named `key`, in any letter case, counts |
| VideoDecoder.VideoHandler.HandleFrame | rustdesk-master/src/client.rs:1648-1698 | counter, first-frame flag and format after every kind of frame |
| VideoDecoder.VideoHandler.ResetDecoder | rustdesk-master/src/client.rs:1701-1713 | a reset starts afresh in the given or the old format |
| VideoDecoder.RunTracks | rustdesk-master/src/client.rs:1667-1683 | after every run the counter is the failure streak's length, plus two if it began on the first frame after a reset, capped |
| VideoDecoder.LimitMeaning | rustdesk-master/src/client.rs:1667-1683 | the counter has reached three exactly when the streak began on the first frame after a reset or is at least three long |
| VideoDecoder.FormatIsTheLastFrames | rustdesk-master/src/client.rs:1655-1657 | after every run the decoder is for the format of the last frame, or for the initial one |
| VideoDecoder.OneUpdatePerMarkedCodec | rustdesk-master/src/client.rs:2996-3015 | in every interleaving of threads the list has no duplicates and keeps its beginning; updates are for newly marked codecs, at most one each, listing it; when no thread owes one, exactly one each |
| VideoDecoder.MarkedOnlyGrows | rustdesk-master/src/client.rs:3003-3006 | the list at any moment of a run is a prefix of the list later |
| VideoDecoder.MarkedExactlyWhenUnusable | rustdesk-master/src/client.rs:2998-3008 | a frame adds its own format, and owes an update for it, if and only if it leaves the decoder invalid or at the limit and that format is not listed yet; otherwise the list stays |
| VideoDecoder.ResetReachesHandler | rustdesk-master/src/client.rs:3017-3020 | a reset message starts the decoder afresh in its format and touches nothing else |
| BridgeState.PassesAreOneEscaper | native_rust_core/src/bridge_state.rs:71-77 | the four whole-string passes equal one character-by-character escaper on every string |
| BridgeState.EscapedReads | native_rust_core/src/bridge_state.rs:71-77 | a JSON string reader gives back an escaped string exactly when its only control characters are newline and carriage return, and fails otherwise |
| BridgeState.SnapshotReadsBack | native_rust_core/src/bridge_state.rs:37-68 | the printed snapshot parses to all twelve fields in order exactly when its strings are printable, and is malformed otherwise |
| BridgeState.SessionEvents.QueueSessionEvent | native_rust_core/src/bridge_state.rs:90-113 | the store becomes the last fifty of the old texts and the new one |
| BridgeState.SessionEvents.DrainSessionEventsJson | native_rust_core/src/bridge_state.rs:115-121 | returns the array of the stored texts and empties the store |
| BridgeState.StoreHoldsTheLastFifty | native_rust_core/src/bridge_state.rs:90-121 | after every run the store is the last fifty, or fewer, of the events queued since the last drain |
| BridgeState.PerformAll | native_rust_core/src/bridge_state.rs:90-121 | over any sequence of calls on the object, its store and all it drained are those of the run |
| BridgeState.DrainReadsBack | native_rust_core/src/bridge_state.rs:115-121 | the drained array parses to exactly those events in order, timestamps as numbers, if all are printable, and is malformed otherwise |
| BridgeState.TimestampOf | native_rust_core/src/bridge_state.rs:123-130 | zero before the epoch; otherwise the 64-bit number congruent to the clock modulo 2^64, so the clock itself while that fits |
| Branding.LocalizeExact | rustdesk-master/src/lang.rs:193-226 | for every text and every app name built around the brand, the closure brands exactly the text between existing app names if and only if no app name is trapped behind an unfinished placeholder or, where the guard turns the text away, there is nothing to brand |
| Branding.OtherAppName | rustdesk-master/src/lang.rs:203-205 | any other app name stands exactly where the brand stood |
| Branding.ExemptTextsKept | rustdesk-master/src/lang.rs:198-202 | the program under its own name, and two kinds of text, are never rebranded |
| Branding.FilledIn | rustdesk-master/src/lang.rs:195-197 | the value stands at every `{}` and nowhere else |
| Branding.GuardLeavesBrand | rustdesk-master/src/lang.rs:214-221 | a concrete text is turned away by the guard and keeps its brand |
| Branding.ReplaceClosure | rustdesk-master/src/lang.rs:193-226 | the closure's successive reassignments compute the function the exact result is about |
| Branding.ThreeStepsExact | rustdesk-master/src/lang.rs:206-221 | for every text the guard admits, the three steps brand exactly the text between existing app names if and only if no app name stands right behind an unfinished placeholder |
| Branding.TextWithoutHash | rustdesk-master/src/lang.rs:206-221 | text without `#` is always branded correctly |
| Branding.AppNamesKept | rustdesk-master/src/lang.rs:206-221 | existing app names are never doubled: a text with the brand inside app names only stays as it is if and only if none of them is trapped |
| Branding.GuardIsNotEnough | rustdesk-master/src/lang.rs:212-216 | a concrete text passes the guard and is branded wrongly |
| Clipboard.ClipboardRoundTrip | rustdesk-master/src/clipboard.rs:604-740 | encoding then decoding returns the items without file urls, in order, if and only if every special item compresses or is its own name and RGBA dimensions fit |
| Clipboard.ItemRoundTrip | rustdesk-master/src/clipboard.rs:682-732 | each carried item comes back as one item, and as itself if and only if it is faithful |
| Clipboard.WireForm | rustdesk-master/src/clipboard.rs:604-680 | what goes over the wire is of the item's kind, with its name or dimensions, compressed only if shorter and never for PNG |
| Clipboard.Unreadable | rustdesk-master/src/clipboard.rs:682-732 | content that is no UTF-8 loses a text and empties a vector image, and unknown formats are left out |
| Clipboard.DimensionSurvives | rustdesk-master/src/clipboard.rs:632-635 | a dimension survives the casts to 32 bits and back exactly below 2^31 or in the topmost 2^31 values |
| OnlineStates.Decode | rustdesk-master/src/client.rs:4156-4169 | both lists are the ids selected by their bits, and indexing fails exactly when the server sent too few bytes |
| OnlineStates.DecodeInvertsPack | rustdesk-master/src/client.rs:4159-4161 | decoding inverts packing the bits most significant first |
| OnlineStates.SelectPositions | rustdesk-master/src/client.rs:4159-4166 | each list keeps the order of the ids, and its positions are exactly those with its bit |
| OnlineStates.ListsPartition | rustdesk-master/src/client.rs:4159-4166 | the two lists together are a permutation of the ids |
| UdpProbe.TestUdp | rustdesk-master/src/client.rs:4220-4287 | the burst and the loop compute the run of the step function |
| UdpProbe.IntervalShape | rustdesk-master/src/client.rs:4223-4261 | the interval never shrinks, stays within 20 and 200 ms, and is 200 exactly from the sixth retry on |
| UdpProbe.PacketBudget | rustdesk-master/src/client.rs:4230-4265 | however the loop is scheduled, at most 6 + T/200 datagrams leave in the first T ms |
| UdpProbe.AnswerEnds | rustdesk-master/src/client.rs:4241-4287 | an answer ends the retries, whatever the loop could have seen after it |
| UdpProbe.IgnoredSkipped | rustdesk-master/src/client.rs:4240-4287 | anything else the socket delivers changes nothing |
| UdpProbe.DeliveredCounted | rustdesk-master/src/client.rs:4250-4265 | exactly the datagrams the socket accepts are counted as sent |
| UdpProbe.BudgetIsTight | rustdesk-master/src/client.rs:4230-4265 | a scheduler that is always on time meets that bound with equality |
| BlockSort.QsortR | cpp/rustdesk_bridge_loader.cpp:11-27 | in place on bytes: blocks permuted, no other byte changed, sorted if the comparator is a total preorder, nothing changed for null or empty input |
| BlockSort.ExchangePass | cpp/rustdesk_bridge_loader.cpp:17-25 | the inner loop moves the least remaining block to its front |
| BlockSort.ExchangeIsSwap | cpp/rustdesk_bridge_loader.cpp:18-23 | exchanging two byte stretches at stride addresses exchanges exactly these two blocks |

## Left out

- BlockSort.QsortR: the two nested loops are two methods; addresses are unbounded, so overflow of the address arithmetic is not modelled.
- LicenceNames.LicenceNameParsesBack: about ASCII fields, whose tokens are never broken; other records are found exactly like signed ones, if the token happens to hold no `--` and no marker (`SignedNames.AnyRecordParsesBack`).
- CustomServer.GetCustomServerFromString: Unicode lower-casing of non-ASCII file names, which can move the byte indices they are cut at; records may hold any UTF-8.
- AudioBuffer.AudioBuffer.AppendPcm: playback between the append and the pass; the two are separate calls in the runs, and the bounds on the pass alone are on TryShrink.
- Reconnect.SecondSuffixLosesStored: the OHOS build (rustdesk-master/src/harmony_bridge/ui_interface_ohos.rs:44) strips no suffix, so it restores such ids.
- ToggleOptions.DeltasRefineLogin: the user's defaults do not change during a run, and the peer is the twelve flags of the messages, not what it does with them.
- LoginConfigHandler.LoginConfigHandler.Initialize: fields reset to constants (supported encoding, restart and record flags, direct, received, adapter) are not modelled.
- LoginConfigHandler.LoginConfigHandler.HandlePeerInfo: version, features, keyboard mode and supported encoding.
- LoginConfigHandler.LoginConfigHandler.LoginOptions: image quality, custom frame rate and supported decodings.
- PasswordRuns.SharedPasswordsAreNeverSaved: about runs in which every peer keeps its salt, a handler with a password and a token stay with their peer, typed passwords and peer info come only after a hash message, and no switch of sides is confirmed.
- UdpProbe.TestUdp: the port that is learnt from an answer.
- Encryption of stored passwords and failing disk writes: loading returns what was last stored.
- `extract_placeholder` in lang.rs and the fallback between languages: plain look-ups.
- The printed name of naming.rs, which has one dash before the token.
- Sockets, hole punching, relay, KCP, TLS, IPC, codecs, audio devices, resampling, the NAPI wrappers and the scripts.
- The clipboard listener thread and its running flag.
