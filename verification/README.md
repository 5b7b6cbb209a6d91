# A card payment path, from the API call to the warehouse

This project models the transaction path of a card payment sandbox and proves what it keeps. A purchase or transfer
claims an idempotency key, is checked and risk-scored, has its PIN encrypted by an HSM, travels to the switch as an ISO
8583 message over a framed TCP stream, is matched to its answer by STAN, is posted to a double-entry ledger, and later
shows up in a reconciliation report and in an analytics warehouse.

Five parts compose:

- **Codec and framing** (`Bcd`, `Bitmap`, `FieldCatalogue`, `Codec`, `WireFormat`, `Framing`, `MessageFile`). The
  message layout is section 4 of ISO 8583:1987; the filler nibble of odd-length numbers is the code's own, so DE 49 of
  "840" travels as `84 0F`, not as the `08 40` of `docs/architecture.html:673`. Elements, bitmaps and messages make the
  round trip, up to a canonical form, if and only if they fit, and `WireFormat` says which bytes they take; a stream or
  a file of any messages yields each as it is parsed alone.
- **Correlation** (`Client`, `HostSwitch`, `Reversal`, `Correlation`, `Answers`, `Handover`, `Transport`). A machine of
  small steps: any number of callers, heartbeats, a switch that answers in any order or not at all, lost messages,
  timeouts that fall between setting a response and setting its event, and reversals. A message is known by the number
  of its STAN draw; the machine itself only compares the six-digit text. What is written need not fit its elements, only
  be `Legible`: the switch reads its type and STAN as they were sent. `Handover` says what each step does to whom, that
  no answer is dropped and no call stuck.
- **Payments** (`Idempotency`, `RedisStore`, `Expiry`, `Velocity`, `Risk`, `PinBlock`, `MockHsm`, `Serials`, `Ledger`,
  `Payments`, `RiskGate`, `EntryModes`, `RrnCollisions`, `Saga`, `Guarantees`, `CallSteps`, `Completion`). Any number of
  purchase and transfer calls, each a program counter. `Payments` is the calls alone: the HSM and the transport may give
  any result there, or raise, and RRNs may repeat; what it promises of keys, refusals and the risk gate rests on no
  assumption at all. `Saga` joins it to the correlation machine and to the HSM's unlocked counter, step by step, and
  every run of it is a run of `Payments` (`CoreReachable`). A refusal or an exception after the claim leaves the key in
  progress. `CallSteps` says of every step what it comes to, case by case, and that no call is ever stuck; `Completion`
  has the runs in which an order in good standing is approved and posted, or declined.
- **Reconciliation** (`Reconciliation`, and the end of `Guarantees`).
- **Warehouse sync** (`Warehouse`, `Sync`).

What the code changes step by step is a method with loop invariants, and an object whose fields are updated is a class;
each is proved against a function, and the promises are lemmas about that function. What runs concurrently is a machine
of named steps with an invariant that every step keeps; "reachable" then means any number of steps from the empty state.

Assumptions, each written where it is used, and by the theorems on messages, ledger and settlement only: fewer than
1,000,000 STANs are drawn while a message or call with a given STAN is about, and drawing one is atomic (`StanWindow`);
the RRN that the switch will read of a new payment is not empty, and not one it reads of another (`Unread`; when the
generator repeats itself is `RrnCollisionExact`, and when different RRNs are read as one is `SameRrnExact`); a request
that can be built fits the elements it fills, but for a purchase's entry mode, which may be anything (`Faithful`).
Nothing is assumed of the HSM's counter: `SerialsDistinctExact` says when it keeps serial numbers apart. Source rows of
the sync job have strictly increasing timestamps; what is said of its readings does not need that.

Things one would expect of the code that do not hold, with the exact condition under which they do:

- That after a send error nothing reached the switch (`switch/transport.py:128-129`). It fails when the send that failed
  was the reversal's, and when the audit logger raised over a frame already written (`switch/client.py:101-105`):
  `UnknownAfterApproval` and `UnknownAfterLogError` are such runs, for every request, and `SendErrorExact` says when it
  holds. In the same way an 0400 may have been written without a TransactionTimeout; see `ReversalExactlyOnTimeout`.
- That the two idempotency stores agree after expiry. The response key outlives the hash key
  (`cache/idempotency_store.py:117` and `:140`), and is written even when the claim has lapsed: `StoresAgreeExact` says
  on which histories they agree, and `ReplayExact` gives histories on which they do not.
- That the two velocity trackers agree. They differ on an attempt that sits on the cutoff itself
  (`cache/velocity_tracker.py:40` and `:58`), such as that of `OnTheCutoff`; see `TrackersAgreeExact`.
- That payments with distinct RRNs are kept apart by them. Nothing bounds the entry mode (`api/schemas.py:17`), and DE
  22 is built from all of it but parsed as two bytes. An entry mode keeps all RRNs apart if and only if it takes exactly
  two bytes (`KeptApartExact`), which for hex digits means at most four of them (`AlignedExact`). With 27 digits or more
  any two RRNs are one (`AnyTwoAreOne`); `SameRrnExact` says for any two purchases whether they are read under one RRN,
  and `DistinctRrnsAreNotEnough` shows it for "05123" and "00003F".
- That no two payments are encrypted under one serial number. The counter is loaded, stored and read again without a
  lock (`security/mock_hsm.py:73-74`): `BothRead` is a run in which two calls are given the same, and
  `SerialsDistinctExact` says that it takes a store by one call between the load and the read of another.
- That a message length fits the 2-byte header. LLLVAR values may have 9,999 characters; `FrameAllExact` says when it
  does, and `HeaderOverflows` gives a message for which it does not.
- That every source row reaches the warehouse. A row with a timestamp of its own is read if and only if it is newer than
  the watermark when it turns up (`ReadExact`; `LateRow` is one that is not), and of rows that share a timestamp those
  that do not fit on the page are never read (`TiedRow`).



## Model

| member | source | states |
|---|---|---|
| Bcd.RoundTripExact | iso8583/parser.py:25-35 | packing and unpacking a text gives it back if and only if it is upper-case hex digits, of odd or even length |
| Bcd.PackedExact | iso8583/parser.py:25-35 | byte i holds digit 2i in its high half and digit 2i+1 in its low half, F after an odd last digit |
| Bitmap.RoundTripExact | iso8583/parser.py:257-286 | for every set of element numbers: reading the built bitmap gives the set back if and only if it lies within 2..128; it takes 16 bytes if and only if an element exceeds 64, else 8 |
| Bitmap.BuiltExact | iso8583/parser.py:251-267 | element n has a bit of its own, counted from the top of the first byte; the first bit of all says whether there is a second half |
| Bitmap.ReadBuilt | iso8583/parser.py:270-286 | wherever a built bitmap stands in a message, the elements come back in ascending order with its length |
| Bitmap.BitmapUnique | iso8583/parser.py:257-267 | one byte string only announces a given set of elements |
| Bitmap.SetBit | iso8583/parser.py:251-254 | sets exactly the element's bit in place, or raises for a number beyond the array |
| Bitmap.BuildBitmap | iso8583/parser.py:257-267 | the loop over the elements, in any order, yields the bitmap of the set |
| Bitmap.ReadBitmap | iso8583/parser.py:270-286 | the loop over the bits yields the announced elements |
| Codec.FieldRoundTripExact | iso8583/parser.py:299-317 | for every element layout and value: the value arrives in canonical form among any surrounding bytes if and only if it fits the layout |
| Codec.RoundTrip | iso8583/parser.py:293-376 | for every well-formed field map and any bytes before and after, parsing returns the MTI, the canonical map and exactly the built length |
| Codec.RoundTripExact | iso8583/parser.py:293-376 | a message is delivered in canonical form if and only if its MTI and every element fit; for any catalogue |
| Codec.CanonicalIsStable | iso8583/parser.py:322-376 | a parsed message can be sent on and arrives unchanged |
| Codec.RebuildExact | iso8583/parser.py:293-376 | rebuilding a parsed message gives identical bytes if and only if no text element had trailing white space other than spaces |
| Codec.MessageLengthExact | iso8583/parser.py:293-319 | every message that the catalogue carries, whatever its lengths, takes exactly the bytes of MTI, bitmap, length prefixes and values |
| Codec.BuildMessage | iso8583/parser.py:293-319 | the loop that appends elements computes the built message, or raises exactly when it is undefined |
| Codec.ParseMessage | iso8583/parser.py:322-376 | the loop over the announced elements computes the parsed message and its length |
| WireFormat.BuiltExact | iso8583/parser.py:293-319 | a built message is its type in two bytes, the bitmap in eight or sixteen, and then the elements in ascending order, without gaps, to the end |
| WireFormat.ElementExact | iso8583/parser.py:305-317 | every byte of an element that fits: fixed numbers packed with zeros in front, fixed text with blanks behind, variable ones after their length in one packed byte or two |
| WireFormat.CanonicalExact | iso8583/parser.py:322-376 | what a receiver makes of a value: numbers with their zeros, octets with their filling, text without the white space at its end |
| Framing.StreamDelivers | switch/framing.py:29-39 | any list of messages framed onto one stream, and then cut off anywhere in a frame, is delivered message by message, each as it is parsed alone, up to the first that cannot be parsed |
| Framing.StreamRoundTrip | switch/framing.py:29-39 | messages that the catalogue carries are delivered in order in canonical form |
| Framing.HeaderExact | switch/framing.py:36-39 | the default header is the length, high byte first |
| Framing.FrameAllExact | switch/framing.py:36-39 | a list of messages can be framed if and only if the length of each is below 256 to the number of header bytes |
| Framing.HeaderOverflows | iso8583/parser.py:314-317 | a message that the catalogue carries and that the default header cannot frame |
| Framing.ReadExact | switch/framing.py:14-26 | under every split into short reads: exactly the next bytes, or an error once the peer closes early; terminates |
| Framing.ReadFramedMessage | switch/framing.py:29-33 | the next frame and the rest of the stream, whatever the split |
| Framing.WriteFramedMessage | switch/framing.py:36-39 | a whole frame exactly when it fits the header and the socket does not fail; a failing socket takes less than the frame, and nothing after it |
| Framing.ReceiveLoop | switch/client.py:115-131 | hands on every message of the stream, in order, until it ends or one cannot be parsed |
| Framing.Socket.Recv | switch/framing.py:20-26 | any non-empty part of what is still to come, at most as long as asked for |
| MessageFile.FileReads | iso8583/parser.py:477-515 | a length-prefixed file of any messages reads back each as it is parsed alone, and to its end if and only if all can be parsed |
| MessageFile.FileRoundTrip | iso8583/parser.py:477-515 | a length-prefixed file of carried messages reads back in order in canonical form, to its end |
| MessageFile.UnframedFile | iso8583/parser.py:487-496 | without prefixes only the first message comes back, whatever follows it |
| MessageFile.WrittenIsFramed | iso8583/parser.py:508-515 | with prefixes, writing ends well if and only if every message can be framed, and the file is then the framed list |
| MessageFile.UnframedRoundTrip | iso8583/parser.py:487-515 | any list of carried messages is written without prefixes, and reading it back gives the first alone |
| MessageFile.IterMessages | iso8583/parser.py:477-505 | the reading loop yields what the file holds and says whether it stopped with an exception |
| MessageFile.WriteMessages | iso8583/parser.py:508-515 | the writing loop, with and without prefixes, leaves what it promises in the file even when it raises halfway |
| PinBlock.RoundTripExact | security/pin_block.py:12-46 | section 9.3.2 of ISO 9564-1:2011: the PIN is recovered if and only if it is at most 14 upper-case hex digits and the account digits are hexadecimal |
| PinBlock.PanFieldExact | security/pin_block.py:23-30 | the account field is four zeros and the twelve digits before the check digit, with zeros for those a short number lacks |
| PinBlock.PinFieldExact | security/pin_block.py:12-21 | the PIN field is a zero, the length, the PIN, and F to the end |
| PinBlock.BlockExact | security/pin_block.py:33-37 | byte by byte, the block is the PIN field XORed with the account field |
| PinBlock.BlocksDifferByCard | security/pin_block.py:23-37 | one PIN gives two cards the same block if and only if the twelve digits before their check digits agree |
| MockHsm.DecryptedPin | security/mock_hsm.py:76-103 | for every base key, serial number and card, decrypting gives a block from which the PIN is recovered if and only if it is at most 14 upper-case hex digits |
| MockHsm.EncryptedExact | security/mock_hsm.py:76-103 | what travels is the block XORed with the first bytes of the HMAC of the serial number |
| MockHsm.Hsm.NextKsn | security/mock_hsm.py:71-74 | never gives a serial number given before |
| MockHsm.Hsm.EncryptPinBlock | security/mock_hsm.py:85-95 | spends one new serial number even when it raises, and decrypting under it gives the block back |
| MockHsm.KsnDistinct | security/mock_hsm.py:71-74 | two draws have the same text if and only if they are the same draw |
| MockHsm.KsnExact | security/mock_hsm.py:71-74 | the text of a serial number is the number in at least ten digits |
| Serials.StepKeeps | security/mock_hsm.py:71-74 | every load, store and read of the counter, by any number of calls, keeps the account of stores, numbers given and disturbances |
| Serials.DistinctExact | security/mock_hsm.py:71-74 | undisturbed calls are given different numbers; when all have theirs, all differ if and only if none stored between the load and the read of another |
| Serials.TwoShareExact | security/mock_hsm.py:71-74 | of two calls alone: they are given one number if and only if one was disturbed by the other |
| Serials.BothRead | security/mock_hsm.py:71-74 | a run in which both calls store before either reads, and both are given number two |
| Client.ISO8583Client.NextStan | switch/client.py:93-95 | the n-th draw is n modulo 1,000,000 in six digits |
| Client.ISO8583Client.SendMessage | switch/client.py:97-105 | writes if and only if connected, buildable, short enough and not let down by the socket; the wire always holds the framed list of what was written, and at most a part of one frame after it; it may raise after writing only through a logger with a file |
| Client.ISO8583Client.SignOn | switch/client.py:107-108 | spends the next STAN, and writes an 0800 with it if and only if connected, with a header to put its length in, and not let down by the socket; raising after a write is the logger's doing |
| Client.ISO8583Client.RunConnection | switch/client.py:63-89 | whatever other threads draw and send meanwhile: signs on with the next STAN (always over a reliable socket), delivers in order what the peer sends (all of it unless the logger raises), and clears the connected flag however the round ends |
| Client.PeerReceives | switch/client.py:97-105 | the peer is handed exactly the messages sent on the connection, in order, each as its parser makes it out |
| HostSwitch.TransmitCarried | switch/host_simulator.py:94-114 | what the switch parses of a message that the catalogue carries is its canonical form |
| HostSwitch.ResponseExact | switch/host_simulator.py:132-151 | which messages are answered, with which type, STAN, code, approval number and RRN |
| HostSwitch.ResponseCarried | switch/host_simulator.py:132-151 | every answer of the switch to a message whose STAN, RRN and network code it has parsed is itself carried unchanged |
| HostSwitch.AnswerArrives | switch/host_simulator.py:132-151 | the answer to any legible message arrives as it was sent, with the STAN of what it answers |
| Reversal.ReversalCarried | correlation/reversal.py:16-30 | a reversal arrives intact and its DE 90 starts with the original MTI and STAN |
| Correlation.StepKeeps | correlation/tracker.py:45-92 | every step of callers, senders, switch, network and dispatching threads keeps the invariant of the correlation layer |
| Correlation.StepExtends | correlation/tracker.py:45-92 | no step changes a call's identity or result, or undoes a message written or answered |
| Correlation.LookupFindsCaller | correlation/tracker.py:45-54 | the pending request found under an answer's STAN is that of the call whose message was answered |
| Handover.LookupExact | correlation/tracker.py:45-58 | an answer is matched if and only if its STAN is pending, and then to the request pending under it |
| Handover.PhaseExact | correlation/tracker.py:45-73 | whatever happens while a call waits, the answer to it goes from received to matched to response set to event set, and no step but the loss of a reply that was not looked up yet takes it away |
| Handover.WakesWithAnswer | correlation/tracker.py:72-83 | once its event is set a call can only wake, and returns the switch's answer to its own message |
| Handover.CanBeAnswered | correlation/tracker.py:45-87 | from every state in which the answer to a waiting call has arrived, the call can come to return it |
| Handover.CanSend | correlation/tracker.py:60-71 | a call that has drawn its STAN can register, and write a legible message |
| Handover.CanReverseIt | correlation/tracker.py:75-92 | a call that has given up can draw a STAN and write its reversal |
| Handover.ReversalExact | correlation/tracker.py:89-92 | a reversal is written under its own draw and names the call's type and STAN, followed by 32 zeros, or it is not written |
| Handover.OthersUntouched | correlation/tracker.py:45-92 | a step leaves every call but the one it is about as it was |
| Answers.PendingIsExact | correlation/tracker.py:67-87 | in every reachable state the pending keys are exactly the STANs of registered, unfinished calls, and no two of those share a STAN |
| Answers.ResponseIsOwn | correlation/tracker.py:60-87 | a returned response is never null and is the switch's answer to that call's own message as the switch read it; for an 0200 an 0210 with its STAN |
| Answers.ReversalExactlyOnTimeout | correlation/tracker.py:75-92 | TransactionTimeout means exactly one 0400 was written, whose DE 90 as parsed starts with the call's MTI and STAN; any other end means none was, unless the logger with a file raised over the 0400 |
| Answers.SendErrorExact | switch/transport.py:127-132 | after a send error the request had been written if and only if it was the reversal that failed to go out, or the logger that raised after a write; without a log file, if and only if a STAN had been drawn for a reversal |
| Transport.FillFields | switch/transport.py:102-117 | the dictionary filled in place is the request's field map |
| Transport.CarriedExact | switch/transport.py:102-120 | a request reaches the switch intact if and only if each value fits its element |
| Transport.SwitchReads | switch/transport.py:102-117 | card, codes, RRN and account as the switch parses them are those of the request |
| Transport.AmountFitsExact | api/routes/transactions.py:57-59 | an amount fits DE 4 if and only if it is below 10^12 cents |
| Transport.SwitchReadsCents | api/routes/transactions.py:57-59 | the switch reads the exact cents in DE 4 |
| Transport.PinArrives | switch/transport.py:110-115 | the DE 52 parsed from the built message decrypts under the KSN to the PIN that was typed, if and only if that is at most 14 upper-case hex digits |
| Transport.OutcomeIsOwn | switch/transport.py:119-142 | for any request: approved and declined are the switch's own answer to it, under its STAN and the RRN the switch read of it; unknown if and only if no answer came; reversal_sent if and only if the wait timed out |
| Transport.AnswerIsTold | switch/transport.py:119-142 | for every request that fits and every response code there is a run in which the caller is told that code: approved for "00", else declined, with approval number, STAN and RRN |
| Transport.TimeoutIsTold | switch/transport.py:121-126 | and one in which the wait runs out, the reversal is written and the caller is told unknown with a reversal sent |
| Transport.UnknownAfterApproval | switch/transport.py:127-132 | for every request there is a run that reports unknown without a reversal although the switch approved |
| Transport.UnknownAfterLogError | switch/client.py:97-105 | for every request there is a run in which logging the written request raises: it reports unknown although the switch approved |
| Idempotency.InMemoryIdempotencyStore.Claim | cache/idempotency_store.py:68-83 | is the atomic claim on the unexpired entries |
| Idempotency.InMemoryIdempotencyStore.StoreResponse | cache/idempotency_store.py:85-88 | is the atomic store on the entries |
| Idempotency.InMemoryIdempotencyStore.PruneExpired | cache/idempotency_store.py:62-66 | leaves exactly the entries not older than the time to live |
| Idempotency.ClaimExact | cache/idempotency_store.py:68-83 | a claim takes a free key, and otherwise changes nothing and says what the key holds |
| Expiry.MemoryExact | cache/idempotency_store.py:62-88 | in any history a claim is new if and only if no new claim of its key still stands; otherwise it is told mismatch, the last response stored since that claim, or in progress |
| RedisStore.Linearizable | cache/idempotency_store.py:113-140 | within one TTL every interleaving of the three commands of any number of claims, and of stores, is equivalent to atomic operations in some order: exactly the clients' own operations, each once, with the same answers, the same store and one new claim a key |
| RedisStore.NewExact | cache/idempotency_store.py:113-140 | in that order a claim is new if and only if it is the first of its key |
| RedisStore.LaterExact | cache/idempotency_store.py:113-140 | a later one is told mismatch if and only if its hash is not the first claim's, else the last response stored since, or in progress |
| RedisStore.ClaimsAlone | cache/idempotency_store.py:113-137 | a client that is not interrupted has its answer after at most three commands |
| RedisStore.NextSettlesOne | cache/idempotency_store.py:113-140 | that order is one of real time: a command settles at most one operation, and one that is under way |
| Expiry.AgreeExact | cache/idempotency_store.py:54-140 | in any history of claims and stores in time order a claim gets the same answer from both stores if and only if it does not repeat a standing claim and find a live response stored before that claim; otherwise Redis replays that response and memory says in progress |
| Expiry.StoresAgreeExact | cache/idempotency_store.py:54-140 | the two stores answer a whole history alike if and only if no claim in it finds such a response |
| Expiry.ReplayExact | cache/idempotency_store.py:113-140 | histories on which they part, with the response stored in time or after its own claim had lapsed, and exactly for how long |
| Velocity.InMemoryVelocityTracker.RecordAndCountRecent | cache/velocity_tracker.py:34-41 | with readings in order and a fixed window, the pruned list counts the card's whole history at or after the cutoff |
| Velocity.RecentExact | cache/velocity_tracker.py:38-41 | the number kept is the number of attempts at or after the cutoff |
| Velocity.PrunedCountExact | cache/velocity_tracker.py:38-41 | a list pruned earlier counts right if and only if no attempt lies between the two cutoffs |
| Velocity.RedisCounts | cache/velocity_tracker.py:51-62 | the sorted set counts exactly the attempts of the whole history strictly after the cutoff, expiry included |
| Velocity.TrackersAgreeExact | cache/velocity_tracker.py:40-58 | the two trackers agree if and only if no attempt sits on the cutoff |
| Velocity.OnTheCutoff | cache/velocity_tracker.py:40-58 | an attempt on the cutoff, whenever it was, is counted in memory and not on Redis |
| Risk.RiskEngine.Evaluate | risk/rules.py:62-86 | for any clock readings: decline if and only if the tracker's count or the amount is over its decline threshold, review if and only if not that and one is over its review threshold or a manual entry over its own; with readings in order the count is over the history |
| Risk.ApprovedExact | risk/rules.py:72-86 | approved if and only if count and amount are within both thresholds and manual entry is not over its own |
| Risk.VerdictExact | risk/rules.py:72-86 | the same of the rules themselves, for any count, amount and entry mode |
| Risk.WindowBound | risk/rules.py:62-86 | in any closed window at most min(review, decline) evaluations of a card are approved, with a total of at most that many times min(amount_review, amount_decline) |
| Ledger.Connection.RecordPurchase | ledger/service.py:41-65 | three inserts and a rollback are one atomic recording: a known RRN changes nothing, and a recording adds the transaction, a debit and a credit |
| Ledger.RecordKeepsBooks | ledger/service.py:41-65 | a duplicate RRN or an unknown account changes nothing, and recording happens if and only if neither is the case |
| Ledger.RecordPosts | ledger/service.py:43-55 | a recording adds one debit of the payer and one credit of the payee, of its amount, and touches no other RRN's entries |
| Ledger.BalanceMoves | ledger/service.py:43-80 | it takes the amount from the payer's balance and gives it to the payee's, and no other balance moves |
| Ledger.RunKeepsBooks | ledger/service.py:20-65 | any sequence of calls keeps one debit and one credit a transaction, no orphans and balance, and never alters a recorded transaction |
| Ledger.RunConservesMoney | ledger/service.py:68-98 | after any sequence of calls debits equal credits and all account balances sum to zero |
| EntryModes.PurchaseRead | iso8583/parser.py:305-307 | every purchase that is built, whatever its entry mode, is legible, and card, code, amount and STAN are read as sent; DE 37 is read as the twelve bytes that follow the first two of DE 22 |
| EntryModes.AlignedRead | iso8583/parser.py:305-307 | when DE 22 takes its two bytes everything else is read whole, and the RRN is the caller's own |
| EntryModes.NotBuilt | iso8583/parser.py:305-307 | an entry mode that cannot be packed lets no message be built |
| RrnCollisions.AlignedExact | iso8583/parser.py:305-307 | hex digits take the two bytes of DE 22 if and only if there are at most four |
| RrnCollisions.OwnRrnExact | iso8583/parser.py:305-307 | the switch reads the caller's own RRN if and only if shifting it by what is left over of the entry mode changes nothing |
| RrnCollisions.SameRrnExact | iso8583/parser.py:305-307 | two purchases, whatever their entry modes, are read under one RRN if and only if what is left over of them followed by the RRNs agrees in twelve places; with the same left over, if and only if the RRNs share as many digits as there is room for |
| RrnCollisions.KeptApartExact | api/schemas.py:17 | an entry mode keeps a purchase apart from those with any other RRN if and only if it takes exactly two bytes |
| RrnCollisions.AnyTwoAreOne | api/schemas.py:17 | with an entry mode of 27 hex digits or more any two RRNs are one |
| RrnCollisions.DistinctRrnsAreNotEnough | api/schemas.py:17 | under "05123" and "00003F" RRNs that share eleven digits are one, a question mark and those digits |
| RrnCollisions.ConfirmedAsRead | switch/transport.py:119-142 | the switch approves such a purchase under the RRN it has read, and the client takes that for its own |
| Saga.RrnCollisionExact | api/routes/transactions.py:61-62 | an RRN is 12 digits, and two are equal if and only if second modulo 10^10 and random number are |
| Saga.RrnExact | api/routes/transactions.py:61-62 | ten digits of the second and two of the random number |
| Payments.StepKeeps | api/routes/transactions.py:65-186 | every step of every purchase or transfer, whatever the HSM, the transport and the RRN generator do, keeps the invariant of keys, logs and calls |
| RiskGate.SentWindowBound | risk/rules.py:62-86 | in any closed window at most min(review, decline) payments evaluated in it for a card ever reach the transport, with a total of at most that many times min(amount_review, amount_decline) |
| Saga.StepKeeps | api/routes/transactions.py:65-186 | joined to the network and the switch, every step keeps the invariant of requests, answers, RRNs and ledger |
| Saga.CoreReachable | api/routes/transactions.py:65-186 | every run over the built-in transport is a run of the payment machine, so whatever holds of all its runs holds here |
| Saga.SendIsFirst | api/routes/transactions.py:117-134 | a call about to send has not sent before, and neither has any other with its key |
| CallSteps.AssessStep | api/routes/transactions.py:105-115 | which counts, amounts and entry modes end in decline or review, and which let the payment go on |
| CallSteps.NeverStuck | api/routes/transactions.py:65-186 | a call that has not ended can always take a next step of its own |
| Guarantees.AtMostOnce | api/routes/transactions.py:74-167 | in every interleaving, whatever the transport, each idempotency key reaches authorize at most once and record_purchase at most once |
| Guarantees.SameBody | api/routes/transactions.py:74-81 | all calls that get a body for one key get the same body and have sent the same request hash |
| Guarantees.KeyAnsweredExact | cache/idempotency_store.py:68-88 | a claimed key answers a repeated call if and only if its winner returned a body and the hashes agree; a winner that was refused or crashed leaves it in progress |
| Guarantees.PartiesAsOrdered | api/routes/transactions.py:82-103 | the payer of what is sent is the account of the card, or the account named, and the caller's own; the payee is that of the merchant for a purchase and of the recipient named for a transfer |
| Guarantees.RefusalExplained | api/routes/transactions.py:75-103 | 400 goes to calls that lost the key with another hash, 409 to those with the same, 404 to unknown parties, 403 to other users' cards, and nothing had been sent |
| Guarantees.BodySaysHowFar | api/routes/transactions.py:105-186 | an answered key has reached record_purchase if and only if the answer says approved, and authorize if and only if the risk gate did not stop it |
| Guarantees.StopExplained | api/routes/transactions.py:105-115 | a call the risk gate stopped sent nothing and was told decline or review as the thresholds say of its amount, its entry mode and, with readings in order, the number of the card's attempts in the window |
| Guarantees.OnlyClearedPaymentsSent | api/routes/transactions.py:101-134 | only payments from the caller's own account and within the amount limits reach the transport |
| Guarantees.BooksBalance | ledger/service.py:68-98 | after any run the books are valid and all account balances sum to zero |
| Guarantees.SeenAsOrdered | api/routes/transactions.py:285-296 | the switch sees card, processing code and a two-digit entry mode as ordered; currency, RRN and for a transfer the recipient's account too when the entry mode takes two bytes |
| Guarantees.PinReachesSwitch | api/routes/transactions.py:117-134 | from any payment written with an entry mode of two bytes, the switch recovers the PIN typed if and only if it is at most 14 upper-case hex digits |
| Guarantees.SerialsDistinctExact | security/mock_hsm.py:71-95 | in every interleaving of payments no two are encrypted under one serial number while no draw is disturbed; once all that drew have encrypted, if and only if none was |
| Guarantees.LedgerIsApproved | api/routes/transactions.py:155-167 | with any entry modes: each ledger transaction has the RRN, as the switch read it, and the exact cents of exactly one 0200 the switch approved, with one debit of the account of the card, which is the orderer's, and one credit of the merchant's or the recipient's |
| Guarantees.OnlyApprovalsPost | api/routes/transactions.py:112-186 | a body says approved if and only if the RRN that the switch read of the payment is in the ledger, and then names that RRN |
| Guarantees.UnknownMeansUnanswered | api/routes/transactions.py:136-153 | unknown if and only if no answer was handed over; declined only if the switch declined |
| Guarantees.MissingExact | ops/reconciliation.py:34-67 | once all calls have ended, an approved RRN is missing from the ledger if and only if its call ended unknown or crashed before posting |
| Guarantees.Reconciles | ops/reconciliation.py:34-67 | against the switch's settlement nothing is ledger-only and no amount differs; at quiescence settlement-only is exactly the lost approvals, and the report is clean if and only if none was lost |
| Completion.CanBePaid | api/routes/transactions.py:65-186 | for every order in good standing, every RRN and every response code there is a run that ends with the caller told approved and the ledger holding the debit and the credit, or told declined and the ledger empty |
| Reconciliation.Reconcile | ops/reconciliation.py:34-67 | the loop places every RRN of the union in sorted order, and is clean if and only if the two maps are equal |
| Reconciliation.ExactlyOneList | ops/reconciliation.py:44-67 | every RRN of either side is in exactly one of the four lists |
| Reconciliation.ListsExact | ops/reconciliation.py:44-67 | which RRNs and amounts each list holds, sorted |
| Reconciliation.ByRrnExact | ops/reconciliation.py:38-42 | an RRN of the file has the amount of its last entry |
| Reconciliation.CleanExact | ops/reconciliation.py:22-23 | is_clean if and only if both sides agree on every RRN and amount |
| Reconciliation.TotalsReconcile | ops/reconciliation.py:34-67 | ledger total minus settlement total is ledger-only minus settlement-only plus the differences of the mismatches |
| Warehouse.FinalOfCopies | analytics/warehouse.py:49-75 | FINAL shows every row once however often it was inserted |
| Warehouse.VolumeOfSameRows | analytics/warehouse.py:99-126 | the daily aggregate depends on the inserted rows only, not on their order |
| Warehouse.VolumeExact | analytics/warehouse.py:109-117 | the aggregate of a day and account is the number, and the sum, of exactly the inserts with a timestamp on that day and that account as the one debited |
| Sync.PageAdvances | analytics/sync_to_warehouse.py:63-105 | moving the watermark to the end of a page covers exactly that page more |
| Sync.LateRowNeverRead | analytics/sync_to_warehouse.py:63-105 | over any number of pages and runs, with rows turning up in any order, a row at or below the watermark of one reading is in no page from then on |
| Sync.ReadExact | analytics/sync_to_warehouse.py:63-105 | over any number of pages and runs that end with a short page, a row with a timestamp of its own is read if and only if it was newer than the watermark of the first reading that could see it |
| Sync.LateRow | analytics/sync_to_warehouse.py:86-89 | a history with a row that turns up behind the watermark and is never read |
| Sync.TiedRow | analytics/sync_to_warehouse.py:86-89 | a history with two rows of one timestamp, one of which is new when it turns up and never read |
| Sync.RecordsJoin | analytics/sync_to_warehouse.py:108-152 | the readings of one run and of the next, one after the other, are a history again |
| Sync.PageIsPage | analytics/sync_to_warehouse.py:86-89 | the page taken of an ordered source is a page as the query defines it: the earliest newer rows, up to the limit |
| Sync.CoveredExact | analytics/sync_to_warehouse.py:63-105 | what the watermark covers is the first part of the source: the rows at or below it |
| Sync.CoveredIsLoaded | analytics/sync_to_warehouse.py:118-138 | every source row at or below the watermark is in the fact table, and nothing but source rows is |
| Sync.AggregateExact | analytics/warehouse.py:109-126 | the aggregate of a day and account counts, and adds up, the covered rows of that day debited from it plus exactly those that interrupted batches inserted |
| Sync.InsertedOnce | analytics/sync_to_warehouse.py:118-138 | with no interruption so far each covered row has been inserted exactly once |
| Sync.Job.LoadTransactions | analytics/warehouse.py:207-235 | however it ends a prefix of the rows is in, all of them if it returns, which it does when no insert fails |
| Sync.Job.SetWatermark | analytics/warehouse.py:200-205 | the watermark row is written, or the call fails with or without it; undisturbed it is written |
| Sync.Job.LoadPage | analytics/sync_to_warehouse.py:129-134 | a page is loaded and the watermark moved to its end, or interrupted: then a prefix of it is inserted and the watermark has not moved |
| Sync.Job.Run | analytics/sync_to_warehouse.py:108-152 | a run, killed anywhere or not, keeps the invariant, never lowers the watermark, and its readings are a history of pages over a growing source, the last of them short on a clean end; a clean end leaves FINAL equal to the source as last read, and comes about whenever nothing interferes; it terminates once arrivals stop |

## Left out

- The SOAP transport (`switch/transport.py:158-260`, `switch/soap_client.py`): the service behind it is not visible.
- Floats: amounts start as integer cents, after `round(amount * 100)`; clock readings of the velocity trackers are reals.
- FastAPI, pydantic, JWT, user registration, the balance endpoint, audit masking and the lookup tables.
- KMS, AES-GCM and HMAC internals: the HMAC is any function with 32-byte results.
- `reset_ledger` and `clear_all`: runs contain neither.
- Expiry inside the payment machine: its store is the atomic one; what expiry adds is in `Idempotency` and `Expiry`.
- Kinds of exceptions: an operation that raises returns `None`, `false` or a failed send, without its message.
- Texts: response reasons and response-code meanings; a body's reason is not part of `Body`.
- Sockets, threads, `select`, reconnect timing and the heartbeat's schedule: any number of network messages at any time.
- A socket whose `sendall` has raised takes nothing more; in the correlation machine the part of a frame it took before is not a message.
- Messages that are not legible are never written in the correlation machine. `Saga` leaves out requests that are built although a value other than a purchase's entry mode does not fit: an amount of 10^12 cents, a card number with lower-case hex letters, an account identifier of 100 characters.
- Element numbers below 1, which `build_bitmap` would index from the end of the array, and `int()` accepting signs, spaces and underscores.
- Parsing of arbitrary malformed bytes beyond what raises; the claims are about built messages.
- Expiry.AgreeExact: each operation reads the clock once, and both stores read the same clock; times are whole units.
- Risk.RiskEngine.Evaluate: with readings out of order the count is the tracker's own, over what it had kept.
- Guarantees.LedgerIsApproved: over the steps of `Saga`, so with RRNs that the switch reads for the first time and the STAN window; without the former it is false (`RrnCollisionExact`, `DistinctRrnsAreNotEnough`).
- Sync.ReadExact: of rows that share a timestamp it says nothing; `TiedRow` shows that they need not be read.
- Sync.Job.Run: one job at a time, pages of at least one row, a warehouse clock that does not go back, inserts that are taken whole or not at all; timestamps are numbers, where the code compares their text.
- Answers.ResponseIsOwn: assumes the STAN window and an atomic draw, which the code does not enforce.
- ClickHouse partitions and TTL, SQLite durability and locking, the JSON round trip of stored responses.
