# Verified models of the Open5GS protocol layers

A Dafny 4.11 project that models four parts of the repository, in the form they are written in, and proves what they
are for. `dafny verify dfyconfig.toml` checks all of it.

**GTPv2-C transactions** (`lib/gtp/xact.c`, section 7.6 of TS 29.274). `GtpXact` holds the code's own form: a class
`Transaction` and a class `Layer` with pool, node lists, clock and timers, updated in place. Every method is proved
against a function of `GtpXactModel`. Properties are proved about those functions: `GtpXactInvariant` (what every step
keeps), `GtpXactSteps` (single operations, and exactly when they reach a failing assertion), `GtpXactRuns` (whole runs
of a peer: history, retransmission, giving up), `GtpXactLaws` (what each operation does, in records, numbers and
positions), `GtpXactTables` (identifiers, routing, ownership), `GtpXactExchange`
(two peers and a network that loses, repeats, reorders and delays, for exchanges of two and of three messages),
`GtpXactTight` (the bound on the delay is exact, and so is the condition on late copies), `GtpXactTriggered` (the other
direction: what the sender of a command makes of the request it triggers) and `GtpXactWitness` (runs from the initial
state that reach the failures the other modules speak of).

**TLV messages driven by descriptor trees** (`lib/gtp/tlv.c`). `TlvPrinter` and `TlvParser` work on a message struct in
memory, an array with one cell for each byte offset, with the loops and running offsets of the code; the printer swaps
integers in place in the message it prints. `TlvModel` says what they compute, and `TlvAfter` what a parse leaves in
memory, also where it fails. `TlvRoundTrip`, `TlvPrintable`, `TlvSize`, `TlvOffsets` and `TlvOrder` prove the round trip,
when a message can be built, exactly which messages come back, that both sides agree on every offset, and that the
order of TLVs does not matter; `TlvLaws` says octet by octet and cell by cell what printing and parsing do.

**NAS bit rates, tracking area lists and messages** (`lib/nas`). `NasBitRate` proves the rate octets to be the best
lower approximation; `NasTaiList` and `NasTaiDecode` prove what a receiver reads from a built list, and `NasTaiConfig`
what it reads of a configuration (`src/mme/mme-context.c`); `NasCodec` proves
the codec for any table of elements; `NasReject` says what decoder and encoder of ATTACH REJECT do to the octets of its
struct, and exactly when that is the codec; `NasAttachReject` is the code in a packet buffer, and `NasEmm` the header
and the accounting around it.

**GTP information elements** (`lib/gtp/types.c`). `GtpLocation` (user location, bearer QoS) and `GtpTft` (traffic flow
templates), with a running size in a buffer (`GtpBuffer`).

A failing `ogs_assert` or `ogs_assert_if_reached` is the outcome `Abort` (in the TLV parser `Fatal`). Receivers that the
repository does not contain are written from the standards: the rate decoder (sections 9.9.4.2 and 9.9.4.3 of
TS 24.301), the list decoder (section 9.9.3.33 of TS 24.301) and the template parser (section 10.5.6.12 of TS 24.008).

## What turned out

- Copies of a request that arrive after the responder has received the final message of the exchange apart, a request is
  delivered at most once in every run if and only if copies are delayed by at most T3 less twice the lateness of the
  sender's timers (or do not arrive at all): `GtpXactTight.AtMostOnceIff`, with a run that delivers twice for every
  larger delay.
- In an exchange of three messages it is the responder that goes early: it commits on the final message and forgets the
  command. With the delay bounded as above, a run delivers a request twice if and only if a copy arrives after the final
  message (`GtpXactTight.TwiceAcceptedIff`); for any delay at all there is a run from the start in which a command is
  taken in twice (`GtpXactWitness.CommandTakenTwice`). A copy between the final message and the commit is fatal
  (`GtpXactExchange.ClosedCopyAborts`). Without a flagged identifier there is no such message
  (`GtpXactTight.UnflaggedAtMostOnce`).
- The request that a command triggers is accepted at most once, for every delay (`GtpXactTriggered.TriggeredAtMostOnce`).
  A copy of it is fatal if and only if the transaction of the command is gone or has taken in one of another type, and it
  is not gone before its retries are used up or, once the request is taken in, its holding time is over, unless the
  application removes the node (`GtpXactTriggered.TriggeredFatalIff`).
- A final response that arrives a second time is fatal, before and after its transaction is committed
  (`GtpXactSteps.RepeatedResponseAborts`, reached in `GtpXactWitness.RepeatedResponseHappens`);
  `GtpXactSteps.ReceiveSurvivesIff` says exactly when receiving is not.
- The failure indication that answers a command with a flagged identifier is looked up among the transactions of the
  other side, so it never reaches the one that waits (`GtpXactTables.FlaggedFailureIndicationIsLost`);
  `GtpXactTables.FindsOtherEndIff` says exactly which messages are routed right, and
  `GtpXactWitness.FailureIndicationHappens` is a run of both peers from the start after which the refusal is under
  way and fatal to the sender of the command.
- Deassociating two transactions that are not each other's partners breaks the matching
  (`GtpXactSteps.DeassociateKeepsMatchingIff`).
- Rates are the best lower approximation exactly below 65280 Mbps; above, the code does not saturate but wraps modulo 256 Mbps
  (`NasBitRate.BestIff`, `NasBitRate.NotMonotoneAtTop`).
- A list of type 1 with several identities is laid out like type 2, so a receiver cannot read it
  (`NasTaiDecode.DeliveredIff`).
- Building a list from sixteen entries reads a seventeenth if and only if all sixteen are valid and have one code each:
  together they fill the buffer to the last octet (`NasTaiDecode.ReadsPastIff`).
- Neither of the two can be configured: areas with one code go to the last entry, which has type 1 for a single identity
  only. Whatever is configured, building does not read past the array and what is built is read as it was configured
  (`NasTaiConfig.LoadedIsDelivered`). An area with sixteen codes can be configured, and is fatal when its entry is reached.
- The timers of an ATTACH REJECT are a length and one octet, but as many octets are copied as the length says. A timer
  comes back, and leaves the other fields alone, if and only if its length is at most one (`NasReject.TimerLengthIff`);
  what is sent depends on the message alone if and only if that holds of its timers (`NasReject.TimerSentIff`).
- Message containers come back exactly up to 65533 octets, where the 16-bit size of the element wraps
  (`NasEmm.ContainerLengthIff`), and the decoder gives the buffer of an ATTACH REJECT back exactly below 65536 octets
  (`NasEmm.EmmMessage.Decode`). Buffers have `OGS_MAX_SDU_LEN` octets, which is not defined in the repository, so whether
  inputs of that length occur is open.
- 16-bit signed TLV fields can be parsed but not printed (`TlvPrintable.BuildsIff`).
- A TLV message comes back from building and parsing as it was if and only if it is not empty, everything in it can be
  printed, nothing stands where printing does not look, and every field has less than 65536 octets: a longer one never
  comes back, however its octets are read (`TlvSize.ComesBackIff`).

## Model

| member | source | states |
|---|---|---|
| GtpXact.Transaction.constructor | lib/gtp/xact.c:83-99 | a new transaction is at step 0 with empty history, idle timers and full retry counts |
| GtpXact.Transaction.UpdateTx | lib/gtp/xact.c:162-235 | the packet goes under its header into the slot of the step, with the TEID, type, length and sequence number of the code and the octets of the caller, or the call fails exactly where an assertion on stage and step does |
| GtpXact.Transaction.UpdateRx | lib/gtp/xact.c:237-381 | accept, or recognise a repeat and name the answer to send again; all three switches, and which timers change |
| GtpXact.Transaction.PrepareCommit | lib/gtp/xact.c:384-466 | what a commit does: send the last packet, with or without arming the response timer, or drop the transaction |
| GtpXact.Layer.constructor | lib/gtp/xact.c:50-62 | an initialised peer satisfies the invariant |
| GtpXact.Layer.Register | lib/gtp/xact.c:86-104 | the first free pool slot is taken and the transaction goes to the end of its list; nothing else changes |
| GtpXact.Layer.NewLocal | lib/gtp/xact.c:86-107 | the next identifier is used and the first message stored |
| GtpXact.Layer.LocalCreate | lib/gtp/xact.c:75-114 | the whole new state of the peer, and that the invariant holds in it |
| GtpXact.Layer.UpdateTx | lib/gtp/xact.c:162-235 | storing an answer changes one transaction only and keeps the invariant |
| GtpXact.Layer.FindOn | lib/gtp/xact.c:659-670 | the search of a list returns the first transaction with the identifier |
| GtpXact.Layer.FindByXid | lib/gtp/xact.c:631-671 | the list is chosen by stage and command bit; unknown types are fatal |
| GtpXact.Layer.FindOrCreate | lib/gtp/xact.c:555-558 | an existing transaction is found, otherwise a remote one is created in a free slot, otherwise the call fails |
| GtpXact.Layer.Absorb | lib/gtp/xact.c:237-381 | taking in a message changes one transaction only, and neither its originator, identifier nor node |
| GtpXact.Layer.Receive | lib/gtp/xact.c:546-574 | state, status and transaction after receiving, and that the invariant holds again |
| GtpXact.Layer.Associate | lib/gtp/xact.c:673-683 | each is set as the partner of the other, if neither had one |
| GtpXact.Layer.Deassociate | lib/gtp/xact.c:685-695 | both partners are cleared, if both were set |
| GtpXact.Layer.Delete | lib/gtp/xact.c:697-730 | never fails on a live transaction: partner cleared, packets freed, off its list, slot given back |
| GtpXact.Layer.Unregister | lib/gtp/xact.c:697-730 | the part of a deletion after the partner is cleared |
| GtpXact.Layer.Commit | lib/gtp/xact.c:384-466 | the whole new state of the peer after a commit, kept valid |
| GtpXact.Layer.ResponseTimeout | lib/gtp/xact.c:468-512 | never fails: resend the stored packet and rearm, or delete on the last expiry |
| GtpXact.Layer.HoldingTimeout | lib/gtp/xact.c:514-543 | never fails, and always deletes: the branch that rearms cannot be reached |
| GtpXact.Layer.DeleteEach | lib/gtp/xact.c:152-160 | exactly the transactions of the list are gone, the other objects are still the same ones |
| GtpXact.Layer.DeleteAll | lib/gtp/xact.c:152-160 | never fails: both lists of the node are deleted |
| GtpXactInvariant.StepKeeps | lib/gtp/xact.c:75-730 | every step that reaches no failing assertion keeps the invariant: slots below the step filled and packets exactly at own steps, timers only armed while an answer is due, pool, lists, matching of partners, no two remote transactions with one identifier, packets held or freed once |
| GtpXactInvariant.InitialInv | lib/gtp/xact.c:50-62 | the invariant holds at the start |
| GtpXactInvariant.LocalCreateKeeps | lib/gtp/xact.c:75-114 | creating keeps it, identifiers included |
| GtpXactInvariant.AnswerKeeps | lib/gtp/xact.c:162-235 | storing an answer keeps it |
| GtpXactInvariant.ReceiveKeeps | lib/gtp/xact.c:546-574 | receiving keeps it |
| GtpXactInvariant.CommitKeeps | lib/gtp/xact.c:384-466 | committing keeps it |
| GtpXactInvariant.ResponseTimeoutKeeps | lib/gtp/xact.c:468-512 | an expired response timer never meets a failing assertion, and keeps it |
| GtpXactInvariant.ResponseTimeoutShape | lib/gtp/xact.c:468-512 | the packet to resend is there whenever the timer is armed; the count never underflows |
| GtpXactInvariant.HoldingTimeoutKeeps | lib/gtp/xact.c:514-543 | an expired holding timer only fires with step 1 or later, and deletes |
| GtpXactInvariant.DeleteKeeps | lib/gtp/xact.c:697-730 | deleting a live transaction cannot fail and leaves no pointer to it |
| GtpXactInvariant.DeleteAllKeeps | lib/gtp/xact.c:152-160 | deleting all transactions of a node cannot fail and keeps the invariant |
| GtpXactInvariant.LinkKeeps | lib/gtp/xact.c:673-683 | associating keeps the matching symmetric |
| GtpXactInvariant.UnlinkKeeps | lib/gtp/xact.c:685-695 | deassociating a pair keeps the matching symmetric |
| GtpXactSteps.CommitAbortsIff | lib/gtp/xact.c:384-466 | a commit fails if and only if the last step was a reception of a message that is not final |
| GtpXactSteps.CommitSendsStored | lib/gtp/xact.c:384-466 | a commit after an own step sends exactly the stored packet, and waits for an answer unless it is the final message; otherwise it deletes and sends nothing |
| GtpXactSteps.ReceiveSurvivesIff | lib/gtp/xact.c:546-574 | receiving survives if and only if the message starts an exchange with a slot free, repeats a step, or is the next step of a waiting transaction |
| GtpXactSteps.RepeatedResponseAborts | lib/gtp/xact.c:237-381 | the same final response once more is fatal, before and after the commit |
| GtpXactSteps.RetryChangesNothing | lib/gtp/xact.c:257-292 | a call that returns OGS_RETRY sends the stored answer and starts the holding timer anew, if there is an answer, and leaves everything else as it is |
| GtpXactSteps.ReceiveCreatesInitial | lib/gtp/xact.c:116-150 | receiving creates a transaction for initial messages only, at step 1 with the holding timer armed |
| GtpXactSteps.DeassociateKeepsMatchingIff | lib/gtp/xact.c:685-695 | deassociating keeps partners symmetric if and only if the two name each other or each itself |
| GtpXactLaws.StageTable | lib/gtp/xact.c:582-629 | the stage of all 256 types by number, and the bit of commands |
| GtpXactLaws.AnswerTaken | lib/gtp/xact.c:237-574 | a waiting request takes the answer of its type: its second slot is filled, its response timer stops, nothing else changes |
| GtpXactLaws.RequestStarts | lib/gtp/xact.c:116-150 | a request of the other side gets the first free slot and the end of the list, at step 1 with nine seconds of holding time |
| GtpXactLaws.MessageTaken | lib/gtp/xact.c:294-381 | what a message that is taken in does to the transaction, timers included |
| GtpXactLaws.MessageRepeated | lib/gtp/xact.c:257-354 | a message that is recognised is answered as before, and then held for nine seconds more |
| GtpXactLaws.PacketStored | lib/gtp/xact.c:213-232 | the stored packet: length, TEID, sequence number and octets |
| GtpXactLaws.StoredIff | lib/gtp/xact.c:181-211 | which types can be stored at which step, by number |
| GtpXactLaws.CommittedAs | lib/gtp/xact.c:405-466 | a commit sends the packet there is and waits three seconds for an answer unless it was the last message |
| GtpXactLaws.CreatedTables | lib/gtp/xact.c:83-107 | the next identifier, the first free slot, the end of the list |
| GtpXactLaws.CreatedIsSent | lib/gtp/xact.c:75-466 | a request that is created and committed is on the wire as it was handed in |
| GtpXactLaws.AnswerIsSent | lib/gtp/xact.c:162-466 | an answer that is stored and committed is on the wire as it was handed in |
| GtpXactLaws.FirstIsFirst | lib/gtp/xact.c:659-670 | the search stops at the first transaction with the identifier |
| GtpXactLaws.LinkPairs | lib/gtp/xact.c:673-683 | associating names each the partner of the other and changes nothing else |
| GtpXactLaws.UnlinkClears | lib/gtp/xact.c:685-695 | deassociating clears both partners and changes nothing else |
| GtpXactLaws.LinkThenDelete | lib/gtp/xact.c:673-730 | associating two and deleting one leaves the other as it was |
| GtpXactLaws.DeleteTakesOut | lib/gtp/xact.c:697-730 | what a deletion leaves: free slots, list, freed packets, partners |
| GtpXactLaws.Initially | lib/gtp/xact.c:50-62 | the state after initialisation |
| GtpXactRuns.RunKeeps | lib/gtp/xact.c:75-730 | the invariant holds in every state of every run |
| GtpXactRuns.OthersKept | lib/gtp/xact.c:152-730 | no step changes a transaction it does not act on, except its partner |
| GtpXactRuns.NewcomersFresh | lib/gtp/xact.c:75-150 | a transaction born in a step has step 1, full retries and no armed response timer |
| GtpXactRuns.StepContinues | lib/gtp/xact.c:162-381 | history is only added to, and the retry count drops by one exactly at an expiry |
| GtpXactRuns.SlotsWrittenOnce | lib/gtp/xact.c:181-232 | along every run each history slot is written at most once |
| GtpXactRuns.TimeoutsCounted | lib/gtp/xact.c:468-512 | along every run the number of expiries is the number of retries used up |
| GtpXactRuns.AtMostTwoResends | lib/gtp/xact.c:468-512 | at most two timer-driven resends, and a third expiry deletes |
| GtpXactRuns.SendsAreStored | lib/gtp/xact.c:384-512 | whatever is sent is a packet stored at an own step of the transaction acted on |
| GtpXactRuns.GivesUp | lib/gtp/xact.c:468-512 | without input a waiting transaction is gone after a bound given by its retries and the lateness of timers |
| GtpXactRuns.CommittedRequestGivesUp | lib/gtp/xact.c:371-378 | a committed request is gone after three response times, and the lateness, without input |
| GtpXactExchange.ExchangeKeeps | lib/gtp/xact.c:237-574 | along every run of two peers the sends of a request span two response times, and the responder holds its transaction for three from the first copy on, or has received the final message |
| GtpXactExchange.DeliveredAtMostOnce | lib/gtp/xact.c:546-574 | until the final message is received, the first copy of a request is accepted and every later one is a retry, in exchanges of two and of three messages |
| GtpXactExchange.CopyVerdict | lib/gtp/xact.c:312-354 | a copy reaches a failing assertion exactly if it is the first and the pool is empty, or the responder is still there after the final message |
| GtpXactExchange.HeldCopyIsRetry | lib/gtp/xact.c:312-354 | while the responder has not received the final message a copy is a repeat |
| GtpXactExchange.ClosedCopyAborts | lib/gtp/xact.c:312-320 | a copy that finds the responder after the final message is fatal |
| GtpXactExchange.FinalCloses | lib/gtp/xact.c:359-380 | a final message that is not fatal finds the responder at step 2 and takes it to step 3 |
| GtpXactExchange.EveryCopyVerdict | lib/gtp/xact.c:546-574 | in every run the first copy is accepted, those before the final message are retries, the first after it is accepted anew |
| GtpXactTight.AtMostOnceIff | lib/gtp/xact.c:25-29 | late copies apart, at most once in every run if and only if the delay and twice the lateness are within T3, or nothing arrives |
| GtpXactTight.TwiceAcceptedIff | lib/gtp/xact.c:443-450 | within the bound a run delivers a request twice if and only if a copy arrives after the final message |
| GtpXactTight.UnflaggedAtMostOnce | lib/gtp/xact.c:582-629 | within the bound a request without a flagged identifier is delivered at most once |
| GtpXactTight.CounterexampleAccepts | lib/gtp/xact.c:514-543 | for every larger delay, a run of ten moves in which the responder accepts the request twice |
| GtpXactTight.SecondNeedsFinal | lib/gtp/xact.c:546-574 | within the bound a second copy is accepted only if the final message came in between |
| GtpXactTriggered.TriggerKeeps | lib/gtp/xact.c:237-301 | along every run the sender of a command waits until its retries are used up, and holds its transaction for three response times from the first triggered request on |
| GtpXactTriggered.TriggeredVerdict | lib/gtp/xact.c:257-301 | what a copy of the triggered request meets: accepted, a retry, or fatal |
| GtpXactTriggered.TriggeredAtMostOnce | lib/gtp/xact.c:257-301 | in every run the first triggered request is accepted and every later one is a retry, for every delay |
| GtpXactTriggered.TriggeredFatalIff | lib/gtp/xact.c:257-301 | it is fatal if and only if the transaction is gone or has taken in another type, and the transaction is not gone early |
| GtpXactWitness.UsedIsReachable | lib/gtp/xact.c:75-160 | every number of local transactions, and so every identifier, is reached from the start |
| GtpXactWitness.CommandTakenTwice | lib/gtp/xact.c:443-450 | from reachable states and for any delay, a run of eleven moves in which a command is taken in twice |
| GtpXactWitness.RepeatedResponseHappens | lib/gtp/xact.c:237-381 | a reachable state in which a response that arrives twice is fatal, before and after the commit |
| GtpXactWitness.FailureIndicationHappens | lib/gtp/xact.c:631-671 | from reachable states, a run of both peers after which a failure indication is under way and fatal to the sender of the command |
| GtpXactTables.IdsDistinctWhileYoung | lib/gtp/xact.c:90 | live local identifiers differ while none has outlived that many creations |
| GtpXactTables.SearchesOppositeIff | lib/gtp/xact.c:582-671 | a message makes its receiver search the list of the opposite originator if and only if flag and sender fit |
| GtpXactTables.FindsOtherEndIff | lib/gtp/xact.c:631-671 | and it finds the transaction at the other end if and only if they do |
| GtpXactTables.FlaggedFailureIndicationIsLost | lib/gtp/xact.c:631-671 | a failure indication under a flagged identifier never reaches the transaction that waits for it |
| GtpXactTables.PoolConserved | lib/gtp/xact.c:84-86 | free slots and live transactions together are the pool |
| GtpXactTables.FreedOnceOrHeld | lib/gtp/xact.c:227-229 | every packet handed in is held by a live transaction and not freed, or was freed exactly once |
| GtpXactTables.AllFreedAtRest | lib/gtp/xact.c:697-730 | without live transactions every packet ever handed in was freed exactly once |
| GtpXactTables.DeleteAllExact | lib/gtp/xact.c:152-160 | both lists of the node are empty; on other nodes only partners that are gone are cleared |
| TlvPrinter.AddLeaf | lib/gtp/tlv.c:39-146 | the octets of a field, and what is left in its memory: integers wider than an octet are swapped in place |
| TlvPrinter.AddNumber | lib/gtp/tlv.c:45-60 | htons or htonl in place shows the integer most significant octet first |
| TlvPrinter.AddNumber24 | lib/gtp/tlv.c:68-85 | shifted and swapped, a 24-bit integer shows its lowest three octets; bits above are lost |
| TlvPrinter.AddField | lib/gtp/tlv.c:184-212 | one present field, leaf or compound |
| TlvPrinter.AddRepeats | lib/gtp/tlv.c:176-222 | the loop over a repeated field stops at the first absent slot |
| TlvPrinter.AddCompound | lib/gtp/tlv.c:148-254 | the TLVs of all present fields in descriptor order, and the memory after, for every tree |
| TlvPrinter.Build | lib/gtp/tlv.c:256-284 | the octets of a message, and the message as it is left |
| TlvOffsets.OffsetsAgree | lib/gtp/tlv.c:286-314 | for every field, also after repeated ones, the parser computes the offset the printer does |
| TlvOffsets.MoreFollowsField | lib/gtp/tlv.c:304-306 | the assertion on the previous descriptor holds |
| TlvOffsets.SlotsDisjoint | lib/gtp/tlv.c:168-251 | all slots of all fields lie inside the struct and no two overlap |
| TlvOffsets.ParseOneAt | lib/gtp/tlv.c:286-314 | a TLV goes to the first descriptor with its tag and nowhere else |
| TlvOffsets.ParseOneNowhere | lib/gtp/tlv.c:440-446 | a TLV without a descriptor is refused |
| TlvAfter.AfterTlvAt | lib/gtp/tlv.c:438-503 | a TLV changes the field of the first descriptor with its tag and nothing else, also where it is refused |
| TlvAfter.AllParsed | lib/gtp/tlv.c:420-509 | what is left in memory is the result wherever the parse succeeds |
| TlvParser.FindDesc | lib/gtp/tlv.c:286-314 | the search finds the first matching descriptor, and the offset of its field as the printer counts it |
| TlvParser.ReadLeaf | lib/gtp/tlv.c:316-418 | a leaf is refused or decoded by its length and type; on refusal its memory is unchanged |
| TlvParser.ReadField | lib/gtp/tlv.c:467-503 | one slot is filled, embedded TLVs included, and marked present; or, where it fails, keeps the embedded TLVs before the one refused |
| TlvParser.ReadRepeat | lib/gtp/tlv.c:450-465 | the first free slot takes the occurrence; one too many is fatal |
| TlvParser.ReadTlv | lib/gtp/tlv.c:438-503 | one round of the parsing loop, also where it fails |
| TlvParser.ReadCompound | lib/gtp/tlv.c:420-509 | all TLVs of a block, in order of arrival, up to the first that is refused; nothing else changes |
| TlvParser.Read | lib/gtp/tlv.c:511-535 | a whole message: the result, and what is in the struct after it or after its failure |
| TlvRoundTrip.BlockRoundTrip | lib/gtp/tlv.c:526 | a rendered block is read back TLV by TLV (mode T1_L2_I1) |
| TlvRoundTrip.LeafRoundTrip | lib/gtp/tlv.c:316-418 | each leaf is read back as it was printed |
| TlvRoundTrip.MessageRoundTrip | lib/gtp/tlv.c:420-509 | at every depth, parsing what was printed into a zeroed struct fills exactly the printed fields |
| TlvRoundTrip.BuildParse | lib/gtp/tlv.c:256-535 | parsing what was built gives the message with exactly its printed fields |
| TlvRoundTrip.KeptIff | lib/gtp/tlv.c:148-254 | the printed fields are the whole message if and only if nothing stands where printing does not look |
| TlvRoundTrip.BuildParseIdentityIff | lib/gtp/tlv.c:256-535 | where all lengths fit, the round trip is the identity if and only if the struct holds nothing beyond what is printed |
| TlvPrintable.BuildsIff | lib/gtp/tlv.c:256-284 | a message can be built if and only if it is not empty, no present string or compound is empty, no 16-bit signed field is present and the depth is within eight |
| TlvSize.ComesBackIff | lib/gtp/tlv.c:148-535 | a message is built and comes back if and only if it is not empty, printable, holds nothing else, and every field fits the 16-bit length |
| TlvSize.ReturnedIsShort | lib/gtp/tlv.c:420-535 | a message with a field of 65536 octets or more never comes back: no two TLVs make up one field between them |
| TlvSize.AllFilled | lib/gtp/tlv.c:420-509 | a struct takes at most the octets parsed into it, at every depth, and where it takes all of them its fields are short |
| TlvSize.ShortIsPrintedShort | lib/gtp/tlv.c:148-254 | the sizes of the fields bound all lengths that are printed |
| TlvOrder.Commute | lib/gtp/tlv.c:420-509 | two TLVs of different fields may be swapped |
| TlvOrder.OrderIndependent | lib/gtp/tlv.c:420-509 | reordering TLVs, repeats of a field in order among themselves, gives the same result or failure |
| TlvOrder.ShuffledParse | lib/gtp/tlv.c:420-509 | TLVs with different tags may come in any order |
| TlvOrder.RepeatsFillInOrder | lib/gtp/tlv.c:450-465 | occurrences of a repeated field fill its first slots in order of arrival |
| Bytes.BigEndianAt | lib/gtp/types.c:76-83 | network order: each octet of an integer, the most significant first |
| Bytes.LittleEndianAt | lib/gtp/tlv.c:57-82 | each octet of an integer in memory, the least significant first |
| TlvLaws.LeafOctets | lib/gtp/tlv.c:39-146 | the octets of a leaf, by type |
| TlvLaws.LeafRead | lib/gtp/tlv.c:316-418 | what a leaf becomes, by type and octets |
| TlvLaws.TlvOctets | lib/gtp/tlv.c:256-284 | type, length and instance in front of the value |
| TlvLaws.AllIsLeft | lib/gtp/tlv.c:39-254 | after printing, every leaf that is wider than an octet shows the octets of its TLV in memory, and all else is as it was |
| TlvLaws.AllDiffer | lib/gtp/tlv.c:39-254 | no presence word and no string is changed by printing, and integers stay integers |
| TlvLaws.LastWins | lib/gtp/tlv.c:438-503 | a leaf that does not repeat takes the last of its TLVs |
| TlvLaws.RefusedAt | lib/gtp/tlv.c:420-509 | where a block is refused, the TLVs before are in the struct |
| TlvLaws.RefusedSlot | lib/gtp/tlv.c:316-503 | a refused leaf is as it was; a refused compound keeps what was in it but is not marked present |
| TlvLaws.EightDeep | lib/gtp/tlv.c:148-509 | compounds may be eight deep |
| NasBitRate.BrCalculate | lib/nas/types.c:47-189 | the octets written and the length, for every rate |
| NasBitRate.BrCalculateLow | lib/nas/types.c:93-189 | the part below 256 Mbps; an exact multiple writes nothing |
| NasBitRate.BestIff | lib/nas/types.c:47-189 | the decoded value is the largest any octets can show that is not above the rate, if and only if the rate is below 65280 Mbps |
| NasBitRate.ErrorIff | lib/nas/types.c:47-189 | never above the rate, and less than 2048 kbps below it exactly in that range |
| NasBitRate.Monotone | lib/nas/types.c:47-189 | a larger rate is never shown as a smaller one below 65280 Mbps |
| NasBitRate.NotMonotoneAtTop | lib/nas/types.c:77-83 | from there on it is |
| NasBitRate.RateTable | lib/nas/types.c:93-189 | the octets of a rate below 256 Mbps, range by range |
| NasBitRate.RateBlocks | lib/nas/types.c:77-92 | octet 7 of larger rates, and the rest |
| NasBitRate.BuildAmbr | lib/nas/types.c:191-216 | the six octets and the length |
| NasBitRate.AmbrLayout | lib/nas/types.c:191-216 | which octet is whose, and the length |
| NasBitRate.AmbrLossless | lib/nas/types.c:191-216 | the octets sent are 2, 4 or 6, they carry both codes whole, and two fewer would not |
| NasBitRate.AmbrDelivered | lib/nas/types.c:191-216 | for all 32-bit rates a receiver reads the best lower approximations |
| NasBitRate.AddRate | lib/nas/types.c:235-258 | a rate of zero is left out, any other written |
| NasBitRate.BuildQos | lib/nas/types.c:218-261 | the thirteen octets and the length |
| NasBitRate.QosLayout | lib/nas/types.c:218-261 | which octet is whose |
| NasBitRate.QosLossless | lib/nas/types.c:218-261 | the octets sent are 1, 5, 9 or 13, they carry all codes whole, and four fewer would not |
| NasBitRate.QosDelivered | lib/nas/types.c:218-261 | a receiver reads the best lower approximation of each rate if and only if it is below 65280 Mbps |
| NasTaiList.Target.Append | lib/nas/types.c:310-311 | octets are added behind those written |
| NasTaiList.MakeEntry0 | lib/nas/types.c:283-302 | the octets of an entry: type and number, network, codes in network order |
| NasTaiList.MakeEntry2 | lib/nas/types.c:313-333 | the octets of the last entry |
| NasTaiList.Target.Build | lib/nas/types.c:263-337 | the octets of the list, or failure exactly where an assertion fails, or the read behind the array |
| NasTaiDecode.BuiltIsPrefix | lib/nas/types.c:263-337 | at most 96 octets: the longest prefix of the entries that fits, then the last entry if none was dropped and it fits |
| NasTaiDecode.DeliveredIff | lib/nas/types.c:263-337 | a receiver reads exactly those identities, if and only if the last entry, when sent, has type 2 or one identity |
| NasTaiDecode.DecodeEntry2 | lib/nas/types.c:313-333 | a last entry is read back if and only if it has type 2 or one identity |
| NasTaiDecode.Entry0Octets | lib/nas/types.c:283-302 | an entry octet by octet |
| NasTaiDecode.Entry2Octets | lib/nas/types.c:313-333 | the last entry octet by octet |
| NasTaiDecode.AllowedEntries | lib/nas/types.c:283-322 | type and number of the entries that meet the assertions |
| NasTaiDecode.AbortsIff | lib/nas/types.c:283-322 | an assertion fails if and only if an entry that is reached is not valid |
| NasTaiDecode.ReadsPastIff | lib/nas/types.c:280-312 | a seventeenth entry is read if and only if all sixteen are valid and have one code |
| NasTaiConfig.Load | src/mme/mme-context.c:899-924 | the entries made of the configured areas: several codes go to an entry of their own, one code to the last entry |
| NasTaiConfig.LoadedIsDelivered | src/mme/mme-context.c:899-924 | for every configuration, building never reads past the array and is delivered as configured up to where it is cut; it fails exactly at an area with sixteen codes or sixteen areas with one |
| NasTaiConfig.AllIsDelivered | lib/nas/types.c:263-337 | a configuration that fits is read whole by the receiver |
| NasTaiConfig.AllIsLoaded | src/mme/mme-context.c:899-924 | the identities loaded are those configured, none lost and none made up |
| NasCodec.FieldsRoundTrip | lib/nas/decoder.c:335-375 | for every table of elements whose types can be told apart and every subset of them, decoding what was encoded gives the fields back |
| NasCodec.DecodeEncoded | lib/nas/ies.c:29-740 | each element format is read back from the front of what follows |
| NasCodec.IeOctets | lib/nas/ies.c:29-740 | the octets of each element format |
| NasCodec.TypeOf | lib/nas/decoder.c:339 | the type the decoder takes an octet for |
| NasCodec.StampedTwice | lib/nas/encoder.c:482-490 | encoding changes a message only by setting types of half-octet elements, and not twice |
| NasCodec.FoundStays | lib/nas/decoder.c:335-375 | a field that was found stays found |
| NasCodec.WrappedContainer | lib/nas/ies.c:633-648 | from a length of 0xFFFE on the cursor does not move past the container |
| NasReject.LoopRefines | lib/nas/decoder.c:336-375 | on every input where the codec finds no element longer than its struct, the code finds the same fields, fails where it fails, and touches nothing behind the struct |
| NasReject.EncodeRefines | lib/nas/encoder.c:438-493 | if the timers fit, the octets sent are those of the codec |
| NasReject.TimerLengthIff | lib/nas/ies.c:705-720 | timers of a length come back, and leave the other fields and the memory behind the struct alone, if and only if the length is at most one |
| NasReject.SpilledOver | lib/nas/ies.c:705-720 | a T3346 value of three octets or more replaces a T3402 value decoded before |
| NasReject.TimerSentIff | lib/nas/ies.c:722-735 | what is sent does not depend on what lies behind the local of the encoder if and only if the timers fit |
| NasReject.PresentStays | lib/nas/decoder.c:345-374 | presence bits are only set |
| NasReject.RejectOctets | lib/nas/encoder.c:438-493 | the octets of an ATTACH REJECT, with the types as numbers |
| NasReject.ElementTypes | lib/nas/decoder.c:345-374 | what each type octet leads to |
| NasReject.TimerOctets | lib/nas/ies.c:705-720 | which octets a timer changes |
| NasAttachReject.PacketBuffer.Put | lib/nas/ies.c:29-37 | pull and copy: fails exactly if the octets do not fit, and changes nothing else |
| NasAttachReject.PresenceBits | lib/nas/message.h:271-274 | the bits of the presence mask |
| NasAttachReject.PacketBuffer.DecodeEsmMessageContainer | lib/nas/ies.c:633-648 | the container and the cursor after it, with the 16-bit size |
| NasAttachReject.PacketBuffer.DecodeGprsTimer2 | lib/nas/ies.c:705-720 | length and octets are copied to the struct and over what lies behind it, and the cursor after it |
| NasAttachReject.AttachReject.DecodeElement | lib/nas/decoder.c:344-374 | one round of the loop: an element is put into the struct, or a type that is not known is passed over |
| NasAttachReject.AttachReject.Decode | lib/nas/decoder.c:324-378 | ends on every buffer; the struct and the memory behind it, and every octet counted |
| NasAttachReject.AttachReject.PutContainer | lib/nas/encoder.c:450-459 | the container is written if present |
| NasAttachReject.AttachReject.PutTimer | lib/nas/encoder.c:461-481 | a timer is written if present: its two octets and, for longer ones, what lies behind the local of the encoder |
| NasAttachReject.AttachReject.PutExtendedCause | lib/nas/encoder.c:483-490 | the extended cause takes on its type and is written if present |
| NasAttachReject.AttachReject.Encode | lib/nas/encoder.c:438-493 | the octets written and counted, those from behind the local of the timer encoder included, or failure exactly if they do not fit |
| NasEmm.EmmMessage.Decode | lib/nas/decoder.c:2659-2837 | header and body; the buffer goes back by the count in 16 bits, for an ATTACH REJECT to its original position if and only if it has less than 65536 octets |
| NasEmm.EmmMessage.DecodeBehindHeader | lib/nas/decoder.c:2676-2709 | the count given back is what header and body counted, modulo 65536, also for a service request |
| NasEmm.EmmMessage.Encode | lib/nas/encoder.c:2969-3153 | the buffer holds exactly the message behind its headroom, or the call fails exactly if it does not fit |
| NasEmm.EmmRoundTrip | lib/nas/decoder.c:2659-2837 | for every ATTACH REJECT with any of its optional elements whose contents fit, decoding what was encoded gives it back |
| NasEmm.EmmOctets | lib/nas/encoder.c:2969-3021 | the header in front of the body |
| NasEmm.EmmBodies | lib/nas/decoder.c:2676-2709 | which decoder a message goes to, by number, and where it starts |
| NasEmm.ContainerLengthIff | lib/nas/ies.c:633-663 | containers of a length all come back if and only if the length is below 0xFFFE |
| GtpBuffer.Put | lib/gtp/types.c:117-119 | an assertion on the size and a copy behind what is written |
| GtpLocation.PutPart | lib/gtp/types.c:327-333 | a part is written if its flag is set |
| GtpLocation.BuildUli | lib/gtp/types.c:309-370 | the octets, or failure exactly if they do not fit |
| GtpLocation.TakePart | lib/gtp/types.c:266-272 | a part is read if its flag is set, and otherwise left clear |
| GtpLocation.ParseUli | lib/gtp/types.c:252-308 | flags and parts, or failure; nothing may be left over |
| GtpLocation.UliRoundTrip | lib/gtp/types.c:252-370 | for all flags, parsing what was built gives the parts that are meant and clear ones otherwise |
| GtpLocation.UliRoundTripIff | lib/gtp/types.c:252-370 | the struct itself comes back if and only if the parts not meant were clear |
| GtpLocation.UliReadIsWritten | lib/gtp/types.c:252-370 | whatever octets are accepted, building from what was read gives them again |
| GtpLocation.AbsentPart | lib/gtp/types.c:252-308 | a part whose flag is not set reads as all zero |
| GtpLocation.UliLayout | lib/gtp/types.c:309-370 | the octets of every combination of parts, by bits of the flags |
| GtpLocation.BuildBearerQos | lib/gtp/types.c:61-90 | the 22 octets: flags, QCI, and the four rates by position |
| GtpLocation.ParseBearerQos | lib/gtp/types.c:28-60 | the struct by position, or failure unless there are exactly 22 octets |
| GtpLocation.QosRoundTrip | lib/gtp/types.c:28-90 | rates come back modulo 2^40 and the spare bits cleared |
| GtpLocation.QosRoundTripIff | lib/gtp/types.c:28-90 | the struct itself comes back if and only if its spare bits are clear and its rates are below 2^40 |
| GtpLocation.QosLayout | lib/gtp/types.c:61-90 | the rates by position |
| GtpLocation.SpareCleared | lib/gtp/types.c:38-45 | exactly the spare bits are cleared |
| GtpTft.PutTail | lib/gtp/types.c:150-236 | the octets of each type of component; type 34 is not known |
| GtpTft.BuildTft | lib/gtp/types.c:94-248 | the octets and their number, -1 for a type not known, failure if they do not fit, in the order these are met |
| GtpTft.BuildsIff | lib/gtp/types.c:94-248 | built if and only if all types are known and the nested sum of lengths fits; the octets are those of the parts |
| GtpTft.TypeTable | lib/gtp/types.c:132-240 | what follows a component of each type, by number |
| GtpTft.FilterLayout | lib/gtp/types.c:117-131 | the head of a filter and of a component |
| GtpTft.RejectsIff | lib/gtp/types.c:94-248 | -1 if and only if a type that is not known is reached before the room runs out |
| GtpTft.TftRoundTripIff | lib/gtp/types.c:94-248 | a receiver reads back all filters if and only if the length of each matches its components |
| GtpTft.ContentsRead | lib/gtp/types.c:132-240 | the components of a filter are read back, with the members that count for their type |

## Left out

- NasEmm.EmmMessage.Encode: for an ATTACH REJECT only; the other messages are encoded by code of the same pattern that is not part of this model.
- NasEmm.EmmMessage.Decode: the decoders of the other messages are a parameter that says how many octets they take and how many they count, and their fields are not modelled.
- NasEmm.EmmMessage.DecodeBehindHeader: the same.
- NasTaiList.Target.Build: what the code reads behind the sixteenth entry is not modelled, only that it reads there.
- NasAttachReject.PacketBuffer.DecodeEsmMessageContainer: the code keeps a pointer into the packet, here the octets it points at are kept, so later changes of the packet are not seen.
- GtpXact.Layer.ResponseTimeout: sending always succeeds, so the branch after a failed ogs_gtp_sendto is not modelled; the same holds for commits and repeats.
- GtpXact.Layer.LocalCreate: the handles of transactions are their pool slots, so a stale pointer to a slot that was reused is not told apart.
- NasTaiConfig.Load: more than sixteen codes in an area, or more than sixteen areas of a kind, are written behind the arrays by the code and are not modelled; nor is the reading of the file.
- TlvModel.ParseBlock: the TLV library itself is not part of the repository; blocks are read as section 8.2 of TS 29.274 lays them out.
- TlvModel.WellFormed: two children with one tag, or a tag of zero, are excluded, as no descriptor of the repository has them.
- Timers fire when the owner of the clock says so; how late they may be is a parameter of the properties about time.
- Packet buffers are identified by a number; their contents are not shared, and freeing is a record in a ghost list.
- Network byte order is modelled for a little-endian machine; memory layout below the field level is not.
- PLMN identities are opaque octets: the repacking between the two layouts of their digits is not modelled.
- Sockets, event loops, logging, the database, and configuration other than the tracking areas.
- Diameter and S1AP messages, whose encoding is done by libraries that are not shown.
- The generated tables of GTP messages and the other NAS messages: instances of what is proved for all tables.
- NAS elements that encoder and decoder do not treat alike: key set identifiers, the P-TMSI signature, access point names.
- F-TEID, IP address and eNB identity conversions.
