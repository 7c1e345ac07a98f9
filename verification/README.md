# XTLS verification

XTLS accepts TCP connections and runs the TLS 1.3 handshake on a SmartNIC, then hands the live
connection to a Linux host. This project models that handoff and what it rests on, and proves what
the design promises of it. Build options are the shipped ones: Linux TCP server, onload, hash table,
no hardware steering rules, application data forwarded by software.

* **Session.** `Handshake` has one function per routine of ssl.c over the session's fields, with
  history variables for messages, records, nonces and hashes. `HandshakeProofs` holds the invariant,
  `Session` the theorems over whole runs and what early client records do, `ReadOrder` the queue,
  `Completion` which handshakes can complete. SHA-384, HMAC, HKDF-Expand-Label and AES-256-GCM are
  parameters (`Tls.Prims`), of which only lengths and decryption-undoes-encryption are used; `Hkdf` proves the HKDF code itself. A run ends
  where the process does: at exit(), at a failed assertion, or at a write past the end of an array.
* **Connection and migration.** `Nic` is the connection around a session, `Migration` the distributed
  system of NIC slots, host table and meta channel, `FreeSlots` what a payload does to a slot it has
  freed, `Incarnations` runs of the system in which one client follows another, `Recovery` what the system
  can still do from a given state, `Forwarding` what the host gets of a client's packets, `Continuity` the
  TCP side. `Nic` and `Migration` make no assumption about clients except where a
  theorem names one; `Session` and `Continuity` assume Appendix D.4 of RFC 8446 for the order of client
  records, and `Continuity` that clients acknowledge only what was sent.
* **Crypto pipeline.** `Pka` composes many sessions with submit rings and the hardware, `Jobs` is what it
  needs of job lists, and `PkaLoss` follows a result that comes too early. `RingMachine` proves the view of
  the lock-free ring used there, in which the producer may see the head late; `Ring` is the ring as one
  caller sees it and `RingSizing` its size.
* **Indexes.** `Tailq` and `Table` are the chained hash table both sides use; `NicTable` and
  `HostTable` add the free queue, the sweep, the pool and their callers.
* **Codecs.** `Records`, `Extensions`, `Meta`, `Der`, `Hkdf`, `Segments`, `SeqNum`, `BigNum`.
* **Objects.** `SessionObject` and `ConnectionObject` are session and connection as objects updated in
  place. Their routines carry the invariants of `HandshakeProofs` and `NicProofs` from call to call, up
  to the sweep of the main loop. `Chains` is what runs have in common.

Randomness, clocks, certificate bytes, PKA results and the answers of host kernel calls are
parameters or events.

Where code and stated intent differ, the code is modelled:

* the key meta's pair matches by value only, so key agreement needs a pair no earlier incarnation of
  the client used (`Migration.ReleasedOnlyAfterInstall`, `Incarnations.StaleKeysDiffer`);
* a client record that passes for a Finished is compared with whatever verify_data is stored, even before
  there was a handshake (`Incarnations.UnverifiedHandoff`, `Session.EarlyRecordIff`);
* an early ChangeCipherSpec keeps the flight from ever leaving (`Session.EarlyCcsDerails`);
* messages that overrun handshake_msgs or server_records end the process (`Completion.CompletesIff`,
  `Completion.OversizeDies`), and the last twelve admitted record lengths overrun the record buffer
  (`Records.OverrunsIff`);
* a payload is read to its end although one of its records aborted the session, so later records reach a
  slot that is free: they can leave it unfit for the next client (`FreeSlots.CcsAfterAlert`) or free it
  twice (`FreeSlots.TwoAlerts`, `Table.RemoveTwice`);
* the NIC buffers one packet per connection, so one that comes before the sweep replaces the one before it
  (`Forwarding.SecondReplacesFirst`);
* last_recv_seq moves on, so a late duplicate of the opening SYN removes its connection
  (`NicTable.LateDuplicate`);
* a PKA result posted before the flags of the last resumption are cleared is lost (`PkaLoss.LateRun`);
* the ring refuses by the head its producer has seen, possibly while empty
  (`RingMachine.StaleHeadRefuses`);
* clearing a slot zeroes eight bytes of the meta header, the sequence number but not the
  acknowledgement (`ConnectionObject.TcpConnection.Remove`);
* a failed set_nonblock leaves the host entry in the table, where a second key meta is answered for
  it (`Migration.DuplicateKeyMeta`);
* a mismatching mig-fin rewrites the header, and the reset meta sent for it looks up nobody
  (`Meta.ResetLooksUpNobody`);
* the HKDF loop does not end at 255 blocks (`Hkdf.CounterNeverPasses255`);
* an extension of an unknown type is skipped only when it is empty (`Extensions.BlockReadIff`);
* a signature component of zero has no content octets (`Der.SignatureIsDer`).

## Model

| member | source | states |
|---|---|---|
| Migration.ReleasedOnlyAfterInstall | smartnic/offload_ssl/src/ssl.c:2871-2877 | in every run of NIC, host and lossy, duplicating, reordering channel, a released flight has a matched mig-fin and a host connection entered for that client with exactly the pair the meta header held at the match; one key meta's arrival entered it, and its TCP side is installed exactly when that arrival went through; with a fresh pair its tuple and application keys are this connection's |
| Migration.InstallHasCause | host/custom_server/src/meta_pkt.c:286-319 | every host connection was entered by one key meta's arrival, whose own outcome decides its TCP side |
| Incarnations.StalePairReleases | smartnic/offload_ssl/src/tcp.c:2966-2969 | without freshness the guarantee fails: for all primitives and answers a run from the start, in which a client comes back with the numbers of its earlier visit, ends with this connection's flight released, the earlier incarnation's entry the only install, its keys the key schedule's for the earlier shared secret |
| Incarnations.StaleKeysDiffer | smartnic/offload_ssl/src/tcp.c:2966-2969 | one such run in which the host's keys differ from the released connection's |
| Incarnations.UnverifiedHandoff | smartnic/offload_ssl/src/ssl.c:2566-2577 | a run from the start, for all primitives, in which steering is applied to a session with no messages, no keys, no calculated verify_data and no released flight, because the client sent a protected record first |
| Migration.HandoffVerified | smartnic/offload_ssl/src/ssl.c:2541-2597 | in every run, for every slot: if what reached this slot since its session was last cleared held no ChangeCipherSpec and no protected record before the flight was out, whatever clients do at other slots or did here before, hws_applied implies a released flight, a recorded host entry and a client Finished equal to the MAC over all six messages |
| Recovery.FinishedDecides | smartnic/offload_ssl/src/ssl.c:2576-2597 | in every run, behind the ChangeCipherSpec of a client that kept the order at this slot, a protected handshake message removes the connection exactly when its verify_data is not the RFC's and onloads it otherwise; no other protected record does either |
| Recovery.LostMetaRecovers | smartnic/offload_ssl/src/ssl.c:2116-2121 | from every state in which a connection holds its flight a repeated ClientHello puts a key meta with its tuple, current pair and keys into the channel and changes nothing else |
| Recovery.FlightCanLeave | host/custom_server/src/meta_pkt.c:252-319 | from every such state, if the client is new to the host and the flight fits, the system can go on to release it, with this connection's keys installed |
| Recovery.CloseRemoves | smartnic/offload_ssl/src/tcp.c:3479-3508 | from every state in which the host serves a steered connection under the header's pair, closing it there can remove it here |
| Recovery.SweptOnlyAfterClose | smartnic/offload_ssl/src/tcp.c:3479-3508 | in every run the sweep removes only steered connections for which the host sent a close, for an entry it had made |
| Migration.AppDataOnlyAfterHandoff | smartnic/offload_ssl/src/tcp.c:3439-3535 | whatever clients send, in every reachable state hws_applied implies hws_inserted, recv_mig_fin, STATE_ACTIVE, onload, a recorded host entry and a verify_data that compared equal with the stored one; data goes to the host only then, namely what Forwarding.ForwardedExactly says |
| Forwarding.ForwardedExactly | smartnic/offload_ssl/src/tcp.c:3511-3536 | in every run the host gets something from a slot exactly when a sweep finds it steered with a packet unsent, and then exactly that packet |
| Forwarding.BufferIsUnsent | smartnic/offload_ssl/src/tcp.c:2737-2753 | in every state of every run a slot buffers exactly the last packet that reached it onloaded and was neither forwarded nor dropped with its connection |
| Forwarding.UnsentHasSource | smartnic/offload_ssl/src/tcp.c:2914-2933 | every packet the host gets came by one event to that onloaded connection, with no other packet, no forwarding and no removal since: each goes at most once |
| Forwarding.SourceIsUnsent | smartnic/offload_ssl/src/tcp.c:3511-3536 | and a packet stays to be forwarded as long as none of these happens |
| Forwarding.SecondReplacesFirst | smartnic/offload_ssl/src/tcp.c:2749-2750 | of two packets between sweeps the host gets only the second |
| Migration.DuplicateKeyMeta | host/custom_server/src/meta_pkt.c:252-319 | a second key meta is answered exactly unless mig_tcp_conn failed on the first, and the answer stands for an installed TCP connection exactly when the first migration succeeded |
| Migration.RunInv | host/custom_server/src/meta_pkt.c:252-319 | every state of every run, with records also reaching slots that an abort has already freed, keeps: unique incarnations, a connection's own metas carry its tuple and keys, every install comes from a sent meta, every mig-fin, close and match from an install, every connection marked for deletion from a close |
| Migration.NicKeeps | smartnic/offload_ssl/src/tcp.c:2940-3042 | no NIC event at a live or a freed slot breaks that invariant, whatever the client sends |
| Migration.SynKeeps | smartnic/offload_ssl/src/tcp.c:2262-2335 | nor does reusing a slot whose header kept its old acknowledgement and whose session kept what records left in it after it was freed |
| Migration.HostKeeps | host/custom_server/src/main.c:559-600 | nor does any host event: key meta, TLS migration, mig-fin, close |
| Migration.KeyKeeps | host/custom_server/src/meta_pkt.c:252-319 | a key meta leaves every table entry backed by an install of a sent meta, under the client it was sent for |
| NicProofs.StepKeeps | smartnic/offload_ssl/src/tcp.c:2686-3042 | every event, at a live connection or at a slot an abort freed, keeps the flag invariant; the match records the header's pair; key metas carry the connection's tuple, header and application keys; keys are fixed once CertificateVerify is out; release needs recv_mig_fin |
| NicProofs.FreeStep | smartnic/offload_ssl/src/ssl.c:749-851 | what still reaches a freed slot sends nothing from it, ends no process, and raises neither recv_mig_fin nor a steering flag |
| NicProofs.SessionHandoff | smartnic/offload_ssl/src/ssl.c:2109-2237 | whatever a client sends, a session is active only after a verify_data compared equal with the stored one, and a key meta leaves only in CERTIFICATE_VERIFY |
| NicProofs.RemovedFlags | smartnic/offload_ssl/src/tcp.c:572-627 | a cleared slot has every flag down |
| NicProofs.RemovedForgets | smartnic/offload_ssl/src/tcp.c:572-735 | of the connection a slot held, removal leaves nothing but the cookie, the acknowledgement number in the meta header and the flight kept |
| NicProofs.OpenedFlags | smartnic/offload_ssl/src/tcp.c:2262-2335 | whatever reached the slot while it was free, the assertion on its TCP state leaves only slots that are neither onloaded, matched, steered, active nor released; the session's other fields are taken as they are |
| NicProofs.AcceptsOnlyNextOrRepeat | smartnic/offload_ssl/src/tcp.c:2567-2754 | the receive position moves to a segment exactly if it repeats the last, starts where the NIC acknowledged or where the last ended; one ahead of these is answered with an acknowledgement, any other ignored; once onloaded segments are only buffered |
| NicProofs.OpenedAccepts | smartnic/offload_ssl/src/tcp.c:2288-2303 | after a SYN exactly the segments directly behind it are accepted |
| NicProofs.AcknowledgesEnd | smartnic/offload_ssl/src/tcp.c:2190-2204 | whatever is sent to the client acknowledges the end of the last accepted segment |
| Continuity.KeyMetaNamesEnd | smartnic/offload_ssl/src/tcp.c:1815-1824 | for clients that acknowledge only sent bytes every key meta names cookie + 1 + flight length modulo 2^32, the flight is certificate + signature + 294 bytes (230 without encryption), and the acknowledgement is 80 past the last segment |
| Continuity.HandoffContinuity | smartnic/offload_ssl/src/tcp.c:2117-2252 | a released flight has at most 1024 bytes, so its 16-bit length is never cut; its segments start at cookie + 1, are contiguous, carry exactly the flight and end at the number every earlier key meta named |
| Continuity.FlightResent | smartnic/offload_ssl/src/ssl.c:2123-2137 | after the release a repeated ClientHello is answered with segments that carry exactly the flight from the client's acknowledgement on; they are the segments of the release exactly while the client has acknowledged no more than the SYN |
| Continuity.LifeOfSlot | smartnic/offload_ssl/src/tcp.c:2262-2335 | in a run of the whole system a slot that stays live has, from its SYN on, a life to which these theorems apply, if only harmless records reached it while it was free since some state in which it was live or cleared |
| FreeSlots.PayloadIff | smartnic/offload_ssl/src/ssl.c:749-851 | the loop over a payload's records goes on after an abort: a payload that aborts its session leaves a cleared slot, put into the free queue once, exactly when every record behind the one that aborted is harmless (an unsupported ClientHello, a handshake or alert record that is passed over, data not ending in 0x16) and no unfinished record follows |
| FreeSlots.CcsAfterAlert | smartnic/offload_ssl/src/ssl.c:2418-2481 | a fatal alert followed by a ChangeCipherSpec frees the slot and leaves handshake_state at CLIENT_CIPHER_SPEC, so that the next client's ClientHello is passed over and no flight can leave |
| FreeSlots.TwoAlerts | smartnic/offload_ssl/src/ssl.c:2477-2479 | two fatal alerts in one payload free the slot twice |
| FreeSlots.FreeIsClear | smartnic/offload_ssl/src/tcp.c:1475-1543 | between two states of a run a free slot is a cleared one as long as only harmless records reach it while it is free |
| Incarnations.NextClientDerailed | smartnic/offload_ssl/src/tcp.c:2262-2335 | without that condition it fails: a run from the start, for all primitives, in which one client's alert and ChangeCipherSpec give the next client a session that is derailed from its SYN on |
| Continuity.ClientSecondFlight | smartnic/offload_ssl/src/tcp.c:1823-1824 | the constant 80 is the length of a ChangeCipherSpec record and a sealed client Finished |
| Continuity.LifeGood | smartnic/offload_ssl/src/tcp.c:2618-2648 | in every state of such a connection nothing was acknowledged beyond the SYN before the release, and the session invariant holds |
| Segments.SendTcpPacket | smartnic/offload_ssl/src/tcp.c:2102-2259 | the do-while loop emits exactly the specified cut of its payload |
| Segments.CutIsContiguous | smartnic/offload_ssl/src/tcp.c:2197-2203 | segments follow one another from the start and end exactly the payload length after it, modulo 2^32 |
| Segments.CutIsExact | smartnic/offload_ssl/src/tcp.c:2205-2208 | their payloads concatenate to the data |
| Segments.CutIsFull | smartnic/offload_ssl/src/tcp.c:2120-2122 | none exceeds 1460 bytes, all but the last are full, an empty one only for an empty payload |
| SeqNum.ValidateIsClassify | smartnic/offload_ssl/src/tcp.c:2567-2615 | for positions within 2^31 the 32-bit classification is the one on unbounded streams, for every initial number and across wrap-around |
| SeqNum.ComparisonsExact | smartnic/offload_ssl/include/ssloff.h:153-175 | SEQ_LT, LEQ, GT, GEQ, MIN and MAX agree with integer order within 2^31 |
| SeqNum.LtExactIff | smartnic/offload_ssl/include/ssloff.h:153-157 | for positions less than 2^32 apart SEQ_LT is right exactly within 2^31 |
| Session.TranscriptDiscipline | smartnic/offload_ssl/src/ssl.c:660-697 | in every run each hash covered exactly its prefix of ClientHello..server Finished, in order; EncryptedExtensions, Certificate, CertificateVerify and the server Finished are the RFC's messages, the last with the verify_data of the server handshake secret over the five before it; handshake keys, application keys and expected client Finished are the RFC's; an active session accepted exactly that verify_data |
| Session.ClientVerifiesServer | smartnic/offload_ssl/src/ssl.c:2731-2840 | what authenticates the server: a client with the handshake keys opens records 2 to 4 of the flight and reads in them the certificate, the signature under the chosen algorithm, and at bytes 4 to 52 of the last the verify_data section 4.4.4 of RFC 8446 computes from the server handshake secret |
| Session.ClientReads | smartnic/offload_ssl/src/ssl.c:2947-3045 | every protected record of the flight is an application-data record of the session's version in which the client reads the next transcript message |
| Session.ReleasedStays | smartnic/offload_ssl/src/ssl.c:2913-2944 | once released the flight is kept for retransmission as long as the session lasts |
| Session.NoncesNeverRepeat | smartnic/offload_ssl/src/ssl.c:3412-3470 | in every run the two counters equal the number of records sealed and no nonce repeats |
| Session.RunInv | smartnic/offload_ssl/src/ssl.c:1438-1557 | every reachable state keeps the session invariant, and what ends the process next is exactly handshake_msgs or server_records running full, a length field of MAX_RECORD_SIZE or more, or an empty record pool |
| Session.EventKeeps | smartnic/offload_ssl/src/ssl.c:660-697 | for clients in the order of Appendix D.4 of RFC 8446 each event ends the process exactly when handshake_msgs or server_records runs full, a length field fails its assertion or the record pool is empty, and keeps the invariant otherwise |
| Session.ResumptionKeeps | smartnic/offload_ssl/src/ssl.c:1438-1557 | resumption by handshake_state always finds the result of the request that state expects; it ends the process exactly when the two hellos overrun the transcript |
| Session.FlushKeeps | smartnic/offload_ssl/src/ssl.c:2843-2878 | the three branches: certificates and signature request, key meta, release exactly on a matched mig-fin; and exactly when each ends the process |
| Session.PacketKeeps | smartnic/offload_ssl/src/ssl.c:832-841 | an arriving record is processed or queued without breaking the invariant or overtaking an outstanding request |
| Session.DrainKeeps | smartnic/offload_ssl/src/ssl.c:2088-2106 | a queued record is processed under the same guarantees |
| ReadOrder.QueueInOrder | smartnic/offload_ssl/src/ssl.c:2087-2106 | in every run the queue holds exactly the records that had to wait and were not taken, in the order they came |
| ReadOrder.DrainIsArrival | smartnic/offload_ssl/src/ssl.c:2094-2103 | a record taken from the queue is handled as if it had just arrived |
| Session.FlightLength | smartnic/offload_ssl/src/ssl.c:2947-3045 | the flight is certificate + signature + 294 bytes, or 230 without encryption |
| Session.TranscriptLength | smartnic/offload_ssl/src/ssl.c:660-697 | the transcript's length at each resting state in terms of ClientHello, certificate and signature |
| Session.ReleasedFitted | smartnic/offload_ssl/src/ssl.c:2913-2944 | a released flight fits server_records and its messages fit handshake_msgs: ClientHello + certificate + signature + 201 below 4096 and certificate + signature + overhead at most 1024 |
| Session.ClientOpensFlight | smartnic/offload_ssl/src/ssl.c:3412-3470 | a client with the same keys opens record i with nonce i and finds the transcript's message |
| Session.EarlyRecordIff | smartnic/offload_ssl/src/ssl.c:2418-2582 | a ChangeCipherSpec or protected record keeps the invariant exactly when the flight is out, or it is data that does not pass for a Finished against the stored verify_data |
| Session.EarlyCcsDerails | smartnic/offload_ssl/src/ssl.c:2418-2437 | after a ChangeCipherSpec at an idle session before the flight is out, some continuation ends in the fatal exit of get_processed_crypto exactly when a request is outstanding, answered or not |
| Session.DerailedForever | smartnic/offload_ssl/src/ssl.c:2843-2878 | no continuation of such a session, whatever the client sends, releases the flight |
| Completion.HandshakeCompletes | smartnic/offload_ssl/src/ssl.c:2109-2237 | for every supported ClientHello and all PKA answers, certificates and primitives whose sizes fit, a run leads from a cleared slot to an active session that released its flight and accepted the MAC over all six messages |
| Completion.CompletesIff | smartnic/offload_ssl/src/ssl.c:2913-2944 | a ClientHello can be completed with a certificate and a signature exactly when ClientHello + certificate + signature + 201 is below 4096 and the flight is at most 1024 bytes |
| Completion.OversizeDies | smartnic/offload_ssl/src/ssl.c:660-697 | otherwise an orderly client brings the process to its end |
| Completion.NeverDies | smartnic/offload_ssl/src/ssl.c:660-697 | with ClientHellos that leave room for certificate and a 72-byte signature neither handshake_msgs nor server_records runs full in any run: the process ends exactly at a length field of MAX_RECORD_SIZE or more or at an empty record pool |
| Completion.MetaLeaves | smartnic/offload_ssl/src/ssl.c:2859-2869 | a signed session whose messages fit sends its key meta and is then ready for release |
| Completion.FinishedActivates | smartnic/offload_ssl/src/ssl.c:2566-2582 | the Finished a client seals under the client handshake key is opened, found equal and makes the session active |
| Flight.FlightReadsBack | smartnic/offload_ssl/src/ssl.c:749-851 | the held flight is read back by the reassembly as exactly the five server records |
| Flight.WireRecordIsRecord | smartnic/offload_ssl/src/ssl.c:3048-3101 | every emitted record's length field states its length |
| HandshakeProofs.InitInv | smartnic/offload_ssl/src/tcp.c:630-735 | a cleared session satisfies the invariant |
| HandshakeProofs.SendSealedEffect | smartnic/offload_ssl/src/ssl.c:2897-3045 | a sealed send never takes the sequence-number exit, exits exactly when the transcript is full, and otherwise adds one message, one record and one nonce |
| HandshakeProofs.SendAdvances | smartnic/offload_ssl/src/ssl.c:660-697 | a send extends transcript, records, nonces and counters in step and leaves earlier prefixes as they were |
| HandshakeProofs.HelloKeeps | smartnic/offload_ssl/src/ssl.c:2280-2415 | the ClientHello handler ends the process exactly when the two hellos do not fit, else reaches SERVER_HELLO with them in the transcript and the shared secret requested |
| HandshakeProofs.HelloAnswered | smartnic/offload_ssl/src/ssl.c:2612-2699 | in the ServerHello the client reads its session id, its first supported suite, its version, the random value and the key share generated; encryption follows that suite, and the signature algorithm is 0x0403 exactly when offered |
| HandshakeProofs.SharedKeeps | smartnic/offload_ssl/src/ssl.c:3770-4026 | the handshake keys hash exactly ClientHello..ServerHello and start from the first operand of the answer |
| HandshakeProofs.KeysAreRfc | smartnic/offload_ssl/src/ssl.c:3770-4026 | the code's derivation order gives the keys of section 7.1 of RFC 8446 |
| HandshakeProofs.VerifyDataIsRfc | smartnic/offload_ssl/src/ssl.c:2801-2829 | the code's order, key then hash then HMAC, gives verify_data of section 4.4.4 of RFC 8446 |
| HandshakeProofs.SignKeeps | smartnic/offload_ssl/src/ssl.c:4042-4127 | the signature result is taken in CERTIFICATE only, and is the DER encoding of the answer's operands in their order |
| HandshakeProofs.CertsKeep | smartnic/offload_ssl/src/ssl.c:2846-2857 | EncryptedExtensions and Certificate go out exactly when they fit, and are the RFC's messages; the signature covers ClientHello..Certificate |
| HandshakeProofs.FinishKeeps | smartnic/offload_ssl/src/ssl.c:2859-2869 | CertificateVerify and Finished go out exactly when they fit, and are the RFC's messages; server Finished, application keys and expected client Finished hash their prefixes |
| HandshakeProofs.AppKeysAreRfc | smartnic/offload_ssl/src/ssl.c:4130-4343 | the stored handshake secret leads to the RFC's application keys |
| HandshakeProofs.ReleaseKeeps | smartnic/offload_ssl/src/ssl.c:2913-2944 | the release keeps the invariant exactly when the flight fits the 1024 bytes it is kept in for retransmission |
| HandshakeProofs.FinishedKeeps | smartnic/offload_ssl/src/ssl.c:2566-2597 | behind the ChangeCipherSpec a client Finished activates the session exactly with the RFC's verify_data over the six messages and aborts it otherwise; before it, it is passed over |
| HandshakeProofs.ClientFinishedIff | smartnic/offload_ssl/src/ssl.c:2541-2597 | the same for the record: what the client's handshake key opens and ends in 0x16 aborts the session exactly when its bytes 4 to 52 are not that verify_data; anything else protected changes nothing |
| HandshakeProofs.AbortIff | smartnic/offload_ssl/src/ssl.c:2109-2237 | a record aborts a session exactly if it is a server's message before the ClientHello, a fatal or closing alert in the clear, any alert to an active encrypted session, or a Finished with another verify_data |
| HandshakeProofs.RepeatedHello | smartnic/offload_ssl/src/ssl.c:2113-2140 | a repeated ClientHello changes nothing; it asks for the key meta exactly in CERTIFICATE_VERIFY and sends exactly all records of the flight exactly in FINISHED |
| HandshakeProofs.CcsKeeps | smartnic/offload_ssl/src/ssl.c:2418-2437 | after the release a ChangeCipherSpec keeps the invariant; it moves handshake_state and installs the read cipher exactly when it is the first, or the session is active |
| HandshakeProofs.ReadKeeps | smartnic/offload_ssl/src/ssl.c:2109-2237 | every ordered record keeps the invariant, and starts a request only where none is outstanding |
| HandshakeProofs.CipherIsFirstSupported | smartnic/offload_ssl/src/ssl.c:515-530 | the chosen suite is the client's first supported one |
| Tls.NonceInjective | smartnic/offload_ssl/src/ssl.c:3429-3460 | IV xor be64(seq) is injective in seq |
| Tls.NonceReadsBack | smartnic/offload_ssl/src/ssl.c:3437-3441 | nonce xor IV is the sequence number, big-endian and padded on the left to twelve bytes |
| Tls.LabelsSeparate | smartnic/offload_ssl/src/ssl_crypto.c:523-547 | the eight labels used never give the same HkdfLabel |
| Tls.LabelsAreAscii | smartnic/offload_ssl/src/ssl.c:3798-3862 | the labels are the strings section 7.1 of RFC 8446 names |
| Tls.ExpandLabelIsSound | smartnic/offload_ssl/src/ssl_crypto.c:523-547 | the expansion has the requested length |
| Tls.ServerHelloReadsBack | smartnic/offload_ssl/src/ssl.c:2612-2699 | every ServerHello field stands where section 4.1.3 of RFC 8446 puts it |
| Tls.CertificateReadsBack | smartnic/offload_ssl/src/ssl.c:2731-2768 | all three length fields of Certificate state what they cover |
| Tls.CertificateVerifyReadsBack | smartnic/offload_ssl/src/ssl.c:2771-2798 | CertificateVerify carries algorithm and signature with true lengths |
| Tls.FinishedReadsBack | smartnic/offload_ssl/src/ssl.c:2801-2840 | Finished carries verify_data behind a true length |
| Tls.EncryptedExtensionsReadsBack | smartnic/offload_ssl/src/ssl.c:2702-2728 | EncryptedExtensions holds no extension and says so |
| Tls.HeaderReadsBack | smartnic/offload_ssl/src/ssl.c:3048-3101 | type, version and length of a record stand where section 5.1 of RFC 8446 puts them |
| Tls.LengthField | smartnic/offload_ssl/src/ssl.c:2881-2894 | the handshake header states the length of the body |
| Pka.PipelineSafe | smartnic/offload_ssl/src/ssl.c:1268-1557 | in every run: no submission finds its ring full, whatever head it reads, cur_crypto_cnt equals the core's hardware jobs and is at most 64, no session has two jobs, a session with a job has its request unanswered, and every outstanding or completed opcode is its handshake_state's |
| PkaLoss.LostIff | smartnic/offload_ssl/src/ssl.c:1541-1557 | in every run and for every session, whatever happens to others: its request is unanswered and its job is nowhere exactly when one of its own results was posted between its handler and the clearing of its flags |
| PkaLoss.LateResultLoses | smartnic/offload_ssl/src/ssl.c:1541-1557 | every result posted there, the first or a later one, leaves its session so in every later state |
| PkaLoss.LostForever | smartnic/offload_ssl/src/ssl.c:1438-1444 | a lost session never has completed_crypto set again and never leaves its handshake_state |
| PkaLoss.LateRun | smartnic/offload_ssl/src/ssl.c:1541-1557 | a run from the start, for all primitives, that loses a session |
| Pka.RunInv | smartnic/offload_ssl/src/ssl.c:1268-1557 | every state of every run keeps the queue, session and ring invariants |
| Pka.RingHasRoom | smartnic/offload_ssl/src/ring.c:41-56 | a session none of whose jobs lies behind the head it reads finds room, when jobs behind that head are of distinct sessions |
| Pka.StampCovers | smartnic/offload_ssl/src/ssl.c:1415-1424 | the dequeues that releasing completed_crypto publishes cover every job of the answered session |
| Pka.WorkerMoves | smartnic/offload_ssl/src/ssl.c:1034-1107 | a routine submits only when the session has no request, and loses none |
| Pka.BeginMoves | smartnic/offload_ssl/src/ssl.c:1438-1550 | a resumption's handler leaves at most the next request, and a valid session once the flags are down |
| Pka.WorkerQueue | smartnic/offload_ssl/src/ssl.c:999-1031 | submitting keeps jobs distinct and backed by their sessions' requests |
| Pka.DequeueQueue | smartnic/offload_ssl/src/ssl.c:1268-1336 | moving a job into the hardware keeps them so and the counter right |
| Pka.CompleteQueue | smartnic/offload_ssl/src/ssl.c:1339-1435 | completing any hardware job, in any order and at any time, keeps them so |
| RingSizing.LocalRingCnt | smartnic/offload_ssl/src/main.c:475-480 | the size passes the ring's check and size - 1 covers local_max_conn, at most doubling it |
| RingMachine.StepIsFifo | smartnic/offload_ssl/src/ring.c:41-73 | every load and store of the two threads is a step of a FIFO of capacity size - 1; refusals are exact for the index value read, also with stale acquire loads |
| RingMachine.StepIsView | smartnic/offload_ssl/src/ring.c:41-73 | every load and store of the two threads is a move on the view of items, dequeues and dequeues seen; an enqueue is refused exactly by the head it read |
| RingMachine.StaleHeadRefuses | smartnic/offload_ssl/src/ring.c:44-49 | an interleaving from the start in which an enqueue is refused although the queue is empty |
| RingMachine.NoRace | smartnic/offload_ssl/src/ring.c:41-73 | a slot is read only after its publication was seen and written only when no unconsumed item is in it |
| RingMachine.DequeuedIsPrefix | smartnic/offload_ssl/src/ring.c:41-73 | in every interleaving what was dequeued is a prefix of what was enqueued, at most size - 1 behind |
| RingMachine.StepKeeps | smartnic/offload_ssl/src/ring.c:41-73 | every atomic step keeps indices, slots and histories consistent |
| Ring.Ring.constructor | smartnic/offload_ssl/src/ring.c:18-36 | an accepted size gives an empty ring |
| Ring.Ring.Enqueue | smartnic/offload_ssl/src/ring.c:41-56 | appends exactly when fewer than size - 1 items are queued |
| Ring.Ring.Dequeue | smartnic/offload_ssl/src/ring.c:59-73 | hands out the oldest item exactly when there is one |
| Bits.SizeCheckIffPowerOfTwo | smartnic/offload_ssl/src/ring.c:20-23 | the bit test accepts exactly the powers of two |
| Bits.MaskIsMod | smartnic/offload_ssl/src/ring.c:46-53 | masking with size - 1 is reduction modulo the size |
| Tailq.InsertTailLinks | smartnic/offload_ssl/src/fhash.c:57-71 | tail insertion appends to the queue, through the pointers of sys/queue.h |
| Tailq.UnlinkLinks | smartnic/offload_ssl/src/fhash.c:73-86 | removal joins the neighbours and leaves the removed node's own links |
| Tailq.InsertTwice | smartnic/offload_ssl/src/tcp.c:1524-1526 | inserting a node that is already in the queue leaves no queue at all |
| Tailq.LoopPops | smartnic/offload_ssl/src/tcp.c:2367-2382 | a node that has become its own successor is handed out again and again |
| Tailq.UnlinkTwice | smartnic/offload_ssl/src/fhash.c:73-86 | removing a node again, under any head, changes nothing except that a node without successor moves that head's tail |
| Table.InsertRepresents | smartnic/offload_ssl/src/fhash.c:57-71 | insertion adds the object to its own bucket and disturbs no other |
| Table.RemoveRepresents | smartnic/offload_ssl/src/fhash.c:73-86 | removal takes exactly the object out |
| Table.Search | smartnic/offload_ssl/src/fhash.c:88-116 | finds the object with the key, or there is none |
| Table.SearchIsScan | smartnic/offload_ssl/src/tcp.c:2338-2365 | the answer is that of a scan over the active list |
| Table.InsertPartition | smartnic/offload_ssl/src/tcp.c:2262-2335 | insertion keeps keys unique and every object in exactly one of table and free collection |
| Table.RemovePartition | smartnic/offload_ssl/src/tcp.c:1475-1527 | so does the removal of an object of the table |
| Table.RemoveTwice | smartnic/offload_ssl/src/fhash.c:73-86 | a second removal under the zeroed tuple puts the count off by one, and leaves the buckets intact exactly when the object had a successor or the zeroed tuple hashes to its bucket; otherwise that tuple's bucket ends in the object's old one |
| NicTable.Sessions.constructor | smartnic/offload_ssl/src/tcp.c:911-925 | all connections start free |
| NicTable.Sessions.Lookup | smartnic/offload_ssl/src/tcp.c:2338-2365 | finds the connection of a tuple, or there is none |
| NicTable.Sessions.InsertConnection | smartnic/offload_ssl/src/tcp.c:2262-2382 | takes the head of the free queue; free_cnt + active_cnt stays local_max_conn and active_cnt the table's count |
| NicTable.Sessions.RemoveSession | smartnic/offload_ssl/src/tcp.c:1475-1527 | for any object: a connection moves to the end of the free queue, its link still naming its old successor; an object that is already free leaves no free queue; the assertion on active_cnt fails exactly without active sessions |
| NicTable.Sessions.AbortSession | smartnic/offload_ssl/src/tcp.c:1529-1543 | called any number of times for one connection, it leaves table and free queue a partition of all objects exactly when called at most once |
| NicTable.Sessions.ReadPayload | smartnic/offload_ssl/src/ssl.c:749-851 | after a payload that aborts, the slot is cleared and table and free queue partition all objects exactly when every record behind the first abort is harmless and none is cut off |
| NicTable.Sessions.ProcessSyn | smartnic/offload_ssl/src/tcp.c:2798-2891 | a SYN is a retransmission, and changes nothing, exactly when last_recv_seq of the tuple's connection is its number + 1; it finds no session exactly when the tuple is new and the free queue empty, and otherwise replaces the tuple's connection and no other |
| NicTable.Sessions.ProcessSegment | smartnic/offload_ssl/src/tcp.c:2618-2648 | an accepted segment moves the window of the tuple's connection and of no other |
| NicTable.WindowIsConnections | smartnic/offload_ssl/src/tcp.c:2618-2648 | the windows kept here open and move as those of `Nic`'s connections do |
| NicTable.DuplicateSynIff | smartnic/offload_ssl/src/tcp.c:2547-2564 | after any segments a duplicate of the opening SYN counts as a retransmission exactly when none was accepted or the last one accepted starts directly behind the SYN |
| NicTable.LateDuplicate | smartnic/offload_ssl/src/tcp.c:2820-2861 | after a ClientHello and one more segment a late duplicate of the SYN is taken for a new one, which removes the connection |
| NicTable.Sessions.Sweep | smartnic/offload_ssl/src/tcp.c:3744-3765 | visits the buckets' connections in order although visited ones may be unlinked, and unlinks exactly those |
| NicTable.Sessions.SweepBucket | smartnic/offload_ssl/src/tcp.c:3747-3765 | the same for one bucket |
| NicTable.SweepVisitsEachOnce | smartnic/offload_ssl/src/tcp.c:3744-3765 | the visited list holds every active connection exactly once |
| Hash.CalculateHash | smartnic/offload_ssl/src/fhash.c:7-22 | the loop computes the bucket, always inside the table |
| HostTable.Connections.constructor | host/custom_server/src/mempool.c:6-25 | all objects start in the pool |
| HostTable.Connections.AllocAndInsert | host/custom_server/src/mempool.c:26-42 | never returns a live object; pool and table partition all objects |
| HostTable.Connections.RemoveAndFree | host/custom_server/src/mempool.c:44-56 | returns exactly the object |
| HostTable.Connections.HandleKeyPacket | host/custom_server/src/meta_pkt.c:252-319 | which of the five outcomes happens, exactly: answered for a known client, no object, kept after a failed set_nonblock, given back after a failed migration, entered; and the table after each |
| HostTable.Connections.CloseTcpConn | host/custom_server/src/set_sock.c:248-273 | removes and frees exactly the connection |
| Records.SegmentationIndependent | smartnic/offload_ssl/src/ssl.c:749-851 | any cutting of the stream outside headers gives the records of the whole |
| Records.CutAnywhere | smartnic/offload_ssl/src/ssl.c:749-851 | one cut outside a header changes nothing |
| Records.CutHarmlessIff | smartnic/offload_ssl/src/ssl.c:765-766 | a cut is harmless for every continuation exactly when it does not fall inside a header |
| Records.ReadsBack | smartnic/offload_ssl/src/ssl.c:749-851 | a concatenation of size-bounded records is read back |
| Records.OverrunsIff | smartnic/offload_ssl/src/ssl.c:790-791 | the admitted lengths for which header and body overrun the record buffer are exactly 16049 to 16060 |
| Records.RecordReader.ProcessNewRecord | smartnic/offload_ssl/src/ssl.c:749-851 | the loop ends, keeps current_len below length and completes exactly the specified records |
| Records.RecordReader.CopyBytes | smartnic/offload_ssl/src/ssl.c:817-822 | the copy consumes what the record still needs and no more |
| Extensions.UnpackInvertsEncode | smartnic/offload_ssl/src/ssl.c:1701-1865 | for every well-formed list of extensions that are of handled types or empty the loop ends after one turn per extension, exactly at the end, with every list and the key share recovered |
| Extensions.UnpackExtensions | smartnic/offload_ssl/src/ssl.c:1701-1865 | the loop itself does so |
| Extensions.StepReads | smartnic/offload_ssl/src/ssl.c:1706-1861 | one turn reads one well-formed extension and stops behind it |
| Extensions.BlockReadIff | smartnic/offload_ssl/src/ssl.c:1705-1862 | over a block of well-formed extensions of any types the loop keeps in step, one turn each, exactly when every one is of a handled type or empty |
| Extensions.StepSkipsIff | smartnic/offload_ssl/src/ssl.c:1706-1861 | one turn lands behind a well-formed extension exactly when its type is handled or its body empty |
| Extensions.UnknownIsSpliced | smartnic/offload_ssl/src/ssl.c:1859-1861 | otherwise its body is read as further extensions |
| Meta.MetaRoundTrip | host/custom_server/src/meta_pkt.c:91-191 | whatever the header buffer held, the host recovers pair, client address, both keys, both IVs, and version 0x0304 exactly for major version 3 |
| Meta.MigFinMatches | host/custom_server/src/meta_pkt.c:426-465 | the answer passes the NIC's pair test and is looked up under the connection's tuple exactly when the server address is the host's |
| Meta.FinReadsBack | smartnic/offload_ssl/src/tcp.c:2952-2967 | the NIC reads the tuple and pair the host wrote |
| Meta.ResetLooksUpNobody | host/custom_server/src/meta_pkt.c:322-328 | a reset meta makes the host look up address 0 and port 0 |
| Meta.SendKeyMeta | smartnic/offload_ssl/src/host.c:47-102 | the assignments in place give the packed meta |
| Hkdf.HkdfExpandInternal | smartnic/offload_ssl/src/ssl_crypto.c:480-520 | the loop gives the first out_len bytes of T(1) T(2) ..., refusing more than 255 blocks |
| Hkdf.CounterNeverPasses255 | smartnic/offload_ssl/src/ssl_crypto.c:497-516 | the uint8_t counter passes n exactly for n below 255: at 255 blocks the loop never ends |
| Hkdf.HkdfLabelInjective | smartnic/offload_ssl/src/ssl_crypto.c:523-547 | the HkdfLabel encoding is injective in length, label and context |
| Hkdf.HkdfLabelLengthOctet | smartnic/offload_ssl/src/ssl_crypto.c:523-547 | the label length octet is true exactly for labels up to 249 bytes |
| Hkdf.HkdfLabelReadsBack | smartnic/offload_ssl/src/ssl_crypto.c:530-545 | for lengths below 2^16, labels up to 249 and contexts up to 255 bytes every field of HkdfLabel stands where section 7.1 of RFC 8446 puts it: length in network order, "tls13 " and label behind their length, context behind its own |
| Hkdf.HkdfExpandLabel | smartnic/offload_ssl/src/ssl_crypto.c:523-547 | laying out info position by position in its buffer gives the expansion of that label, of the requested length; more than 255 blocks are refused |
| Der.SignatureIsDer | smartnic/offload_ssl/src/ssl.c:4042-4106 | the emitted signature is at most 72 bytes and decodes as the canonical DER of (r, s) exactly when both are positive |
| Der.DecodeInjective | smartnic/offload_ssl/src/ssl.c:4042-4106 | the DER encoding of a pair is unique |
| Der.HandleAfterEcdsaSignature | smartnic/offload_ssl/src/ssl.c:4042-4106 | the routine emits that signature |
| Der.Normalise | smartnic/offload_ssl/src/ssl.c:4057-4085 | one component becomes its content octets |
| Der.RemoveLeadingZeros | smartnic/offload_ssl/src/ssl.c:4029-4039 | in place, only the kept bytes move |
| BigNum.PkiCompare | smartnic/bluefield_pka_benchmark/benchmark_example/helper/pka_helper.c:345-395 | for any length and padding the answer is the integers' order |
| BigNum.RandNonZeroInteger | smartnic/bluefield_pka_benchmark/benchmark_example/helper/pka_helper.c:398-431 | takes the first non-zero draw and returns a value below max_plus_1 |
| BigNum.FromDrawInRange | smartnic/bluefield_pka_benchmark/benchmark_example/helper/pka_helper.c:417-430 | the value is zero exactly when a reduced top byte and all lower bytes are zero |
| BigNum.OperandByteLen | smartnic/bluefield_pka_benchmark/benchmark_example/helper/pka_helper.c:211-249 | the length without leading zeros |
| BigNum.GetMsbIdx | smartnic/bluefield_pka_benchmark/benchmark_example/helper/pka_helper.c:275-318 | the index of the most significant non-zero byte |
| SessionObject.SslSession.constructor | smartnic/offload_ssl/src/tcp.c:630-735 | the object starts as the cleared session |
| SessionObject.SslSession.SendHandshakeTls13 | smartnic/offload_ssl/src/ssl.c:2897-3045 | composes store, nonce, seal and append in place into one send, or refuses where one of them does |
| SessionObject.SslSession.NextNonce | smartnic/offload_ssl/src/ssl.c:3412-3470 | gives the nonce of the counter and moves both counters, or refuses exactly on disagreement |
| SessionObject.SslSession.GetProcessedCrypto | smartnic/offload_ssl/src/ssl.c:1438-1557 | keeps the session invariant, ends the process exactly when the hellos overrun the transcript, leaves the flags down and at most the next request out, with the RFC's handshake keys over exactly the two hellos |
| SessionObject.SslSession.HandleCompletedPka | smartnic/offload_ssl/src/ssl.c:1339-1435 | keeps the session invariant; the answered request is the one handshake_state expects |
| SessionObject.SslSession.SendRemainServerRecords | smartnic/offload_ssl/src/ssl.c:2842-2878 | keeps the session invariant, ends the process exactly when an array runs full; hands out all records so far, once, only on a matched mig-fin, and keeps them; asks for a key meta only with the RFC's application keys and expected Finished over the six messages |
| SessionObject.SslSession.ProcessNewRecord | smartnic/offload_ssl/src/ssl.c:832-841 | keeps the session invariant; a record waits exactly while a request is outstanding; the session is active only after the flight and the MAC over the six messages |
| SessionObject.SslSession.ProcessSessionRead | smartnic/offload_ssl/src/ssl.c:2087-2106 | the loop processes queued records in order until a request is outstanding or none is left; at most one starts a request and nothing else of the session moves; every repeated ClientHello asks once for the key meta or the flight |
| ConnectionObject.TcpConnection.constructor | smartnic/offload_ssl/src/tcp.c:572-627 | a free slot meets the connection's invariant |
| ConnectionObject.TcpConnection.Remove | smartnic/offload_ssl/src/tcp.c:1475-1527 | clears session, flags and numbers but of the header's pair only the sequence number, and the invariant holds again |
| ConnectionObject.TcpConnection.Arrived | smartnic/offload_ssl/src/tcp.c:2686-2778 | keeps the invariant; the receive position moves only to a repeat or a continuation and not at all once onloaded |
| ConnectionObject.TcpConnection.HostMigFin | smartnic/offload_ssl/src/tcp.c:2940-3005 | keeps the invariant; recv_mig_fin is set exactly by a mig-fin that names the header's pair |
| ConnectionObject.TcpConnection.Receive | smartnic/offload_ssl/src/ssl.c:749-851 | does what the connection's step says; keeps the invariant; the connection goes exactly with a record that aborts its session; an onloaded connection has a released flight and the MAC over the six messages |
| ConnectionObject.TcpConnection.Flush | smartnic/offload_ssl/src/ssl.c:2842-2878 | does what the connection's step says; keeps the invariant; a flight leaves only behind a matched mig-fin, whole and kept; a key meta leaves the end of the flight in the header |
| ConnectionObject.TcpConnection.ApplyHws | smartnic/offload_ssl/src/tcp.c:3439-3476 | keeps the invariant; steering applied means a matched mig-fin, a released flight and the MAC over the six messages |
| ConnectionObject.TcpConnection.ForwardAppData | smartnic/offload_ssl/src/tcp.c:3511-3536 | hands out exactly what the connection's step says: the buffered packet, once, and only from a connection handed over |
| ConnectionObject.TcpConnection.Sweep | smartnic/offload_ssl/src/tcp.c:3747-3765 | the whole sequence of the main loop for one connection keeps the invariant; data goes to the host only from a connection handed over, a flight to the client only behind a matched mig-fin |
| ConnectionObject.RemovedIsInert | smartnic/offload_ssl/src/tcp.c:3752-3763 | the calls after a removal do nothing |

## Left out

- Migration.ReleasedOnlyAfterInstall: says TCP install and not kTLS install, because a duplicate key meta is answered whatever the socket state.
- Migration.HostKeeps: an exhausted object pool is not an event, because the code dereferences the missing object before testing it.
- Pka.PipelineSafe: does not cover the removal of a session whose request is outstanding, or requests the hardware refuses, because the recycled operation may still be referenced.
- Hkdf.HkdfExpandInternal: requires other than 255 blocks, because at 255 the loop does not end.
- Hkdf.HkdfExpandLabel: requires label and context of at most 255 bytes, which is what the code's buffer holds, and other than 255 blocks.
- Recovery.FlightCanLeave: says that a continuation exists, not that it happens, because clients and the channel may stay silent; a client the host already knows is answered for its old entry.
- Extensions.UnpackExtensions: covers the blocks the encoding describes; other blocks are covered turn by turn by the step function, reading zeros beyond the packet.
- BigNum.RandNonZeroInteger: covers little-endian operands and a generator that eventually draws a non-zero number.
- ConnectionObject.TcpConnection.Receive: for orderly clients and connections in use only, because an early protected record leaves the invariant (`Session.EarlyRecordIff`); records at freed slots are in `FreeSlots`.
- HandshakeProofs.HelloKeeps: says that the process ends, not how, where a message longer than the rest of handshake_msgs first overwrites its length, because C promises nothing then.
- NicTable.Sessions.Sweep: the routines run at each visit are represented by whether they remove the connection.
- Which records return to the pool: one of an unknown type never does, and one whose decryption failed does twice; an empty pool is an event.
- Interleavings of one payload with other work of its core: the model allows more of them than the code, in that records may reach a freed slot at any time.
- The order in which queued and newly arrived records are handled relative to each other.
- The reset-connection recovery beyond its lookup, and the close sent for an unterminated connection.
- Forwarding of client FIN and RST packets, and the 126-byte acknowledgement adjustment of an active session.
- DPDK, flow rules, kernel calls, HTTP, certificate loading, elliptic-curve and cipher internals.
- TLS 1.2, RSA, CBC and MAC paths, statistics, argument parsing, benchmarks and shutdown.
