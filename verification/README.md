# pqcscan, verified cores

A Dafny 4.11 model of the parts of pqcscan whose correctness is hard to see by reading: the fleet reporting
protocol, the hand-written wire codecs, the ROCA fingerprint, the comment and string masking lexer, and the identity,
diff and ordering logic. Each module follows one source file (or one component of it). Imperative code is modelled
imperatively, as classes and methods with loops, and each such method is proved against a specification function; the
theorems are about those functions. `dafny verify dfyconfig.toml` checks the whole project.

| module | models | main results |
|---|---|---|
| `Report`, `Fleet`, `FleetAgent`, `FleetCollector`, `FleetSafety`, `FleetAnswers`, `FleetRaces`, `Replay` | `cli/_report.py`, `daemon/fleet.py`, the store contract | no bundle is lost and no scan stored twice, in every run of any number of agents that share a directory without a lock, with lost, repeated and forged answers; a bundle counts as refused exactly when 400, 403 or 413 answered a request that held it; every report is such a run |
| `RateLimit` | `daemon/fleet.py` token bucket and body cap | the window bound, with clock values in any order, and what is granted for certain |
| `AgentLoop` | `cli/agent.py` | when each scan starts and how long each turn sleeps; ticks run only while retrying; back-off is min(60·2^(n-1), 3600) |
| `KeyHealth` | `core/keyhealth.py` | the residue-set test decides exactly whether the modulus is a power of 65537 modulo every odd prime up to 167; no key of the Infineon form is missed |
| `Quic`, `QuicInitial`, `QuicWire`, `QuicHello` | `probes/_quic.py`, the QUIC path of `probes/fs_pcap_crypto.py` | unprotection inverts protection; reassembly is sound and complete; keys and labels are the bytes of the two RFCs; a protected Initial yields what its ClientHello offers |
| `Tls13` | `probes/_tls13_keyschedule.py` | expansion, label injectivity, nonce uniqueness, record opening |
| `Kerberos`, `Ike`, `Pcap`, `ClientHello` | the other codecs | parsing inverts encoding for every well-formed message |
| `SrcStrip`, `SrcPieces` | `core/srcstrip.py` | a character is blanked exactly when it belongs to a comment or literal, described on the characters alone; masking is idempotent and keeps line numbers; the code filter is exact |
| `PyAst`, `PySymbols` | `core/pyast.py` | a hit is reported exactly for what stands for weak cryptography under the imports; consistent renaming of an imported name preserves the analysis, and exactly when |
| `Parity`, `Drift` | `core/parity.py` | titles normalise alike exactly when they differ in hosts only; normalisation is idempotent; drift is the symmetric difference of the keys |
| `CertChain` | `probes/fs_cert_chain.py` | the walk terminates on every issuer graph and is unique; there is a finding exactly for a weak chain, and it names the first algorithm of minimum rank |
| `Exposure`, `Sorting` | `core/exposure.py` | what each row says, worst first; exactly when the register does not depend on the order of the findings |

`Common` and `Bytes` hold shared vocabulary (first-occurrence dedupe, substrings, big-endian numbers, bitwise xor,
layout of concatenated fields).

HMAC, AES-ECB and the AEAD are function values that obey the usual laws (`open(seal(x)) = x`, fixed lengths);
`Tls13.LawsHaveAModel` shows that the laws are consistent. Unicode character classes, the IPv6 grammar, `str.lower` and
the hybrid-algorithm table are function values too, with only the facts used stated. Floating-point times and token
levels are reals. Exceptions of the source (`ValueError`, `struct.error`, `IndexError`) are `None` or an error value.

## Where code and documentation differ

- `flush_only` (cli/agent.py:112-126) reports the spool as drained when `kept == 0`. `Report.KeptZeroMeansSettled`
  proves what that means; it does not mean that the directory is empty. `Report.DrainedWithAFileLeft` gives a spool with
  one delivered file that cannot be unlinked, and `Report.EmptyMeansAllLeft` gives the exact condition.
- An acknowledgement promises that the scan_uuid is stored, not under which host: `FleetRaces.RacingLoserIsAcknowledged`
  plays out, from a fresh collector, the race behind the unique index (daemon/fleet.py:171-176), and
  `FleetSafety.StoredUnderOwnHostIff` says exactly when the row is the sender's own.
- spool/rejected is documented as holding permanently rejected files (cli/_report.py:157-159). A process that shares the
  state directory can read a file while it is being written and quarantine it for what it read:
  `FleetRaces.RejectedThoughNeverRefused` is such a run, and `FleetSafety.AcknowledgedMeansStored` says that this is the
  only way.
- The exposure register's tie-break is documented as deterministic (core/exposure.py:33-35). `Exposure.OrderFreeIff`
  says for which lists of findings it is; lists whose probe ids hold no `@` are among them
  (`Exposure.RegisterDependsOnMultiset`), and `Exposure.OrderMattersWithAt` gives two findings whose order changes the
  register.
- Renaming an imported name changes the label of an EC curve passed as that bare name (core/pyast.py:216-225), and
  nothing else: `PyAst.AnalysisUnchangedIff` gives the condition on the tree, `PyAst.RenamedCurveChangesHits` a module.
- `_read_tlv` is documented to raise on a truncated buffer (probes/_krb_asn1.py:124-126). `Kerberos.ReadTlvIff` says
  exactly when it does not: a length field that the end of the buffer cuts off, and of which only zeros are left, is read
  as an empty value. `Kerberos.TruncatedIsAccepted` is such a buffer.
- A parity key is documented as the identity of a finding, its hosts aside (core/parity.py:57-63). For findings with one
  endpoint port, `Parity.KeyIff` says exactly when keys agree: the titles differ in hosts only, or one of them ends in the
  very text that the port adds to the other. `Parity.SpeltOutPortSharesKey` gives two such titles.

## Model

| member | source | states |
|---|---|---|
| FleetSafety.NoBundleIsLost | src/pqcscan/cli/_report.py:143-240 | at every point of every run each dumped bundle is acknowledged, permanently refused, in flight, or in a complete file of the spool or of spool/rejected, or its own spool write failed and was reported |
| FleetAnswers.EveryEndingHappened | src/pqcscan/cli/_report.py:143-240 | the same with each ending told by what was heard: a 2xx with a JSON object to a request that held the bundle (or its file), a 400, 403 or 413 to one that held it, a failed spool write; likewise why a file is in spool/rejected and when an acknowledgement means stored |
| FleetAnswers.RefusedIff | src/pqcscan/cli/_report.py:25-25 | in every run a bundle counts as refused if and only if at some step an agent heard 400, 403 or 413 in answer to a request that held it |
| FleetAnswers.LedgerIsHistory | src/pqcscan/cli/_report.py:156-240 | dumped, refused, acknowledged, forged, not spooled and read early: each is recorded in a run if and only if an action of that kind happened in it |
| FleetAnswers.LaterKeepsTheFile | src/pqcscan/cli/_report.py:182-185 | no answer, a 401, a 429, a 5xx or a 2xx without a JSON object to a spooled file changes nothing on disk and ends the pass |
| FleetAnswers.LaterKeepsTheBundle | src/pqcscan/cli/_report.py:217-240 | every other answer to the bundle itself sends it to the spool, but for the one re-enrolment after a 401 |
| FleetAnswers.AnswerMeans | src/pqcscan/daemon/fleet.py:144-176 | 401 if and only if the token is not the host's own, 429 if and only if the limiter refuses, 503 only when the store is busy, 400, 403 and 413 only for a cause in the bundle or a lost race whose winner is pruned |
| FleetAnswers.AdmitIff | src/pqcscan/daemon/fleet.py:144-171 | each of 401, 429, 413, 403, 503, 400, 200 and passing on to the store, if and only if its cause is there and none that is looked at earlier |
| FleetAnswers.RefusalHasACause | src/pqcscan/daemon/fleet.py:144-176 | in every run, a refusal that is the collector's own was given at an earlier step to a request with that bundle, for such a cause |
| FleetSafety.NoScanIsStoredTwice | src/pqcscan/daemon/fleet.py:165-176 | no run makes the collector hold two scans with one scan_uuid, retries, lost answers and races included |
| FleetSafety.AcknowledgedMeansStored | src/pqcscan/daemon/fleet.py:165-187 | a bundle the collector acknowledged was stored; whatever sits in spool/rejected was refused, or was read before its write ended |
| FleetSafety.SuccessNamesTheHost | src/pqcscan/daemon/fleet.py:165-187 | in every run, a success stands for a stored scan of the sender's host, or, if the sender lost the race, of another host |
| FleetSafety.StoredUnderOwnHostIff | src/pqcscan/daemon/fleet.py:165-187 | whenever a request is answered with success, its scan_uuid is in a row of its own host if and only if the answer was not a lookup that found another host's row |
| FleetRaces.RacingLoserIsAcknowledged | src/pqcscan/daemon/fleet.py:171-176 | a run from a fresh collector in which two hosts' requests with one scan_uuid pass the duplicate check: one row, and the loser is answered 200 |
| FleetRaces.RejectedThoughNeverRefused | src/pqcscan/cli/_report.py:66-84 | a run in which a complete bundle that no answer refused ends in spool/rejected, because another process read its file during the write |
| FleetSafety.StepKeeps | src/pqcscan/cli/_report.py:156-240 | every step of any agent or of the collector keeps the whole-system invariant |
| FleetSafety.RunKeeps | src/pqcscan/cli/_report.py:156-240 | so does every run from a state that has it |
| FleetAgent.AgentMoves | src/pqcscan/cli/_report.py:143-240 | an agent step changes no other process, reuses no name, drops a spool file only once it is acknowledged, moved or reported as not spooled, and hands on the bundle it holds |
| FleetAgent.FillMoves | src/pqcscan/cli/_report.py:66-84 | ending a write, whole, torn, unsecured or on a file another process has moved, leaves the bundle in a complete file or reports it |
| FleetCollector.AdmitKeeps | src/pqcscan/daemon/fleet.py:144-171 | authentication, rate limit, limits and duplicate check keep scan_uuids unique and answers truthful |
| FleetCollector.InsertKeeps | src/pqcscan/daemon/fleet.py:165-176 | the insert under the unique index keeps them too, for the winner and the loser |
| FleetCollector.LookupKeeps | src/pqcscan/daemon/fleet.py:171-176 | so does the loser's lookup, recording whether the row is its own host's |
| FleetCollector.WithoutKeeps | src/pqcscan/store/repo.py:563-579 | deleting old scans removes exactly those and keeps scan_uuids unique |
| Replay.PassIsARun | src/pqcscan/cli/_report.py:156-191 | every replay pass of `Report` is a run of the step system with the same directories, after which the process stands where the code does |
| Replay.ReportIsARun | src/pqcscan/cli/_report.py:194-240 | every report of `Report` is a run of the step system with the same token file and directories, in which the bundle's story ends as the outcome says |
| Report.StateDir.FlushFile | src/pqcscan/cli/_report.py:156-191 | one file's fate: directories, counters and whether the pass stops |
| Report.FateIff | src/pqcscan/cli/_report.py:156-191 | a file is delivered, quarantined, stops the pass or raises if and only if the status on the wire is 2xx with a JSON object, one of 400, 403 and 413, one of 0, 401, 429 and 5xx (or a 2xx without a JSON object), or an unexpected exception |
| Report.PassAnswers | src/pqcscan/cli/_report.py:156-191 | a file comes to spool/rejected only on 400, 403 or 413; on 0, 401, 429 or 5xx it stays as it is and is the last tried; it leaves the spool only on a refusal or on a 2xx with a JSON object |
| Report.StateDir.FlushSpool | src/pqcscan/cli/_report.py:156-191 | the loop over the sorted listing leaves exactly the directories and counters of the specified pass |
| Report.TriedIsPrefix | src/pqcscan/cli/_report.py:156-191 | the files tried are a prefix of the listing, ended only by a stopping answer or an exception |
| Report.FlushTries | src/pqcscan/cli/_report.py:156-191 | a pass tries the listing in name order |
| Report.FlushPosts | src/pqcscan/cli/_report.py:156-191 | the bundles posted are the readable tried files, oldest first |
| Report.FlushRemoves | src/pqcscan/cli/_report.py:156-191 | exactly the delivered removable and the quarantined files leave the spool |
| Report.FlushQuarantines | src/pqcscan/cli/_report.py:156-191 | the rejected directory gains exactly the quarantined files, unchanged |
| Report.FlushCounts | src/pqcscan/cli/_report.py:156-191 | sent, kept and rejected are the numbers of files with each fate |
| Report.FlushKeepsFiles | src/pqcscan/cli/_report.py:156-191 | after a pass every file is still spooled, or quarantined, or was tried and acknowledged |
| Report.KeptZeroMeansSettled | src/pqcscan/cli/agent.py:112-126 | kept = 0 without an exception if and only if every file listed was delivered or quarantined |
| Report.EmptyMeansAllLeft | src/pqcscan/cli/agent.py:112-126 | the spool is empty afterwards if and only if every file was quarantined, or delivered and unlinked |
| Report.DrainedWithAFileLeft | src/pqcscan/cli/agent.py:112-126 | a delivered file that cannot be unlinked leaves kept = 0 and the spool not empty |
| Report.StateDir.AgentToken | src/pqcscan/cli/_report.py:96-124 | token, failure status, enrolment and token file are those of `GrantFor` |
| Report.GrantMeaning | src/pqcscan/cli/_report.py:96-124 | a token is had exactly when one is given, stored or granted; enrolment happens exactly when neither of the first two holds and a secret is configured; what it grants is stored |
| Report.StateDir.Send | src/pqcscan/cli/_report.py:206-215 | result, token posted with, enrolment and directory are those of `SendOnce` |
| Report.PostedIff | src/pqcscan/cli/_report.py:206-215 | a send posts the bundle if and only if it has a token and the replay did not raise, with that token, and ends as the answer says |
| Report.StateDir.ReportScan | src/pqcscan/cli/_report.py:194-240 | outcome, posts, enrolments and directory are those of `ReportOnce` |
| Report.ReportPosts | src/pqcscan/cli/_report.py:217-232 | at most two posts, each with its attempt's answer, and one re-enrolment; the second post follows a 401 and carries the token the second enrolment granted |
| Report.ExplicitTokenIsKept | src/pqcscan/cli/_report.py:219-222 | an explicit token is the only one used, nothing is enrolled and the stored token is untouched |
| Report.OutcomeIsTheLastAnswer | src/pqcscan/cli/_report.py:206-240 | rejected with status s if and only if the last post was answered s and s is 400, 403 or 413; reported if and only if it was answered 2xx with a JSON object; all else is spooled, or could not be |
| Report.ReportKeepsFiles | src/pqcscan/cli/_report.py:194-240 | nothing but the bundle appears in the spool, and a file leaves it only for spool/rejected or by being acknowledged in a replay |
| RateLimit.TokenBucket.TakeToken | src/pqcscan/daemon/fleet.py:55-63 | the new state and the verdict of one critical section |
| RateLimit.PotentialNeverRises | src/pqcscan/daemon/fleet.py:46-63 | tokens - then/interval never rises, whatever the clock value, and falls by one on a grant |
| RateLimit.GrantsBoundedByPotential | src/pqcscan/daemon/fleet.py:46-63 | grants of a known key up to a time are bounded by its potential there |
| RateLimit.WindowBound | src/pqcscan/daemon/fleet.py:46-63 | in every run, grants to one key with times in a window of length T number at most burst + T/interval, in any clock order |
| RateLimit.DeployedWindowBound | src/pqcscan/daemon/fleet.py:35-63 | the same with the deployed constants |
| RateLimit.TokensAreGranted | src/pqcscan/daemon/fleet.py:46-63 | as many takes as a key has tokens are granted, however fast they come |
| RateLimit.BurstIsGranted | src/pqcscan/daemon/fleet.py:35-63 | the first ten takes of a host not seen before are granted |
| RateLimit.DeployedPatientHost | src/pqcscan/daemon/fleet.py:35-63 | takes a minute apart are always granted |
| RateLimit.KeysAreIndependent | src/pqcscan/daemon/fleet.py:46-63 | dropping every other key's takes changes no grant of a key |
| RateLimit.PatientHostIsNeverRefused | src/pqcscan/daemon/fleet.py:46-63 | takes spaced by the interval are all granted |
| RateLimit.ReadCapped | src/pqcscan/daemon/fleet.py:67-82 | 413 if and only if the declared or the true length passes the cap, however the body is chunked; else the whole body |
| AgentLoop.AgentCmd | src/pqcscan/cli/agent.py:175-211 | the loop's trace of scans and sleeps, and the exit status under --once |
| AgentLoop.FlushOnlyWhileRetrying | src/pqcscan/cli/agent.py:180-211 | a turn that does not scan runs only while retries > 0 |
| AgentLoop.SleepEndsByNextScan | src/pqcscan/cli/agent.py:180-211 | no sleep is longer than the time left to the next scan |
| AgentLoop.ScansAreSpaced | src/pqcscan/cli/agent.py:180-211 | after a scan that did not crash the next one waits for the interval and the jitter after its end, after the n-th crash in a row for min(60·2^(n-1), 3600) seconds |
| AgentLoop.NextScanIs | src/pqcscan/cli/agent.py:180-199 | what a scan leaves in next_scan is exactly that sum |
| AgentLoop.SleepIs | src/pqcscan/cli/agent.py:206-211 | a turn sleeps the time left to the next scan or, with n > 0 retries, min(60·2^(n-1), 3600) if that is less, and never less than nothing |
| AgentLoop.RetriesCountStuckTicks | src/pqcscan/cli/agent.py:187-205 | n retries mean that n turns ago a report was spooled or a tick sent something, and that every turn since was a tick that sent nothing; none mean that the last turn was a scan that spooled nothing or a tick that drained the spool |
| AgentLoop.BackoffIsUncapped | src/pqcscan/cli/agent.py:48-51 | the n-th consecutive failure delay is min(60·2^(n-1), 3600): the exponent cap is invisible |
| AgentLoop.FailuresCountCrashes | src/pqcscan/cli/agent.py:187-197 | the failure counter is the number of crashing scans in a row |
| AgentLoop.CrashBackoff | src/pqcscan/cli/agent.py:180-211 | after the n-th crash in a row the next scan waits at least that delay |
| AgentLoop.CrashIsFollowedByAScan | src/pqcscan/cli/agent.py:180-211 | a crash leaves nothing to retry, so the next turn scans |
| KeyHealth.MultiplicativeOrder | src/pqcscan/core/keyhealth.py:28-39 | the least order for coprime a and m > 1, without reaching the `order > m` guard; 0 otherwise |
| KeyHealth.Collision | src/pqcscan/core/keyhealth.py:28-39 | among the first m + 1 powers two agree modulo m |
| KeyHealth.SomePowerIsOne | src/pqcscan/core/keyhealth.py:28-39 | some power with exponent between 1 and m is one, so the loop stops |
| KeyHealth.PowPeriodic | src/pqcscan/core/keyhealth.py:57-63 | powers repeat with the period of the order, so the finite set holds them all |
| KeyHealth.ResiduesOfPowers | src/pqcscan/core/keyhealth.py:59-63 | the set built by the loop holds n mod p if and only if n is a power of 65537 modulo p |
| KeyHealth.TestFingerprint | src/pqcscan/core/keyhealth.py:42-66 | true if and only if N >= 3 and N is a power of 65537 modulo every prime |
| KeyHealth.IsRocaVulnerable | src/pqcscan/core/keyhealth.py:42-66 | the same for the listed primes |
| KeyHealth.RocaFormIsFlagged | src/pqcscan/core/keyhealth.py:42-66 | every product of two factors of the Infineon form, for any common multiple of the primes, has the fingerprint |
| KeyHealth.ListedAreUnits | src/pqcscan/core/keyhealth.py:21-25 | 65537 is a unit modulo every listed prime |
| KeyHealth.ListedIffPrime | src/pqcscan/core/keyhealth.py:21-25 | the listed numbers are exactly the odd primes up to 167 |
| KeyHealth.FingerprintIff | src/pqcscan/core/keyhealth.py:42-66 | the verdict is true if and only if N >= 3 and, for every odd prime p up to 167, N is congruent to a power of 65537 modulo p |
| Quic.ReadVarint | src/pqcscan/probes/_quic.py:51-62 | the shift loop computes the big-endian value below the two prefix bits, or fails where the buffer ends |
| Quic.VarintRoundTrip | src/pqcscan/probes/_quic.py:51-62 | decoding inverts encoding in any of the four lengths, wherever the integer stands |
| Quic.VarintReadsTheBytes | src/pqcscan/probes/_quic.py:51-62 | on every buffer: the two high bits of the first byte give 1, 2, 4 or 8 bytes, the value is theirs modulo 2^(8n-2), and decoding fails if and only if fewer are left |
| Quic.FourEncodings | src/pqcscan/probes/_quic.py:51-62 | the four encodings of section 16 of RFC 9000: which values fit, and their bytes |
| Quic.SkipAck | src/pqcscan/probes/_quic.py:84-91 | the ACK skip passes exactly four integers |
| Quic.ReassembleCrypto | src/pqcscan/probes/_quic.py:70-105 | the frame loop yields the join of the specified chunk table, on arbitrary bytes |
| Quic.JoinChunks | src/pqcscan/probes/_quic.py:108-116 | the contiguous run from offset zero, in offset order |
| Quic.FramesParsed | src/pqcscan/probes/_quic.py:70-105 | an encoded list of PADDING, PING, ACK and CRYPTO frames parses to the chunk table it denotes |
| Quic.UnknownFrameStops | src/pqcscan/probes/_quic.py:104-105 | frames before one of unknown type are kept; it and what follows are not looked at |
| Quic.CutCryptoIsKept | src/pqcscan/probes/_quic.py:93-103 | a CRYPTO frame cut off by the end of the packet contributes the bytes that are there |
| Quic.ReassemblyIsSound | src/pqcscan/probes/_quic.py:70-116 | chunks that agree with one stream give None or a prefix of it |
| Quic.ReassemblyIsComplete | src/pqcscan/probes/_quic.py:70-116 | frames that tile a stream, in any order, give the whole stream |
| QuicInitial.LabelsAreSeparate | src/pqcscan/probes/_quic.py:37-48 | key, IV and header key of either version are expanded under pairwise different labels |
| QuicInitial.HeaderRead | src/pqcscan/probes/_quic.py:119-150 | the header walk recovers version, DCID, length and packet-number offset of every well-formed Initial |
| QuicInitial.PayloadOpened | src/pqcscan/probes/_quic.py:157-178 | sample, mask, packet number and AEAD input are those of the sender, so the payload opens to the frames |
| QuicInitial.UnprotectionInvertsProtection | src/pqcscan/probes/_quic.py:119-178 | a protected Initial of any known version, ids, token, packet number and payload yields exactly the reassembly of its frames, whatever follows in the datagram |
| QuicWire.KeysArePrescribed | src/pqcscan/probes/_quic.py:25-48 | the keys are HKDF-Expand under the salts and label encodings of RFC 9001 and RFC 9369, written out as bytes |
| QuicWire.FirstBytesOnTheWire | src/pqcscan/probes/_quic.py:119-131 | a protected Initial starts with the nibble 0xC and version 1, or 0xD and version 0x6B3343CF |
| QuicWire.OthersAreIgnored | src/pqcscan/probes/_quic.py:123-131 | short or over-long datagrams, short headers, other versions and other packet types yield nothing |
| QuicWire.ShortPayloadIsIgnored | src/pqcscan/probes/_quic.py:170-172 | so does a payload too short for the AEAD tag |
| QuicHello.InitialYieldsHello | src/pqcscan/probes/fs_pcap_crypto.py:222-248 | a protected Initial whose CRYPTO frames tile a ClientHello is parsed to what the ClientHello offers |
| Tls13.HkdfExpand | src/pqcscan/probes/_tls13_keyschedule.py:58-67 | exactly L bytes of the stream of section 2.3 of RFC 5869 if and only if L is at most 255 hash lengths |
| Tls13.ExpandIsPrefixMonotone | src/pqcscan/probes/_tls13_keyschedule.py:58-67 | a shorter expansion is a prefix of a longer one |
| Tls13.HkdfLabelInjective | src/pqcscan/probes/_tls13_keyschedule.py:70-85 | distinct (length, label, context) have distinct encodings |
| Tls13.HkdfExpandLabel | src/pqcscan/probes/_tls13_keyschedule.py:70-85 | the expansion under that label, or the exception exactly where a field does not fit |
| Tls13.NonceDeterminesSequence | src/pqcscan/probes/_tls13_keyschedule.py:148-151 | equal nonces mean equal sequence numbers |
| Tls13.NonceHoldsSequence | src/pqcscan/probes/_tls13_keyschedule.py:148-151 | the nonce xor the IV is the sequence number |
| Bytes.XorBitAt | src/pqcscan/probes/_tls13_keyschedule.py:151-151 | a bit of the xor is set where exactly one of the two is |
| Tls13.StripInner | src/pqcscan/probes/_tls13_keyschedule.py:171-177 | the backward scan splits content, nonzero type and zero padding, and fails only on all zeros |
| Tls13.InnerSplitUnique | src/pqcscan/probes/_tls13_keyschedule.py:171-177 | there is only one such split |
| Tls13.AeadOpen | src/pqcscan/probes/_tls13_keyschedule.py:154-177 | short records and failed authentication give None, else the split of the opened bytes |
| Tls13.OpenSealed | src/pqcscan/probes/_tls13_keyschedule.py:154-177 | a record sealed per sections 5.2 to 5.4 of RFC 8446 opens to exactly its content |
| SrcStrip.StripNoncode | src/pqcscan/core/srcstrip.py:98-121 | the nested loops blank exactly the characters inside the leftmost spans |
| SrcPieces.MatchIff | src/pqcscan/core/srcstrip.py:56-85 | the pattern of a language matches from i to e if and only if that text is one of its comments or literals, described by its first and last characters and what may stand between |
| SrcPieces.SpansIff | src/pqcscan/core/srcstrip.py:88-114 | the spans are exactly the comments and literals that begin where, reading from the left, something begins |
| SrcPieces.StripMasksPieces | src/pqcscan/core/srcstrip.py:98-121 | a character is blanked if and only if it belongs to such a piece and is no newline |
| SrcPieces.CodeIff | src/pqcscan/core/srcstrip.py:98-121 | a character belongs to none if and only if something begins there and no comment or literal does |
| SrcPieces.LineCommentIsBlanked | src/pqcscan/core/srcstrip.py:65-66 | from // in code, and in PHP from #, everything to the end of the line is blanked |
| SrcPieces.VerbatimIff | src/pqcscan/core/srcstrip.py:73-73 | a C# verbatim string ends at the last quote before which quotes come in pairs |
| SrcPieces.QuotedIff | src/pqcscan/core/srcstrip.py:56-58 | a quoted literal ends at the first quote on its line before which an even number of backslashes stands |
| SrcPieces.RawIff | src/pqcscan/core/srcstrip.py:70-70 | a Rust raw string ends at the first quote with as many hashes as it began with |
| SrcStrip.SpansAreMatches | src/pqcscan/core/srcstrip.py:88-114 | every span is what the scanner matches at its start, which `SrcPieces.MatchIff` describes |
| SrcStrip.SpansAreOrdered | src/pqcscan/core/srcstrip.py:88-114 | spans are disjoint and in order |
| SrcStrip.OutsideFails | src/pqcscan/core/srcstrip.py:88-114 | no pattern matches at a position outside every span |
| SrcStrip.StripKeepsLines | src/pqcscan/core/srcstrip.py:98-121 | the number of newlines before every offset is unchanged |
| SrcStrip.NewlinesCount | src/pqcscan/core/srcstrip.py:24-24 | what is counted is the number of newlines before the offset |
| SrcStrip.CodeFinditer | src/pqcscan/core/srcstrip.py:124-150 | the filter keeps, in order, the matches whose first character blanking leaves unchanged |
| SrcStrip.FilterKeepsCode | src/pqcscan/core/srcstrip.py:124-150 | those are exactly the matches that start outside every span or at a character blanking leaves as it is |
| SrcPieces.KeptIff | src/pqcscan/core/srcstrip.py:124-150 | a match of the detection pattern is kept if and only if its first character is code, blank or past the end |
| SrcStrip.QuoteStillFails | src/pqcscan/core/srcstrip.py:56-58 | a quoted literal that failed at a code position still fails once other spans are blanked |
| SrcStrip.RawStillFails | src/pqcscan/core/srcstrip.py:70 | so does a Rust raw string |
| SrcStrip.VerbatimNeedsAQuote | src/pqcscan/core/srcstrip.py:73 | a C# verbatim string fails if and only if no quote follows, the backtracking at end of file included |
| SrcStrip.CodeStillFails | src/pqcscan/core/srcstrip.py:56-121 | no pattern of any language matches at a code position of the masked text |
| SrcStrip.StripIsIdempotent | src/pqcscan/core/srcstrip.py:56-121 | masking twice is masking once, in all six languages |
| Kerberos.MinBytes | src/pqcscan/probes/_krb_asn1.py:47-71 | the shift loop yields the shortest big-endian form |
| Kerberos.TlvRoundTrip | src/pqcscan/probes/_krb_asn1.py:124-140 | `_read_tlv` inverts `_tlv` wherever the TLV stands and whatever follows it |
| Kerberos.ReadTlvIff | src/pqcscan/probes/_krb_asn1.py:124-140 | on every buffer `_read_tlv` reads exactly the TLVs with definite length, minimal or not, and besides a length the end of the data cuts off in zeros |
| Kerberos.TruncatedIsAccepted | src/pqcscan/probes/_krb_asn1.py:124-140 | a buffer that ends before its length byte is read as an empty value |
| Kerberos.IntRoundTrip | src/pqcscan/probes/_krb_asn1.py:61-71 | `_decode_int` inverts `_der_int` on non-negative integers |
| Kerberos.DerIntIsMinimal | src/pqcscan/probes/_krb_asn1.py:61-71 | `_der_int` emits tag 2, the length and the shortest form whose first bit is the sign |
| Kerberos.IntRead | src/pqcscan/probes/_krb_asn1.py:154-156 | `_decode_int` reads every two's-complement INTEGER, negative or of any width |
| Kerberos.ContextFields | src/pqcscan/probes/_krb_asn1.py:143-151 | the field loop on arbitrary bytes, a malformed TLV being the error |
| Kerberos.FieldsRead | src/pqcscan/probes/_krb_asn1.py:143-151 | encoded TLVs are read back: context tags set their field, a repeated tag keeping its last value, and other tags are skipped |
| Kerberos.DistinctFieldsRecovered | src/pqcscan/probes/_krb_asn1.py:143-151 | with distinct tags every field is recovered |
| Kerberos.OnlyFieldsRecovered | src/pqcscan/probes/_krb_asn1.py:143-151 | every field found is the value of a TLV with its context tag |
| Kerberos.EtypesFromInfo | src/pqcscan/probes/_krb_asn1.py:159-170 | the loop over ETYPE-INFO entries, on arbitrary bytes |
| Kerberos.EtypesFromMethodData | src/pqcscan/probes/_krb_asn1.py:173-185 | the loop over PA-DATA, on arbitrary bytes |
| Kerberos.MethodDataRead | src/pqcscan/probes/_krb_asn1.py:173-185 | METHOD-DATA with any ETYPE-INFO, ETYPE-INFO2 and other elements gives the offered etypes in order |
| Kerberos.KrbErrorRoundTrip | src/pqcscan/probes/_krb_asn1.py:198-235 | a KRB-ERROR, with or without an error code and e-data, parses to the code it has and the first-occurrence dedupe of the etypes it offers |
| Kerberos.AsRepRoundTrip | src/pqcscan/probes/_krb_asn1.py:198-235 | an AS-REP parses to the etypes of its padata, if any, and the one of enc-part, if any, deduped |
| Kerberos.BrokenEdata | src/pqcscan/probes/_krb_asn1.py:216-235 | an unreadable e-data costs the etypes, not the error code |
| Kerberos.BrokenCode | src/pqcscan/probes/_krb_asn1.py:216-235 | an unreadable error code costs both |
| Kerberos.BrokenAsRep | src/pqcscan/probes/_krb_asn1.py:222-235 | an unreadable padata or enc-part of an AS-REP costs its etypes |
| Kerberos.OtherMessageIsBlank | src/pqcscan/probes/_krb_asn1.py:198-235 | any other message leaves all defaults |
| Common.DedupeLoop | src/pqcscan/probes/_krb_asn1.py:188-195 | the loop with its `seen` set computes the dedupe |
| Common.DedupeMeaning | src/pqcscan/probes/_krb_asn1.py:188-195 | the dedupe holds the same values, each once, in the order of first occurrence |
| Ike.AttrKeyLength | src/pqcscan/probes/_ike_packet.py:263-277 | the attribute loop on arbitrary bytes |
| Ike.ParseSaPayload | src/pqcscan/probes/_ike_packet.py:280-313 | the proposal and transform loops on arbitrary bytes, without an out-of-bounds read |
| Ike.ExtractSaPayload | src/pqcscan/probes/_ike_packet.py:316-330 | the payload walk on arbitrary bytes |
| Ike.SaRoundTrip | src/pqcscan/probes/_ike_packet.py:280-313 | parsing a built SA gives the transforms in order, for every list of up to 255 |
| Ike.SaRead | src/pqcscan/probes/_ike_packet.py:280-313 | the first proposal of any SA is read, whatever its number, protocol, SPI and announced count of transforms, and whatever follows it |
| Ike.WalkFindsFirstSa | src/pqcscan/probes/_ike_packet.py:316-330 | the walk finds the first SA of any well-formed payload chain, or nothing |
| Ike.InitRoundTrip | src/pqcscan/probes/_ike_packet.py:237-259 | the full IKE_SA_INIT parses back to the offered transforms |
| Ike.InitBytes | src/pqcscan/probes/_ike_packet.py:237-259 | the request byte by byte: SPIs, SA first, version 2.0, exchange 34, initiator flag, message id 0, total length, SA, KE of group 14, nonce |
| Pcap.IterClassic | src/pqcscan/probes/_pcap.py:48-65 | the record loop, in either byte order |
| Pcap.CutCaptureRead | src/pqcscan/probes/_pcap.py:48-65 | a capture cut anywhere yields exactly its complete leading records |
| Pcap.CompleteAll | src/pqcscan/probes/_pcap.py:48-65 | an uncut one yields every frame |
| Pcap.FileRead | src/pqcscan/probes/_pcap.py:31-65 | a capture of either byte order and either resolution is recognised by its magic number and read to its link type and all its frames |
| ClientHello.ParseKeyShareGroups | src/pqcscan/probes/_pcap.py:329-337 | the key-share loop on arbitrary bytes |
| ClientHello.ParseClientExtensions | src/pqcscan/probes/_pcap.py:305-326 | the extension loop on arbitrary bytes |
| ClientHello.WordsMean | src/pqcscan/probes/_pcap.py:320-322 | of a group list every whole 16-bit word is read, on any bytes |
| ClientHello.VersionsMean | src/pqcscan/probes/_pcap.py:314-316 | of a version list every whole word its length byte announces is read, or it is an error if and only if one is cut off |
| ClientHello.ExtensionsRead | src/pqcscan/probes/_pcap.py:305-326 | every encoded extension list is read back as what it offers, bytes behind the lists inside an extension ignored |
| ClientHello.BodyRead | src/pqcscan/probes/_pcap.py:266-302 | every encoded ClientHello body is read back |
| ClientHello.ShortBodyRead | src/pqcscan/probes/_pcap.py:283-297 | a body that ends before or right after its compression methods offers its suites and nothing else |
| ClientHello.ClientHelloRoundTrip | src/pqcscan/probes/_pcap.py:238-302 | a ClientHello in one record, whatever follows it, yields its suites, versions, key shares and the deduped union of groups |
| PyAst.Analyzer.CollectImports | src/pqcscan/core/pyast.py:72-83 | the breadth-first walk binds what the imports of the whole tree bind, later over earlier |
| PyAst.Analyzer.WalkTree | src/pqcscan/core/pyast.py:98-103 | the walk appends the hits of every node in breadth-first order |
| PySymbols.HitIff | src/pqcscan/core/pyast.py:72-229 | a hit is reported if and only if a node that occurs in the tree is to be reported as it: a call, or legacy TLS constant, of what stands in the table |
| PySymbols.CallRuleIff | src/pqcscan/core/pyast.py:117-194 | the chain of rules reports a call exactly as an unordered table does: no rule hides another |
| PySymbols.ResolveIff | src/pqcscan/core/pyast.py:85-94 | an expression resolves to d if and only if it is a name with attributes and d is what the name stands for, followed by them |
| PySymbols.CollectIff | src/pqcscan/core/pyast.py:72-83 | what a name stands for is what the last import that binds it says, `import d`, `import d as n`, `from p import q` or `from p import q as n` |
| PySymbols.WalkReachesTheTree | src/pqcscan/core/pyast.py:98-103 | the walk reaches exactly the nodes of the tree |
| PySymbols.WalkByLevels | src/pqcscan/core/pyast.py:98-103 | it does so level by level |
| PySymbols.KeySizeIff | src/pqcscan/core/pyast.py:200-214 | the key size is the literal of the last key_size keyword |
| PyAst.ResolveMoved | src/pqcscan/core/pyast.py:85-94 | a renamed expression resolves to the same dotted name |
| PyAst.CurveMoved | src/pqcscan/core/pyast.py:216-225 | only a bare curve name is carried into its label |
| PyAst.RenamingPreservesAnalysis | src/pqcscan/core/pyast.py:72-229 | consistent renaming of an imported name to a fresh one changes nothing but such labels |
| PyAst.AnalysisUnchangedIff | src/pqcscan/core/pyast.py:72-229 | the hits are unchanged if and only if no call in the tree generates an EC key on a curve given by the renamed name |
| PyAst.RenamedCurveChangesHits | src/pqcscan/core/pyast.py:216-225 | a module with such a call, for any package and curve, whose hits change |
| Parity.NormTitleLoop | src/pqcscan/core/parity.py:46-53 | the loop normalises each token in the light of its own last output |
| Parity.TokenStays | src/pqcscan/core/parity.py:32-43 | a normalised token normalises to itself |
| Parity.TitleStays | src/pqcscan/core/parity.py:46-53 | normalisation is idempotent when the result has at most 512 characters |
| Parity.SplitJoin | src/pqcscan/core/parity.py:51-53 | splitting joined tokens gives them back |
| Parity.MovedTitle | src/pqcscan/core/parity.py:46-53 | titles, each stripped of its own host name, normalise identically if and only if they differ in hosts only: host:port tokens with equal ports, addresses, names after "at", or the mark itself |
| Parity.TokensAlikeIff | src/pqcscan/core/parity.py:32-43 | two tokens are identified if and only if they are equal or differ in hosts only |
| Parity.OrdinaryStays | src/pqcscan/core/parity.py:32-43 | a token that is no host in brackets is left as it is |
| Parity.WithoutAtWordsStay | src/pqcscan/core/parity.py:32-43 | without "at" before it, so is every token whose core is neither host:port nor an address |
| Parity.AfterAtIff | src/pqcscan/core/parity.py:46-53 | a token is read as a name if and only if an "at" stands before it that is not itself a name after "at" |
| Parity.HostPortIff | src/pqcscan/core/parity.py:22-27 | host:port is a host, a colon and one to five digits |
| Parity.Ipv4Iff | src/pqcscan/core/parity.py:22-27 | an IPv4 literal is four groups of one to three digits with dots between |
| Parity.HostShapeIff | src/pqcscan/core/parity.py:22-27 | a host is a bracketed literal, an IPv4 address or a name of letters, digits, dots, underscores and hyphens |
| Parity.TitleIsCut | src/pqcscan/core/parity.py:46-50 | only the first 512 characters of a title and 253 of a host are looked at |
| Parity.PortDecides | src/pqcscan/core/parity.py:32-43 | host:port tokens in the same brackets are identified if and only if the ports agree |
| Parity.LiteralNorm | src/pqcscan/core/parity.py:32-43 | an IPv4 or IPv6 literal in any brackets becomes the mark, the brackets staying |
| Parity.NameNorm | src/pqcscan/core/parity.py:32-43 | after "at" a host name becomes the mark, what follows it in the token staying |
| Parity.PathDecides | src/pqcscan/core/parity.py:65-66 | with paths, keys agree if and only if probe, algorithm and the path's first 512 characters do |
| Parity.EndpointPortDecides | src/pqcscan/core/parity.py:68-70 | endpoint ports the title lacks are told apart |
| Parity.KeyShowsPort | src/pqcscan/core/parity.py:67-71 | without a path the key is the normalised title, followed by the endpoint's port if and only if that is plain and the title lacks it |
| Parity.PortIff | src/pqcscan/core/parity.py:68-68 | the port is what follows the last colon in the endpoint's first 512 characters |
| Parity.PlainPortIff | src/pqcscan/core/parity.py:69-69 | a plain port is one to five ASCII digits |
| Parity.KeySurvivesMove | src/pqcscan/core/parity.py:56-71 | a finding keeps its key when its hosts change and its ports do not |
| Parity.KeyIff | src/pqcscan/core/parity.py:56-71 | without paths and with equal endpoint ports, keys agree if and only if probe and algorithm do and the titles differ in hosts only, or one title spells out the port the other's key appends |
| Parity.SpeltOutPortSharesKey | src/pqcscan/core/parity.py:67-71 | two titles, not alike up to hosts, with one key: one spells out the port that the other's endpoint adds |
| Parity.WordDecides | src/pqcscan/core/parity.py:56-71 | where two titles with equally many words have different ones and one of the two is no host, the keys differ |
| Drift.CountIsSymmetricDifference | src/pqcscan/core/parity.py:74-97 | the count is the number of keys in exactly one scan |
| Drift.CountIsSymmetric | src/pqcscan/core/parity.py:74-97 | swapping the scans keeps the count |
| Drift.NoDriftIff | src/pqcscan/core/parity.py:74-97 | nothing drifted if and only if every finding of either scan has one of the other with its key |
| Drift.NewWordIsDrift | src/pqcscan/core/parity.py:74-97 | a finding whose title differs in an ordinary word from all that were there before is drift |
| Drift.EarlierDriftIgnored | src/pqcscan/core/parity.py:82-83 | an earlier drift row, wherever it stands in either scan, changes nothing |
| Drift.StoredChangeIsGenuine | src/pqcscan/core/parity.py:89-93 | a stored marker describes a key of exactly one scan, with a row that has it |
| Drift.EveryChangeIsStored | src/pqcscan/core/parity.py:89-93 | up to 500 changes, every such key has its marker |
| Drift.ChangesAreSorted | src/pqcscan/core/parity.py:91-92 | changes come sorted by kind and then by key, so the first 500 are the least |
| Drift.ChangesInOrder | src/pqcscan/core/parity.py:91-92 | keys gained come first, in the order of their parts, then keys lost |
| Drift.StoredRows | src/pqcscan/core/parity.py:93-97 | at most 501 markers; a summary comes last, its numbers add up to the count, and it is there past 500 changes |
| Drift.SummaryIff | src/pqcscan/core/parity.py:84-97 | there is a summary if and only if there are more than 500 changes or, past 50,000 findings, any |
| Drift.SummaryTotals | src/pqcscan/core/parity.py:84-97 | the summary's numbers are the keys gained and the keys lost |
| CertChain.BuildIndex | src/pqcscan/probes/fs_cert_chain.py:158-166 | each index maps a key to the first certificate that has it |
| CertChain.IssuedSubjects | src/pqcscan/probes/fs_cert_chain.py:168-171 | the subjects named as issuer by another subject's certificate |
| CertChain.Walk | src/pqcscan/probes/fs_cert_chain.py:188-206 | terminates on every index; the chain follows parent links with distinct subjects and stops only at a root, a missing parent or a closed cycle |
| CertChain.WalkIsUnique | src/pqcscan/probes/fs_cert_chain.py:188-206 | leaf and index determine the chain |
| CertChain.ParentIff | src/pqcscan/probes/fs_cert_chain.py:188-198 | the parent is the first certificate whose key identifier is the authority key identifier and, only if there is none, the first whose subject is the issuer |
| CertChain.ChainIff | src/pqcscan/probes/fs_cert_chain.py:188-206 | the walk is the chain the certificates themselves determine |
| CertChain.WeakestLink | src/pqcscan/probes/fs_cert_chain.py:208-217 | the first algorithm of least rank on the chain, if any ranks below PQC-ready |
| CertChain.WalkAndEmit | src/pqcscan/probes/fs_cert_chain.py:180-236 | a finding if and only if the chain has a weak, named link; it names the first algorithm of minimum rank, below PQC-ready, and where it is |
| CertChain.SilentIffStrong | src/pqcscan/probes/fs_cert_chain.py:173-220 | with named algorithms, the probe has a finding for a leaf if and only if something on its chain ranks below PQC-ready |
| CertChain.EmitChains | src/pqcscan/probes/fs_cert_chain.py:151-178 | every leaf with a weak chain has its finding, and every finding is owed to such a leaf |
| CertChain.FindingIff | src/pqcscan/probes/fs_cert_chain.py:151-236 | a leaf with named algorithms has a finding if and only if a key or hash on its chain is of one of the four classes below PQC-ready |
| CertChain.RanksAscend | src/pqcscan/probes/fs_cert_chain.py:28-36 | the classes in order of rank, information and error last |
| Exposure.RowMeans | src/pqcscan/core/exposure.py:144-161 | a row is the product, from 1 to 27, of three axes: severity, lifetime of the secret, difficulty of the fix, the last two by prefixes and parts of the probe id |
| Exposure.LongevityIff | src/pqcscan/core/exposure.py:104-109 | 3 for long-lived key material, 2 for transport and configuration, else 1 |
| Exposure.FeasibilityIff | src/pqcscan/core/exposure.py:112-119 | 1 for a configuration flip, 3 for what is baked in, else 2 |
| Exposure.TierIff | src/pqcscan/core/exposure.py:122-129 | the tiers begin at 18, 9 and 4 |
| Exposure.RefIff | src/pqcscan/core/exposure.py:132-161 | the reference is the probe id and the first 60 characters of the first of six evidence entries, a host with its port |
| Exposure.RowsIff | src/pqcscan/core/exposure.py:84-92 | there is a row for exactly the findings of the two worst classes that are not hybrid |
| Exposure.WorstFirst | src/pqcscan/core/exposure.py:164-172 | exposure falls along the register; ties come by reference and then by algorithm |
| Exposure.RegisterKeepsTheLeast | src/pqcscan/core/exposure.py:164-172 | the register is the 200 least rows by (-exposure, reference, algorithm), in order |
| Exposure.KeyDeterminesRow | src/pqcscan/core/exposure.py:144-171 | without '@' in probe ids the sort key determines the whole row |
| Exposure.RegisterDependsOnMultiset | src/pqcscan/core/exposure.py:164-172 | in particular the order does not matter without '@' in probe ids |
| Sorting.SortDependsOnMultiset | src/pqcscan/core/exposure.py:171 | a stable sort by a key that determines the element gives one result for every arrangement of its input |
| Sorting.StrLeIff | src/pqcscan/core/exposure.py:171 | strings compare by their first difference, a prefix coming first |
| Exposure.OrderFreeIff | src/pqcscan/core/exposure.py:164-172 | every arrangement of the findings gives one register if and only if vulnerable findings that tie, with fewer than 200 rows below them, have equal rows |
| Sorting.FirstOfTies | src/pqcscan/core/exposure.py:171 | the sort is stable: the first of the input with a key comes right after the rows with smaller keys |
| Exposure.OrderMattersWithAt | src/pqcscan/core/exposure.py:144-172 | two findings, one with an '@' in its probe id, whose order changes the register |

## Left out

- Network, subprocess and filesystem probes, FastAPI routing, login, HTML, SSE and click options: input/output and user interface.
- X.509 and PKCS parsing, HMAC, AES and AEAD internals: abstract, with only their laws.
- The store behind the collector: rows keyed by scan_uuid under a unique index (src/pqcscan/store/migrations.py:25-27); a prune deletes any rows, and the host table changes arbitrarily on enrolment.
- Fleet: an agent killed between dumping a bundle and the end of its report is not modelled (the bundle then stays in flight), and spool names are fresh, as the nanosecond clock and uuid4 make them.
- Report: an enrolment whose token file is left half written or empty; a failure to store the token counts as a failed enrolment.
- Fleet: the rate limiter's verdict and a wrong host are free choices of the collector, so its runs include every run of the real one; the bound itself is in `RateLimit`.
- Rounding of floating-point clocks and token levels: reals are used.
- The composition of `Tls13` into the handshake traffic keys, and key-update: only straight-line calls of the modelled functions.
- QUIC: of an ACK with further ranges or ECN counts only four integers are skipped, as in the source; the nonce uses the on-wire packet number.
- Kerberos.TlvRoundTrip: values shorter than 256^127 bytes, the limit of the long length form.
- Kerberos.IntRoundTrip: the same limit; negative integers, for which the encoder's loop does not stop, are outside its domain (decoding them is `Kerberos.IntRead`).
- Kerberos: `build_as_req` and the generated nonce and times.
- Ike: transform names and classifications, a finite table.
- Pcap: pcapng, link, IP and TCP decoding, ServerHello and SSH KEXINIT.
- PyAst: the sentences attached to hits, and scopes, which the analyzer ignores as well.
- Parity: the IPv6 pattern and the substitution of a given host name are function values; `TitleStays` is about titles without a host argument.
- CertChain: key reuse across certificates.
- Exposure: `tier_counts` and the hybrid-algorithm table.
- Scores, snippet and severity tables, renderers and keyword probes: finite lookup and simple counting.
