# Model of the AIC verifier SDK

The SDK decides whether an agent's connection is admitted, and leaves evidence of what it
decided. This project models the parts of it that hold loops, state or interleavings, and
proves what they promise over all inputs, all runs and all schedules.

| file | what it models |
|---|---|
| `ByteStrings.dfy` | byte strings, hexadecimal text, the hash function as a parameter |
| `TreeShape.dfy`, `Merkle.dfy` | the Merkle audit tree, its proofs, and section 2.1 of RFC 6962 |
| `AuditChain.dfy` | sealed batches, each naming the root before it |
| `EvidenceExport.dfy` | the digest chain and Merkle root of an exported bundle |
| `AuditQueue.dfy` | the bounded queue between `Log`, the writer and `Close`, step by step |
| `RotatingLog.dfy` | the size-rotated log file and its numbered backups |
| `AuditSearch.dfy` | reading the log: the binary search for a start time and the filtered scan |
| `OcspCache.dfy` | the OCSP cache with request coalescing, step by step |
| `Utf8.dfy` | reading characters from byte strings |
| `Coverage.dfy`, `GlobMatching.dfy` | which capability covers which, over `filepath.Match` |
| `DelegationChain.dfy` | multi-level delegation: structure, signatures, attenuation |
| `ReplayStore.dfy`, `NonceCache.dfy` | the one-time-use nonce store; the delegation nonce cache |
| `RiskMonitoring.dfy` | the sliding-window risk monitor, with its buffers filtered in place |
| `ConstraintStrings.dfy` | constraint strings, the registry of evaluators, discharge of obligations |
| `ClcDecisions.dfy` | operation decisions, their aggregate, and challenges |
| `EvidenceDir.dfy` | verification of an evidence directory in two passes |

How the model is built:

- The hash is any function from byte strings to 32 bytes. Nothing says it has no
  collisions (over a finite range that would be false). Where the promise rests on collision
  resistance, the theorem says "the claim holds, or these two different inputs have one
  hash", and a ghost function computes the two inputs.
- Goroutines are threads of a step relation. A step is what one thread does inside one
  critical section, or between two. The theorems are about every run, that is about every
  interleaving. A field that only records history (`log`, `enqueued`, `written`) is never
  read by a step.
- Signatures, certificates, JSON, ASN.1 and the capability language are functions given to
  the model: the theorems hold whatever they answer. Clocks are numbers that the caller or
  a step supplies.
- Objects whose methods change fields are classes with a `Valid()` invariant, and every
  method is proved against a specification function that the run theorems are then about.
- Every lemma switches automatic induction off: each proof is the one that is written.
- A string is a string of bytes, one byte to each of its characters; where the code reads
  UTF-8 characters from it, the model decodes them (`Utf8.dfy`).
- Certificate serials are natural numbers; lengths, counters and times are unbounded
  integers.

Findings, where the code does not do what its text suggests. Each is drawn as a line: what
holds on one side of it for all inputs or runs, and what fails on the other.

- Coverage is transitive below simple ancestors (`SimpleIsTransitive`). Below an ancestor
  with a `?` or an inner `*`, without classes and escapes, it never is
  (`TransitiveIffSimple`), and then a chain of two levels is accepted and ends outside it
  (`AttenuationEscapes`): below one such capability every accepted chain ends inside it
  exactly when it is simple (`EndsInsideIffSimple`).
- `filepath.Match` takes each chunk as early as it can. On ASCII names that is right for every
  well-formed pattern in which no class matches the slash together with some other ASCII
  character (`MatchIsGlob`). For every class that does, some pattern with it misses a match
  (`GreedMissesWithMixedClass`); a negated class does exactly when it names neither the slash
  nor some other ASCII character (`NegatedClassIsMixed`). In longer characters a star stops
  between bytes: `*??` matches every single character of three or four bytes
  (`MarksCountBytes`), and of the names in valid UTF-8 the matcher is right, for every pattern
  of that kind, exactly about those in ASCII (`RightExactlyAboutAscii`).
- An audit entry can be dropped while the queue has room, but only if a timer fires before
  its call has looked at the queue (`OnlyEarlyTimersDropWithRoom`). From every state with an
  open queue and a critical call about to look, that can happen (`EarlyTimerDropsWithRoom`;
  `LateDropWithRoom` is a whole run).
- Entries are stamped before they are queued. They reach the file in time order if, while the
  queue is open, nobody on the way to it can be overtaken by a later stamp
  (`NoOvertakingKeepsTimeOrder`). From every state with an open queue in which someone can,
  some continuation breaks the order (`OvertakingBreaksTimeOrder`; `StampsMayRunBackwards`
  is a whole run), and the start-time search relies on it.
- The 24 hours of the nonce cache run from a clock reading taken before the store
  (`ScopesAreApart`). Whatever time passes between the two is lost from them, down to nothing
  (`DelayIsLost`).
- The OCSP cache's key leaves the issuer out. A nil result is about the certificate itself if
  no two certificates share serial and responder URL (`NilIsAboutTheCertificate`); any two
  that do can pass on each other's answers (`AnotherIssuersAnswer`).
- A risk rule is judged on the full history within its own window exactly when nothing lies
  between that window's beginning and a cut-off the other windows set (`OwnWindowExactly`),
  as always with one window for all rules (`OneWindowForgetsNothing`) and not always with two
  (`ShorterWindowForgets`).
- Session and operation constraints, and network and time ones without parameters, are lost
  between printing and parsing; of the built-in constraints the connection evaluator
  discharges exactly the others whose evaluator accepts (`BuiltInDischargedExactly`).
- After a batch without entries `SealChecked` never seals another (`EmptyBatchEndsTheChain`),
  and the first batch can be such a one (`EmptyFirstBatch`). `Seal` appends whatever the link.
- The comment at `delegation_chain.go:164` says a depth of zero or less means no limit; the
  code at `decision.go:1001` then rejects every chain (`NoDepthNoChain`), and the model
  follows the code.

## Model

| member | source | states |
|---|---|---|
| `ByteStrings.HexInjective` | evidence.go:525-531 | Two byte strings with one hexadecimal text are one byte string, so comparing roots or digests as text loses nothing. |
| `ByteStrings.HexText` | merkle.go:76-81 | The text has two lower-case digits for every byte, the high half first. |
| `TreeShape.SplitIsLargestPowerOfTwo` | merkle.go:41-68 | The split point used in the recursive definition is the largest power of two smaller than n, and no other number is. |
| `TreeShape.TopJoins` | merkle.go:51-66 | Pairing level by level with odd nodes promoted gives, for two halves split at that point, the node over the two halves' tops; for any node operation. |
| `TreeShape.LeftClimbJoins` | merkle.go:95-106 | Halving an index level by level in a joined tree takes the left half's steps and then one to the right half's top. |
| `TreeShape.RightClimbJoins` | merkle.go:95-106 | The same for an index in the right half, whose last step is to the left half's top. |
| `TreeShape.CeilLog2IsLeast` | merkle.go:245-250 | The proof bound is the least k with n <= 2^k. |
| `TreeShape.ClimbingLength` | merkle.go:90-108 | An index climbs in at most ceil(log2 n) steps. |
| `Merkle.NodeInputInjective` | merkle.go:20-31 | With a child of digest width on one side, a node's hash input, byte 1 and the two children, determines both children, whatever the sibling's length. |
| `Merkle.TopIsMTH` | merkle.go:41-68 | The level loop's root is the Merkle Tree Hash of section 2.1 of RFC 6962, byte for byte: the hash of byte 0 and the leaf for one leaf, and of byte 1, the left half's hash and the right half's for more. |
| `Merkle.ClimbingIsPath` | merkle.go:90-108 | The steps collected by index arithmetic are the audit path of section 2.1.1. |
| `Merkle.MerkleTree.constructor` | merkle.go:41-68 | The object holds the levels of its leaves and RFC 6962's root; no leaves give no root. |
| `Merkle.MerkleTree.Proof` | merkle.go:90-108 | Returns the audit path of section 2.1.1 for an index in range, and nothing otherwise. |
| `Merkle.MerkleTree.RootText` | merkle.go:76-81 | The root as text, empty exactly for a tree without leaves. |
| `Merkle.VerifyProof` | merkle.go:111-121 | Accepts exactly when the steps lead from the hash of byte 0 and the leaf to the root, each step hashing byte 1 and the two children in their order, for siblings of any length. |
| `Merkle.VerifyProofBounded` | merkle.go:126-131 | The same, refusing proofs longer than a non-negative bound. |
| `Merkle.PathReachesRoot` | merkle.go:90-121 | Completeness: every leaf's audit path is accepted against the root. |
| `Merkle.AcceptedProofIsAuditPath` | merkle.go:111-121 | Soundness: any leaf and steps accepted against a tree's root are a leaf of the tree and exactly its audit path, or two different hash inputs with one hash are produced. |
| `Merkle.RootBindsLeaves` | merkle.go:41-68 | Two non-empty leaf lists of any lengths with one root are one list, or a collision is produced. |
| `Merkle.RootHexBinds` | merkle.go:76-81 | The same for the root's text, the empty list included. |
| `Merkle.PathLength` | merkle.go:90-108 | An audit path has at most ceil(log2 n) steps. |
| `AuditChain.Chain.SealChecked` | merkle.go:186-213 | Seals exactly when the chain is empty or the non-empty link given is the latest root, keeps the chain linked, and changes nothing when it refuses; the runs below are runs of it. |
| `AuditChain.Chain.Seal` | merkle.go:162-181 | Appends a record of the batch with whatever link it is given. |
| `AuditChain.Chain.VerifyContinuity` | merkle.go:218-231 | Accepts exactly when every batch after the first names its predecessor's root. |
| `AuditChain.Chain.Verify` | merkle.go:234-252 | For a sealed batch, accepts exactly the proofs within the length bound that lead to the batch's own root, and nothing for an empty batch; other batch numbers are an error. |
| `AuditChain.VerifyMeansMembership` | merkle.go:234-252 | Every entry of a sealed batch is accepted with its audit path, the length bound notwithstanding, and what is accepted is that or a collision. |
| `AuditChain.SealingKeepsLinked` | merkle.go:186-213 | One accepted batch keeps the chain linked. |
| `AuditChain.RunStaysLinked` | merkle.go:186-231 | Every run of SealChecked leaves a continuous chain with no batch behind an empty one. |
| `AuditChain.AcceptableLinks` | merkle.go:190-198 | The one link a non-empty chain accepts is its latest root, and behind an empty batch it accepts none. |
| `AuditChain.EmptyBatchEndsTheChain` | merkle.go:186-213 | Once the last batch is empty, no run of further SealChecked calls seals anything. |
| `AuditChain.EmptyFirstBatch` | merkle.go:186-213 | The first batch may be empty, and is then the only one SealChecked ever seals. |
| `AuditChain.FollowingLatestNeverFails` | merkle.go:186-262 | With non-empty batches and LatestRoot passed on, every call seals its batch, in order. |
| `AuditChain.EndsMayBeCut` | merkle.go:218-231 | Any contiguous stretch of a continuous chain passes as a chain. |
| `AuditChain.DeletionUnnoticed` | merkle.go:218-231 | Deleting an interior block passes only if the batch before it and its last batch have the same entries, or a collision is produced; equal entries do pass. |
| `AuditChain.SelectionUnnoticed` | merkle.go:218-231 | Any selection, repetition or reordering of a chain's batches passes exactly when each batch kept may stand behind the one before it, which is to say that its own predecessor has that one's entries or, for the first batch, that it was sealed with that one's root; or a collision is produced. |
| `AuditChain.SelectionIsContiguous` | merkle.go:218-231 | So if no two batches agree and the first batch's link is no batch's root, only contiguous stretches pass, unless the hash collides. |
| `EvidenceExport.FillChain` | evidence.go:511-538 | Each chain entry carries its line's digest and its predecessor's, in line order. |
| `EvidenceExport.ChainLinks` | evidence.go:511-538 | Every entry names its line's digest, and its predecessor's entry by the digest that one has; the first names none. |
| `EvidenceExport.LastEntrySpeaksForTwoLines` | evidence.go:517-538 | If two exports have one entry in common, it is at one place and its line and the line before it agree, or a collision is at hand. |
| `EvidenceExport.EarlierLinesAreSilent` | evidence.go:517-538 | And nothing more: entries whose line and line before agree are one entry, however the earlier lines differ. |
| `EvidenceExport.ExportRoot` | evidence.go:308-320 | The bundle's merkleRoot is the Merkle Tree Hash of the lines' digests; no digest is left out on the way through text. |
| `EvidenceExport.EqualRootsEqualLines` | evidence.go:308-320 | Two exports with one merkleRoot list the same raw lines in the same order, or a collision is produced. |
| `AuditQueue.StepKeepsInv` | audit.go:249-349 | Every step of Log, the writer and Close keeps the queue's invariant: order, one closer, no lost sender, drops counted. |
| `AuditQueue.QueueSafety` | audit.go:249-279 | In every interleaving the written entries are a prefix of the accepted ones, and each finished Log call is counted once: accepted, dropped and counted, refused after the stop, or caught by the closing channel. |
| `AuditQueue.Accounting` | audit.go:249-272 | Finished calls are the accepted, the dropped (as the counter says), the refused and the caught. |
| `AuditQueue.CloseDrains` | audit.go:326-349 | When the first Close returns, everything accepted is written, and no later step changes either. |
| `AuditQueue.CloseTerminates` | audit.go:274-349 | Once the channel is closed the writer always has a step that shrinks the work left, and no other step adds to it. |
| `AuditQueue.DropsMeanFullOrLate` | audit.go:255-271 | The counter moves by one, for a full queue or for a critical call whose timer had fired before it looked. |
| `AuditQueue.UncriticalEndsAtOnce` | audit.go:249-272 | Log does not wait: a ready uncritical call has exactly one step. It is sent into an open queue with room, dropped for a full one, and caught when the channel is closed. |
| `AuditQueue.CriticalWaits` | audit.go:255-264 | What a ready critical call can do: be sent into room, sleep on a full queue, be caught, or be dropped once its timer fired, but never by the default branch. |
| `AuditQueue.DroppedByItsOwnBranch` | audit.go:255-271 | Over any run a critical call that ends dropped was dropped by its timer, an uncritical one by the default branch. |
| `AuditQueue.RefusalsNeedTheStop` | audit.go:249-254 | Over any run a call is refused only after the stop and caught only after the channel was closed. |
| `AuditQueue.StoppedCallsAreRefused` | audit.go:249-252 | Over any run from a stopped logger no call that has yet to check gets past the check. |
| `AuditQueue.OnlyCloseStops` | audit.go:326-349 | Over any run of a new logger the closed flag is set only by a Close call that goes on to close, and refusals need the stop. |
| `AuditQueue.OnlyEarlyTimersDropWithRoom` | audit.go:255-271 | In a run in which no timer fires before its call has looked at the queue, nothing is dropped with room left. |
| `AuditQueue.EarlyTimerDropsWithRoom` | audit.go:255-263 | From every state with an open queue and a critical call that is ready and whose timer has not fired, some continuation drops that call from an empty queue. |
| `AuditQueue.LateDropWithRoom` | audit.go:255-263 | A whole run in which a critical entry is dropped from an empty queue. |
| `AuditQueue.StampsMayRunBackwards` | audit.go:249-272 | A run in which the accepted entries are not in the order of their times. |
| `AuditQueue.NoOvertakingKeepsTimeOrder` | audit.go:249-279 | In every run in which, while the queue is open, no call on its way can be overtaken, the accepted entries are in the order of their times. A call can be overtaken by one with a later stamp unless it is blocked and not behind it. |
| `AuditQueue.OvertakingBreaksTimeOrder` | audit.go:249-279 | From every state with an open queue in which a call can be overtaken, ready or blocked, some continuation ends out of order. |
| `RotatingLog.RotatingFile.Write` | audit.go:126-139 | After a write the directory holds the segments of all writes so far: live file last, backups in order, none beyond the limit. |
| `RotatingLog.RotatingFile.Rotate` | audit.go:141-170 | The renaming loop moves every backup up one number and the live file to backup 1, and leaves an empty live file. |
| `RotatingLog.SegmentsJoin` | audit.go:126-139 | The segments of a run are its writes: nothing missing, repeated or reordered. |
| `RotatingLog.SegmentsFit` | audit.go:126-139 | A segment is within the size limit, or holds at most one write. |
| `RotatingLog.SegmentsAreFull` | audit.go:126-139 | A file is rotated only when the next write would not have fitted. |
| `RotatingLog.RotationHolds` | audit.go:141-170 | Rotation takes a directory of n segments to one of n + 1, whatever the backup limit. |
| `RotatingLog.RetainedIsTail` | audit.go:141-170 | The files from a backup to the live one, concatenated, are the last segments. |
| `RotatingLog.RetentionIsSuffix` | audit.go:126-170 | The kept files in order are a suffix of everything written, cut between two writes; each file holds whole writes, and is within the limit unless it holds one. |
| `AuditSearch.FindStartOffsetByTime` | audit.go:681-746 | Ends for every file; on a well-formed one the offset is 0, a line start or past the end, with only earlier entries before it and no earlier ones behind it, so that it is at most one line early. |
| `AuditSearch.ReadFrom` | audit.go:531-591 | The scan from an offset returns the page of the matching entries of the lines from there, and reports a line too long for its buffer exactly when one is reached before the page is full. |
| `AuditSearch.PassedOnExactly` | audit.go:543-576 | A line passes its entry on exactly when its trimmed text is not empty and decodes to an entry with a readable time, not before since, not after until, and with each action, client, serial and mapping that is asked for. |
| `AuditSearch.MatchedExactly` | audit.go:543-581 | An entry is among the matches exactly when some line read passes it on. |
| `AuditSearch.TrimmedExactly` | audit.go:544-547 | What is trimmed off a line is white space of one byte, and what is left has none at either end. |
| `AuditSearch.LineLimit` | audit.go:540-543 | A line goes up to the next newline or the end of the file, and reading stops at one of a mebibyte or more. |
| `AuditSearch.ScanIsPage` | audit.go:567-588 | Skipping and stopping while scanning is paging the full list of matches. |
| `AuditSearch.FullScanStands` | audit.go:583-588 | Stopping at a full page loses nothing. |
| `AuditSearch.SkippingIsSafe` | audit.go:515-591 | The lines before a safe offset pass no entry on. |
| `AuditSearch.ReadAuditEntries` | audit.go:515-591 | On a well-formed file, reading from the searched offset returns what reading from byte 0 returns, under any filter, limit and offset; on any file every entry returned passes the filter. |
| `OcspCache.AcceptedIsCurrent` | ocsp.go:129-274 | A response is stored exactly when it carries a time and is in its window when fetched. |
| `OcspCache.StepKeepsInv` | ocsp.go:145-274 | Every step of every caller keeps the cache's invariant: one leader a key, no lost wake-up, everything cached or decided backed by a response. |
| `OcspCache.Coalescing` | ocsp.go:145-274 | In every interleaving at most one call per key is between registering and deregistering, the in-flight entry is there exactly while one is, and a waiter's channel is closed or has someone still due to close it. |
| `OcspCache.NilIsGrounded` | ocsp.go:129-329 | In every interleaving a nil result rests on the fallback word ("allow", or "crl" with a checker that finds the certificate not revoked), or on a Good response for a certificate of the same serial and responder URL, whose window (or ttl, five minutes unless a positive one is given, without nextUpdate) held at an instant during the call. |
| `OcspCache.FallbackExactly` | ocsp.go:75-91 | In every interleaving a verdict of the fallback is nil exactly when the word the cache was made with is "allow", or is "crl" and a checker finds the certificate not revoked; any other word denies. |
| `OcspCache.NoCheckerNoPass` | ocsp.go:309-316 | Under "crl", in a run that installs no checker, the fallback never passes. |
| `OcspCache.HitDecides` | ocsp.go:156-169 | A call ends at once exactly on an entry for its serial and URL that is younger than the ttl and holds, with nil exactly for Good. |
| `OcspCache.WaiterWaits` | ocsp.go:177-182 | A waiter goes on only when the call it waits for is over. |
| `OcspCache.WaiterDecides` | ocsp.go:177-195 | A woken waiter ends with nil exactly on a Good entry that holds by then, refused on another that holds, and otherwise falls back. |
| `OcspCache.ResponseDecides` | ocsp.go:239-273 | A response with a time and in its window is filed under the call's serial and URL and decides by its status; any other falls back. |
| `OcspCache.FallbackDecides` | ocsp.go:145-235 | Without a URL, an issuer or an answer the fallback decides, over the checker installed at that moment; a request that cannot be made is an error. |
| `OcspCache.NilIsAboutTheCertificate` | ocsp.go:145-274 | In every run in which no two certificates share serial and URL under different issuers, that response is about the certificate itself. |
| `OcspCache.AnotherIssuersAnswer` | ocsp.go:158-171 | For any two certificates that do there is a run in which one passes on the only response ever given, which is about the other. |
| `OcspCache.SomeoneCanMove` | ocsp.go:145-274 | While a call is unfinished, some unfinished call can move. |
| `OcspCache.MovesEnd` | ocsp.go:145-274 | A call's own step brings it nearer its end, and no other step takes it further away. |
| `Utf8.DecodeExactly` | policy.go:297-299 | A string that begins with the encoding of a character (section 3 of RFC 3629) is read as that character, any other as one byte of the replacement character. |
| `Coverage.EscExactly` | policy.go:297-299 | Which texts stand for a character of a class: its encoding behind a backslash, or alone if it is no dash, closing bracket or backslash, with something following. |
| `Coverage.SimpleCoverage` | delegation_chain.go:38-52 | Below a literal or ":*" ancestor lie exactly the ancestor and what begins with its stem. |
| `Coverage.SimpleIsTransitive` | delegation_chain.go:38-52 | Coverage is transitive below a simple ancestor, whatever pattern lies between. |
| `Coverage.TransitiveIffSimple` | policy.go:290-305 | Without classes and escapes, coverage below an ancestor is transitive exactly when the ancestor is a literal, "*", or a literal with ":*". |
| `Coverage.StrayIsNotCovered` | policy.go:290-305 | Below every other such ancestor there is an id, two steps down, that it does not cover. |
| `Coverage.MatchBoundsSlashes` | policy.go:297-299 | A pattern matches no name with more slashes than the pattern is long. |
| `Coverage.MalformedCoversItself` | policy.go:290-305 | With brackets it can be otherwise: a malformed pattern that covers only itself is transitive without being simple. |
| `GlobMatching.MatchIsGlob` | policy.go:297-299 | On ASCII names the greedy chunk matcher decides exactly the declared meaning of stars, question marks, classes, escapes and literal characters, for every well-formed pattern in which no class, plain or negated, matches the slash and another ASCII character. |
| `GlobMatching.CoveredExactly` | delegation_chain.go:38-52 | Which ASCII ids such an ancestor covers, in terms of that meaning. |
| `GlobMatching.EarliestSuffices` | policy.go:297-299 | If such a chunk can be placed early in an ASCII name, no later place is needed to match the rest. |
| `GlobMatching.GreedMissesWithMixedClass` | policy.go:297-299 | For every class that matches the slash and another ASCII character there are a pattern with it and an ASCII name the pattern means and the matcher refuses. |
| `GlobMatching.NegatedClassIsMixed` | policy.go:297-299 | A negated class is such a class exactly when its ranges leave out the slash and some other ASCII character. |
| `GlobMatching.MarksCountBytes` | policy.go:297-299 | A star and two question marks match every single character of three or four bytes. |
| `GlobMatching.LongCharacterMisleads` | policy.go:297-299 | For every name with a character of several bytes, whatever stands before and behind it, one such pattern matches the name and does not mean it. |
| `GlobMatching.RightExactlyAboutAscii` | policy.go:297-299 | A name in valid UTF-8 is in ASCII exactly when the matcher decides the meaning of every pattern of the kind `MatchIsGlob` is about. |
| `DelegationChain.AcceptedExactly` | decision.go:807-882 | Exactly which outcomes at which encodings make an authorization valid, by declared version. |
| `DelegationChain.AcceptedEncoding` | decision.go:807-882 | A valid authorization verified at an encoding its version admits, version 2 only with the agent's key. |
| `DelegationChain.DefiniteRefusalStands` | decision.go:855-882 | At every version but 2, a refusal at version 1 other than a signature mismatch is not retried; whatever is accepted all the same verified with the agent's key. |
| `DelegationChain.NoDepthNoChain` | decision.go:1001-1003 | A depth of zero or less admits no chain. |
| `DelegationChain.CapabilitySubset` | delegation_chain.go:55-75 | True exactly when every leaf is covered by some ancestor; true of no leaves. |
| `DelegationChain.FilterCovered` | delegation_chain.go:78-92 | The leaves some ancestor covers, in order, each once. |
| `DelegationChain.SubsetIsKept` | delegation_chain.go:78-92 | Filtering after a passed subset test keeps the list whole. |
| `DelegationChain.VerifyChainStructure` | delegation_chain.go:97-121 | True exactly for non-empty chains within the limit, without a missing certificate or a repeated serial. |
| `DelegationChain.ChainVerifier.Verify` | decision.go:991-1044 | True exactly when the chain is within both limits, well structured, and every level's authorization verifies under its predecessor, level 0 under the top principal. |
| `DelegationChain.EffectiveCapabilities` | delegation_chain.go:131-160 | Succeeds exactly when every level parses, declares something, and only what its parent covers; the result is the last level's list. |
| `DelegationChain.VerifyDelegationChainWithCaps` | delegation_chain.go:167-176 | Accepts exactly the chains that verify and narrow at every level, and returns the last level's list. |
| `DelegationChain.SubsetComposes` | delegation_chain.go:55-75 | Two narrowings compose when the uppermost list is simple. |
| `DelegationChain.Attenuation` | delegation_chain.go:131-176 | In an accepted chain every level's capabilities are covered by every earlier level whose capabilities are simple, the principal's included. |
| `DelegationChain.AcceptedIsSigned` | decision.go:991-1044 | In an accepted chain every level declares an authorization that verifies under the level before it, the first under the top principal, at an encoding its version admits; the chain is within the depth and the length given, or eight levels without one, and no serial comes twice. |
| `DelegationChain.AttenuationEscapes` | delegation_chain.go:131-176 | Below any other capability without classes and escapes, for every top principal, some chain of two levels verifies and narrows at every level, is accepted, and ends outside it. |
| `DelegationChain.EndsInsideIffSimple` | delegation_chain.go:131-176 | Below one capability without classes and escapes every accepted chain ends inside it exactly when it is simple. |
| `ReplayStore.MemReplayStore.constructor` | jwt.go:364-376 | Non-positive limits become 24 hours and 65536 entries. |
| `ReplayStore.MemReplayStore.Purge` | jwt.go:404-409 | The sweep, in any order of keys, leaves exactly the live markers. |
| `ReplayStore.MemReplayStore.CheckAndAdd` | jwt.go:380-416 | The call answers and leaves what the specification says, and keeps the capacity. |
| `ReplayStore.AcceptedExactly` | jwt.go:380-416 | A nonce is accepted exactly when it is new and there is a free place or an expired marker's place. |
| `ReplayStore.RefusedOnlyWhenFull` | jwt.go:403-414 | A new nonce is refused only when max live markers are held, and the refusal changes nothing. |
| `ReplayStore.LiveMarkersStay` | jwt.go:380-416 | No call removes a live marker, moves a stamp or exceeds the capacity. |
| `ReplayStore.CapacityKept` | jwt.go:403-414 | Over any run the store holds at most max markers after every call. |
| `ReplayStore.MarkerStands` | jwt.go:380-416 | Over any run with a clock that does not run back, an accepted nonce's marker stands until more than ttl has passed. |
| `ReplayStore.OneUsePerLifetime` | jwt.go:380-416 | Over any such run two acceptances of one nonce are more than ttl apart. |
| `ReplayStore.ReplayNamesFirstUse` | jwt.go:387-389 | Within its lifetime a used nonce is refused as a replay, with the time of its first use. |
| `NonceCache.StepKeepsInv` | nonce_cache.go:70-95 | Every step of the callers and the sweep keeps the cache consistent with its history: entries are deleted only past their time. |
| `NonceCache.PresentedExactly` | nonce_cache.go:70-84 | A non-empty nonce is allowed exactly when it is free or the scope's own, whatever the sweep is doing, and an entry already there is left as it is. |
| `NonceCache.EmptyNonceIsRefused` | nonce_cache.go:70-74 | In no run is a presentation without a nonce allowed, and it changes nothing in the cache. |
| `NonceCache.ScopesAreApart` | nonce_cache.go:70-95 | Two accepted presentations of one nonce under different scopes have a deletion between them, by a sweep that began more than 24 hours after the first entry's clock reading (after its store: 24 hours less the time between the two), and the second comes after the deletion. |
| `NonceCache.OwnerIsNotRefused` | nonce_cache.go:70-84 | A scope once allowed is refused the nonce only after a deletion. |
| `NonceCache.StampStays` | nonce_cache.go:75-82 | Reuse by the owning scope does not renew the entry. |
| `NonceCache.SweepRemovesOldEntries` | nonce_cache.go:87-95 | When a sweep ends, an entry older than its deadline was stored while it ran. |
| `NonceCache.SweepIsThorough` | nonce_cache.go:87-95 | Over any run an entry older than a day before a sweep began, and still there when it ends, was stored while it ran. |
| `NonceCache.DelayIsLost` | nonce_cache.go:75-95 | For every delay up to 24 hours between reading and store there is a run in which the sweep begins earlier by just that delay, and a second scope is accepted at once. |
| `RiskMonitoring.RiskMonitor.SetRules` | riskmonitor.go:98-106 | New rules start with no violations. |
| `RiskMonitoring.RiskMonitor.SignalIn` | riskmonitor.go:182-192 | True exactly when the list names the signal, by "*" or up to letter case. |
| `RiskMonitoring.RiskMonitor.KeepInWindow` | riskmonitor.go:136-147 | Writing the kept violations over the front of the buffer being read leaves exactly those in the window, in order, and says whether any matches the rule. |
| `RiskMonitoring.RiskMonitor.Append` | riskmonitor.go:125-125 | Appending adds one violation at the end, in the same buffer or a new one. |
| `RiskMonitoring.RiskMonitor.RecordViolation` | riskmonitor.go:111-168 | One agent's list and the enforcement are as specified; every other agent's list is untouched, though the buffers are shared heap. |
| `RiskMonitoring.ClockDatesRun` | riskmonitor.go:119-125 | Over any run the clock dates the violations that carry no time and nothing else: with these times filled in, every list and every enforcement is the same under any clock. |
| `RiskMonitoring.TimedAsGiven` | riskmonitor.go:119-168 | A violation with a time is appended and judged at that time, whatever the clock. |
| `RiskMonitoring.KeptExactly` | riskmonitor.go:128-141 | A rule keeps exactly the violations no older than its window, a minute unless it gives a positive one. |
| `RiskMonitoring.WindowsCompose` | riskmonitor.go:137-147 | Filtering twice is filtering once, by the later cut-off. |
| `RiskMonitoring.EvaluatedExactly` | riskmonitor.go:127-166 | Whatever the windows: the rule that fires is the first to do so on the violations within the smallest window up to it, and if none does the smallest window of all is kept. |
| `RiskMonitoring.ListIsWindowOfHistory` | riskmonitor.go:111-168 | Over any run with an agent's times in order, its list is the full history since the last enforcement or change of rules, seen through the smallest window. |
| `RiskMonitoring.EnforcedExactly` | riskmonitor.go:111-168 | Over any run with an agent's times in order, whatever the windows: a call enforces exactly when some rule fires on the full history cut at the later of the smallest window before the agent's last violation and the smallest window up to the rule's own now, and takes the first such rule's action. |
| `RiskMonitoring.OwnWindowExactly` | riskmonitor.go:127-147 | That is the rule's own full window exactly when no violation of the history lies between the window's beginning and the cut. |
| `RiskMonitoring.OneWindowForgetsNothing` | riskmonitor.go:111-168 | With one window for all rules it is so in every run with the agent's times in order, for every rule. |
| `RiskMonitoring.ShorterWindowForgets` | riskmonitor.go:127-147 | A run with two windows in which a rule misses violations within its own. |
| `ConstraintStrings.RenderAll` | clc.go:113-135 | One string per constraint, in order. |
| `ConstraintStrings.RoundTripExactly` | clc.go:399-423 | Parsing gives a printed constraint back exactly when its scheme is one piece and its id is one piece other than time and network, or a time or network id of two pieces with parameters; parameters may hold any number of colons. |
| `ConstraintStrings.ParsedExactly` | clc.go:399-423 | A string parses to a constraint exactly when it spells it: a scheme, then an id of one piece alone or with parameters, or a time or network id of two pieces with parameters. |
| `ConstraintStrings.ParsedPrintsBack` | clc.go:399-423 | What parses prints back to the same string, under the normal form of its scheme and but for a last colon with nothing behind it. |
| `ConstraintStrings.RenderInjective` | clc.go:113-135 | Recoverable constraints with one printed form are one constraint. |
| `ConstraintStrings.ConstraintRegistry.Register` | constraints.go:49-64 | Adds an evaluator under its id, refusing none, an empty id and an id already there. |
| `ConstraintStrings.ConstraintRegistry.Replace` | constraints.go:68-80 | The same, replacing one already there. |
| `ConstraintStrings.ConstraintRegistry.Remove` | constraints.go:95-99 | Removes exactly that id's evaluator. |
| `ConstraintStrings.ConstraintRegistry.ResetToBuiltIns` | constraints.go:130-170 | Whatever was registered, exactly the eight built-in evaluators are afterwards. |
| `ConstraintStrings.BuiltInExactly` | constraints.go:130-144 | The eight built-in ids by name, each with its own evaluator. |
| `ConstraintStrings.CheckConstraints` | decision.go:269-291 | Passes exactly when every constraint has our scheme and its evaluator, if there is one, accepts; otherwise it names the first that does not. |
| `ConstraintStrings.PassesExactly` | decision.go:269-291 | A constraint whose scheme is none of the three words is refused wherever its id is registered; one of ours exactly when its evaluator does not accept. |
| `ConstraintStrings.DischargeAll` | clc.go:436-455 | True exactly when every obligation parses, has a registered evaluator and passes the connection check at its own instant. |
| `ConstraintStrings.BuiltInDischargedExactly` | clc.go:436-455 | Over the built-in registry a built-in constraint's obligation is discharged exactly when printing does not lose its id and its evaluator accepts: session and operation constraints, and network and time ones without parameters, never are. |
| `ConstraintStrings.DischargeImpliesCheck` | clc.go:425-455 | Over the built-in registry a constraint whose obligation is discharged passes the connection check. |
| `ClcDecisions.AllowNeedsEverySource` | clc.go:176-229 | Allowed outright exactly when every source present allows outright; denied when one denies; undecidable exactly when there is none or one is undecidable. |
| `ClcDecisions.NotAskedExactly` | clc.go:71-168 | A source is undecidable exactly when a capability cannot be read, the parameters cannot be normalised, or the operation is malformed and some grant is named. |
| `ClcDecisions.AskedExactly` | clc.go:97-153 | Otherwise the language decides over one grant for every capability, in order, each with its own constraints and then the connection's as they are printed, and over the operation with its parameters normalised. |
| `ClcDecisions.CombinedExactly` | clc.go:216-229 | A denial stands as it is; otherwise what is owed is what either source leaves, the agent's first and nothing twice, for the reason of the first that leaves any. |
| `ClcDecisions.ResidualsOfBoth` | clc.go:216-229 | The residual obligations are those of either source. |
| `ClcDecisions.CheckContext` | clc.go:368-376 | Passes exactly when freshness is not required, or a context is there and fresh. |
| `ClcDecisions.EvaluateOperations` | clc.go:293-364 | Continues only with one decision per operation in order, each allowed or released and in a fresh context; a refusal is at the first operation that does not go on, and carries the decisions so far with that one last and unreleased, or none if it could not be decided. |
| `ClcDecisions.KeptAsDecided` | clc.go:313-331 | What is kept of an admitted operation is the operation and the language's own answer, released exactly when that left something open. |
| `ClcDecisions.RefusedAsDecided` | clc.go:297-361 | A refusal carries the same of the operation it is about, unreleased, or nothing if there was no answer. |
| `ClcDecisions.RefusalIsDetermined` | clc.go:293-364 | At most one refusal, with one list of decisions, meets that description. |
| `ClcDecisions.OpenConstraintIsMet` | clc.go:345-360 | With the connection's evaluator, an operation left open with a built-in constraint goes on only if that constraint is not a lossy one and its own evaluator accepted it, at the instant that obligation of that operation was checked. |
| `ClcDecisions.Aggregate` | clc.go:463-481 | No verdict for no decisions; allow_unresolved exactly when some decision is; reasons and residuals in order. |
| `ClcDecisions.ResidualsAreOwed` | clc.go:463-481 | An admission's residuals are those the language gave each operation, all of them, in order. |
| `ClcDecisions.AdmitAndAggregate` | clc.go:293-481 | Admission continues exactly when every operation goes on, and then the aggregate is allow exactly when all were allowed outright, and otherwise carries every residual obligation. |
| `ClcDecisions.BuildChallenge` | challenge.go:126-171 | A challenge is about the first decision left open, and there is none exactly when no decision is; it fails when a token is missing. |
| `ClcDecisions.OnlyTheLastIsOpen` | clc.go:293-364 | Of the decisions a refusal carries, only the last can be open, and it is exactly when the language left that operation unresolved. |
| `ClcDecisions.RefuseWithChallenge` | challenge.go:126-171 | Any challenge is about the operation refused. |
| `ClcDecisions.AdmissionIsNotChallenged` | challenge.go:126-171 | An admission leaves no decision open to challenge. |
| `EvidenceDir.VerifyEnvelope` | evidence_signing.go:55-82 | The kind of a well-formed envelope; with a verifier, only if some non-empty signature verifies. |
| `EvidenceDir.ClassifyFile` | evidence_verify.go:84-117 | What one file of the directory is. |
| `EvidenceDir.DecisionExactly` | admission_record.go:198-218 | A file counts as a decision exactly when it is a .json file whose envelope can be read, says so, recomputes, carries a good signature if one is asked for, and gives an input digest, which is kept in hexadecimal. |
| `EvidenceDir.AdmissionExactly` | admission_record.go:198-218 | As an admission exactly when it is such a file that says so and parses. |
| `EvidenceDir.OutcomeExactly` | admission_record.go:198-218 | As an outcome exactly when it is such a file that says so and parses, under the digest it parses to. |
| `EvidenceDir.BrokenExactly` | evidence_verify.go:84-104 | Which .json files are reported as unreadable, and which as decisions without a digest; what is no .json file is passed over. |
| `EvidenceDir.ClassifyAll` | evidence_verify.go:76-118 | The first pass's counts, failures and digests, and the outcomes still to link. |
| `EvidenceDir.Link` | evidence_verify.go:119-137 | The second pass counts an outcome exactly when some verified decision anywhere in the listing has its digest, and reports every other. |
| `EvidenceDir.VerifyEvidenceDir` | evidence_verify.go:70-139 | The report describes the listing; only an unreadable directory gives none. |
| `EvidenceDir.Conservation` | evidence_verify.go:28-50 | The .json files are the decisions, admissions, linked outcomes and failures, each counted once. |
| `EvidenceDir.FailuresAreGaps` | evidence_verify.go:44-49 | A path is reported exactly when its file does not verify or is an outcome of no decision in the directory. |
| `EvidenceDir.OrderDoesNotMatter` | evidence_verify.go:70-139 | All counts, and the failures as a collection, are the same for every order of listing. |

The remaining lemmas are steps towards these.

## Left out

Contracts that say less than the whole of the code:

- AuditSearch.FindStartOffsetByTime: its guarantee needs lines that are trimmed, readable, shorter than 1 MiB and in time order; for other files only termination is stated, and of `ReadAuditEntries` that whatever it returns passes the filter. The writer ensures the order only without overtaking (`NoOvertakingKeepsTimeOrder`), and given a wall clock that does not run back.
- AuditSearch.ReadAuditEntries: the same precondition; only white space of one byte is trimmed, not the Unicode spaces.
- AuditSearch.ReadFrom: a line too long for the scanner is a flag, and the error's text is not modelled.
- Coverage.TransitiveIffSimple: says nothing about ancestors with classes or escapes, none of which is simple; of attenuation below them nothing is proved but one instance that covers only itself (`MalformedCoversItself`).
- GlobMatching.MatchIsGlob: excludes malformed patterns, classes that match the slash and another ASCII character, for which it is false (`GreedMissesWithMixedClass`), and names outside ASCII, for each of which, in valid UTF-8, it is false of some such pattern (`LongCharacterMisleads`).
- GlobMatching.CoveredExactly: the same.
- GlobMatching.RightExactlyAboutAscii: says nothing about names with invalid bytes, which no UTF8String holds.
- DelegationChain.AcceptedExactly: encodings, key-hash checks and signatures are answers of an oracle, as are parsing and key marshalling.
- DelegationChain.AttenuationEscapes: about capabilities without classes and escapes; the certificates are those of an oracle that answers as the run needs.
- DelegationChain.EndsInsideIffSimple: about one capability; in a longer list another one may cover what escapes the first.
- AuditQueue.QueueSafety: each of Log, the writer and Close is split where another goroutine can come between, the stop check and the clock reading included; what happens inside one select or one critical section is one step. The time stamp stands for the entry's content, and whether an entry is critical is given.
- AuditQueue.CloseTerminates: assumes the writer is scheduled and that each write ends; a hanging disk or time-stamping service is not modelled.
- OcspCache.Coalescing: a critical section is one step, and so is a network exchange; a panic inside it is not modelled.
- OcspCache.NilIsGrounded: says what a nil result rests on, not that a Good response always gives one; the response's certificate agrees in serial and URL, and in issuer only under the condition of `NilIsAboutTheCertificate`.
- RotatingLog.RotatingFile.Write: file operations succeed, and a run starts with an empty directory.
- RiskMonitoring.RiskMonitor.Append: the room a new buffer has is fixed, where Go chooses it.
- RiskMonitoring.EnforcedExactly: assumes an agent's times that do not decrease; differences of times do not wrap around.
- NonceCache.ScopesAreApart: measures from the clock reading, since measuring from the store is false for every positive delay (`DelayIsLost`).
- ReplayStore.OneUsePerLifetime: assumes a clock that does not run back, as Go's monotonic reading does within a process.
- ConstraintStrings.BuiltInDischargedExactly: what an evaluator makes of JSON, addresses and times is an oracle.
- ClcDecisions.EvaluateOperations: the capability language answers with one of its three verdicts, and the deployment's evaluator depends on the operation's place, the operation and its obligations only.
- ClcDecisions.AllowNeedsEverySource: the combination is the deny-overrides rule described at `clc.go:216-220`; the library that implements it is not part of this model.
- ClcDecisions.BuildChallenge: the fields of a challenge other than the decision it is about are not modelled.
- EvidenceDir.VerifyEvidenceDir: reasons are four causes, not texts; a file is named by its name in the directory.
- AuditChain.Chain.SealChecked: the onSeal callback and the lock around the call are not modelled; the call is atomic.
- AuditChain.Chain.Verify: the length bound is exact integer arithmetic, where the code takes a floating-point logarithm.

Parts of the repository that are not modelled:

- `readAuditEntriesReverse` (`audit.go:593-678`): it drops the first line and reuses one buffer across chunks, so it is not the reverse of the forward scan.
- Archiving of audit files, time-stamping, disk errors and log messages.
- The grants recorded beside a decision (`clc.go:208-214`): a copy of what it was decided over.
- `isAuditCritical` (`audit.go:232-243`): a finite table.
- TLS, HTTP, the reverse proxy, gRPC and MCP transports, configuration parsing: no invariant beyond one function.
- X.509, ASN.1, CMS and PEM decoding, JWT validation and signature arithmetic: oracles.
- The capability language itself (`AuthorizeSet`, parameter rules, digests): not in this repository.
- Policies other than `MatchCapability`: lookups that only test and return.
- The built-in evaluators' own rules (address ranges, time windows, regions): each is settled by reading one function.
- The periodic re-check of constraints and the counters read for monitoring.
