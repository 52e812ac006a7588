# Verification of the NEURONIX core

A Dafny model of the hard core of NEURONIX OS, with proofs: the signature scheme and canonical serializer on which every
digest rests, the crash-recovery protocol, the proposal protocol, the graph checks, the terminal buffer, the daemon's
SHA-256, the bracket lexer and the framing between client and server. `dafny verify dfyconfig.toml` checks it.

## The parts

`Wrappers`, `Numbers` and `Sequences` hold what several parts use.

- **Ed25519** (`Modular`, `Primes`, `Edwards`, `GroupLaw`, `Bytes`, `PointCodec`, `Ed25519`, `SignatureBinding`,
  `Ed25519Constants`; RFC 8032 sections 5.1.2 to 5.1.7). The theory is over any prime q with q mod 8 = 5 and any non-square d. Fermat's little theorem,
  the root of -1, completeness, closure and associativity of the addition are proved. SHA-512 is any function to 64 bytes.
  For the deployed constants two number facts are hypotheses: 2^255-19 is prime, and the order annihilates the base point.
- **Canonical JSON** (`Decimal`, `NumberFormat`, `NumberShape`, `Unicode`, `CanonicalJson`, `JsonReader`, `StateRoot`; RFC 8785
  section 3.2 and RFC 8259). Texts are sequences of code points; an object keeps its members in insertion order; a float is the decimal text of its shortest
  representation, cut at the point and the exponent mark.
- **Graphs** (`Graphs`, `CycleDetection`, `EvidenceGraph`, `BlastRadius`). Each algorithm is stated against walks of the graph.
- **Journal, lock and rollback** (`HashChain`, `Journal`, `OperationLock`, `Rollback` for one process; `Interleaving`,
  `InterleavingInvariant`, `InterleavingSafety`, `InterleavingRaces`, `InterleavingVerdicts`, `InterleavingSettled`,
  `InterleavingOutcomes` for any number). The journal file is a sequence of entries in insertion order, its write atomic; a flock is given up when its
  process dies; the switch command sets the active generation to anything and returns any code; ids, clock and outcomes come
  from outside. In the interleaved model every read, every write and every lock operation is a step of its own, and so is
  drawing an id together with reading the clock; any process can crash between two steps, and the clock never runs backwards.
- **Proposals and grants** (`SignedPayloads`, `Delegations`, `GrantSeals`, `Skills`, `SkillRuns`, `SkillOrigins`,
  `ApprovedInputs`). The protocol is proved for any digests and seals, and then for canonical bytes under SHA-256 and Ed25519
  seals. Random ids and nonces and the time are arguments.
- **Terminal** (`Shifting`, `TerminalScreen`, `EscapeParsing`, `TerminalBuffer`, `Printing`, `ScreenLaws`,
  `ControlLaws`). The class updates
  its fields as the emulator does; each method is proved against a function on screens, and the laws are about those.
- **SHA-256** (`Sha256Spec`, `Sha256Laws`, `Sha256`; FIPS 180-4). Words are 32-bit vectors with wrapping addition.
- **Lexer and framing** (`Quoting`, `BracketLexer`, `LineServer`, `RpcClient`, `ObjectField`, `ClientFrames`). Texts are sequences of characters.

## Where the code does less than one might expect

Each of these is a theorem: where it can be said when the code meets the expectation, an if-and-only-if, beside a lemma with
a concrete input or run that fails it.

- Acquiring an operation lock again through the object that holds it makes its release do nothing, and only that does
  (`OperationLocks.LeakingRun`, `OperationLocks.LeakedIffReacquired`).
- Recovery does not hold the operation lock when it finds the earlier generation already active. Its verdict can be falsified
  exactly if another process was running the switch command (`InterleavingRaces.AlreadyAtCanBeStale`,
  `InterleavingVerdicts.AlreadyAtExact`).
- A transaction that recovery has settled can still be committed by its owner, exactly if that process is still at it
  (`InterleavingRaces.SettledCanChange`, `InterleavingSettled.SettledExact`).
- The hash chain covers neither states nor details (`Journal.StatesNotCovered`), survives deletions exactly at the end
  (`Journal.DeletionRun`, `Journal.DeletionNoticed`), passes over entries without a hash (`HashChain.UnhashedPasses`), and
  verifies exactly if the clock never ran backwards between two starts (`Journal.BackwardsRun`,
  `Journal.ChainVerifiesIffClockMonotone`).
- An integer and a float of equal value have the same canonical bytes, exactly below 10^21 (`CanonicalJson.IntAndFloatCollide`,
  `NumberFormat.IntegerTexts`).
- Leaving the alternate screen brings the text back exactly if there was none (`ScreenLaws.LeavingDoesNotRestore`).
- Erasing the display knows only the mode that erases all of it (`ControlLaws.EraseDisplay`).
- String extraction in the client drops backslashes, so escaped control characters come back as letters, and only those
  (`RpcClient.NewlineReadsAsLetter`, `RpcClient.ExtractionInvertsEscaping`).
- The evidence-graph check and the lineage trace disagree about an edge exactly if it spells its target in two different ways
  (`EvidenceGraph.SpellingsDisagree`, `EvidenceGraph.SpellingsAgreeIff`).
- A scope pattern that ends in `.*` drops the dot as well. A scope admits only the names it stands for exactly if it is
  unrestricted or holds no such pattern (`Delegations.WildcardDropsDot`, `Delegations.ScopeExact`).
- A proposal filed again after its resolution stands in both books, which takes a second filing at the very same time
  (`SkillOrigins.RefiledRun`, `SkillOrigins.BothBooks`, `SkillOrigins.RefiledAtOneTime`).
- The override lets an agent without any token dispatch a gated mutation (`Skills.OverrideNeedsNoToken`), and the input digest
  of a grant is enforced exactly for single use (`Skills.DigestBindsSingleUse`).

## Model

| member | source | states |
|---|---|---|
| Primes.Fermat | packages/neuronix-core/neuronix_core/crypto.py:27-28 | for a prime q and every a that q does not divide, a^(q-1) is congruent to 1: the fact on which inversion by x^(q-2) rests |
| Edwards.InvIsInverse | packages/neuronix-core/neuronix_core/crypto.py:27-28 | x times its computed inverse is 1 modulo a prime q unless q divides x |
| Primes.RootOfMinusOne | packages/neuronix-core/neuronix_core/crypto.py:24 | for a prime q with q mod 8 = 5, the constant 2^((q-1)/4) squares to -1 |
| Edwards.DenominatorsNonZero | packages/neuronix-core/neuronix_core/crypto.py:46-51 | for any two curve points neither denominator of the addition is divisible by q, so no case of the affine formula is exceptional |
| Edwards.AddOnCurve | packages/neuronix-core/neuronix_core/crypto.py:46-51 | the sum of two curve points is a curve point with reduced coordinates |
| GroupLaw.AddCommutes | packages/neuronix-core/neuronix_core/crypto.py:46-51 | the addition is commutative |
| GroupLaw.AddNeutral | packages/neuronix-core/neuronix_core/crypto.py:46-56 | (0, 1) is neutral on both sides |
| GroupLaw.AddAssociates | packages/neuronix-core/neuronix_core/crypto.py:46-51 | the addition is associative on the whole curve, without exceptions |
| Bytes.ByteWeight | packages/neuronix-core/neuronix_core/crypto.py:66 | byte i of a string stands for its multiple of 256^i, the first byte for the least |
| PointCodec.CandidateRootExact | packages/neuronix-core/neuronix_core/crypto.py:82-86 | the candidate xx^((q+3)/8), multiplied by the root of -1 when its square is wrong, squares to xx exactly when xx is a square modulo q |
| PointCodec.SolveForSquare | packages/neuronix-core/neuronix_core/crypto.py:79-81 | (x, y) satisfies the curve equation exactly when x^2 is congruent to the quotient that decoding computes from y |
| PointCodec.DecodeEncode | packages/neuronix-core/neuronix_core/crypto.py:64-91 | decoding the encoding of any curve point returns that point |
| PointCodec.EncodeDecode | packages/neuronix-core/neuronix_core/crypto.py:64-91 | whatever decodes is a curve point and encodes to the very bytes it came from, so no point has two accepted encodings |
| PointCodec.DecodeAccepts | packages/neuronix-core/neuronix_core/crypto.py:71-91 | a byte string is accepted if and only if it is the encoding of some curve point |
| PointCodec.DecodedOnCurve | packages/neuronix-core/neuronix_core/crypto.py:71-91 | what a byte string decodes to has the low 255 bits as ordinate and the top bit as parity of the abscissa |
| Ed25519.RecoverEvenX | packages/neuronix-core/neuronix_core/crypto.py:31-38 | the abscissa recovered from y is the even one of the two on the curve |
| Ed25519.ScalarMultIsTimes | packages/neuronix-core/neuronix_core/crypto.py:54-61 | double-and-add computes the e-fold sum, for every e |
| Ed25519.TimesAdd | packages/neuronix-core/neuronix_core/crypto.py:54-61 | the (m+n)-fold sum is the sum of the m-fold and the n-fold |
| Ed25519.TimesTimes | packages/neuronix-core/neuronix_core/crypto.py:54-61 | the n-fold sum of the m-fold sum is the mn-fold |
| Ed25519.TimesModOrder | packages/neuronix-core/neuronix_core/crypto.py:104-107 | a multiple may be reduced modulo any order that annihilates the point |
| Ed25519.VerifyHonest | packages/neuronix-core/neuronix_core/crypto.py:101-127 | for a signature (rB, n) under the key aB, verification accepts exactly when n is below the order and nB is the point of the signing equation |
| Ed25519.VerifyAcceptsOnlyEquation | packages/neuronix-core/neuronix_core/crypto.py:101-127 | when the order is exact, the one accepted scalar beside rB is the one the signer computes |
| Ed25519.VerifyAcceptsSign | packages/neuronix-core/neuronix_core/crypto.py:94-127 | for every secret key and message, verification under the derived public key accepts the signature |
| SignatureBinding.SecretScalarBits | packages/neuronix-core/neuronix_core/crypto.py:95-96 | the secret scalar is a multiple of 8 with bit 254 as its highest, and bits 3 to 253 of the first half of the digest |
| SignatureBinding.PublicKeyIsMultiple | packages/neuronix-core/neuronix_core/crypto.py:94-98 | the public key is the encoded multiple of the base point by that scalar |
| SignatureBinding.SignatureParts | packages/neuronix-core/neuronix_core/crypto.py:101-108 | R is the multiple by the digest of prefix and message, S that digest plus the digest of R, key and message times the secret scalar |
| SignatureBinding.SameRExactly | packages/neuronix-core/neuronix_core/crypto.py:104-105 | under the exact order two signatures under one key share R if and only if the digests of prefix and message agree modulo the order |
| SignatureBinding.FreshR | packages/neuronix-core/neuronix_core/crypto.py:104-105 | messages whose digests differ modulo the order get different points R |
| SignatureBinding.VerifyExactly | packages/neuronix-core/neuronix_core/crypto.py:111-127 | verification accepts exactly if both points decode, S is reduced, and [S]B = R + [k]A with k the digest of R, key and message |
| Ed25519Constants.PrimeShape | packages/neuronix-core/neuronix_core/crypto.py:21-22 | the literal field prime is 2^255-19 and is 5 modulo 8; the literal order is 2^252 + 27742317777372353535851937790883648493 |
| Ed25519Constants.CurveConstants | packages/neuronix-core/neuronix_core/crypto.py:23 | the literal d is -121665/121666 modulo q, is not a square, and so the addition law is complete for the deployed curve |
| Ed25519Constants.BasePoint | packages/neuronix-core/neuronix_core/crypto.py:41-43 | the base point computed from 4/5 has the literal coordinates and lies on the curve |
| Ed25519Constants.DeployedVerifyAcceptsSign | packages/neuronix-core/neuronix_core/crypto.py:101-127 | for the deployed constants verification accepts every signature, given that 2^255-19 is prime and that the order annihilates the base point |
| CanonicalJson.EncodeStr | packages/neuronix-core/neuronix_core/state.py:29-52 | the loop over characters produces the quoted text in which each character is replaced by its escape |
| CanonicalJson.EscapeUnique | packages/neuronix-core/neuronix_core/state.py:29-52 | an escaped string followed by the closing quote determines both the string and what follows it |
| JsonReader.QuoteReadsBack | packages/neuronix-core/neuronix_core/state.py:29-52 | an independent reader of JSON strings reads an escaped string, up to its quote, as it was |
| JsonReader.EscapeChoice | packages/neuronix-core/neuronix_core/state.py:29-52 | the two-character escape where there is one, four lower-case hexadecimal digits for the other control characters, and else the character itself |
| NumberFormat.FormatEcmascriptNumber | packages/neuronix-core/neuronix_core/state.py:54-107 | the step-by-step trimming of digits and exponent yields the layout of the trimmed digits at the position of the decimal point |
| NumberFormat.ReadLayout | packages/neuronix-core/neuronix_core/state.py:94-105 | in each of the five layouts the text, read back independently, denotes 0.d1...dk times 10^n |
| NumberFormat.FormatKeepsValue | packages/neuronix-core/neuronix_core/state.py:54-107 | the formatted text denotes exactly the decimal value of the mantissa and exponent it was made from |
| NumberFormat.FormatCanonical | packages/neuronix-core/neuronix_core/state.py:54-107 | two finite inputs get the same text if and only if they denote the same number |
| NumberFormat.IntegerTexts | packages/neuronix-core/neuronix_core/state.py:94-116 | a float and an integer get the same text if and only if they are equal and below 10^21 in size |
| NumberShape.ExponentExactly | packages/neuronix-core/neuronix_core/state.py:94-105 | a number other than zero is written with an exponent if and only if it is at least 10^21 or below 10^-6 in size |
| NumberShape.ScientificShape | packages/neuronix-core/neuronix_core/state.py:100-105 | with an exponent there is one digit before the point, a sign, and no leading zero in the exponent |
| Unicode.ByteOrderIsUnitOrder | packages/neuronix-core/neuronix_core/state.py:130 | comparing UTF-16-BE bytes is comparing UTF-16 code units |
| Unicode.KeyOrderTotal | packages/neuronix-core/neuronix_core/state.py:130 | the key order is a strict total order on strings without surrogates |
| Unicode.KeyOrderIsNotCodePointOrder | packages/neuronix-core/neuronix_core/state.py:130 | it differs from code point order: U+10000 sorts before U+FF61 |
| Unicode.PrefixFirst | packages/neuronix-core/neuronix_core/state.py:130 | a key sorts before its continuations |
| Unicode.Utf8ValueOfCode | packages/neuronix-core/neuronix_core/state.py:139 | the UTF-8 bytes of a character carry its number |
| Unicode.Utf16ValueOfCode | packages/neuronix-core/neuronix_core/state.py:130 | and so do its UTF-16 code units, surrogate pairs included |
| CanonicalJson.Unique | packages/neuronix-core/neuronix_core/state.py:118-139 | serialized values followed by a delimiter can be told apart: equal texts come from equal values and equal remainders |
| CanonicalJson.CanonicalBytesInjective | packages/neuronix-core/neuronix_core/state.py:118-139 | equal canonical bytes come only from values equal up to member order, an integer of at most 21 digits counting as equal to the float of its value |
| CanonicalJson.CanonicalBytesIgnoreOrder | packages/neuronix-core/neuronix_core/state.py:129-136 | the insertion order of object members never changes the bytes |
| CanonicalJson.CanonicalBytesExact | tools/verify_passport.py:18-110 | on all serializable values the bytes are equal if and only if the values are equal up to member order in that sense; on values without floats that is plain equality up to member order |
| CanonicalJson.IntAndFloatCollide | packages/neuronix-core/neuronix_core/state.py:109-116 | the integer and the float 10^e have the same bytes if and only if e is below 21 |
| JsonReader.ReadsBack | packages/neuronix-core/neuronix_core/state.py:118-139 | an independent reader of JSON is a left inverse of the serializer: the text of a value reads as that value, its keys in UTF-16 order, and leaves what follows it |
| StateRoot.RootBindsLeaves | packages/neuronix-core/neuronix_core/state.py:461-479 | when the byte strings hashed for the two roots do not collide, equal roots come only from leaves that are equal one by one |
| StateRoot.LeafOrder | packages/neuronix-core/neuronix_core/state.py:467-479 | the digests of posture, substrate, provenance, policy and evidence stand under the root in this order |
| StateRoot.TamperingDetectedExactly | packages/neuronix-core/neuronix_core/state.py:511-547 | without a collision among the byte strings hashed, a document checked against a root built over other leaves is reported as tampered with exactly when some leaf has other canonical content, which is more than another member order |
| StateRoot.VerdictExactly | packages/neuronix-core/neuronix_core/state.py:544-561 | when a document is tampered with, degraded, drifted and trusted |
| StateRoot.ProofBindsTransition | packages/neuronix-core/neuronix_core/state.py:618-634 | between roots of equal length, without a collision among the byte strings hashed, one transition proof serves one parent, one child and one transaction |
| StateRoot.ProofOrder | packages/neuronix-core/neuronix_core/state.py:618-625 | parent root, digest of the transaction and child root stand under a proof in this order |
| CycleDetection.BuildAdjacency | packages/neuronix-core/neuronix_core/topology.py:241-245 | the adjacency lists hold, for each node, the targets of its edges in order and with repetitions, and the keys list every source |
| CycleDetection.IndexOf | packages/neuronix-core/neuronix_core/topology.py:261 | the first position of a node on the path |
| CycleDetection.Report | packages/neuronix-core/neuronix_core/topology.py:261-263 | the tail of the search path from a node on it, closed by the edge back, is a closed walk |
| CycleDetection.Leave | packages/neuronix-core/neuronix_core/topology.py:265-266 | ending the search of a node keeps every finished node behind its successors as long as no cycle has been reported |
| CycleDetection.CycleFinder.Dfs | packages/neuronix-core/neuronix_core/topology.py:252-266 | one recursive search restores path and recursion stack, finishes its node and keeps the shared variables consistent |
| CycleDetection.DetectCycles | packages/neuronix-core/neuronix_core/topology.py:234-272 | every reported cycle is a closed walk of the graph, and none is reported if and only if the graph is acyclic |
| EvidenceGraph.Decremented | tools/verify_passport.py:229-231 | a counter about to be decremented is still positive, and then counts the edges from nodes not yet visited |
| EvidenceGraph.CountVisited | tools/verify_passport.py:224-234 | Kahn's loop visits every node if and only if the graph is acyclic, for multigraphs with self-loops and duplicate edges |
| EvidenceGraph.ResolveEdges | tools/verify_passport.py:211-221 | either the first edge with a bad endpoint is reported, its source examined before its target, or all edges are resolved and in-degrees counted |
| EvidenceGraph.CheckDag | tools/verify_passport.py:210-235 | the verdict is a bad endpoint, a cycle, or soundness, each only when it is the case |
| EvidenceGraph.TraceLineage | tools/verify_passport.py:259-284 | each step goes to the source of the first inbound edge, no node repeats, and the trace stops only at an unnamed predecessor or before a node it holds |
| EvidenceGraph.LineageReachesRoot | tools/verify_passport.py:237-241 | on a checked graph whose edges use one spelling of the target, the trace is a backward walk that ends at a node no edge enters |
| EvidenceGraph.SpellingsDisagree | tools/verify_passport.py:214-215 | with both spellings on one edge the acyclicity check and the trace follow different edges |
| EvidenceGraph.SpellingsAgreeIff | tools/verify_passport.py:214-215 | for one edge the two passes agree about every node if and only if it does not carry two different spellings |
| EvidenceGraph.SpellingPreference | tools/verify_passport.py:214-215 | from and to are preferred to source and target |
| BlastRadius.Affected | packages/neuronix-core/neuronix_core/topology.py:303-310 | the breadth-first search over reversed edges ends, also on cyclic graphs, with exactly the nodes from which a non-empty dependency path leads to the target |
| BlastRadius.RiskLevel | packages/neuronix-core/neuronix_core/topology.py:313-318 | the reported level is the greatest criticality among the affected nodes, never below LOW |
| BlastRadius.RiskIsUnique | packages/neuronix-core/neuronix_core/topology.py:312-318 | that level does not depend on the order in which the nodes are taken |
| BlastRadius.RiskExactly | packages/neuronix-core/neuronix_core/topology.py:312-318 | the level is CRITICAL, HIGH or MEDIUM as soon as a listed affected node claims it and none a higher one, and else LOW |
| BlastRadius.CalculateBlastRadius | packages/neuronix-core/neuronix_core/topology.py:274-329 | declared and total radius are both exact, the declared one is contained in the total, and the risk is that of the total |
| HashChain.ByTimeSorts | packages/neuronix-core/neuronix_core/journal.py:253 | sorting by creation time gives an ordered permutation |
| HashChain.ByTimeIsStable | packages/neuronix-core/neuronix_core/journal.py:253 | and leaves entries of one second in their places |
| HashChain.BackwardsFails | packages/neuronix-core/neuronix_core/journal.py:253-263 | without a collision among the texts hashed, an entry started under an earlier clock than one before it makes the check fail for good |
| HashChain.VerifiesIffClockMonotone | packages/neuronix-core/neuronix_core/journal.py:190-197 | without a collision among the texts hashed, a chain built entry by entry verifies if and only if creation times never decrease |
| HashChain.SurvivesOnlyTruncation | packages/neuronix-core/neuronix_core/journal.py:253-264 | after deletions the check passes if and only if what is left is a prefix of what there was |
| HashChain.OrderedHolds | packages/neuronix-core/neuronix_core/journal.py:190-197 | whatever the digest, a chain built entry by entry in order of time verifies |
| HashChain.UnhashedPasses | packages/neuronix-core/neuronix_core/journal.py:257 | entries without a hash are passed over, so a journal stripped of all hashes passes |
| Journal.TransactionJournal.StartTransaction | packages/neuronix-core/neuronix_core/journal.py:182-209 | the new entry is linked to the latest by creation time and put in place |
| Journal.TransactionJournal.UpdateTransaction | packages/neuronix-core/neuronix_core/journal.py:211-224 | an unknown id changes nothing and is reported; a known one gets state, time and merged details, and nothing else changes |
| Journal.EntriesExactly | packages/neuronix-core/neuronix_core/journal.py:182-224 | a started transaction is pending with its own id, operation, time and details; an update gives state, time and merged details and keeps the rest |
| Journal.MergedExactly | packages/neuronix-core/neuronix_core/journal.py:220-221 | new details win over old ones, which stay where there is nothing new |
| Journal.TransactionJournal.VerifyChainIntegrity | packages/neuronix-core/neuronix_core/journal.py:245-264 | the loop decides whether every hashed entry, in order of time, carries on from the hash before it |
| Journal.TransactionJournal.GetDangling | packages/neuronix-core/neuronix_core/journal.py:266-277 | exactly the entries in PENDING or APPLYING, in order |
| Journal.ChainVerifiesIffClockMonotone | packages/neuronix-core/neuronix_core/journal.py:182-264 | over every run of starts and updates with fresh ids the check passes if and only if no start read an earlier clock than one before it |
| Journal.DeletionNoticed | packages/neuronix-core/neuronix_core/journal.py:245-264 | after such a run under a non-decreasing clock, deleting entries is noticed unless nothing that came later is left |
| Journal.DeletingOneNoticed | packages/neuronix-core/neuronix_core/journal.py:245-264 | in particular deleting any one entry but the last is noticed |
| Journal.BackwardsRun | packages/neuronix-core/neuronix_core/journal.py:245-264 | a run of two starts under a clock that was set back, which fails the check |
| Journal.DeletionRun | packages/neuronix-core/neuronix_core/journal.py:245-264 | a run of three starts that passes the check, and fails it without its middle entry |
| Journal.StatesNotCovered | packages/neuronix-core/neuronix_core/journal.py:245-264 | rewriting states and details is never noticed |
| OperationLocks.OperationLock.Acquire | packages/neuronix-core/neuronix_core/lock.py:53-99 | succeeds exactly when the lock is free; a refused attempt forgets the descriptor but leaves the locked flag as it was |
| OperationLocks.OperationLock.Release | packages/neuronix-core/neuronix_core/lock.py:101-115 | gives up the lock held through the current descriptor, and does nothing without one |
| OperationLocks.LeakedIffReacquired | packages/neuronix-core/neuronix_core/lock.py:53-115 | over every run of one lock object among other holders, the lock is leaked if and only if the object acquired it while holding it; otherwise its fields say whether it holds the lock |
| OperationLocks.ContendedRun | packages/neuronix-core/neuronix_core/lock.py:83-98 | being refused and acquiring later is harmless |
| Rollback.SimulateExact | packages/neuronix-core/neuronix_core/rollback.py:17-46 | an explicit target is accepted exactly when it is listed and not active, the default target is the greatest listed generation below the active one |
| Rollback.RefusedExactly | packages/neuronix-core/neuronix_core/rollback.py:17-46 | each reason for a refusal is given exactly when it applies first |
| Rollback.Machine.ExecuteRollback | packages/neuronix-core/neuronix_core/rollback.py:48-121 | success exactly when the target is valid, the lock free, the command succeeds and the target is then active; a rollback that ran leaves one settled transaction and the lock as it was; a refused one changes nothing |
| Rollback.Machine.Remedy | packages/neuronix-core/neuronix_core/journal.py:297-316 | which of the five actions recovery takes, and that it claims a rollback only when the earlier generation is active |
| Rollback.Machine.RecoverDanglingTransactions | packages/neuronix-core/neuronix_core/journal.py:279-329 | no dangling transaction is left, settled ones are untouched, each dangling one is settled and reported in order, marked failed without more ado exactly if it is no update or rollback or names no earlier generation, and each one marked rolled back was marked while its earlier generation was active |
| Rollback.UpdateTakenBack | packages/neuronix-core/neuronix_core/journal.py:297-316 | an interrupted system update whose earlier generation is listed and not active, with the lock free and a switch that reaches it, ends rolled back with that generation active |
| Rollback.RecoveryEnds | packages/neuronix-core/neuronix_core/journal.py:266-329 | once every dangling transaction has been reported, nothing in the journal dangles, the rollbacks of recovery itself included |
| Rollback.RecoverTwice | packages/neuronix-core/neuronix_core/journal.py:279-329 | a second recovery reports nothing |
| InterleavingSafety.MutualExclusion | packages/neuronix-core/neuronix_core/lock.py:53-115 | with any number of processes interleaved and crashing, at most one is between taking and giving up the operation lock |
| InterleavingSafety.NoLostUpdate | packages/neuronix-core/neuronix_core/journal.py:35-77 | in every reachable state the journal is what all completed writes give when applied one after the other |
| InterleavingSafety.ChainAlwaysVerifies | packages/neuronix-core/neuronix_core/journal.py:182-264 | in every reachable state the chain verifies, whatever the digest, because starts are stamped and written under the operation lock |
| InterleavingSafety.RecoveryLeavesNothingDangling | packages/neuronix-core/neuronix_core/journal.py:279-329 | whatever the other processes do, nothing dangles when recovery is about to return |
| InterleavingSafety.MarkedTrulyUnderInterleaving | packages/neuronix-core/neuronix_core/journal.py:302-310 | a transaction is marked rolled back only while its earlier generation is active, provided no other process was running the switch when recovery found it already active |
| InterleavingSafety.NoDeadlock | packages/neuronix-core/neuronix_core/journal.py:51-77 | a process that has to wait waits for one that can go on, although recovery takes the two locks in the opposite order to rollback |
| InterleavingSafety.StepShortens | packages/neuronix-core/neuronix_core/journal.py:279-329 | every step a process takes brings its call closer to its end, and no step of another process sets it back |
| InterleavingRaces.AlreadyAtCanBeStale | packages/neuronix-core/neuronix_core/journal.py:303-305 | the proviso is needed: a run in which recovery is about to mark a transaction as rolled back while another generation is active |
| InterleavingRaces.SettledCanChange | packages/neuronix-core/neuronix_core/journal.py:318-322 | continued, the transaction that recovery settled is committed by the process still running it |
| InterleavingVerdicts.AlreadyAtExact | packages/neuronix-core/neuronix_core/journal.py:303-305 | the verdict of having found the earlier generation active is true whenever it comes to be written, in every continuation, if and only if no other process was running the switch command |
| InterleavingSettled.SettledExact | packages/neuronix-core/neuronix_core/journal.py:318-322 | a settled transaction can be written again in some continuation in which nobody asks for it if and only if a process still runs it or is updating it |
| InterleavingOutcomes.RecoveryMarksExactly | packages/neuronix-core/neuronix_core/journal.py:293-322 | among other processes, too, recovery marks a transaction failed without more ado exactly if there is nothing to go back to, and writes FAILED unless the earlier generation was found or restored |
| InterleavingOutcomes.CommittedTruly | packages/neuronix-core/neuronix_core/rollback.py:104-108 | a rollback is committed only while the generation it was for is active |
| InterleavingOutcomes.TakenBack | packages/neuronix-core/neuronix_core/journal.py:297-322 | from any reachable state in which recovery comes to an interrupted update that can be taken back, it can go on until the transaction is marked rolled back with the earlier generation active |
| SignedPayloads.SignedPayloadVerifies | packages/neuronix-core/neuronix_core/crypto.py:137-162 | verification accepts a signed payload whatever the order in which its members were inserted |
| GrantSeals.SealedStaysIntact | packages/neuronix-core/neuronix_core/skills.py:116-125 | a grant signed by the owner still verifies after its flags have changed |
| GrantSeals.PlainGrantsAreSigned | packages/neuronix-core/neuronix_core/skills.py:199-208 | a grant whose texts hold no lone surrogate can be signed |
| GrantSeals.ScopeOrdered | packages/neuronix-core/neuronix_core/skills.py:99 | the scope goes into the payload in the order of code points, every name as often as it is listed |
| GrantSeals.PayloadBinds | packages/neuronix-core/neuronix_core/skills.py:93-104 | a signature covers id, principal, tier, scope, issuer, expiry to the second, input digest and nonce |
| Delegations.DelegationRegistry.Consume | packages/neuronix-core/neuronix_core/skills.py:232-238 | spends a single-use grant and nothing else |
| Delegations.WildcardDropsDot | packages/neuronix-core/neuronix_core/skills.py:127-134 | the pattern a.* admits the name ab |
| Delegations.ScopeExact | packages/neuronix-core/neuronix_core/skills.py:127-134 | a scope admits no name it does not stand for if and only if it is unrestricted or holds no wildcard pattern |
| Delegations.IssuedIsValid | packages/neuronix-core/neuronix_core/skills.py:106-219 | a grant just issued is good exactly until it expires, for its digest if it names one, and for the skills in its scope, an empty scope standing for every skill |
| Skills.SkillDispatcher.Execute | packages/neuronix-core/neuronix_core/skills.py:366-447 | the desk and the answer after an execution, for every caller, token and skill, up to the call of the handler |
| Skills.SkillDispatcher.ResolveProposal | packages/neuronix-core/neuronix_core/skills.py:480-548 | the desk and the answer after a decision, each error case included |
| Skills.HumansDecide | packages/neuronix-core/neuronix_core/skills.py:383-392 | the callers that may decide are exactly those whose executions need no token |
| Skills.Principals | packages/neuronix-core/neuronix_core/skills.py:383-392 | the names of owner and operator in any case; everybody else is an agent |
| Skills.TiersWithoutToken | packages/neuronix-core/neuronix_core/skills.py:394-436 | without a token the owner has full control, the operator may do what is privileged, and an agent what is no gated mutation |
| Skills.MutatingTiers | packages/neuronix-core/neuronix_core/skills.py:427-431 | every tier but the two lowest may mutate |
| Skills.OverrideNeedsNoToken | packages/neuronix-core/neuronix_core/skills.py:433-436 | without a token an agent gets a gated mutation dispatched if and only if it sets the override |
| Skills.DigestBindsSingleUse | packages/neuronix-core/neuronix_core/skills.py:404-421 | inputs with another digest than the grant names are refused if and only if the grant is for a single use |
| SkillRuns.ResolvedOnce | packages/neuronix-core/neuronix_core/skills.py:494-501 | over every run, of two decisions on one hash at most one takes effect |
| SkillRuns.ServesOnce | packages/neuronix-core/neuronix_core/skills.py:401-417 | over every run with fresh tokens, a single-use token authorizes at most one execution by an agent |
| SkillOrigins.ResolvedWasFiled | packages/neuronix-core/neuronix_core/skills.py:459-528 | over every run, what is resolved was filed by an execution of the run, with that skill and those inputs, and decided by a caller who may |
| SkillOrigins.GrantWasMinted | packages/neuronix-core/neuronix_core/skills.py:175-224 | over every run, each grant in the registry was issued or minted by an approval of the run, and has changed only by being revoked or used |
| SkillOrigins.MutationGoesBack | packages/neuronix-core/neuronix_core/skills.py:394-436 | a gated mutation that an agent gets dispatched without the override goes back to a grant of a mutating tier whose scope admits the skill, issued or minted when an authorized caller approved a pending proposal; it has not expired, was not revoked in between, its signature holds, and the dispatch has its tier |
| SkillOrigins.ServesInTime | packages/neuronix-core/neuronix_core/skills.py:408-409 | over every run a token serves only before the expiry of the grant that was minted for it |
| SkillOrigins.DecisionExactly | packages/neuronix-core/neuronix_core/skills.py:490-521 | agents may not decide; a decision comes too late exactly after ten minutes; and it rejects exactly if the action says so in any case |
| SkillOrigins.ApprovedExecutionIsTheProposal | packages/neuronix-core/neuronix_core/skills.py:410-415 | over every run: filed under a hash, approved under it, its token served; the execution is of the skill that was filed, on inputs with the digest of those filed, approved within ten minutes of the filing and executed within five of the approval |
| SkillOrigins.BothBooks | packages/neuronix-core/neuronix_core/skills.py:474-501 | over every run a hash ends in both books if and only if it was filed again after it had been resolved |
| SkillOrigins.FiledOnceBooked | packages/neuronix-core/neuronix_core/skills.py:459-501 | a hash filed during a run is at its end in exactly one of the two books if and only if it was not filed again after its resolution |
| SkillOrigins.RefiledAtOneTime | packages/neuronix-core/neuronix_core/skills.py:459-478 | filing again takes a second proposal of the same skill and inputs at the very time of the first |
| SkillOrigins.RefiledRun | packages/neuronix-core/neuronix_core/skills.py:474-501 | and it happens: proposed, rejected and proposed again at one time, a hash is in both books |
| SkillOrigins.ApprovalIsHonored | packages/neuronix-core/neuronix_core/skills.py:394-447 | over every run, an agent that presents the approved skill and inputs gets them dispatched with the tier of the approval if and only if no more than five minutes have passed and no event since has revoked or used the token |
| ApprovedInputs.ProposalHashBinds | packages/neuronix-core/neuronix_core/skills.py:459-478 | a proposal hash names the skill, its title, the time and, up to member order, the inputs |
| ApprovedInputs.ApprovedInputsOnly | packages/neuronix-core/neuronix_core/skills.py:412-415 | with canonical bytes under the digests and Ed25519 under the grants, filed, approved and served: what is executed are the skill and, up to member order, the inputs that were filed |
| ApprovedInputs.ApprovedInputsHonored | packages/neuronix-core/neuronix_core/skills.py:394-447 | and equal inputs up to member order are dispatched if and only if the token is presented within five minutes and was neither revoked nor used before |
| Shifting.InsertTimesClosed | packages/conductor/src/vt.rs:386-414 | inserting n times leaves what is before the place and moves what is behind it by n, as far as there is room |
| Shifting.DeleteTimesClosed | packages/conductor/src/vt.rs:395-425 | deleting n times closes the gap and fills up with blanks |
| Shifting.DeleteUndoesInsert | packages/conductor/src/vt.rs:386-425 | deleting after inserting at the same place restores everything that was not pushed off the end |
| ScreenLaws.LinesRestored | packages/conductor/src/vt.rs:386-403 | deleting as many lines as were inserted restores every line not pushed off the bottom |
| ScreenLaws.CharsRestored | packages/conductor/src/vt.rs:404-425 | the same for the cells of one line; behind the last column neither does anything |
| ScreenLaws.NothingBeforeCursor | packages/conductor/src/vt.rs:386-425 | neither lines above the cursor nor cells before it move |
| ScreenLaws.AlternateKeepsScrollback | packages/conductor/src/vt.rs:154-168 | on the alternate screen no command touches the scrollback |
| ScreenLaws.LeavingDoesNotRestore | packages/conductor/src/vt.rs:432-440 | leaving the alternate screen restores the cursor but not the text, which entering has blanked |
| ScreenLaws.RestoreAfterSave | packages/conductor/src/vt.rs:212-219 | restoring after saving moves the cursor only if it stood behind the last column |
| ControlLaws.SequenceParsed | packages/conductor/src/vt.rs:221-256 | an escape, a bracket, any digits, semicolons and question marks, and one letter or @ are one control sequence, and the text after it is parsed on |
| ControlLaws.CursorMoves | packages/conductor/src/vt.rs:366-381 | up, down, right and left by n, as far as the screen goes, and nothing else |
| ControlLaws.OneByDefault | packages/conductor/src/vt.rs:366-425 | without a number moves, insertions and deletions count one |
| ControlLaws.MovesUndo | packages/conductor/src/vt.rs:366-381 | where there was room, up undoes down and the other way round, and left undoes right |
| ControlLaws.CursorPosition | packages/conductor/src/vt.rs:351-357 | row and column count from one and end at the edges |
| ControlLaws.CursorHome | packages/conductor/src/vt.rs:351-385 | without numbers the upper left corner; a column alone keeps the row |
| ControlLaws.SaveAndRestore | packages/conductor/src/vt.rs:212-219 | both pairs of codes save the place of the cursor and bring it back, within the last column |
| ControlLaws.EraseLine | packages/conductor/src/vt.rs:180-205 | which cells of its line each erasing mode blanks |
| ControlLaws.EraseLineOnly | packages/conductor/src/vt.rs:180-205 | and no other line and nothing else changes |
| ControlLaws.EraseDisplay | packages/conductor/src/vt.rs:358-362 | erasing the display blanks every cell and sends the cursor home; its other modes do nothing |
| ControlLaws.LinesByCode | packages/conductor/src/vt.rs:386-403 | row by row, what inserting and deleting n lines does |
| ControlLaws.CellsByCode | packages/conductor/src/vt.rs:404-425 | cell by cell, what inserting and deleting n characters does |
| ControlLaws.ControlCharacters | packages/conductor/src/vt.rs:115-137 | carriage return, backspace, and the tab to the next multiple of eight within the line |
| ControlLaws.LineFeed | packages/conductor/src/vt.rs:154-168 | a line feed goes down a row or scrolls, the topmost row going to the scrollback unless the alternate screen is on |
| ControlLaws.ResizeKeepsOverlap | packages/conductor/src/vt.rs:97-113 | every cell of both rectangles stays, new ones are blank, and the cursor goes no further than the edge |
| ControlLaws.ColorCodes | packages/conductor/src/vt.rs:265-350 | the eight colors and their bright ones, for text and background |
| ControlLaws.SwitchOn | packages/conductor/src/vt.rs:265-350 | resetting, and bold, underline and inverse on |
| ControlLaws.SwitchOff | packages/conductor/src/vt.rs:265-350 | bold, underline and inverse off, and both colors back to the default |
| ControlLaws.AttributesInOrder | packages/conductor/src/vt.rs:265-350 | two codes in one sequence are two sequences, left to right |
| ControlLaws.ExtendedColors | packages/conductor/src/vt.rs:265-350 | a color of the table of 256, and one by red, green and blue |
| TerminalScreen.PutCharValid | packages/conductor/src/vt.rs:115-152 | writing a character keeps the shape of the grid, the cursor in range and the scrollback limited |
| TerminalScreen.HandleCsiValid | packages/conductor/src/vt.rs:258-441 | so does every control sequence |
| TerminalScreen.ResizedValid | packages/conductor/src/vt.rs:97-113 | and every resize |
| TerminalBuffers.TakeCsi | packages/conductor/src/vt.rs:228-240 | the loop takes exactly the parameters and the one final character of a control sequence |
| TerminalBuffers.ReadAttributes | packages/conductor/src/vt.rs:265-350 | the attribute loop applies the codes left to right, extended colors taking two or four further tokens |
| TerminalBuffers.TerminalBuffer.Resize | packages/conductor/src/vt.rs:97-113 | keeps the overlap of the two rectangles, blanks the rest and clamps the cursor |
| TerminalBuffers.TerminalBuffer.PutChar | packages/conductor/src/vt.rs:115-152 | each branch of writing a character, wrapping and scrolling included |
| TerminalBuffers.TerminalBuffer.HandleCsi | packages/conductor/src/vt.rs:258-441 | the screen after any control sequence |
| TerminalBuffers.TerminalBuffer.WriteStr | packages/conductor/src/vt.rs:221-256 | the loop over the text carries out exactly the commands the text parses into, and keeps the screen valid |
| TerminalBuffers.AfterAll | packages/conductor/src/vt.rs:97-256 | every interleaving of resizing and writing keeps rows and columns at least one, the grid rectangular, the cursor in range and the scrollback at 5000 rows |
| EscapeParsing.CutsExactlyOutside | packages/conductor/src/vt.rs:221-256 | on any screen a text can be cut off from every continuation exactly when it does not stop inside an escape sequence; the same holds of the parsed commands |
| EscapeParsing.WrittenInPieces | packages/conductor/src/vt.rs:221-256 | writing in two pieces cut there is writing at once |
| Printing.WrittenIsFilled | packages/conductor/src/vt.rs:115-168 | printing any text on a fresh terminal gives grid, scrollback and cursor in closed form |
| Printing.CharacterAt | packages/conductor/src/vt.rs:115-168 | character i stands in row i / cols, column i mod cols of the rows scrolled off followed by the grid, and the scrollback holds the last 5000 of the former |
| Sha256Spec.RoundConstants | packages/neuronix-daemon/src/crypto.rs:8-25 | each of the 64 round constants holds the first 32 fractional bits of the cube root of its prime |
| Sha256Spec.InitialHash | packages/neuronix-daemon/src/crypto.rs:32-39 | the initial hash value holds those of the square roots of the first eight primes |
| Sha256Laws.ChChooses | packages/neuronix-daemon/src/crypto.rs:74 | Ch takes the second argument where the first has ones and the third where it has zeros |
| Sha256Laws.MajVotes | packages/neuronix-daemon/src/crypto.rs:77 | Maj takes the value that most of its arguments have |
| Sha256Laws.SigmasOfBits | packages/neuronix-daemon/src/crypto.rs:58-76 | the rotations by 2, 13, 22, by 6, 11, 25, by 7, 18 and by 17, 19, and the shifts by 3 and 10 |
| Sha256Laws.WordOrder | packages/neuronix-daemon/src/crypto.rs:53-55 | words are read and written with the most significant byte first |
| Sha256Laws.ScheduleByStandard | packages/neuronix-daemon/src/crypto.rs:57-61 | the recurrence of the message schedule, step 1 of section 6.2.2 of FIPS 180-4 |
| Sha256Laws.RoundByStandard | packages/neuronix-daemon/src/crypto.rs:72-88 | one round, step 3: two new variables, the other six move down by one |
| Sha256Laws.SumsWrap | packages/neuronix-daemon/src/crypto.rs:60-88 | every sum counts each of its summands once, modulo 2^32 |
| Sha256Laws.BlockByStandard | packages/neuronix-daemon/src/crypto.rs:90-97 | after a block each word of the hash value has grown by its own working variable |
| Sha256Laws.DigestWords | packages/neuronix-daemon/src/crypto.rs:100-109 | the digest reads back as the eight words in order, most significant byte first |
| Sha256Spec.PaddedLength | packages/neuronix-daemon/src/crypto.rs:41-49 | the padded length is the least multiple of 64 with room for nine more bytes |
| Sha256Spec.PaddingInjective | packages/neuronix-daemon/src/crypto.rs:41-49 | different messages have different paddings |
| Sha256Spec.Base256Value | packages/neuronix-daemon/src/crypto.rs:41-49 | the last eight bytes of the padding spell the length in bits |
| Sha256.Pad | packages/neuronix-daemon/src/crypto.rs:41-49 | the padding loop stops after the least number of zero bytes |
| Sha256.FillSchedule | packages/neuronix-daemon/src/crypto.rs:52-61 | the in-place loops leave in the array the message schedule of section 6.2.2 of FIPS 180-4 |
| Sha256.Compress | packages/neuronix-daemon/src/crypto.rs:63-88 | the 64 rounds on the eight variables are those of the standard |
| Sha256.Sha256 | packages/neuronix-daemon/src/crypto.rs:31-110 | for every message below 2^61 bytes the digest is that of the standard |
| Sha256.HexInjective | packages/neuronix-daemon/src/crypto.rs:113-120 | different digests have different hexadecimal texts |
| Sha256.Sha256Hex | packages/neuronix-daemon/src/crypto.rs:113-120 | 64 lower-case digits spelling the digest |
| BracketLexer.FallbackLexicalParse | packages/neuronix-core/neuronix_core/semantic.py:181-216 | the loop gives the verdict of the stack machine, error index included |
| BracketLexer.AcceptsExactlyGrammar | packages/neuronix-core/neuronix_core/semantic.py:181-216 | a text passes if and only if it derives from the grammar of plain characters, closed strings and matching brackets |
| BracketLexer.BracketPairs | packages/neuronix-core/neuronix_core/semantic.py:183-184 | three pairs of brackets, each closed by its own |
| BracketLexer.ExtendableIffGoing | packages/neuronix-core/neuronix_core/semantic.py:189-214 | a text can be completed to one that passes as long as no bracket has failed |
| BracketLexer.ReportsFirstBadPrefix | packages/neuronix-core/neuronix_core/semantic.py:203-208 | a bracket error is reported at the first index whose prefix no continuation can save, with the character there |
| LineServer.WhiteSpace | packages/conductor-runtime/conductor_runtime/server.py:165 | the 29 characters that stripping takes for white space |
| LineServer.StripExactly | packages/conductor-runtime/conductor_runtime/server.py:165 | stripping takes white space off both ends of a line, and all of it |
| LineServer.Connection.Receive | packages/conductor-runtime/conductor_runtime/server.py:160-168 | one read hands on the stripped non-empty lines that are now complete and keeps the rest |
| LineServer.Connection.Handle | packages/conductor-runtime/conductor_runtime/server.py:149-171 | over a whole connection that is what draining the joined reads would give, up to the first empty read |
| LineServer.DrainedConcat | packages/conductor-runtime/conductor_runtime/server.py:160-168 | draining in two goes is draining at once, however the stream was cut |
| LineServer.FramesDelivered | packages/conductor-runtime/conductor_runtime/server.py:149-171 | from framed one-line bodies in any cut, exactly the bodies are dispatched, in order, and nothing is left |
| RpcClient.EscapeJsonStr | packages/conductor/src/client.rs:94-113 | the loop replaces each character by its escape |
| RpcClient.FrameIsOneLine | packages/conductor/src/client.rs:41-49 | a frame whose parameters hold no newline is one line that starts and ends with a brace |
| ClientFrames.ClientStringReadsBack | packages/conductor/src/client.rs:94-113 | what the client escapes reads back as it was in a reader of JSON, control characters included |
| ClientFrames.FrameIsJson | packages/conductor/src/client.rs:41-49 | a frame whose parameters are a canonical text is a JSON object of version, id, method and parameters |
| RpcClient.RequestsDelivered | packages/conductor/src/client.rs:41-49 | any sequence of such requests, in any cut, is dispatched body by body |
| RpcClient.ScanValue | packages/conductor/src/client.rs:139-153 | the scanning loop returns the value up to the closing quote with backslashes dropped |
| RpcClient.ExtractionInvertsEscaping | packages/conductor/src/client.rs:130-154 | extraction gives an escaped value back if and only if it holds no control character |
| RpcClient.MethodReadsBack | packages/conductor/src/client.rs:130-154 | the method of a frame is extracted unchanged if and only if it holds no control character |
| RpcClient.IdReadsBack | packages/conductor/src/client.rs:157-165 | the id of a frame is extracted unchanged as long as it fits a machine word |
| ObjectField.ScanObject | packages/conductor/src/client.rs:207-235 | the brace-counting loop finds the end of the value, if there is one |
| ObjectField.ScanTakesObject | packages/conductor/src/client.rs:207-240 | the first n characters are taken if and only if they form an object balanced outside strings |
| ObjectField.ObjectReadsBack | packages/conductor/src/client.rs:198-241 | such an object after the first occurrence of its field name is extracted whole, whatever follows it |

## Left out

- IsPrime(2^255-19) and the order of the base point: hypotheses of the theorems about deployed constants.
- Hash functions in the Python code, key generation and timing: digests are functions. The chain and the state root assume no
  collision among the texts hashed; proposals and grants assume an injective digest. `HashChain.SpellingIsSound` and
  `ApprovedInputs.GoodConfigExists` show that the conditions can be met.
- The hexadecimal form of keys and signatures in sign_canonical and verify_canonical: the model signs and verifies bytes.
- The shortest decimal text of a float, dictionary keys that are not strings, values of other types, and Python's limit on the
  length of integer texts: the model starts from JSON values.
- Gathering the five leaves, the trust vector and the checks of verify_state other than the root: they read the host; the
  outcome of the other checks is an argument of VerifyState.
- Corrupted journals and their quarantine, I/O errors while the journal is written, and journal paths that differ between
  processes: the journal is a value and all processes resolve the same one.
- Time stamps: seconds as numbers in place of ISO texts, which sort alike; a stored previous_generation that is not a number,
  and generation numbers with leading zeros, are not modelled.
- update.py and the other users of lock and journal: the interleaved model has rollback, recovery and single journal updates;
  system updates follow the same sequence of steps as a rollback.
- Interleaving: only processes of the model change the active generation, and the listing of generations does not change.
- Digests of the nodes in the evidence graph (verify_passport.py, the checks before line 210) and reading the file.
- build_effective_topology: the declared and observed dependencies are arguments; outputs sorted for display are sets here.
- DelegationRecord as a shared object: grants are values in the registry's dictionary, so aliasing of a record that grant
  has returned is not captured. validate_token, composite tokens and to_dict are not modelled.
- Skills.SkillDispatcher.Execute: does not model the handler's result, the receipt and its evidence hash; dispatching is the
  last step of an execution here.
- Rollback.Machine.Remedy: does not model the action for an error raised while recovering, which takes an I/O error of lock or
  journal, or a stored previous_generation that is not a number.
- Inputs as shared dictionaries: a proposal holds a value, so a caller that changes the dictionary it handed in is not captured.
- Sequences that overflow a machine word when added to the cursor: counts are natural numbers once parsed; counts that do not
  fit a word read as the default, as in the source.
- write_bytes and its lossy decoding, line_to_string, rendering and the PTY.
- LineServer: decoding of chunks that cut a character, responses, and stopping the server; _process_raw_message is not part of
  this model.
- The other numeric and boolean extractors of the client and parse_rpc_response: they follow the same search as the modelled ones.
- Nix syntax: the lexer knows neither comments nor indented strings, and neither does the model; the token count is not modelled.
