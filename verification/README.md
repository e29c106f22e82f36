# Juicebox protocol client: a verified model

This project models the client side of the Juicebox protocol and proves what it is for: a secret
registered under a PIN can be recovered with that PIN from a threshold of realms, and nothing else
can come out of a recovery, whatever other clients do at the same time and whatever a minority of
realms answers. It has four layers.

1. **Threshold algebra.** Integers modulo a prime (inverses come from Bezout's identity, not from an
   axiom), modules over them, Lagrange weights, Shamir sharing for scalars and group points alike, the
   blinded PRF with its threshold form, and its Chaum-Pedersen proofs.
   `PrimeField`, `Fields`, `Spaces`, `Lagrange`, `Shamir`, `Threshold`, `Oprf`.
2. **Register and recover.** Configurations, what a registration prepares, the realms' state machine,
   the three phases of recovery with their quorum decisions, and the runs of the whole system under
   arbitrary interleavings.
   `Encoding`, `Configurations`, `Gathering`, `Join`, `Requests`, `Realms`, `Registrations`,
   `Recovery`, `Authenticity`, `Guarantees`, `Promises`, `Worlds`, `Persistence`, `Guesses`, `Counting`,
   `Unlocking`, `Outcomes`, `Freshness`, `StaleRuns`.
3. **Request engine.** `Join` for the threshold join; `Sessions` for the session slot and retry loop of
   a hardware realm and the two tries of a software realm.
4. **Noise NK.** `NoiseFramework` has the generic token rules, `Noise` the client and server objects as
   written for one pattern, `Transports` the messages after the handshake.

`Wrappers` and `Shuffles` are small helpers.

## How to read it

*The source's form.* Code that changes things step by step is a class or a method with a loop
(`Realms.RealmRecord`, `Sessions`, `Noise`, `Join`, `Gathering`, `Configurations.Check`,
`Recovery.RunPhase1` to `PerformRecover`). Each such method is proved equal to a function or against a
stated property, and the main theorems are about those functions.

*Cryptography.* Primitives are function-valued parameters (`Oprf.Suite`, `Registrations.Crypto`,
`NoiseFramework.Primitives`). What every implementation guarantees is a law (`IsSuite`, `IsCrypto`,
`Lawful`). What only an ideal one guarantees is a separate hypothesis of the theorems that need it:
`CollisionFree` for the hashes, and `Unforgeable`, which says of the answers in one recovery that a
valid signature or MAC under a registration's keys is on a message its client signed or authenticated
and that an accepted proof has a witness. The guess limit adds `TagsEarned`: a valid tag of a
registration is presented only by a recovery that learned its unlock key, and `OnlyVersion`: versions
are not drawn twice. `MacInjective` and `PinHashInjective` say of derived keys that they fix what they
are derived from. Nothing is assumed about realms that lie beyond that.

*Randomness* is an argument: polynomial coefficients, keys and the version are part of a `Registration`,
blinding factors and proof randomness are parameters. The theorems on recovery need a non-zero blinding
factor, which the client does not check; `Oprf.UnblindCorrect` says exactly when it matters.

*The environment of a recovery* is the answer each realm gives to each request and the order in which
answers arrive. In the request engine it is nondeterminism at each await: missing tokens, lost
requests, lost or replaced replies, sessions a realm forgets, expiry, cancellation.

*Laws as predicates.* Many hypotheses have the form `forall x :: SomeLaw(x)`; proofs bring in the
instances they need by asserting `SomeLaw`.

## Where code and documentation differ

The model follows the code.

- `rust/sdk/src/configuration.rs:92-95` announces a check that the register threshold is at least the
  recover threshold, and tests the recover threshold a second time. `Freshness` gives the exact
  condition under which a successful registration leaves no older version for phase 1 to find, shows
  that the documented requirement implies it among honest realms, and gives an accepted configuration
  with a run of honest realms after which the older PIN still recovers the older secret.
- A register threshold of zero is accepted and panics in the join (`Registrations.PerformRegister`).
- A hardware realm can make the client panic by claiming an impossible response length
  (`rust/realm/api/src/requests.rs:198-206`), and so can a previous configuration with a hardware realm
  that the current one lacks (`rust/sdk/src/request.rs:318`). Recovery despite lying realms therefore
  holds exactly if no answer does that: `Promises.RobustRecovery`, `Promises.OneAnswerPanics`,
  `Recovery.MissingSlotPanics`.
- `rust/sdk/src/recover.rs:336` subtracts two 16-bit counters without a check; the model wraps around,
  as a build without overflow checks does, while a build with them would panic on such an answer.
  Answers of honest realms never wrap (`Promises.HonestRemaining`).
- The protocol paper collects phase 3 shares without comparing ciphertexts and uses a shorter label for
  the secret commitment; the code groups by ciphertext and uses "Encrypted User Secret Commitment".
- A failed decryption uses up its nonce (`rust/noise/src/lib.rs:120-123`), unlike section 5.1 of the
  Noise Protocol Framework, and the code stops one nonce early: it refuses 2^64 - 2 as well as the
  reserved 2^64 - 1. Equality with the generic rules is therefore stated for each message read or
  written, where every cipher is used once.
- The name rule of section 5.2 pads names of exactly 32 bytes; the code would hash them. The one name
  used has 33 bytes.

## Model

| member | source | states |
|---|---|---|
| `PrimeField.Inv` | rust/secret_sharing/src/lib.rs:114 | The computed inverse of every scalar that is not zero modulo the prime is its inverse, and zero for zero; this follows from primality alone. |
| `Fields.ModuloIsField` | rust/secret_sharing/src/lib.rs:34-40 | Integers modulo any prime above 2^32 satisfy the field laws used throughout, so different share indices stay different and non-zero as scalars. |
| `Spaces.ScalarSpaceIsSpace` | rust/secret_sharing/src/lib.rs:15-31 | Scalars are one instance of the trait over which sharing is generic. |
| `Lagrange.DenominatorZero` | rust/secret_sharing/src/lib.rs:107-112 | The product of differences vanishes exactly when another point coincides, because a prime field has no zero divisors. |
| `Lagrange.Moments` | rust/secret_sharing/src/lib.rs:103-115 | For any distinct points the weights sum to one and their moments of degree 1 up to the number of points minus one vanish: interpolation at zero is exact. |
| `Lagrange.TopMoment` | rust/secret_sharing/src/lib.rs:103-115 | The first moment that does not vanish is the signed product of all the points. |
| `Shamir.RecoverRefusesDuplicates` | rust/secret_sharing/src/lib.rs:97-119 | Recovery reports duplicate shares if and only if two shares have the same index; otherwise it is the combination by Lagrange weights. |
| `Threshold.RecoverCreated` | rust/secret_sharing/src/lib.rs:97-119 | Any distinct-index shares on one polynomial, more than its number of random coefficients, recover its constant term. |
| `Threshold.ShamirCorrectness` | rust/secret_sharing/src/lib.rs:54-119 | For every secret, coefficients, threshold and count, any threshold or more created shares with distinct indices recover the secret, in any order and over any module. |
| `Threshold.BelowThreshold` | rust/secret_sharing/src/lib.rs:89-119 | Recovering from exactly threshold - 1 shares gives the secret plus the first coefficient times a non-zero factor, so it is right if and only if that coefficient is zero. |
| `Threshold.ThresholdIndependence` | rust/secret_sharing/src/lib.rs:56-82 | For any values of threshold - 1 distinct shares and any candidate secret exactly one coefficient list explains them. |
| `Threshold.FitCorrect` | rust/secret_sharing/src/lib.rs:66-81 | A coefficient list through any given values at any distinct non-zero points. |
| `Threshold.FitUnique` | rust/secret_sharing/src/lib.rs:66-81 | No two coefficient lists agree at as many distinct non-zero points as they have coefficients. |
| `Threshold.RecoveredExplains` | rust/secret_sharing/src/lib.rs:97-119 | Whatever recovery returns lies on the one polynomial through all the shares it was given. |
| `Threshold.RecoverAnyOrder` | rust/secret_sharing/src/lib.rs:97-119 | Permuting the shares changes neither the recovered value nor the refusal, index 0 and the empty list included. |
| `Threshold.RecoverLinear` | rust/secret_sharing/src/lib.rs:97-119 | Recovery of sums of shares is the sum of the recoveries, and likewise for multiples. |
| `Threshold.RecoverMultiples` | rust/sdk/src/recover.rs:183-186 | Recombining multiples of one point by shared scalars gives the multiple by the recombined scalar. |
| `Oprf.UnblindCorrect` | rust/oprf/src/lib.rs:235-304 | Unblinding gives the direct evaluation if and only if the blinding factor is non-zero or the evaluation is the identity. |
| `Oprf.RecoverEvaluated` | rust/oprf/src/lib.rs:335-339 | Recombining the key shares' evaluations of one blinded input equals evaluating it under the recombined key. |
| `Oprf.ThresholdOprf` | rust/oprf/src/lib.rs:235-339 | For every input, non-zero blinding factor and set of at least threshold shares: evaluate under each key share, recombine, finalize, and the result is the direct evaluation under the root key. |
| `Oprf.OutputsApart` | rust/oprf/src/lib.rs:241-253 | Although the input's length is not hashed, output messages of different inputs or results differ. |
| `Oprf.ProofComplete` | rust/oprf/src/dleq.rs:49-99 | Every generated proof is accepted, for every key, input and randomness. |
| `Oprf.ProofSound` | rust/oprf/src/dleq.rs:70-99 | Special soundness: two answers with equal commitments under different challenges give one scalar that is the discrete logarithm of both pairs. |
| `Oprf.ChallengeBinds` | rust/oprf/src/dleq.rs:101-121 | The challenge binds all five points: for any two different transcripts of compressed points some hash function gives different challenges. |
| `Oprf.ForkedSound` | rust/oprf/src/dleq.rs:70-99 | Soundness of accepted proofs: if two hash functions differ at one message only and each of two proofs is accepted under one of them only, a single scalar is behind public key and output. |
| `Oprf.DomainsApart` | rust/oprf/src/dleq.rs:108-113 | No message of the output hash is a message of the challenge hash. |
| `Oprf.EqualLogsIsEvaluation` | rust/oprf/src/dleq.rs:49-99 | With the public key of a private key, equal logarithms mean that the output is the evaluation under that private key. |
| `Encoding.EncodeInjective` | rust/marshalling/src/lib.rs:52-60 | Concatenating length-prefixed fields is injective over lists of any length whose fields fit the prefix. |
| `Encoding.MacMessagesApart` | rust/realm/api/src/types.rs:370-436 | MAC inputs under one unlock key determine their label, realm, share and ciphertext. |
| `Encoding.SaltsApart` | rust/sdk/src/pin.rs:84-91 | The salt determines version and user information. |
| `Encoding.SignatureMessagesApart` | rust/realm/api/src/signing.rs:71-79 | The signed message determines realm and public key. |
| `Encoding.Layouts` | rust/realm/api/src/types.rs:372-433 | The bytes that are authenticated, signed or used as salt: each field after its length, label first, as written out. |
| `Configurations.Check` | rust/sdk/src/configuration.rs:49-112 | A configuration is accepted exactly when it has unique realm IDs, 32-byte keys, a recover threshold that is a strict majority, and a register threshold up to the number of realms; the result has its realms sorted. |
| `Configurations.CanonicalIsChecked` | rust/sdk/src/configuration.rs:101-111 | Sorting keeps acceptance and gives ascending IDs. |
| `Configurations.CanonicalOrder` | rust/sdk/src/configuration.rs:101-122 | Any reordering of the same realms yields the same sorted list, hence the same share index for every realm. |
| `Configurations.SortedUnique` | rust/sdk/src/configuration.rs:103-104 | Among lists with unique IDs the sorted permutation is unique. |
| `Configurations.AtMostNumeric` | rust/sdk/src/configuration.rs:103-104 | IDs of one length are ordered as the numbers their bytes write in big-endian order, so sorted realms ascend. |
| `Configurations.PositionFinds` | rust/sdk/src/configuration.rs:116-122 | The position found is that of a realm with the ID, and none is found only if there is none. |
| `Join.JoinAtLeastThreshold` | rust/sdk/src/request.rs:370-411 | For every completion order: all successes if at least threshold futures succeed, else the least of the first total - threshold + 1 errors; it panics exactly if a future panics before there are that many errors, and its own final assert cannot fire. |
| `Join.JoinedIsLeast` | rust/sdk/src/request.rs:393-396 | The error of a failed join is the least of exactly the first total - threshold + 1 errors to arrive. |
| `Join.InterruptedIff` | rust/sdk/src/request.rs:387-400 | If enough futures succeed, a panic of any other one interrupts the join, in every completion order. |
| `Join.JoinedAnyOrder` | rust/sdk/src/request.rs:361-411 | Whether the join succeeds, and the multiset of successes, do not depend on the order; an error returned is one that occurred. |
| `Gathering.Group` | rust/sdk/src/recover.rs:116-122 | The map built by pushing each value under its key holds exactly the keys that occur, each with its values in order. |
| `Gathering.OneQuorum` | rust/sdk/src/recover.rs:124-129 | With a strict majority threshold at most one group survives pruning, so the consensus asserts never fire. |
| `Gathering.FindQuorum` | rust/sdk/src/recover.rs:116-133 | Grouping, pruning and taking the remaining group returns the one group that reaches the threshold, or nothing if none does. |
| `Requests.PaddedRoundTrip` | rust/realm/api/src/requests.rs:171-206 | Padding succeeds up to 436 bytes and unpadding undoes it. |
| `Realms.GuessBudget` | whitepaper/whitepaper.typ:342-369 | A held registration grants exactly the guesses it has left: that many phase 2 requests for its version, each reporting the allowance and its place in the count, and every later one is refused. |
| `Realms.UnlockRestores` | whitepaper/whitepaper.typ:446-465 | Phase 3 with the right version and tag, whatever was attempted before, hands out the share and ciphertext, and afterwards exactly the whole allowance of phase 2 requests is granted again. |
| `Realms.WrongTagTells` | whitepaper/whitepaper.typ:452-458 | Phase 3 with a wrong tag reports exactly how many phase 2 requests will still be granted, and uses up the registration when that is none. |
| `Realms.OtherVersionsFree` | whitepaper/whitepaper.typ:348-350 | While guesses are left, phase 1 and requests with another version change nothing. |
| `Realms.UsedUp` | whitepaper/whitepaper.typ:344-347 | With no guess left the next phase 1 or 2 request uses up the registration, and no recovery request, even with the right tag, brings it back. |
| `Realms.GuessesSpent` | whitepaper/whitepaper.typ:342-369 | Carrying out k phase 2 requests raises the attempted guesses by at most k. |
| `Persistence.DeletionLasts` | whitepaper/whitepaper.typ:526-530 | In every run a realm knows no registration from a deletion until the next one is stored there. |
| `Persistence.UsedUpLasts` | whitepaper/whitepaper.typ:300-307 | In every run, once no guess is left, the next phase 1 or 2 request uses up the registration until another is stored or it is deleted. |
| `Unlocking.AttemptsCounted` | whitepaper/whitepaper.typ:342-465 | Over every run a realm's attempted guesses are exactly the phase 2 requests for its version since the last phase 3 request with the right tag, as long as nothing else arrives when none is left. |
| `Unlocking.FinishedRecoveriesFree` | whitepaper/whitepaper.typ:460 | Any number of recoveries that finish phase 3 before the realm is asked again leave the registration with all its guesses. |
| `Realms.RealmRecord.Recovery1` | whitepaper/whitepaper.typ:293-311 | Phase 1 reports the version, or moves to no guesses when they are used up; guesses stay within the allowance. |
| `Realms.RealmRecord.Recovery2` | whitepaper/whitepaper.typ:342-369 | Phase 2 spends exactly one guess when it evaluates, none otherwise, and never exceeds the allowance. |
| `Realms.RealmRecord.Recovery3` | whitepaper/whitepaper.typ:446-469 | Phase 3 hands out the shares and resets the guesses exactly for the right version and tag; a wrong tag with no guess left moves to no guesses. |
| `Registrations.PadSecret` | rust/sdk/src/types.rs:187-194 | Inserting the length and resizing gives the 129-byte padded secret. |
| `Registrations.PadRoundTrip` | rust/sdk/src/types.rs:187-201 | Unpadding a padded secret returns it, for every length up to 128. |
| `Registrations.UnpadReads` | rust/sdk/src/types.rs:196-201 | Unpadding succeeds exactly for 129 bytes whose first is at most 128, and returns the bytes that length announces. |
| `Registrations.RequestsAligned` | rust/sdk/src/register.rs:83-152 | The request zipped to the i-th realm carries the key share and scalar share whose index recovery will look up for that realm, and a signature, tag and commitment made for that realm and share. |
| `Registrations.RequestsCarry` | rust/sdk/src/register.rs:132-149 | Every request carries the registration's version and number of guesses. |
| `Registrations.EncryptionKeysApart` | rust/sdk/src/types.rs:262-277 | Under an ideal MAC the encryption key fixes both the seed from the PIN and the scalar the realms share. |
| `Registrations.TagsApart` | rust/realm/api/src/types.rs:372-383 | Under an ideal MAC a tag fixes its unlock key and realm. |
| `Registrations.SecretCommitmentsApart` | rust/realm/api/src/types.rs:416-436 | Under an ideal MAC a secret commitment fixes its key, realm, share and ciphertext, and is never a tag. |
| `Registrations.PinHashesApart` | rust/sdk/src/pin.rs:45-104 | Under an ideal password hash either half of the hashed PIN fixes hashing mode, PIN, version and user information. |
| `Registrations.SeedIndependent` | rust/sdk/src/pin.rs:96-104 | Neither half of the hashed PIN determines the other. |
| `Registrations.UnlockKeyIndependent` | rust/sdk/src/types.rs:327-337 | Neither the commitment nor the unlock key determines the other. |
| `Registrations.PerformRegister` | rust/sdk/src/register.rs:62-157 | Registration succeeds exactly when at least register-threshold realms accept in both phases and no request panics in time, fails with the error that decided the join of the first phase to miss the threshold, and panics exactly when that threshold is zero or a request panics while its phase waits for it. |
| `Registrations.RegisterVerdicts` | rust/sdk/src/register.rs:161-192 | In each phase of registration only that phase's response counts as success. |
| `Registrations.AllRefuse` | rust/sdk/src/register.rs:161-192 | If all realms fail a registration in the same way, it reports that kind of error, in both phases; a response of the wrong kind is an assertion error. |
| `Registrations.RegisterPreference` | rust/sdk/src/register.rs:29-51 | The order in which a join prefers registration errors. |
| `Recovery.RunPhase1` | rust/sdk/src/recover.rs:112-133 | The phase 1 loop computes the quorum on versions, or the error the join or the missing quorum calls for, or panics over a request. |
| `Recovery.RunPhase2` | rust/sdk/src/recover.rs:135-197 | The phase 2 loop computes the quorum on commitment and verifying key, recombines and compares the commitment, with each error case and the panic over a request. |
| `Recovery.RunPhase3` | rust/sdk/src/recover.rs:199-258 | The phase 3 loop drops shares with a wrong commitment, finds the quorum on the ciphertext, recombines and decrypts, with each error and panic. |
| `Recovery.PerformRecoverWithConfiguration` | rust/sdk/src/recover.rs:106-259 | The three phases in sequence compute the recovery function the theorems are about. |
| `Recovery.PerformRecover` | rust/sdk/src/recover.rs:76-100 | The outcome is that of the first configuration that does not report a missing registration, trying previous configurations in order with the session slots of the current one. |
| `Outcomes.FallbackRecovers` | rust/sdk/src/recover.rs:83-98 | If nothing is held under the first k configurations and a threshold of realms of the next one serve a registration, the outcome is that registration's secret. |
| `Recovery.MissingSlotPanics` | rust/sdk/src/request.rs:310-318 | A previous configuration with a hardware realm that the current one lacks: the client panics over its missing session slot in every recovery in which enough other realms answer. |
| `Authenticity.AcceptedShareIsGenuine` | rust/sdk/src/recover.rs:287-382 | Whatever a realm answers, a share accepted under a registration's verifying key is the evaluation of the blinded input under the key share registered for that realm. |
| `Authenticity.VerifiedIsGenuine` | rust/sdk/src/recover.rs:213-232 | Whatever a realm answers, a share that passes the commitment check is the scalar share registered for that realm, with the registered ciphertext. |
| `Authenticity.RecoverGenuine` | rust/sdk/src/recover.rs:183-186 | Genuine evaluations from at least threshold realms recombine to the evaluation under the root key, without a duplicate-share error. |
| `Authenticity.DecryptGenuine` | rust/sdk/src/recover.rs:250-256 | Genuine scalar shares from at least threshold realms decrypt the registered ciphertext to the registered secret, without a panic. |
| `Guarantees.GoodQuorum` | rust/sdk/src/recover.rs:114-133 | If threshold many distinct realms give the same key the quorum is theirs, whatever the others answer and in whatever order. |
| `Guarantees.Phase1Realms` | rust/sdk/src/recover.rs:112-133 | The realms phase 1 settles on are distinct realms of the configuration. |
| `Guarantees.Phase2NoDuplicates` | rust/sdk/src/recover.rs:183-190 | Whatever the realms answer, the shares recombined in phase 2 have different indices, so the duplicate-share error cannot occur. |
| `Guarantees.Phase3NoDuplicates` | rust/sdk/src/recover.rs:250-257 | The same for the shares recombined in phase 3. |
| `Guarantees.GroupRecovers` | rust/sdk/src/recover.rs:142-186 | A quorum on a registration's verifying key holds only its shares and recombines to the evaluation under its root key. |
| `Guarantees.GroupDecrypts` | rust/sdk/src/recover.rs:199-258 | A phase 3 quorum has the registered ciphertext and decrypts to the registered secret. |
| `Promises.RobustRecovery` | rust/sdk/src/recover.rs:106-259 | If a threshold of realms hold a registration with a guess left, recovery with its PIN and information returns exactly its secret, whatever the remaining realms answer and in whatever order answers arrive, if and only if no answer makes the client panic. |
| `Promises.OneAnswerPanics` | rust/realm/api/src/requests.rs:198-206 | One lying realm is enough: if its answer in phase 1 makes the client panic, recovery panics although a threshold of realms serve the registration. |
| `Outcomes.WrongPinRefused` | rust/sdk/src/recover.rs:183-197 | If a threshold of realms serve the registration, a recovery with another PIN or other information is refused as an invalid PIN with at most the guesses any of them still allows, and with exactly the least of these if nothing is heard of the others. |
| `Outcomes.NothingToRecover` | rust/sdk/src/recover.rs:112-133 | If every realm reports a version or that nothing is registered, and no version reaches the threshold, recovery reports a missing registration, in every order of answers. |
| `Outcomes.NoVersionAgreed` | rust/sdk/src/recover.rs:124-133 | The same if a threshold of realms report versions none of which reaches the threshold, whatever the others do short of panicking the client. |
| `Outcomes.NotRegisteredAnywhere` | rust/sdk/src/recover.rs:263-283 | In terms of the realms' states: if no version is held by a threshold of them, recovery reports a missing registration. |
| `Outcomes.NoConsensus2` | rust/sdk/src/recover.rs:160-173 | If enough evaluations are accepted but no commitment and key reach the threshold, recovery ends in an assertion error. |
| `Outcomes.NoConsensus3` | rust/sdk/src/recover.rs:235-248 | Likewise if no ciphertext has a threshold of verified shares. |
| `Outcomes.AllSay1` | rust/sdk/src/recover.rs:263-283 | What recovery reports if all realms give the same failing answer in phase 1, for each kind of answer. |
| `Outcomes.AllSay2` | rust/sdk/src/recover.rs:287-382 | The same for phase 2. |
| `Outcomes.AllSay3` | rust/sdk/src/recover.rs:386-446 | The same for phase 3, with the guesses a wrong tag leaves. |
| `Outcomes.Preference` | rust/sdk/src/recover.rs:34-65 | The order in which a join prefers recovery errors. |
| `Promises.RecoverySafety` | rust/sdk/src/recover.rs:135-258 | If fewer than a threshold of realms lie, recovery fails with an error, or returns the secret of a single registration with the same PIN, information and version, having combined only that registration's shares in phases 2 and 3, or panics exactly because a request does: the consensus asserts, recombining and decrypting never panic, where arithmetic is built without overflow checks. Any answers of honest realms may be lost, and only their phase 2 answers need to be honest. |
| `Promises.HonestRemaining` | rust/sdk/src/recover.rs:336 | The unchecked subtraction of guess counters is exact for every answer of an honest realm: it is what the realm still allows. |
| `Promises.RunSafety` | whitepaper/whitepaper.typ:293-470 | The same over every run in which any number of clients register, recover and delete, with what was heard of honest realms in phase 2 coming from any moments of the run. |
| `Promises.CommitmentMatches` | rust/sdk/src/recover.rs:192-197 | A matching commitment means that PIN, version and information are those of the registration. |
| `Worlds.InvariantHolds` | whitepaper/whitepaper.typ:298-470 | In every reachable state each honest realm's attempted guesses are within the allowance and its record was prepared for it by one of the registrations begun. |
| `Persistence.Persists` | whitepaper/whitepaper.typ:298-470 | A stored registration survives all interleaved requests until somebody stores or deletes at that realm or its guesses are used up. |
| `Persistence.RunRobustness` | rust/sdk/src/register.rs:119-157 | End to end: if in a run a threshold of realms stored a registration, each at its own moment, and still have it with a guess left when asked, recovery with its PIN and information returns its secret, unless an answer makes the client panic. |
| `Persistence.RegisterThenRecover` | rust/sdk/src/register.rs:154-156 | A registration whose second phase succeeded is recovered from the realms that stored it and kept it, if the register threshold exceeds the recover threshold by the number of the others. |
| `Guesses.GrantsCost` | whitepaper/whitepaper.typ:342-369 | Along every run from the beginning, the recoveries a realm has granted plus its remaining guesses are at most the allowance times the number of times the version was stored there, unless it is unlocked. |
| `Guesses.TestIsPaid` | rust/sdk/src/recover.rs:142-197 | A recovery that gets as far as comparing the commitment was granted a guess by at least recover-threshold realms, not counting those that may lie, in any run. |
| `Guesses.LearnerHasPin` | rust/sdk/src/recover.rs:192-205 | A recovery in a run that passes the comparison for a version has the PIN and information of the registration with that version; so only such a recovery presents valid tags. |
| `Guesses.WrongPinLimit` | rust/sdk/src/configuration.rs:87-90 | In every run from the beginning, if no recovery of a registration has its PIN and information, the recoveries that get to test theirs, times the threshold less the realms that may lie, are at most the honest realms times the guesses of all stores of the registration. |
| `Guesses.GuessLimit` | rust/sdk/src/configuration.rs:87-90 | With honest realms that store a registration once, the recoveries that test a wrong PIN are fewer than twice its allowed guesses. |
| `Freshness.FreshEnough` | rust/sdk/src/configuration.rs:92-99 | If the two thresholds add up to more than the realms plus those that claim to have accepted the newer registration and report the older, phase 1 does not find the older version, however many other realms lie. |
| `Freshness.FreshIff` | rust/sdk/src/configuration.rs:92-99 | In every run in which a newer registration succeeded and was not replaced, and all realms but a given number are honest, phase 1 cannot find the older version, if and only if the two thresholds add up to more than the realms plus that number. |
| `Freshness.DocumentedThresholdsFresh` | rust/sdk/src/configuration.rs:16-25 | The documented relation between the thresholds is enough when no realm is two-faced. |
| `Freshness.UndocumentedThresholdsAccepted` | rust/sdk/src/configuration.rs:92-99 | An accepted configuration with a smaller register threshold, and a run in which all its realms are honest and answer from their states, both registrations are stored, the newer one succeeds, and afterwards the older PIN recovers the older secret. |
| `StaleRuns.StaleRecovery` | rust/sdk/src/register.rs:154-156 | The same for every configuration that violates the condition: a run with no more liars than given, the older registration stored and still held by the honest realms that the newer one never reached, every answer of honest realms from their states. |
| `Sessions.HardwareRealm.MakeHandshakeRequest` | rust/sdk/src/request.rs:94-161 | A handshake that answers yields a new session in step with the realm, and an undisturbed one answers. For each reply and each failure it is stated what the attempt yields; a missing session at this point is an assertion error. |
| `Sessions.HardwareRealm.MakeTransportRequest` | rust/sdk/src/request.rs:168-217 | Over a session in step with the realm, an answer leaves it in step, is the response to this very request, and the realm never fails to decrypt. For each reply and each failure it is stated what the attempt yields: the session is missing if and only if the realm says so, and an undisturbed exchange is answered if the realm holds the session. |
| `Sessions.HardwareRealm.TryMakeRequest` | rust/sdk/src/request.rs:219-256 | One attempt sends one message over the given session, one handshake with the request, or an empty handshake and then the request; a request needing forward secrecy is never in a handshake. |
| `Sessions.RpcVerdicts` | rust/sdk/src/request.rs:55-69 | Which call failures become which request errors. |
| `Sessions.HardwareRealm.SendWithRetries` | rust/sdk/src/request.rs:320-358 | After any faults and cancellations the slot is empty or holds a session with equal counters that match the realm's if it still knows the session. At most 5 attempts and 10 messages, only the first over the cached session, at most 5 executions of the request, the outcome that of the last attempt. |
| `Sessions.HardwareRealm.MakeHardwareRealmRequest` | rust/sdk/src/request.rs:310-358 | The same for each kind of request: handshakes sent for register 2, recover 2 and recover 3 are empty, those sent for the others carry the whole request; a request that does not encode is an assertion error. |
| `Sessions.ForgottenIsRetried` | rust/sdk/src/request.rs:350-354 | If the first attempt finds its cached session forgotten and nothing disturbs the second, the request is answered by the second. |
| `Sessions.SoftwareRealm.MakeRequest` | rust/sdk/src/request.rs:272-308 | At most two tries and two executions; a second try follows only a transient failure of the first; the error reported is that of the last try, and a transient one only after two. |
| `Sessions.GuessesOfRequest` | rust/sdk/src/request.rs:326-357 | The executions of one phase 2 request within n attempts cost the realm at most n guesses: five on a hardware realm. |
| `Sessions.ImpossibleLength` | rust/realm/api/src/requests.rs:198-206 | A response makes the client panic exactly if the length it claims exceeds the padded bytes; a response padded as the realms pad it never does. |
| `Sessions.ResponseRead` | rust/sdk/src/request.rs:338-343 | A response padded as realms pad it is parsed from exactly its unpadded bytes. |
| `Sessions.WireGrows` | rust/sdk/src/request.rs:326-357 | Attempts one after the other keep the rule that only the first message may use the cached session and that protected requests directly follow their own handshake. |
| `NoiseFramework.HandshakeAgrees` | rust/noise/src/client.rs:52-122 | Section 7.5 of the Noise Protocol Framework: in an NK handshake both sides read the payloads written and end with the same transport keys, for all keys, prologues and payloads. |
| `NoiseFramework.MessageAgrees` | rust/noise/src/server.rs:52-122 | For every pattern and every message of it, reading what the other side wrote yields the payload and keeps the two states in step (sections 5.2 and 5.3). |
| `NoiseFramework.TokensAgree` | rust/noise/src/lib.rs:145-173 | The same for the tokens of a message, including encrypted static keys. |
| `NoiseFramework.NoncesApart` | rust/noise/src/lib.rs:125-140 | Different counters give different 96-bit nonces. |
| `NoiseFramework.LittleEndianRoundTrip` | rust/noise/src/lib.rs:125-127 | The counter is written least significant byte first. |
| `NoiseFramework.FirstNonces` | rust/noise/src/lib.rs:216-236 | The nonces of the counters 0, 1 and 256. |
| `Noise.CipherState.NextNonce` | rust/noise/src/lib.rs:125-140 | The nonce is four zero bytes and the little-endian counter; the counter advances, and the call panics when the next value would be 2^64 - 1 or overflow. |
| `Noise.CipherState.DecryptWithAd` | rust/noise/src/lib.rs:120-123 | Decryption under the current nonce, which is used up even if it fails. |
| `Noise.StartClient` | rust/noise/src/client.rs:52-85 | The client writes the message, and reaches the hash, chaining key and ephemeral key, of the generic interpreter's NK request. |
| `Noise.ClientHandshake.Finish` | rust/noise/src/client.rs:92-122 | The client reads the response as the generic interpreter does and ends with the generic transport keys, although the final MixHash is left out. |
| `Noise.StartServer` | rust/noise/src/server.rs:52-97 | The server reads the request as the generic interpreter does and has mixed in the response's tokens. |
| `Noise.ServerHandshake.Finish` | rust/noise/src/server.rs:101-122 | The server writes the generic interpreter's response and ends with its transport keys, in the responder's roles. |
| `Noise.Connect` | rust/noise/src/test_vectors.rs:150-215 | Put together as in the test vectors, the two implementations fail exactly if one of the two generic messages cannot be encrypted; otherwise payloads arrive and both ends have the generic handshake's keys with zero nonces. |
| `Noise.ReadResponse` | rust/noise/src/client.rs:103-121 | What the generic rules do with the NK response, unrolled; its partner lemmas cover the other messages. |
| `Transports.TransportRoundTrip` | rust/noise/src/lib.rs:75-123 | For every interleaving of the two directions with in-order delivery, what was read is a prefix of what was sent, the rest is under way, and the next message decrypts to the next plaintext. |
| `Transports.Exchange` | rust/noise/src/test_vectors.rs:212-260 | The transport objects of a completed handshake carry out any interleaving exactly as these runs, so the round trip holds for them. |
| `Transports.NoncesDistinct` | rust/noise/src/lib.rs:125-140 | Under each key no nonce is used twice and none is the reserved one. |
| `Transports.FailsOnlyWhenSending` | rust/noise/src/lib.rs:75-140 | An operation fails if and only if it is a send that the cipher refuses or for which no nonce is left. |

## Left out

- HTTP, URLs, process runners and command-line tools: input and output only; a remote call is an arbitrary outcome.
- Authentication tokens: their creation and validation happen in a library; the model has a token or none.
- CBOR and JSON: `Sessions` takes the parsers as functions and covers the panic on an impossible padded length; realms' answers arrive as values, with the size checks that decoding makes where recovery depends on them.
- Elliptic-curve, hash, password-hash, cipher and signature internals: parameters with laws, as described above.
- Zeroisation, constant-time comparison, redaction and tracing: no functional content; comparison is equality.
- Bridges for other languages and platforms.
- Wall-clock time: session expiry is an arbitrary choice, sleeping only a point of cancellation.
- Probabilistic and computational security: statements are exact algebra or have the ideal hypotheses named above.
- Delete on the client: it is one join over the realms; the realms' deletion step is part of every run.
- Re-delivery: a request reaches the realm at once or never, and no other client picks the same session ID; a request delayed past its session only touches a session the client has dropped.
- Sessions.HardwareRealm.MakeTransportRequest: a session's cipher is its key and two counters with symbolic ciphertexts; that the real ciphers behave so is what `Noise` and `Transports` prove.
- Promises.RunSafety: all registrations of a run use one configuration.
- Guesses.GuessLimit: recoveries of one registration, whose version no other registration of the run has; a client that repeats its store request after losing the reply counts as a further store in Guesses.WrongPinLimit.
- Noise.StartClient: messages are two fields, so the length limit of 65535 bytes on Noise messages is absent, as in the code.
