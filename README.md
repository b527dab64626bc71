# proof.clavastack.com core, modelled in Dafny

The server keeps a list of tamper-evident bag proofs in `proofs.json`. Each
proof carries an OpenTimestamps file (`otsData`, hex-encoded) that a
background job upgrades until it is anchored in a Bitcoin block. This project
models the logic of `index-local.js` that decides what ends up in that list,
and proves properties of it:

- `Majority` (`majority.dfy`): the majority fill of a batch of bags read from
  one photo. It covers `getMostFrequent` (a counting pass, then a reduce) and
  `applyMajorityPrinciple`.
- `Hex` (`hex.dfy`): `bytesToHex` and `hexToBytes`. The decoder works on
  the string's UTF-16 code units, as `hex.length` and `hex.substr` do. It
  reads each pair with JavaScript's `parseInt(pair, 16)` and stores the
  value as a `Uint8Array` does.
- `Attestations` (`attestations.dfy`): `extractBitcoinAttestations`, the
  recursive walk over the timestamp tree. It is proved equal to a pre-order
  reading of the tree.
- `Verify` (`verify.dfy`): the decision logic of `upgradeAndVerifyTimestamp`.
  It decides between `null`, a `pending` result with the re-serialised file,
  and a `verified` result whose block time is resolved from the attestation,
  the block explorer or the current time.
- `Store` (`store.dfy`): the proof list as a `ProofStore` object. It has the
  lookup of `GET /api/proofs/:bagId`, the upsert of `POST /api/proofs`, the
  merge of `PUT`, the removal of `DELETE`, and the `checkPendingTimestamps`
  sweep.
- `Json` and `Wrappers` hold the JavaScript values the code handles:
  - objects as maps from keys to scalars, with a missing key as `undefined`;
  - truthiness, `||` defaults, `String(v)`;
  - an `Option` type.

Everything outside the JavaScript code is a parameter of the model. That
covers the OpenTimestamps library, the block explorer, the clock, date
formatting and the file system. A `World` value holds the library and
explorer for one verification. The sweep asks them afresh for every proof, so
it takes one `World` per call: `worlds(k)` answers for the `k`-th selected
proof. A `saveOk` flag says whether writing the file succeeded, and `now` is
the one ISO time an operation stamps.

Behaviour worth noting:

- **Tie-break.** When several values share the highest count,
  `getMostFrequent` returns the one whose first occurrence is latest. The
  reduce keeps its accumulator only when it is strictly greater.
- **Malformed hex.** `hexToBytes` never raises an error. A pair whose first
  unit is neither white space, a sign nor a hexadecimal digit is stored as 0
  (Hex.NonHexPairIsZero), and so is a pair whose first unit is a surrogate
  (Hex.SurrogateFirstIsNaN). Otherwise the pair stores what `parseInt`
  reads, modulo 256: white space is skipped, a sign is read and the digit
  prefix is kept, so "1g" stores 1 and "-f" stores 241
  (Hex.NegativePairWraps). `parseInt` stops at a surrogate, so a digit just
  before one still counts (Hex.LoneSurrogateStopsParse). An odd final code
  unit is dropped. A character outside the Basic Multilingual Plane is two
  code units, both surrogates.
- **Explorer errors.** When the explorer request throws, the current time
  becomes `blockTime`. A block timestamp that is not a valid date also makes
  `toISOString` throw inside the same `try`, so it is handled the same way.
  A response that is not ok is not an error. The time stays what the
  attestation gave: `null`, or the raw seconds of an invalid date. The label
  is `Block #h`.
- **Duplicate `bagId`s.** The sweep finds the proof to update by `bagId`.
  With a repeated `bagId`, the result lands on the first proof with that id,
  whatever its status.

## Model

| member | source | states |
|---|---|---|
| Majority.Count | index-local.js:149-151 | an item's count is positive exactly when it occurs, and never exceeds the input length |
| Majority.CountMap | index-local.js:148-151 | the counts object has a key exactly for each item that occurs, and the value is that item's number of occurrences |
| Majority.Keys | index-local.js:148-152 | the keys of the counts object are exactly the items that occur, each once |
| Majority.CountItems | index-local.js:148-151 | the `forEach` pass builds exactly that counts object, and lists its keys in insertion order |
| Majority.CountStep | index-local.js:150 | counting one more item adds it with count 1 when it is new, and adds 1 to its count otherwise; only a new key is appended to the key order |
| Majority.ReduceIndex | index-local.js:152 | the reduce settles on a key whose count is at least every key's count, and every later key has a strictly smaller count |
| Majority.ReduceKeys | index-local.js:152 | the loop over `Object.keys(counts)` returns the key the reduce settles on |
| Majority.MostFrequent | index-local.js:146-153 | the result is `null` exactly for an empty input; otherwise it is a value that occurs and has the highest count |
| Majority.KeysOf | index-local.js:150 | definition: each item is counted under its `String` key, one key per item |
| Majority.GetMostFrequent | index-local.js:146-153 | `getMostFrequent` returns the most frequent of the items' `String` keys, and `null` exactly when the input is empty |
| Majority.KeysInFirstOccurrenceOrder | index-local.js:148-152 | `Object.keys(counts)` lists keys in the order of their first occurrence |
| Majority.MostFrequentTieBreak | index-local.js:152 | among keys of equal highest count, the returned one has the latest first occurrence |
| Majority.StrictMajorityWins | index-local.js:146-153 | a value whose count is strictly higher than every other value's is the one returned |
| Majority.Candidates | index-local.js:133-137 | every candidate is truthy and not exactly "UNKNOWN" |
| Majority.Concrete | index-local.js:133-137 | definition of a candidate value: truthy and not exactly "UNKNOWN" |
| Majority.Majority | index-local.js:133-137 | definition: the most frequent `String` key among the batch's candidates |
| Majority.CandidatesCover | index-local.js:133-137 | every truthy, non-"UNKNOWN" field value of the batch is a candidate, and every candidate is some bag's field value |
| Majority.Fill | index-local.js:140-142 | a bag keeps every other field, and keeps the field itself unless it is exactly "UNKNOWN" |
| Majority.ApplyMajorityPrinciple | index-local.js:130-144 | `null` stays `null`; the batch keeps its length; every field other than version and packer is kept; a version or packer that is not "UNKNOWN" is kept |
| Majority.MajorityNonEmpty | index-local.js:141-142 | a majority value is the key of a truthy value and never the empty string, so the `&& majority` guard holds whenever a majority exists |
| Majority.MajorityExists | index-local.js:133-137 | a majority exists exactly when some bag has a truthy, non-"UNKNOWN" value for the field |
| Majority.UnknownFilled | index-local.js:139-143 | an "UNKNOWN" version or packer becomes the batch's majority value when there is one |
| Majority.UnknownKept | index-local.js:139-143 | without a majority value, an "UNKNOWN" stays "UNKNOWN" |
| Majority.UnknownBecomesMajority | index-local.js:130-153 | when some bag has a concrete value, an "UNKNOWN" becomes a value whose count is at least every other concrete value's count; when none has, it stays "UNKNOWN" |
| Majority.ScenarioCandidates | index-local.js:133-137 | for versions v1.9.0, UNKNOWN, v1.9.0, v1.8.0 without packers, the version candidates are v1.9.0, v1.9.0, v1.8.0 and there are no packer candidates |
| Majority.ScenarioKeys | index-local.js:150 | those candidates are counted under the keys v1.9.0, v1.9.0, v1.8.0 |
| Majority.ScenarioVote | index-local.js:146-153 | among the keys v1.9.0, v1.9.0, v1.8.0 the vote returns v1.9.0 |
| Majority.ScenarioMajority | index-local.js:133-137 | in that batch the version majority is v1.9.0 and there is no packer majority |
| Majority.ScenarioUnknownFilled | index-local.js:130-144 | in that batch the unknown version becomes v1.9.0 |
| Majority.ScenarioOthersKept | index-local.js:130-144 | in that batch the known versions stay as they were |
| Hex.ByteToHex | index-local.js:435 | each byte becomes exactly two characters |
| Hex.BytesToHex | index-local.js:434-436 | the encoding is twice as long as the byte sequence |
| Hex.BytesToHexIsLowerHex | index-local.js:434-436 | the encoding consists of lower-case hexadecimal digits only |
| Hex.BytesToHexPair | index-local.js:434-436 | characters `2k` and `2k+1` of the encoding are the two digits of byte `k` |
| Hex.HexValue | index-local.js:429 | a hexadecimal digit has a value below 16 |
| Hex.TrimStart | index-local.js:429 | `parseInt` skips leading white space: what is left does not start with white space |
| Hex.DigitPrefix | index-local.js:429 | `parseInt` reads the longest run of hexadecimal digits, each below 16 |
| Hex.ParseInt16 | index-local.js:429 | definition of `parseInt(s, 16)`: skip white space, read one sign, drop a `0x` prefix, read the longest run of hexadecimal digits; `NaN` when that run is empty |
| Hex.ToUint8 | index-local.js:429 | the typed-array store: a value in 0..255 is stored as itself, any other number as the byte congruent to it modulo 256, and `NaN` as 0 |
| Hex.UnitsOf | index-local.js:427-429 | a character below U+10000 is one code unit, itself; any other character is two code units, both surrogates |
| Hex.Utf16 | index-local.js:427 | a string has at least as many UTF-16 code units as characters |
| Hex.Utf16OfBmp | index-local.js:427 | a string of the Basic Multilingual Plane has one code unit per character, equal to that character |
| Hex.CharPrefix | index-local.js:429 | `parseInt` sees at most the units before the first surrogate, since a surrogate is never white space, a sign, `x` or a digit |
| Hex.Substr | index-local.js:429 | `substr(i, 2)` is a contiguous piece of the string from `i`, two units long or as long as what remains |
| Hex.DecodeUnits | index-local.js:426-432 | definition of `hexToBytes` on code units: `length / 2` bytes, byte `k` being `parseInt(substr(2k, 2), 16)` as the typed array stores it; the length is half the unit count, rounded down |
| Hex.DecodeHex | index-local.js:426-432 | definition: `hexToBytes(hex)` is the decoding of the string's UTF-16 code units |
| Hex.HexToBytes | index-local.js:426-432 | the loop over the code units fills the typed array with exactly the bytes of the decoding; the last write of an odd unit count falls outside the array and is ignored |
| Hex.DecodePairs | index-local.js:426-432 | definition of the reading pair by pair of characters, with half as many bytes as characters |
| Hex.DecodeBmp | index-local.js:426-432 | for a string of the Basic Multilingual Plane, decoding the code units is reading its characters pair by pair |
| Hex.DecodeBmpPair | index-local.js:426-432 | two characters of the Basic Multilingual Plane decode to the single byte `parseInt` reads from them |
| Hex.ParseNoDigit | index-local.js:429 | text that starts with neither white space, a sign nor a hexadecimal digit parses to `NaN` |
| Hex.ParseLeadingDigit | index-local.js:429 | a hexadecimal digit followed by a non-digit other than `x` or `X` parses to that digit's value |
| Hex.ParseHexPair | index-local.js:429 | two hexadecimal digits of either case parse to 16 times the first plus the second |
| Hex.ByteRoundTrip | index-local.js:429-435 | a byte survives `toString(16).padStart(2, '0')` followed by `parseInt` |
| Hex.PairRoundTrip | index-local.js:429-435 | two lower-case digits survive `parseInt` followed by `toString(16).padStart(2, '0')` |
| Hex.DecodeEncode | index-local.js:426-436 | `hexToBytes(bytesToHex(b))` gives back `b` |
| Hex.EncodeDecode | index-local.js:426-436 | `bytesToHex(hexToBytes(h))` gives back an even-length lower-case hex string `h` |
| Hex.NonHexPairIsZero | index-local.js:427-429 | a pair whose first character is neither white space, a sign nor a hexadecimal digit (such as "zz") is stored as the byte 0; no error is raised |
| Hex.PartialPairKeepsPrefix | index-local.js:429 | a hexadecimal digit followed by a non-digit other than `x` (such as "1g") is stored as that digit's value |
| Hex.NegativePairWraps | index-local.js:429 | a minus sign and one hexadecimal digit are read as a negative number and stored modulo 256, so "-f" is stored as 241 |
| Hex.OddTailDropped | index-local.js:427-429 | with an odd number of code units the last one is ignored: the decoding equals the decoding without it |
| Hex.SurrogateFirstIsNaN | index-local.js:429 | a run of code units that starts with a surrogate parses to `NaN` |
| Hex.SurrogatePairsAreZero | index-local.js:427-429 | two characters outside the Basic Multilingual Plane (two emoji, say) are four code units and decode to two zero bytes |
| Hex.LoneSurrogateStopsParse | index-local.js:429 | a lone surrogate ends what `parseInt` reads: the units `1`, U+D800, U+D800, `1` decode to the bytes 1 and 0 |
| Attestations.TimeOrNull | index-local.js:452 | the time is kept exactly when it is present and non-zero; otherwise it is `null` |
| Attestations.FoundOf | index-local.js:449-454 | an attestation yields one record exactly when it has a height, with that height and its time or `null` |
| Attestations.OwnFound | index-local.js:446-456 | definition: the records of a node's own attestations, in order; never more records than attestations |
| Attestations.Children | index-local.js:460 | definition: the children are the second components of the `ops` entries, as many as there are entries |
| Attestations.Walk | index-local.js:442-464 | definition of `walkTimestamp` as a value: a node's own records, then the walks of its children in `ops` order |
| Attestations.WalkOps | index-local.js:459-463 | definition: the walks of the first `j` children, in `ops` order |
| Attestations.Extract | index-local.js:439-468 | definition: `[]` for a `null` timestamp, otherwise the walk of the tree |
| Attestations.Preorder | index-local.js:442-464 | a pre-order reading starts with the node itself |
| Attestations.PushAttestations | index-local.js:446-456 | the loop over `ts.attestations` appends exactly the node's own records to the shared array |
| Attestations.WalkTimestamp | index-local.js:442-464 | `walkTimestamp` appends exactly the walk of the subtree to the shared array |
| Attestations.WalkChildren | index-local.js:459-463 | the loop over `ts.ops` appends the walks of all children, in `ops` order |
| Attestations.ExtractBitcoinAttestations | index-local.js:439-468 | the function returns the walk of the tree, and `[]` for a `null` timestamp |
| Attestations.OwnFoundSound | index-local.js:446-456 | every record comes from a height-bearing attestation with that height and time, and no record has a time of 0 |
| Attestations.OwnFoundCounts | index-local.js:446-456 | a node yields as many records as it has attestations with a height |
| Attestations.WalkIsPreorder | index-local.js:442-464 | the walk reads each node's own records node by node in pre-order: a node before its children, children in `ops` order |
| Attestations.ExtractIsPreorder | index-local.js:439-468 | `extractBitcoinAttestations` is that pre-order reading, and `[]` for `null` |
| Attestations.FirstOwnAttestationFirst | index-local.js:446-456 | when the root's first attestation has a height, it is the first record found |
| Verify.AttestedTime | index-local.js:504-513 | a formatted time exists only for a non-zero attestation time that is a valid date, and then it is the ISO and `en-US` rendering; a missing or zero time gives `null` |
| Verify.ResolveTime | index-local.js:515-538 | the explorer is consulted only when no non-empty formatted time exists yet; otherwise the time is left unchanged |
| Verify.OtsBytes | index-local.js:477 | definition: the bytes `hexToBytes` gives for a string `otsData` |
| Verify.Deserialized | index-local.js:477-480 | definition: the library's reading of those bytes, `None` when it throws |
| Verify.VerifiedResult | index-local.js:498-548 | definition of the `verified` result for the first record: the decimal height, the resolved time, the formatted time or `Block #h`, and the re-serialised file |
| Verify.UpgradeAndVerify | index-local.js:471-564 | definition of `upgradeAndVerifyTimestamp`: `null` without `otsData` and `hash` or when deserialization throws, `verified` when the upgraded tree has an attestation, `pending` when the upgrade changed the file, `null` otherwise |
| Verify.NullExactly | index-local.js:471-564 | the result is `null` exactly when `otsData` or `hash` is falsy, when deserialization throws, or when there is neither an attestation nor an upgrade |
| Verify.PendingExactly | index-local.js:551-557 | the result is `pending` exactly when the upgrade changed the file but no attestation was found, and then it carries the re-serialised file as lower-case hex |
| Verify.VerifiedExactly | index-local.js:496-549 | the result is `verified` exactly when an attestation was found, whether or not the upgrade changed anything; the height is that of the first height-bearing attestation in pre-order, as a decimal string, the formatted time is never empty, and the file is re-serialised |
| Verify.VerifiedFormattedNonEmpty | index-local.js:500-546 | `blockTimeFormatted` is never empty, and `blockHeight` is `String(height)` |
| Verify.AttestedTimeSkipsFetch | index-local.js:507-516 | with a valid, non-zero attestation time that renders non-empty, the explorer is never consulted: the result is the same whatever it would answer, and it carries that time |
| Verify.TimeUnknownWhenFetchFails | index-local.js:515-537 | without an attestation time, an explorer error or an invalid block timestamp gives the current time and `Block #h (time unknown)` |
| Verify.NoTimeAfterNotOk | index-local.js:515-546 | without an attestation time, a response that is not ok or a block without a timestamp leaves the time `null` and the label `Block #h` |
| Verify.ExplorerTime | index-local.js:524-546 | without an attestation time, a valid block timestamp from the explorer gives the ISO time and its rendering, or `Block #h` when the rendering is empty |
| Verify.InvalidAttestedTimeKept | index-local.js:504-546 | an attestation time that is not a valid date stays the raw second count when the explorer answers not ok |
| Verify.ZeroTimeIsAbsent | index-local.js:504-507 | an attestation time of 0 is handled exactly like a missing time |
| Store.FindIndex | index-local.js:220 | the index is the first proof with that `bagId`, or -1 exactly when there is none |
| Store.NewProof | index-local.js:242-257 | definition of the record a `POST` builds; its fields are stated by Store.NewProofStamps and Store.NewProofDefaults |
| Store.PostedProof | index-local.js:242-269 | definition: the built record, merged with the stored one of the same `bagId` when there is one |
| Store.Upsert | index-local.js:259-273 | definition: replace the first record with the same `bagId`, or append; stated by Store.FindAfterUpsert |
| Store.Patched | index-local.js:303-307 | definition of `{...old, ...updates, updatedAt}`; stated by Store.PatchedFields |
| Store.RemoveAt | index-local.js:347 | `splice(i, 1)` leaves one record fewer |
| Store.PendingOf | index-local.js:570 | the filter never lengthens the list |
| Store.Selected | index-local.js:570 | definition of the filter: `status` is `pending` and `otsData` and `hash` are truthy |
| Store.ResultFields | index-local.js:587-595 | definition of the fields a result writes, with `null` for empty block fields |
| Store.ApplyResult | index-local.js:587-595 | definition: the proof with the result's fields written over it; stated by Store.ApplyResultKeeps and Store.ApplyResultStatus |
| Store.SweepStep | index-local.js:581-598 | definition of one loop iteration: verify the `k`-th selected proof and, when there is a result, write it onto the first proof with its `bagId` |
| Store.SweepAll | index-local.js:580-603 | definition of the loop over the selected proofs in order, the `k`-th verified as call `k` |
| Store.Sweep | index-local.js:570-603 | definition: the loop over the filtered list |
| Store.UpdatedAll | index-local.js:580-603 | the reference reading of the sweep keeps the list length |
| Store.ProofStore.constructor | index-local.js:91-94 | a store read from a missing or unreadable file is empty, with `lastUpdated` null |
| Store.ProofStore.Find | index-local.js:184-199 | returns the first proof with that `bagId`, and 404 when there is none |
| Store.ProofStore.Create | index-local.js:205-287 | a falsy `bagId` gives 400 and a failed upload gives 500, both with nothing stored; otherwise the built record is upserted and `lastUpdated` stamped when the save succeeds, and nothing changes when it fails |
| Store.ProofStore.Update | index-local.js:289-321 | an unknown `bagId` gives 404 with nothing changed; otherwise the first match becomes the merged record and `lastUpdated` is stamped, unless the save fails |
| Store.ProofStore.Delete | index-local.js:323-360 | an unknown `bagId` gives 404 with nothing changed; otherwise the first match is spliced out and `lastUpdated` is stamped, unless the save fails |
| Store.ProofStore.CheckPendingTimestamps | index-local.js:567-613 | the `k`-th selected proof is verified against `worlds(k)`; the file is written exactly when some selected proof got a result and the save succeeds, and then it holds the swept list and the sweep time |
| Store.Merge | index-local.js:259-268 | a repeated POST keeps the old `createdAt`, keeps the old `sealedBy` when set, keeps the old image unless a new one was uploaded, and takes every other field from the new record |
| Store.FindIndexAt | index-local.js:220 | the first index holding an id is the one `findIndex` returns |
| Store.FindAfterUpsert | index-local.js:259-273 | after an upsert the record is found under its `bagId`; a known id keeps the length and leaves the other ids' records alone, and a new id is appended |
| Store.UpsertKeepsUnique | index-local.js:259-273 | an upsert keeps `bagId`s distinct |
| Store.NewProofStamps | index-local.js:242-257 | the record carries the posted `bagId`, the token's packer as `sealedBy`, the uploaded image or `null`, and the request time as `createdAt` and `updatedAt` |
| Store.NewProofDefaults | index-local.js:237-257 | each posted field is kept when truthy; otherwise `status` defaults to `pending`, `hash`, `otsData`, `blockHeight`, `blockTime` and `blockTimeFormatted` to `null`, `version` and `packer` to `Unknown`, and `date` to the request time |
| Store.PostedProofKeepsOld | index-local.js:259-269 | posting a known `bagId` keeps the old `createdAt`, the old `sealedBy` when set, and the old image unless a new one was uploaded, and stamps `updatedAt` |
| Store.PostedProofId | index-local.js:242-269 | the stored record carries the posted `bagId` |
| Store.PostedProofNew | index-local.js:270-273 | posting a new `bagId` appends the record as built |
| Store.RemoveAtEffect | index-local.js:347 | `splice` removes exactly one record and keeps the rest in order; with distinct ids the id is gone and the rest stay distinct |
| Store.PatchedFields | index-local.js:303-307 | `PUT` keeps each field it is not given, overwrites each field it is given, and stamps `updatedAt` |
| Store.FindAfterPatch | index-local.js:296-307 | a `PUT` that leaves `bagId` alone keeps ids distinct, and a later lookup finds the patched record |
| Store.PatchCanDuplicateIds | index-local.js:303-307 | a `PUT` that sets `bagId` can make two proofs share an id |
| Store.ApplyResultKeeps | index-local.js:587-595 | a result keeps every field except `status`, `otsData`, the three block fields and `updatedAt` |
| Store.ApplyResultStatus | index-local.js:587-595 | the new status is `verified` or `pending` as the result says, with the result's file and the sweep time |
| Store.ApplyResultBlockFields | index-local.js:591-593 | a `pending` result sets the three block fields to `null`; a `verified` one writes its own, with `null` where they are empty |
| Store.UpdatedKeepsId | index-local.js:587-595 | applying a result never changes a proof's `bagId` |
| Store.SweepShape | index-local.js:580-603 | a sweep keeps the list length and every `bagId` in place, and a sweep that reports no update changes nothing |
| Store.SweepIsPointwise | index-local.js:567-613 | with distinct ids, the sweep updates each selected proof that has a result from its own call on its own, leaves every other proof alone, and reports an update exactly when some selected proof had a result |
| Store.SweepStatusTransitions | index-local.js:567-613 | with distinct ids, a proof changes only when selected and given a result, and its status either stays or goes from `pending` to `verified` |
| Store.DuplicateIdsOverwrite | index-local.js:584-595 | with a repeated `bagId`, a verified proof is set back to `pending` by the result of a later pending duplicate |

## Left out

- The HTTP layer is not modelled. That covers Express, CORS, static files, the `X-Auth-Token` middleware (its token-to-packer lookup becomes the `tokenPacker` argument) and the multer upload. The upload outcome becomes the `Upload` argument.
- `GET /api/proofs` (the whole list) and the image route are not modelled; both only read and return what is stored.
- Reading and writing `proofs.json` is not modelled. The store object is the file's contents, a failed read's fallback to an empty list is the constructor, and a failed write is `saveOk == false`.
- Deleting the image file on `DELETE` is not modelled; its failure is caught and does not change the result.
- The image upload and the vision service that reads bags from photos are foreign calls and are not modelled; only the majority fill of their output is.
- OpenTimestamps deserialization, upgrade and serialization are library calls; they are `World` parameters. An upgrade that throws is `changed == false`. A deserialization that throws gives a `null` result. Serialization is taken not to throw.
- The two explorer requests and the way their body is parsed are one `World` parameter, `fetchBlock`.
- `toISOString`, `toLocaleString('en-US')` and the clock are `World` parameters. Only the validity bound on dates (±8.64e15 ms) is modelled.
- Hex.HexToBytes: strings are sequences of Unicode scalar values, so an `otsData` that holds a lone surrogate (JSON allows `\ud800`) cannot be passed in. The decoding of raw code units, Hex.DecodeUnits, covers such units (Hex.LoneSurrogateStopsParse).
- Store.ProofStore.CheckPendingTimestamps: the source stamps each updated proof with its own `new Date()`; the model stamps them all with one `now`.
- Timers, concurrency and interleaving of requests with the background job are not modelled; each operation runs alone with one `now`.
- Logging, and the packer-mismatch warning of `POST` (it only logs), are not modelled.
- `index.js`, the second server variant, is not part of this model.
- JSON values are scalars with integer numbers. Floating point, nested objects or arrays inside a proof, and prototype-named keys are not modelled.
- Majority.Keys: `Object.keys` lists keys that look like array indices (such as "1") first, in numeric order; the model keeps pure insertion order. Version and packer strings rarely take that form, but a number candidate does: its key is `ToKey(Num(n))`.
- Majority.KeysInFirstOccurrenceOrder: the same order is assumed, so it does not hold for index-like keys.
- Majority.MostFrequentTieBreak: with that order, for the tied candidates "b" and "1" JavaScript returns "b" and the model returns "1".
- Majority.GetMostFrequent: it returns a most frequent key in every case, but which of several tied keys it picks can differ in the same way.
- Store.SweepIsPointwise and Store.SweepStatusTransitions are proved only for lists with distinct `bagId`s. Store.DuplicateIdsOverwrite shows why, and Store.PatchCanDuplicateIds shows that `PUT` can break the property.
