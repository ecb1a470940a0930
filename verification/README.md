# Atoshi chain: verified models

Dafny models of the parts of the Atoshi chain node whose correctness is not visible from one function
at a time, with proofs of what they promise. `dafny verify dfyconfig.toml` checks everything.

| area | modules | main results |
|---|---|---|
| protobuf codecs of `TxResult` and `ExtensionOptionsWeb3Tx` | `Words`, `Varint`, `Wire`, `Message`, `TxResultCodec`, `Web3Codec` | the decoder accepts exactly the byte strings of a record grammar with nested groups (`Message.ParseExact`, `Wire.SkipExact`), decoding undoes encoding for every value, unknown fields change nothing |
| migration Merkle tree and its on-chain claims | `Amounts`, `Merkle`, `MigrationClaims`, `Decimal` | who can be paid what is exactly what the snapshot lists as the chain prints it, or an explicit pair of colliding inputs is produced; over every run the pool is conserved and nobody is paid twice |
| EIP-712 types from JSON | `Json`, `Eip712Message`, `Eip712Types`, `Eip712Names`, `Eip712Fields`, `Eip712Schema`, `Eip712Order`, `Eip712Create`, `Eip712Sharing`, `Eip712Success`, `Eip712Builder` | the type map built in place is closed and spells the schema of every message, does not depend on member order, has one type per schema, and exists for typed messages up to a real limit |
| ERC-20 allowances in authz grants | `Strings`, `Coins`, `Erc20` | over every run, through any number of precompiles, the shared grants read as a plain allowance table |
| ICS-20 allowance edits | `Ics20`, `Ics20Grants` | the edit inside a range loop changes exactly one limit; increase and decrease undo each other exactly when stated; runs over the whole store conserve every limit of every pair |
| Ethereum transaction index | `ByteOrder`, `KvIndexer`, `KvRecords`, `IndexRuns` | the database is a function of the set of processed blocks and answers with what the blocks say about each message; byte order is block order; no sequence of indexing phases leaves a hole, and each phase goes as far as it can |
| event topics | `AbiTopic` | two's-complement words, with the exact conditions under which they are produced |
| signature gas | `SigGas` | success and price of nested multisignatures, exactly |

Code that updates buffers, maps or stores in place is modelled by methods and classes with loops; each
is tied by its postcondition to a specification function, and the properties are proved about that
function. Bytes are integers from 0 to 255, and every 32-, 64- and 256-bit wrap-around is written out.
SHA-256 is an arbitrary function from byte strings to 32 bytes: nothing is assumed about it, and where
injectivity would be needed a collision is exhibited instead. `Wrappers` holds the option type. No proof
relies on automatic induction: inductive lemmas call themselves.

## Where the code and its promises differ

- `index-eth-tx backward` on an empty index starts one block below the latest one
  (`server/indexer_cmd.go:90-98`), although its help text names the latest block. The model follows the
  code: `IndexRuns.BackwardMissesTip` shows it, `IndexRuns.BackwardCoversTip` says exactly when the tip
  is covered.
- The live indexer moves on after a failed index write (`server/indexer_service.go:105-108`).
  `IndexRuns.LostWriteLeavesHole` shows a hole, `IndexRuns.LossesExactly` gives the exact condition.
- A snapshot with a single entry has an empty proof, which `ValidateBasic` refuses
  (`x/tokenomics/types/helpers.go:269-280`): its one entry can never be claimed
  (`MigrationClaims.SingleEntryUnpaid`).
- The snapshot builder takes any non-empty text as an amount (`cmd/migration-merkle/main.go:112-147`),
  while the chain hashes the amount as it prints: a line such as `a,0100` can never be claimed
  (`MigrationClaims.PaddedAmountUnpaid`). `MigrationClaims.ClaimableExactly` and
  `MigrationClaims.PaidExactly` give the exact condition for both.
- EIP-20 wants transfers of zero treated as normal transfers; the precompile refuses them because the
  coin list is validated first. Approving zero fails while the pair has allowances in other
  denominations only. `Erc20.ZeroCallsRefused` shows both; `Erc20.TransferFromExactly` and
  `Erc20.ApproveZeroExactly` give the exact conditions.
- Lowering an ICS-20 limit to zero drops the coin, after which it cannot be raised again
  (`Ics20.UsedUpLimitGone`; `Ics20.DecreaseThenIncrease` has the exact condition).
- The skip loop lets a group be closed by an end tag of any field number
  (`Wire.MismatchedGroupSkipped`), and decoders take varints that are not minimal
  (`Wire.LongZeroRead`); `Wire.SkipExact` says exactly what is skipped.
- A negative `*big.Int` loses its sign in `MakeTopic` (`AbiTopic.NegativeBigTopic`;
  `AbiTopic.BigTopicExact` has the exact condition).
- Flattening cannot tell `"msgs": null` from an empty array (`Eip712Message.NullMessagesLost`;
  `Eip712Message.FlattenRecovers` has the exact condition).

## Model

| member | source | states |
|---|---|---|
| `Words.BitOrAboveIsAdd` | types/indexer.pb.go:234 | or-ing a shifted group into bits that are still clear adds it |
| `Varint.EncodeIsToken` | types/indexer.pb.go:172-182 | the encoding of every 64-bit number is a token of at most ten bytes that spells the number |
| `Varint.EncodePrefixFree` | cmd/migration-merkle/main.go:193-205 | no varint is a prefix of another: number and remainder are both determined |
| `Varint.SovIsLength` | types/indexer.pb.go:213-215 | the bit-length formula is the number of bytes the encoding takes, for every 64-bit number |
| `Varint.EncodeExample` | types/indexer.pb.go:172-182 | 150 is encoded as in the Protocol Buffers encoding guide |
| `Varint.EncodeVarint` | types/indexer.pb.go:172-182 | fills exactly the bytes before `offset` with the encoding and touches no other byte |
| `Varint.ScanFinds` | types/indexer.pb.go:225-238 | wherever a token stands the scan finds exactly that token |
| `Varint.ScanFailures` | types/indexer.pb.go:226-232 | the overflow error is ten bytes that all go on, the end-of-input error fewer than ten left that all go on, and conversely |
| `Varint.OrStep` | types/indexer.pb.go:234 | one round of the accumulator, in the width of its field, adds the next group modulo that width |
| `Varint.ReadVarint` | types/indexer.pb.go:225-238 | ends where the token ends and yields what it spells modulo the width; same errors, in the same order |
| `Wire.HopOnce` | types/indexer.pb.go:424-474 | one hop of the skip loop, including lengths that wrap at 64 bits |
| `Wire.Skip` | types/indexer.pb.go:403-480 | the loop with its depth counter computes the recursive skip, without indexing outside the data |
| `Wire.SkipStepsOver` | types/indexer.pb.go:403-480 | at any depth, skipping passes over a whole well-formed record, nested groups included |
| `Wire.SkipExact` | types/indexer.pb.go:403-480 | skipping succeeds with `n` if and only if the first `n` bytes print one well-formed record |
| `Wire.MismatchedGroupSkipped` | types/indexer.pb.go:460-466 | a group of field 1 closed by the end tag of field 2 is skipped |
| `Wire.LongZeroRead` | types/indexer.pb.go:409-422 | a zero spelled in two bytes is read, though the encoder spells it in one |
| `Message.ParseExact` | types/indexer.pb.go:219-402 | decoding yields these assignments if and only if the data is the print of acceptable records that mean them |
| `Message.ParseConcat` | types/indexer.pb.go:219-402 | concatenated messages decode to their assignments one after the other |
| `Message.UnknownInsertion` | types/indexer.pb.go:382-395 | well-formed unknown records, groups included, can be inserted between fields without changing the result |
| `Message.AssignedOnSuccess` | types/indexer.pb.go:219-402 | the assignments stated for every decode are, on success, those of the records |
| `Message.TagErrors` | types/indexer.pb.go:239-251 | which error a refused tag gives |
| `Message.LengthErrors` | types/web3.pb.go:248-259 | a bytes field is taken, has an invalid length or passes the end exactly according to its length |
| `Message.VarintFieldReads` | types/indexer.pb.go:219-402 | a tag byte and a varint of any value decode to one assignment of that field |
| `Message.BytesFieldReads` | types/web3.pb.go:229-300 | a tag byte, a length and that many bytes decode to one assignment of that field |
| `Message.PutVarintField` | types/indexer.pb.go:129-168 | prints a field backwards from `i`: absent when zero, tag and varint otherwise, nothing else touched |
| `Message.PutBytesField` | types/web3.pb.go:122-136 | prints a bytes or string field backwards from `i`: absent when empty |
| `TxResultCodec.RoundTrip` | types/indexer.pb.go:109-170 | decoding the encoding into a zero value gives back every record, negative heights and indexes included |
| `TxResultCodec.WiredInjective` | types/indexer.pb.go:124-170 | different records have different encodings |
| `TxResultCodec.WireLayout` | types/indexer.pb.go:124-170 | the tag of each field, their order, and what stands for signed fields and the flag |
| `TxResultCodec.ReadsFields` | types/indexer.pb.go:247-381 | which field each tag assigns and how any 64-bit value is narrowed into it |
| `TxResultCodec.CutShortKept` | types/indexer.pb.go:252-266 | every field but the flag keeps what was read of a number that is cut short |
| `TxResultCodec.SizeIsLength` | types/indexer.pb.go:183-211 | `Size` is the length of the encoding |
| `TxResultCodec.TxResult.MarshalToSizedBuffer` | types/indexer.pb.go:124-170 | the encoding fills the end of the buffer and leaves the rest |
| `TxResultCodec.TxResult.Marshal` | types/indexer.pb.go:109-117 | the new buffer is exactly the encoding |
| `TxResultCodec.TxResult.Unmarshal` | types/indexer.pb.go:219-402 | succeeds exactly on the messages of the grammar and then holds their assignments over the old fields; on every other input terminates with the parser's error and holds the assignments before it, with what was read of an interrupted number |
| `Web3Codec.RoundTrip` | types/web3.pb.go:102-173 | decoding undoes encoding for every chain id, payer and signature |
| `Web3Codec.ReadsFields` | types/web3.pb.go:209-300 | which field each tag assigns |
| `Web3Codec.CutShortKept` | types/web3.pb.go:213-227 | so does the chain id |
| `Web3Codec.SizeIsLength` | types/web3.pb.go:155-173 | `Size` is the length of the encoding |
| `Web3Codec.ExtensionOptionsWeb3Tx.MarshalToSizedBuffer` | types/web3.pb.go:117-142 | the encoding fills the end of the buffer and leaves the rest |
| `Web3Codec.ExtensionOptionsWeb3Tx.Marshal` | types/web3.pb.go:102-110 | the new buffer is exactly the encoding |
| `Web3Codec.ExtensionOptionsWeb3Tx.Unmarshal` | types/web3.pb.go:181-315 | succeeds exactly on the messages of the grammar, with their assignments; otherwise the parser's error and the assignments before it |
| `Merkle.PayloadInjective` | cmd/migration-merkle/main.go:193-205 | the length-prefixed payload determines claimer and amount |
| `Merkle.PayloadLayout` | cmd/migration-merkle/main.go:193-205 | claimer, then amount, each behind its length |
| `Merkle.CombinedSymmetric` | cmd/migration-merkle/main.go:207-218 | a sorted pair does not depend on the order of its halves |
| `Merkle.CombinedDetermines` | cmd/migration-merkle/main.go:207-218 | a sorted pair of 32-byte halves determines them up to order |
| `Merkle.CombinedSorted` | cmd/migration-merkle/main.go:207-218 | of the two halves the one that is smaller as a number comes first |
| `Merkle.BuildLevel` | cmd/migration-merkle/main.go:155-166 | the level above: pairs hashed, an odd last node promoted |
| `Merkle.BuildTree` | cmd/migration-merkle/main.go:150-170 | all levels and the root, on which `ProofFolds` and `TreeBinds` rest |
| `Merkle.ProofFor` | cmd/migration-merkle/main.go:172-190 | the siblings on the way up, none where a node was promoted |
| `Merkle.ProofFolds` | cmd/migration-merkle/main.go:150-190 | folding any leaf with its proof gives the root, promoted nodes included |
| `Merkle.ProofLength` | cmd/migration-merkle/main.go:172-190 | among at most 2^k leaves a proof has at most k elements |
| `Merkle.LeafBinds` | cmd/migration-merkle/main.go:193-205 | entries with equal leaves are equal, or a collision is exhibited |
| `Merkle.TreeBinds` | cmd/migration-merkle/main.go:150-218 | any proof of 32-byte elements from an entry to a tree's root is for a member of the tree, or a collision is exhibited |
| `Merkle.VerifyClaim` | x/tokenomics/keeper/msg_server.go:111-135 | the verifier's loop folds the proof from the leaf of the claimer and the printed amount, refusing elements of another size and an empty root |
| `Merkle.ClaimBinding` | x/tokenomics/keeper/msg_server.go:96-135 | a claim the chain accepts against a built root is one of the entries, or a collision is exhibited |
| `Merkle.ClaimCompleteness` | x/tokenomics/keeper/msg_server.go:96-135 | with the builder's proof of an entry the chain accepts the amount the entry spells as the chain prints it, and any other amount only with a collision |
| `Merkle.FoldInjective` | x/tokenomics/keeper/msg_server.go:117-134 | one proof leads from different leaves to different roots, or a collision is exhibited |
| `Merkle.SingleEntryRefuses` | x/tokenomics/keeper/msg_server.go:111-135 | against the root of a single entry no proof with elements verifies without a collision |
| `Amounts.AmountTextInjective` | x/tokenomics/keeper/msg_server.go:96-109 | amounts with the same decimal text are equal |
| `Amounts.PositiveAmountText` | x/tokenomics/keeper/msg_server.go:96-109 | a positive amount prints as digits without a leading zero that spell it |
| `Amounts.AmountTextOf` | x/tokenomics/keeper/msg_server.go:96-109 | digits without a leading zero are the print of the positive amount they spell |
| `Amounts.AmountTextExamples` | x/tokenomics/keeper/msg_server.go:97 | the ASCII of a positive, a negative and the zero amount |
| `MigrationClaims.Keeper.ClaimMigrationTokens` | x/tokenomics/keeper/msg_server.go:27-72 | the whole new state and the error of every refused claim |
| `MigrationClaims.ClaimChanges` | x/tokenomics/keeper/msg_server.go:54-61 | a refused claim changes nothing; a paid one marks its claimer, takes its amount, is recorded, and nothing else |
| `MigrationClaims.RefusedWithReason` | x/tokenomics/keeper/msg_server.go:28-59 | every error names a reason that holds, and a paid claim has none against it |
| `MigrationClaims.RunSound` | x/tokenomics/keeper/msg_server.go:27-72 | over every run of claims, refills and bridge moves: pool plus payouts is what was put in, no claimer is paid twice, each payout is a snapshot line with that amount, or a collision is exhibited |
| `MigrationClaims.UnpaidStaysPayable` | x/tokenomics/keeper/msg_server.go:27-72 | after any run, own refused claims included, a listed claimer who was not paid can be paid as soon as the pool suffices and the window is open |
| `MigrationClaims.ProofEmpty` | cmd/migration-merkle/main.go:172-190 | a proof is empty if and only if the snapshot has one entry |
| `MigrationClaims.ClaimableExactly` | x/tokenomics/types/helpers.go:269-280 | an entry can be claimed with its written proof if and only if the snapshot has another entry, the amount is written as the chain prints a positive amount, and the payout is open; anything else exhibits a collision |
| `MigrationClaims.PaidExactly` | x/tokenomics/keeper/msg_server.go:27-72 | with whatever proof, a claimer can get an amount if and only if the snapshot of several entries lists it as the chain prints it and the payout is open, or a collision is exhibited |
| `MigrationClaims.SingleEntryUnpaid` | x/tokenomics/types/helpers.go:276-278 | the only entry of a snapshot is never paid without a collision |
| `MigrationClaims.PaddedAmountUnpaid` | cmd/migration-merkle/main.go:133-145 | a snapshot line with amount `0100` is never paid without a collision |
| `Eip712Message.FlattenPayloadMessages` | ethereum/eip712/message.go:71-153 | fails exactly when `msgs` is missing or no array, a message is no object or its key is taken; otherwise other members stay in order and `msg0`, `msg1`, ... follow |
| `Eip712Message.MsgFieldInjective` | ethereum/eip712/message.go:140-142 | different messages get different keys |
| `Eip712Message.MessageKeys` | ethereum/eip712/message.go:140-142 | `msg0` and `msg12` |
| `Eip712Message.UnflattenFlatten` | ethereum/eip712/message.go:71-153 | the messages and the other members are recovered from the flattened payload |
| `Eip712Message.FlattenRecovers` | ethereum/eip712/message.go:71-153 | the recovered payload equals the original as a nested map if and only if `msgs` was an array |
| `Eip712Message.NullMessagesLost` | ethereum/eip712/message.go:96-112 | a null and an empty array of messages flatten alike |
| `Eip712Names.SanitizeAlnum` | ethereum/eip712/types.go:340-358 | a sanitized path has only letters and digits |
| `Eip712Names.SanitizeClean` | ethereum/eip712/types.go:340-358 | sanitizing a generated name again changes nothing |
| `Eip712Names.GeneratedKey` | ethereum/eip712/types.go:251-256 | every key starts with `Type` and ends in a digit; below the root it is its own sanitized form |
| `Eip712Fields.ScalarTypes` | ethereum/eip712/types.go:187-198 | strings, booleans and numbers become `string`, `bool` and `int64`; nulls and missing members nothing |
| `Eip712Fields.ArrayTypes` | ethereum/eip712/types.go:171-198 | the first element decides the type of an array, an empty one is `string[]`, and arrays of nulls or arrays have none |
| `Eip712Fields.ObjectTypes` | ethereum/eip712/types.go:200-218 | an object is added under its path and referred to by the key it got, with a suffix for an array |
| `Eip712Fields.SanitizeJoins` | ethereum/eip712/types.go:340-358 | a path is sanitized step by step |
| `Eip712Fields.SanitizeWords` | ethereum/eip712/types.go:346-354 | the root becomes `Type`; the words of a name are sanitized one by one |
| `Eip712Fields.SanitizeWord` | ethereum/eip712/types.go:342 | a word keeps everything but a lower-case first letter, which is capitalised |
| `Eip712Fields.SanitizeExample` | ethereum/eip712/types.go:336 | `_.foo_bar.baz` becomes `TypeFooBarBaz` |
| `Eip712Schema.FindSlotFinds` | ethereum/eip712/types.go:280-310 | the slot chosen for a type is free or already holds the same fields |
| `Eip712Schema.SpellsExtended` | ethereum/eip712/types.go:145-222 | what an entry means is unaffected by later insertions |
| `Eip712Schema.AddObjectGood` | ethereum/eip712/types.go:145-222 | the walk only adds generated entries, every referenced type is defined, and the returned key spells the object's schema |
| `Eip712Order.SortSorts` | ethereum/eip712/types.go:226-246 | the sorted keys are the object's keys, strictly descending |
| `Eip712Order.DescendingUnique` | ethereum/eip712/types.go:241-243 | any sorting of the same keys gives the same list |
| `Strings.LessExactly` | ethereum/eip712/types.go:241-243 | of two strings the smaller is the one that ends first or has the smaller character where they part |
| `Eip712Order.AddObjectSame` | ethereum/eip712/types.go:145-222 | objects equal as nested maps get the same types and the same key |
| `Eip712Create.CreateDescribes` | ethereum/eip712/types.go:37-139 | the map is closed, the fixed types are untouched, other keys cannot clash with them, and `Tx` has one field per message whose type spells that message |
| `Eip712Create.FixedTypes` | ethereum/eip712/types.go:38-77 | the fixed types of any created map, field by field, and the fixed fields of `Tx` |
| `Eip712Create.RootTypeExactly` | ethereum/eip712/types.go:117-130 | the root type is `Type` and what follows the last slash of a non-empty type string; nothing else has one |
| `Eip712Create.FlattenedMessage` | ethereum/eip712/types.go:79-81 | the payload read under `msg{i}` is message `i` of the sign document |
| `Eip712Create.SignDocDescribed` | ethereum/eip712/types.go:37-139 | flattening followed by type creation describes the sign document's messages in order |
| `Eip712Create.SignDocSame` | ethereum/eip712/types.go:37-246 | sign documents equal as nested maps flatten alike and get the same types |
| `Eip712Sharing.SpellsUnique` | ethereum/eip712/types.go:145-222 | an entry spells only one schema |
| `Eip712Sharing.AddObjectFactors` | ethereum/eip712/types.go:145-222 | the walk depends on nothing but the object's schema |
| `Eip712Sharing.SchemaAgain` | ethereum/eip712/types.go:273-310 | on any map that kept the entries, adding a schema again changes nothing and yields the same key |
| `Eip712Sharing.SharedExactly` | ethereum/eip712/types.go:79-139 | messages with one type have one schema; messages with one type string share a type if and only if their schemas are equal |
| `Eip712Success.SlotExists` | ethereum/eip712/types.go:280-310 | a thousand numbers suffice while there are fewer than a thousand generated entries |
| `Eip712Success.SlotsExhausted` | ethereum/eip712/types.go:280-310 | adding a type fails if and only if all thousand numbers under its name hold other fields |
| `Eip712Success.SlotIsFirst` | ethereum/eip712/types.go:283-305 | the number a type gets is the first that is free or holds the same fields |
| `Eip712Success.KeyNames` | ethereum/eip712/types.go:251-256 | a key is the root type or the sanitized path, and a number below a thousand in decimal |
| `Eip712Success.CreateSucceeds` | ethereum/eip712/types.go:79-130 | a payload of at most a thousand objects gets types if and only if every message is an object with a type string |
| `Eip712Success.NumberedNamesMeet` | ethereum/eip712/types.go:314-316 | number 10 of one name is number 0 of another |
| `Eip712Success.AtMostAThousand` | ethereum/eip712/types.go:302-304 | for payloads of any size, types exist only if no type string comes with more than a thousand different schemas |
| `Eip712Builder.TypesAreEqual` | ethereum/eip712/types.go:322-334 | equality of field lists, in order |
| `Eip712Builder.SanitizeTypedef` | ethereum/eip712/types.go:340-358 | the buffer filled part by part is the sanitized name |
| `Eip712Builder.TypeBuilder.AddTypesToRoot` | ethereum/eip712/types.go:280-310 | reuses an equal entry without a write, else takes the next free number, up to a thousand |
| `Eip712Builder.TypeBuilder.AddFieldTypes` | ethereum/eip712/types.go:161-218 | one field of the walk, with the map as the nested objects leave it |
| `Eip712Builder.TypeBuilder.RecursivelyAddTypesToRoot` | ethereum/eip712/types.go:145-222 | the loop over sorted names with its in-place updates computes the specified map and key, on errors too |
| `Eip712Builder.TypeBuilder.AddMsgTypesToRoot` | ethereum/eip712/types.go:93-139 | one message, including what a failed one leaves in the map |
| `Eip712Builder.CreateEIP712Types` | ethereum/eip712/types.go:37-89 | the loop over messages returns what `CreateDescribes`, `SignDocSame` and `CreateSucceeds` are about |
| `Coins.AddSpells` | precompiles/erc20/tx.go:114 | adding to a sorted coin list adjusts one denomination, dropping it at zero |
| `Erc20.UpdateOrAddValid` | precompiles/erc20/types.go:141-152 | a valid limit stays sorted, duplicate-free and positive, with one denomination set |
| `Erc20.UpdateOrAddCoin` | precompiles/erc20/types.go:141-152 | the loop overwrites the denomination's coin or adds it |
| `Erc20.StepSimulates` | precompiles/erc20/approve.go:36-334 | a call succeeds exactly when the allowance table accepts it, does to the grants what it does to the table, and changes nothing when it fails |
| `Erc20.TableStepFrame` | precompiles/erc20/approve.go:36-334 | a table step sets the caller's own entry as ERC-20 has it and no other |
| `Erc20.RunSimulates` | precompiles/erc20/approve.go:36-334 | whole runs of calls with advancing block times simulate the table, lapsed accounts dropping out |
| `Erc20.RunAllowances` | precompiles/erc20/query.go:181-231 | from an empty store, every allowance read back after any run is the table's entry, and every grant is valid |
| `Erc20.GrantIffAllowance` | precompiles/erc20/query.go:211-231 | a grant is found if and only if some denomination has a positive allowance |
| `Erc20.EventIsAllowance` | precompiles/erc20/tx.go:147-156 | the Approval event carries the allowance read right after the call |
| `Erc20.ApproveZeroExactly` | precompiles/erc20/approve.go:36-92 | approving zero succeeds if and only if the pair has no allowance at all, or has this one and it is the only one or the grant does not lapse in this block |
| `Erc20.TransferFromExactly` | precompiles/erc20/tx.go:70-161 | a transfer for another succeeds if and only if the amount is positive, fits 256 bits, is within the allowance and the bank moves it |
| `Erc20.ZeroCallsRefused` | precompiles/erc20/tx.go:78-84 | after one approval, approving zero of another token and transferring zero are refused |
| `Erc20.ApprovalLasts` | precompiles/erc20/approve.go:224-239 | an approval is reported for 31536000 seconds and not after |
| `Erc20.OwnAllowance` | precompiles/erc20/query.go:195-197 | an owner's allowance from themself is 2^256-1, and their own `transferFrom` changes no grant and reports that value |
| `Erc20.FailedWithReason` | precompiles/erc20/approve.go:36-334 | every error names a reason that holds of the allowances before the call |
| `Erc20.Precompile.CreateAuthorization` | precompiles/erc20/approve.go:224-239 | saves a one-coin grant for a year, or refuses |
| `Erc20.Precompile.UpdateAuthorization` | precompiles/erc20/approve.go:241-248 | saves the edited limit under the old expiration |
| `Erc20.Precompile.RemoveSpendLimitOrDeleteAuthorization` | precompiles/erc20/approve.go:253-278 | drops the denomination, and the grant with the last one; refuses a missing one |
| `Erc20.Precompile.Approve` | precompiles/erc20/approve.go:36-92 | the store and outcome of `StepSimulates` |
| `Erc20.Precompile.IncreaseAllowance` | precompiles/erc20/approve.go:103-151 | the store and outcome of `StepSimulates`, with the overflow check |
| `Erc20.Precompile.DecreaseAllowance` | precompiles/erc20/approve.go:165-222 | the store and outcome of `StepSimulates` |
| `Erc20.Precompile.TransferFrom` | precompiles/erc20/tx.go:70-161 | the store and outcome of `StepSimulates`; a failed send leaves the grant |
| `Ics20.CheckAllocationExists` | precompiles/ics20/types.go:337-355 | the loop finds what `LimitExactly` characterises |
| `Ics20.LimitExactly` | precompiles/ics20/types.go:337-355 | it is the coin of the denomination in the first allocation for the port and channel, and nothing is found when there is none |
| `Ics20.LoweredAt` | precompiles/ics20/approve_common.go:193-206 | at the coin found, the list with it lowered, or without it when nothing is left |
| `Ics20.RemoveAt` | precompiles/ics20/approve_common.go:200-202 | the append that cuts out one coin shifts the rest inside the same backing array |
| `Ics20.DecreaseInPlace` | precompiles/ics20/approve_common.go:192-206 | what editing the array while ranging over its old length leaves, or that it panics, for every coin list |
| `Ics20.EditLowers` | precompiles/ics20/approve_common.go:192-206 | on duplicate-free coins the loop never panics and lowers exactly the one coin, dropping it at zero |
| `Ics20.IncreaseAllowance` | precompiles/ics20/approve_common.go:126-139 | the edited allocations, or the refusal |
| `Ics20.DecreaseAllowance` | precompiles/ics20/approve_common.go:179-207 | the edited allocations, the refusal or the panic, for every allocation list |
| `Ics20.DecreaseAnyIsDecrease` | precompiles/ics20/approve_common.go:179-207 | on valid allocations that is the decrease of `DecreaseExact`, without panic |
| `Ics20.DecreaseExact` | precompiles/ics20/approve_common.go:179-207 | succeeds if and only if the first allocation for the port and channel holds enough of the denomination; then exactly this limit is lowered, validity kept |
| `Ics20.IncreaseExact` | precompiles/ics20/approve_common.go:126-139 | succeeds if and only if that allocation holds the denomination and the sum fits 256 bits; then exactly this limit is raised |
| `Ics20.RefusedWithReason` | precompiles/ics20/approve_common.go:126-188 | every refusal names a reason that holds |
| `Ics20.LimitsAfter` | precompiles/ics20/approve_common.go:126-207 | after an edit every other port, channel and denomination has its old limit |
| `Ics20.IncreaseThenDecrease` | precompiles/ics20/approve_common.go:126-207 | decreasing by what was added restores the authorization, order included |
| `Ics20.DecreaseThenIncrease` | precompiles/ics20/approve_common.go:126-207 | increasing by what was taken restores the authorization if and only if less than the limit was taken |
| `Ics20.UsedUpLimitGone` | precompiles/ics20/approve_common.go:198-202 | a limit lowered to zero cannot be raised again |
| `Ics20.RunConserves` | precompiles/ics20/approve_common.go:126-207 | over any run each limit is its start plus accepted increases minus accepted decreases |
| `Ics20Grants.AuthzKeeper.Increase` | precompiles/ics20/approve_common.go:105-143 | the store and outcome of `StepExact`: lookup, edit and saving under the old expiration |
| `Ics20Grants.AuthzKeeper.Decrease` | precompiles/ics20/approve_common.go:159-210 | the store and outcome of `StepExact`: lookup, edit and saving under the old expiration |
| `Ics20Grants.StepExact` | precompiles/ics20/approve_common.go:105-223 | a call succeeds if and only if the grant is live, can be saved and has room; its own limit moves by the amount, every other limit of every pair stays, and a failed call changes nothing |
| `Ics20Grants.FailureReasons` | precompiles/ics20/approve_common.go:168-210 | a lapsed grant is not found, one that lapses in this block cannot be saved, and a valid one never makes the edit panic |
| `Ics20Grants.RunStoreConserves` | precompiles/ics20/approve_common.go:105-223 | over any run of calls by any pairs each limit is its start plus what the accepted calls asked of it |
| `KvIndexer.ParseBlockNumberOfKey` | indexer/kv_indexer.go:225-231 | the block number is read back from every index key |
| `KvIndexer.IndexKeyInjective` | indexer/kv_indexer.go:168-172 | different positions have different keys |
| `KvIndexer.IndexKeyOrder` | indexer/kv_indexer.go:168-172 | byte order of keys is the order of (block, index) |
| `KvIndexer.IndexesAreSequential` | indexer/kv_indexer.go:50-122 | the recorded Ethereum indexes of a block are 0, 1, 2, ... in order, at its height |
| `KvIndexer.CumulativeGas` | indexer/kv_indexer.go:80-110 | cumulative gas is the running sum modulo 2^64 |
| `KvIndexer.IndexBlockExtends` | indexer/kv_indexer.go:50-122 | indexing a block extends a faithful index by exactly that block |
| `KvIndexer.IndexUnique` | indexer/kv_indexer.go:50-122 | a faithful index is determined by the set of processed blocks, whatever the order |
| `KvIndexer.ReindexChangesNothing` | indexer/kv_indexer.go:50-122 | indexing a processed block again changes nothing |
| `KvIndexer.StoredIsRead` | indexer/kv_indexer.go:135-160 | what is stored under a hash and a position is read back by both lookups |
| `KvIndexer.LookupsAgree` | indexer/kv_indexer.go:135-160 | both lookups give the same record, with that height and index |
| `KvRecords.EntryIsRecord` | indexer/kv_indexer.go:50-122 | message m of transaction t is the entry after those recorded before it, with its hash, indexes, flag, gas and running gas as the block has them |
| `KvRecords.EntryHasMessage` | indexer/kv_indexer.go:57-117 | every entry is that of such a message |
| `KvRecords.LookupByMessage` | indexer/kv_indexer.go:135-160 | asking by hash or by place gives what the block says about the message |
| `KvRecords.OtherHashNotFound` | indexer/kv_indexer.go:135-148 | a hash that no processed block records is not found |
| `KvRecords.KeyLayout` | indexer/kv_indexer.go:163-172 | the bytes of both kinds of key |
| `KvIndexer.SeekIndexKey` | indexer/kv_indexer.go:175-198 | the least or greatest key of the index range in byte order, or none when the range is empty |
| `KvIndexer.LoadBlock` | indexer/kv_indexer.go:175-198 | the height in the least or greatest index key, or -1 when there is none |
| `KvIndexer.EdgeFound` | indexer/kv_indexer.go:175-198 | on a faithful index that is the least or greatest processed height with Ethereum transactions |
| `KvIndexer.KVIndexer.IndexMsgs` | indexer/kv_indexer.go:80-110 | the loop over a transaction's messages, with its counters |
| `KvIndexer.KVIndexer.IndexBlock` | indexer/kv_indexer.go:50-122 | the database after the batch is that of `IndexBlockExtends` |
| `IndexRuns.PhaseKeepsNoHoles` | server/indexer_cmd.go:84-115 | no backward, forward or live phase, cut short anywhere, leaves a hole where there was none |
| `IndexRuns.NoSequenceLeavesHoles` | server/indexer_cmd.go:84-115 | from an empty index no sequence of phases leaves a hole between first and last indexed block |
| `IndexRuns.PhaseCovers` | server/indexer_cmd.go:84-115 | exactly which heights each phase adds, below or above everything indexed |
| `IndexRuns.BackwardCoversTip` | server/indexer_cmd.go:85-98 | a backward run covers the latest block if and only if it was processed before or lies below the first indexed block within reach |
| `IndexRuns.BackwardMissesTip` | server/indexer_cmd.go:90-98 | on an empty index it covers the blocks below the latest one, never that one |
| `IndexRuns.LostWriteLeavesHole` | server/indexer_service.go:105-108 | a lost write in the live service can leave one |
| `IndexRuns.LossesExactly` | server/indexer_service.go:85-109 | a live phase that loses writes, on an empty index too, leaves no hole if and only if above each lost block that has an indexed block below it every Ethereum block passed is lost |
| `IndexRuns.Session.Load` | indexer/kv_indexer.go:125-132 | the first or last indexed block, or -1 |
| `IndexRuns.Session.RunBackward` | server/indexer_cmd.go:84-98 | the descending loop processes exactly the heights of its phase and stops only at height 1 or below a block it cannot load |
| `IndexRuns.Session.RunForward` | server/indexer_cmd.go:99-115 | the ascending loop processes exactly the heights of its phase and stops only past the tip or at a block it cannot load |
| `IndexRuns.Session.RunLive` | server/indexer_service.go:78-110 | the catch-up loop, with the latest height raised at any time, processes exactly the heights of its phase up to where its events bring it |
| `IndexRuns.LiveCatchesUp` | server/indexer_service.go:88-109 | with the blocks at hand each successful fetch brings the service one block further, until it is up to date |
| `IndexRuns.LiveStaysBelow` | server/indexer_service.go:88-109 | it never passes the newest block it heard of nor a block it could not fetch |
| `AbiTopic.GenIntType` | precompiles/common/abi.go:107-118 | the array written byte by byte: the low bytes behind copies of the sign |
| `AbiTopic.IntTopicExact` | precompiles/common/abi.go:107-118 | that is the number's two's-complement word if and only if the number fits `size` bytes and a sign |
| `AbiTopic.WordReads` | precompiles/common/abi.go:107-118 | every signed 256-bit number is read back from its word |
| `AbiTopic.MakeTopic` | precompiles/common/abi.go:22-57 | each number-like rule gives its word; a big integer of more than 32 bytes panics |
| `AbiTopic.TopicReads` | precompiles/common/abi.go:34-57 | fixed-size integers and booleans are read back from their topics |
| `AbiTopic.BytesTopicReads` | precompiles/common/abi.go:27-30 | a hash is its own topic; an address stands in the last 20 bytes |
| `AbiTopic.BigTopicExact` | precompiles/common/abi.go:31-33 | a big integer's topic is its word if and only if it is an unsigned 256-bit number or -2^255 |
| `AbiTopic.NegativeBigTopic` | precompiles/common/abi.go:31-33 | -1 and 1 have the same topic |
| `SigGas.PositionsExact` | app/ante/sigverify.go:70-87 | the selected positions are exactly the set bits, in order |
| `SigGas.RunExact` | app/ante/sigverify.go:37-90 | charging succeeds if and only if the signature is well-formed at every depth (the k-th set bit has a key and the k-th signature), all signing leaves are Ethereum keys and the limit suffices; it then costs 21000 per signing leaf |
| `SigGas.RunIsChargeAll` | app/ante/sigverify.go:37-90 | in every outcome a well-formed signature, however nested, is charged and ends like the list of its signing leaves, each with its literal price |
| `SigGas.SigVerificationGasConsumer` | app/ante/sigverify.go:37-63 | the meter and outcome of `RunExact`, for every key and signature |
| `SigGas.ConsumeMultisignatureVerificationGas` | app/ante/sigverify.go:66-90 | the loop with its two indexes, including where it panics |

## Left out

- Web3Codec.RoundTrip: encodings of 2^63 bytes and more, which no Go slice can hold.
- Eip712Create.CreateDescribes: field names other than letters, digits and underscores, because gjson paths and the Unicode title caser are not modelled beyond those.
- Eip712Create.SignDocDescribed: the same field names.
- Eip712Schema.AddObjectGood: the same field names.
- Eip712Sharing.SharedExactly: the same field names.
- Eip712Success.CreateSucceeds: payloads of more than a thousand objects, where the numbered names of different types can coincide (`NumberedNamesMeet`); `SlotsExhausted` is the exact condition of each step and `AtMostAThousand` a necessary one for all sizes.
- MigrationClaims.RunSound: a change of the parameters, and with them of the root, in the middle of a run.
- gjson and sjson text parsing, and repeated keys in one object; JSON is a datatype.
- The final length checks of the generated decoders that no input can reach, and the zigzag length helpers, which nothing calls.
- The cosmos-sdk authz, bank and coin libraries, other than small stand-ins for the operations used: sorted coin lists, a grant map with expirations, and the send authorization that subtracts and is deleted at zero. Whether a bank send succeeds and whether an address is valid are inputs.
- In `Erc20`, grants without an expiration time, and kinds of authorization other than send (they are refused).
- Decoding of block results into Ethereum transactions (`rpc/types/events.go`): the indexer takes each transaction's messages and gas as inputs.
- Hexadecimal decoding of the migration root and reading of the snapshot file.
- Topics of strings and byte strings (Keccak hashes) and of static byte arrays.
- The legacy EIP-712 path, which works by reflection.
- The other generated codecs, which repeat the same patterns.
- EVM state, precompile dispatch, ABI packing and event emission beyond the values named above, and the modules under `x/` other than migration claims.
- Command-line, server and application wiring.
