# Burns, validator registration and their wire formats, verified

Mono Chain is a Cosmos chain whose burn module destroys native coins on request and out of
transaction fees, whose validator module lets nobody become a validator without a burn, and
whose messages travel in the Protocol Buffers wire format. This project models three parts of
it in Dafny and proves what they promise.

**The wire codec of the burn messages** (`Wire`, `Skip`, `Groups`, `Fields`, `Entries`,
`Refusals`, `BurnMessages`, `MessageLaws`, `Codec`, `GenesisCodec`, `QueryCodec`). The generated encoder fills a buffer from the back; the generated
decoder is a cursor loop with 64-bit shifts and signed overflow checks; unknown fields are
skipped with a depth counter. `Codec`, `GenesisCodec` and `QueryCodec` hold these loops as
methods on arrays and objects, with Go's wrap-around written out. They are proved equal to
recursive functions on byte strings, about which the laws are proved: round trip, exact size,
"Last One Wins", transparency of unknown fields, and the equivalence of the skipper with a
recursive grammar. An input is accepted exactly when it is a concatenation of fields of the
message, and the errors of other inputs are told. What a message holds after a decoding that failed is part of the result.
Every decoding method terminates and stays inside its input for every byte
string. The Unmarshal loop is stated once, over the table of a message's fields, so that the
laws hold for each of the messages.

**The chain** (`Bank`, `Chain`, `BurnKeeper`, `ValidatorKeeper`, `History`, `Dispatch`,
`Blocks`, `Runs`, `Laws`, `Acceptance`, `FeeBurn`, and for genesis `ByteOrder`, `BurnGenesis`, `Restart`). The
keepers are methods that mutate a context step by step and may fail halfway. Each is proved
against a function of the state before. Message trees of any depth go through the router or the
staking precompile, and may hold deeds of other modules: they move, make or destroy coins of
any denomination and any account, and staking may drop a validator at any time. A run is any
list of blocks and trees; the begin-block hooks of other modules, what happens at the end of a
block and fee payments are trees too. `History` reads a log of events off the messages, not off
the trackers, and every reachable state is proved to be explained by that log. `Acceptance` says
of each message exactly when it commits, what it then does to the whole state, and with which
error it is refused. A run may start
in any state that satisfies `Chain.ValidState`, and every run keeps it.

**Chain identifiers** (`ChainId`). The anchored expression `name_id-epoch`, its parser, its
printer and the flag that uses it.

## Assumptions

These stand for code outside the repository.

- The two leaf types `math.Int` and `LegacyDec` have Marshal and Unmarshal functions, and
  Unmarshal inverts Marshal on the values that a lemma speaks about (`BurnMessages.Inverts`).
  The round trips therefore cover non-nil values. What an Unmarshal that fails leaves in its
  receiver is a function of what it was given. Writing a nil number to the store writes zero.
- A byte string is shorter than 2^63, as every Go slice is.
- The bank moves, mints and burns amounts, refuses overdrafts, and may refuse a burn for reasons
  of its own (`BankSays`), the fee burn included; `sdk.NewCoins` panics on nil and negative amounts. Module accounts that must
  not receive transfers are blocked (app/config.go:57-63).
- The staking module refuses an operator that exists already and whatever else it likes
  (`accepted`), and otherwise moves the self-delegation from the operator to its pool.
- A message or block that fails is rolled back, panics included; so is a failed contract call.
- The message router asks the circuit breaker before each message (app/app.go:769).
- Other modules do not write the stores of the burn and validator modules.
- Bytes that an address text decodes to are encoded back to a text for the same bytes, and
  several texts may stand for the same bytes (`Chain.ValidCodec`). The fee collector is neither
  the distribution account nor the staking pool, and its address has a text. The native
  denomination is a valid one.
- A store iterator yields its keys in ascending byte order.

## Where code and documentation disagree

- The documentation of the validator module says that both parameters must use the native
  denomination (x/validator/README.md:58). The code lets a zero amount carry any valid
  denomination (x/validator/types/params.go:38-40): `Laws.ForeignRequirementAccepted` gives such
  an update, `Laws.ParamsNativeIff` says when stored parameters are native, and
  `Laws.ForeignRequirementBurnsNothing` what follows for registrations.
- Unknown fields are not always ignored: the field number is cut to 32 bits, so a number above
  2^32 can hit a listed field. `BurnMessages.WideFieldNumberIsTruncated` gives such bytes,
  `MessageLaws.HugeFieldNumberIsIllegal` says which numbers are refused instead, and
  `Fields.ReadsAsUnknownIff` the exact condition under which a field is skipped.
- The Protocol Buffers Encoding guide ("Groups") has a group end with the number it started with;
  the code does not compare them (x/burn/types/genesis.pb.go:674-680).
  `Groups.MismatchedGroupSkipped` gives such bytes, and `Groups.StrictIff` says when the
  skipper's answer is a field of the strict grammar.
- Genesis validation does not require the global burn total to be the sum of the account totals:
  `Restart.UnbalancedGenesisIsValid` gives such a genesis, `Restart.TotalsAgreeIff` says when
  the two agree in a run, and `Laws.DiscrepancyConstant` that their difference never changes.

## Model

| member | source | states |
|---|---|---|
| Wire.ReadVarintSound | x/burn/types/genesis.pb.go:336-349 | bytes that the decoding loop accepts start with a varint of at most ten bytes, and its value is their base-128 value cut to 64 bits |
| Wire.ReadVarintComplete | x/burn/types/genesis.pb.go:336-349 | every varint is accepted with that value and length, whatever follows |
| Wire.VarintRoundTrip | x/burn/types/genesis.pb.go:277-350 | for every uint64, decoding what the encoder wrote recovers it, consuming exactly those bytes, whatever follows |
| Wire.VarintMinimal | x/burn/types/genesis.pb.go:277-350 | no accepted byte string for a value is shorter than the encoder's |
| Wire.VarintBreaksOff | x/burn/types/genesis.pb.go:336-349 | too few bytes, all with the continuation bit, meet the end-of-input error after all of them were or-ed in |
| Wire.VarintOverflows | x/burn/types/genesis.pb.go:336-349 | ten bytes with the continuation bit meet the overflow error |
| Wire.SovIsEncodedLength | x/burn/types/genesis.pb.go:277-327 | the closed form (bitlen(x or 1) + 6) / 7 is the number of bytes the encoder's loop writes |
| Wire.VarintDigit | x/burn/types/genesis.pb.go:346 | or-ing in the shifted digit adds it, and at the tenth digit the sum is taken modulo 2^64 |
| Skip.SkipFrom | x/burn/types/genesis.pb.go:617-694 | a skip that succeeds advances by at least one byte and stays below 2^63, which is why decoding ends |
| Skip.ReadTokenSound | x/burn/types/genesis.pb.go:617-694 | a token the skipper passes over inside its input is a tag with the payload its wire type calls for |
| Skip.ReadTokenComplete | x/burn/types/genesis.pb.go:617-694 | every such token is passed over exactly, whatever follows |
| Skip.SkipComplete | x/burn/types/genesis.pb.go:617-694 | on any well-formed field followed by anything, the depth counter stops right after the field |
| Skip.SkipSound | x/burn/types/genesis.pb.go:617-694 | what the depth counter skips inside its input is exactly one field of the recursive grammar |
| Skip.SkipIffField | x/burn/types/genesis.pb.go:617-694 | the depth counter returns n inside its input if and only if the first n bytes are one well-formed field |
| Skip.FieldsArePrefixFree | x/burn/types/genesis.pb.go:617-694 | no well-formed field is a proper prefix of another |
| Groups.StrictIff | x/burn/types/genesis.pb.go:674-680 | the first n bytes are a field whose groups end with the numbers they start with, if and only if the skipper returns n and one walk with a stack of open numbers finds them matching |
| Groups.MismatchedGroupSkipped | x/burn/types/genesis.pb.go:674-680 | the two bytes of a group that starts with number 3 and ends with number 4 are skipped, and are no strict field |
| Fields.MergeLaw | x/burn/types/genesis.pb.go:331-500 | if a decodes into m giving m', then a followed by b decodes into m exactly as b decodes into m', and leaves the same message when that fails |
| Fields.ReadsAsUnknownIff | x/burn/types/genesis.pb.go:480-493 | a well-formed field is skipped if and only if the 32-bit number computed from its tag is positive and unlisted |
| Fields.UnknownFieldIgnored | x/burn/types/genesis.pb.go:480-493 | in any message, such a field between two fields changes neither the message nor whether decoding succeeds |
| Entries.UnmarshalIff | x/burn/types/genesis.pb.go:331-500 | an Unmarshal succeeds with a message if and only if its input is a concatenation of listed fields with the wire type their case asks for and of well-formed unlisted ones, whose cases in order lead to that message |
| Refusals.TagRefused | x/burn/types/genesis.pb.go:351-363 | a tag is refused for a group end, then for its number, then for the wire type of a listed field, each with its error |
| Refusals.ScalarRefused | x/burn/types/genesis.pb.go:397-411 | a number that breaks off is left as far as it was read |
| Refusals.LengthRefused | x/burn/types/genesis.pb.go:365-388 | a length that is negative as an int, or leads past the largest index, or past the input, meets its error |
| Refusals.LengthBreaksOff | x/burn/types/genesis.pb.go:365-378 | a length that breaks off passes on the error |
| Refusals.UnlistedRefused | x/burn/types/genesis.pb.go:480-493 | an unlisted field passes on the skipper's error, or is refused when it leads past the largest index or past the input |
| Refusals.TokenRefused | x/burn/types/genesis.pb.go:617-694 | wire types 6 and 7, lengths that are negative as an int, and varints that break off meet their errors |
| Refusals.LoopRefused | x/burn/types/genesis.pb.go:617-694 | how the depth counter ends at any index and depth: no input left, a bad token, an end without a start, an index too large, a token past the input |
| Refusals.GroupRefused | x/burn/types/genesis.pb.go:617-694 | inside an open group the depth counter passes over whole fields and ends as it does on what follows |
| Refusals.FirstRefusal | x/burn/types/genesis.pb.go:331-500 | after fields that decode, the first that is refused decides the error and what the message is left as |
| BurnMessages.RecordDecodes | x/burn/types/genesis.pb.go:501-616 | a record's encoding decodes to the record |
| BurnMessages.ParamsDecodeInto | x/burn/types/params.pb.go:180-263 | the encoding of parameters decodes to them over any prior value |
| BurnMessages.GenesisSize | x/burn/types/genesis.pb.go:288-323 | the size computed in closed form is the length of the encoding, nested records included |
| BurnMessages.GenesisDecodesInto | x/burn/types/genesis.pb.go:331-500 | decoding an encoding into any message overwrites scalars and submessages, appends the records, and keeps the count when the encoded one is zero |
| BurnMessages.GenesisRoundTrip | x/burn/types/genesis.pb.go:175-616 | decoding an encoding into a fresh message gives the message back, in record order |
| BurnMessages.GenesisEncodingInjective | x/burn/types/genesis.pb.go:190-275 | two messages with the same encoding are equal |
| BurnMessages.ConcatenationMerges | x/burn/types/genesis.pb.go:331-500 | two encodings one after the other decode to the merged message |
| BurnMessages.UnknownFieldInGenesis | x/burn/types/genesis.pb.go:480-493 | an unlisted field between two fields of a genesis message changes nothing |
| BurnMessages.UnknownFieldInRecord | x/burn/types/genesis.pb.go:596-609 | nor does one inside a nested record whose length prefix is written anew |
| BurnMessages.WideFieldNumberIsTruncated | x/burn/types/genesis.pb.go:351-358 | a field numbered 2^32 + 2 is taken for the count |
| MessageLaws.PercentField | x/burn/types/params.pb.go:209-242 | for every payload, the percentage is decoded over the present one, on failure as the leaf type leaves it |
| MessageLaws.ParamsField | x/burn/types/genesis.pb.go:360-392 | for every payload, parameters are decoded into the present ones, on failure as far as it got |
| MessageLaws.CountField | x/burn/types/genesis.pb.go:393-411 | a count replaces the present one, also an explicit zero |
| MessageLaws.CountBreaksOff | x/burn/types/genesis.pb.go:393-411 | a count that breaks off is left as far as it was read, with the error of the varint |
| MessageLaws.TotalField | x/burn/types/genesis.pb.go:412-445 | for every payload, the total is decoded over the present one |
| MessageLaws.RecordField | x/burn/types/genesis.pb.go:446-479 | for every payload, a record is decoded into an empty one behind the present ones, and stays when it fails |
| MessageLaws.AddressField | x/burn/types/genesis.pb.go:530-561 | an address replaces the present one, also an empty one |
| MessageLaws.RecordTotalField | x/burn/types/genesis.pb.go:562-595 | for every payload, a record's total is decoded over the present one |
| MessageLaws.EmbeddedParamsMerge | x/burn/types/genesis.pb.go:360-392 | Last One Wins for the embedded parameters: two payloads in two fields are decoded as their concatenation in one |
| MessageLaws.EmbeddedUnknownKeepsParams | x/burn/types/genesis.pb.go:360-392 | embedded parameters with no field set, or only an unlisted one, keep the present ones |
| MessageLaws.RecordsStaySeparate | x/burn/types/genesis.pb.go:446-479 | two record fields are two records, each decoded alone |
| MessageLaws.UnlistedNumbers | x/burn/types/genesis.pb.go:359-493 | the unlisted field numbers are those above 1, 2 and 4 in parameters, record and genesis |
| MessageLaws.HugeFieldNumberIsIllegal | x/burn/types/genesis.pb.go:351-358 | a field number whose low 32 bits are zero, or negative as an int32, is refused |
| MessageLaws.GenesisSample | x/burn/types/genesis.pb.go:190-275 | the bytes of a genesis message with all fields set, in their order |
| MessageLaws.AnonymousRecordSample | x/burn/types/genesis.pb.go:252-275 | a record leaves out an empty address |
| Codec.DecodeVarint | x/burn/types/genesis.pb.go:336-350 | the shift loop gives the value or the error of the varint at the cursor |
| Codec.SkipVarint | x/burn/types/genesis.pb.go:638-647 | the loop without the value takes the same bytes or gives the same error |
| Codec.SkipUnknown | x/burn/types/genesis.pb.go:617-694 | the depth-counter loop with Go's wrapping index, for every input shorter than 2^63, agrees with the function the grammar theorem is about |
| Codec.NextField | x/burn/types/genesis.pb.go:334-388 | one turn of the loop up to the switch body reads the tag, checks it and the length or value, and never leaves the input |
| Codec.EncodeVarintAt | x/burn/types/genesis.pb.go:277-287 | writes the varint of v so that it ends right before the offset, leaves every other byte alone, and returns where it starts |
| Codec.PutPayload | x/burn/types/genesis.pb.go:259-273 | writes payload, length and tag back to front and nothing else |
| GenesisCodec.Params.Unmarshal | x/burn/types/params.pb.go:180-263 | the loop leaves in the object what the decoding function gives for its prior value, on success and on failure, with the same error |
| GenesisCodec.Params.MarshalToSizedBuffer | x/burn/types/params.pb.go:134-172 | writes exactly Size bytes, which are the encoding, at the tail of the buffer |
| GenesisCodec.AccountBurnRecord.Unmarshal | x/burn/types/genesis.pb.go:501-616 | the same for a record |
| GenesisCodec.AccountBurnRecord.MarshalToSizedBuffer | x/burn/types/genesis.pb.go:252-275 | the same for a record, whose empty address is left out |
| GenesisCodec.GenesisState.Unmarshal | x/burn/types/genesis.pb.go:331-500 | the same for the genesis message: nested parameters are decoded into the present ones, records into fresh ones that stay appended when they fail, and a count that breaks off is left as far as it was read |
| GenesisCodec.GenesisState.MarshalToSizedBuffer | x/burn/types/genesis.pb.go:190-235 | writes exactly Size bytes at the tail, leaves every byte before them, and never needs an index below zero |
| GenesisCodec.GenesisState.Marshal | x/burn/types/genesis.pb.go:175-183 | the fresh buffer is filled completely and is the encoding |
| GenesisCodec.PutRecords | x/burn/types/genesis.pb.go:193-206 | the backward loop over the records writes them in their order |
| QueryCodec.StatsSize | x/burn/types/query.pb.go:713-727 | the size is the encoding's length for every combination of present and absent fields |
| QueryCodec.StatsDecodeInto | x/burn/types/query.pb.go:944-1044 | decoding into a message keeps its value of every field left out |
| QueryCodec.StatsRoundTrip | x/burn/types/query.pb.go:593-1044 | leaving out zero and empty fields loses nothing for a fresh receiver, for every uint64 and string |
| QueryCodec.AccountRoundTrip | x/burn/types/query.pb.go:628-1208 | the same for the single string of the account query and its response |
| QueryCodec.TotalBurnsField | x/burn/types/query.pb.go:973-991 | a number replaces the present one, also an explicit zero |
| QueryCodec.TotalBurnedField | x/burn/types/query.pb.go:992-1023 | a string replaces the present one, also an empty one |
| QueryCodec.AccountField | x/burn/types/query.pb.go:1045-1208 | the same for the account query and its response |
| QueryCodec.QuerySamples | x/burn/types/query.pb.go:593-671 | the bytes of set fields, and none for zero and empty ones |
| QueryCodec.QueryBurnStatsResponse.Unmarshal | x/burn/types/query.pb.go:944-1044 | the loop leaves in the object what the decoding function gives, on success and on failure, with the same error |
| QueryCodec.QueryBurnStatsResponse.MarshalToSizedBuffer | x/burn/types/query.pb.go:593-611 | writes exactly Size bytes, which are the encoding, at the tail of the buffer |
| QueryCodec.AccountBurns.Unmarshal | x/burn/types/query.pb.go:1045-1208 | the same for the account query and its response |
| QueryCodec.AccountBurns.MarshalToSizedBuffer | x/burn/types/query.pb.go:628-671 | the same for the account query and its response |
| BurnKeeper.UpdateTrackers | x/burn/keeper/burn.go:54-74 | count, global total and the sender's total advance, and nothing else changes |
| BurnKeeper.BurnNative | x/burn/keeper/burn.go:38-52 | no effect for an amount that is not positive; otherwise the denomination check, the burn in the module account, the trackers |
| BurnKeeper.BurnFromAccount | x/burn/keeper/burn.go:12-23 | on success a single debit of the sender and of the supply; on failure trackers and supply are untouched, but after a wrong denomination or a refused burn the coins have moved |
| Bank.SendThenBurn | x/burn/keeper/burn.go:12-52 | sending coins to a module account and burning them there leaves that account as it was and is one debit of the sender |
| BurnKeeper.BurnFromModule | x/burn/keeper/burn.go:25-36 | the same with a module account as the sender, failures included |
| BurnKeeper.ProcessFeeBurn | x/burn/keeper/fee_burn.go:16-39 | burns the truncated percentage of the collector's native balance in the collector's name, unless the bank refuses; a failure leaves trackers and supply untouched |
| Acceptance.BurnCommitsIff | x/burn/keeper/msg_server.go:26-37 | a burn message commits if and only if its sender decodes, the amount is set, not negative and there, a positive one is native, and the bank agrees; then that amount leaves the sender and the supply, the trackers advance, and nothing else changes |
| Acceptance.BurnRefusals | x/burn/keeper/burn.go:12-52 | the error of a refused burn: amount, transfer, denomination, burn, in this order |
| Blocks.FeeBurnWithoutShare | x/burn/keeper/fee_burn.go:16-33 | without stored parameters the fee burn fails, and a negative share burns nothing |
| ValidatorKeeper.RegisterValidator | x/validator/keeper/keeper.go:76-149 | address checks, fund checks, burn and creation in that order, each with its error; if staking refuses, the burn is done |
| Acceptance.RegistrationCommitsIff | x/validator/keeper/keeper.go:76-149 | in every reachable state, a registration commits if and only if sender and operator are one account that is no validator, all three amounts are set and at least the stored ones in the stored denominations, the account holds the burn and then the self-delegation, and bank and staking agree; then every balance, the trackers and the validator set change by exactly that |
| Acceptance.RegistrationRefusals | x/validator/keeper/keeper.go:76-149 | the error of a registration refused before coins move, about the first thing wrong |
| ValidatorKeeper.RestrictedCreateValidator | x/validator/ante/staking_restriction.go:22-32 | creation at height 0 only |
| Acceptance.DirectCreationIff | x/validator/ante/staking_restriction.go:22-49 | a bare creation commits, through the router and through the precompile, if and only if the height is 0 and staking accepts it; later each way refuses with its error |
| Acceptance.BreakerIff | x/validator/ante/staking_restriction.go:42-49 | the circuit breaker stops this one message type, after genesis |
| ValidatorKeeper.Handle | x/burn/keeper/msg_server.go:26-54 | the message servers of both modules, parameter updates only by the authority and only with valid parameters |
| Acceptance.FeeParamsUpdateIff | x/burn/keeper/msg_server.go:40-54 | an update commits if and only if the authority signed a share between 0 and 10^18, stores that share and changes nothing else; otherwise its error |
| Acceptance.ValidatorParamsUpdateIff | x/validator/keeper/msg_server.go:35-52 | an update commits if and only if the authority signed and each requirement is zero of a valid denomination or positive and native; stores them and changes nothing else; otherwise its error |
| Acceptance.SendCommitsIff | app/config.go:57-63 | a plain transfer never reaches the blocked module accounts |
| Dispatch.Deliver | x/validator/ante/staking_restriction.go:34-49 | a message tree run on the context, each message asked of the circuit breaker first, commits what the tree function says or leaves no trace |
| Acceptance.FailureUndoesAll | x/validator/keeper/keeper.go:76-105 | a transaction whose messages run up to one that fails, fails with its error and changes nothing |
| Dispatch.ExecExplained | x/validator/ante/staking_restriction.go:22-49 | for trees of any depth, the events read off the messages account for supply, trackers and validators, and state validity is kept |
| Dispatch.MsgExplained | x/burn/keeper/msg_server.go:26-54 | what a message of the modelled servers did to supply, collector, trackers and validators is told by its events |
| History.DeedExplained | app/app.go:665-693 | the same for whatever another module does with coins or, by dropping one, with validators |
| Blocks.RunHooks | app/app.go:665-693 | hooks run in any given order on the context agree with the state function and stop at the first error |
| Blocks.RunBeginBlock | app/app.go:665-693 | the app's order, with other modules' hooks in their places; an error leaves no trace |
| Blocks.FeeBurnSucceedsIff | x/burn/keeper/fee_burn.go:16-39 | in a valid state the fee burn is floor(p * balance / 10^18) and fits the collector's balance; it succeeds if and only if there is nothing to burn or the bank goes along |
| Blocks.InflationFreeIff | app/app.go:665-693 | for an order of begin-block hooks, the fees burned are the same for every inflation, in every valid state and block, if and only if no fee burn comes after a mint |
| Blocks.InflationNotBurned | app/app.go:665-693 | in the app's order the fees burned do not depend on inflation |
| Blocks.HooksExplained | app/app.go:665-693 | the events of begin-block hooks in any order account for what they did |
| Blocks.DistributionTakes | app/app.go:665-693 | distribution leaves the collector what it does not ask for |
| Laws.HeightLaw | app/app.go:665-693 | over every run the height grows by the blocks that began |
| Runs.RunExplained | x/burn/keeper/burn.go:12-74 | every run from a valid state, with validators leaving and coins moving in any way, ends in a valid state that its log accounts for |
| Laws.BurnTouchesOnlySender | x/burn/keeper/burn.go:12-52 | a committed burn changes only the sender's native balance and the native supply; in particular the burn module's balance stays when it is not the sender |
| Laws.RegistrationLaw | x/validator/keeper/keeper.go:76-149 | in every reachable state, a committed registration reduces native supply by exactly the message's burn, which meets the stored minimum; both self-delegation fields meet theirs; sender and operator have the same bytes |
| Laws.ParametersAreTheLastUpdate | x/burn/keeper/msg_server.go:40-54 | over every run both parameter sets are those of the last update in the log, or the initial ones, and every update was signed by the authority and valid |
| Laws.TrackersRefineLog | x/burn/keeper/burn.go:54-74 | over every run, count (a wrapping uint64), global total and each account's total are the initial ones plus length, sum and per-sender sum of the burn log |
| Laws.Conservation | x/burn/keeper/burn.go:38-74 | over every run, native supply plus growth of the global total is the initial supply plus what other modules made, less what they destroyed |
| Laws.DiscrepancyConstant | x/burn/types/genesis.go:16-36 | the global total minus the sum of the account totals never changes |
| Laws.ValidatorTurnover | x/validator/ante/staking_restriction.go:22-49 | in every run, once a block has begun, each operator's membership and the number of validators change by registrations less leavings; all joinings are registrations, each of which met the stored minimums and had its burn right before it |
| Laws.EveryEntryPaid | x/validator/ante/staking_restriction.go:22-49 | in every run, once a block has begun, a step in which an operator enters the set, for the first time or again, holds a registration of that operator, paid for by the parameters then in force |
| Laws.EveryValidatorPaid | app/app.go:409-421 | whoever is a validator but was none at some point after the first block began has a paid registration after it |
| Laws.FeeBurnFailsOnlyIfRefused | x/burn/keeper/fee_burn.go:16-39 | in every reachable state parameters are valid and the fee burn fits the collector, and fails only if the bank refuses |
| Laws.ForeignRequirementAccepted | x/validator/types/params.go:33-55 | an update to a zero requirement in another valid denomination is accepted |
| Laws.ParamsNativeIff | x/validator/types/params.go:25-55 | in every reachable state the stored parameters are native if and only if neither requires zero of another denomination |
| Laws.ForeignRequirementBurnsNothing | x/validator/keeper/keeper.go:125-134 | under a burn requirement in another denomination a registration commits only with a zero burn and burns nothing |
| FeeBurn.BlockParts | app/app.go:665-693 | a block that goes through is other modules' deeds, the fee burn on what is then collected, and the rest |
| FeeBurn.FeeBurnArithmetic | x/burn/keeper/fee_burn.go:28-31 | with constant percentage p over n blocks whose balances sum to S, the burned total B satisfies p*S - n*10^18 < B*10^18 <= p*S |
| FeeBurn.OnlyFeesBurned | x/burn/keeper/fee_burn.go:12-39 | when distribution empties the collector every block, the burned total is at most the percentage of the initial collector balance and of what was paid in before the fee burns; inflation has no share |
| FeeBurn.FeeBurnsTracked | x/burn/keeper/burn.go:25-36 | fee burns are recorded under the fee collector's address, whose total grows by exactly the fees burned and what messages burned in its name |
| ByteOrder.OneListing | x/burn/keeper/genesis.go:60-70 | a set of keys has exactly one ascending listing, so an export is determined by the store |
| BurnGenesis.Validate | x/burn/types/genesis.go:16-36 | succeeds if and only if percentage, total and every record are valid; the error is about the first thing wrong |
| BurnGenesis.InitGenesis | x/burn/keeper/genesis.go:13-40 | stores parameters, count, a non-nil total and the records one after another; stops at the first address without bytes with everything before it stored |
| BurnGenesis.ExportGenesis | x/burn/keeper/genesis.go:43-81 | succeeds if and only if parameters are stored and every account has a text; lists the accounts in ascending byte order, with absent count and total as zero |
| BurnGenesis.LastRecordWins | x/burn/keeper/genesis.go:28-37 | an account has a total after the import exactly when it had one or a record names it; the last such record tells the total |
| BurnGenesis.ImportOver | x/burn/keeper/genesis.go:13-26 | over any store, an import sets share and count, keeps the total when the genesis has none, and reads a nil share as zero |
| BurnGenesis.ImportThenExport | x/burn/keeper/genesis.go:13-81 | the export of an imported genesis succeeds; it is strictly sorted by address bytes, names every account once, and reads nil totals as zero |
| BurnGenesis.ExportThenImport | x/burn/keeper/genesis.go:13-81 | importing an export into an empty store restores a store that reads the same |
| BurnGenesis.OneExport | x/burn/keeper/genesis.go:43-81 | stores that read the same have the same export, and a store has only one |
| BurnGenesis.FixpointIffNormal | x/burn/keeper/genesis.go:13-81 | a genesis comes back unchanged from import and export if and only if it has no nil numbers and its records are sorted by bytes under the codec's own texts |
| BurnGenesis.ValidAfterImport | x/burn/types/genesis.go:16-36 | the export of a valid imported genesis is valid |
| Restart.ValidatedGenesisStarts | x/burn/types/genesis.go:16-36 | a validated genesis is stored whole and gives a burn store that runs may start from |
| Restart.RunAlike | x/burn/keeper/keeper.go:85-107 | stores that differ only in an absent or a zero count or total lead to the same results over every run |
| Restart.RestartIsInvisible | x/burn/keeper/genesis.go:13-81 | after any run the store can be exported, the export is valid, and replacing the store by its import changes no later run |
| Restart.UnbalancedGenesisIsValid | x/burn/types/genesis.go:16-36 | a genesis with total 1 and no record is valid |
| Restart.TotalsAgreeIff | x/burn/types/genesis.go:16-36 | for a chain from a genesis that names each account once, after any run the global total is the sum of the account totals if and only if it was in the genesis |
| ChainId.FindPartsIff | cmd/monod/cmd/chain_id.go:17-29 | the matcher finds the parts p exactly when p is a valid split of the text |
| ChainId.SplitUnique | cmd/monod/cmd/chain_id.go:17-29 | a text has at most one valid split |
| ChainId.ParsePrinted | cmd/monod/cmd/chain_id.go:42-60 | parsing a printed identifier of at most 48 characters returns its id |
| ChainId.ParseIff | cmd/monod/cmd/chain_id.go:42-60 | parsing gives an id if and only if the text is a printed identifier with that id, of at most 48 bytes, inside white space |
| ChainId.PrintInjective | cmd/monod/cmd/chain_id.go:17-29 | name, id and epoch are determined by the printed text |
| ChainId.ParseIffValid | cmd/monod/cmd/chain_id.go:32-60 | parsing succeeds if and only if the trimmed text is a valid identifier |
| ChainId.ResolveIff | cmd/monod/cmd/mono_config.go:61-78 | a flag gives an id if and only if it is unregistered or empty and the id is the default, or its trimmed text is a valid identifier with that id and the id is below 2^64 |
| ChainId.Refusals | cmd/monod/cmd/chain_id.go:42-60 | an identifier is refused for its length, then for its form; a flag also for an id that does not fit |
| ChainId.SpacesAre | cmd/monod/cmd/chain_id.go:43 | the characters that trimming removes are the 25 white space characters of Unicode |
| ChainId.LengthSamples | cmd/monod/cmd/chain_id.go:44 | lengths count UTF-8 bytes |
| ChainId.PrintSample | cmd/monod/cmd/chain_id.go:17-29 | the printed form of mono, 6940 and 1 |

## Left out

- Fields.MergeLaw: success and the message are proved to agree, not the kind of error, because an overflow check on the index depends on where a field stands.
- QueryCodec.AccountBurns: one class stands for QueryAccountBurnsRequest and QueryAccountBurnsResponse, whose generated code is the same.
- Nested parameters and records are held as values by GenesisState and become objects while they are read or written; aliasing of Go slices is not modelled.
- The limits of math.Int and LegacyDec (256 and 315 bits), beyond which they panic: amounts are unbounded, and percentages are integers scaled by 10^18.
- The codecs of tx.pb.go, of the validator module's messages, and of the empty and parameter queries: the same algorithm over messages whose parts are outside the repository.
- Genesis files are JSON on disk; the JSON codec is not part of this model, so the laws of import and export are about genesis values.
- Events and telemetry of the keepers; store reads fail only by absence.
- Why staking drops a validator, and when: it may at any time in the model.
- FeeBurn.OnlyFeesBurned: that distribution empties the collector every block is assumed in the statement, because the distribution module is outside the repository.
- Validators created at height 0 need no burn, as in the code; the laws about paid entries start above it.
- Export for a restart from height zero, test network set-up, simulation, queries over gRPC, mempool, ante handlers and EVM wiring.
