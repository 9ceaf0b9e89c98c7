# Verified model of agents-go

A Dafny model of the parts of `ubtools/agents-go` whose guarantees are not visible in any one
function: the rate-limited client balancer with its concurrent reconnect loop, the in-place fixer of
JSON fields, the text and byte codecs for currencies, addresses and numbers, and the streaming of
blocks with their transfers. `dafny verify dfyconfig.toml` checks everything.

**The balancer.** `BalancerSpec` says on values what one call does; `Balancer` is the class with client
records in the heap, and every method is proved to change its abstract state exactly as `BalancerSpec` says.
`Interleaving` splits a connection round into its unlocked steps and lets selections and disconnects happen
between any two of them; `RateLimit`, `Rotation`, `Membership`, `Notifications` and `CallWait` prove what
holds over whole runs. `Figures` states selections with the numbers written out, `Announcement` compares
them with their comment. Time is in nanoseconds since Go's zero time, any integer, so that truncating to the
second rounds down to a multiple of 10^9; a clock that does not go back is assumed only where a statement
says `ClockFrom`, `EventClockFrom` or `s.lastUpdated <= now`. The dial outcomes, the clock readings, what
other goroutines do during a sleep or an operation, when the caller's context ends, and which operations end
in a connection error are parameters.

**The fixer.** `JsonFixes` and `FixRuns` work on trees; `JsonHeap` has the maps in the heap, a cursor and a
trailing parent pointer, and is proved to compute the walk of `JsonFixes`. The shape of the decoded tree (no
map shared) is a ghost argument. `HexFixes` has the fixers and their use on transactions.

**Codecs.** `Positional` is the arithmetic of big-endian numerals in any base, shared by `HexConv`,
`TronAddress` and `Calldata`; `Arithmetic` holds the facts about products and remainders. SHA-256 is a
parameter, any function to 32 bytes. Base58 is the usual one over the Bitcoin alphabet (value in base 58,
leading zero bytes as `1`), the library itself not being part of this model. `Currency` has the identifiers;
upper case is that of ASCII.

**Blocks.** `ListBlocks` models the range arithmetic in wrapping 64-bit words, the finality cut-off and the
stream; the node, the clock, the send outcomes and the order unspecified < unsafe < safe < finalized of the
statuses are given from outside. `BlockLogs` models the grouping of logs and the conversion to transfers.

## What the code does not do

Eight properties one might expect are false of the code. Each has an exact condition and a concrete case.

* The connected list need not agree with the connected flags after a connection round: a member that is
  disconnected after the round has copied it is published all the same. `RoundInSyncIff` says when the
  list is right, `StaleMemberBlocksReconnect` shows a client that is then not dialled again in any
  continuation without a disconnect.
* A status can be reported down twice (`DownIsReportedTwice`): `ReportsAlternateIff` says that reports alternate
  exactly while no disconnect takes out a client that is listed but already down.
* The comment at `commons/balancer/balancer.go:122` announces the first client in turn, from the last index on,
  that has tokens. Where the client at the index is empty, the code takes the fullest one instead.
  `CommentHoldsIff`: every selection is the one announced if and only if the balancer has at most two clients;
  `CommentIsNotFollowed` is a run that strays, for any larger number. `EvenFollows` shows that with equal limits
  and nobody coming or going the comment holds for any number.
* A caller that sleeps while only the reconnect loop is at work need not find the listed clients again: a round can
  empty the list (`LoneCallIsStranded`, in a state that `DesertionHappens` reaches). `LoneCallIsServedIff`: it is
  sure of a client if and only if the list is full or some client is up.
* A client can exceed its limit per second over a window of w seconds. `LimitHoldsIff`: it never does if and
  only if the window starts on a whole second. `WindowLimitIsReached` is a run with w + 1 times the limit, for
  every limit, every w and every other start; `LimitPerWindow` shows that no run has more.
* `FixField` succeeds where the value before the last key is a text, and overwrites a sibling
  (`StrayWriteExample`); `FixFieldIsUpdateIff` says when the code is the recursive update.
* The comment at `blockchain/currency.go:39` promises `ETH::0x…` for tokens on the mainnet, but printing drops
  the empty segment (`MainnetTokenIsMisprinted`); `PrintThenParse` is the exact condition.
* `ListBlocks` finds nothing when start plus count reaches 2^64 (`LargestCountFindsNothing`);
  `RangeIsAskedForIff` is the exact condition.

## Model

| member | source | states |
|---|---|---|
| BalancerSpec.SelectionRule | commons/balancer/balancer.go:145-172 | a selection returns the client under the cursor if it has tokens, else the leftmost of those with most tokens, and nobody exactly when no connected client has a token after the refill step |
| BalancerSpec.SelectionEffect | commons/balancer/balancer.go:127-153 | the whole new state of a selection: refill of connected clients only, one token paid, index moved only by a client found under the cursor |
| Figures.RefillInFigures | commons/balancer/balancer.go:134-153 | a second or more after the last update, 10^9 nanoseconds, each connected client has its limit, or 2^63 - 1 tokens for limit 0, less the one selected; before, buckets and last update stay |
| Figures.IndexInFigures | commons/balancer/balancer.go:128-150 | an index past the list starts over at 0; the client at the index goes first while it has tokens and moves the index on, wrapping at the end |
| Figures.DisconnectEffect | commons/balancer/balancer.go:106-119 | a disconnect takes the client out of the list, sets its flag down and reports it, and touches neither buckets nor index nor last update |
| Announcement.CommentHoldsIff | commons/balancer/balancer.go:121-173 | over all limits of n clients, all runs and all times, every selection returns the first client with tokens in turn from the index, as the comment says, if and only if n is at most two |
| Announcement.CommentIsNotFollowed | commons/balancer/balancer.go:145-172 | for every number of clients above two, a run after which the comment announces client 2 and the code takes client 0 |
| Announcement.EvenFollows | commons/balancer/balancer.go:121-173 | with equal limits and nobody coming or going every selection is the one announced |
| Balancer.ClientBalancer.constructor | commons/balancer/balancer.go:44-54 | records numbered in order, down, with the limit in the bucket |
| Balancer.ClientBalancer.Start | commons/balancer/balancer.go:60-65 | last update at the whole second, then one connection round |
| Balancer.ClientBalancer.ConnectClients | commons/balancer/balancer.go:79-104 | the heap round, with its length test, visits and publish, is the round on values |
| Balancer.ClientBalancer.MarkDisconnected | commons/balancer/balancer.go:106-119 | exactly the client with that index leaves the list, is flagged down and reported; otherwise nothing changes |
| Balancer.ClientBalancer.SelectClient | commons/balancer/balancer.go:124-173 | the nested loops over heap records refine the one-step selection; no index out of range and no division by zero |
| Balancer.ClientBalancer.ScanClients | commons/balancer/balancer.go:145-172 | only the first turn of the outer loop ever selects |
| Balancer.ClientBalancer.Call | commons/balancer/balancer.go:188-199 | one selection, the operation, and the client dropped on a connection error |
| Balancer.ClientBalancer.CallW | commons/balancer/balancer.go:203-223 | the waiting loop terminates for every context that ends, by deadline or cancellation, is the waiting loop on values, and reports what ended the context exactly when it found no client |
| Interleaving.InterleavingIsSafe | commons/balancer/balancer.go:79-119 | in every interleaving the list is duplicate free and in index order, and no client flagged connected is missing from it between rounds |
| Interleaving.RoundInSyncIff | commons/balancer/balancer.go:79-119 | a round leaves list and flags in agreement if and only if no member it had already copied was disconnected meanwhile |
| Interleaving.RaceFreeStaysInSync | commons/balancer/balancer.go:79-119 | over whole interleavings without such a disconnect the list is always the flagged clients |
| Interleaving.StaleMemberBlocksReconnect | commons/balancer/balancer.go:79-104 | after a race between two clients one of them is listed and down, and stays so in every continuation without a disconnect |
| Interleaving.FullListIsNotRepaired | commons/balancer/balancer.go:79-104 | once the list is as long as the balancer has clients, no step but a disconnect changes list or flags, stale members included |
| Interleaving.UninterruptedRound | commons/balancer/balancer.go:79-104 | left alone, the steps of a round amount to the atomic round |
| Interleaving.RunIsInterleaving | commons/balancer/balancer.go:67-119 | every run of whole calls is one of the interleavings |
| RateLimit.TokensAreConserved | commons/balancer/balancer.go:134-153 | in every interleaving, with any clock, bucket plus selections since the last refill is what that refill granted, so a limited client never exceeds its limit between refills |
| RateLimit.GrantIsLimit | commons/balancer/balancer.go:134-153 | in every interleaving bucket plus selections since the refill is the limit, or 2^63 - 1 for limit 0 |
| RateLimit.UnlimitedServesAll | commons/balancer/balancer.go:137-141 | once refilled, a connected client of limit 0 has every selection served, at any time and in every interleaving, for 2^63 - 1 selections |
| RateLimit.UnlimitedOnlyOnceRefilled | commons/balancer/balancer.go:47-47 | a client with limit 0 is not selected before the first refill that sees it connected |
| RateLimit.LimitPerSecond | commons/balancer/balancer.go:135-143 | with a non-decreasing clock no whole second sees more selections of a client than its limit |
| RateLimit.LimitPerWindow | commons/balancer/balancer.go:135-153 | with a non-decreasing clock any window of w seconds sees at most w + 1 times the limit, in every interleaving |
| RateLimit.CallsKeepTheLimit | commons/balancer/balancer.go:60-173 | the same for every run of the balancer's own calls from Start on |
| RateLimit.WaitingCallsKeepTheLimit | commons/balancer/balancer.go:203-223 | the same for a waiting call, after any run and with whatever others do in its sleeps and during its operation |
| RateLimit.WindowLimitIsReached | commons/balancer/balancer.go:135-143 | that bound is reached: for every limit, every w and every start that is no whole second, a run of one client with exactly w + 1 times the limit |
| RateLimit.LimitHoldsIff | commons/balancer/balancer.go:135-153 | w times the limit holds over a window of w seconds, for all clients, limits and runs with a non-decreasing clock, if and only if the window starts on a whole second |
| Rotation.WorkIsConserved | commons/balancer/balancer.go:145-172 | without refill, exactly the first sum-of-buckets selections succeed, and by then each client was chosen exactly as often as its bucket said |
| Rotation.EqualLimitsRotate | commons/balancer/balancer.go:127-170 | with equal limits the k-th success goes to the k-th position after the start, through any refills, and counts differ by at most one |
| Rotation.EvenSelect | commons/balancer/balancer.go:145-170 | with equal limits the fullest-bucket fallback never selects anyone |
| Rotation.TurnIsModular | commons/balancer/balancer.go:148-148 | the k-th position after the start is (start + k) mod n |
| Rotation.StartIsEqual | commons/balancer/balancer.go:44-65 | a freshly started balancer with equal limits meets the condition of EqualLimitsRotate |
| Rotation.RefillIsEqual | commons/balancer/balancer.go:134-144 | so does one that has just been refilled |
| Membership.MembershipIsExact | commons/balancer/balancer.go:79-119 | when calls do not overlap, the list is always the flagged clients in order, and each client's reports alternate from up and end at its flag |
| Membership.StartEffect | commons/balancer/balancer.go:44-65 | starting connects exactly the clients dialled, at the last whole second, with the limits as tokens and the index at 0 |
| Notifications.ReportsAlternateIff | commons/balancer/balancer.go:79-119 | in an interleaving each client's reports alternate from up and end at its flag if and only if no disconnect took out a listed client that was already down |
| Notifications.RaceFreeReportsAlternate | commons/balancer/balancer.go:79-119 | in particular in every interleaving in which no round has a member disconnected that it had copied |
| Notifications.DownIsReportedTwice | commons/balancer/balancer.go:106-119 | after such a race the stale client can be reported down again |
| Membership.ConnectEffect | commons/balancer/balancer.go:79-104 | an undisturbed round connects exactly the clients that were up or could be dialled, and leaves buckets and index alone |
| Membership.LengthTestIsSound | commons/balancer/balancer.go:80-82 | when the lengths agree every client is up and the skipped round would have changed nothing |
| CallWait.CallOutcome | commons/balancer/balancer.go:188-199 | no upstream is reported exactly when no connected client has a token; a client whose operation broke is disconnected, and only it |
| CallWait.UnbrokenCall | commons/balancer/balancer.go:188-199 | a call whose operation does not break disconnects nobody: it leaves what the selection and the others did |
| CallWait.BrokenCall | commons/balancer/balancer.go:188-199 | a call whose operation breaks amounts to its selection, what the others did, and a disconnect of its client |
| CallWait.SleepsAreBounded | commons/balancer/balancer.go:203-216 | whatever others do, the number of sleeps is bounded by the seconds to the end of the context, and a call without client returns no earlier than that |
| CallWait.LoneCallSleepsOnce | commons/balancer/balancer.go:203-216 | with any connection rounds of the reconnect loop beside it, a list that no round will empty and a clock that did not go back, a call sleeps at most once, and fails exactly if its first selection does and the sleep runs into the end of the context |
| CallWait.LoneCallInFigures | commons/balancer/balancer.go:203-216 | under the same conditions a caller that found nobody is served 10^9 nanoseconds later, plus what the sleep overran, if that is before the end, and otherwise fails, at the end itself when that cuts the sleep short |
| CallWait.LoneCallIsServedIff | commons/balancer/balancer.go:79-104 | a call that has to sleep is sure to get a client, whatever the reconnect loop does, if and only if the list is full or some client is flagged up |
| CallWait.LoneCallIsStranded | commons/balancer/balancer.go:79-104 | otherwise it fails when each sleep sees one round whose dials all fail |
| CallWait.DesertionHappens | commons/balancer/balancer.go:79-119 | an interleaving of two clients that ends in such a state, with one of them listed |
| CallWait.CallWIsRun | commons/balancer/balancer.go:203-223 | a waiting call is a run of whole selections and at most one disconnect, interleaved with what the others do |
| CallWait.EmptyListTimesOut | commons/balancer/balancer.go:203-216 | with nobody connected, and others selecting and disconnecting but not reconnecting, a call fails, and not before its context has ended |
| CallWait.EmptyListEndsOnTime | commons/balancer/balancer.go:203-216 | without overruns it fails exactly at the end of its context, after one sleep for each second begun |
| JsonHeap.FixFieldInPlace | commons/fixer.go:55-87 | the cursor loop on heap maps gives the tree of the walk on values, and an error leaves every map unchanged |
| JsonHeap.FixJsonFields | commons/fixer.go:34-52 | the run in place gives the tree of the run on values, or its first error |
| JsonHeap.PlanIsFix | commons/fixer.go:58-84 | one write into one map of an unshared tree is the functional update at its path |
| JsonFixes.FixFieldIsUpdateIff | commons/fixer.go:55-87 | the code is the recursive update, with missing fields reported alike, if and only if the value before the last key is not a text the fixer accepts |
| JsonFixes.UpdateChangesOnlyLeaf | commons/fixer_test.go:32-72 | the recursive update fixes the leaf and leaves every other path as it was |
| JsonFixes.ErrorsTellWhy | commons/fixer.go:55-82 | a missing field is named by the path up to the first missing key, a value that is no object by the path through it, and other errors concern the leaf or the value taken for it |
| JsonFixes.StrayWriteExample | commons/fixer.go:67-84 | such a text makes the code overwrite a sibling field |
| FixRuns.FixesInAnyOrder | commons/fixer.go:34-50 | over independent paths, none with a text the fixer accepts before its last key, every order of the fixes gives the same tree, and fails if any other does |
| FixRuns.FixesTwice | commons/fixer.go:34-50 | over such paths, with idempotent fixers, a second run changes nothing |
| FixRuns.RunEffect | commons/fixer.go:34-52 | over such paths a run succeeds exactly if every fix could be made alone, missing fields being skipped only on request; then each path holds its fixed text and independent paths are as they were |
| FixRuns.FirstErrorIsReturned | commons/fixer.go:34-50 | any run that fails returns the error of the first fix that failed and was not skipped |
| FixRuns.UpdatesCommute | commons/fixer_test.go:32-72 | updates at independent paths neither help nor hinder each other and commute |
| HexFixes.TrimLeftStrZeros | commons/fixer.go:108-116 | the loop drops exactly the leading zeros |
| HexFixes.StrippedIsQuantity | commons/fixer.go:98-124 | every prefixed string comes out in Quantity form, others are left alone, fixed points are exactly the Quantity forms, and stripping is idempotent |
| HexFixes.StrippedPrefixes | commons/fixer.go:104-124 | the prefix 0X counts as one and comes out as 0x |
| HexFixes.StrippingKeepsValue | commons/fixer.go:118-124 | the numeric value does not change, no digits counting as zero |
| HexFixes.StrippedIsCanonical | commons/fixer.go:118-124 | with lower-case digits the result is the one Quantity text of the number |
| HexFixes.TxFixesCommuteAndSettle | agents/eth/types/block.go:19-23 | the four transaction fixes may run in any order and settle in one run, on any transaction |
| HexFixes.TxFixesEffect | agents/eth/types/block.go:19-26 | the run fails exactly if one of the four fields is present and no text, and else strips exactly those fields |
| HexFixes.TxFieldsByName | agents/eth/types/block.go:18-26 | these fields are nonce, r, s and v |
| TronAddress.AlphabetLetter | blockchain/trx/trx.go:34-34 | the letter of each digit is the one the Bitcoin alphabet lists at that place |
| TronAddress.EncodeThenDecode | blockchain/trx/trx.go:34-34 | Base58 decoding undoes encoding on all byte strings, leading zeros included |
| TronAddress.DecodeThenEncode | blockchain/trx/trx.go:68-71 | encoding undoes decoding on every string that decodes |
| TronAddress.EncodedNumber | blockchain/trx/trx.go:34-34 | the letters stand for the number of the bytes, with as many leading ones as there were leading zero bytes |
| TronAddress.AddressRoundTrip | agents/trx/server.go:36-49 | every 20-byte address prints to a string that validates and reads back as that address |
| TronAddress.ReadThenPrint | agents/trx/server.go:36-49 | a string that can be read prints back as itself if and only if it validates |
| TronAddress.ValidIffPrinted | blockchain/trx/trx.go:67-93 | the strings that validate are exactly the printed addresses |
| TronAddress.AddressBeginsWithT | agents/trx/server.go:44-49 | every address prints as 34 characters beginning with T, for any hash |
| TronAddress.ValidBeginsWithT | blockchain/trx/trx.go:67-93 | so does every string that validates |
| TronAddress.PrintedBytes | blockchain/trx/trx.go:22-35 | behind a printed address are 0x41, the account and four bytes of its hash hashed again |
| TronAddress.ReadFails | agents/trx/server.go:36-43 | reading errs exactly on foreign letters and panics exactly below 24 bytes |
| Currency.PrintThenParse | blockchain/currency.go:45-98 | parsing a printed id gives its normal form if and only if no part holds a colon and the network is named or nothing follows it, for all ids |
| Currency.NormalIdRoundTrip | blockchain/currency.go:81-98 | the same for ids in normal form, which then come back themselves |
| Currency.ParsedIsNormal | blockchain/currency.go:45-71 | parsing succeeds exactly with at most three colons and gives a normalised id of colon-free parts |
| Currency.ParseThenPrint | blockchain/currency.go:45-98 | which accepted strings are printed back unchanged |
| Currency.MainnetTokenIsMisprinted | blockchain/currency.go:36-39 | the documented mainnet form parses, but its printed form parses to another network |
| Currency.MainnetIsNoNetwork | blockchain/currency.go:34-63 | naming MAINNET as the network, in whatever case, parses like naming none; other networks are kept in upper case |
| Currency.ChainCurrencyPrintThenParse | blockchain/currency.go:108-130 | an id within a chain survives printing and parsing if and only if its components hold no colon |
| Currency.ChainCurrencyPrintInjective | blockchain/currency.go:124-130 | printing such ids is injective |
| Currency.ChainCurrencyParseThenPrint | blockchain/currency.go:108-130 | strings with at most one colon are accepted, and printed back exactly if they do not end in one |
| HexConv.FromHexValue | commons/conv/hexconv/hexconv.go:9-17 | the bytes stand for the number of the digits, with or without prefix, for either parity |
| HexConv.HexAlphabet | commons/conv/hexconv/hexconv.go:36-56 | digit d is the d-th of 0-9a-f in either case, and printed in lower case |
| HexConv.OnlyHexCharacters | commons/conv/hexconv/hexconv.go:36-38 | there are no other hex characters |
| HexConv.DecodedPrefix | commons/conv/hexconv/hexconv.go:59-62 | decoding keeps the bytes before the first malformed pair |
| HexConv.PrefixesAndParity | commons/conv/hexconv/hexconv.go:9-33 | a prefix in either case makes no difference, nor does a zero in front of an odd number of digits |
| HexConv.Hex2BytesFixed | commons/conv/hexconv/hexconv.go:65-76 | exactly flen bytes that hold the decoded number modulo 256^flen |
| HexConv.RightPadBytes | commons/conv/hexconv/hexconv.go:88-97 | the slice in front, the number shifted by the bytes added |
| HexConv.LeftPadBytes | commons/conv/hexconv/hexconv.go:100-109 | the length asked for and the same number |
| HexConv.TrimLeftZeroes | commons/conv/hexconv/hexconv.go:112-120 | the shortest byte string of the same number |
| HexConv.TrimRightZeroes | commons/conv/hexconv/hexconv.go:123-131 | the longest prefix not ending in zero, and the number it was shifted from |
| HexConv.ParsedValue | commons/commons.go:12-22 | accepted are exactly non-empty hex texts below 2^64 once every "0x" is removed, with the number they stand for; larger numbers are out of range |
| HexConv.FirstFailure | commons/commons.go:17-20 | the error is decided by the first position at which a character is no digit or the number reaches 2^64 |
| HexConv.UpperPrefixIsRefused | commons/commons.go:14-20 | a text with the prefix 0X is a syntax error |
| HexConv.PrintThenParse | commons/commons.go:12-40 | every 64-bit number survives printing and parsing, and no larger one is accepted |
| HexConv.PrefixIgnoredAnywhere | commons/commons.go:12-22 | a "0x" among the digits is ignored wherever it stands |
| HexConv.ParseThenPrint | commons/commons.go:12-40 | a string that parses prints back unchanged exactly if it was in lower-case Quantity form |
| HexConv.Uint256RoundTrip | commons/conv/uint256conv/uint256conv.go:15-30 | a number comes back from the wire if and only if it is in 0 .. 2^256 - 1, in at most 32 bytes without leading zeros |
| HexConv.SignIsLost | commons/conv/uint256conv/uint256conv.go:15-30 | a negative number of any size is sent as its absolute value; no number is no message, both ways |
| HexConv.Uint256DataRoundTrip | commons/conv/uint256conv/uint256conv.go:15-30 | wire data of any length comes back as its shortest form if its value is below 2^256, and is too large otherwise |
| Calldata.TransferCalldata | agents/eth/server/construct.go:64-69 | the assembled bytes are the call of transferring the number the amount bytes stand for |
| Calldata.TransferDecodes | agents/eth/server/construct.go:64-69 | the call has 68 bytes if and only if the amount is below 2^256, and then decodes to recipient and amount |
| ListBlocks.ListBlocks | agents/eth/server/server.go:187-251 | the request loop and the stream loop send the longest deliverable prefix of the range and return why they stopped, for every outcome of the node, the clock and the sends |
| ListBlocks.StreamIsUnique | agents/eth/server/server.go:223-250 | that determines what is sent and returned |
| ListBlocks.StreamIsLongestPrefix | agents/eth/server/server.go:196-250 | when the node and the sends do not fail over the range, it is the longest prefix that meets the finality asked for, out of range being returned exactly when it is empty, every block is sent when any finality will do, and an honest node's blocks arrive numbered from the start number on |
| ListBlocks.RangeIsAvailableIff | agents/eth/server/server.go:196-206 | the range is what was asked for and exists if and only if neither 64-bit sum wraps or the start is past the top; when one wraps nothing is sent |
| ListBlocks.RangeIsAskedForIff | agents/eth/server/server.go:196-206 | with n the count of the request, or ten for none or zero: the computed range is start <= b <= top and b < start + n if and only if neither start + n nor top + 1 reaches 2^64 or the start is past the top |
| ListBlocks.StreamIsWhatWasAskedFor | agents/eth/server/server.go:196-250 | the stream stays within those n blocks and sends them all unless one is not final enough |
| ListBlocks.FailuresEndTheStream | agents/eth/server/server.go:191-218 | errors of the top block and the batch are returned with nothing sent, a start past the top being reported before the batch is made |
| ListBlocks.FirstFailureIsReturned | agents/eth/server/server.go:223-248 | the first block that cannot be fetched, converted or sent ends the stream with that error; one not final enough ends it well unless it is the first |
| ListBlocks.NoFailureBefore | agents/eth/server/server.go:223-248 | every block sent had been fetched and sent without an error |
| ListBlocks.ArgumentIsSigned | agents/eth/server/server.go:211-211 | the node is asked for the signed 64-bit number with the same bits |
| ListBlocks.LargestCountFindsNothing | agents/eth/server/server.go:196-206 | the largest count from block 1 finds nothing on any chain |
| ListBlocks.NothingLaterQualifies | agents/eth/server/block.go:28-39 | with block times that do not decrease over the range, none of the blocks that were not sent would have met the finality at the cut-off moment |
| ListBlocks.FinalityByAge | agents/eth/server/block.go:26-39 | past 648 seconds a block is final and past 384 safe, on Tron past 81 and 57, each by its own reading of the clock |
| BlockLogs.GroupLogs | agents/eth/server/block.go:51-61 | every group is the order-preserving selection of the logs with its index |
| BlockLogs.FilterKeepsOrder | agents/eth/server/block.go:51-61 | a group or selection reads the logs at ascending positions, all those that qualify |
| BlockLogs.ConvertERC20Transfer | agents/eth/server/transaction.go:75-104 | the Transfer logs, decoded, in log order |
| BlockLogs.EthBlockToProto | agents/eth/server/block.go:76-90 | each transaction gets its native transfer if any and then exactly its Transfer logs in log order; the native transfers of a block move exactly what its transactions move |
| BlockLogs.LedgerBalances | agents/eth/server/transaction.go:62-73 | for every account, native amounts reported to it less those reported from it are the values sent to it less those it sent; each transaction of positive value has one native transfer, in front, and all its transfers carry its id |
| BlockLogs.EventIsReported | agents/eth/server/transaction.go:75-104 | the log of a token transfer is recognised and reported with its sender, recipient, token, amount and id |
| BlockLogs.NativeAmount | agents/eth/server/transaction.go:62-73 | a native transfer carries the value of its transaction, without leading zeros, from sender to receiver |
| BlockLogs.LogsAreConservedIff | agents/eth/server/block.go:51-88 | together the transactions report each Transfer log that belongs to them exactly as often as it occurs, if and only if no such log has an index listed twice |
| BlockLogs.EveryLogReportedOnce | agents/eth/server/block.go:51-88 | with distinct indices every Transfer log of a listed transaction is reported once, under that transaction |
| BlockLogs.TransferTopic | agents/eth/server/transaction.go:78-78 | the suffix test on the printed topic compares the whole topic |

## Left out

- Connection handles: a client is its index; the handle a dial stores and passes to operations is not kept.
- The backing array of the connected slice: the list is a sequence, so the in-place shift of markDisconnected is not seen.
- A round's flag write and its status callback are one step in the interleavings, and memory is sequentially consistent.
- In `CallWait` what others do during a sleep or an operation is a run of whole calls; a round that is split over several sleeps appears in the interleavings only.
- `GetLimitRps` is a constant of the client, as in the repository's own dialer.
- `CallW` with a context that never ends, neither by a deadline nor by cancellation.
- `Close`, `CallEveryUpstream` and the timer of the reconnect loop; the loop appears as steps that may happen at any time.
- JSON text: the fixer starts from a decoded tree; arrays, numbers, booleans and null are opaque, fixes are typed pairs.
- The recursive form in the repository's tests decodes a null leaf as an empty text, and a null before the last key as an empty object, in which the field is missing; here a null is neither.
- `FixerZeroHash`, nil string pointers and the decoding after the fixes.
- Base58, Keccak and SHA-256 internals, key handling and signing.
- Negative lengths passed to the fixed-length hex function, on which the original panics.
- Loading of logs and blocks, gas, nonces and fees, and every other field of blocks and transactions.
- Uniqueness of transfer ids: two token transfers of one transaction have the same id.
- gRPC services, proxy, command line, configuration, account manager, PKCS 11, caches and contract bindings.
