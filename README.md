# TurtleCoin pool-height bot: a Dafny model of its core

The bot watches a registry of TurtleCoin mining pools. It polls each pool's
`stats` endpoint for the block height the pool reports and publishes the
median of those heights as the network's height. It also answers three chat
commands: `.heights`, `.help` and `.height`. This project models the logic
of `Bot.go` that turns data into those answers, and proves what that logic
guarantees:

- **Registry** (`registry.dfy`). `Pools.UnmarshalJSON` performs the in-place
  swap on each parsed `*Pool`: the decoded `Url` (read from the entry's
  `url` field) becomes the `Api`, and the map key becomes the `Url`. `GetPools` runs it on a fresh map.
  `GetPoolHeight` fetches `<api>stats` through an abstract `download`.
  `GetHeights` polls every pool and keeps the successes, keyed by `Url`.
- **Height parsing** (`stats.dfy`). This is a direct scan equivalent to the
  pattern `.*"height":(\d+).*` under Go's leftmost-first regexp
  semantics. The match is on the first line holding a `"height":` directly
  followed by a digit, and the capture is the last such token on that line,
  with its whole digit run. After that comes `strconv.Atoi` on 64-bit `int`.
- **Aggregation** (`aggregator.dfy`, `sorting.dfy`, `goint.dfy`).
  `getValues` collects a map's values. `median` sorts in place and takes the
  middle element, or the truncated mean of the two middle elements. The
  reference definition is `MedianOf`, the middle of the unique ascending
  arrangement `SortSeq`. The properties proved about it: it does not depend
  on input order, it lies between the least and the greatest height, and it
  splits the input in half.
- **Commands** (`commands.dfy`). `MessageCreate` is the exact, case-sensitive
  dispatch of `messageCreate`.

`int` in Go is taken to be 64 bits wide (`GoInt.Int64`). Where the source
wraps around, the model says so explicitly (`GoInt.Wrap`).

Where the code does less or other than it advertises, the model follows the
code:

- The `.help` text (Bot.go:117-122) lists `.height <pool>` and
  `.claim <pool>`, but neither is implemented. Both get no reply
  (`Commands.ArgumentCommandsIgnored`).
- The height is not simply the first `"height":` in the body. It is located
  by the regexp's line-based, last-on-line rule
  (`Stats.ParseHeightExampleLastOnFirstLine`).
- The mean of the two middle heights is computed in 64-bit arithmetic and
  can overflow (see Findings).

## Model

| member | source | states |
|---|---|---|
| GoInt.Wrap | Bot.go:156 | The 64-bit two's-complement result of an `int` addition: it is congruent to the exact value mod 2^64, in range, and equal to the exact value when that fits |
| GoInt.Half | Bot.go:156 | Go's `x / 2`: rounds toward zero for both signs, never Dafny's floor |
| GoInt.HalfOfSumBetween | Bot.go:155-157 | The truncated mean of two ordered values lies between them |
| Sorting.Insert | Bot.go:150 | Inserting into a sorted sequence keeps it sorted, adds exactly one occurrence of the element, and every element is bounded below by the new one or the old head |
| Sorting.InsertionSort | Bot.go:150 | A sorted permutation of the input exists |
| Sorting.SortSeq | Bot.go:150 | The ascending arrangement that `sort.Ints` leaves: sorted, same multiset, same length |
| Sorting.SortedHeadIsLeast | Bot.go:150 | The head of a sorted sequence is at most every element |
| Sorting.TailOf | Bot.go:150 | The tail of a sorted sequence is sorted and holds the multiset minus the head |
| Sorting.SortedHeads | Bot.go:150 | Two sorted permutations of each other have the same first element |
| Sorting.ConsEqual | Bot.go:150 | Sequences with equal heads and equal tails are equal |
| Sorting.SortedUnique | Bot.go:150 | Two sorted sequences with the same multiset are equal, so the sorted result is determined by the input's contents |
| Sorting.SortedPermutationIsSortSeq | Bot.go:150 | Any sorted permutation of the input is `SortSeq` of it |
| Sorting.SortInts | Bot.go:150 | Sorts the array in place: the result is ascending and a permutation of the old contents |
| Aggregator.Count | Bot.go:149-160 | The number of elements satisfying a predicate is at most the length |
| Aggregator.CountConcat | Bot.go:149-160 | Counting distributes over concatenation |
| Aggregator.CountPermutation | Bot.go:149-160 | Counts depend only on the multiset, not on order |
| Aggregator.CountAll | Bot.go:149-160 | A predicate that holds everywhere counts every element |
| Aggregator.CountPrefix | Bot.go:152-153 | In a sorted sequence, everything up to a position is at most the element there |
| Aggregator.CountSuffix | Bot.go:152-153 | In a sorted sequence, everything from a position on is at least the element there |
| Aggregator.Middle | Bot.go:152-157 | The value `median` reads off its slice: whenever the two middle elements are in order, it lies between them |
| Aggregator.MiddleAsWritten | Bot.go:152-157 | The same with Go's wrapping 64-bit sum: for an even length it is always a 64-bit value, and it equals `Middle` whenever the middle sum fits in 64 bits |
| Aggregator.MedianOf | Bot.go:149-160 | The intended median, `Middle` of the ascending arrangement: some height is at most it and some height is at least it, and for an odd count it is one of the heights |
| Aggregator.MedianAsWritten | Bot.go:149-160 | The median as written, with the wrapping sum: for an odd count it equals the intended median |
| Aggregator.MedianOfSortedArrangement | Bot.go:150-157 | For any sorted permutation `t` of the input, the median is `t[n/2]` for odd `n`, and the truncated mean of `t[n/2-1]` and `t[n/2]` for even `n` |
| Aggregator.MedianOrderIndependent | Bot.go:150 | Two inputs with the same multiset of heights have the same median, so map iteration order cannot change it |
| Aggregator.Reversed | Bot.go:150 | Reversal keeps the length and mirrors the indices |
| Aggregator.ReversedPermutation | Bot.go:150 | Reversal is a permutation |
| Aggregator.MedianOfReversed | Bot.go:150 | Reversing the input leaves the median unchanged |
| Aggregator.MiddleSplitsSorted | Bot.go:152-157 | In a sorted sequence, at least half the elements are at most the middle and at least half are at least it |
| Aggregator.MedianSplitsInput | Bot.go:149-160 | At least ceil(n/2) heights are at most the median and at least ceil(n/2) are at least it; for odd `n` the median is one of the heights |
| Aggregator.MedianInRange | Bot.go:149-160 | For any bounds `lo` and `hi` on every height, the median lies within them; so it lies between the least and the greatest height, and the median of 64-bit heights is a 64-bit value |
| Aggregator.AsWrittenBelowTwoTo62 | Bot.go:156 | For non-negative heights below 2^62 (every realistic block height), the as-written median equals the intended one |
| Aggregator.MedianOverflowWitness | Bot.go:156 | On heights [2^62, 2^62] the as-written median is -2^62, while the intended median is 2^62 |
| Aggregator.MedianOfSortedSmall | Bot.go:152-157 | Worked cases for one to four sorted heights: the middle one, or the truncated mean of the middle two |
| Aggregator.Median | Bot.go:149-160 | Sorts the slice in place (ascending, a permutation of the old contents) and returns `MedianOf` of the old contents |
| Aggregator.KeysWithRemove | Bot.go:142-144 | Removing a key drops it from the keys with its own value and from no other |
| Aggregator.ValueBag | Bot.go:139-147 | The multiset of a map's values: one occurrence per key, holding exactly the map's values, each value occurring as often as there are keys mapping to it |
| Aggregator.ValueBagRemove | Bot.go:142-144 | Removing a key removes exactly one occurrence of its value |
| Aggregator.GetValues | Bot.go:139-147 | Returns one value per key, and the values collected are exactly the map's values with multiplicity, in some order |
| Aggregator.AggregateHeight | Bot.go:52 | The published height `median(getValues(heights))`: for any order in which the values may be collected, the result is the median of those values |
| Stats.TokenAt | Bot.go:197 | A `"height":` starting at a position and directly followed by a digit, the only text `"height":(\d+)` can match |
| Stats.IsSelected | Bot.go:197-199 | The token the capture group binds under leftmost-first matching: every earlier token is on its line, and no later token is |
| Stats.TokenShape | Bot.go:197 | A `"height":` token has its quote, letters and colon at fixed offsets, so two tokens cannot overlap in a way that matters |
| Stats.FirstToken | Bot.go:197-199 | Returns the first token at or after a position, or reports that there is none |
| Stats.LastOnLine | Bot.go:197-199 | From a token, returns the last token on the same line (no newline between the two) |
| Stats.FindHeightToken | Bot.go:197-201 | Finds the token the pattern's capture group binds, and returns `None` exactly when the body has no `"height":` followed by a digit |
| Stats.SelectedUnique | Bot.go:197-199 | At most one position is the captured token |
| Stats.DigitsEnd | Bot.go:197-199 | `\d+` is greedy: returns the end of the maximal run of ASCII digits from a position |
| Stats.CapturedDigits | Bot.go:197-199 | The captured group is a non-empty run of digits |
| Stats.DecimalValue | Bot.go:206 | The number a digit string denotes, leading zeros allowed, as `strconv.Atoi` reads it |
| Stats.DecimalValueZero | Bot.go:206 | A digit string denotes zero exactly when all its digits are `0` |
| Stats.Decimal | Bot.go:206 | The decimal spelling of a natural number is a non-empty digit string with no leading zero |
| Stats.DecimalRoundTrip | Bot.go:206 | Reading back the decimal spelling of `n` gives `n` |
| Stats.Atoi | Bot.go:206-211 | `strconv.Atoi` on a digit run: the value when it fits in 64 bits, otherwise the conversion error |
| Stats.AtoiOfDecimal | Bot.go:206-211 | Converting the decimal spelling of `n` gives `n` exactly when `n` fits in 64 bits |
| Stats.ParseHeight | Bot.go:197-213 | The parse half of `getPoolHeight`: it reports "couldn't parse height" exactly when there is no token; otherwise it returns the `Atoi` of the captured digits, which is non-negative when it succeeds |
| Stats.ParseHeightOfSelected | Bot.go:197-213 | Whatever token the pattern selects, the result is `Atoi` of its digit run |
| Stats.OnlyTokenSelected | Bot.go:197-199 | In a body with no quote outside one `"height":<digits>`, that token is the one the pattern captures |
| Stats.CapturedAfterToken | Bot.go:197-199 | The captured group after a token is exactly its digits when the text after them does not start with a digit |
| Stats.ParseSingleToken | Bot.go:197-213 | A body with one `"height":<digits>` token and no other quotes parses to that number when it fits in 64 bits, and to a conversion error otherwise |
| Stats.ParseQuotedValue | Bot.go:197-204 | In a body whose only quotes are the four of `"height":"<w>"`, with no colon right after the closing one, the quoted value does not match the pattern and gives the parse error |
| Stats.ParseHeightExampleNumber | Bot.go:197-213 | `{"height":12345}` parses to 12345 |
| Stats.ParseHeightExampleJunk | Bot.go:197-213 | Text around the token does not matter: a surrounded `"height":999` parses to 999 |
| Stats.ParseHeightExampleQuoted | Bot.go:197-204 | `{"height":"not-a-number"}` gives the parse error |
| Stats.LinesBodySelected | Bot.go:197-199 | In `"height":1,"height":2` followed by the line `"height":3`, the second token of the first line is the captured one |
| Stats.LinesBodyCaptured | Bot.go:197-199 | In that body the group captured after that token is `2` |
| Stats.ParseHeightExampleLastOnFirstLine | Bot.go:197-199 | With tokens 1 and 2 on the first line and 3 on the second, the captured height is 2 |
| Registry.Pool.constructor | Bot.go:24-27 | A pool holds the two strings it was built with |
| Registry.Normalized | Bot.go:227-231 | The shape the swap leaves: every pool's `Url` is its own key |
| Registry.Pools.constructor | Bot.go:239 | A new registry is empty |
| Registry.Pools.UnmarshalJSON | Bot.go:217-236 | On a parse error the map is untouched and the error is returned. Otherwise each parsed pool object is stored under its key, with `Url` set to the key and `Api` set to the old `Url`. Old entries under other keys are kept |
| Registry.GetPools | Bot.go:238-265 | Returns a fresh registry. On failure it is empty. On success it holds exactly the parsed pools, with every `Url` equal to its key and every `Api` equal to the decoded `Url` |
| Registry.GetPoolHeight | Bot.go:176-214 | Fails with a download error exactly when fetching `apiURL + "stats"` fails; otherwise it is `ParseHeight` of the body |
| Registry.GetHeights | Bot.go:162-174 | Every key is the `Url` of a pool whose poll gave that height, and every pool that polls successfully appears. On a normalised registry: the keys are registry keys, a pool is present exactly when its poll succeeds, and it carries the polled height |
| Commands.Listing | Bot.go:103-109 | The listing holds a pair (name, height) exactly when the snapshot maps the name to that height |
| Commands.MessageCreate | Bot.go:96-137 | The bot's own messages are ignored. A reply is sent exactly for `.heights`, `.help` and `.height`, matched exactly, and each command gets its own kind of reply; `.height` carries the published median |
| Commands.HeightsListsSnapshot | Bot.go:102-114 | `.heights` lists exactly the pools in the current snapshot, each with its height |
| Commands.ArgumentCommandsIgnored | Bot.go:116-136 | `.height <pool>` and `.claim <pool>`, which the help text advertises, get no reply |

## Left out

- HTTP, `ioutil.ReadAll` and `json.Unmarshal` are not modelled: their outcomes are inputs. The download is a function `download: string -> Option<string>`, and the decoded registry is an `Option<map<string, Pool>>`.
- The regexp engine is replaced by a direct scan that captures the same token as `.*"height":(\d+).*` under Go's leftmost-first semantics.
- The response body is modelled as a sequence of characters. Invalid UTF-8 is not modelled; the pattern only inspects ASCII.
- The goroutines `heightWatcher` and `poolUpdater`, `main`, `startup`, `getToken`, the globals and every timer and concurrency concern are outside the model. That includes the unsynchronised data race on `globalHeights`, `globalHeight` and `globalPools`.
- The Discord session, `ChannelMessageSend`, logging with `fmt.Println`/`Printf`, the exact reply text and the order of the `.heights` lines are not modelled. Replies are `Commands.Reply` values, and the listing is a set.
- Commands.MessageCreate: the author check is a boolean `fromSelf` rather than a comparison of Discord user IDs.
- Go's `int` is assumed to be 64 bits (`GoInt.Int64`).
- Aggregator.Median: returns the mean of the two middle heights without overflow, as intended. The wrapping behaviour of the code as written is modelled separately by `MedianAsWritten` (see Findings).
- Aggregator.Median, Aggregator.AggregateHeight: require a non-empty input. On an empty `heights` (every poll failed) the source indexes out of range and panics. The model excludes that case rather than modelling the crash.
- Aggregator.GetValues: the order of the collected values is not fixed, as with Go's random map iteration. Only the multiset is stated.
- Registry.GetHeights: when several pools share one `Url`, which one wins depends on map iteration order. The contract states only that some pool with that `Url` produced the stored height.
- Registry.Pools.UnmarshalJSON: a pool entry written as JSON `null` decodes to a nil `*Pool`, and `v.Api = v.Url` at Bot.go:228 then panics, ending the process from `main` or from `poolUpdater`. `Pool` here is a non-null class type, so the model does not capture that crash.
- Registry.GetHeights: `download` is one function, so two pools with the same `Api` get the same outcome; Bot.go:166 fetches once per pool, and those fetches can differ.
- Registry.Pools.UnmarshalJSON: requires that the parsed map holds a distinct object under each key, as `json.Unmarshal` allocates. Aliasing between those objects and the receiver's old pools is not modelled.

## Findings

| source | as written | input that shows it | evidently intended | confidence | as-written member | corrected member |
|---|---|---|---|---|---|---|
| Bot.go:156 | `(median + heights[half-1]) / 2` adds the two middle heights in 64-bit `int`, so the sum can wrap before halving | heights `[2^62, 2^62]`: the sum wraps to -2^63 and the median is -2^62 | the truncated mean of the two middle heights, which always lies between them (2^62 here) | not executed; unreachable for real block heights, which stay far below 2^62 (`Aggregator.AsWrittenBelowTwoTo62`) | Aggregator.MedianOverflowWitness | Aggregator.Median |
