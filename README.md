# Hulk Finance front end: verified model of its core logic

This project is a Dafny model of four small pieces of logic in the Hulk Finance
front end (a React application for a decentralised exchange on BNB Smart
Chain). It proves properties of each piece:

- **Transaction confirmation tracking** (`src/state/transactions/updater.tsx`).
  `shouldCheck` is a three-tier backoff rule. It says whether a pending
  transaction's receipt is due for a lookup at the current block. `Updater`'s
  effect runs the per-block cycle. It filters the chain's pending transactions
  with that rule and looks up each due receipt. A found receipt finalizes the
  transaction and raises a success or danger toast. A missing receipt records
  the current block as the last checked one. A failed lookup changes nothing.
  The rule is the pure function `Transactions.ShouldCheck`. The store of pending
  transactions is the class `Transactions.TransactionStore`, and the cycle is its
  method `OnNewBlock`.
- **Batched contract calls** (`src/utils/multicall.ts`). `multicall` and
  `multicallv2` turn a list of calls into positional calldata with lower-cased
  targets. They send one aggregate request and decode slot `i` of the answer
  with the name of call `i`. In `multicallv2`, a slot whose success flag is false
  becomes `null` (`None` here).
- **Translation lookup** (`src/utils/translateTextHelpers.ts`). This covers how
  the fallback is chosen, the `%` and `1%` guards, and how the first match of
  `/%(.*?)%/` is replaced by the first word of the fallback.
- **Liquidity URL path** (`src/utils/getLiquidityUrlPathParts.ts`). The path is
  `first/second`, and a quote token with the symbol `BNB` is written `ETH`.

Files:

- `wrappers.dfy`: `Option` and `Result`.
- `js_string.dfy`: the JavaScript string built-ins the code relies on. These
  are `indexOf`, `includes`, `split` on one character, and `replace` with a
  string pattern, including the `$` patterns of the replacement string.
- `transactions.dfy`, `multicall.dfy`, `translate.dfy`, `liquidity.dfy`: one
  module per source file.

Some things are outside the model and are passed in as parameters:

- the clock (`now`, in milliseconds);
- the ABI coder (`Interface`, with `encodeFunctionData` and `decodeFunctionResult`);
- the aggregator contract (`aggregate`, `tryAggregate`);
- the provider's receipt lookup (`lookup`, which returns found, not found or failed);
- the translations of the React context.

The model keeps these behaviours of the code:

- In `multicallv2`, a decode error in one successful slot throws out of the
  whole `map`. The batch is then lost; the slots are not decoded independently
  (`Multicall.TryDecodeSlots`).
- An empty call list is still sent to the aggregator.
- `shouldCheck` treats a last checked block of `0` like a missing one, because
  it tests truthiness.
- A cycle only looks at the active chain's transactions, not at every chain.

## Model

| member | source | states |
|---|---|---|
| Transactions.ShouldCheck | src/state/transactions/updater.tsx:11-30 | Due exactly when there is no receipt and either the transaction was never checked (falsy last block), or the blocks since the last check reach the cadence for its age: 1 block up to 5 minutes, 3 blocks up to 60 minutes, 10 blocks after that. The source's real-valued minutes are restated as integer milliseconds. |
| Transactions.FinalizedNeverDue | src/state/transactions/updater.tsx:15 | A transaction with a receipt is never due, whatever the block or the time. |
| Transactions.UncheckedIsDue | src/state/transactions/updater.tsx:16 | Without a receipt, and with the last checked block absent or 0, the transaction is due. |
| Transactions.NoNewBlockNotDue | src/state/transactions/updater.tsx:17-18 | If fewer than one block has passed since the last check, the transaction is not due, whatever its age. |
| Transactions.Tiers | src/state/transactions/updater.tsx:19-29 | Over 3,600,000 ms pending: due iff at least 10 blocks have passed. Over 300,000 ms and at most 3,600,000 ms: due iff at least 3. Otherwise (negative ages included): due iff at least 1. |
| Transactions.DueIsMonotoneInBlock | src/state/transactions/updater.tsx:17-29 | With a fixed clock reading, a transaction due at block b is due at every later block. |
| Transactions.CadenceExamples | src/state/transactions/updater.tsx:19-29 | Boundary cases: 70 minutes with 10 blocks is due and with 9 is not; 6 minutes with 3 blocks is due and with 2 is not; 2 minutes with 1 block is due. |
| Transactions.Serialize | src/state/transactions/updater.tsx:56-65 | The stored receipt has the eight listed fields of the node's receipt, with the same values. |
| Transactions.ActionFor | src/state/transactions/updater.tsx:50-83 | A found receipt yields a finalize action for the same chain and hash. It carries the eight copied receipt fields. A missing receipt yields a checked action with the current block. A failed lookup yields no action. |
| Transactions.ToastFor | src/state/transactions/updater.tsx:70-80 | The toast is of type success exactly when the receipt status is 1, otherwise danger. Its link is the explorer URL of the receipt's transaction hash. |
| Transactions.DueHashes | src/state/transactions/updater.tsx:45-46 | The looked-up hashes are exactly the chain's hashes for which ShouldCheck holds. |
| Transactions.Settle | src/state/transactions/updater.tsx:45-87 | After a cycle, the chain has the same hashes. A finalized, not-due or failed-lookup transaction is unchanged. A due one with a found receipt gets the copied receipt. A due one with no receipt gets the current block as its last checked block. |
| Transactions.SettleKeepsFinalized | src/state/transactions/updater.tsx:15-67 | A receipt, once attached, stays. A receipt appears only on a transaction that was due and whose lookup found it. |
| Transactions.SettleAdvancesLastChecked | src/state/transactions/updater.tsx:17-83 | A checked transaction's last checked block never decreases over a cycle. |
| Transactions.SettleIsPerTransaction | src/state/transactions/updater.tsx:47-88 | A transaction's outcome depends only on its own lookup. Lookups of other hashes do not affect it. |
| Transactions.TransactionStore.Pending | src/state/transactions/updater.tsx:40 | `state[chainId] ?? {}`: the transactions tracked on the chain, with their stored details, and none for a chain without an entry. |
| Transactions.TransactionStore.Handle | src/state/transactions/updater.tsx:50-87 | One settled lookup: its action is applied to that transaction only, and a found receipt appends its toast. |
| Transactions.TransactionStore.LookUpAll | src/state/transactions/updater.tsx:47-88 | Every due hash is looked up exactly once, in some order. The chain's map becomes the settled map, and the toasts grow by one per found receipt, in lookup order. |
| Transactions.TransactionStore.OnNewBlock | src/state/transactions/updater.tsx:42-89 | With a falsy chain id, no provider or a falsy current block, nothing changes. Otherwise the looked-up hashes are exactly the due ones, the active chain's map becomes Settle of the old one, other chains are untouched, and one toast is added per found receipt. |
| Multicall.ToLower | src/utils/multicall.ts:20 | `toLowerCase` keeps the length of the address and leaves no upper-case ASCII letter in it. |
| Multicall.LowerCharAgrees | src/utils/multicall.ts:20 | Two characters lower-case to the same character exactly when they are the same character or the same ASCII letter in either case. |
| Multicall.ToLowerIdentifiesCase | src/utils/multicall.ts:20 | Two addresses get the same lower-cased target exactly when they have the same length and differ only in letter case. |
| Multicall.ToLowerIdempotent | src/utils/multicall.ts:41 | Lower-casing an already lower-cased target changes nothing. |
| Multicall.EncodeCalls | src/utils/multicall.ts:19-22 | When every call encodes, there is one calldata entry per call, in order. Entry i's target is call i's lower-cased address, and its data is the encoding of call i's name and parameters. Otherwise the error is that of the first call that fails to encode. |
| Multicall.CalldataIgnoresAddressCase | src/utils/multicall.ts:40-43 | Calls that differ only in the letter case of their addresses produce identical calldata, or the identical error. |
| Multicall.DecodeSlots | src/utils/multicall.ts:25 | Slot i is decoded with the name of call i. The result has one entry per slot. The first slot without a call, or whose decode throws, rejects the whole map with that slot's error. |
| Multicall.Multicall | src/utils/multicall.ts:15-28 | A successful result has exactly as many entries as the aggregator's return data, which is at most the number of calls. Entry i is the decode of slot i with call i's name. A transport error rejects the batch with no partial results. |
| Multicall.MulticallAligned | src/utils/multicall.ts:23-25 | If all calls encode, the aggregator answers one slot per call and every slot decodes, then the result has exactly one entry per call. |
| Multicall.RequireSuccess | src/utils/multicall.ts:37 | `requireSuccess` is true when the options are absent, omit the key or hold undefined there; otherwise it is the given value. |
| Multicall.Overrides | src/utils/multicall.ts:37 | The overrides are the options' own properties minus `requireSuccess`, with the same values; with no options they are empty. |
| Multicall.TryDecodeSlots | src/utils/multicall.ts:46-49 | Entry i is null exactly when slot i's success flag is false. Otherwise it is the decode of slot i's data with call i's name. The first successful slot that throws rejects the map. |
| Multicall.MulticallV2 | src/utils/multicall.ts:36-52 | The request is sent with RequireSuccess(options) first and Overrides(options) as overrides. A successful result is aligned with the return data, with null exactly at the failed slots and decoded values elsewhere. A transport error rejects the batch. |
| Multicall.BestEffortKeepsAlignment | src/utils/multicall.ts:45-49 | If the aggregator answers one slot per call and every successful slot decodes, the best-effort result has exactly one entry per call. |
| JsString.IndexOfFrom | src/utils/translateTextHelpers.ts:10 | The search behind `replace` and `includes`: -1 when the pattern occurs nowhere at or after the start index, otherwise an index where it occurs with no earlier occurrence at or after the start. |
| JsString.IndexOfIsFirst | src/utils/translateTextHelpers.ts:10 | `indexOf` returns the first index where the pattern occurs, and -1 exactly when it occurs nowhere. |
| JsString.IncludesOccurs | src/utils/translateTextHelpers.ts:17 | `includes` holds exactly when the pattern occurs somewhere in the string. |
| JsString.IncludesChar | src/utils/translateTextHelpers.ts:17 | For a one-character pattern, `includes` is plain membership. |
| JsString.Split | src/utils/translateTextHelpers.ts:9 | `split` gives at least one piece, no piece holds the separator, and joining the pieces with the separator gives back the string. |
| JsString.FirstPieceIsPrefix | src/utils/translateTextHelpers.ts:9 | The first piece of a split is a prefix of the string. If it is shorter than the string, the separator follows it. |
| JsString.SplitJoin | src/utils/getLiquidityUrlPathParts.ts:9 | Splitting a join of separator-free pieces recovers the pieces. |
| JsString.Substitute | src/utils/translateTextHelpers.ts:10 | The `$` patterns of `replace`'s replacement string; a replacement string without `$` is inserted literally. |
| JsString.Replace | src/utils/translateTextHelpers.ts:10 | `replace` with a string pattern returns the string unchanged when the pattern does not occur. Otherwise it rewrites only the first occurrence, with the `$`-substituted replacement, and keeps the text before and after it. |
| TranslateText.ClosingPercent | src/utils/translateTextHelpers.ts:4 | The lazy `(.*?)%` stops at the first `%` after its start, with no line terminator on the way. If there is none, no stopping point exists. |
| TranslateText.ExecFrom | src/utils/translateTextHelpers.ts:4 | `exec` finds the leftmost match of `/%(.*?)%/`. No earlier start matches, and no match at all is reported only when none exists. |
| TranslateText.FirstWord | src/utils/translateTextHelpers.ts:9 | The inserted value is the fallback up to its first space, or the whole fallback if it has no space. |
| TranslateText.Exec | src/utils/translateTextHelpers.ts:7 | `variableRegex.exec` returns the leftmost match of `/%(.*?)%/`: no earlier start matches, and no match is returned only when the regex matches nowhere. |
| TranslateText.MatchIsFirstOccurrence | src/utils/translateTextHelpers.ts:7-10 | The text of the leftmost match occurs nowhere earlier in the translation, so `replace` with that text rewrites the match itself. |
| TranslateText.ReplaceAtMatch | src/utils/translateTextHelpers.ts:7-10 | Replacing the text of the leftmost match rewrites that match itself, not an earlier copy of its text, and keeps the text around it. |
| TranslateText.ReplaceWhole | src/utils/translateTextHelpers.ts:7-10 | Replacing a whole translation, used as its own pattern, leaves only the `$`-substituted replacement. |
| TranslateText.ReplaceDynamicString | src/utils/translateTextHelpers.ts:6-11 | With a match, the result is the text before the match, then the fallback's first word after `$` substitution, then the text after the match. Without a match, the whole translation is replaced by the substituted first word. |
| TranslateText.ReplacesFirstSegmentLiterally | src/utils/translateTextHelpers.ts:7-10 | With a match and no `$` in the fallback, the first `%…%` segment is replaced by exactly the fallback's first word; prefix and suffix are kept. |
| TranslateText.SinglePercentGivesFirstWord | src/utils/translateTextHelpers.ts:7-10 | A translation with at most one `%` has no match. With no `$` in the fallback, the result is exactly the fallback's first word. |
| TranslateText.MatchIsFirstPercentPair | src/utils/translateTextHelpers.ts:4-7 | In a translation without line terminators, the match runs from the first `%` to the next `%`. |
| TranslateText.GetTranslation | src/utils/translateTextHelpers.ts:13-24 | A missing or empty translation gives the fallback. A translation without `%` is returned unchanged, and so is any translation whose text contains `1%`. Otherwise the placeholder is replaced. |
| TranslateText.TranslateString | src/utils/translateTextHelpers.ts:29-38 | When index 0 of the translations holds `'error'`, the result is the fallback. Otherwise it is getTranslation's result. |
| LiquidityUrl.QuotePart | src/utils/getLiquidityUrlPathParts.ts:7 | The first part is `ETH` when the quote symbol is `BNB`, and the quote address verbatim otherwise. |
| LiquidityUrl.GetLiquidityUrlPathParts | src/utils/getLiquidityUrlPathParts.ts:6-10 | The path is the first part and the token address joined by `/`. |
| LiquidityUrl.PathSplitsIntoParts | src/utils/getLiquidityUrlPathParts.ts:1-9 | If neither part contains `/`, splitting the path on `/` gives back exactly the two parts. |
| LiquidityUrl.BnbPathIgnoresQuoteAddress | src/utils/getLiquidityUrlPathParts.ts:7 | With the `BNB` symbol, the path does not depend on the quote address, and its first piece is `ETH`. |

## Left out

- The ABI coder, the aggregator contracts and the provider are foreign code. `new Interface(abi)`, `encodeFunctionData`, `decodeFunctionResult`, `aggregate`, `tryAggregate` and `getTransactionReceipt` are function parameters. Building the `Interface` from the ABI is not modelled.
- The `blockNumber` that `aggregate` also returns is dropped, because the code ignores it.
- What `tryAggregate` does with `requireSuccess` is the contract's business. The model only proves that the value is passed first.
- React plumbing is not modelled: hooks, `useMemo`, the effect's dependency list, `useContext` and `useDispatch`. The model takes the active chain, the provider's presence, the current block and the clock as parameters of `OnNewBlock`.
- The Redux reducers are not part of the model. `Transactions.Reduce` is the abstract update named after each action: finalizing attaches the receipt, and a check records the block number. Any other bookkeeping of the real reducers (such as a confirmation time) is not modelled.
- Asynchrony is not modelled. Lookups settle one after another, in an unspecified order. In the source, the filter reads a snapshot while the dispatches act on the live store; that race is not modelled.
- Adding and clearing transactions, and the other transaction actions, are not part of the model.
- The toast id `id-${new Date()}` and the `console.error` logging of failed lookups are not modelled.
- JavaScript numbers are modelled as unbounded integers, with the minutes pending as an exact real. Rounding of doubles, `NaN` and `undefined` are not modelled. A chain id or current block of `0` stands for every falsy value.
- Multicall.ToLower: lower-cases ASCII letters only. The Unicode case mapping of `toLowerCase` for other characters is not modelled; addresses are hexadecimal.
- `translations` is modelled as a map from strings to strings. Array properties such as `length`, and non-string values, are not modelled.
- TranslateString's last branch (falsy `translations`) cannot be reached in the model, because the context's translations are always a value. In the source, `translations[0]` would throw first.
- `src/components/Menu/index.tsx`, `src/views/Home/components/CakeStats.tsx` and `src/config/constants/farms.ts` are left out. They are rendering and static configuration, with no logic beyond calls to the translation helper.
