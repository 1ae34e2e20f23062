# Perpetualpulse position metrics, modelled in Dafny

Perpetualpulse is a user script for the lighter.xyz trading page. It reads the
open-positions table and the account panel of the host page, and appends a
block of summary rows to the panel:

- long and short exposure;
- the long/short ratio;
- exposure as a multiple of the portfolio value;
- the average leverage;
- net leverage.

Each value can be masked with a click. Release 1.8 (`volatility.js`) adds a row
that builds a TradingView "equation" of the ten largest positions. That row
can copy the equation, or show it in a Show/Hide preview box. Release 1.3
(`content.js`) has no equation row, and differs in three other places:

- It reads the portfolio value through its own selectors: the caption is the
  first `span.text-xs.text-gray-3` and the value is the first
  `span.text-xs.text-gray-0` (content.js:177, 188). Its label test has four
  alternatives (content.js:181-186).
- Its infinity token is the mojibake `âˆž`.
- It patches `fetch` and `XMLHttpRequest` to capture an authorization token,
  and calls `window.injectVolatilityColumn` (listed under "## Left out").

The model covers the script's logic, for both releases at once. `Versions.Version`
selects what differs between them. The modules are:

| module | file | what it models |
|---|---|---|
| `Text` | text.dfy | JavaScript string helpers: white space, `trim`, ASCII `toLowerCase`/`toUpperCase`, `includes` |
| `Lists` | lists.dfy | the list passes: "some element qualifies", "first element that yields a reading", and "the readings of all elements, in order" |
| `Values` | values.dfy | `parseUSD`: strip `$ , % x X`, then `parseFloat(…) \|\| 0`, with the whole decimal literal grammar, exponent included |
| `Symbols` | symbols.dfy | `normalizeToUSDT` |
| `Positions` | positions.dfy | reading the side, the value and the leverage of a table row, the `rows.forEach` reduction, and `tableHasData` |
| `Versions` | versions.dfy | per-release constants, and where the release 1.3 infinity token comes from |
| `Metrics` | metrics.dfy | averages, portfolio multiples, the L/S ratio policy, the long share, net exposure and net leverage |
| `Portfolio` | portfolio.dfy | `getPortfolioValue` over the account panel, as written and as intended |
| `Equation` | equation.dfy | `buildTradingViewEquationFromTable` |
| `Masking` | masking.dfy | `maskedRows`, `applyMask`, and the click handler of `formatRow` |
| `Preview` | preview.dfy | the Show/Hide and copy handlers of `formatCopyEquationRow` |
| `Injection` | injection.dfy | the removal and append steps of `injectMetrics` |
| `Controller` | controller.dfy | `waitForDomAndData`, `observeTable`, and the `checkUrlChange` route filter |

How the page's content is represented:

- The positions table is `seq<seq<string>>`: the `innerText` of each cell of each `tbody tr`.
- The account panel is a list of rows. Each row is a list of spans, and each span has a class set and a text.
- The summary container is a list of children. A child is a host row, an injected value row, or the equation row.
- Timers, animation frames and the mutation observer are explicit events on a state record.

Some consequences of the code that a reader might not expect:

- **Any non-zero portfolio value divides.** The portfolio multiples and net leverage test truthiness (`portVal ? … : 0`, volatility.js:370-371 and volatility.js:382), so a negative portfolio value divides too (`Metrics.PerPortfolio`).
- **No remembered equity.** Every pass uses the portfolio value it reads at that moment (volatility.js:369). A pass that finds no value uses 0.
- **Only five characters are stripped.** The parser deletes only `$ , % x X` (volatility.js:240). `parseFloat` then skips leading white space only, and stops at the first character that cannot extend the number, so `"1 234"` reads as 1 (`Values.ParseUSDSpaceStops`).
- **No copy feedback.** A copy only refreshes the open preview box (volatility.js:188-199). A failure is logged to the console and nothing else.
- **The weight denominator.** `sum || 1` (volatility.js:318) replaces only a zero sum. With the row filter the sum is never zero.

## Model

| member | source | states |
|---|---|---|
| `Values.StripDecoration` | volatility.js:240 | the `/[$,%x]/gi` replacement leaves no `$`, `,`, `%`, `x` or `X` and never lengthens the text |
| `Values.StripKeepsOthers` | volatility.js:240 | every character other than `$ , % x X` survives the replacement, and no new character appears |
| `Values.StripAppend` | volatility.js:240 | the replacement works character by character, so the kept characters stay in order |
| `Values.ReadLiteral` | content.js:168 | `parseFloat` finds a literal exactly when the text starts with an optional sign and then a digit, or a point and a digit; the literal is negative exactly when the text starts with `-` |
| `Values.ParseUSD` | content.js:167-169 | text that does not start like a number after stripping reads as 0; a leading `-` gives a value of at most 0, and no sign gives one of at least 0 |
| `Values.ParseUSDDecorated` | volatility.js:240 | any text whose decoration-free form is a written decimal reads back as that decimal's value |
| `Values.ParseUSDRendered` | volatility.js:240 | a written decimal with `$` before it and `%`/`x` after it reads back as its value (`"$1234.56"` → 1234.56, `"12x"` → 12) |
| `Values.ParseUSDSignBeforeCurrency` | volatility.js:240 | a minus written before the currency sign survives the stripping: `"-$5"` reads as -5 |
| `Values.ParseUSDLeadingNumber` | content.js:168 | only the leading number counts: a written decimal, with decoration before it, followed by text whose stripped form starts with no digit, point or exponent mark, reads as that decimal |
| `Values.ParseUSDSpaceStops` | content.js:168 | white space inside a number ends it: `"1 234"` reads as 1 |
| `Values.ParseUSDGroupedAmount` | volatility.js:240 | an amount shown as `$` plus thousands grouped by `,` plus a fraction (`"$1,234.56"`) reads back as its value |
| `Values.ParseUSDScientific` | content.js:168 | a written decimal followed by `e` or `E`, an optional sign and digits, with decoration around it, reads as the decimal times (or, after `-`, divided by) ten to the power of those digits |
| `Values.ParseUSDExponentThousand` | content.js:168 | `"1e3"` reads as 1000 |
| `Values.ParseUSDExponentFraction` | content.js:168 | `"2.5E-1%"` reads as 0.25 |
| `Values.ParseUSDNoNumber` | volatility.js:240 | the empty text and any text starting with a letter other than `x`/`X` (`"garbage"`, a caption) read as 0; JavaScript's `Infinity` prefix is the one exception, and the model does not read it |
| `Values.ShiftDown` | volatility.js:240 | moving the point `n` places left divides by 10ⁿ, so the parser's reading of a fraction is its decimal value |
| `Symbols.StripUsdtSuffix` | volatility.js:273 | exactly one trailing `USDT`, in any letter case, is removed, and only when present |
| `Symbols.StripKiloPrefix` | volatility.js:274 | a leading `k` is removed exactly when an upper-case letter or a digit follows it |
| `Symbols.NormalizeToUSDT` | volatility.js:269-276 | empty input gives `""`; any other input gives a separator-free, lower-case-free text ending in `USDT` |
| `Symbols.NormalizeIdempotent` | volatility.js:269-276 | normalising a normalised symbol changes nothing |
| `Symbols.NormalizePlain` | volatility.js:272-275 | a plain symbol is upper-cased, loses a `k` prefix before an upper-case letter or a digit, and gains `USDT` (`kBONK` → `BONKUSDT`, `kbonk` → `KBONKUSDT`) |
| `Symbols.NormalizePair` | volatility.js:271-275 | `BASE/USDT`, or any other single separator between the halves, normalises like `BASE` (`HYPE/USDT` → `HYPEUSDT`) |
| `Symbols.NormalizeCell` | volatility.js:271 | only the first line of the market cell matters |
| `Symbols.TrimKeepsSeparatorsOut` | volatility.js:271-272 | trimming before the separator removal makes no difference |
| `Positions.MetricsSide` | volatility.js:352-365 | on the trimmed, lower-cased cell: long exactly when `\nlong` occurs; short exactly when `\nshort` occurs without `\nlong`; no side otherwise |
| `Positions.FirstCapture` | volatility.js:356 | the match of `/(\d+(\.\d+)?)x/` is the leftmost one: no earlier start has a match, and none at all when nothing is found |
| `Positions.LeverageAtEnd` | volatility.js:356-357 | a market text whose only digits are `<w>x` at its end has leverage `w` (`btc\nlong 10x` → 10) |
| `Positions.RowPosition` | volatility.js:349-357 | a row gives a position exactly when it has three cells and a side marker; the value is `parseUSD` of the third cell, signed, and the leverage is never negative |
| `Positions.Aggregate` | volatility.js:343-366 | the loop's sums, counts and leverage lists are those of the sided rows, in table order |
| `Positions.CountsCoverPositions` | volatility.js:359-365 | every sided row is counted on exactly one side |
| `Positions.LeveragesPositive` | volatility.js:357-364 | the leverage lists hold only positive values, and no more of them than the side has rows |
| `Positions.ExtractAppend` | volatility.js:347-348 | the row reduction is a fold: a split table extracts to its halves' positions in order |
| `Positions.SideSumAppend` | volatility.js:360-363 | the side sums are additive over the positions |
| `Positions.TableHasData` | content.js:197-206 | true exactly when some row has three cells and a third cell that parses above 0 |
| `Lists.AnyMatch` | volatility.js:258-266 | the early-returning scan finds a qualifying element exactly when one exists |
| `Versions.InfinityMojibake` | content.js:255 | the release 1.3 token is the UTF-8 bytes of `∞` read as Windows-1252 |
| `Metrics.Mean` | volatility.js:368 | the mean of no values is 0; otherwise the mean times the count is the sum |
| `Metrics.MeanBounds` | volatility.js:368 | the mean of a non-empty list lies between the list's bounds |
| `Metrics.PerPortfolio` | volatility.js:370-371 | 0 for a zero portfolio value; otherwise the multiple times the portfolio value is the amount |
| `Metrics.LongShortRatio` | volatility.js:375-379 | each case exactly: "0.00" iff both sums are 0; infinity iff only the short sum is 0; long/short when long ≥ short; −short/long otherwise; a −∞ when only the long sum is 0 |
| `Metrics.RatioDominance` | volatility.js:378-379 | with both sums positive, the ratio is at least 1 when longs dominate and below −1 when shorts do |
| `Metrics.LongShare` | volatility.js:373-374 | 0 for a non-positive total; otherwise the share times the total is the long sum |
| `Metrics.LongShareFraction` | volatility.js:374 | with both sums non-negative, the long share lies in [0, 1] |
| `Metrics.Derive` | volatility.js:368-382 | net exposure is long minus short; every multiple is 0 for a zero portfolio value and a true multiple otherwise; the averages are the means of the leverage lists, 0 for an empty list; the ratio and the long share follow their policies |
| `Metrics.NetLeverageSplits` | volatility.js:381-382 | net leverage is the long multiple minus the short multiple |
| `Metrics.ComputeFigures` | content.js:217-264 | the whole metrics pass: each side's sum and count over the sided rows; each side's average leverage is the mean of its reported leverages, positive exactly when some row reported one; the long and short multiples and net leverage are the sums and net exposure per portfolio value, 0 without one, and net leverage is their difference; the ratio and the long share follow their policies |
| `Metrics.RatioTextAcrossVersions` | content.js:251-260 | the two releases print the same ratio text except for an infinite ratio |
| `Portfolio.Caption` | volatility.js:247-250 | a row's caption is the first span of the label selector list when that span's trimmed, lower-cased text contains "portfolio" or "equity"; the row has no caption when there is no such span or its text fails the test |
| `Portfolio.LabelTestsAgree` | content.js:181-186 | release 1.3's four-way label test accepts exactly the labels release 1.8's two-way test accepts |
| `Portfolio.FirstMatch` | content.js:177 | `querySelector` with a selector list returns the first span in document order that matches any of the selectors |
| `Portfolio.ValueIsCaptionAsWritten` | volatility.js:247-251 | in release 1.8 as written, the value span of a captioned row is the caption span itself |
| `Portfolio.OldMarkupRead` | content.js:177-190 | release 1.3 reads the first `span.text-xs.text-gray-0` of a row whose first `span.text-xs.text-gray-3` passes the label test, whatever other spans stand before either one |
| `Portfolio.OldMarkupSkipsPlainSpan` | content.js:177-190 | a plain `text-xs` span before an accepted caption does not disturb release 1.3: in the row other, caption, amount it reads the amount span |
| `Portfolio.FirstRowWins` | content.js:176-192 | the first row with a caption and a value span decides the portfolio value |
| `Portfolio.NoReadableRow` | content.js:194 | with no such row the portfolio value is 0 |
| `Portfolio.AsWrittenReportsZero` | volatility.js:251-252 | release 1.8 as written reports 0 on the page's own markup, whatever the amount |
| `Portfolio.ValueSpan` | volatility.js:251 | the corrected lookup reads a span of a captioned row, and in release 1.8 never the caption span |
| `Portfolio.IntendedReportsAmount` | volatility.js:242-256 | with the corrected lookup, a `$`-amount beside the caption is reported as its value |
| `Portfolio.CorrectedAgreesOnOldMarkup` | content.js:188 | on release 1.3 markup, the corrected release 1.8 lookup reads the same span as release 1.3 |
| `Equation.RowCandidate` | volatility.js:293-309 | a row qualifies exactly when it has three cells, a marker in the lower-cased (untrimmed) market cell, and a non-zero value; the notional is the absolute value; both markers give Short; the symbol is the normalised cell |
| `Equation.Candidates` | volatility.js:291-310 | a position is kept exactly when some row qualifies as it; there are as many positions as qualifying rows; every kept position has a positive notional |
| `Equation.CandidatesAppend` | volatility.js:292-310 | one position is pushed per qualifying row, in table order: an empty table has none, and an appended row appends its own position, if any |
| `Lists.CollectAppend` | volatility.js:292-310 | collecting the readings is a fold: a split list collects to the first part's readings, then the second's |
| `Equation.SortDescSorted` | volatility.js:317 | the sort orders notionals from the largest down |
| `Equation.SortStable` | volatility.js:317 | positions with equal notionals keep their table order |
| `Equation.TopKeepsLargest` | volatility.js:317 | the kept positions are sorted, none is smaller than any dropped one, and they are drawn from the input |
| `Equation.Top` | volatility.js:317 | at most ten are kept, the first ones of the sorted list |
| `Equation.Terms` | volatility.js:317-324 | `min(10, number of qualifying rows)` terms, and none exactly when no row qualifies |
| `Equation.AbsWeightSumScales` | volatility.js:318-321 | the absolute weights add up to the notional sum divided by the denominator |
| `Equation.WeightsNormalised` | volatility.js:318-323 | the absolute exponents add up to 1; each lies in (0, 1]; an exponent is positive exactly for a long |
| `Equation.TableWeightsNormalised` | volatility.js:127-128 | the equation built from a table implies a total exposure of one times equity |
| `Equation.JoinEmpty` | volatility.js:326 | joining non-empty terms with `*` gives `""` exactly when there are no terms |
| `Equation.EquationText` | volatility.js:312-326 | the equation is exactly `""` when no row qualifies |
| `Equation.Build` | volatility.js:288 | no table is an error (the build throws); otherwise the equation text |
| `Masking.ApplyMask` | content.js:114-122 | the flag and the text are set together: asterisks when masked, the real text otherwise |
| `Masking.Create` | content.js:149-151 | a new value span is masked exactly when the store says so |
| `Masking.Click` | content.js:155-158 | a click flips the span, records the span's new state for its id, and leaves every other id's state alone |
| `Masking.TwoClicksRestore` | volatility.js:63-66 | two clicks restore the span exactly, and leave the stored state the span started with |
| `Masking.ClickFlipsStore` | volatility.js:59-65 | clicking a span created from the store flips the store's state for its id |
| `Masking.RecreatedRowInherits` | volatility.js:59-60 | a row created again after a click shows what the click left |
| `Masking.OtherClicksKeepState` | content.js:156 | clicks on other rows never change a row's stored state |
| `Preview.ToggleCaption` | volatility.js:206 | the toggle reads "Hide" exactly when the box is open |
| `Preview.Toggle` | volatility.js:208-227 | opening builds only with an empty cache; it shows the cache or `(no positions)`; a failed build changes nothing; closing only hides the box |
| `Preview.Copy` | volatility.js:188-199 | a copy refreshes an open box with a non-empty equation and never touches the cache or the open state |
| `Preview.StepsKeepValid` | volatility.js:211-223 | an open box never shows an empty text |
| `Preview.ToggleFlips` | volatility.js:211-223 | every click that does not fail flips the box and the caption |
| `Preview.CacheSticks` | volatility.js:212-213 | a non-empty cached equation is never rebuilt or replaced |
| `Preview.ReopenShowsCache` | volatility.js:215 | closing and reopening shows the cached equation again, even after a copy refreshed the box |
| `Preview.EmptyBuildRetried` | volatility.js:212-215 | an empty equation shows `(no positions)` and is built again on the next opening |
| `Injection.Untagged` | volatility.js:338 | the removal keeps every untagged child and nothing else, and drops exactly as many children as were tagged |
| `Injection.UntaggedAppend` | volatility.js:338 | the removal works child by child: a split container keeps each half's untagged children, the first half's first, so the order is kept |
| `Injection.NoneTagged` | content.js:212 | a container with no tagged child is left exactly as it is |
| `Injection.NewRows` | volatility.js:384-403 | five value rows `ls-line-1`…`ls-line-5`, each masked as the store says, then in release 1.8 a closed, uncached equation row |
| `Injection.Inject` | volatility.js:333-341 | nothing without a container; the host's children are kept; afterwards exactly six (release 1.8) or five (release 1.3) tagged children remain, or none without a table |
| `Injection.PassLeavesFreshRows` | content.js:212-274 | after a pass the tagged children are exactly the new rows, whatever the container held |
| `Injection.NewRowIds` | volatility.js:384-405 | the ids a pass leaves, in order |
| `Injection.PassIdempotent` | content.js:208-274 | a second pass over the same page state changes nothing |
| `Injection.PassKeepsMasks` | content.js:266-271 | each new value row shows asterisks exactly when its id is masked |
| `Controller.Poll` | volatility.js:415-426 | inject and re-attach the single observer when ready; otherwise retry while fewer than forty retries were made, else give up; the counter grows only on a retry |
| `Controller.PollPage` | content.js:289-304 | the poll injects exactly when a table with data and the container are present |
| `Controller.IsTradeRoute` | content.js:19 | the route test holds exactly when `/trade` occurs followed by `/`, `?` or the end of the path |
| `Controller.TradeRoutes` | volatility.js:13 | a trade path, its sub-paths and a trade path with a query are trade routes wherever they sit |
| `Controller.LongerSegmentExcluded` | content.js:19 | `/trades` is not a trade route |
| `Controller.NoTradeRoute` | volatility.js:13 | a path without `/trade` is never a trade route |
| `Controller.Frame` | content.js:15-25 | a frame asks for a poll exactly when the href changed and the path is a trade route; it leaves the counter and the observer alone |
| `Controller.Mutation` | volatility.js:409-412 | a change inside a table runs a metrics pass exactly when the observer is attached to that table, and changes no state |
| `Controller.NoPassBeforeAttach` | content.js:282-285 | before the first injection no change starts a pass |
| `Controller.ObserverFollowsLastInject` | content.js:277-285 | after an injection only the table it attached to starts passes: the previous observer is gone |
| `Controller.RunBounded` | volatility.js:415-426 | over any interleaving of polls, frames and table changes the counter stays at most forty and never resets, so a page session schedules at most forty retries |

## Left out

- The fetch/XHR patching and the authorization-token capture (content.js:28-104) are not modelled. They are network interception and have no computed behaviour to state.
- hotkeys.js is not part of this model. It wires keyboard events to clicks on host buttons.
- Styling, hover colours, `blockPropagation` and the `stopPropagation` calls are left out. They are presentation only.
- Clipboard writes and console logging are left out. They are I/O.
- `requestAnimationFrame`, `setTimeout` and `MutationObserver` are modelled as explicit events (`Controller.Event`), not as concurrency.
- `observeTable` is modelled by the table its one observer watches. Release 1.3 clears the variable before it reassigns it and release 1.8 does not, but both end with the one new observer.
- `toFixed` and `toLocaleString` are left abstract. The equation and ratio texts take the formatting as a function parameter, and the injected rows take their five formatted values as parameters.
- Numbers are exact rationals (`real`). IEEE-754 rounding and overflow are not modelled.
- `parseFloat`'s `Infinity` literal is not modelled.
- Values.ParseUSDNoNumber: text starting with `Infinity` is excluded from its promise. The model reads it as 0, where JavaScript reads an infinity, because the `Infinity` literal is not modelled.
- Letter case is mapped for ASCII only. `toLowerCase` and `toUpperCase` of other letters are not modelled. The `/USDT$/i` test is exact, because its case folding never maps a non-ASCII letter to an ASCII one.
- Neither file computes volatility. `content.js:308` calls a `window.injectVolatilityColumn` that is not part of this model.
- The panel row filter `div.flex.w-full.items-center.justify-between` and the container selector are taken as given: the panel is the list of matching rows.
- Positions.Leverage: its contract states only that the leverage is never negative and is 0 without a match. The exact value is stated by `Positions.LeverageAtEnd` for market texts whose only digits are the leverage; a general statement would need the whole `parseFloat` grammar in the contract.
- Portfolio.PortfolioValue: its contract states only the missing-panel case. `Portfolio.FirstRowWins` and `Portfolio.NoReadableRow` state the rest.
- Equation.TermText: its contract states only that a term is non-empty and contains `^`, because the exponent's text is the abstract `toFixed(4)`.

## Findings

| source | as written | input that shows it | evidently intended | confidence | as-written member | corrected member |
|---|---|---|---|---|---|---|
| volatility.js:247-252 | Release 1.8 looks up the caption with `span.text-xs.text-gray-3, span.text-xs.text-gray-3.underline, span.text-xs` and the value with `span.text-xs.text-gray-0, span.text-xs`. `querySelector` returns the first match in document order, so both lists return the first `span.text-xs` of the row, which is the caption. The caption text is then parsed as the amount. | A row `[span.text-xs.text-gray-3 "Portfolio Value:", span.text-xs.text-gray-0 "$1234.5"]` gives 0 instead of 1234.5. Every portfolio multiple and the net leverage then print as 0. | The value is the row's `text-gray-0` span, or failing that another `text-xs` span, never the caption. Release 1.3 reads the `text-gray-0` span; it has no `span.text-xs` fallback. | not executed | `Portfolio.AsWrittenReportsZero` | `Portfolio.IntendedReportsAmount` |
