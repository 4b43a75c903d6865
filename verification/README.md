# festival-in-pocket: the component decisions, in Dafny

festival-in-pocket is a festival companion web app (React/TypeScript). The DJ
admin screen shows a queue and vote counts, but it renders hard-coded arrays
and its skip button has no handler. What the code does decide lives in four
components, and those decisions are modelled here as pure functions over
immutable data:

- **DJ voting** (`dj_voting.dfy`, module `DJVoting`): the vote-once screen.
  The state is `hasVoted`, `selectedVote` and a list of track options with vote
  counts. A click tallies one vote, remembers it, and locks the screen. The
  module also covers the total, the real-valued percentages and the "votes cast" badge.
- **Vendor marketplace** (`vendor_marketplace.dfy`, module `VendorMarketplace`):
  the category tab filter, the wallet debit guarded by the balance, the Order
  button's disable rule, and the three-band wait-time colour. Money is in
  integer cents.
- **Event-code entry** (`event_code_entry.dfy`, module `EventCodeEntry`): the
  blank check (JavaScript `trim` over its full white-space set), the upper-casing
  of the submitted code, the enable rule at four UTF-16 code units, and the
  field cap at eight, both for key-by-key typing and for a paste. Lengths are
  counted as JavaScript counts them, so a character outside the Basic
  Multilingual Plane (an emoji) counts twice.
- **Order history** (`order_history.dfy`, module `OrderHistory`): the split of
  orders into active and past lists by status, and the status label and
  status class maps.

`seqs.dfy` (module `Seqs`) holds the order-keeping filter that
`Array.prototype.filter` performs, the subsequence relation, and the lemmas
that a filter keeps order and multiplicities and that a filter and its
complement partition their input. `wrappers.dfy` holds `Option`, which stands
for TypeScript's `T | null`.

## Model

| member | source | states |
|---|---|---|
| `DJVoting.Tally` | src/components/DJVoting.tsx:24-28 | The vote's map keeps the list length and order. Each option whose id matches gains exactly one vote and keeps its id, title and artist. Every other option is unchanged. |
| `DJVoting.HandleVote` | src/components/DJVoting.tsx:21-31 | Once voted, a click is a no-op. Otherwise the screen becomes voted, `selectedVote` is the clicked id, and the total rises by the number of options carrying that id. |
| `DJVoting.TallyTotal` | src/components/DJVoting.tsx:19-28 | The reduce-sum total after a tally equals the old total plus the number of matching options. |
| `DJVoting.TotalZeroIff` | src/components/DJVoting.tsx:19 | The reduce-sum total is 0 exactly when every option's count is 0. |
| `DJVoting.VotesAtMostTotal` | src/components/DJVoting.tsx:19 | No option's count exceeds the total it is part of. |
| `DJVoting.VoteForPresentId` | src/components/DJVoting.tsx:24-31 | With unique ids, a first vote for a present id gives that option exactly one more vote. Every other option stays the same, the total rises by exactly one, and the vote is recorded. |
| `DJVoting.VoteForAbsentId` | src/components/DJVoting.tsx:22-31 | A first vote for an id no option carries changes no count. It still sets `hasVoted` and `selectedVote`, which uses up the single vote. |
| `DJVoting.VoteOnlyOnce` | src/components/DJVoting.tsx:22 | A second click, on any option, leaves counts, `selectedVote` and `hasVoted` unchanged. |
| `DJVoting.OnlyFirstClickCounts` | src/components/DJVoting.tsx:21-31 | After any run of clicks, the screen equals the one after the first click alone. |
| `DJVoting.ClicksFromVoted` | src/components/DJVoting.tsx:22 | A voted screen stays the same under any run of clicks. |
| `DJVoting.ClicksAddAtMostOneVote` | src/components/DJVoting.tsx:19-31 | With unique ids, no run of clicks raises the total by more than one. |
| `DJVoting.Percentage` | src/components/DJVoting.tsx:80 | The percentage is 0 when the total is 0, so there is no division by zero. Otherwise it times the total is the option's votes times 100, and it lies in [0, 100] when the votes do not exceed the total. |
| `DJVoting.PercentagesAddUp` | src/components/DJVoting.tsx:80 | Against the list's own total, the real-valued percentages add up to exactly 100, or are all 0 when nothing has been voted. |
| `DJVoting.PercentageInRange` | src/components/DJVoting.tsx:80 | Every option's real-valued percentage lies between 0 and 100. |
| `DJVoting.BadgeAsWrittenCountsVoteTwice` | src/components/DJVoting.tsx:68 | As written, a first vote on a present id raises the badge by two. After it, the badge shows one more than the votes recorded. |
| `DJVoting.BadgeAsWrittenExample` | src/components/DJVoting.tsx:68 | One option at 0 votes, voted once: the total is 1 and the badge as written reads 2. |
| `DJVoting.BadgeCount` | src/components/DJVoting.tsx:68 | The corrected badge is the number of votes recorded. It is at least every option's count. |
| `DJVoting.BadgeCountsVoteOnce` | src/components/DJVoting.tsx:68 | The corrected badge rises by exactly one on the listener's first vote for a present id and does not move on later clicks. |
| `VendorMarketplace.FilteredVendors` | src/components/VendorMarketplace.tsx:25-27 | Under "all" the vendor list is returned unchanged. Under any other tab the result is exactly the vendors of that category, each with its original multiplicity, and it is always a subsequence of the input, so order is kept. |
| `VendorMarketplace.HandleOrder` | src/components/VendorMarketplace.tsx:29-43 | An order is placed exactly when the balance covers the price. The new balance is then the balance minus the price and is never negative. Otherwise the order is rejected. |
| `VendorMarketplace.BalanceAfter` | src/components/VendorMarketplace.tsx:30-31 | The balance a click hands to `onWalletUpdate` is the old balance minus the price when the balance covers the price; a rejected order leaves the balance unchanged. A debited balance is never negative. |
| `VendorMarketplace.OrderDisabled` | src/components/VendorMarketplace.tsx:110 | The Order button is disabled exactly when the handler would reject the order. |
| `VendorMarketplace.DisabledIffRejected` | src/components/VendorMarketplace.tsx:110 | The Order button is enabled exactly when the handler debits the price and leaves the balance minus the price. |
| `VendorMarketplace.OrderRun` | src/components/VendorMarketplace.tsx:29-43 | Over any run of orders, each seeing the balance the previous one handed to `onWalletUpdate`, the final balance is the start balance minus the prices paid. The paid prices are a subsequence of those ordered, and a non-negative wallet never goes negative. A first order the balance covers is paid first; a first order it does not cover is not paid, and the rest are paid from what follows it. |
| `VendorMarketplace.OrderRunSnoc` | src/components/VendorMarketplace.tsx:29-43 | Clicks are handled left to right. One more click at the end of a run sees the balance the earlier clicks left: it pays its price if that balance covers it, and nothing otherwise. |
| `VendorMarketplace.PlaceOrders` | src/components/VendorMarketplace.tsx:29-43 | Replaying the clicks one at a time against a single balance pays exactly the prices `OrderRun` pays and leaves the same balance. |
| `VendorMarketplace.WaitTimeBand` | src/components/VendorMarketplace.tsx:45-49 | Green exactly for waits up to 5 minutes, yellow exactly for waits above 5 and up to 10, red exactly above 10. The bands are disjoint and cover every wait. |
| `VendorMarketplace.WaitBandMonotone` | src/components/VendorMarketplace.tsx:45-49 | The bands are ordered: a longer wait never gets a better band. |
| `EventCodeEntry.LeadingSpace` | src/components/EventCodeEntry.tsx:16 | The count of leading white space: that many characters are white space and the next one, if any, is not. |
| `EventCodeEntry.SkipSpaceBackward` | src/components/EventCodeEntry.tsx:16 | Scanning back from the end drops exactly the trailing white space: everything from the returned index on is white space, and the character before it is not. |
| `EventCodeEntry.Trim` | src/components/EventCodeEntry.tsx:16 | `trim` returns the slice of the code that starts right after its leading white space. Everything after the slice is white space, and the slice neither starts nor ends with white space. |
| `EventCodeEntry.TrimEmptyIff` | src/components/EventCodeEntry.tsx:16 | A code trims to the empty string exactly when it is all white space. |
| `EventCodeEntry.ToUpper` | src/components/EventCodeEntry.tsx:17 | Upper-casing keeps the length and turns each lower-case ASCII letter into its capital. Every other character is kept, and no lower-case letter is left. |
| `EventCodeEntry.ToUpperIdempotent` | src/components/EventCodeEntry.tsx:17 | Upper-casing an upper-cased code changes nothing. |
| `EventCodeEntry.ToUpperKeepsUpper` | src/components/EventCodeEntry.tsx:17 | A code with no lower-case letter is submitted exactly as typed. |
| `EventCodeEntry.HandleSubmit` | src/components/EventCodeEntry.tsx:14-19 | The code is passed on exactly when it is not all white space. What is passed is the typed code upper-cased, with the same length, surrounding spaces included and no lower-case letter. |
| `EventCodeEntry.Utf16Length` | src/components/EventCodeEntry.tsx:51 | `code.length` counts UTF-16 code units: at least one and at most two per character. |
| `EventCodeEntry.SubmitEnabled` | src/components/EventCodeEntry.tsx:51 | The button is enabled for every code of four or more characters and never for one of fewer than two. For text within the BMP it is enabled exactly from four characters on. |
| `EventCodeEntry.Submission` | src/components/EventCodeEntry.tsx:48-54 | Together with the disabled button, a code reaches the app exactly when it is at least four UTF-16 code units long and is not all white space. |
| `EventCodeEntry.BlankCodeEnabledButDropped` | src/components/EventCodeEntry.tsx:14-51 | A code of four or more white-space characters enables the button, yet submitting it does nothing. |
| `EventCodeEntry.SubmittedCodeIsNotTrimmed` | src/components/EventCodeEntry.tsx:16-17 | " fest " is submitted as " FEST ", so the surrounding spaces survive. |
| `EventCodeEntry.CapInput` | src/components/EventCodeEntry.tsx:45 | For text without line breaks: text inserted into the empty field in one edit, as a paste is, is cut to at most eight UTF-16 code units, keeping a prefix of it. Text that fits is kept whole. Otherwise the cut is as late as possible: the next character would overflow the cap. |
| `EventCodeEntry.CapInputUnique` | src/components/EventCodeEntry.tsx:45 | Any prefix that fits the cap and cannot take one more character is exactly what a paste leaves. |
| `EventCodeEntry.CapInputBmp` | src/components/EventCodeEntry.tsx:45 | For text within the BMP the cap keeps exactly the first eight characters of longer input. |
| `EventCodeEntry.CapInputAstral` | src/components/EventCodeEntry.tsx:45 | For text made only of characters outside the BMP, the cap keeps exactly the first four characters of longer input. |
| `EventCodeEntry.TypeKeys` | src/components/EventCodeEntry.tsx:42-45 | For keys without line breaks: typing key by key never takes the field past eight code units. The field only grows and keeps what it held. While two code units are still free at the end, no key was refused. |
| `EventCodeEntry.TypedKeysAreSubsequence` | src/components/EventCodeEntry.tsx:42-45 | What typing adds to the field is a subsequence of the keys, in the order they were typed. |
| `EventCodeEntry.TypeKeysAppend` | src/components/EventCodeEntry.tsx:42-45 | Typing one text and then another gives the same field as typing them together. |
| `EventCodeEntry.TypeKeysBmp` | src/components/EventCodeEntry.tsx:42-45 | For text within the BMP, typing keeps exactly the first characters up to eight. |
| `EventCodeEntry.TypingBmpMatchesCap` | src/components/EventCodeEntry.tsx:42-45 | For text within the BMP, typing it into the empty field and pasting it leave the same value. |
| `EventCodeEntry.RefuseThenAccept` | src/components/EventCodeEntry.tsx:45 | With seven code units in the field, a character outside the BMP is refused and a following BMP character is accepted. |
| `EventCodeEntry.TypingSkipsOverflowing` | src/components/EventCodeEntry.tsx:42-45 | Typing seven BMP characters, then one outside the BMP, then one more BMP character keeps the seven and the last one, and drops the wide one. |
| `EventCodeEntry.TypingSkipsOverflowingEmoji` | src/components/EventCodeEntry.tsx:42-45 | Typing "1234567😀8" key by key leaves "12345678". |
| `EventCodeEntry.PasteStopsAtOverflowingEmoji` | src/components/EventCodeEntry.tsx:45 | Pasting "1234567😀8" leaves "1234567", so a paste and typing differ on mixed text. |
| `EventCodeEntry.TwoEmojiSubmitted` | src/components/EventCodeEntry.tsx:14-51 | Two emoji are four code units long, so they enable the button and are submitted. |
| `EventCodeEntry.FiveEmojiCut` | src/components/EventCodeEntry.tsx:45 | Five emoji are ten code units long, so the field keeps the first four emoji. |
| `EventCodeEntry.DemoCodeAccepted` | src/components/EventCodeEntry.tsx:60 | "FEST2024" fits the field, enables the button and is submitted unchanged. |
| `OrderHistory.ActiveOrders` | src/components/OrderHistory.tsx:73 | The active list is exactly the orders whose status is not "completed", with their multiplicities, in original order. |
| `OrderHistory.PastOrders` | src/components/OrderHistory.tsx:126 | The past list is exactly the orders whose status is "completed", with their multiplicities, in original order. |
| `OrderHistory.ActiveAndPastPartition` | src/components/OrderHistory.tsx:73-126 | The two lists are disjoint and together hold every order exactly once. Their lengths sum to the number of orders. |
| `OrderHistory.DemoOrdersSplit` | src/components/OrderHistory.tsx:7-38 | Of the three listed orders, orders 1 and 2 are active and order 3 is past. |
| `OrderHistory.StatusText` | src/components/OrderHistory.tsx:49-56 | An unknown status is shown as it is. A known status gets a label that differs from it and is not itself a known status. |
| `OrderHistory.StatusTextCollisions` | src/components/OrderHistory.tsx:49-56 | Two statuses share a label only if one is known and the other is an unknown status spelled exactly like that label. |
| `OrderHistory.KnownStatusLabelsDistinct` | src/components/OrderHistory.tsx:49-56 | ready, preparing and completed get pairwise distinct labels. |
| `OrderHistory.StatusColor` | src/components/OrderHistory.tsx:40-47 | A status gets the default class exactly when it is unknown. |
| `OrderHistory.KnownStatusColorsDistinct` | src/components/OrderHistory.tsx:40-47 | ready, preparing and completed get pairwise distinct classes. |

## Left out

- Rendering, hooks, toasts, icons and CSS: state setters are modelled as the functions' new values. Toast texts, progress bars and `toFixed` formatting are not modelled. The wait-time band is an enumeration, not the class string.
- Floating-point money: prices, balances and order totals are integer cents, so rounding of JavaScript numbers is not modelled. Wait times are `real` minutes, and NaN is not modelled.
- Vote counts are natural numbers. The component accepts any `djData.options`, but negative counts are not modelled.
- `EventCodeEntry.ToUpper`: upper-cases ASCII letters only. JavaScript's full Unicode case mapping is not modelled; it can change length (for example "ß" becomes "SS").
- `EventCodeEntry.CapInput`: models one insertion into the empty field, such as a paste. Key-by-key typing is `EventCodeEntry.TypeKeys`, which appends every key at the end. Neither ever splits a surrogate pair, because a Dafny string cannot hold half of one; a browser that cut one in half would keep a lone surrogate instead. Caret position, inserting in the middle of the text, deleting, and `setCode` calls (which bypass `maxLength`) are not modelled.
- `EventCodeEntry.CapInput`: line-break handling is not modelled. A `type="text"` field never holds a line feed or carriage return, and browsers drop or replace them in pasted text, so the model holds only for text without them.
- `EventCodeEntry.TypeKeys`: line-break handling is not modelled. Enter submits the form instead of typing a character, so the model holds only for keys without line feeds or carriage returns.
- `VendorMarketplace.OrderRun`: the component does not own the wallet balance. `handleOrder` only passes the new balance to `onWalletUpdate`, and the component that stores it is not part of this model. That component is assumed to store the value and hand it back as `walletBalance` before the next click; `VendorMarketplace.PlaceOrders` and `VendorMarketplace.OrderRunSnoc` rest on the same assumption.
- `DJVoting.Percentage`: percentages are exact reals. The screen divides JavaScript floating-point numbers and shows them with `toFixed(1)`, so three options at one vote each show 33.3% apiece, which add up to 99.9 rather than 100.
- WalletComponent.tsx `handleTopUp`: a timer-simulated payment whose only logic is one addition. It is not part of this model.
- DJBackend.tsx, OrganizerBackend.tsx and VendorBackend.tsx: hard-coded demo arrays and buttons without handlers. There is no queue, ranking, promotion, skip or order-state logic in them to model.
- InteractiveMap.tsx, Dashboard.tsx, RoleSelection.tsx and OrganizationRoleSelection.tsx: static layout and navigation callbacks.
- Voting rounds, timers, tie-breaks, promotion, playback and broadcast: none of this exists in the code. The "2:34" round timer (DJVoting.tsx:130) is a literal.

## Findings

| source | as written | input that shows it | evidently intended | confidence | as-written member | corrected member |
|---|---|---|---|---|---|---|
| src/components/DJVoting.tsx:68 | The badge shows `totalVotes + (hasVoted ? 1 : 0)`. `totalVotes` is summed from the vote state, which `handleVote` has already incremented, so the listener's own vote is counted twice. | One option with 0 votes, click it: the option shows 1 vote and the badge reads "2 votes cast". | The badge shows the number of votes recorded, counting the listener's vote once. | medium, not executed | `DJVoting.BadgeCountAsWritten` (exhibited by `DJVoting.BadgeAsWrittenCountsVoteTwice`, `DJVoting.BadgeAsWrittenExample`) | `DJVoting.BadgeCount` (proved by `DJVoting.BadgeCountsVoteOnce`) |
