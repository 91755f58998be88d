# smart-split: the balance and settlement engine, modelled in Dafny

smart-split is a Flask application for sharing expenses within a group. Its
engine lives in `app.py` and has five parts, each modelled here:

- **Balance aggregation** (`calculate_balances`), in `balances.dfy`. It takes the
  expense/share join rows and the settlement rows of a group. It keeps only those
  that involve current members. It folds them into one signed net balance per
  member: positive when the group owes the member, negative when the member owes.
- **Debt simplification** (`simplify_debts`), in `sorting.dfy` and `simplify.dfy`.
  The balances are split into creditors and debtors. Each list is sorted by
  descending amount. Two cursors then match them greedily, ignoring amounts of
  one cent or less.
- **Expense splitting** (the share computation of `add_expense`), in `split.dfy`.
  An equal split gives each selected member the same part. A custom split first
  checks the custom amounts, then gives each selected member their own amount.
- **Receipt apportionment** (the item processing of `select_receipt_items`), in
  `receipt.dfy`. Receipt lines are assigned to users and guests are dropped.
  Users who paid on the spot ("confirmed payments") are stripped. What is left
  becomes one expense with one aggregated share per user.
- **Upload check** (`allowed_file`), in `upload.dfy`. It accepts a file name whose
  last extension, in any letter case, is an image type.

Two shared modules support these:

- `tally.dfy` models a Python dict that is updated by `d[k] += v` as an
  insertion-ordered list of `(key, value)` pairs with distinct keys. The engine
  builds two such dicts: the `balances` defaultdict and the receipt's
  `user_shares`.
- `common.dfy` holds `Option`, `Result` and `rsplit` at the last occurrence of a
  character.

Amounts are Dafny `real`s. The 0.01 thresholds and tolerances are kept as
1-cent comparisons on them.

The imperative parts of the source are methods with loops. Each one is proved
equal to a recursive specification function, and the properties are proved
about that function as lemmas. These methods are:

- `CalculateBalances`, the defaultdict loops;
- `SimplifyDebts`, the two-cursor loop that rewrites the matched pair in place;
- `SelectItems`, `ParseConfirmedPayments`, `CollectConfirmedIds`,
  `StripConfirmed` and `AggregateShares`, the receipt's accumulating loops.

The share computation of `add_expense` and `allowed_file` are functions.

## Model

| member | source | states |
|---|---|---|
| Balances.CalculateBalances | app.py:345-390 | The balances are the composed share and settlement folds, entry for entry, so the dict order that `simplify_debts` breaks ties by is pinned down. The balances have distinct members. The members are exactly those touched by a counted row. Each member's value is its net balance. The values sum to the credited expense amounts less the counted shares. |
| Balances.CreditedSharesAll | app.py:371-380 | Grouping the share rows by the expense each credited first row stands for gives back the sum of all shares. |
| Balances.BalancesSumToZero | app.py:345-390 | Conservation: when every share row belongs to a current member and each expense's amount is what its shares add up to, the balances sum to zero, whatever the settlements. A removed member's shares, or the custom split of the finding below, break the premise. |
| Balances.ApplyShares | app.py:369-381 | The share loop, with `processed_expenses` kept as a set, ends holding exactly the dict the share fold defines over all counted rows. |
| Balances.ApplySettlements | app.py:383-388 | The settlement loop ends holding exactly the settlement fold over the counted settlements. |
| Balances.ShareStepKeys | app.py:375-380 | One pass of the share loop adds the payer only when its expense id is new, and always adds the row's member. |
| Balances.ShareStepGet | app.py:375-380 | One pass credits the full amount to the payer of an expense id not yet processed, and debits the row's member its share. No other value changes. |
| Balances.ShareStepTotal | app.py:375-380 | One pass raises the sum of all values by the credited amount, if any, less the share. |
| Balances.ShareStepDistinct | app.py:375-380 | One pass keeps members distinct. |
| Balances.AggregateFacts | app.py:369-390 | The same four facts about the function the two loops compute. Settlements cancel out of the sum. |
| Balances.FoldSharesDistinct | app.py:370-381 | The share loop never stores a member twice. |
| Balances.FoldSharesKeys | app.py:373-381 | The share loop touches exactly the credited payers and the members of the counted shares. |
| Balances.FoldSharesValues | app.py:373-381 | After the share loop, each member holds its credits as payer, one per expense, less all of its shares, including a payer's own share. |
| Balances.FoldSharesTotal | app.py:373-381 | After the share loop, the values sum to the credited expense amounts less all shares. |
| Balances.FoldSettlementsDistinct | app.py:383-388 | The settlement loop keeps members distinct. |
| Balances.FoldSettlementsKeys | app.py:383-388 | The settlement loop adds both sides of each settlement to the members. |
| Balances.FoldSettlementsValues | app.py:383-388 | Each settlement adds its amount to the payer and subtracts it from the payee. |
| Balances.FoldSettlementsTotal | app.py:383-388 | Settlements leave the sum of all balances unchanged. |
| Balances.CountedSharesMembers | app.py:349-357 | A share row is counted exactly when it appears in the join and its member is a current member. |
| Balances.CountedSettlementsMembers | app.py:359-365 | A settlement is counted exactly when both its payer and its payee are current members. |
| Balances.FirstRowsIds | app.py:371-378 | Every expense id in the counted rows is credited. |
| Balances.FirstRowsDistinct | app.py:371-378 | No expense id is credited twice, however many share rows carry it. |
| Balances.FirstRowsFirst | app.py:374-378 | The credited row of an expense is the first row that carries its id. |
| Balances.NoDebitOutsideMembers | app.py:349-357 | Someone outside the current members is debited nothing. |
| Balances.NoSettlementOutsideMembers | app.py:359-365 | Someone outside the current members takes part in no counted settlement. |
| Balances.NonMemberBalance | app.py:349-381 | A non-member's balance is only what it is credited as the payer of an expense that still has a counted share. |
| Balances.AppendShareRow | app.py:374-381 | One more join row: a non-member's row changes nothing. Otherwise the row debits its member by its share, and credits its payer with the full amount only when the expense id is new. |
| Balances.AppendSettlement | app.py:384-388 | One more settlement is counted only between two current members. It then moves its amount from the payee's balance to the payer's. |
| DescendingSort.SortIsSorted | app.py:399-400 | The sorted list is in descending order of amount and has the input's length. |
| DescendingSort.SortPermutes | app.py:399-400 | The sorted list is a permutation of the input. |
| DescendingSort.SortStable | app.py:399-400 | Entries with equal amounts keep their input order. |
| DescendingSort.SortKeys | app.py:399-400 | Sorting keeps the set of members. |
| DescendingSort.SortGet | app.py:399-400 | With distinct members, sorting keeps them distinct and keeps each member's amount. |
| Simplify.CreditorsKeys | app.py:394 | The creditors are exactly the members with a positive balance. |
| Simplify.CreditorsGet | app.py:394 | Each creditor appears once, with its balance, and no creditor amount is negative. |
| Simplify.DebtorsKeys | app.py:395 | The debtors are exactly the members with a negative balance. |
| Simplify.DebtorsGet | app.py:395 | Each debtor appears once, with what it owes, and no debtor amount is negative. |
| Simplify.MatchedEnds | app.py:403-414 | Every transaction the loop adds goes from a listed debtor to a listed creditor and moves more than 0.01. |
| Simplify.MatchedCount | app.py:403-422 | The loop adds at most one transaction fewer than the entries left under and after the two cursors. |
| Simplify.MatchedPaid | app.py:403-422 | No debtor pays more than what remained of its debt when the loop reached it. |
| Simplify.MatchedReceived | app.py:403-422 | No creditor receives more than what remained of its credit. |
| Simplify.PlanFacts | app.py:392-424 | Every transaction goes from a member with a negative balance to one with a positive balance and moves more than 0.01. No member pays more than it owes or receives more than it is owed. There are at most one fewer transactions than creditors and debtors together, and none when either list is empty. |
| Simplify.SubCentDebtLeftOpen | app.py:403-421 | Balances of 0.01, 0.01 and -0.02 sum to zero, but the plan is empty: each match settles exactly 0.01, which is not above the threshold. The debtor still owes 0.02 after the plan is replayed. |
| Simplify.SimplifyDebts | app.py:392-424 | The method emits exactly the plan, so all facts above hold. The loop runs at most one round fewer than there are creditors and debtors together. |
| ExpenseSplit.EqualShares | app.py:1162-1171 | One share per selected member, in order. All shares are equal, and they add up to the amount. |
| ExpenseSplit.CustomShares | app.py:1172-1180 | One share per selected member, in order. Each share is the number the custom-amounts object stores under that member's id. |
| ExpenseSplit.Split | app.py:1125-1180 | A form that fails a validator is refused: blank or over-long description, amount below 0.01, payer not a member, empty selection or one outside the members. A custom split succeeds exactly when its data parses, its total is within 0.01 of the amount and every selected member has an entry. Invalid custom data is reported exactly when the text is not JSON or a value is not a number. JSON that is not an object ends in the uncaught error. A total mismatch is reported exactly when the data parses but the total is off by more than 0.01. A selection that repeats a member fails exactly when every other check passes, because the second share insert breaks `UNIQUE(expense_id, user_id)` (app.py:270) and nothing is committed. On success there is one share per selected member, in order, no member has two shares, and a custom split uses the custom values. |
| ExpenseSplit.EqualSplitSums | app.py:1162-1171 | A valid equal split succeeds exactly when no member is selected twice. Then each share is `amount / n`, and the shares sum to the amount. |
| ExpenseSplit.RepeatedMemberRefused | app.py:1164-1171 | An equal split of 10 among member 1 selected twice records nothing: the duplicate share fails. |
| ExpenseSplit.UnselectedAmountsCounted | app.py:1131-1145 | A custom split whose custom amounts include an unselected member is accepted with shares that do not sum to the amount (see Findings). |
| ExpenseSplit.SplitChecked | app.py:1129-1180 | The corrected split: one share per selected member, in order, and no member has two shares. |
| ExpenseSplit.SplitCheckedSums | app.py:1129-1180 | With the corrected check, accepted shares sum to the amount within 0.01, and exactly for an equal split. |
| Receipt.WithinMembers | app.py:1344 | The filter keeps exactly the assignees who are group members; guests are dropped. |
| Receipt.OutsideMembers | app.py:1401 | The filter keeps exactly the assignees who have not confirmed a payment. |
| Receipt.ScanFailureStays | app.py:1362-1366 | A line with an unparsable price ends the item loop; later lines do not change the error. |
| Receipt.ScanKeepsMembers | app.py:1343-1360 | Every kept item has at least one assignee, all of them group members. There are no more items than lines. |
| Receipt.ScanUsers | app.py:1343-1360 | Every user of a kept item is a group member. |
| Receipt.ScanBadPrice | app.py:1343-1366 | The item loop succeeds exactly when every line with a group member on it has a parsable price. A failure names such a line. |
| Receipt.SelectItems | app.py:1321-1373 | The selection is the item loop followed by the refusal of an empty selection. `total_amount` is the sum of the kept items' prices. |
| Receipt.ConfirmedPaymentsNames | app.py:1376-1386 | A name has a confirmed payment exactly when some key splits at its last `_` into that name and a parsable amount. |
| Receipt.NameWithUnderscores | app.py:1378-1385 | The key `name + "_" + amount` records the amount under `name`, even when the name holds underscores. |
| Receipt.ParseConfirmedPayments | app.py:1376-1386 | The loop builds the confirmed-payment dict. |
| Receipt.ConfirmedIdsMembers | app.py:1388-1392 | An id is confirmed exactly when some member with that id has a confirmed username. |
| Receipt.CollectConfirmedIds | app.py:1388-1392 | The loop collects exactly the confirmed ids. |
| Receipt.StripNonEmpty | app.py:1394-1411 | Every item left after stripping still has an assignee. |
| Receipt.StripUsers | app.py:1394-1411 | After stripping, the users are exactly the previous users minus the confirmed ones. |
| Receipt.StripEmpty | app.py:1394-1423 | No item is left, and no expense is recorded, exactly when every assignee of every item has confirmed. |
| Receipt.StripConfirmed | app.py:1394-1411 | The loop gives the stripped items, and `actual_total_amount` is the sum of their prices. |
| Receipt.AddEachDistinct | app.py:1439-1444 | Adding one share per listed user keeps `user_shares` free of duplicates. |
| Receipt.AddEachKeys | app.py:1439-1444 | Adding one share per listed user adds exactly the listed users as keys. |
| Receipt.AddEachGet | app.py:1439-1444 | A user's value grows by one share each time the user is listed. |
| Receipt.AddEachTotal | app.py:1439-1444 | The total grows by one share per listed user. |
| Receipt.RepeatIsProduct | app.py:1441-1445 | `n` equal shares add up to `n` times the share. |
| Receipt.EvenSplit | app.py:1405 | An item's per-user share, counted once for each of its users, adds up to its price. |
| Receipt.UserSharesKeys | app.py:1437-1452 | The aggregated shares hold one entry per user, and their users are exactly the items' users. |
| Receipt.UserSharesGet | app.py:1437-1452 | Each user's aggregated share is what it owes: the item's share once for each time the user is listed on the item. |
| Receipt.UserSharesTotal | app.py:1437-1452 | When every item has an assignee, the aggregated shares sum exactly to the items' prices. |
| Receipt.AggregateShares | app.py:1437-1444 | The nested loop builds exactly the aggregated shares. |
| Receipt.ApportionFacts | app.py:1321-1452 | A submission fails exactly when the selection fails. Nothing is recorded exactly when every selected user confirmed. Otherwise the expense is paid by the bill payer. Its shares name each unpaid group member once and no one who confirmed, and they sum to the expense amount. |
| Receipt.ConfirmedPaymentMovesShare | app.py:1376-1452 | A pizza for 20 split between B and C, with B's 10.00 confirmed: one expense of 20 with C owing all of it. |
| Receipt.ApportionReceipt | app.py:1321-1452 | The handler's steps compose to the specified outcome. |
| Upload.Lower | app.py:619 | The result has the same length and no upper-case ASCII letter. Each upper-case letter becomes the same letter in lower case, and every other character is kept. |
| Upload.AllowedName | app.py:616-619 | `base.ext`, with no dot in `ext`, is accepted exactly when `ext` lower-cased is png, jpg, jpeg, gif, bmp or webp, whatever the base holds. |
| Upload.AllowedSplits | app.py:616-619 | Every accepted name is a base, a dot and an accepted extension that has no dot in it. |
| Upload.CaseInsensitive | app.py:616-619 | The letter case of the extension does not matter. |
| Upload.DoubleExtensionRefused | app.py:616-619 | `receipt.png.exe` is refused: only the last extension counts. |
| Upload.UpperCaseAccepted | app.py:616-619 | `receipt.JPG` is accepted. |

## Left out

- The database is not modelled. The two SELECTs of `calculate_balances` are input
  sequences: the join rows, already restricted to the group, and the settlements.
  The member filter of their WHERE clauses is modelled as set membership. The
  INSERTs of `add_expense` and `select_receipt_items` become the returned shares
  and the returned `Outcome`. The commit and rollback are left out. The one
  constraint that decides an outcome, `UNIQUE(expense_id, user_id)` on
  `expense_shares`, is modelled as the `DuplicateShare` error.
- Flask is not modelled: requests, sessions, flash messages, templates, redirects
  and authentication. Form fields arrive as already-decoded values.
- IEEE floating point is not modelled. Amounts are exact reals.
- SimplifyDebts: the emitted amount is the unrounded settle amount.
  `round(settle_amount, 2)` at app.py:413 is not modelled.
- Receipt: `individual_share = round(price / n, 2)` at app.py:1352 is never used
  afterwards, so it is left out.
- JSON decoding is not modelled:
  - `custom_amounts` is text that is not JSON (`Malformed`), JSON that is not
    an object (`NotAnObject`), or the object's entries, each value already run
    through `float()`. For `NotAnObject`, `.values()` at app.py:1132 raises
    `AttributeError`. The `except` at app.py:1147 does not catch it, so the
    request fails with an unhandled exception. The model returns the
    `Unhandled` error for it.
  - `confirmed_payments` is already a list of string keys. The fallback to `[]`
    on a decode error is left to the caller. A non-string element, which would
    raise in `'_' in key`, is not representable.
- The float parsing of receipt prices and confirmed amounts is not modelled.
  `float(item.get('price', 0))` is an `Option<real>` per line, and parsing the
  confirmed amount is a `parseFloat` parameter.
- Converting user ids with `int()` (app.py:1335, 1340) is not modelled; ids
  arrive as integers. The `ValueError` such a conversion could raise, outside
  the `try`, is not modelled.
- The bill-payer lookup (app.py:1284-1299) runs before the modelled code. The
  payer is a parameter.
- `guest_users` (app.py:1310-1316) is parsed but never used by the source, so it
  is left out. Guests are dropped by the group-member filter.
- Fields the engine copies but never reads are left out: `is_split` and the
  store name. The expense description is modelled only for its validators.
- ExpenseSplit.FormValid: the CSRF check of `validate_on_submit()` is not
  modelled. `DataRequired` on the description treats as blank the ASCII
  characters `str.strip()` removes: space, tab, line feed, vertical tab, form
  feed, carriage return and U+001C to U+001F. Non-ASCII whitespace that
  `str.strip()` also removes, such as U+00A0, is not modelled.
- `MultiCheckboxField` (app.py:93) is a widget class. Its data is the `splitAmong`
  sequence.
- Python's `list.sort(key=..., reverse=True)` is modelled by a stable insertion
  sort, `DescendingSort.Sort`, with the same order, including ties.
- Simplify.PlanFacts: only upper bounds are proved: no member pays more than it
  owes or receives more than it is owed. Replaying the plan does not always
  bring every balance within 0.01 of zero, because settles of exactly 0.01 or
  less are skipped. `Simplify.SubCentDebtLeftOpen` shows a debt of 0.02 left
  open. No lower bound on what is paid or received is stated.
- Simplify.SimplifyDebts: the bound on loop rounds is stated on a ghost
  out-parameter that counts rounds.
- Upload.Lower: `str.lower()` is modelled for ASCII letters only. Other Unicode
  case mappings are not modelled.

A negative item price is accepted: any value `float()` parses is kept
(app.py:1349). The final per-user shares are not rounded (app.py:1405). The
model follows the code. The receipt reader that builds the item data,
`analyze_receipt_with_gemini` (app.py:729-742), replaces a missing or
unparsable price with 0.0 and a negative one with 0.0. Items are read from
`session['receipt_analysis']` (app.py:1279, 1325), which only app.py:1239 fills
with that reader's output. So a `BadPrice` failure or a negative price arises
only from a session the reader did not build, for example a forged session
cookie (`SECRET_KEY` defaults to a constant, app.py:29).

## Findings

| source | as written | input that shows it | evidently intended | confidence | as-written member | corrected member |
|---|---|---|---|---|---|---|
| app.py:1131-1145 | The custom-split tolerance check sums every entry of `custom_amounts`, including entries of members who are not selected. Shares are inserted only for the selected members. | Amount 50, split among member 1 only, custom amounts `{"1": 20, "2": 30}`: accepted, and the one share is 20. | Only the selected members' custom amounts, the ones that become shares, are checked against the amount. Accepted shares then sum to the amount within 0.01. | not executed | ExpenseSplit.UnselectedAmountsCounted | ExpenseSplit.SplitCheckedSums |
