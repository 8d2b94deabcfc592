# Expense splitter ledger — a Dafny model

This project models the core of an expense-splitting web application. The
Flask back end (`backend/app.py`) keeps users, groups and their members,
expenses, per-member split rows and payments in a relational store. On top of
that store it answers:

- which payments a user still owes;
- per-user balances within a group, and a greedy plan of transfers that
  settles them;
- spending analytics and a summary for one user;
- a post-processing of scanned receipt text into an amount, a date, a
  category and line items.

The React front end adds a few pure helpers, which are modelled too:

- a chat assistant that sanitises user names and turns a parsed expense
  command into a request;
- an add-expense form;
- the settlement-suggestion page;
- the summary page.

## Layout

| module (file) | models |
|---|---|
| `Basics` (basics.dfy) | Option/Result, distinctness, filtering, reversal |
| `Text` (text.dfy) | trimming, character removal, splitting and joining, decimal digits |
| `Tally` (tally.dfy) | a Python dict of running totals as a sequence of distinct-key entries |
| `Sorting`, `Ranked` (sorting.dfy, ranked.dfy) | stable descending sorts standing in for `ORDER BY ... DESC` and Python/JS sorts |
| `Settlement` (settlement.dfy) | `balances_for_group`: balances, creditors/debtors, the two-index greedy loop |
| `Ledger` (ledger.dfy) | the store as a class `Ledger.Store` whose methods are the writing endpoints |
| `Queries` (queries.dfy) | the reading endpoints: pending payments, settlement suggestions, overview, summary |
| `Analytics` (analytics.dfy) | the aggregations of `analytics_overview` and `_summary_data_for_user` |
| `Receipt` (receipt.dfy) | `parse_receipt` and `extract_line_items` on given pattern matches |
| `Chatbot` (chatbot.dfy) | `sanitizeUsername`, `parseExpenseCommand` after its regexes, `buildContext` spend figures, the `addExpense` payload |
| `GroupForm` (group_details.dfy) | the add-expense form of `GroupDetails.jsx`, as a class `GroupForm.Form` over its state |
| `SettlementView` (settlement_view.dfy) | `initials`, the `groups` memo and the badge of `SettlementSuggestions.jsx` |
| `SummaryView` (summarization.dfy) | KPI defaults, `top3` and `renderAi` of `Summarization.jsx` |

## Modelling decisions

- **Money and balances.** Money is an exact `real`. An equal share is
  `amount / |members|`, exactly.
- **Settlement cents.** Creditor and debtor amounts are integer cents after
  rounding half up. The loop's "at most half a cent left" test is therefore
  "nothing left", and every transfer is a positive whole number of cents.
- **Balances need not sum to zero.** The payer is credited the full amount but
  has no split row for their own share. The model keeps this and makes no claim
  that balances sum to zero. `Settlement.TwoPayerOwed` and
  `Settlement.TwoPayerPlan` work through a two-payer group. There, the
  creditors are left with a residue after settlement.
- **Dictionaries.** A Python dict of totals, such as `bal`, is a sequence of
  entries with distinct keys in insertion order.
  `bal[k] = bal.get(k, 0) + v` is `Tally.Add`. The JavaScript object
  `spendByGroup` is filled the same way, but `Object.entries` lists it
  differently: array-index keys such as "2024" come first, in ascending
  numeric order, and the other keys follow in creation order
  (`Chatbot.ObjectEntries`).
- **Date captures.** The receipt parser and the add-expense form match the
  same date pattern but read its captures differently. The parser reads day,
  month, year (`Receipt.DateMatch`). The form reads month, day, year
  (`GroupForm.JsDateMatch`).
- **SQL result order.** `GROUP BY` yields groups in order of first
  occurrence. Every `ORDER BY ... DESC` is a stable descending insertion sort.
  Ties are left in that order; SQL itself does not fix an order for ties.
  Month strings and (date, time) pairs are compared by their character codes.
- **Store tables and keys.** Each table of the store is a sequence field of
  `Ledger.Store`. The keys in `backend/init_expenseDB.py` are invariants of
  `Valid()`:
  - the primary keys of users, groups and expenses;
  - the `(expense_id, username)` key of split rows and the unique key of
    payments;
  - the foreign keys.

  The invariant also says that memberships are distinct, which `add_member`
  enforces with its 409 check, and that a payer gets no split row for their
  own expense.
- **Store errors.** Where the database would raise a key violation, the
  method answers 500 and leaves the tables alone:
  - a clashing generated id in `create_group` and `create_expense`;
  - a payment for an unknown expense or user.
- **Inputs from outside.** Generated ids (`uuid4`), the clock (`now`, today's
  date), password hashes and regular-expression captures are parameters.
- **Front-end state.** Each React state hook is a field of a form state.
  An event handler or effect is one method that replaces that state. The reply
  of a `fetch` is a parameter of the method that would await it.

## Model

| member | source | states |
|---|---|---|
| Settlement.RoundCentsPositive | backend/app.py:823-824 | a balance above half a cent rounds to at least one cent |
| Settlement.BalancesSpec | backend/app.py:801-820 | each user's balance is what they paid minus what they owe; exactly the users who paid or owe have one, each once |
| Settlement.BuildBalances | backend/app.py:801-820 | the two accumulation loops build the balances of `Balances`, with distinct users and paid minus owed for each |
| Settlement.Negate | backend/app.py:819-820 | subtracting owed totals is adding their negations, over the same users |
| Settlement.Creditors | backend/app.py:823 | creditors are exactly the users with balance above half a cent, with that balance in cents, and each is owed at least a cent |
| Settlement.Debtors | backend/app.py:824 | debtors are exactly the users with balance below minus half a cent, with the debt in cents, and each owes at least a cent |
| Settlement.LargestSpec | backend/app.py:825-826 | the sort is largest first, a permutation, and keeps parties with equal amounts in their original order |
| Settlement.AfterPaySpec | backend/app.py:831-839 | one payment lowers exactly the head party's amount by the payment, keeps all amounts positive and leaves no more parties |
| Settlement.GreedyShape | backend/app.py:830-835 | every transfer is positive, from a debtor to a creditor |
| Settlement.GreedyCount | backend/app.py:829-839 | no transfers when either side is empty; otherwise at most debtors plus creditors minus one |
| Settlement.GreedyBounds | backend/app.py:830-835 | nobody pays more than they owe or receives more than they are owed, and the total moved is the smaller of total debt and total credit |
| Settlement.GreedySettles | backend/app.py:829-839 | the side with the smaller total is settled in full: every debtor pays exactly its debt, or every creditor receives exactly its credit |
| Settlement.GreedyAtRemaining | backend/app.py:829-839 | the index-based loop from positions i and j computes the greedy plan of the remaining parties |
| Settlement.Settle | backend/app.py:828-839 | the while loop over i and j, updating amounts in place, emits exactly the greedy plan |
| Settlement.SuggestTransfers | backend/app.py:801-839 | the whole engine's transfers are the plan for the balances |
| Settlement.PartiesAmounts | backend/app.py:823-824 | a user's debtor amount and creditor amount are their rounded debt and credit, zero when they are not on that side |
| Settlement.PartyBalance | backend/app.py:823-824 | a debtor's balance is below minus half a cent and a creditor's above half a cent |
| Settlement.SortedParties | backend/app.py:823-826 | the sorted lists hold positive amounts that add up to the total debt and the total credit, user by user |
| Settlement.PlanShape | backend/app.py:828-839 | every transfer of the plan is positive, from a user with a negative balance to one with a positive balance |
| Settlement.PlanAmounts | backend/app.py:828-839 | per user, the plan pays at most the debt and delivers at most the credit; the total moved is the smaller total, and the smaller side is settled in full |
| Settlement.PlanCount | backend/app.py:829-839 | the plan has at most debtors plus creditors minus one transfers, none if a side is empty |
| Settlement.SinglePayerPlan | backend/app.py:801-839 | A pays 30 owed 10 each by B and C: balances 30, -10, -10, and the plan is B and C each paying A 1000 cents |
| Settlement.TwoPayerOwed | backend/app.py:809-820 | after owed amounts 10, 20 and 10, the balances are 20, 20 and -20, which do not sum to zero |
| Settlement.TwoPayerPlan | backend/app.py:801-839 | A and B each pay 30, split equally with C: the plan is one transfer of 2000 cents from C to A, and creditor B keeps a residue |
| Ledger.FindExpense | backend/app.py:660-661 | finds an expense with that id exactly when one exists |
| Ledger.FindGroup | backend/app.py:222-226 | finds a group with that id exactly when one exists |
| Ledger.FindExpenseUnique | backend/init_expenseDB.py:37 | with unique ids, looking up an expense's id yields that expense |
| Ledger.GroupMembers | backend/app.py:308-309 | the member names of a group are exactly the names of its membership rows |
| Ledger.GroupMembersDistinct | backend/app.py:308-309 | with distinct memberships the member names are distinct |
| Ledger.EqualSplitsSpec | backend/app.py:311-321 | an equal split has one row per member other than the payer, each the share, with distinct keys; its count is members minus one when the payer is a member |
| Ledger.SplitLoop | backend/app.py:313-321 | the loop over members produces the rows of the equal split |
| Ledger.SettledIffAllPaid | backend/app.py:717-726 | the distinct split users equal the distinct paying split users in number exactly when every split user has paid |
| Ledger.Restatus | backend/app.py:726-735 | only the paid expense changes: paid when settled, pending becomes partial otherwise, other statuses stay |
| Ledger.RegisterKeeps | backend/app.py:66-69 | adding a new user keeps the store consistent |
| Ledger.CreateGroupKeeps | backend/app.py:133-143 | adding a group with an existing creator, and the creator's membership, keeps the store consistent |
| Ledger.AddMemberKeeps | backend/app.py:246-249 | adding a new membership of an existing group and user keeps the store consistent |
| Ledger.NewExpenseKeys | backend/app.py:300-321 | a new expense and its split rows keep every key distinct |
| Ledger.CreateExpenseKeeps | backend/app.py:300-321 | inserting a valid expense with its equal-split rows, or no rows, keeps the store consistent |
| Ledger.DeleteExpenseKeeps | backend/app.py:391-394 | deleting an expense with its split rows and payments keeps the store consistent |
| Ledger.RestatusKeeps | backend/app.py:726-735 | changing a status keeps expense keys, foreign keys, split backing and every expense present |
| Ledger.PaymentKeeps | backend/app.py:711-735 | recording a new payment and restatusing its expense keeps the store consistent |
| Ledger.Store.constructor | backend/init_expenseDB.py:5-75 | the store starts with every table empty and consistent |
| Ledger.Store.RegisterUser | backend/app.py:51-78 | missing fields give 400 and a taken name 409, changing nothing; otherwise exactly the new user is added |
| Ledger.Store.CreateGroup | backend/app.py:111-157 | trimmed blank fields give 400, an unknown creator 404 and a reused id 500, changing nothing; otherwise the group and the creator's membership are added |
| Ledger.Store.AddMember | backend/app.py:207-258 | blank fields 400, an unknown group or user 404, an existing member 409, all changing nothing; otherwise exactly that one membership is added |
| Ledger.Store.CreateExpense | backend/app.py:260-336 | required fields 400, a non-positive amount 400, an unknown group or payer 404, a reused id 500; otherwise the trimmed expense is added as pending, with equal-split rows only for the 'equal' type |
| Ledger.Store.Insert | backend/app.py:300-321 | appends the expense and its rows and keeps the store consistent |
| Ledger.Store.DeleteExpense | backend/app.py:377-403 | a missing id gives 400; otherwise the expense, its splits and its payments are removed and nothing else |
| Ledger.Store.MakePayment | backend/app.py:684-743 | missing fields 400, a repeat payment 'Already paid' 400, an unknown expense or user 500, all writing nothing; otherwise the payment is added and the expense restatused by whether all split users have paid |
| Queries.OwedItems | backend/app.py:646-667 | the items are exactly the user's split rows of expenses someone else paid that have no payment |
| Queries.SumOwedSorted | backend/app.py:666-679 | sorting the items by date does not change what they add up to |
| Queries.PendingSpec | backend/app.py:633-680 | a missing user is an error; otherwise the pending list is latest first, holds exactly the unpaid items owed to others, and the total is their sum |
| Queries.PendingComplete | backend/app.py:646-672 | in a consistent store every unpaid split row of an expense paid by someone else is listed with its amount |
| Queries.PaidRowsGet | backend/app.py:804-806 | a user's paid total is the sum of the group's expenses they paid; exactly the payers appear |
| Queries.OwedRowsGet | backend/app.py:809-820 | a user's owed total is the sum of their split rows in the group; exactly those users appear |
| Queries.GroupBalances | backend/app.py:801-820 | the group's balances are distinct per user and equal paid minus owed; exactly the users who paid or owe appear |
| Queries.PlanForSpec | backend/app.py:799-847 | the group name is present exactly when the group exists; every transfer is positive, from a user whose balance is a debt to one whose balance is a credit |
| Queries.BalancesForGroup | backend/app.py:799-847 | the method computes the group's plan from the store |
| Queries.UserGroupIds | backend/app.py:856-857 | the ids are exactly the existing groups the user is a member of |
| Queries.UserGroupIdsDistinct | backend/app.py:856-857 | with distinct memberships the group ids are distinct |
| Queries.PlansFor | backend/app.py:858 | one plan per group id, in order |
| Queries.PlansLoop | backend/app.py:858 | the loop over the group ids computes those plans |
| Queries.SuggestSettlements | backend/app.py:783-861 | the endpoint method answers as the suggestion function does |
| Queries.SuggestSpec | backend/app.py:783-864 | blank group and user give 400; a group id gives that group's plan; a user gives one plan per group they belong to, each group once |
| Queries.ExpenseRowsDistinct | backend/app.py:574-580 | with distinct memberships the join yields an expense once for a member and not at all otherwise |
| Queries.UserRowsSpec | backend/app.py:574-580 | the join rows are the rows of the expenses of the user's groups, in store order |
| Queries.SpendOfRows | backend/app.py:574-581 | the total of those rows is the spend of the user's groups |
| Queries.OverviewForSpec | backend/app.py:565-581 | a blank user is an error; otherwise the total spend is that of the user's groups |
| Queries.NoDataIff | backend/app.py:946-948 | there is no data exactly when no expense belongs to a group of the user |
| Queries.SummaryAiSpec | backend/app.py:935-948 | a blank user is an error; the friendly no-data text comes exactly when no expense belongs to a user's group |
| Analytics.TotalColumn | backend/app.py:574-581 | the keyed column of the rows adds up to the total spend |
| Analytics.TotalPositive | backend/app.py:946-947 | with positive amounts the total is positive exactly when there are rows |
| Analytics.ColumnKeys | backend/app.py:584-605 | the column's keys are the keys of the rows |
| Analytics.BreakdownSpec | backend/app.py:583-605 | by-group and by-payer totals are sorted largest first, one per key, exactly the keys present, each the sum for its key, adding up to the total spend |
| Analytics.MonthlySpec | backend/app.py:607-619 | at most six months, strictly oldest to newest, each with its total; a month with data is left out only when six later months are shown |
| Analytics.WhenKeyOrder | backend/app.py:901 | the recency key orders by date, then by time on equal dates |
| Analytics.LatestSpec | backend/app.py:895-904 | at most ten rows, latest first, taken from the rows; no row left out is later than one kept |
| Analytics.Items | backend/app.py:904 | each recent row becomes an item with its title, amount, date and group |
| Analytics.QuickSpec | backend/app.py:908-915 | `quick` is absent exactly without rows; otherwise it counts up to ten items and names the group with the largest total |
| Analytics.HeadLargest | backend/app.py:914 | the first entry of the by-group list has the largest total |
| Analytics.NoDataSpec | backend/app.py:946-948 | with positive amounts there is no data exactly when there are no rows |
| Receipt.ParseCents | backend/app.py:490 | a cents amount written with two decimals reads back as that amount |
| Receipt.ParseAll | backend/app.py:496 | all currency captures read, in order, exactly when each one does |
| Receipt.Max | backend/app.py:497 | the maximum is one of the amounts and no amount exceeds it |
| Receipt.AmountSpec | backend/app.py:488-497 | a non-zero total capture gives its value; without one, the largest currency amount, or 0 with none; an unreadable capture raises |
| Receipt.ExpandYearValue | backend/app.py:504-505 | a two-digit year yy becomes the four digits of 2000 + yy |
| Receipt.FormatDateFields | backend/app.py:508 | a calendar date is written YYYY-MM-DD and its fields read back |
| Receipt.ReceiptDateSpec | backend/app.py:499-510 | the date is today's unless the capture is a calendar date, two-digit years being in the 2000s, and then it is that date |
| Receipt.Category | backend/app.py:513-519 | the scanning loop yields the category function's result |
| Receipt.CategorySpec | backend/app.py:513-527 | 'Purchase' when none of the first five lines fits; otherwise the first fitting trimmed line; never over 50 characters |
| Receipt.FirstFitSpec | backend/app.py:515-519 | the scan yields the first trimmed line of length 4 to 49, else 'Purchase' |
| Receipt.CandidateBounds | backend/app.py:541-550 | a kept item has a price strictly between 0 and 10000 and a name of 3 to 50 characters |
| Receipt.FilterItems | backend/app.py:541-550 | the filtering loop yields the filtered items |
| Receipt.FilteredSpec | backend/app.py:541-550 | the filtered items are exactly the candidates of the matches |
| Receipt.UniqueItems | backend/app.py:552-559 | the loop with its seen set yields the deduplicated items |
| Receipt.DedupeSpec | backend/app.py:552-559 | no duplicates, the same items, in order of first occurrence |
| Receipt.ExtractLineItems | backend/app.py:532-561 | the method yields the line items of the function |
| Receipt.LineItemsSpec | backend/app.py:532-561 | at most 20 distinct items, each within bounds and from a match, a prefix of the deduplicated list, and complete when fewer than 20 |
| Receipt.ParseReceipt | backend/app.py:485-530 | fails exactly when an amount capture does not read; otherwise the amount, date, category cut to 50, line items and text cut to 500 |
| Text.TrimProperties | backend/app.py:516 | a trimmed string has no outer whitespace and is the middle of the input with only whitespace cut off |
| Text.TrimIdempotent | backend/app.py:516 | trimming twice is trimming once |
| Text.Split | backend/app.py:513 | pieces hold no separator and join back to the input |
| Text.Take | backend/app.py:527-529 | a slice `[:n]` is the prefix of length min(n, length) |
| Text.PadNatParse | backend/app.py:508 | a zero-padded number reads back as that number |
| Tally.AddGet | backend/app.py:806 | adding to a key raises that key's total and the grand total by the amount, and no other |
| Tally.AddKeys | backend/app.py:806 | adding keeps the keys, or appends a new key at the end |
| Tally.AccumulateSpec | backend/app.py:805-820 | accumulating rows adds their totals per key, unions the keys and keeps them distinct |
| Tally.GroupBySpec | backend/app.py:590 | grouping yields distinct keys, exactly those of the rows, each with its sum, adding up to the total |
| Sorting.SortDescSpec | backend/app.py:825-826 | the sort is descending and stable: the elements with any given key keep their order |
| Ranked.ByTotalSpec | backend/app.py:591 | ordering by total is a permutation, descending, with the same total and distinct keys kept |
| Ranked.ByKeyDescSpec | backend/app.py:615 | ordering by key is a permutation, descending and distinct keys kept |
| Chatbot.SanitizeSpec | frontend/src/FinancialChatbot.jsx:11-22 | an empty name stays empty; the result has no '*' or '_' and no outer whitespace |
| Chatbot.SanitizeShape | frontend/src/FinancialChatbot.jsx:16-21 | removing '**' then '*' (and '__' then '_') is removing every '*' (and '_') |
| Chatbot.SanitizeIdempotent | frontend/src/FinancialChatbot.jsx:16-21 | sanitising twice is sanitising once |
| Chatbot.FindGroup | frontend/src/FinancialChatbot.jsx:126-131 | no group exactly when none matches; a result is a matching group |
| Chatbot.FindGroupFirst | frontend/src/FinancialChatbot.jsx:126-131 | the group found is the first that matches in list order |
| Chatbot.EmptyNameMatches | frontend/src/FinancialChatbot.jsx:128-130 | a group without a name matches every token |
| Chatbot.ParseCommandSpec | frontend/src/FinancialChatbot.jsx:103-152 | null exactly without an amount, without a group token or without a matching group; otherwise the captured amount, the trimmed description or 'Expense', the resolved payer and the first matching group |
| Chatbot.ResolvePaidBySpec | frontend/src/FinancialChatbot.jsx:135-143 | no 'paid by', 'me' or the user's own name in any case give the sanitised user; anything else the sanitised capture |
| Chatbot.PaidBySanitisedUser | frontend/src/FinancialChatbot.jsx:135-137 | sanitising the already sanitised user changes nothing |
| Chatbot.SpendRows | frontend/src/FinancialChatbot.jsx:66-68 | each expense adds its absolute amount to its group, or to 'Unknown' |
| Chatbot.SpendByGroup | frontend/src/FinancialChatbot.jsx:65-69 | the forEach loop fills the buckets as grouping the spend rows does |
| Chatbot.TotalSpentRows | frontend/src/FinancialChatbot.jsx:62-68 | the spend rows add up to totalSpent |
| Chatbot.SpendSpec | frontend/src/FinancialChatbot.jsx:62-69 | one bucket per group name present, each its sum, adding up to totalSpent, and never the empty name |
| Chatbot.TopGroupsSpec | frontend/src/FinancialChatbot.jsx:71-75 | at most three buckets, largest first, from the buckets, none left out larger than one shown |
| Chatbot.ObjectEntriesPerm | frontend/src/FinancialChatbot.jsx:71 | `Object.entries` lists each bucket exactly once |
| Chatbot.ObjectEntriesIndexFirst | frontend/src/FinancialChatbot.jsx:71 | array-index keys come first, in ascending numeric order |
| Chatbot.ObjectEntriesRest | frontend/src/FinancialChatbot.jsx:71 | after them come the other keys, in creation order |
| Chatbot.NumeralGroupFirst | frontend/src/FinancialChatbot.jsx:98 | with 5 spent in group "b" and then 5 in "2024", the top group is "2024", because the sort keeps the entries' order on ties |
| Chatbot.TopSpendingSpec | frontend/src/FinancialChatbot.jsx:98 | 'None' without expenses; otherwise a bucket with the largest total |
| Chatbot.PayloadSpec | frontend/src/FinancialChatbot.jsx:154-167 | the request is an equal split over the members of the matched group, with the parsed amount and payer |
| GroupForm.ToggleMember | frontend/src/GroupDetails.jsx:113-115 | a present member is removed everywhere and nothing else; an absent one is appended |
| GroupForm.ToggleTwice | frontend/src/GroupDetails.jsx:113-115 | toggling an absent member twice restores the list |
| GroupForm.NormalizeDateSpec | frontend/src/GroupDetails.jsx:28-42 | empty gives today; an ISO calendar-date string is kept; a capture gives the month from its first field, the day from its second and the year from its third, two-digit years in the 2000s; otherwise today |
| GroupForm.ReceiptDateKept | frontend/src/GroupDetails.jsx:31 | a date the receipt parser produced is kept unchanged |
| GroupForm.NumberTextParses | frontend/src/GroupDetails.jsx:76 | a whole-cent amount written as JavaScript prints it reads back as that amount |
| GroupForm.ItemLines | frontend/src/GroupDetails.jsx:79 | each line item becomes its "name - $price" text |
| GroupForm.NotesSpec | frontend/src/GroupDetails.jsx:78-80 | no items give ''; one item its text; more items joined with '; ' |
| GroupForm.FindById | frontend/src/GroupDetails.jsx:100 | no group exactly when none has that id; a result has that id |
| GroupForm.SyncedSpec | frontend/src/GroupDetails.jsx:94-111 | only the selection, payer and split members change, and syncing twice is syncing once; no selection clears group and split members; a group with members sets all of them for the split and the payer to the user if a member, else a member |
| GroupForm.SubmitSpec | frontend/src/GroupDetails.jsx:117-139 | a request is sent exactly when the form can submit and has split members; otherwise the matching error; the request carries the form's fields, and all group members for 'equal' or the selected ones otherwise |
| GroupForm.AnsweredSpec | frontend/src/GroupDetails.jsx:145-157 | a created reply clears title, amount and notes and reports success; any other reply only sets the error message |
| GroupForm.PrefilledSpec | frontend/src/GroupDetails.jsx:74-81 | only title, amount, date and notes change: category or 'Purchase', the amount as readable text, notes empty exactly without items; a parser date kept, another captured date the one the `Date` built, anything else today |
| GroupForm.Form.constructor | frontend/src/GroupDetails.jsx:6-19 | the initial state: the passed group selected, today's date, the user as payer, an equal split |
| GroupForm.Form.GroupsLoaded | frontend/src/GroupDetails.jsx:48-50 | the list is stored, and its first group selected when none was |
| GroupForm.Form.Sync | frontend/src/GroupDetails.jsx:94-111 | the state becomes the synced state |
| GroupForm.Form.Toggle | frontend/src/GroupDetails.jsx:113-115 | only the split members change, toggled |
| GroupForm.Form.Prefill | frontend/src/GroupDetails.jsx:67-86 | the state becomes the prefilled state |
| GroupForm.Form.AddExpense | frontend/src/GroupDetails.jsx:117-158 | a rejected submit sends nothing and sets only the message; otherwise the payload is sent and the reply applied |
| SettlementView.InitialsSpec | frontend/src/SettlementSuggestions.jsx:12-13 | at most two characters; none for a blank name; the upper-cased first character, and a second one exactly when there is inner whitespace, being the character after the first word and its whitespace |
| SettlementView.SplitSpacesFirst | frontend/src/SettlementSuggestions.jsx:13 | the first piece is the first word, and the rest are the pieces after the next whitespace run |
| SettlementView.ShownSpec | frontend/src/SettlementSuggestions.jsx:34-38 | with a group id and data, exactly one group under that id whose transfers are always present, so its badge reads 'All settled' exactly when the answer has no transfers and otherwise counts the answer's; without one, only groups of an array answer, as they are |
| SettlementView.BadgeSpec | frontend/src/SettlementSuggestions.jsx:77-78 | 'All settled' exactly without transfers; otherwise the count in decimal, " transfer", and a final 's' exactly for more than one |
| SummaryView.KpisSpec | frontend/src/Summarization.jsx:39-42 | without data 0, '-', 0, 0; with data the total spend, the recent count up to ten, and a top group with the largest total |
| SummaryView.Top3Spec | frontend/src/Summarization.jsx:44-49 | [] without data; otherwise the first at most three groups, largest first, none left out larger than one shown |
| SummaryView.SplitLines | frontend/src/Summarization.jsx:57 | the pieces between line feeds, each but the last without its carriage return, none holding a line feed |
| SummaryView.BulletTextSpec | frontend/src/Summarization.jsx:58 | a bullet is whitespace, a dash, whitespace, then its shown text, which does not start with whitespace |
| SummaryView.RenderAiSpec | frontend/src/Summarization.jsx:55-59 | the placeholder exactly for empty text; otherwise each non-empty line goes to exactly one of paragraphs or bullets: paragraphs are the non-bullet lines and bullets the texts of the bullet lines, each in the order of the text, bullets without their marker |
| Basics.KeepOne | frontend/src/Summarization.jsx:58-59 | filtering one element keeps it exactly when it passes |
| Basics.KeepAppend | frontend/src/Summarization.jsx:58-59 | filtering a concatenation is filtering each part, in order, so the filter preserves order |
| Basics.KeepIndicesAt | frontend/src/Summarization.jsx:58-59 | the filtered list holds, one for one, the elements at the listed positions |
| Basics.KeepIndicesCover | frontend/src/Summarization.jsx:58-59 | the listed positions are exactly those of the elements that pass |

## Left out

- Database plumbing, connections, cursors and transactions are not modelled.
  The store is the `Ledger.Store` tables, and the text of a database
  exception is not modelled.
- `login`, `health`, `list_groups`, `list_expenses`, `recent_expenses` and
  `payment_history` are not modelled. They are reads outside the ledger rules
  modelled here.
- Google Vision (`get_vision_client`, `process_receipt`) and the regular
  expression engine are not modelled. The captures are inputs to
  `Receipt.ParseReceipt` and `Chatbot.ParseCommand`.
- The OpenAI calls of `summary_ai` and of the chat assistant, and every
  front-end `fetch`, are replaced by parameters:
  - `summary_ai` is modelled up to the point where it would ask the model;
  - a `fetch` reply is a parameter of the method that awaits it.
- Password hashing, `uuid4`, `datetime.now` and `new Date()` are parameters.
  This covers the hash, the generated ids, the `%H:%M` time and today's date.
- IEEE floating point is not modelled; amounts are exact reals.
- Settlement.Creditors: Python's `round(v, 2)` on binary floats is modelled
  as half-up rounding to cents. The same holds for Settlement.Debtors.
- Receipt.ParseReceipt: the `round(amount, 2)` of the result is left out, and
  the amount is the exact value read.
- Receipt.Candidate: the `round(price, 2)` of a line item is left out.
- Analytics.QuickSpec: the average of the recent amounts is the exact mean,
  not rounded to two decimals, and the contract does not state it.
- The chart percentages of `top3` are not modelled, because they are float
  arithmetic for display.
- GroupForm.NormalizeDateSpec: the `new Date(...)` branch is modelled only
  as the year, month and day it is built from. The text that `Date` turns
  into is a parameter of `GroupForm.Prefilled`, like today's date. The model
  does not capture how JavaScript rolls over out-of-range fields (month 13,
  30 February), the time zone, or `toISOString`.
- GroupForm.NumberTextParses: JavaScript's `String(number)` is modelled only
  for whole-cent amounts.
- GroupForm.SubmitSpec: `parseFloat(amount)` is not applied; the payload
  carries the amount text.
- SettlementView.InitialsSpec: whitespace and upper-casing are ASCII only.
  JavaScript's `\s` and `toUpperCase` also cover other Unicode characters.
- TrimProperties: `Text.Trim` removes only the six characters space, tab,
  line feed, vertical tab, form feed and carriage return. Python's `strip()`
  (backend/app.py:115-116, 212 and 265-269, among others) also removes `\x1c` to
  `\x1f`, `\x85`, `\xa0` and the other Unicode spaces. So a group name of
  `"\x1c"` is refused with 400 by the source and accepted by the model.
  JavaScript's `trim()`, used by `Chatbot.Sanitize`, also removes `\xa0`,
  `\ufeff` and the Unicode spaces. Neither difference is modelled.
- FindGroup: `Chatbot.Matches` lower-cases with `Text.ToLower`, which lowers
  only ASCII letters. JavaScript's `toLowerCase()` folds every letter, so the
  source finds group "Café" from the token "CAFÉ" and the model does not.
- ResolvePaidBySpec: recognising 'me' or the user's own name in any case uses
  the same ASCII-only `Text.ToLower`, so a name differing from the user's only
  in the case of a non-ASCII letter resolves to the captured name in the
  model and to the user in the source.
- Ledger.Store.RegisterUser, Ledger.Store.CreateGroup, Ledger.Store.AddMember,
  Ledger.Store.CreateExpense, Queries.PendingSpec and Queries.BalancesForGroup
  compare user names exactly. The schema sets no collation, so the server's
  default applies. That default is case-insensitive and ignores trailing
  spaces. There, registering "Alice" after "alice" hits the primary key and
  gives 409, a lookup of "Alice" finds "alice", and `GROUP BY e.paid_by`
  merges the two spellings. The model answers 201 and keeps them apart.
- `Ledger.Store.CreateExpense` and the other writing endpoints: SQL order of
  stored rows is table order, and `GROUP BY` / `ORDER BY` ties follow a fixed
  stable order. SQL does not fix the order for ties.
- Analytics.MonthOf: the month of a row is the first seven characters of its
  stored date text. MySQL's `DATE_FORMAT(e.date, '%Y-%m')` first reads the
  text as a date: a date such as '2024-1-5' gives '2024-01' there, and text
  that is no date gives NULL. The two agree on `YYYY-MM-DD` dates, which is
  what the form and the receipt parser send, but `Ledger.Store.CreateExpense`
  stores any non-empty date text.
- Ledger.Store.CreateExpense: the column widths of the schema are not
  modelled: `category` 50, `note` 255 and `date` 10 characters. The model
  stores the whole text and answers 201. Whether the database refuses an
  over-long value (and the endpoint answers 500) or cuts it depends on the
  server's SQL mode, which the repository does not set. The same holds for
  `username` (80 characters) in Ledger.Store.RegisterUser and the group
  `name` (120) in Ledger.Store.CreateGroup.
- React effects, batching and the `live`/`active` race flags are not modelled.
  Each handler or effect is one atomic state change.
- Session storage is a parameter: the parsed receipt data is handed to
  `GroupForm.Form.Prefill`.
- Chat message history and rendering are not modelled, since they are UI only.
- The UI-only components are not modelled: Payments, ReceiptUpload, auth,
  Groups, Dashboard, App, Home and Analytics.
