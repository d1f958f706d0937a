# Dine Share Easy — a verified model of the bill-splitting core

Dine Share Easy is a small web app for splitting a restaurant bill. People are
added to a bill, items are entered with a price and a quantity, and each item
is assigned to the people who share it; an item assigned to nobody is shared
by everyone. The "calculate" action turns this into a list of payments
"A pays B x". Bills can be saved in a local store, listed newest first and
shared as a plain-text summary. The user's profile holds payment methods, one
of them marked as the default, and a preferred currency.

This project models that core in Dafny and proves properties of the model.

- **Bill editor** (`bill_creator.dfy`, `bill_balances.dfy`, `bill_settlement.dfy`):
  - The item and people handlers are pure list transformations, one function each.
  - The calculation is imperative, as in the source:
    - one loop fills a balance map;
    - one loop works on an array of sorted rows in place, with two cursors.
  - Each method is proved equal to a specification function.
  - The specification functions carry the properties:
    - every step keeps the balance sum;
    - every payment is at least 0.01 and goes between two different people;
    - the loop terminates.
- **Bill store** (`bill_storage.dfy`): a class whose field is the map from bill id to bill.
- **Share text** (`share_text.dfy`): a method that appends section by section. It is proved equal to a layout function.
- **Avatar helpers** (`user_profile.dfy`): initials, derived colour and amount label.
- **Payment methods** (`payment_methods.dfy`): the local list after delete and set-default, and the copy text.
- **Currency lookup** (`currency.dfy`): the default table, lookup with fallback, and the state cells.
- **Shared helpers**:
  - `money.dfy`: `toFixed(2)`, modelled on exact reals;
  - `text.dfy`: case mapping and `join`;
  - `seqs.dfy`: filter by key;
  - `wrappers.dfy`: `Option` and `Result`.

**Nobody is credited for paying.** The editor's `BillItem` has no payer, and
`calculateBill` only debits. So every balance is at most zero
(`BillBalances.BalancesNonPositive`), and the matching loop still pairs two
debtors: with balances -10 and -10 it records "first pays second 10.00"
(`BillSettlement.TwoDebtorsStillPay`). Which of two people with equal balances
pays is decided by their order in the people list, because the sort is stable
(`BillSettlement.SortStable`).

## Model

| member | source | states |
|---|---|---|
| BillCreator.AddItem | src/components/bills/BillCreator.tsx:33-67 | The checks run in the source's order: missing name or price, then invalid price, then invalid quantity. Success holds exactly when all checks pass. Success appends exactly one item with the new id and no assignees, and keeps the earlier items and their validity. |
| BillCreator.AddItemKeepsIdsDistinct | src/components/bills/BillCreator.tsx:33-67 | Adding an item under a fresh id keeps item ids distinct. |
| BillCreator.AddUser | src/components/bills/BillCreator.tsx:69-92 | Rejects an empty name. Rejects a name equal to an existing one ignoring case. Otherwise appends exactly the new person. |
| BillCreator.AddUserKeepsNamesDistinct | src/components/bills/BillCreator.tsx:77-87 | If no two names are equal ignoring case, that stays true after a successful add. |
| BillCreator.AddUserKeepsIdsDistinct | src/components/bills/BillCreator.tsx:69-92 | Adding a person under a fresh id keeps ids distinct. |
| BillCreator.DeleteItem | src/components/bills/BillCreator.tsx:94-96 | The result holds exactly the items whose id differs from the deleted one. |
| BillCreator.DeleteItemAt | src/components/bills/BillCreator.tsx:94-96 | With distinct ids, deleting item k's id removes exactly item k and keeps the others in order. |
| BillCreator.DeleteItemAbsent | src/components/bills/BillCreator.tsx:94-96 | Deleting an id no item has leaves the list unchanged. |
| BillCreator.UpdateItem | src/components/bills/BillCreator.tsx:98-107 | Keeps the length, the ids and the assignees. Only items with the given id change, and only in the fields the edit supplies. |
| BillCreator.UpdateItemIdempotent | src/components/bills/BillCreator.tsx:98-107 | Applying the same edit twice equals applying it once. |
| BillCreator.UpdateItemKeepsValid | src/components/bills/BillCreator.tsx:98-107 | An edit whose supplied price and quantity are positive keeps every item valid. |
| BillCreator.FindUser | src/components/bills/BillCreator.tsx:123 | Returns the first listed person with that id. Returns nothing exactly when no person has it. |
| BillCreator.ToggleAssignee | src/components/bills/BillCreator.tsx:112-132 | An id already among the assignees is filtered out. Otherwise the first listed person with that id is appended at the end. An id in neither list leaves the assignees unchanged. As sets of ids: the toggled id is present afterwards iff it was absent before and belongs to a listed person, and all other ids are unchanged. Duplicate-freedom is kept, and so is "assignees are listed people". |
| BillCreator.RemoveAssignee | src/components/bills/BillCreator.tsx:119 | Keeps exactly the assignees whose id differs, and removes exactly that id. Keeps ids distinct. |
| BillCreator.RemoveAssigneeAt | src/components/bills/BillCreator.tsx:119 | With distinct ids, removing the id of entry k cuts out exactly that entry. The other assignees keep their order. |
| BillCreator.UserToggle | src/components/bills/BillCreator.tsx:109-135 | Only the item with the given id changes, and only in its assignees. |
| BillCreator.ToggleTwice | src/components/bills/BillCreator.tsx:109-135 | Toggling the same person twice restores the assignees as a set of ids. |
| BillBalances.InitialBalances | src/components/bills/BillCreator.tsx:143-146 | Every listed person has a balance, and it is 0. |
| BillBalances.ApplyItems | src/components/bills/BillCreator.tsx:149-165 | Applies each item's debits, first item first. The set of people with a balance does not change. |
| BillBalances.Balances | src/components/bills/BillCreator.tsx:141-165 | The balances the calculation matches: zero for everyone, then every item's debits. Exactly the listed ids have a balance. |
| BillBalances.ComputeBalances | src/components/bills/BillCreator.tsx:141-165 | The two loops compute exactly the specified balances: start at zero, then apply each item's debits in order. |
| BillBalances.Debit | src/components/bills/BillCreator.tsx:155-163 | The inner `forEach`: subtracts the share from each group member in order. The set of people with a balance is kept. DebitAt states each person's new balance. |
| BillBalances.ApplyItem | src/components/bills/BillCreator.tsx:149-164 | One item: its cost is split evenly over its assignees, or over everyone when it has none, and debited. The keys are kept. ItemDebitsEachMember states each balance. |
| BillBalances.DebitEach | src/components/bills/BillCreator.tsx:155-163 | The inner loop subtracts the per-person share from each group member in turn. |
| BillBalances.DebitAt | src/components/bills/BillCreator.tsx:155-163 | Each person loses the share once for every time they appear in the group. Everyone else keeps their balance. |
| BillBalances.DebitSum | src/components/bills/BillCreator.tsx:155-163 | Debiting a group of n listed people lowers the sum of the balances by n times the share. |
| BillBalances.ItemDebitsEachMember | src/components/bills/BillCreator.tsx:149-165 | Take an item of cost c and a duplicate-free group of k people: its assignees, or everyone when it has none. Each member loses c/k and everyone else is untouched. |
| BillBalances.BalancesNonPositive | src/components/bills/BillCreator.tsx:149-165 | With non-negative item costs, every final balance is at most 0. |
| BillBalances.ApplyItemSum | src/components/bills/BillCreator.tsx:149-165 | One item lowers the sum of the balances by exactly its cost: k shares of c/k. |
| BillBalances.ApplyItemsSum | src/components/bills/BillCreator.tsx:149-165 | Applying the items lowers the sum of the balances by exactly the sum of the item costs. |
| BillBalances.BalancesSum | src/components/bills/BillCreator.tsx:149-165 | The final balances add up to minus the bill total, the sum of price × quantity. |
| BillBalances.BillTotal | src/components/bills/BillCreator.tsx:211-214 | The sum of price × quantity over the items. It is non-negative when every item is valid, and positive when there is at least one. |
| BillBalances.ReduceTotal | src/components/bills/BillCreator.tsx:211-214 | The `reduce` from a start value, item by item. Over valid items it never falls below the start value. |
| BillBalances.ReduceIsTotal | src/components/bills/BillCreator.tsx:211-214 | The left-to-right `reduce` from any starting value adds up to that value plus the total. |
| BillSettlement.Entries | src/components/bills/BillCreator.tsx:168-172 | One row per person, in list order, carrying that person's balance. |
| BillSettlement.Insert | src/components/bills/BillCreator.tsx:173 | Inserting into a sorted list keeps it sorted and adds exactly that row. |
| BillSettlement.SortByBalance | src/components/bills/BillCreator.tsx:173 | The result is ascending by balance and a permutation of the rows. |
| BillSettlement.InsertTies | src/components/bills/BillCreator.tsx:173 | The inserted row goes in front of every row whose balance ties with it. |
| BillSettlement.SortStable | src/components/bills/BillCreator.tsx:173 | The sort is stable: for every balance, the rows with that balance keep their relative order. This is what `Array.prototype.sort` guarantees. |
| BillSettlement.SortedRows | src/components/bills/BillCreator.tsx:168-173 | The sorted rows are people from the list with distinct ids. If every balance is within 0.01 of zero, so is every sorted row. |
| BillSettlement.Start | src/components/bills/BillCreator.tsx:175-178 | The cursors start at both ends with no payments. Sorted rows meet the loop invariant. |
| BillSettlement.Step | src/components/bills/BillCreator.tsx:181-205 | One iteration of the loop body. The cursors only move inward, and at most one payment is recorded. An iteration that moves neither cursor records one. StepEffect states which rows change and which cursors move. |
| BillSettlement.StepKeepsInv | src/components/bills/BillCreator.tsx:180-205 | One iteration keeps the loop invariant. The cursors stay in range, no positive balance stands before a negative one between them, and rows outside them are within 0.01 of zero. |
| BillSettlement.StepProgress | src/components/bills/BillCreator.tsx:180-205 | Each iteration either narrows the cursor gap or shrinks the active side's magnitude by at least a cent. So the loop terminates. |
| BillSettlement.Settle | src/components/bills/BillCreator.tsx:180-206 | When the loop ends, the cursors have met or crossed. Of any two rows, at least one is within 0.01 of zero. |
| BillSettlement.StepEffect | src/components/bills/BillCreator.tsx:181-205 | A skip changes no balance. An emitting step takes the amount min(&#124;debtor&#124;, &#124;creditor&#124;), which is at least 0.01. It adds that amount to the debtor, subtracts it from the creditor and records it rounded to cents. No other row changes, and the balance sum is kept. Afterwards `i` has advanced exactly when the debtor's row is settled, and `j` has retreated exactly when the creditor's row is. |
| BillSettlement.SettleKeepsSum | src/components/bills/BillCreator.tsx:199-201 | The whole loop keeps the sum of the working balances and the order of the people. |
| BillSettlement.SettlePayments | src/components/bills/BillCreator.tsx:177-197 | Earlier payments are kept. Every new payment runs from one listed person to a different one, for at least 0.01, in whole cents. |
| BillSettlement.StepPayments | src/components/bills/BillCreator.tsx:185-201 | One iteration keeps the people and the earlier payments. Any payment it records is valid. |
| BillSettlement.SettleAllSettled | src/components/bills/BillCreator.tsx:185-189 | When every balance is within 0.01 of zero, the loop records nothing and changes nothing. |
| BillSettlement.TwoDebtorsStillPay | src/components/bills/BillCreator.tsx:180-206 | Balances -10 and -10 still produce one payment of 10.00, from the first person to the second. |
| BillSettlement.SettleInPlace | src/components/bills/BillCreator.tsx:175-206 | The in-place loop over the array of sorted rows produces exactly the specified payments and final rows. |
| BillSettlement.SettledPaymentsValid | src/components/bills/BillCreator.tsx:168-206 | For the sorted rows of distinct people, the loop starts in its invariant. Every payment it records is valid and runs between two different people of the bill. |
| BillSettlement.NothingToSettle | src/components/bills/BillCreator.tsx:168-206 | When every balance is within 0.01 of zero, the loop over the sorted rows records no payment. |
| BillSettlement.CalculateBill | src/components/bills/BillCreator.tsx:137-209 | Computes the balances, sorts them and runs the matching loop. Every payment is valid and runs between two different people of the bill. If every balance is within 0.01 of zero, there are no payments. |
| Money.Round2 | src/components/bills/BillCreator.tsx:196 | The recorded amount is within half a cent of the exact one and is a whole number of cents. It is non-negative for a non-negative input and at least 0.01 for an input of at least 0.01. |
| Money.Cents | src/utils/shareUtils.ts:7 | The nearest whole number of cents to the magnitude, with ties rounded up. |
| Money.Fixed2 | src/utils/shareUtils.ts:7 | `toFixed(2)` text: a point followed by two digits, with a leading minus exactly for negative values. |
| Money.Fixed2Value | src/utils/shareUtils.ts:7 | Reading a non-negative `toFixed(2)` text back as digits gives the value rounded to cents. |
| Money.Fixed2Negative | src/utils/shareUtils.ts:7 | A negative amount prints as a minus sign before the text of its magnitude, so Fixed2Value reads negative texts back too. |
| Money.NatToStringRoundTrip | src/utils/shareUtils.ts:13 | The decimal text of a quantity reads back as the same number. |
| BillStorage.Stamped | src/hooks/useBillStorage.tsx:66-73 | The stored record is the supplied fields plus the given id and timestamp. |
| BillStorage.Merged | src/hooks/useBillStorage.tsx:86-93 | Supplied fields overwrite and the rest stay. The id is kept and the timestamp is set. |
| BillStorage.InsertNewestFirst | src/hooks/useBillStorage.tsx:110-112 | Inserting into a newest-first list keeps that order. The result is the old list plus exactly one copy of the bill, as multisets. It keeps ids distinct when the new id is new. |
| BillStorage.BillStore.constructor | src/hooks/useBillStorage.tsx:34 | The store starts empty. |
| BillStorage.BillStore.SaveBill | src/hooks/useBillStorage.tsx:62-76 | Stores the stamped record under the given id and returns that id. Other entries are unchanged. A fresh id adds exactly one entry. Every bill stays stored under its own id. |
| BillStorage.BillStore.UpdateBill | src/hooks/useBillStorage.tsx:78-95 | An absent id leaves the map unchanged. A present id gets the merged record. The keys and the other entries stay the same. |
| BillStorage.BillStore.GetBill | src/hooks/useBillStorage.tsx:97-99 | Returns the stored bill, or nothing exactly when the id is absent. |
| BillStorage.BillStore.DeleteBill | src/hooks/useBillStorage.tsx:101-107 | Removes exactly that key and leaves the others unchanged. It does nothing when the key is absent. |
| BillStorage.BillStore.GetAllBills | src/hooks/useBillStorage.tsx:109-113 | Returns every stored bill exactly once: as many as there are keys, distinct ids, nothing else. The list is newest first. |
| ShareText.Names | src/utils/shareUtils.ts:8 | The user names in list order. |
| ShareText.PeopleJoinSnoc | src/utils/shareUtils.ts:8 | The People line lists names in user order: adding a person appends ", " and their name at the end. |
| ShareText.PaymentsSection | src/utils/shareUtils.ts:20-26 | Empty exactly when there are no payments. Otherwise it starts with the payments heading. |
| ShareText.ShareText | src/utils/shareUtils.ts:4-31 | The summary starts with the title header and its blank line, and always ends with the app footer. |
| ShareText.LinesAppend | src/utils/shareUtils.ts:12-18 | The lines of two lists joined are the lines of the first followed by those of the second. |
| ShareText.ItemLinesInOrder | src/utils/shareUtils.ts:12-18 | Item k's line appears after the lines of the items before it and before the lines of the items after it. |
| ShareText.PaidByMarker | src/utils/shareUtils.ts:13-17 | An item line ends in ")" before its newline exactly when the item records who paid. |
| ShareText.PaymentLinesInOrder | src/utils/shareUtils.ts:23-25 | Payment k's line appears after the lines of the payments before it and before the lines of the payments after it. |
| ShareText.GenerateShareText | src/utils/shareUtils.ts:4-31 | The step-by-step builder produces exactly the specified layout. |
| UserProfile.Split | src/components/bills/UserProfile.tsx:17 | Splitting always yields at least one piece. |
| UserProfile.SplitFirstChars | src/components/bills/UserProfile.tsx:15-20 | The first characters of the space-separated pieces are exactly the word starts found by scanning the name. These are the non-space characters at the start or after a space. Empty pieces contribute nothing. |
| UserProfile.StartsEmptyIffBlank | src/components/bills/UserProfile.tsx:15-20 | A name has no word start exactly when it is empty or all spaces. |
| UserProfile.GetInitials | src/components/bills/UserProfile.tsx:15-22 | At most two characters: the first two word starts, upper-cased. Empty exactly when the name is blank. |
| UserProfile.AvatarContent | src/components/bills/UserProfile.tsx:63 | The icon is shown exactly when the name is blank. Otherwise the avatar shows one or two initials. |
| UserProfile.GetRandomColor | src/components/bills/UserProfile.tsx:24-39 | One of the eight listed classes, at index (sum of character codes) mod 8. |
| UserProfile.CharCodeSum | src/components/bills/UserProfile.tsx:36 | The sum of the character codes. No single character's code exceeds it. |
| UserProfile.CharCodeSumAppend | src/components/bills/UserProfile.tsx:36 | The code sum of a concatenation is the sum of the parts' sums. |
| UserProfile.CharCodeSumPermutation | src/components/bills/UserProfile.tsx:36 | The code sum depends only on which characters occur, not on their order. |
| UserProfile.AnagramsShareColor | src/components/bills/UserProfile.tsx:24-39 | Seeds made of the same characters get the same colour. |
| UserProfile.AvatarColor | src/components/bills/UserProfile.tsx:49 | A non-empty explicit colour wins. Otherwise the colour is the derived one from the list. |
| UserProfile.AmountLabelOf | src/components/bills/UserProfile.tsx:66-68 | Positive: "+$" and the two-decimal amount, class success. Negative: "-$" and the two-decimal magnitude, class destructive. Zero: "$0.00", class muted. The label starts with "+" or "-" exactly for positive or negative amounts. |
| UserProfile.OppositeAmountsMirror | src/components/bills/UserProfile.tsx:66-68 | Opposite non-zero amounts show the same figure after the sign and get different classes. |
| PaymentMethods.AfterDelete | src/components/profile/PaymentMethodsList.tsx:49-64 | After a remote error the list is unchanged. After success it holds exactly the methods with another id. |
| PaymentMethods.AfterDeleteAt | src/components/profile/PaymentMethodsList.tsx:58 | With distinct ids, a successful delete of entry k removes exactly it and keeps the others in order. |
| PaymentMethods.AfterSetDefault | src/components/profile/PaymentMethodsList.tsx:66-95 | If either remote update fails, the list is unchanged. Otherwise `is_default` is true exactly for the chosen id. Every other field, the length and the order are kept. |
| PaymentMethods.ExactlyOneDefault | src/components/profile/PaymentMethodsList.tsx:85-88 | With distinct ids and the chosen one present, exactly that entry is the default. |
| PaymentMethods.NoDefaultForUnknownId | src/components/profile/PaymentMethodsList.tsx:85-88 | Choosing an id no entry has leaves no default at all. |
| PaymentMethods.Capitalized | src/components/profile/PaymentMethodsList.tsx:104 | Upper-cases the first character and keeps the rest. |
| PaymentMethods.CopyText | src/components/profile/PaymentMethodsList.tsx:97-111 | Bank gives "Bank: B\nAccount: A", followed by "\nRUT: R" exactly when the RUT is non-empty. Paypal and Venmo give "Paypal: e" and "Venmo: e". Cash gives "Cash payment". The text is empty exactly for any other type. |
| Currencies.FindCode | src/hooks/useCurrency.tsx:82 | Finds the first position with the code, or reports that none has it. |
| Currencies.Fallback | src/hooks/useCurrency.tsx:85-90 | Code and name are the selected code and there are 2 decimal places. The symbol is "$" for USD and the code itself otherwise. |
| Currencies.CurrentCurrency | src/hooks/useCurrency.tsx:81-91 | The result always has the selected code. It is the first listed currency with that code when there is one, and the fallback otherwise. |
| Currencies.DefaultTableShape | src/hooks/useCurrency.tsx:14-21 | The default codes are distinct. JPY has 0 decimal places and every other currency has 2. |
| Currencies.LookupListed | src/hooks/useCurrency.tsx:81-91 | With distinct codes, looking up a listed code returns that very entry. |
| Currencies.CurrencyState.constructor | src/hooks/useCurrency.tsx:25-26 | Starts with the default table and the initial code. |
| Currencies.CurrencyState.ApplyFetch | src/hooks/useCurrency.tsx:36-54 | Only a successful, non-empty fetch replaces the table. The table never becomes empty and the selection is untouched. |
| Currencies.CurrencyState.Select | src/hooks/useCurrency.tsx:26 | Changes the selected code and nothing else. |
| Currencies.CurrencyState.Current | src/hooks/useCurrency.tsx:81-91 | The current currency always carries the selected code. |

## Left out

- Rendering, animation, notices and form resets are not modelled. They are JSX and toasts with no stateable logic. The handlers' error results stand for the notices.
- Network calls are reduced to their outcomes:
  - the remote halves of delete and set-default are a success or failure;
  - the currency fetch is a failure or a list, where a null list counts as an empty one;
  - loading the payment-method list (`PaymentMethodsList.tsx:25-47`) is not modelled.
- Browser persistence and sharing are foreign I/O and are left out:
  - `localStorage` loading and saving (`useBillStorage.tsx:38-60`, `useCurrency.tsx:59-78`);
  - the profile-preference effect, apart from what `Select` does;
  - `navigator.share` and the clipboard write.
- `formatAmount` and `formatNumber` (`useCurrency.tsx:94-113`) are left out. They are `Intl.NumberFormat`, a library the model cannot see.
- Fresh ids and timestamps are parameters. A timestamp is an integer that orders like the ISO date text it stands for.
- Amounts are exact reals, not IEEE doubles:
  - floating-point residue from repeated division and subtraction is not modelled;
  - `toFixed` rounds the exact value, whereas JavaScript rounds the nearest double.
- `parseFloat` and `parseInt` are not modelled. `AddItem` receives their results, and `None` stands for NaN.
- BillCreator.UpdateItem: does not model NaN fields. Edits from the item card are applied unvalidated.
- BillCreator.AddUser: compares names with ASCII-only case folding. This is because `toLowerCase` on other letters is not modelled.
- BillBalances.ComputeBalances: requires two things the editor always keeps. There is at least one person whenever there are items, and assignees are listed people. Without them the source divides by zero or debits an unknown key; the model does not follow those paths.
- BillBalances.BalancesNonPositive: assumes non-negative item costs. The add form guarantees them, but unvalidated edits do not.
- BillSettlement.Entries: takes the row order from the people list. This matches `Object.entries` for non-numeric id keys.
- BillStorage.BillStore.GetAllBills: does not state the order among bills with equal timestamps. That order depends on the enumeration order of `Object.values`, which the map model does not have.
- BillStorage.Merged: does not model a patch key that is present but `undefined`. JavaScript's spread would copy it.
- ShareText.GenerateShareText: treats `payments` as always present, with no `undefined` case.
- UserProfile.GetInitials: upper-cases ASCII letters only, so "ángela" gives "á" where `toUpperCase` gives "Á". It also takes the first code point of each word and at most two code points, where `n[0]` and `substring(0, 2)` count UTF-16 code units; the two differ for characters above U+FFFF.
- UserProfile.GetRandomColor: sums code points instead of UTF-16 code units. The two differ for characters above U+FFFF.
- Payer crediting: there is none to model. The editor's items carry no payer and `calculateBill` only subtracts, so no balance is ever raised.
