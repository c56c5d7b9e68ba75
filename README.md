# Money tracker record stores, modelled in Dafny

The modelled program is a single Streamlit script, `app.py`. It is a personal money tracker. This model covers the record-store core under its UI:

- **Credential store.** A users table of (Username, Password) rows. Logging in is an existence check. Registering inserts a row only if the username is absent.
- **Transaction store.** A transactions table of (Username, Date, Category, Type, Amount, Notes) rows. The Amount is pre-signed: positive for Income, negative for Expense. The script supports add, a per-owner view numbered 1..k, edit and delete by view number, clear-all-by-owner, and an income/expenses/balance summary.
- **Session controller.** The two session fields `authenticated` and `username`. Login and logout change them, and every store button is offered only while authenticated.

Files:

- `records.dfy` (module `Records`): the row datatypes, the form values, loading a possibly missing file, and the sign convention.
- `credentials.dfy` (module `Credentials`): `Authenticate`, `RegisterUser` and their properties.
- `transactions.dfy` (module `TransactionStore`): the owner mask (`Select`, `SelectPositions`), the owner view, add, edit and delete as written, clear-all, and their properties.
- `summary.dfy` (module `Summaries`): the summary and the negative-balance warning.
- `index_fault.dfy` (module `IndexFault`): the edit/delete index fault (see Findings) and the corrected mapping from view number to table position.
- `session.dfy` (module `Session`): class `Tracker`. Its fields are the two backing files and the two session fields. There is one method per button. Each button reloads its table from the file, changes it, and saves it whole, as the script does.

Persistence is modelled as a field holding `Option<seq<row>>`. `None` means the file does not exist. Saving stores `Some(table)`. Loading gives `[]` for a missing file and the saved rows otherwise.

Row labels are table positions. In every script run where Save Changes or Delete fires, `transactions` was freshly loaded from CSV and no other button has fired, so its labels are exactly 0..n-1. So "the row labelled p" is "the row at position p".

Three behaviours of the script worth stating plainly:

- Save Changes on a label with no row writes nothing, reports no error and saves the unchanged table (`EditAt`).
- Edit and delete do not map the 1-based view number back to the row's table position (Findings).
- `register_user` returns a boolean.

## Model

| member | source | states |
|---|---|---|
| `Records.LoadTable` | app.py:11-28 | A missing file loads as an empty table; an existing file loads as exactly the rows last saved to it. |
| `Records.SignedAmount` | app.py:116 | The stored amount is the typed value for Income and its negation for Expense, whatever its sign. For a non-negative value the sign then matches the type, and for a positive one the amount is positive exactly for Income. |
| `Records.NewRow` | app.py:111-118 | An added row belongs to the session user and copies the form's Date, Category, Type and Notes. Its Amount is the signed typed amount, so it obeys the sign convention when the typed amount is non-negative. |
| `Records.Apply` | app.py:146-150 | An edited row keeps its owner and is otherwise the row the add form would have created from the same values. |
| `Credentials.MatchingRows` | app.py:37 | The mask rows all equal (u, p), and there are none exactly when (u, p) is not a row of the table. |
| `Credentials.Authenticate` | app.py:35-38 | Login succeeds iff some row has exactly this username and exactly this password. |
| `Credentials.RegisterUser` | app.py:41-48 | If the username is present, the result is false and the table is unchanged, whatever the password. Otherwise the result is true, exactly one row (u, p) is appended after the unchanged earlier rows, and (u, p) then logs in. |
| `Credentials.RegisterKeepsLogins` | app.py:41-48 | Every pair that logged in before a registration still logs in after it. |
| `Credentials.RegisterKeepsUnique` | app.py:43-46 | Registration keeps usernames unique. |
| `Credentials.UniqueCountIsOne` | app.py:43-46 | With unique usernames, a registered username has exactly one row. |
| `Credentials.RegisterTwice` | app.py:43-44 | Registering a username a second time is refused, and the table then holds exactly one row for it. |
| `Credentials.WrongPasswordRejected` | app.py:37 | With unique usernames, the right username with a different password does not log in. |
| `TransactionStore.SelectPositions` | app.py:127 | The mask picks positions in strictly increasing order, and every picked position holds a matching row. |
| `TransactionStore.SelectPositionsComplete` | app.py:127 | No matching row is missed: every matching row's position is picked. |
| `TransactionStore.Select` | app.py:127 | The filtered table is no longer than the table, and every row in it matches the mask. |
| `TransactionStore.SelectAtPositions` | app.py:127 | The filtered table has one row per picked position, and its j-th row is the row at the j-th picked position, so table order is preserved. |
| `TransactionStore.PositionsOfPrefix` | app.py:127 | The positions picked in a prefix of the table are the first positions picked in the whole table, and every later pick lies at or after the cut. |
| `TransactionStore.OwnerView` | app.py:127-128 | Every row of the view belongs to the owner, and the view is no longer than the table. |
| `TransactionStore.ClearOwner` | app.py:181 | After clearing, no row of the cleared owner is left. The kept rows plus the owner's view are exactly the table's rows, as a multiset, so they also number the table's rows. |
| `TransactionStore.Add` | app.py:110-120 | With amount > 0 and a non-empty category, one row for the user is appended at the end; otherwise the table is unchanged. The sign convention is preserved either way. |
| `TransactionStore.EditAt` | app.py:146-150 | Save Changes as written overwrites only the row labelled p, and with no such row it writes nothing. The length and every other row are unchanged. |
| `TransactionStore.DropLabel` | app.py:159 | Delete as written raises KeyError iff no row is labelled p. Otherwise the table is one row shorter, rows before p are unchanged, rows after p move up one, and as a multiset exactly the row at p is removed. |
| `TransactionStore.SelectConcat` | app.py:127 | Filtering two tables joined end to end gives the two filtered tables joined in the same order. |
| `TransactionStore.PartitionSizes` | app.py:181 | The owner's rows plus the other rows number exactly the table's rows. |
| `TransactionStore.PartitionRows` | app.py:181 | The owner's rows and the other rows together are exactly the table's rows, as a multiset. |
| `TransactionStore.AddEffectOnViews` | app.py:110-128 | An added row appears at the end of the session user's view and in nobody else's view. |
| `TransactionStore.AddSaveLoadRoundTrip` | app.py:119-128 | After adding, saving and reloading, the row comes back unchanged as the last entry of its owner's view. |
| `TransactionStore.EditAtKeepsPositions` | app.py:146-150 | Save Changes never changes an owner column, so every owner's row positions and view length stay the same. |
| `TransactionStore.EditAtKeepsSigns` | app.py:142-150 | The sign convention survives Save Changes when the typed amount is non-negative. |
| `TransactionStore.EditAtNegativeAmountBreaksSign` | app.py:142-149 | The edit amount has no lower bound, so a negative amount saved as Income gives a negative income row. |
| `TransactionStore.DropAndClearKeepSigns` | app.py:159-181 | Deleting and clearing keep the sign convention of the remaining rows. |
| `TransactionStore.ClearEmptiesView` | app.py:181 | After clearing, the cleared owner's view is empty. |
| `TransactionStore.NoOwnedRowsEmptyView` | app.py:127-128 | A table without any row of an owner gives that owner an empty view. |
| `TransactionStore.ClearKeepsOtherViews` | app.py:181 | Clearing leaves every other owner's view exactly as it was. |
| `Summaries.Summarize` | app.py:166-168 | The balance equals the sum of all amounts in the view. Under the sign convention, income is at least 0, expenses are at most 0, and displayed expenses are at least 0. |
| `Summaries.NegativeBalanceWarning` | app.py:176-177 | The warning fires iff the view's amounts sum below zero, i.e. iff displayed expenses exceed income. |
| `Summaries.BalanceIsTotal` | app.py:166-168 | Income total plus expense total equals the total of all amounts. |
| `Summaries.TotalsHaveTheirSigns` | app.py:166-167 | If every row obeys the sign convention, the income total is at least 0 and the expense total is at most 0. |
| `Summaries.SumOfKindAppend` | app.py:166-167 | Appending a row changes only its own type's total, and changes it by the row's amount. |
| `Summaries.AddEffectOnSummary` | app.py:166-172 | Adding an income raises income by the typed amount. Adding an expense raises displayed expenses by it. The other total is unchanged. |
| `Summaries.ThreeRowExample` | app.py:166-176 | For rows +100 Income, -30 Expense, -20 Expense: income is 100, displayed expenses 50, balance 50, and no warning. |
| `IndexFault.ViewPosition` | app.py:127-128 | View number p is meant to denote the user's p-th row: a row of the user, equal to entry p of the view, with exactly p - 1 of the user's rows before it. |
| `IndexFault.ViewPositionFacts` | app.py:127-128 | The p-th picked position holds entry p of the view and has exactly p - 1 picked positions before it. |
| `IndexFault.EditOwnRow` | app.py:134-150 | Corrected Save Changes: the length is unchanged, and the user's p-th row takes the form's values. |
| `IndexFault.EditOwnRowView` | app.py:134-150 | Corrected Save Changes: the user's view changes only in entry p, which takes the form's values. |
| `IndexFault.EditOwnRowKeepsOtherViews` | app.py:134-150 | Corrected Save Changes leaves every other owner's view unchanged. |
| `IndexFault.DeleteOwnRow` | app.py:154-161 | Corrected Delete never fails. Exactly the user's p-th row leaves the table, and the rows around it close up in order. |
| `IndexFault.DeleteOwnRowView` | app.py:154-161 | Corrected Delete: the user's view loses exactly entry p. |
| `IndexFault.DeleteOwnRowKeepsOtherViews` | app.py:154-161 | Corrected Delete leaves every other owner's view unchanged. |
| `IndexFault.AsWrittenEditHitsOtherOwner` | app.py:127-150 | Take table [a, b], with a the user's only row and b another owner's row. Save Changes for view number 1 rewrites b: the user's view is unchanged and the other owner's view changes. The corrected edit rewrites a. |
| `IndexFault.AsWrittenDeleteHitsOtherOwner` | app.py:127-159 | Take the same table [a, b]. Delete for view number 1 removes b, the other owner's row. The corrected delete removes a. |
| `IndexFault.AsWrittenDeleteRaisesKeyError` | app.py:127-159 | Take table [a], holding only the user's row. View number 1 is a valid choice, yet Delete raises KeyError. The corrected delete empties the table. |
| `Session.Tracker.constructor` | app.py:51-55 | A session starts unauthenticated with an empty username. |
| `Session.Tracker.Login` | app.py:68-74 | The session becomes (true, u) iff Authenticate(u, p) holds; otherwise it is unchanged. |
| `Session.Tracker.Register` | app.py:82-90 | A password mismatch is rejected first, then an empty username or password, and neither touches the users file. Otherwise the result of register_user is reported, and only a created account is saved. Unique usernames stay unique. |
| `Session.Tracker.AddTransaction` | app.py:109-123 | Saves Add of the reloaded table iff amount > 0 and the category is non-empty, else saves nothing. The user's view gains exactly the new row at its end. The sign convention is preserved. |
| `Session.Tracker.SaveChanges` | app.py:134-152 | Writes the five columns into the row labelled with the view number and saves. This equals EditAt of the reloaded table, and every owner's view keeps its length. |
| `Session.Tracker.DeleteTransaction` | app.py:154-161 | Saves DropLabel of the reloaded table when it succeeds. On KeyError nothing is saved. |
| `Session.Tracker.SaveChangesToOwnRow` | app.py:134-152 | Corrected Save Changes: the user's view changes in entry p only. |
| `Session.Tracker.DeleteOwnTransaction` | app.py:154-161 | Corrected Delete: the user's view loses exactly entry p. |
| `Session.Tracker.ClearAll` | app.py:180-183 | Saves the table without the user's rows. The user's view becomes empty, and every other owner's view is unchanged. |
| `Session.Tracker.Logout` | app.py:186-188 | The session goes back to (false, ""). |

Every `Tracker` store method requires `authenticated`, because the store buttons exist only inside the authenticated branch (app.py:93). Login and Register require `!authenticated` (app.py:58). Edit and delete require `1 <= p <= |View()|`, the bounds of the index input (app.py:135, 155). `Tracker.Valid()` is kept by every method, and each method's contract says so. It says that logged out means an empty username, and logged in means a username that has a row in the users table. Two short scenarios, `Session.RegisterOnMissingFile` and `Session.AddToEmptyTable`, run the buttons in sequence on a fresh `Tracker`.

## Findings

| source | as written | input that shows it | evidently intended | confidence | as-written member | corrected member |
|---|---|---|---|---|---|---|
| app.py:127-150 | The view is re-indexed 1..k after `reset_index(drop=True)`, so `transaction_to_edit.name` is the view number p, and Save Changes rewrites the table row labelled p | table [a, b], a the session user's only row, b another owner's row; view number 1 | rewrite a, the user's first row | high, not executed | `IndexFault.AsWrittenEditHitsOtherOwner` | `IndexFault.EditOwnRow` |
| app.py:127-161 | For the same reason, Delete calls `drop(p)` on the full table, removing the row labelled p or raising KeyError | table [a] holding only the user's row; view number 1 (KeyError). Table [a, b] as above (drops b) | drop the user's p-th row | high, not executed | `IndexFault.AsWrittenDeleteRaisesKeyError` | `IndexFault.DeleteOwnRow` |

The as-written behaviour is `TransactionStore.EditAt` and `TransactionStore.DropLabel`, driven by `Session.Tracker.SaveChanges` and `Session.Tracker.DeleteTransaction`. The intended properties of the corrected members are proved in `IndexFault.EditOwnRowView`, `IndexFault.DeleteOwnRowView` and the two `KeepsOtherViews` lemmas. The corrected mapping `IndexFault.ViewPosition` drives `Session.Tracker.SaveChangesToOwnRow` and `Session.Tracker.DeleteOwnTransaction`.

## Left out

- Streamlit widgets, page layout, titles, success/error/info messages and the rendered table (app.py:59-66, 97-106, 163, 170-173). Widget values are method parameters, and form values are a `FormInput`.
- The edit form's pre-filled defaults (app.py:139-143). Only the values submitted with Save Changes matter, and they are parameters.
- pandas CSV reading and writing (app.py:13, 20, 25, 32) is foreign library I/O. It is modelled as storing and returning the whole table.
- CSV type inference is not modelled: a numeric-looking password read back as a number, or empty Notes read back as NaN. This is library behaviour outside the script.
- Floating-point arithmetic and `:.2f` formatting. Amounts are `real`, so there is no rounding.
- Dates are opaque strings: `strftime`/`strptime` (app.py:113, 139) are not modelled.
- The Type column is the datatype `Kind`, because the forms only offer "Income" and "Expense". Other strings in a hand-edited file are not modelled.
- Streamlit rerun semantics are not modelled. The model assumes one button fires per run, which is what makes labels equal positions. It does not model the view and summary being drawn before the button's write within the same run.
- Lost updates between concurrent sessions are not modelled. Each method is one whole read-modify-write.
