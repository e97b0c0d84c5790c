# VAT entry system — a verified model of its core

The VAT Entry System is a desktop application for recording VAT transactions. It keeps:

- a list of transactions, each with a company, a period "YYYY-MM", a type, an invoice number, a counterparty and three amounts;
- a live ledger that shows each company's VAT balance for the selected month;
- a carry-forward store that remembers a surplus (a negative balance) for the month after.

This project models the exact-decimal core of that application in Dafny and proves what it promises.

- **Decimals** (`decimals.dfy`): Python `Decimal` values as `coeff / 10^scale`, and money as whole cents.
  - `quantize_decimal` rounds half-up, with ties away from zero.
  - The module also covers reading plain decimal text (`Decimal(s)`) and writing an amount as `f"{x:.2f}"`.
- **Reconciliation** (`reconcile.dfy`): deriving two of {base, VAT, total} from the one edited, and `_validate_inputs` with its error precedence.
- **Periods** (`periods.dfy`): the "YYYY-MM" key of a year and month name, the key of the month before, and reading a key back when an entry is edited.
- **Store** (`store.dfy`): the stored record, the search for a record by id, in-place replacement, append, and deletion by a set of ids.
- **Ledger** (`ledger.dfy`): the per-company, per-type sums of a period, each company's balance, and the carry-forward update of `_update_live_data_display`.
- **App** (`app.dfy`): the window class `VatEntryApp`. Its fields are the form's variables, the `_calculating` flag, the edit mode, the transaction list, the known counterparties and the carry-forward store.
  - Writing an amount field fires that field's derivation handler, as Tk's write trace does. The flag stops the handlers from re-triggering each other.
  - The actions `_add_or_update_entry`, `_edit_entry`, `_cancel_edit`, `_clear_entry_fields`, `_delete_selected_entry` and `_update_live_data_display` are methods. Their contracts state the whole new state.

Modelling choices:

- Money is `int` cents and the VAT rate is a `Dec` (0.18 is `Dec(18, 2)`). Derivations divide exactly and then round half-up.
- The focus check `focus_get()` answers for the whole application, not for the widget it is called on. It is therefore one `hasFocus: bool` parameter.
- The period keys of the shown month are computed once and passed on as plain strings. `ShowLedger` and `SaveEntry` receive the values `get_month_year_str` and `get_prev_month_year_str` return.
- A timestamp id is a `freshId` parameter. A treeview selection is a sequence of tag lists, and the delete confirmation is a `bool` parameter.
- A stored dictionary key that may be absent is an `Option`. The record's amounts are cents.
- The `_calculating` flag is set and reset inside the handlers, and every handler that returns normally leaves it off. The user actions (edit, save, delete) are specified for either value of the flag: `_edit_entry` and `_clear_entry_fields` set it and reset it themselves.

## Model

| member | source | states |
|---|---|---|
| Decimals.RoundHalfUp | streamlit_app.py:44 | the rounded value is within one half of n/d, a tie goes away from zero, and the sign is kept |
| Decimals.RoundsToUnique | streamlit_app.py:44 | at most one whole number is n/d rounded half-up, so RoundsTo defines the rounding |
| Decimals.RoundExact | streamlit_app.py:44 | rounding leaves a whole number unchanged |
| Decimals.RoundNegate | streamlit_app.py:44 | rounding is symmetric about zero: -0.005 goes to -0.01 as 0.005 goes to 0.01 |
| Decimals.RoundAtMost | streamlit_app.py:44 | a rounded value does not pass a whole number that the exact value does not pass |
| Decimals.RoundAtLeast | streamlit_app.py:44 | a rounded value is not below a whole number that the exact value reaches |
| Decimals.Quantize | streamlit_app.py:40-46 | `quantize_decimal` gives the cents the value rounds to half-up |
| Decimals.QuantizeDecimal | streamlit_app.py:40-46 | None (also the result of unreadable text) quantizes to 0; any other value rounds half-up to cents |
| Decimals.QuantizeCentPrecise | streamlit_app.py:44 | quantizing is the identity on a value with at most two decimals |
| Decimals.QuantizeCents | streamlit_app.py:44 | an amount already in cents quantizes to itself |
| Decimals.AddCents | streamlit_app.py:369 | adding two cent amounts is exact and stays at two decimals |
| Decimals.ParseFormatCents | streamlit_app.py:350-356 | text written as `f"{x:.2f}"` reads back through `Decimal()` as the same cents at scale 2, negative amounts included |
| Decimals.QuantizeFormatted | streamlit_app.py:439 | a written amount, read back and quantized, is the amount |
| Decimals.ParseDecimal | streamlit_app.py:350-356 | `_safely_get_decimal`: empty text gives None; text led by a digit goes to the unsigned reader and a leading `-` negates it (ParseDecimalUnsigned), and an amount written as `f"{x:.2f}"` reads back as the same cents (ParseFormatCents) |
| Decimals.ParseDecimalUnsigned | streamlit_app.py:354 | text starting with a digit reads as its unsigned value, and with a leading '-' as the negated value |
| Decimals.FormatCents | streamlit_app.py:370-371 | `f"{x:.2f}"` writes at least "0.00"'s four characters; with ParseFormatCents and QuantizeFormatted it is the text the handlers at lines 370-371, 387-388 and 404-405 write and read back |
| Text.NatToDigitsRoundTrip | streamlit_app.py:61 | the digits `str(n)` writes read back as n |
| Text.ParseInt | streamlit_app.py:533-534 | `int()` for text written with ASCII digits; its lemmas state that it skips surrounding whitespace (ParseIntStrip), ignores single underscores between digits (UnderscoreIgnored), inverts `str()` (ParseIntRoundTrip) and refuses malformed text (ParseIntRefuses) |
| Text.ParseIntRoundTrip | streamlit_app.py:534 | `int(str(i)) == i` for every integer, negative ones included |
| Text.ParseDigits | streamlit_app.py:534 | plain decimal digits read as the number they denote |
| Text.ParseNegatedDigits | streamlit_app.py:534 | a minus sign before plain digits reads as the negated number |
| Text.ParseIntStrip | streamlit_app.py:534 | `int(s)` reads `s.strip()`: it skips exactly the whitespace `str.strip()` removes |
| Text.ParseIntStripped | streamlit_app.py:534 | reading stripped text gives what reading the text gives |
| Text.UnderscoreIgnored | streamlit_app.py:534 | one underscore between two runs of digits is ignored: "1_000" reads as 1000 |
| Text.ParseIntSpaced | streamlit_app.py:534 | " 3" reads as 3 and "12\n" as 12 |
| Text.ParseIntRefuses | streamlit_app.py:534 | a doubled, leading or trailing underscore, a space after the sign, empty text and blank text all raise |
| Text.Pad2 | streamlit_app.py:61 | `{m:02d}` is two digits that denote m |
| Text.IndexOf | streamlit_app.py:60 | `list.index`: the position of the first occurrence, with no earlier occurrence, or the length when there is none |
| Text.Split | streamlit_app.py:533 | `split('-')` gives at least one part, no part holds the separator, and the text itself is the one part when there is no separator |
| Text.SplitJoin | streamlit_app.py:533 | the parts of a split, joined with the separator, give the text back |
| Text.IndexOfFirst | streamlit_app.py:60 | an element with no earlier occurrence is found at its own position |
| Text.SplitTwo | streamlit_app.py:533 | two separator-free parts joined by the separator split back into exactly those two |
| Text.Strip | streamlit_app.py:447 | the stripped text is no longer, starts and ends with a non-space, and text that already does is unchanged |
| Text.StripSlice | streamlit_app.py:447 | the stripped text is the contiguous slice of the text left once the leading and trailing whitespace, and only whitespace, is cut off |
| Text.StripTwice | streamlit_app.py:447 | stripping is idempotent |
| Text.StripEmpty | streamlit_app.py:479 | a stripped counterparty is empty exactly when the typed text is all whitespace |
| Periods.MonthNumber | streamlit_app.py:60 | a month number exists exactly for the twelve month names, is in 1..12, and names that month |
| Periods.MonthNamesDistinct | streamlit_app.py:35-36 | the twelve month names are pairwise different |
| Periods.MonthNumberOf | streamlit_app.py:60 | the month name at position i has number i + 1 |
| Periods.PrevMonth | streamlit_app.py:72-75 | the previous month is the calendar month before: year*12+month goes down by one, and the month stays in 1..12 |
| Periods.PrevKeyParses | streamlit_app.py:68-75 | the previous key reads back as the month before in the same year, or as December of the year before for January |
| Periods.PrevKeyOfFollowingMonth | streamlit_app.py:68-75 | the previous key of month m + 1 is the key of month m of the same year, so the key a month writes is the previous key the next month reads |
| Periods.PrevKeyOfJanuary | streamlit_app.py:68-75 | the previous key of January of year y + 1 is the key of December of year y |
| Periods.PrevKeyDiffers | streamlit_app.py:68-75 | the previous month's key is never the month's own key |
| Periods.MonthKey | streamlit_app.py:61 | the key of a year and month number; ParseMonthKeyRoundTrip reads it back as that pair |
| Periods.MonthYearStr | streamlit_app.py:56-65 | `get_month_year_str` for a month name; EditPeriodRoundTrip reads it back as that year and name |
| Periods.PrevMonthYearStr | streamlit_app.py:68-80 | `get_prev_month_year_str`; PrevKeyParses reads it back as the calendar month before |
| Periods.ParseMonthKey | streamlit_app.py:533-534 | the split at '-' and the two `int()` calls; KeyParts, ParseKeyText and ParseMonthKeyRoundTrip state what it reads |
| Periods.KeyParts | streamlit_app.py:533 | two parts without '-' joined by '-' split back into those parts |
| Periods.ParseKeyText | streamlit_app.py:533-534 | a year and a two-digit month joined by '-' read back as that pair, for any month 0..99 |
| Periods.ParseMonthKeyRoundTrip | streamlit_app.py:56-61 | a key built from a year and month number splits and parses back into them |
| Periods.EditPeriod | streamlit_app.py:531-542 | if the key does not split into two integers (as `int()` reads them, whitespace and underscores included), the form keeps its year and month; otherwise the year is the key's, and the month is the name of the key's month when that is in 1..12 and the form's month otherwise |
| Periods.EditPeriodOfKey | streamlit_app.py:536-538 | a key whose month part is 1..12 sets the year and the name of that month |
| Periods.EditPeriodRoundTrip | streamlit_app.py:531-538 | editing a record whose key the form built restores the form's year and month name |
| Periods.EditPeriodMonthOutOfRange | streamlit_app.py:536-537 | a month part of 0 or 13..99 still sets the year but keeps the form's month |
| Periods.EditPeriodNoDash | streamlit_app.py:539-542 | a key without '-' leaves year and month as they were |
| Periods.EditPeriodIgnoresSpaces | streamlit_app.py:533-538 | whitespace around either part of a key changes nothing: "2024- 3" sets March 2024 as "2024-03" does |
| Reconcile.VatFromBase | streamlit_app.py:368 | the VAT is base times rate, rounded half-up to cents, and is not negative for a non-negative base and rate |
| Reconcile.BaseFromVat | streamlit_app.py:385 | the base is VAT over rate, rounded half-up to cents, and is not negative for a non-negative VAT |
| Reconcile.BaseFromTotal | streamlit_app.py:402 | the base is total over 1 + rate, rounded half-up to cents |
| Reconcile.TotalFromBase | streamlit_app.py:369 | the total derived from a base; FromBaseSumsExactly states it is exactly base + VAT in cents |
| Reconcile.TotalFromVat | streamlit_app.py:386 | the total derived from a VAT; FromVatSumsExactly states it is exactly base + VAT in cents |
| Reconcile.VatFromTotal | streamlit_app.py:403 | the residual VAT; FromTotalSumsExactly and FromTotalWithinTotal state that base + VAT is the total and neither is negative |
| Reconcile.FromBaseSumsExactly | streamlit_app.py:367-369 | from a cent-precise base, base + derived VAT equals the derived total exactly |
| Reconcile.FromVatSumsExactly | streamlit_app.py:384-386 | from a cent-precise VAT, derived base + VAT equals the derived total exactly |
| Reconcile.FromTotalSumsExactly | streamlit_app.py:401-403 | from a cent-precise total, the derived base plus the residual VAT equals the total exactly |
| Reconcile.FromTotalWithinTotal | streamlit_app.py:401-403 | from a non-negative cent-precise total, the base lies between 0 and the total and the residual VAT is not negative |
| Reconcile.FromBaseExample | streamlit_app.py:367-369 | a base of 100 at 0.18 gives a VAT of 18.00 and a total of 118.00 |
| Reconcile.FromTotalExample | streamlit_app.py:401-403 | a total of 118.00 at 0.18 gives a base of 100.00 and a VAT of 18.00 |
| Reconcile.AfterBaseEdit | streamlit_app.py:362-377 | the base handler never rewrites the base field; for a missing, unreadable or negative base it empties VAT and total when no widget has focus and leaves all fields unchanged otherwise |
| Reconcile.AfterVatEdit | streamlit_app.py:379-393 | the VAT handler never rewrites the VAT field; for a missing, unreadable or negative VAT, or a rate that is not positive, it empties base and total when no widget has focus and leaves all fields unchanged otherwise |
| Reconcile.AfterTotalEdit | streamlit_app.py:395-410 | the total handler never rewrites the total field; for a missing, unreadable or negative total, or 1 + rate not positive, it empties base and VAT when no widget has focus and leaves all fields unchanged otherwise |
| Reconcile.BaseEditReadBack | streamlit_app.py:367-371 | after a base edit, the VAT and total fields read back as the derived cents |
| Reconcile.VatEditReadBack | streamlit_app.py:384-388 | after a VAT edit, the base and total fields read back as the derived cents |
| Reconcile.TotalEditReadBack | streamlit_app.py:401-405 | after a total edit, the base and VAT fields read back as the derived cents |
| Reconcile.ClearedFormIsRejected | streamlit_app.py:372-376 | a missing or negative base, with no focused widget, empties VAT and total, and the form is then rejected |
| Reconcile.ClearedAfterVatIsRejected | streamlit_app.py:389-392 | a bad VAT or rate, with no focused widget, empties base and total, and the form is then rejected |
| Reconcile.ClearedAfterTotalIsRejected | streamlit_app.py:406-409 | a bad total or rate, with no focused widget, empties base and VAT, and the form is then rejected |
| Reconcile.ValidateTriple | streamlit_app.py:414-439 | exactly one error, by precedence: all absent; some absent; any negative; more than 0.01 apart. Each holds if and only if its condition does, and the inconsistency error carries the three amounts it reports. On success, the three amounts are rounded to cents |
| Reconcile.OffByMoreThanACent | streamlit_app.py:432 | `abs(base + vat - total) > Decimal('0.01')`, exactly; ValidatedWithinACent and ValidateExamples state its effect, the 0.01 boundary included |
| Reconcile.ValidateFields | streamlit_app.py:420-433 | `_validate_inputs` on the three field texts; ClearedFormIsRejected, ClearedAfterVatIsRejected and ClearedAfterTotalIsRejected state that a cleared form is rejected |
| Reconcile.ValidatedWithinACent | streamlit_app.py:429-439 | accepted cent-precise amounts are non-negative, and base + VAT is within one cent of the total |
| Reconcile.ValidateExamples | streamlit_app.py:424-439 | 10/2/13 is rejected; 10/2/12 is accepted as 10.00/2.00/12.00; a difference of exactly 0.01 is accepted |
| Reconcile.ExactTripleValidates | streamlit_app.py:424-439 | non-negative cent-precise amounts with base + VAT = total are accepted as they are |
| Store.FindIndexById | streamlit_app.py:463-468 | the search finds the first record carrying the id, or reports that none carries it |
| Store.ReplaceKeepsUnique | streamlit_app.py:465-466 | replacing a record in place under its own id keeps every id where it was and keeps ids unique |
| Store.AppendFreshKeepsUnique | streamlit_app.py:475-476 | appending a record under an id no record carries keeps ids unique |
| Store.Delete | streamlit_app.py:598 | the filtered list is no longer, and holds only records of the list whose id is not in the set |
| Store.DeleteMembership | streamlit_app.py:598 | a record survives exactly when it was in the list and its id is not in the set |
| Store.DeleteAppend | streamlit_app.py:598 | filtering works record by record, so the survivors keep their order |
| Store.DeleteCount | streamlit_app.py:596-600 | old length minus new length is the number of records whose id is in the set |
| Store.DeleteNothing | streamlit_app.py:598 | when no id is in the set, the list is unchanged |
| Store.DeleteNothingRemoved | streamlit_app.py:600-608 | a deletion count of 0 means the list is as it was |
| Store.CollectIds | streamlit_app.py:586-590 | the ids are exactly the first tags of the selected rows that have tags |
| Ledger.MonthlyTotals | streamlit_app.py:662-676 | only known companies and types appear; each sum is that of the period's records of that company and type, with missing amounts counting 0 |
| Ledger.TypeTotals | streamlit_app.py:662-676 | the sums of one company and type over the period's records; TypeTotalsAppend and TypeTotalsIgnores state it is additive and skips other records |
| Ledger.PeriodTotals | streamlit_app.py:662-676 | the reference sums of the period for every known company and type |
| Ledger.TypeTotalsAppend | streamlit_app.py:663-676 | the sums over a concatenation add up: each record contributes on its own |
| Ledger.TypeTotalsIgnores | streamlit_app.py:664-668 | a record of another period, company or type leaves the sums alone |
| Ledger.CarriedEntry | streamlit_app.py:725-731 | a period carries an entry exactly when its balance is negative, and the entry is that balance |
| Ledger.PrevSurplus | streamlit_app.py:690 | the surplus stored at the previous month's key, 0 when none; SurplusCarriedForward states what a refresh leaves there |
| Ledger.NetVat | streamlit_app.py:693 | sales VAT minus imports and local VAT |
| Ledger.Balance | streamlit_app.py:694 | carried surplus plus net VAT; CarriedEntry and StatusOf state how its sign is used |
| Ledger.CarryStep | streamlit_app.py:721-731 | one company's carry update; CarryStepEntry states it writes or deletes only that company's entry at the period key |
| Ledger.CarryAfter | streamlit_app.py:680-731 | the loop over the companies; CarryAfterEntry, CarryAfterKeys and CarryAfterIdempotent state its result |
| Ledger.CarryStepEntry | streamlit_app.py:722-731 | one company's turn writes, for that company and period only, the entry its balance calls for; the company is now in the store |
| Ledger.CarryAfterEntry | streamlit_app.py:680-731 | after the loop, each company has at the period key the entry for its balance, computed from the store before the loop; every other entry is unchanged |
| Ledger.CarryAfterKeys | streamlit_app.py:722-723 | the loop keeps every company of the store and adds every company it visits |
| Ledger.CarryAfterSameLookups | streamlit_app.py:684-694 | the store update reads the sums only for known companies and types |
| Ledger.CarryAfterIdempotent | streamlit_app.py:680-731 | with distinct keys, running the update twice on the same data leaves the store as one run does |
| Ledger.StatusOf | streamlit_app.py:716-718 | the balance is shown as a surplus exactly when negative and as due exactly when positive |
| Ledger.TypeRow | streamlit_app.py:698-703 | one row of sums per transaction type, in the configured order |
| Ledger.CompanyStep | streamlit_app.py:681-731 | one company's view (sums, carried surplus, balance, status) and its entry written or deleted |
| Ledger.ViewOf | streamlit_app.py:697-719 | one company's shown ledger: type sums, carried surplus, balance and status; CompanyStep and RecomputedShowsSameView state when it is shown |
| Ledger.CarryForward | streamlit_app.py:680-732 | the loop over all companies produces the reference store update and one view per company, each computed from the store before the loop |
| App.Recomputed | streamlit_app.py:651-731 | the store after a refresh of a period; RecomputedIdempotent, RecomputedShowsSameView and SurplusCarriedForward state its properties |
| App.RecomputedIdempotent | streamlit_app.py:651-731 | refreshing the ledger of a period twice with the same list leaves the store as one refresh does |
| App.RecomputedShowsSameView | streamlit_app.py:680-719 | a second refresh of a period with the same list shows each company the same view as the first |
| App.SurplusCarriedForward | streamlit_app.py:690-731 | after a refresh of a period, the month whose previous key it is reads the period's balance as its carried surplus when that balance was negative, and 0 when it was due or zero |
| App.VatEntryApp.constructor | streamlit_app.py:90-113 | the initial state: rate 0.18, the flag off, no edit mode, empty list, store and counterparties, the first company and type, and empty entry fields |
| App.VatEntryApp.SetBaseText | streamlit_app.py:116 | writing the base field fires the base handler: under the flag only the write happens, otherwise the fields become those the handler derives |
| App.VatEntryApp.SetVatText | streamlit_app.py:117 | writing the VAT field fires the VAT handler, with the same guard |
| App.VatEntryApp.SetTotalText | streamlit_app.py:118 | writing the total field fires the total handler, with the same guard |
| App.VatEntryApp.CalculateFromBase | streamlit_app.py:362-377 | entered under the flag it changes nothing; otherwise the fields become the base derivation (or VAT and total cleared when nothing has focus), and the flag is off again |
| App.VatEntryApp.CalculateFromVat | streamlit_app.py:379-393 | the same for the VAT handler, which derives only at a positive rate |
| App.VatEntryApp.CalculateFromTotal | streamlit_app.py:395-410 | the same for the total handler, with the VAT as the residual |
| App.VatEntryApp.ClearEntryFields | streamlit_app.py:491-499 | the invoice, counterparty and three amounts are emptied without any derivation, and the flag is off |
| App.VatEntryApp.WriteAmountsQuietly | streamlit_app.py:549-551 | under the flag, the three amount writes land as written and nothing is derived |
| App.VatEntryApp.CancelEdit | streamlit_app.py:566-571 | edit mode is left and the entry fields are cleared |
| App.VatEntryApp.ShowLedger | streamlit_app.py:653-731 | the store becomes the reference update for the period; one view per company, from the store before |
| App.VatEntryApp.UpdateLiveDataDisplay | streamlit_app.py:651-731 | the same, for the keys of the period the form shows |
| App.VatEntryApp.LoadRecord | streamlit_app.py:531-551 | the form shows the record: its period as the edit parse gives it, company and type with their defaults, texts and amounts as written, with no derivation |
| App.VatEntryApp.EditEntry | streamlit_app.py:501-553 | no selection, a missing tag and an unknown id are each reported if and only if they occur, and change nothing, the flag included; otherwise edit mode is entered for the first record with the id, the form shows it and the flag is off, whatever it was before |
| App.VatEntryApp.NewEntry | streamlit_app.py:447-459 | the record built has no id, the form's company, period and type, the stripped invoice number and counterparty, and the validated amounts |
| App.VatEntryApp.FormEntry | streamlit_app.py:414-459 | an error exactly when validation fails (with its error); otherwise the record for the shown period, with stripped texts and rounded amounts |
| App.VatEntryApp.StoreEntry | streamlit_app.py:461-476 | in edit mode, the first record with the id is replaced in place keeping the id, or an unknown id changes nothing; otherwise the entry is appended with the fresh id |
| App.VatEntryApp.StoreKeepsUniqueIds | streamlit_app.py:461-476 | a store step keeps the ids unique when the fresh id is not in use: an in-place update keeps every id, an append adds an unused one |
| App.VatEntryApp.Commit | streamlit_app.py:473-488 | edit mode is left after an update; a non-empty counterparty is remembered; the ledger is recomputed; the fields are cleared |
| App.VatEntryApp.RefreshAndClear | streamlit_app.py:486-488 | the ledger of the period is recomputed and the entry fields are cleared |
| App.VatEntryApp.SaveEntry | streamlit_app.py:461-488 | stored as StoreEntry says; an unknown id leaves everything else alone; otherwise the save is committed for the entry's period |
| App.VatEntryApp.AddOrUpdateEntry | streamlit_app.py:441-488 | rejected with the validation error exactly when validation fails, changing nothing; otherwise saved as SaveEntry says |
| App.VatEntryApp.RemoveIds | streamlit_app.py:596-608 | the count is old minus new length; when positive, the list is filtered in order and the ledger recomputed; otherwise nothing changes |
| App.VatEntryApp.DeleteSelectedEntry | streamlit_app.py:575-608 | no selection, no confirmation or no tagged id change nothing (each if and only if); otherwise the tagged ids are removed as RemoveIds says |

## Left out

- Widgets, layout, tooltips, keyboard navigation, the treeview and its display sort (`_populate_treeview`), and message boxes. Errors are outcome values instead of dialogs.
- `format_curr`: display formatting with the currency symbol and thousands separators.
- `_filter_counterparties`: an autocomplete built on Unicode `str.lower()`.
- `_save_data`, `_load_data` and `_on_closing`: JSON file I/O. The constructor stops before data is loaded.
- Float storage: stored amounts are taken to be exact cents. The `float()` conversions and the float formatting of stored amounts are not modelled.
- The timestamp id from `datetime.now()`: it is the `freshId` parameter, and its uniqueness is a precondition of `Store.AppendFreshKeepsUnique`.
- The `date.today()` fallbacks. `get_month_year_str` falls back only for a month name that is not in the list: any integer year is formatted, so year 10000 gives "10000-03". `get_prev_month_year_str` also falls back for a year outside 1..9999, because `date()` raises `ValueError` there. For January of year 1, stepping back a day raises `OverflowError`, which its handler does not catch; the broad handler of `_update_live_data_display` then skips the whole refresh. The model requires periods that avoid all of these (`HasPrevKey`): a month name, and a year in 1..9999 other than January of year 1.
- App.VatEntryApp.AddOrUpdateEntry: requires a valid period (`HasPrevKey`). The key it stores would be formed for any year, but the ledger refresh that follows needs the previous key, which falls back to today's date or aborts the refresh otherwise.
- App.VatEntryApp.UpdateLiveDataDisplay: requires a valid period (`HasPrevKey`), for the previous key, as above.
- App.VatEntryApp.DeleteSelectedEntry: requires a valid period (`HasPrevKey`), for the refresh after a removal, as above.
- `strftime('%Y')` is taken to write the year without padding, as glibc does. This differs from a padded year only for years below 1000.
- `Decimal` context precision (28 significant digits) and exotic `Decimal()` inputs: exponents, NaN, Infinity, surrounding whitespace, underscores and non-ASCII Unicode decimal digits (such text reads as None here). Division is exact and is rounded once.
- App.VatEntryApp.CalculateFromBase, App.VatEntryApp.CalculateFromVat, App.VatEntryApp.CalculateFromTotal: `Decimal()` reads "NaN", "nan" and "sNaN", and the comparison with 0 at streamlit_app.py:367, 384 and 401 then raises `InvalidOperation` after the flag was set (lines 365, 382 and 398). The reset at lines 377, 393 and 410 never runs, so the flag stays on and every derivation returns early until `_clear_entry_fields` or `_edit_entry` resets it. The model reads NaN text as None and takes the clear branch instead, so it never reaches that state by a derivation. The operations that reset the flag are specified for it all the same.
- Text.ParseInt: `int()` also reads non-ASCII Unicode decimal digits (Arabic-Indic, fullwidth and the like); the model reads ASCII digits only and gives None for them.
- Periods.EditPeriod: `int()` also reads non-ASCII Unicode decimal digits (Arabic-Indic, fullwidth and the like); the model reads ASCII digits only, so a key written with those keeps the form's year and month here. Whitespace around either part (as `str.isspace` defines it) and single underscores between digits are modelled (Text.ParseInt).
- The negative zero that `Decimal` can print ("-0.00").
- App.VatEntryApp.EditEntry: setting the company, year and month variables fires `_update_live_data_display` through their write traces. That refresh is not part of the contract, and the ledger is left unchanged there.
- App.VatEntryApp.EditEntry and App.VatEntryApp.CancelEdit: the button relabelling, the cancel button placement, the focus moves and the treeview deselection are left out.
- Carry-forward entries loaded from a file can hold values that are not whole cents. The store here holds whole cents only.
- The `hasattr` guards on the widgets: the widgets always exist once the window is built.
