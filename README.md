# casasplit, modelled in Dafny

casasplit lets a household record its shared expenses and split them equally. It has
three programs, and they share two CSV files:

- **contas** (the expense manager) appends expenses to `contas.csv`, lists them in a
  sortable table, deletes the selected row, and divides one month's total by the number
  of household members.
- **integrantes** (the member editor) parses a comma-separated list of names and
  writes it to `integrantes.csv`, replacing the old roster.
- **dashboard** (the read-only report) loads both files. It picks a default month and
  shows that month's share and table. It also shows the total, mean, maximum and
  minimum of the whole ledger, and the totals per month and per category that its
  charts plot.

The model keeps the accounting core of those programs and drops the widgets.

- A record is `(month, category, amount)`. The month is the stored `YYYY-MM` key.
  Amounts are whole cents (`nat`), and shares and means are exact `real` quotients.
- Each file is an `Option` of its rows, with `None` meaning the file does not exist.
- The expense manager's form is a class, `Contas.ContasApp`. Its fields are the
  ledger, the `ordem_colunas` flags and the table rows. The handlers that change them
  are methods: `Save` (the save button), `Delete` (the delete button) and `Refresh`
  (a heading click, and the start-up refresh). `ClearTable` and `ShowRows` are the two
  loops inside `Refresh`. The share button changes nothing, so its handler is the
  function `Contas.ComputeShare`, outside the class.
- The member editor and the dashboard have no mutable state. They are modelled as
  functions.

Files:

- `wrappers.dfy`: `Option` and `Result`.
- `text.dfy`: whitespace stripping and Python's string order.
- `money.dfy`: decimal and currency text.
- `records.dfy`: records, sums, shares and filters.
- `integrantes.dfy`, `contas.dfy` and `dashboard.dfy`: one module per program.
- `composition.dfy`: what one program writes and another reads.

Two behaviours of the code are easy to miss, and the model keeps them:

- A delete removes every record equal to the selected row, not only the first one.
- The share filter in the expense manager does not compare canonical keys. It formats
  each stored key as `MM-YYYY` and compares that text with the selection.
  `Contas.InSelectionIsMonth` proves that this picks the same records as comparing
  the keys.

## Model

| member | source | states |
|---|---|---|
| Text.Trim | integrantes/integrantes.py:14 | `strip()`: the result is a slice of the text with only whitespace removed before and after it, and it neither starts nor ends with whitespace |
| Text.TrimTrimmed | integrantes/integrantes.py:14 | stripping text that is already stripped changes nothing |
| Text.TrimChars | integrantes/integrantes.py:14 | stripping adds no character: anything in the result was in the text |
| Text.TrimPadded | integrantes/integrantes.py:14 | a name with one blank on each side strips back to the name |
| Text.StrLtIrreflexive | contas/contas.py:93 | Python's string order is irreflexive |
| Text.StrLtTransitive | contas/contas.py:93 | Python's string order is transitive |
| Text.StrLtTotal | contas/contas.py:93 | any two different strings are ordered one way or the other |
| Text.StrLeTransitive | contas/contas.py:93 | the non-strict order is transitive |
| Text.StrLeTotal | contas/contas.py:93 | the non-strict order is total |
| Text.CountAppend | contas/contas.py:123 | the number of times a character occurs in a concatenation is the sum of its counts in the two parts |
| Money.ParseCents | contas/contas.py:40 | `float(valor)` on decimal text: a result exists exactly when the text holds no information separator (U+001C to U+001F, which `strip()` removes but `float()` does not skip) and the stripped text is a non-empty run of digits, optionally followed by '.' and at most two digits, so text holding a ',' or a '$' is rejected |
| Money.SeparatorRejected | contas/contas.py:40 | an information separator before the digits, as in "\x1c5", makes the parse fail |
| Money.ParseDecimal | contas/contas.py:40 | on stripped text: a result exists exactly for digits with an optional '.' and at most two decimals; digits alone give that many reais, and digits, '.' and a fraction give the reais plus the cents the fraction names |
| Money.ParseWhole | contas/contas.py:40 | a typed whole amount such as "12", with blanks around it or not, is read as that many reais, and fails when an information separator surrounds it |
| Money.ParseFraction | contas/contas.py:40 | a typed amount such as "12.5" is read as the reais before the point plus the cents of the one or two digits after it, and fails when an information separator surrounds it |
| Money.FormatDecimal | contas/contas.py:48 | a text `float()` reads back as the amount, standing for the one `to_csv` writes: non-empty, stripped, and with no ',' |
| Money.ParseFormatDecimal | contas/contas.py:40-48 | that text of an amount parses back to the same number of cents |
| Money.Digits | contas/contas.py:48 | the decimal digits of a number are non-empty, all digits, and read back as the number |
| Money.RemoveSymbol | contas/contas.py:123 | `replace('R$', '')` keeps every ',' |
| Money.RemoveDots | contas/contas.py:123 | `replace('.', '')` leaves no '.' and keeps every ',' |
| Money.CommaToDot | dashboard/dashboard.py:16 | `replace(',', '.')` keeps the length, turns each ',' into '.' and leaves every other character where it was |
| Money.CommaToDotCounts | contas/contas.py:123 | after `replace(',', '.')` no ',' is left, and the number of '.' is the old count of '.' plus the count of ',' |
| Money.CurrencyToDecimal | contas/contas.py:123 | the three replacements turn currency text into text with no ',' and exactly as many '.' as the currency text had ','; what it makes of an amount's own display text is stated by `Money.CurrencyToDecimalFormat` |
| Money.FormatBRL | contas/contas.py:99 | the display text of an amount is "R$ ", then digits and grouping dots, then ',' and exactly two digits; `Money.ParseDisplayed` reads it back as the amount |
| Money.CurrencyToDecimalNoSymbol | contas/contas.py:123 | no "R$" is left when every '$' in the currency text comes right after an 'R' |
| Money.CurrencyToDecimalSinglePass | contas/contas.py:123 | without that condition an "R$" can survive: "RR$$" becomes "R$" |
| Money.CurrencyToDecimalFormat | contas/contas.py:123 | the currency text shown for an amount turns back into a blank followed by the amount's decimal text |
| Money.ParseDisplayed | contas/contas.py:123 | the currency text shown for an amount (line 99) parses (`float`) back to that amount |
| Records.Sum | contas/contas.py:76 | `sum()` of the amounts: no amount exceeds the total, and the total is zero exactly when every amount is; `Records.SumAppend` splits it over a concatenation |
| Records.SumAppend | contas/contas.py:76 | the total of a concatenation is the sum of the totals of the two parts |
| Records.PerMember | contas/contas.py:77 | the total divided by the number of members is neither negative nor above the total; `Records.PerMemberExact` shows nothing is lost |
| Records.PerMemberExact | contas/contas.py:77 | the share times the number of members gives back the total |
| Records.PerMemberOne | contas/contas.py:77 | with one member the share is the whole total |
| Records.PerMemberBetween | dashboard/dashboard.py:87 | a total between n times a lower bound and n times an upper bound gives a quotient between those bounds |
| Records.Filter | dashboard/dashboard.py:52 | a filter keeps exactly the records passing the test, each as many times as it occurred, and never grows the ledger |
| Records.FilterAppend | dashboard/dashboard.py:52 | filtering keeps records in their ledger order: filtering a concatenation filters each part |
| Records.FilterAll | contas/contas.py:123 | a test every record passes keeps the ledger unchanged |
| Records.FilterNone | contas/contas.py:70 | a test no record passes keeps nothing |
| Records.FilterCongruent | contas/contas.py:70 | tests that agree on every record keep the same records |
| Records.InMonth | dashboard/dashboard.py:52 | `df[df['Data'] == mes]`: a record is kept exactly when it is in the ledger and stored under that month, each as many times as it occurs there; `Records.FilterAppend` keeps their order |
| Integrantes.Split | integrantes/integrantes.py:14 | `split(',')` gives one piece more than there are commas, and no piece holds a comma |
| Integrantes.JoinSplit | integrantes/integrantes.py:14 | joining the pieces with ',' gives the text back |
| Integrantes.SplitPlain | integrantes/integrantes.py:14 | a piece with no comma is split off whole |
| Integrantes.SplitJoin | integrantes/integrantes.py:14 | splitting comma-free pieces joined with ',' gives back the pieces |
| Integrantes.ParseRoster | integrantes/integrantes.py:14 | there is one name more than there are commas, no name holds a comma, and no name has whitespace at either end |
| Integrantes.ParseRosterPieces | integrantes/integrantes.py:14 | the i-th name is the i-th comma-separated piece, stripped |
| Integrantes.ParseJoined | integrantes/integrantes.py:14 | parsing comma-free pieces joined with ',' gives each piece stripped, in order |
| Integrantes.ParseJoinedRoster | integrantes/integrantes.py:14 | a roster typed as its names separated by commas parses back to exactly those names |
| Integrantes.ParseRosterEmptyText | integrantes/integrantes.py:14 | an empty text gives one empty name, not an empty roster |
| Integrantes.ParseRosterKeepsEmpty | integrantes/integrantes.py:14 | empty entries are kept: "a,,b" gives "a", "" and "b" |
| Integrantes.ParseRosterStrips | integrantes/integrantes.py:14 | blanks around the names and around the comma are dropped |
| Integrantes.SaveRoster | integrantes/integrantes.py:17-20 | a file always exists after saving, with one entry more than the text has commas |
| Composition.RosterReadBack | integrantes/integrantes.py:17-20 | the expense manager and the dashboard both read back exactly the parsed names, whatever the file held before |
| Contas.LoadRoster | contas/contas.py:15-20 | the stored names, or the one-entry placeholder list when the file is missing |
| Contas.NormalizeMonth | contas/contas.py:39 | "MM-YYYY" becomes a month key exactly when it is a valid selection, and the key is a valid `YYYY-MM` key |
| Contas.ToSelection | contas/contas.py:70 | a stored key formatted as `%m-%Y` is a valid selection |
| Contas.SelectionRoundTrip | contas/contas.py:39 | a selection stored as a key and formatted again (line 70) is the selection the user made |
| Contas.KeyRoundTrip | contas/contas.py:70 | a stored key formatted as a selection and normalised again (line 39) is the same key |
| Contas.ChoicesAreSelections | contas/contas.py:151-156 | every month and year the two boxes offer form a selection that can be stored |
| Contas.NewRecord | contas/contas.py:31-40 | an empty category or value is the missing-field error; a bad month with both fields filled is the month error, reported before the amount is looked at; otherwise a record is made exactly when the month parses and the value parses; the record holds the category, a key that formats back to the selection, and the parsed amount |
| Contas.Appended | contas/contas.py:42-46 | the new ledger is the old one (or nothing, when the file was missing) followed by exactly the new record |
| Contas.ComputeShare | contas/contas.py:59-77 | a missing ledger, an empty roster, a bad stored month and an empty month each give their own error, in that order; otherwise the share is the selected month's total over the roster's length |
| Contas.InSelection | contas/contas.py:70 | a record is kept exactly when it is in the ledger and its key, formatted as `%m-%Y`, is the selection, each as many times as it occurs; `Contas.InSelectionIsMonth` ties this to the key itself |
| Contas.InSelectionIsMonth | contas/contas.py:69-70 | for a valid selection, the filter on formatted keys picks exactly the records stored under the selection's key |
| Contas.InSelectionInvalid | contas/contas.py:70-74 | a selection that is not "MM-YYYY" matches no record |
| Contas.MissingRosterDividesByOne | contas/contas.py:19-20 | with the roster file missing, the share (line 77) is the whole month's total |
| Contas.InSelectionAppend | contas/contas.py:44 | appending a record of the selected month adds it last to the month's records |
| Contas.SavedRecordCounted | contas/contas.py:40-77 | after a save, the share of the saved month is defined, and the month's total has grown by exactly the new amount |
| Contas.Rows | contas/contas.py:98-100 | one table row per record, in order, with the record's month and category |
| Contas.DeleteKey | contas/contas.py:123 | the key of a selected row exists exactly when its currency text, with the three replacements applied and stripped, is decimal text `float` reads; it keeps the row's month and category, and its amount is what `float` reads from that text; `Contas.DisplayedRowKey` gives that amount for a row the table shows |
| Contas.RemoveMatching | contas/contas.py:123 | no record equal to the key is left, and every other record keeps its number of copies |
| Contas.DisplayedRowKey | contas/contas.py:123 | the key read back from a displayed row is the record it displays |
| Contas.RemoveMatchingAppend | contas/contas.py:123 | the records that are kept stay in their order |
| Contas.RemoveMatchingAbsent | contas/contas.py:123 | a key that matches no record leaves the ledger unchanged |
| Contas.RemoveMatchingCount | contas/contas.py:123 | the ledger shrinks by exactly the number of copies of the key |
| Contas.DeleteShownRecord | contas/contas.py:114-123 | deleting the row shown for a record removes that record, so the ledger gets shorter |
| Contas.InOrderTotal | contas/contas.py:93 | any two records are in order by a column, one way or the other |
| Contas.InOrderTransitive | contas/contas.py:93 | the column order is transitive |
| Contas.Insert | contas/contas.py:93 | inserting adds exactly one copy of the record and keeps every other record |
| Contas.InsertOrdered | contas/contas.py:93 | inserting into an ordered ledger keeps it ordered |
| Contas.SortBy | contas/contas.py:93 | `sort_values`: the result is a permutation of the ledger, ordered by the column in the requested direction |
| Contas.OrderedPairs | contas/contas.py:93 | in a sorted ledger every earlier record is in order with every later one |
| Contas.FirstClickDescending | contas/contas.py:91-93 | all flags start true (line 12), so the first click on a column sorts it descending |
| Contas.ContasApp.constructor | contas/contas.py:12 | every column starts with its flag true, and the table starts empty |
| Contas.ContasApp.Refresh | contas/contas.py:85-102 | with no file, nothing changes; otherwise only the clicked column's flag flips, and the table becomes one row per record, in ledger order or sorted by the clicked column in the flipped direction |
| Contas.ContasApp.ClearTable | contas/contas.py:95-96 | every row is removed from the table |
| Contas.ContasApp.ShowRows | contas/contas.py:98-100 | the table gets one row per record, in order |
| Contas.ContasApp.Save | contas/contas.py:29-56 | a form that cannot be saved reports its error and changes nothing; otherwise the ledger gains the new record at the end, the flags are kept, and the table shows the new ledger |
| Contas.ContasApp.Delete | contas/contas.py:105-127 | no selected row is an error; a deletion that is not confirmed changes nothing; a confirmed one removes the row from the table, then reports a missing file or an amount that does not parse, or else removes every record equal to the row's key |
| Dashboard.StoredAmount | dashboard/dashboard.py:16 | the Valor text converts exactly when it holds no information separator and, with ',' made '.' and stripped, it is decimal text; text with no ',' is read as `float` reads it |
| Dashboard.RowRecord | dashboard/dashboard.py:14-16 | a stored row becomes a record with the same month and category, and the amount its Valor text parses to |
| Dashboard.ParseAmounts | dashboard/dashboard.py:16 | the Valor column converts when every row's amount parses, and then gives one record per row, in order |
| Dashboard.LoadLedger | dashboard/dashboard.py:12-19 | a missing file is an empty ledger; a bad stored month is reported ahead of any amount; loading succeeds exactly when every month and every amount parses; a loaded ledger has one record per row, with valid month keys and the parsed amounts |
| Dashboard.LoadRoster | dashboard/dashboard.py:22-27 | the stored names, or no one when the file is missing (there is no placeholder entry) |
| Dashboard.Months | dashboard/dashboard.py:44 | the Data column, one month per record |
| Dashboard.FirstIndex | dashboard/dashboard.py:44 | the position where a value first appears |
| Dashboard.FirstIndexPrefix | dashboard/dashboard.py:44 | a value first appears in a sequence where it first appears in any prefix holding it |
| Dashboard.Distinct | dashboard/dashboard.py:44 | `unique()`: exactly the values present, none twice, in the order they first appear |
| Dashboard.DefaultMonth | dashboard/dashboard.py:43-47 | no month for an empty ledger; otherwise a ledger month that first appears no earlier than any other month, which is the last distinct month |
| Dashboard.MemberShare | dashboard/dashboard.py:51-72 | the selection prompt is shown exactly when no month is selected or the ledger is empty; a share is shown exactly when the month has records and the roster has names, and it is the month's total over the roster's length |
| Dashboard.DefaultMonthHasShare | dashboard/dashboard.py:43-56 | for a loaded, non-empty ledger and a non-empty roster, the month the page starts on always has a share |
| Dashboard.MonthTable | dashboard/dashboard.py:76-79 | the table has the month's records in ledger order, and each shown amount reads back as the record's amount |
| Dashboard.MaxAmount | dashboard/dashboard.py:88 | the largest amount is in the ledger and no amount exceeds it |
| Dashboard.MinAmount | dashboard/dashboard.py:89 | the smallest amount is in the ledger and no amount is below it |
| Dashboard.SumBounds | dashboard/dashboard.py:86-87 | the total lies between the count times any lower bound and the count times any upper bound |
| Dashboard.Summary | dashboard/dashboard.py:85-89 | indicators exist exactly for a non-empty ledger: the total is the sum, the mean is the total over the count, and the largest and smallest amounts are amounts of the ledger that bound every other |
| Dashboard.MeanBetween | dashboard/dashboard.py:87-89 | the smallest amount is at most the mean, and the mean is at most the largest amount |
| Dashboard.AddTo | dashboard/dashboard.py:102 | adding to a sorted group list keeps it sorted, adds the key to the key set, and adds the amount to that key's sum and to the total |
| Dashboard.LedgerKeys | dashboard/dashboard.py:126 | the keys are exactly the values the grouped column takes in the ledger |
| Dashboard.GroupSums | dashboard/dashboard.py:102 | `groupby(col)['Valor'].sum()`, by month here and by category at lines 126 and 142: keys are strictly ascending, they are exactly the ledger's values of the column, and the group sums add up to the ledger total |
| Dashboard.SortedPairs | dashboard/dashboard.py:102 | in the group list every earlier key is below every later one, so no key occurs twice |
| Dashboard.GroupTotals | dashboard/dashboard.py:126 | each group's sum is the total of exactly the records with that key |
| Dashboard.TrendPointIsMonthTotal | dashboard/dashboard.py:102 | the trend chart's value for a month is the month total that the share divides |
| Composition.Stored | contas/contas.py:48 | the ledger file written by the expense manager has one row per record, with its month and category, and an amount text with no ',' |
| Composition.LedgerReadBack | dashboard/dashboard.py:14-16 | the dashboard loads back exactly the records the expense manager wrote (contas/contas.py line 48) |
| Composition.SharesAgree | dashboard/dashboard.py:52-56 | with a roster file present, the share the expense manager reports (contas/contas.py lines 69-76) for a month is the share the dashboard shows for it |
| Composition.SharesDisagreeWithoutRoster | dashboard/dashboard.py:26-27 | with no roster file, the expense manager still computes a share with its placeholder list (contas/contas.py lines 19-20), but the dashboard shows no share |

## Left out

- The widgets and layout are left out. That covers tkinter forms, buttons, message boxes and
  `mainloop`, and the Streamlit page. Each handler takes its field values as
  parameters, and returns or records the error it would show.
- The matplotlib and seaborn charts are left out (dashboard/dashboard.py:104-119, 128-135,
  144-148), and so is the loop that writes labels on the chart. Only the data they plot
  is modelled, as `Dashboard.GroupSums`.
- CSV reading and writing is file I/O. Each file is an `Option` of its rows, with
  `None` for a missing file. The file is taken to hold exactly the rows written, so
  `Composition.RosterReadBack` holds only under that view: `read_csv` reads an empty
  name, and names such as "NA", "nan" or "null", back as NaN, and the joins at
  contas/contas.py:25 and dashboard/dashboard.py:68 would then fail. The amount text
  `to_csv` writes (contas/contas.py:48) is the float's repr ("10.5", "0.0", "1e+16" from
  10^16 up); the model writes one text that `float()` reads back as the same amount,
  `Money.FormatDecimal`, and that is all the dashboard's reading of it depends on.
- Floating point is not modelled. Amounts are whole cents, and shares and means are
  exact rationals. `float(valor)` is modelled only for digits with an optional '.' and
  at most two decimals. The model rejects texts Python's `float` reads: signs,
  exponents, '_' separators, `inf`/`nan`, text without a leading digit, more than two
  decimals, and digits outside ASCII ("１２" and "١٢" both read as 12.0).
- Amounts with more than two decimals are not modelled, and with them a quirk of the
  code: contas/contas.py:40 accepts "10.555" and line 48 stores it,
  line 99 shows it as "R$ 10,55" (the double nearest 10.555 lies just below it), and the float comparison at line 123 then never
  equals the stored 10.555, so that row cannot be deleted.
- `locale.setlocale` and `locale.currency`: `Money.FormatBRL` gives the pt_BR
  shape "R$ 1.234,56", which is all the delete path needs from the display text.
  The formatting of shares and means as text is not modelled.
- General `pd.to_datetime` parsing is not modelled. Only the fixed `MM-YYYY` to
  `YYYY-MM` permutation is modelled, and `Contas.NormalizeMonth` is None unless the
  text is exactly `MM-YYYY` with a month from 01 to 12. pandas also reads a one-digit
  month ("1-2025" gives "2025-01"), and raises `OutOfBoundsDatetime` for years outside
  1677-2262 ("01-1500"), which the model accepts; the month and year boxes produce
  neither text. A stored month that is not a `YYYY-MM` key is a load error in the
  model; the programs read more: the format-free `pd.to_datetime` at
  dashboard/dashboard.py:15 reads "2025/01" and "2025-01-15", and `format='%Y-%m'` at
  contas/contas.py:69 reads "2025-1".
- The regex replace at contas/contas.py:92 and :120 runs on a column that is already
  numeric. It is treated as the identity.
- `Contas.SortBy`: pandas' default sort is not stable. The model sorts stably, so the
  relative order of records with equal keys is not modelled.
- `Money.CurrencyToDecimalNoSymbol`: it is stated only for text in which every '$'
  directly follows an 'R'. A single replace pass can leave "R$" behind otherwise;
  `Money.CurrencyToDecimalSinglePass` shows this.
- `Contas.SavedRecordCounted`: it states that the share is defined and that the month
  total grows by the new amount, not the share's value. The value then follows from
  `Contas.ComputeShare`.
- `Integrantes.SaveRoster`: its contract gives the file's size. That the old roster is
  replaced outright is stated by `Composition.RosterReadBack`.
- Several copies of the programs writing the same file concurrently is not modelled.
