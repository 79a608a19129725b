/**
 * The expense form: the ledger file contas.csv, the table that shows it, the
 * per-column sort direction, and the "share per member" computation.
 */
module Contas {
  import opened Wrappers
  import opened Text
  import opened Money
  import opened Records

  // ---------------------------------------------------------------------------
  // Roster as this form reads it

  /** The one-name list read in place of a missing roster file. */
  const NoRosterSentinel: string := "Nenhum integrante cadastrado"

  /** `carregar_integrantes`: the stored names, or the sentinel list when the file is missing. */
  function LoadRoster(file: Option<seq<string>>): (names: seq<string>)
    ensures file.None? ==> names == [NoRosterSentinel]
    ensures file.Some? ==> names == file.value
  {
    match file
    case None => [NoRosterSentinel]
    case Some(names) => names
  }

  // ---------------------------------------------------------------------------
  // Month selection "MM-YYYY" and stored month key "YYYY-MM"

  /** A selection "MM-YYYY" as the month and year boxes produce it, month 01 to 12. */
  predicate IsSelection(s: string) {
    |s| == 7 && s[2] == '-' && AllDigits(s[..2]) && AllDigits(s[3..]) && 1 <= Value(s[..2]) <= 12
  }

  /** `pd.to_datetime(sel, format='%m-%Y').strftime('%Y-%m')`; None unless the text is MM-YYYY. */
  function NormalizeMonth(selection: string): (key: Option<string>)
    ensures key.Some? <==> IsSelection(selection)
    ensures key.Some? ==> IsMonthKey(key.value)
  {
    if IsSelection(selection) then
      var key := selection[3..] + "-" + selection[..2];
      assert key[..4] == selection[3..] && key[5..] == selection[..2];
      Some(key)
    else None
  }

  /** `strftime('%m-%Y')` of a stored month key. */
  function ToSelection(key: string): (selection: string)
    requires IsMonthKey(key)
    ensures IsSelection(selection)
  {
    var selection := key[5..] + "-" + key[..4];
    assert selection[..2] == key[5..] && selection[3..] == key[..4];
    selection
  }

  /** A selection stored as a key and shown again is the selection the user made. */
  lemma SelectionRoundTrip(selection: string)
    requires IsSelection(selection)
    ensures ToSelection(NormalizeMonth(selection).value) == selection
  {
    var key := NormalizeMonth(selection).value;
    assert ToSelection(key) == selection[..2] + "-" + selection[3..];
  }

  /** A stored key shown as a selection and stored again is the same key. */
  lemma KeyRoundTrip(key: string)
    requires IsMonthKey(key)
    ensures NormalizeMonth(ToSelection(key)) == Some(key)
  {
    var selection := ToSelection(key);
    assert selection[3..] == key[..4] && selection[..2] == key[5..];
    assert key == key[..4] + "-" + key[5..];
  }

  /** The month values offered by the month box. */
  const MonthChoices: seq<string> :=
    ["01", "02", "03", "04", "05", "06", "07", "08", "09", "10", "11", "12"]

  /** The year values offered by the year box. */
  const YearChoices: seq<string> := ["2025", "2024"]

  lemma TwoDigitMonth(m: string)
    requires |m| == 2 && AllDigits(m) && 1 <= Value(m) <= 12
    ensures forall y :: |y| == 4 && AllDigits(y) ==> IsSelection(m + "-" + y)
  {
    forall y | |y| == 4 && AllDigits(y) ensures IsSelection(m + "-" + y) {
      var s := m + "-" + y;
      assert s[..2] == m && s[3..] == y;
    }
  }

  /** Every month and year the boxes offer forms a selection that can be stored. */
  lemma ChoicesAreSelections(m: string, y: string)
    requires m in MonthChoices && y in YearChoices
    ensures NormalizeMonth(m + "-" + y).Some?
  {
    assert |y| == 4 && AllDigits(y);
    assert |m| == 2 && AllDigits(m);
    assert Value(m) == DigitValue(m[0]) * 10 + DigitValue(m[1]) by {
      assert m[..1] == [m[0]];
      assert [m[0]][..0] == [];
    }
    TwoDigitMonth(m);
  }

  // ---------------------------------------------------------------------------
  // Saving a new expense (salvar_contas)

  datatype SaveError = MissingField | MalformedMonth | MalformedAmount

  /** The record the form's fields describe, or why it cannot be saved. */
  function NewRecord(month: string, year: string, category: string, valor: string): (r: Result<Record, SaveError>)
    ensures r == Failure(MissingField) <==> category == [] || valor == []
    ensures category != [] && valor != [] && !IsSelection(month + "-" + year) ==> r == Failure(MalformedMonth)
    ensures r.Success? <==>
      category != [] && valor != [] && IsSelection(month + "-" + year) && ParseCents(valor).Some?
    ensures r.Success? ==>
      r.value.category == category && IsMonthKey(r.value.month)
      && ToSelection(r.value.month) == month + "-" + year
      && ParseCents(valor) == Some(r.value.amount)
  {
    if category == [] || valor == [] then Failure(MissingField)
    else
      match NormalizeMonth(month + "-" + year)
      case None => Failure(MalformedMonth)
      case Some(key) =>
        SelectionRoundTrip(month + "-" + year);
        match ParseCents(valor)
        case None => Failure(MalformedAmount)
        case Some(cents) => Success(Record(key, category, cents))
  }

  /** The ledger after appending: the old rows (none if the file was missing), then the new one. */
  function Appended(file: Option<seq<Record>>, rec: Record): (ledger: seq<Record>)
    ensures |ledger| >= 1 && ledger[|ledger| - 1] == rec
    ensures ledger[..|ledger| - 1] == if file.None? then [] else file.value
  {
    match file
    case None => [rec]
    case Some(recs) =>
      assert (recs + [rec])[..|recs|] == recs;
      recs + [rec]
  }

  // ---------------------------------------------------------------------------
  // Share per member (calcular_preco_por_integrante)

  datatype ShareError = LedgerMissing | NoMembers | MalformedStoredMonth | NoRecordsForMonth

  /** The records whose stored month, shown as "MM-YYYY", is the selection. */
  function InSelection(recs: seq<Record>, selection: string): (r: seq<Record>)
    ensures forall x :: x in r <==> x in recs && IsMonthKey(x.month) && ToSelection(x.month) == selection
    ensures forall x :: (multiset(r)[x] == if IsMonthKey(x.month) && ToSelection(x.month) == selection
                                            then multiset(recs)[x] else 0)
  {
    Filter(recs, (r: Record) => IsMonthKey(r.month) && ToSelection(r.month) == selection)
  }

  /** The month's total divided by the number of roster entries, or the error reported instead. */
  function ComputeShare(ledger: Option<seq<Record>>, rosterFile: Option<seq<string>>, month: string, year: string): (r: Result<real, ShareError>)
    ensures r == Failure(LedgerMissing) <==> ledger.None?
    ensures ledger.Some? && LoadRoster(rosterFile) == [] ==> r == Failure(NoMembers)
    ensures ledger.Some? && LoadRoster(rosterFile) != [] && !AllMonthKeys(ledger.value) ==>
      r == Failure(MalformedStoredMonth)
    ensures (ledger.Some? && LoadRoster(rosterFile) != [] && AllMonthKeys(ledger.value)
             && InSelection(ledger.value, month + "-" + year) == []) ==> r == Failure(NoRecordsForMonth)
    ensures r.Success? <==>
      ledger.Some? && LoadRoster(rosterFile) != [] && AllMonthKeys(ledger.value)
      && InSelection(ledger.value, month + "-" + year) != []
    ensures r.Success? ==>
      ledger.Some? && r.value == PerMember(Sum(InSelection(ledger.value, month + "-" + year)), |LoadRoster(rosterFile)|)
  {
    match ledger
    case None => Failure(LedgerMissing)
    case Some(recs) =>
      var roster := LoadRoster(rosterFile);
      if roster == [] then Failure(NoMembers)
      else if !AllMonthKeys(recs) then Failure(MalformedStoredMonth)
      else
        var selected := InSelection(recs, month + "-" + year);
        if selected == [] then Failure(NoRecordsForMonth)
        else Success(PerMember(Sum(selected), |roster|))
  }

  /** For a valid selection the filter picks exactly the records stored under its month key. */
  lemma InSelectionIsMonth(recs: seq<Record>, selection: string)
    requires AllMonthKeys(recs) && IsSelection(selection)
    ensures InSelection(recs, selection) == InMonth(recs, NormalizeMonth(selection).value)
  {
    var key := NormalizeMonth(selection).value;
    forall i | 0 <= i < |recs|
      ensures (IsMonthKey(recs[i].month) && ToSelection(recs[i].month) == selection) == (recs[i].month == key)
    {
      KeyRoundTrip(recs[i].month);
      SelectionRoundTrip(selection);
    }
    FilterCongruent(recs, (r: Record) => IsMonthKey(r.month) && ToSelection(r.month) == selection,
                    (r: Record) => r.month == key);
  }

  /** A selection that is not "MM-YYYY" matches no stored record. */
  lemma InSelectionInvalid(recs: seq<Record>, selection: string)
    requires !IsSelection(selection)
    ensures InSelection(recs, selection) == []
  {
    FilterNone(recs, (r: Record) => IsMonthKey(r.month) && ToSelection(r.month) == selection);
  }

  /** With the roster file missing the sentinel counts as one member: the share is the month's total. */
  lemma MissingRosterDividesByOne(ledger: Option<seq<Record>>, month: string, year: string)
    requires ComputeShare(ledger, None, month, year).Success?
    ensures ComputeShare(ledger, None, month, year).value == Sum(InSelection(ledger.value, month + "-" + year)) as real
  {
    var total := Sum(InSelection(ledger.value, month + "-" + year));
    assert |LoadRoster(None)| == 1;
    PerMemberOne(total);
  }

  /** Appending a record of the selected month adds it, last, to that month's records. */
  lemma InSelectionAppend(recs: seq<Record>, rec: Record, selection: string)
    requires IsMonthKey(rec.month) && ToSelection(rec.month) == selection
    ensures InSelection(recs + [rec], selection) == InSelection(recs, selection) + [rec]
  {
    var p := (r: Record) => IsMonthKey(r.month) && ToSelection(r.month) == selection;
    FilterAppend(recs, [rec], p);
    assert Filter([rec], p) == [rec] by {
      assert [rec][1..] == [];
    }
  }

  /** A record just saved is counted in the share of the month it was saved under. */
  lemma SavedRecordCounted(recs: seq<Record>, rosterFile: Option<seq<string>>,
                           month: string, year: string, category: string, valor: string)
    requires AllMonthKeys(recs) && LoadRoster(rosterFile) != []
    requires NewRecord(month, year, category, valor).Success?
    ensures var rec := NewRecord(month, year, category, valor).value;
      ComputeShare(Some(Appended(Some(recs), rec)), rosterFile, month, year).Success?
      && Sum(InSelection(Appended(Some(recs), rec), month + "-" + year))
         == Sum(InSelection(recs, month + "-" + year)) + rec.amount
  {
    var rec := NewRecord(month, year, category, valor).value;
    var selection := month + "-" + year;
    var after := recs + [rec];
    assert after == Appended(Some(recs), rec);
    InSelectionAppend(recs, rec, selection);
    SumAppend(InSelection(recs, selection), [rec]);
    assert Sum([rec]) == rec.amount;
    assert InSelection(after, selection) != [];
    KeysAppend(recs, rec);
  }

  lemma KeysAppend(recs: seq<Record>, rec: Record)
    requires AllMonthKeys(recs) && IsMonthKey(rec.month)
    ensures AllMonthKeys(recs + [rec])
  {
    var after := recs + [rec];
    forall i | 0 <= i < |after| ensures IsMonthKey(after[i].month) {
      if i < |recs| { assert after[i] == recs[i]; }
    }
  }

  // ---------------------------------------------------------------------------
  // Table rows and deleting a row (excluir_linha)

  /** A table row: month key, category, and the amount as pt_BR currency text. */
  datatype Row = Row(month: string, category: string, shown: string)

  function RowOf(rec: Record): Row {
    Row(rec.month, rec.category, FormatBRL(rec.amount))
  }

  /** One row per record, in the order given. */
  function Rows(recs: seq<Record>): (rows: seq<Row>)
    ensures |rows| == |recs|
    ensures forall i :: 0 <= i < |recs| ==> rows[i].month == recs[i].month && rows[i].category == recs[i].category
  {
    seq(|recs|, i requires 0 <= i < |recs| => RowOf(recs[i]))
  }

  /** The record a selected row denotes: its amount text turned back into cents. */
  function DeleteKey(row: Row): (key: Option<Record>)
    ensures key.Some? <==>
      NoSeparatorControl(CurrencyToDecimal(row.shown)) && IsDecimal(Trim(CurrencyToDecimal(row.shown)))
    ensures key.Some? ==> key.value.month == row.month && key.value.category == row.category
    ensures key.Some? ==> Some(key.value.amount) == ParseCents(CurrencyToDecimal(row.shown))
  {
    match ParseCents(CurrencyToDecimal(row.shown))
    case None => None
    case Some(cents) => Some(Record(row.month, row.category, cents))
  }

  /** The ledger without every record equal to `key` in Data, Conta and Valor. */
  function RemoveMatching(recs: seq<Record>, key: Record): (kept: seq<Record>)
    ensures key !in kept
    ensures forall x :: x != key ==> multiset(kept)[x] == multiset(recs)[x]
  {
    Filter(recs, (r: Record) => r != key)
  }

  /** The row shown for a record denotes that very record. */
  lemma DisplayedRowKey(rec: Record)
    ensures DeleteKey(RowOf(rec)) == Some(rec)
  {
    ParseDisplayed(rec.amount);
  }

  /** Deleting concatenated ledgers deletes from each: the kept records stay in their order. */
  lemma RemoveMatchingAppend(a: seq<Record>, b: seq<Record>, key: Record)
    ensures RemoveMatching(a + b, key) == RemoveMatching(a, key) + RemoveMatching(b, key)
  {
    FilterAppend(a, b, (r: Record) => r != key);
  }

  /** A key that matches no record leaves the ledger unchanged. */
  lemma RemoveMatchingAbsent(recs: seq<Record>, key: Record)
    requires key !in recs
    ensures RemoveMatching(recs, key) == recs
  {
    FilterAll(recs, (r: Record) => r != key);
  }

  /** Every matching record goes: the ledger shrinks by the number of copies of the key. */
  lemma {:induction false} RemoveMatchingCount(recs: seq<Record>, key: Record)
    ensures |RemoveMatching(recs, key)| + multiset(recs)[key] == |recs|
  {
    if recs != [] {
      RemoveMatchingCount(recs[1..], key);
      assert recs == [recs[0]] + recs[1..];
      RemoveMatchingAppend([recs[0]], recs[1..], key);
      assert RemoveMatching([recs[0]], key) == if recs[0] == key then [] else [recs[0]] by {
        assert [recs[0]][1..] == [];
      }
    }
  }

  /** Deleting the row shown for a ledger record removes that record from the ledger. */
  lemma DeleteShownRecord(recs: seq<Record>, i: nat)
    requires i < |recs|
    ensures DeleteKey(Rows(recs)[i]) == Some(recs[i])
    ensures recs[i] !in RemoveMatching(recs, recs[i])
    ensures |RemoveMatching(recs, recs[i])| < |recs|
  {
    DisplayedRowKey(recs[i]);
    RemoveMatchingCount(recs, recs[i]);
  }

  // ---------------------------------------------------------------------------
  // Sorting by a column (atualizar_tabela)

  /** The table's columns, as the keys of `ordem_colunas` name them. */
  datatype Column = Data | Conta | Valor

  /** `a` comes no later than `b` when sorting ascending by `col`. */
  predicate KeyLe(col: Column, a: Record, b: Record) {
    match col
    case Data => StrLe(a.month, b.month)
    case Conta => StrLe(a.category, b.category)
    case Valor => a.amount <= b.amount
  }

  predicate InOrder(col: Column, ascending: bool, a: Record, b: Record) {
    if ascending then KeyLe(col, a, b) else KeyLe(col, b, a)
  }

  lemma InOrderTotal(col: Column, ascending: bool, a: Record, b: Record)
    ensures InOrder(col, ascending, a, b) || InOrder(col, ascending, b, a)
  {
    match col
    case Data => StrLeTotal(a.month, b.month);
    case Conta => StrLeTotal(a.category, b.category);
    case Valor =>
  }

  lemma InOrderTransitive(col: Column, ascending: bool, a: Record, b: Record, c: Record)
    requires InOrder(col, ascending, a, b) && InOrder(col, ascending, b, c)
    ensures InOrder(col, ascending, a, c)
  {
    match col
    case Data =>
      if ascending { StrLeTransitive(a.month, b.month, c.month); }
      else { StrLeTransitive(c.month, b.month, a.month); }
    case Conta =>
      if ascending { StrLeTransitive(a.category, b.category, c.category); }
      else { StrLeTransitive(c.category, b.category, a.category); }
    case Valor =>
  }

  /** Each record is in order with the next one. */
  predicate Ordered(s: seq<Record>, col: Column, ascending: bool) {
    forall i :: 0 <= i < |s| - 1 ==> InOrder(col, ascending, s[i], s[i + 1])
  }

  /** `x` placed before the first record it is in order with. */
  function Insert(x: Record, s: seq<Record>, col: Column, ascending: bool): (r: seq<Record>)
    ensures |r| == |s| + 1
    ensures multiset(r) == multiset(s) + multiset{x}
    ensures r[0] == x || (s != [] && r[0] == s[0])
  {
    if s == [] then [x]
    else if InOrder(col, ascending, x, s[0]) then [x] + s
    else
      var rest := Insert(x, s[1..], col, ascending);
      assert s == [s[0]] + s[1..];
      [s[0]] + rest
  }

  /** Inserting into an ordered ledger keeps it ordered. */
  lemma {:induction false} InsertOrdered(x: Record, s: seq<Record>, col: Column, ascending: bool)
    requires Ordered(s, col, ascending)
    ensures Ordered(Insert(x, s, col, ascending), col, ascending)
  {
    if s != [] && !InOrder(col, ascending, x, s[0]) {
      InOrderTotal(col, ascending, x, s[0]);
      var rest := Insert(x, s[1..], col, ascending);
      assert Ordered(s[1..], col, ascending) by {
        assert forall i :: 0 <= i < |s[1..]| ==> s[1..][i] == s[i + 1];
      }
      InsertOrdered(x, s[1..], col, ascending);
      assert InOrder(col, ascending, s[0], rest[0]) by {
        if |s| > 1 { assert InOrder(col, ascending, s[0], s[1]); }
      }
      var r := [s[0]] + rest;
      assert r == Insert(x, s, col, ascending);
      forall i | 0 <= i < |r| - 1 ensures InOrder(col, ascending, r[i], r[i + 1]) {
        if i > 0 { assert r[i] == rest[i - 1] && r[i + 1] == rest[i]; }
      }
    }
  }

  /** `df.sort_values(by=col, ascending=ascending)`. */
  function SortBy(recs: seq<Record>, col: Column, ascending: bool): (sorted: seq<Record>)
    ensures multiset(sorted) == multiset(recs)
    ensures Ordered(sorted, col, ascending)
  {
    if recs == [] then []
    else
      assert recs == [recs[0]] + recs[1..];
      var rest := SortBy(recs[1..], col, ascending);
      InsertOrdered(recs[0], rest, col, ascending);
      Insert(recs[0], rest, col, ascending)
  }

  /** In an ordered ledger every earlier record is in order with every later one. */
  lemma {:induction false} OrderedPairs(s: seq<Record>, col: Column, ascending: bool, i: nat, j: nat)
    requires Ordered(s, col, ascending) && i < j < |s|
    ensures InOrder(col, ascending, s[i], s[j])
    decreases j - i
  {
    if i + 1 < j {
      OrderedPairs(s, col, ascending, i + 1, j);
      InOrderTransitive(col, ascending, s[i], s[i + 1], s[j]);
    }
  }

  /** The first click on a column: its flag goes from true to false, so the column sorts descending. */
  lemma FirstClickDescending(recs: seq<Record>, col: Column, i: nat, j: nat)
    requires i < j < |recs|
    ensures var sorted := SortBy(recs, col, !true);
      KeyLe(col, sorted[j], sorted[i])
  {
    OrderedPairs(SortBy(recs, col, false), col, false, i, j);
  }

  // ---------------------------------------------------------------------------
  // The form's state

  class ContasApp {
    /** contas.csv: None while the file does not exist. */
    var ledger: Option<seq<Record>>
    /** `ordem_colunas`: flipped on each heading click; the sort is ascending iff the flipped flag is true. */
    var order: map<Column, bool>
    /** The rows of the table widget, top to bottom. */
    var table: seq<Row>

    ghost predicate Valid()
      reads this
    {
      order.Keys == {Data, Conta, Valor}
    }

    /**
     * The form as built: every column flag true, an empty table. The refresh the program
     * runs right after building it is the caller's first `Refresh(None)`.
     */
    constructor (file: Option<seq<Record>>)
      ensures Valid() && ledger == file && table == []
      ensures order == map[Data := true, Conta := true, Valor := true]
    {
      ledger := file;
      order := map[Data := true, Conta := true, Valor := true];
      table := [];
    }

    /**
     * `atualizar_tabela(column)`: with the file present, flip the column's flag and sort by it
     * (when a column was clicked), remove every row, then add one row per record.
     */
    method Refresh(column: Option<Column>)
      requires Valid()
      modifies this
      ensures Valid() && ledger == old(ledger)
      ensures old(ledger).None? ==> order == old(order) && table == old(table)
      ensures old(ledger).Some? && column.None? ==> order == old(order) && table == Rows(ledger.value)
      ensures old(ledger).Some? && column.Some? ==>
        column.value in old(order) && order == old(order)[column.value := !old(order)[column.value]]
        && table == Rows(SortBy(ledger.value, column.value, order[column.value]))
    {
      if ledger.None? {
        return;
      }
      var recs := ledger.value;
      if column.Some? {
        var c := column.value;
        assert c in order by {
          assert c == Data || c == Conta || c == Valor;
        }
        order := order[c := !order[c]];
        recs := SortBy(recs, c, order[c]);
      }
      ClearTable();
      ShowRows(recs);
    }

    /** `for i in tabela.get_children(): tabela.delete(i)`. */
    method ClearTable()
      modifies this`table
      ensures table == []
    {
      var children := table;
      var i := 0;
      while i < |children|
        invariant 0 <= i <= |children|
        invariant table == children[i..]
      {
        table := table[1..];
        i := i + 1;
      }
    }

    /** `for _, row in df.iterrows(): tabela.insert("", "end", ...)`: one row per record, in order. */
    method ShowRows(recs: seq<Record>)
      requires table == []
      modifies this`table
      ensures table == Rows(recs)
    {
      var k := 0;
      while k < |recs|
        invariant 0 <= k <= |recs|
        invariant |table| == k && forall j :: 0 <= j < k ==> table[j] == RowOf(recs[j])
      {
        table := table + [RowOf(recs[k])];
        k := k + 1;
      }
      assert table == Rows(recs);
    }

    /**
     * `salvar_contas`: with both fields filled and month and amount well formed, append one
     * record and refresh the table; otherwise report the error and change nothing.
     */
    method Save(month: string, year: string, category: string, valor: string) returns (err: Option<SaveError>)
      requires Valid()
      modifies this
      ensures Valid()
      ensures NewRecord(month, year, category, valor).Failure? ==>
        err == Some(NewRecord(month, year, category, valor).error)
        && ledger == old(ledger) && order == old(order) && table == old(table)
      ensures NewRecord(month, year, category, valor).Success? ==>
        err.None? && ledger == Some(Appended(old(ledger), NewRecord(month, year, category, valor).value))
        && order == old(order) && table == Rows(ledger.value)
    {
      var made := NewRecord(month, year, category, valor);
      if made.Failure? {
        return Some(made.error);
      }
      ledger := Some(Appended(ledger, made.value));
      Refresh(None);
      err := None;
    }

    /**
     * `excluir_linha`: with a row selected and the deletion confirmed, remove the row from the
     * table, then remove from the ledger every record equal to the key the row shows.
     */
    method Delete(selection: Option<nat>, confirmed: bool) returns (err: Option<DeleteError>)
      requires Valid()
      requires selection.Some? ==> selection.value < |table|
      modifies this
      ensures Valid() && order == old(order)
      ensures selection.None? ==>
        err == Some(NothingSelected) && ledger == old(ledger) && table == old(table)
      ensures selection.Some? && !confirmed ==>
        err.None? && ledger == old(ledger) && table == old(table)
      ensures selection.Some? && confirmed ==>
        table == old(table)[..selection.value] + old(table)[selection.value + 1..]
      ensures selection.Some? && confirmed && old(ledger).None? ==>
        err == Some(LedgerUnreadable) && ledger == old(ledger)
      ensures selection.Some? && confirmed && old(ledger).Some? && DeleteKey(old(table)[selection.value]).None? ==>
        err == Some(MalformedShownAmount) && ledger == old(ledger)
      ensures selection.Some? && confirmed && old(ledger).Some? && DeleteKey(old(table)[selection.value]).Some? ==>
        err.None? && ledger == Some(RemoveMatching(old(ledger).value, DeleteKey(old(table)[selection.value]).value))
    {
      if selection.None? {
        return Some(NothingSelected);
      }
      if !confirmed {
        return None;
      }
      var i := selection.value;
      var row := table[i];
      table := table[..i] + table[i + 1..];
      if ledger.None? {
        return Some(LedgerUnreadable);
      }
      var key := DeleteKey(row);
      if key.None? {
        return Some(MalformedShownAmount);
      }
      ledger := Some(RemoveMatching(ledger.value, key.value));
      err := None;
    }
  }

  datatype DeleteError = NothingSelected | LedgerUnreadable | MalformedShownAmount
}
