/**
 * The read-only dashboard: it loads the ledger and the roster, picks a month, shows the
 * month's share and table, summary indicators over the whole ledger, and the totals per
 * month and per category that its charts draw.
 */
module Dashboard {
  import opened Wrappers
  import opened Text
  import opened Money
  import opened Records

  // ---------------------------------------------------------------------------
  // Loading the files
  // ---------------------------------------------------------------------------

  /** One row of the ledger file as text: the columns Data, Conta and Valor. */
  datatype StoredRow = StoredRow(month: string, category: string, valor: string)

  /** Why the ledger file could not be turned into records (an uncaught pandas error). */
  datatype LoadError = MalformedStoredMonth | MalformedStoredAmount

  /** The amount text as the dashboard reads it: ',' made '.', then parsed as a decimal. */
  function StoredAmount(valor: string): (r: Option<nat>)
    ensures r.Some? <==> NoSeparatorControl(valor) && IsDecimal(Trim(CommaToDot(valor)))
    ensures ',' !in valor ==> r == ParseCents(valor)
  {
    CommaToDotPlain(valor);
    assert NoSeparatorControl(CommaToDot(valor)) <==> NoSeparatorControl(valor);
    ParseCents(CommaToDot(valor))
  }

  /** The stored row as a record, once its amount is known to parse. */
  function RowRecord(row: StoredRow): (r: Record)
    requires StoredAmount(row.valor).Some?
    ensures r.month == row.month && r.category == row.category
    ensures StoredAmount(row.valor) == Some(r.amount)
  {
    Record(row.month, row.category, StoredAmount(row.valor).value)
  }

  /** The Valor column converted as a whole: it fails if any row's amount does not parse. */
  function ParseAmounts(rows: seq<StoredRow>): (r: Result<seq<Record>, LoadError>)
    ensures r.Success? <==> forall i :: 0 <= i < |rows| ==> StoredAmount(rows[i].valor).Some?
    ensures r.Failure? ==> r.error == MalformedStoredAmount
    ensures r.Success? ==>
      (|r.value| == |rows| && forall i :: 0 <= i < |rows| ==> r.value[i] == RowRecord(rows[i]))
  {
    if forall i :: 0 <= i < |rows| ==> StoredAmount(rows[i].valor).Some? then
      Success(seq(|rows|, i requires 0 <= i < |rows| => RowRecord(rows[i])))
    else Failure(MalformedStoredAmount)
  }

  /**
   * The ledger as the dashboard loads it. A missing file is an empty ledger. Every month
   * key must read as a date before any amount is converted, so a bad month is reported
   * ahead of a bad amount.
   */
  function LoadLedger(file: Option<seq<StoredRow>>): (r: Result<seq<Record>, LoadError>)
    ensures file.None? ==> r == Success([])
    ensures file.Some? ==>
      (r == Failure(MalformedStoredMonth) <==> exists i :: 0 <= i < |file.value| && !IsMonthKey(file.value[i].month))
    ensures file.Some? ==>
      (r.Success? <==>
        (forall i :: 0 <= i < |file.value| ==> IsMonthKey(file.value[i].month))
        && forall i :: 0 <= i < |file.value| ==> StoredAmount(file.value[i].valor).Some?)
    ensures r.Success? ==> AllMonthKeys(r.value)
    ensures r.Success? && file.Some? ==>
      (|r.value| == |file.value|
       && forall i :: 0 <= i < |file.value| ==>
            r.value[i].month == file.value[i].month && r.value[i].category == file.value[i].category
            && StoredAmount(file.value[i].valor) == Some(r.value[i].amount))
  {
    match file
    case None => Success([])
    case Some(rows) =>
      if exists i :: 0 <= i < |rows| && !IsMonthKey(rows[i].month) then Failure(MalformedStoredMonth)
      else ParseAmounts(rows)
  }

  /** The roster as the dashboard loads it: the Integrantes column, or no one if the file is missing. */
  function LoadRoster(file: Option<seq<string>>): (r: seq<string>)
    ensures file.None? ==> r == []
    ensures file.Some? ==> r == file.value
  {
    if file.Some? then file.value else []
  }

  // ---------------------------------------------------------------------------
  // The month selection
  // ---------------------------------------------------------------------------

  /** The Data column of the ledger. */
  function Months(recs: seq<Record>): (ms: seq<string>)
    ensures |ms| == |recs| && forall i :: 0 <= i < |recs| ==> ms[i] == recs[i].month
  {
    seq(|recs|, i requires 0 <= i < |recs| => recs[i].month)
  }

  /** Where `x` first appears in `s`. */
  function FirstIndex(s: seq<string>, x: string): (i: nat)
    requires x in s
    ensures i < |s| && s[i] == x && x !in s[..i]
  {
    if s[0] == x then 0
    else
      var j := FirstIndex(s[1..], x);
      assert s[..j + 1] == [s[0]] + s[1..][..j];
      j + 1
  }

  /** The first appearance of `x` is the only index with `x` there and not before it. */
  lemma FirstIndexUnique(s: seq<string>, x: string, i: nat)
    requires i < |s| && s[i] == x && x !in s[..i]
    ensures FirstIndex(s, x) == i
  {
  }

  /** An element of a prefix first appears in the whole sequence where it first appears in the prefix. */
  lemma FirstIndexPrefix(s: seq<string>, n: nat, x: string)
    requires n <= |s| && x in s[..n]
    ensures FirstIndex(s, x) == FirstIndex(s[..n], x)
  {
    var i := FirstIndex(s[..n], x);
    assert s[..n][..i] == s[..i];
    FirstIndexUnique(s, x, i);
  }

  predicate NoDuplicates(s: seq<string>) {
    forall i, j :: 0 <= i < j < |s| ==> s[i] != s[j]
  }

  /**
   * `unique()`: each value once, in the order of first appearance. The result holds
   * exactly the values of `s`, none twice, and a value listed later first appears later.
   */
  function Distinct(s: seq<string>): (d: seq<string>)
    ensures forall x :: x in d <==> x in s
    ensures NoDuplicates(d)
    ensures forall i, j :: 0 <= i < j < |d| ==> FirstIndex(s, d[i]) < FirstIndex(s, d[j])
  {
    if s == [] then []
    else
      var n := |s| - 1;
      var d := Distinct(s[..n]);
      assert s == s[..n] + [s[n]];
      forall x | x in d ensures FirstIndex(s, x) == FirstIndex(s[..n], x) {
        FirstIndexPrefix(s, n, x);
      }
      if s[n] in d then d
      else
        assert FirstIndex(s, s[n]) == n by {
          FirstIndexUnique(s, s[n], n);
        }
        d + [s[n]]
  }

  /**
   * The month the selection box starts on (`index=len(meses)-1`): none for an empty ledger,
   * otherwise a month of the ledger that first appears no earlier than any other month.
   */
  function DefaultMonth(recs: seq<Record>): (m: Option<string>)
    ensures m.Some? <==> recs != []
    ensures m.Some? ==>
      (m.value in Months(recs)
       && forall i :: 0 <= i < |recs| ==> FirstIndex(Months(recs), recs[i].month) <= FirstIndex(Months(recs), m.value))
  {
    if recs == [] then None
    else
      var ms := Months(recs);
      var d := Distinct(ms);
      assert ms[0] in d;
      var last := d[|d| - 1];
      forall i | 0 <= i < |recs| ensures FirstIndex(ms, recs[i].month) <= FirstIndex(ms, last) {
        assert ms[i] == recs[i].month && ms[i] in ms;
        var k :| 0 <= k < |d| && d[k] == ms[i];
      }
      Some(last)
  }

  // ---------------------------------------------------------------------------
  // The share of the selected month
  // ---------------------------------------------------------------------------

  /** What the share panel shows: a prompt to pick a month, a not-enough-data notice, or the share. */
  datatype SharePanel = NoSelection | NotEnoughData | Share(value: real)

  /** Python truthiness of the selected month. */
  predicate Selected(sel: Option<string>) {
    sel.Some? && sel.value != ""
  }

  /**
   * The share panel: with a month selected and a non-empty ledger, the month's records are
   * summed and split over the roster, provided the month has records and the roster has names.
   */
  function MemberShare(recs: seq<Record>, roster: seq<string>, sel: Option<string>): (p: SharePanel)
    ensures p == NoSelection <==> !Selected(sel) || recs == []
    ensures p.Share? <==> Selected(sel) && recs != [] && InMonth(recs, sel.value) != [] && roster != []
    ensures p.Share? ==> p.value == PerMember(Sum(InMonth(recs, sel.value)), |roster|)
  {
    if !Selected(sel) || recs == [] then NoSelection
    else
      var month := InMonth(recs, sel.value);
      if month != [] && roster != [] then
        Share(PerMember(Sum(month), |roster|))
      else NotEnoughData
  }

  /** A loaded ledger with a roster always has a share for the month the page starts on. */
  lemma DefaultMonthHasShare(recs: seq<Record>, roster: seq<string>)
    requires AllMonthKeys(recs) && recs != [] && roster != []
    ensures MemberShare(recs, roster, DefaultMonth(recs)).Share?
  {
    var m := DefaultMonth(recs).value;
    var i :| 0 <= i < |recs| && Months(recs)[i] == m;
    MonthHasRecords(recs, i);
    assert IsMonthKey(recs[i].month);
  }

  lemma MonthHasRecords(recs: seq<Record>, i: nat)
    requires i < |recs|
    ensures InMonth(recs, recs[i].month) != []
  {
    assert recs[i] in recs;
  }

  /** One line of the month's table: the record with its amount shown in reais. */
  datatype TableRow = TableRow(month: string, category: string, shown: string)

  /** The month's table: its records in ledger order, amounts formatted for display. */
  function MonthTable(recs: seq<Record>, month: string): (t: seq<TableRow>)
    ensures |t| == |InMonth(recs, month)|
    ensures forall i :: 0 <= i < |t| ==> t[i].month == month && t[i].category == InMonth(recs, month)[i].category
    ensures forall i :: 0 <= i < |t| ==> ParseCents(CurrencyToDecimal(t[i].shown)) == Some(InMonth(recs, month)[i].amount)
  {
    var rows := InMonth(recs, month);
    forall i | 0 <= i < |rows| ensures rows[i].month == month && ParseCents(CurrencyToDecimal(FormatBRL(rows[i].amount))) == Some(rows[i].amount) {
      assert rows[i] in rows;
      ParseDisplayed(rows[i].amount);
    }
    seq(|rows|, i requires 0 <= i < |rows| => TableRow(rows[i].month, rows[i].category, FormatBRL(rows[i].amount)))
  }

  // ---------------------------------------------------------------------------
  // Summary indicators
  // ---------------------------------------------------------------------------

  function MaxAmount(recs: seq<Record>): (m: nat)
    requires recs != []
    ensures exists i :: 0 <= i < |recs| && recs[i].amount == m
    ensures forall i :: 0 <= i < |recs| ==> recs[i].amount <= m
  {
    if |recs| == 1 then recs[0].amount
    else
      var rest := MaxAmount(recs[1..]);
      assert forall i :: 1 <= i < |recs| ==> recs[i] == recs[1..][i - 1];
      if recs[0].amount >= rest then recs[0].amount else rest
  }

  function MinAmount(recs: seq<Record>): (m: nat)
    requires recs != []
    ensures exists i :: 0 <= i < |recs| && recs[i].amount == m
    ensures forall i :: 0 <= i < |recs| ==> m <= recs[i].amount
  {
    if |recs| == 1 then recs[0].amount
    else
      var rest := MinAmount(recs[1..]);
      assert forall i :: 1 <= i < |recs| ==> recs[i] == recs[1..][i - 1];
      if recs[0].amount <= rest then recs[0].amount else rest
  }

  /** The total lies between the count times any lower bound and the count times any upper bound. */
  lemma {:induction false} SumBounds(recs: seq<Record>, lo: nat, hi: nat)
    requires forall i :: 0 <= i < |recs| ==> lo <= recs[i].amount <= hi
    ensures |recs| * lo <= Sum(recs) <= |recs| * hi
  {
    if recs != [] {
      assert forall i :: 1 <= i < |recs| ==> recs[i] == recs[1..][i - 1];
      SumBounds(recs[1..], lo, hi);
      assert |recs| * lo == (|recs| - 1) * lo + lo;
      assert |recs| * hi == (|recs| - 1) * hi + hi;
    }
  }

  /** The four indicators: total, mean, largest and smallest amount. */
  datatype Stats = Stats(total: nat, mean: real, largest: nat, smallest: nat)

  /** The indicators, shown only for a non-empty ledger. */
  function Summary(recs: seq<Record>): (s: Option<Stats>)
    ensures s.Some? <==> recs != []
    ensures s.Some? ==> s.value.total == Sum(recs) && s.value.mean == PerMember(Sum(recs), |recs|)
    ensures s.Some? ==>
      ((exists i :: 0 <= i < |recs| && recs[i].amount == s.value.largest)
       && (exists i :: 0 <= i < |recs| && recs[i].amount == s.value.smallest)
       && forall i :: 0 <= i < |recs| ==> s.value.smallest <= recs[i].amount <= s.value.largest)
  {
    if recs == [] then None
    else
      Some(Stats(Sum(recs), PerMember(Sum(recs), |recs|), MaxAmount(recs), MinAmount(recs)))
  }

  /** The mean lies between the smallest and the largest amount. */
  lemma MeanBetween(recs: seq<Record>)
    requires recs != []
    ensures var s := Summary(recs).value; s.smallest as real <= s.mean <= s.largest as real
  {
    var s := Summary(recs).value;
    SumBounds(recs, s.smallest, s.largest);
    PerMemberBetween(s.smallest, Sum(recs), s.largest, |recs|);
  }

  // ---------------------------------------------------------------------------
  // Totals per month and per category (the charts' data)
  // ---------------------------------------------------------------------------

  /** The column a `groupby` collects on. */
  datatype Grouping = ByMonth | ByCategory

  function KeyOf(r: Record, col: Grouping): string {
    match col
    case ByMonth => r.month
    case ByCategory => r.category
  }

  /** One group: its key and the sum of its amounts. */
  type Group = (string, nat)

  /** Keys strictly ascending, neighbour by neighbour. */
  predicate Sorted(g: seq<Group>) {
    forall i :: 0 <= i < |g| - 1 ==> StrLt(g[i].0, g[i + 1].0)
  }

  function Keys(g: seq<Group>): set<string> {
    if g == [] then {} else {g[0].0} + Keys(g[1..])
  }

  /** Sum of all group sums. */
  function Total(g: seq<Group>): nat {
    if g == [] then 0 else g[0].1 + Total(g[1..])
  }

  /** The sum recorded under key `k`. */
  function TotalOf(g: seq<Group>, k: string): nat {
    if g == [] then 0 else (if g[0].0 == k then g[0].1 else 0) + TotalOf(g[1..], k)
  }

  /** The keys of the ledger's records in the grouped column. */
  function LedgerKeys(recs: seq<Record>, col: Grouping): (ks: set<string>)
    ensures forall k :: k in ks <==> exists i :: 0 <= i < |recs| && KeyOf(recs[i], col) == k
  {
    if recs == [] then {}
    else
      var rest := LedgerKeys(recs[1..], col);
      assert forall i :: 1 <= i < |recs| ==> recs[i] == recs[1..][i - 1];
      assert forall i :: 0 <= i < |recs[1..]| ==> recs[1..][i] == recs[i + 1];
      {KeyOf(recs[0], col)} + rest
  }

  /** Adds `a` to the group of `k`, opening a group at its place in key order if there is none. */
  function AddTo(g: seq<Group>, k: string, a: nat): (r: seq<Group>)
    requires Sorted(g)
    ensures Sorted(r)
    ensures r != [] && (r[0].0 == k || (g != [] && r[0].0 == g[0].0))
    ensures Keys(r) == Keys(g) + {k}
    ensures Total(r) == Total(g) + a
    ensures forall x :: TotalOf(r, x) == TotalOf(g, x) + (if x == k then a else 0)
  {
    if g == [] then [(k, a)]
    else if g[0].0 == k then
      var r := [(k, g[0].1 + a)] + g[1..];
      assert r[1..] == g[1..];
      r
    else if StrLt(k, g[0].0) then
      var r := [(k, a)] + g;
      assert r[1..] == g;
      r
    else
      StrLtTotal(k, g[0].0);
      var rest := AddTo(g[1..], k, a);
      var r := [g[0]] + rest;
      assert r[1..] == rest;
      r
  }

  /** `df.groupby(column)['Valor'].sum()`: one group per key, keys ascending. */
  function GroupSums(recs: seq<Record>, col: Grouping): (g: seq<Group>)
    ensures Sorted(g)
    ensures Keys(g) == LedgerKeys(recs, col)
    ensures Total(g) == Sum(recs)
  {
    if recs == [] then []
    else AddTo(GroupSums(recs[1..], col), KeyOf(recs[0], col), recs[0].amount)
  }

  /** Sorted neighbour by neighbour means sorted pair by pair, so no key is listed twice. */
  lemma {:induction false} SortedPairs(g: seq<Group>)
    requires Sorted(g)
    ensures forall i, j :: 0 <= i < j < |g| ==> StrLt(g[i].0, g[j].0) && g[i].0 != g[j].0
  {
    if g != [] {
      SortedPairs(g[1..]);
      forall j | 0 < j < |g| ensures StrLt(g[0].0, g[j].0) && g[0].0 != g[j].0 {
        if j > 1 {
          assert g[1..][0] == g[1] && g[1..][j - 1] == g[j];
          StrLtTransitive(g[0].0, g[1].0, g[j].0);
        }
        StrLtIrreflexive(g[0].0);
      }
      forall i, j | 0 < i < j < |g| ensures StrLt(g[i].0, g[j].0) && g[i].0 != g[j].0 {
        assert g[1..][i - 1] == g[i] && g[1..][j - 1] == g[j];
      }
    }
  }

  /** The records whose grouped column is `k`. */
  function GroupOf(recs: seq<Record>, col: Grouping, k: string): seq<Record> {
    Filter(recs, (r: Record) => KeyOf(r, col) == k)
  }

  /** Each group's sum is the total of exactly the records with that key. */
  lemma {:induction false} GroupTotals(recs: seq<Record>, col: Grouping, k: string)
    ensures TotalOf(GroupSums(recs, col), k) == Sum(GroupOf(recs, col, k))
  {
    if recs != [] {
      GroupTotals(recs[1..], col, k);
      var p := (r: Record) => KeyOf(r, col) == k;
      var rest := Filter(recs[1..], p);
      if p(recs[0]) {
        assert ([recs[0]] + rest)[1..] == rest;
      }
    }
  }

  /** The trend chart's point for a month is that month's total, the total the share splits. */
  lemma TrendPointIsMonthTotal(recs: seq<Record>, month: string)
    ensures TotalOf(GroupSums(recs, ByMonth), month) == Sum(InMonth(recs, month))
  {
    GroupTotals(recs, ByMonth, month);
    FilterCongruent(recs, (r: Record) => KeyOf(r, ByMonth) == month, (r: Record) => r.month == month);
  }
}
