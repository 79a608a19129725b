/**
 * How the three programs meet through their two files: the roster file the member editor
 * writes and both other programs read, and the ledger file the expense manager writes and
 * the dashboard reads.
 */
module Composition {
  import opened Wrappers
  import opened Money
  import opened Records
  import Integrantes
  import Contas
  import Dashboard

  /** The roster the member editor writes is read back by both programs as the parsed names. */
  lemma RosterReadBack(prior: Option<seq<string>>, text: string)
    ensures Contas.LoadRoster(Integrantes.SaveRoster(prior, text)) == Integrantes.ParseRoster(text)
    ensures Dashboard.LoadRoster(Integrantes.SaveRoster(prior, text)) == Integrantes.ParseRoster(text)
  {
  }

  /** The ledger file as the expense manager writes it (`to_csv`): amounts as decimal text. */
  function Stored(recs: seq<Record>): (rows: seq<Dashboard.StoredRow>)
    ensures |rows| == |recs|
    ensures forall i :: 0 <= i < |recs| ==>
      rows[i].month == recs[i].month && rows[i].category == recs[i].category
      && ',' !in rows[i].valor
  {
    seq(|recs|, i requires 0 <= i < |recs| =>
      Dashboard.StoredRow(recs[i].month, recs[i].category, FormatDecimal(recs[i].amount)))
  }

  /** The dashboard reads back the very records the expense manager wrote. */
  lemma LedgerReadBack(recs: seq<Record>)
    requires AllMonthKeys(recs)
    ensures Dashboard.LoadLedger(Some(Stored(recs))) == Success(recs)
  {
    var rows := Stored(recs);
    forall i | 0 <= i < |rows| ensures Dashboard.StoredAmount(rows[i].valor) == Some(recs[i].amount) {
      CommaToDotPlain(rows[i].valor);
      ParseFormatDecimal(recs[i].amount);
    }
    var r := Dashboard.LoadLedger(Some(rows));
    assert r.Success?;
    assert r.value == recs;
  }

  /**
   * With a roster file present, the share the expense manager computes for a month is the
   * share the dashboard shows for the same month.
   */
  lemma SharesAgree(recs: seq<Record>, names: seq<string>, month: string, year: string)
    requires Contas.ComputeShare(Some(recs), Some(names), month, year).Success?
    ensures var selection := month + "-" + year;
      Contas.NormalizeMonth(selection).Some?
      && Dashboard.MemberShare(recs, names, Contas.NormalizeMonth(selection))
         == Dashboard.Share(Contas.ComputeShare(Some(recs), Some(names), month, year).value)
  {
    var selection := month + "-" + year;
    if !Contas.IsSelection(selection) {
      Contas.InSelectionInvalid(recs, selection);
    }
    Contas.InSelectionIsMonth(recs, selection);
  }

  /**
   * Without a roster file the two programs part ways: the expense manager divides by its
   * one-entry placeholder list, the dashboard shows no share at all.
   */
  lemma SharesDisagreeWithoutRoster(recs: seq<Record>, month: string, year: string)
    requires Contas.ComputeShare(Some(recs), None, month, year).Success?
    ensures Dashboard.MemberShare(recs, Dashboard.LoadRoster(None), Contas.NormalizeMonth(month + "-" + year))
            == Dashboard.NotEnoughData
  {
    var selection := month + "-" + year;
    if !Contas.IsSelection(selection) {
      Contas.InSelectionInvalid(recs, selection);
    }
    Contas.InSelectionIsMonth(recs, selection);
  }
}
