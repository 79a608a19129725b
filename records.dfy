/** Expense records, the ledger they form, and the month keys they are filed under. */
module Records {
  import opened Money

  /** One ledger row: month key "YYYY-MM" (column Data), category (Conta), amount in cents (Valor). */
  datatype Record = Record(month: string, category: string, amount: nat)

  /** A canonical month key "YYYY-MM" with a month from 01 to 12. */
  predicate IsMonthKey(k: string) {
    |k| == 7 && k[4] == '-' && AllDigits(k[..4]) && AllDigits(k[5..]) && 1 <= Value(k[5..]) <= 12
  }

  predicate AllMonthKeys(recs: seq<Record>) {
    forall i :: 0 <= i < |recs| ==> IsMonthKey(recs[i].month)
  }

  /** Total of the amounts. */
  function Sum(recs: seq<Record>): (total: nat)
    ensures forall i :: 0 <= i < |recs| ==> recs[i].amount <= total
    ensures total == 0 <==> forall i :: 0 <= i < |recs| ==> recs[i].amount == 0
  {
    if recs == [] then 0
    else
      var rest := Sum(recs[1..]);
      assert forall i :: 1 <= i < |recs| ==> recs[i] == recs[1..][i - 1];
      recs[0].amount + rest
  }

  lemma {:induction false} SumAppend(a: seq<Record>, b: seq<Record>)
    ensures Sum(a + b) == Sum(a) + Sum(b)
  {
    if a == [] {
      assert a + b == b;
    } else {
      assert (a + b)[1..] == a[1..] + b;
      SumAppend(a[1..], b);
    }
  }

  /** Exact equal share: `total` split over `members` people. */
  function PerMember(total: nat, members: nat): (share: real)
    requires members > 0
    ensures 0.0 <= share <= total as real
  {
    total as real / members as real
  }

  /** With one member the share is the whole total. */
  lemma PerMemberOne(total: nat)
    ensures PerMember(total, 1) == total as real
  {
  }

  /** The shares add back up to the total: the division loses nothing. */
  lemma PerMemberExact(total: nat, members: nat)
    requires members > 0
    ensures PerMember(total, members) * members as real == total as real
  {
  }

  /** Multiplying by a positive number keeps the order. */
  lemma MulMonotone(a: real, b: real, m: real)
    requires m > 0.0
    ensures a <= b <==> a * m <= b * m
  {
  }

  /** Converting a product to `real` multiplies the converted factors. */
  lemma CastProduct(a: nat, b: nat)
    ensures (a * b) as real == b as real * a as real
  {
  }

  /** A number whose product with `m` lies between two bounds' products lies between the bounds. */
  lemma BetweenByProduct(lo: real, q: real, hi: real, m: real)
    requires m > 0.0 && lo * m <= q * m <= hi * m
    ensures lo <= q <= hi
  {
    MulMonotone(lo, q, m);
    MulMonotone(q, hi, m);
  }

  /** A total between `members` times two bounds gives a share between those bounds. */
  lemma PerMemberBetween(lo: nat, total: nat, hi: nat, members: nat)
    requires members > 0 && members * lo <= total <= members * hi
    ensures lo as real <= PerMember(total, members) <= hi as real
  {
    PerMemberExact(total, members);
    CastProduct(members, lo);
    CastProduct(members, hi);
    BetweenByProduct(lo as real, PerMember(total, members), hi as real, members as real);
  }

  /** The records satisfying `p`, in their original order. */
  function Filter(recs: seq<Record>, p: Record -> bool): (r: seq<Record>)
    ensures |r| <= |recs|
    ensures forall x :: x in r <==> x in recs && p(x)
    ensures forall x :: multiset(r)[x] == if p(x) then multiset(recs)[x] else 0
  {
    if recs == [] then []
    else
      var rest := Filter(recs[1..], p);
      assert recs == [recs[0]] + recs[1..];
      assert multiset(recs) == multiset{recs[0]} + multiset(recs[1..]);
      if p(recs[0]) then [recs[0]] + rest else rest
  }

  /** Filtering a concatenation filters each part: the kept records stay in their order. */
  lemma {:induction false} FilterAppend(a: seq<Record>, b: seq<Record>, p: Record -> bool)
    ensures Filter(a + b, p) == Filter(a, p) + Filter(b, p)
  {
    if a == [] {
      assert a + b == b;
    } else {
      assert (a + b)[0] == a[0] && (a + b)[1..] == a[1..] + b;
      FilterAppend(a[1..], b, p);
    }
  }

  /** A filter that keeps every record keeps the ledger as it is. */
  lemma {:induction false} FilterAll(recs: seq<Record>, p: Record -> bool)
    requires forall i :: 0 <= i < |recs| ==> p(recs[i])
    ensures Filter(recs, p) == recs
  {
    if recs != [] {
      FilterAll(recs[1..], p);
    }
  }

  /** A filter that keeps no record gives the empty ledger. */
  lemma {:induction false} FilterNone(recs: seq<Record>, p: Record -> bool)
    requires forall i :: 0 <= i < |recs| ==> !p(recs[i])
    ensures Filter(recs, p) == []
  {
    if recs != [] {
      FilterNone(recs[1..], p);
    }
  }

  /** Two tests that agree on every record of the ledger keep the same records. */
  lemma {:induction false} FilterCongruent(recs: seq<Record>, p: Record -> bool, q: Record -> bool)
    requires forall i :: 0 <= i < |recs| ==> p(recs[i]) == q(recs[i])
    ensures Filter(recs, p) == Filter(recs, q)
  {
    if recs != [] {
      FilterCongruent(recs[1..], p, q);
    }
  }

  /** The records of one month (`df[df['Data'] == month]`). */
  function InMonth(recs: seq<Record>, month: string): (r: seq<Record>)
    ensures forall x :: x in r <==> x in recs && x.month == month
    ensures forall x :: multiset(r)[x] == if x.month == month then multiset(recs)[x] else 0
  {
    Filter(recs, (r: Record) => r.month == month)
  }
}
