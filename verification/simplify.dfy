/** Debt simplification (`simplify_debts`): the members owed money and the
    members who owe are each sorted by descending magnitude and matched greedily,
    largest with largest, each match paying the smaller of the two remainders. */
module Simplify {
  import opened Tally
  import opened DescendingSort

  /** One suggested payment: `debtor` pays `creditor` the amount. */
  datatype Transaction = Transaction(debtor: int, creditor: int, amount: real)

  /** Amounts at or below one cent are neither paid nor kept open. */
  const Threshold: real := 0.01

  /** The members with a positive balance, with that balance, in dict order. */
  function Creditors(b: seq<Entry>): seq<Entry>
  {
    if b == [] then [] else (if b[0].1 > 0.0 then [b[0]] else []) + Creditors(b[1..])
  }

  /** The members with a negative balance, with what they owe, in dict order. */
  function Debtors(b: seq<Entry>): seq<Entry>
  {
    if b == [] then [] else (if b[0].1 < 0.0 then [(b[0].0, -b[0].1)] else []) + Debtors(b[1..])
  }

  function Min(a: real, b: real): real
  {
    if a <= b then a else b
  }

  /** The transactions the matching loop emits from the state in which it has
      emitted `emitted` and its cursors stand at `i` in `cr` and `j` in `dr`:
      the two entries under the cursors settle the smaller of their remainders
      (a transaction only above one cent), both remainders are written back, and
      each cursor moves past an entry whose remainder is at most one cent. */
  function Matched(emitted: seq<Transaction>, cr: seq<Entry>, i: nat, dr: seq<Entry>, j: nat): seq<Transaction>
    requires i <= |cr| && j <= |dr|
    decreases |cr| - i + |dr| - j
  {
    if i == |cr| || j == |dr| then emitted
    else
      var settle := Min(cr[i].1, dr[j].1);
      var next := if settle > Threshold then emitted + [Transaction(dr[j].0, cr[i].0, settle)] else emitted;
      var cr' := cr[i := (cr[i].0, cr[i].1 - settle)];
      var dr' := dr[j := (dr[j].0, dr[j].1 - settle)];
      Matched(next, cr', if cr'[i].1 <= Threshold then i + 1 else i, dr', if dr'[j].1 <= Threshold then j + 1 else j)
  }

  /** What `simplify_debts` returns for the balances `b`: the matching loop run
      from the start over the sorted creditors and debtors. */
  function Plan(b: seq<Entry>): seq<Transaction>
  {
    Matched([], Sort(Creditors(b)), 0, Sort(Debtors(b)), 0)
  }

  /** Total that `x` pays in `ts`. */
  function PaidBy(ts: seq<Transaction>, x: int): real
  {
    if ts == [] then 0.0
    else
      var last := ts[|ts| - 1];
      PaidBy(ts[..|ts| - 1], x) + (if last.debtor == x then last.amount else 0.0)
  }

  /** Total that `x` receives in `ts`. */
  function ReceivedBy(ts: seq<Transaction>, x: int): real
  {
    if ts == [] then 0.0
    else
      var last := ts[|ts| - 1];
      ReceivedBy(ts[..|ts| - 1], x) + (if last.creditor == x then last.amount else 0.0)
  }

  /** What the entries of `s` from index `k` on still hold for `x`. */
  function Remaining(s: seq<Entry>, k: nat, x: int): real
    decreases |s| - k
  {
    if k >= |s| then 0.0 else (if s[k].0 == x then s[k].1 else 0.0) + Remaining(s, k + 1, x)
  }

  predicate NonNegativeFrom(s: seq<Entry>, k: nat)
  {
    forall p :: k <= p < |s| ==> s[p].1 >= 0.0
  }

  predicate NonNegative(s: seq<Entry>)
  {
    NonNegativeFrom(s, 0)
  }

  lemma CreditorsCons(b: seq<Entry>)
    requires b != []
    ensures b[0].1 > 0.0 ==> Creditors(b) != [] && Creditors(b)[0] == b[0] && Creditors(b)[1..] == Creditors(b[1..])
    ensures b[0].1 <= 0.0 ==> Creditors(b) == Creditors(b[1..])
  {
  }

  lemma DebtorsCons(b: seq<Entry>)
    requires b != []
    ensures b[0].1 < 0.0 ==> Debtors(b) != [] && Debtors(b)[0] == (b[0].0, -b[0].1) && Debtors(b)[1..] == Debtors(b[1..])
    ensures b[0].1 >= 0.0 ==> Debtors(b) == Debtors(b[1..])
  {
  }

  lemma {:induction false} CreditorsKeys(b: seq<Entry>)
    requires DistinctKeys(b)
    ensures forall x :: x in Keys(Creditors(b)) <==> x in Keys(b) && Get(b, x) > 0.0
  {
    if b != [] {
      DistinctCons(b);
      CreditorsKeys(b[1..]);
      GetAbsent(b[1..], b[0].0);
      CreditorsCons(b);
    }
  }

  /** The creditors list holds each member with a positive balance once, with that balance. */
  lemma {:induction false} CreditorsGet(b: seq<Entry>)
    requires DistinctKeys(b)
    ensures DistinctKeys(Creditors(b))
    ensures forall x :: Get(Creditors(b), x) == if Get(b, x) > 0.0 then Get(b, x) else 0.0
    ensures NonNegative(Creditors(b))
  {
    if b != [] {
      DistinctCons(b);
      CreditorsGet(b[1..]);
      CreditorsKeys(b[1..]);
      GetAbsent(b[1..], b[0].0);
      CreditorsCons(b);
      if b[0].1 > 0.0 {
        DistinctCons(Creditors(b));
        GetAbsent(Creditors(b[1..]), b[0].0);
      }
    }
  }

  lemma {:induction false} DebtorsKeys(b: seq<Entry>)
    requires DistinctKeys(b)
    ensures forall x :: x in Keys(Debtors(b)) <==> x in Keys(b) && Get(b, x) < 0.0
  {
    if b != [] {
      DistinctCons(b);
      DebtorsKeys(b[1..]);
      GetAbsent(b[1..], b[0].0);
      DebtorsCons(b);
    }
  }

  /** The debtors list holds each member with a negative balance once, with what it owes. */
  lemma {:induction false} DebtorsGet(b: seq<Entry>)
    requires DistinctKeys(b)
    ensures DistinctKeys(Debtors(b))
    ensures forall x :: Get(Debtors(b), x) == if Get(b, x) < 0.0 then -Get(b, x) else 0.0
    ensures NonNegative(Debtors(b))
  {
    if b != [] {
      DistinctCons(b);
      DebtorsGet(b[1..]);
      DebtorsKeys(b[1..]);
      GetAbsent(b[1..], b[0].0);
      DebtorsCons(b);
      if b[0].1 < 0.0 {
        DistinctCons(Debtors(b));
        GetAbsent(Debtors(b[1..]), b[0].0);
      }
    }
  }

  lemma PaidByAppend(ts: seq<Transaction>, t: Transaction, x: int)
    ensures PaidBy(ts + [t], x) == PaidBy(ts, x) + (if t.debtor == x then t.amount else 0.0)
    ensures ReceivedBy(ts + [t], x) == ReceivedBy(ts, x) + (if t.creditor == x then t.amount else 0.0)
  {
    assert (ts + [t])[..|ts|] == ts;
  }

  /** Only the entries from `k` on count towards what remains. */
  lemma {:induction false} RemainingFrom(s: seq<Entry>, t: seq<Entry>, k: nat, x: int)
    requires |s| == |t| && forall p :: k <= p < |s| ==> s[p] == t[p]
    ensures Remaining(s, k, x) == Remaining(t, k, x)
    decreases |s| - k
  {
    if k < |s| {
      RemainingFrom(s, t, k + 1, x);
    }
  }

  /** Writing a new remainder under the cursor changes what remains by the difference. */
  lemma RemainingUpdate(s: seq<Entry>, k: nat, v: real, x: int)
    requires k < |s|
    ensures Remaining(s[k := (s[k].0, v)], k, x) == Remaining(s, k, x) - (if s[k].0 == x then s[k].1 - v else 0.0)
  {
    RemainingFrom(s[k := (s[k].0, v)], s, k + 1, x);
  }

  lemma {:induction false} RemainingNonNegative(s: seq<Entry>, k: nat, x: int)
    requires NonNegativeFrom(s, k)
    ensures Remaining(s, k, x) >= 0.0
    decreases |s| - k
  {
    if k < |s| {
      RemainingNonNegative(s, k + 1, x);
    }
  }

  /** A member that no entry from `k` on carries has nothing remaining. */
  lemma {:induction false} RemainingAbsent(s: seq<Entry>, k: nat, x: int)
    requires forall p :: k <= p < |s| ==> s[p].0 != x
    ensures Remaining(s, k, x) == 0.0
    decreases |s| - k
  {
    if k < |s| {
      RemainingAbsent(s, k + 1, x);
    }
  }

  /** From the start, what remains for a member is its value in the list. */
  lemma {:induction false} RemainingGet(s: seq<Entry>, k: nat, x: int)
    requires DistinctKeys(s) && k <= |s|
    ensures Remaining(s, k, x) == Get(s[k..], x)
    decreases |s| - k
  {
    if k < |s| {
      RemainingGet(s, k + 1, x);
      assert s[k..][1..] == s[k + 1..];
      if s[k].0 == x {
        RemainingAbsent(s, k + 1, x);
      }
    }
  }

  /** Writing a remainder keeps the members of a list. */
  lemma {:induction false} UpdateKeys(s: seq<Entry>, k: nat, v: real)
    requires k < |s|
    ensures Keys(s[k := (s[k].0, v)]) == Keys(s)
  {
    if k > 0 {
      UpdateKeys(s[1..], k - 1, v);
      assert s[k := (s[k].0, v)][1..] == s[1..][k - 1 := (s[k].0, v)];
    }
  }

  /** Every transaction the loop adds goes from a debtor of the list to a
      creditor of the list and moves more than one cent. */
  lemma {:induction false} MatchedEnds(emitted: seq<Transaction>, cr: seq<Entry>, i: nat, dr: seq<Entry>, j: nat)
    requires i <= |cr| && j <= |dr|
    ensures forall t :: t in Matched(emitted, cr, i, dr, j) ==>
      t in emitted || (t.debtor in Keys(dr) && t.creditor in Keys(cr) && t.amount > Threshold)
    decreases |cr| - i + |dr| - j
  {
    if i < |cr| && j < |dr| {
      var settle := Min(cr[i].1, dr[j].1);
      var next := if settle > Threshold then emitted + [Transaction(dr[j].0, cr[i].0, settle)] else emitted;
      var cr' := cr[i := (cr[i].0, cr[i].1 - settle)];
      var dr' := dr[j := (dr[j].0, dr[j].1 - settle)];
      MatchedEnds(next, cr', if cr'[i].1 <= Threshold then i + 1 else i, dr', if dr'[j].1 <= Threshold then j + 1 else j);
      UpdateKeys(cr, i, cr[i].1 - settle);
      UpdateKeys(dr, j, dr[j].1 - settle);
      KeyAt(cr, i);
      KeyAt(dr, j);
    }
  }

  /** The loop adds at most one transaction fewer than there are entries left
      under and after the two cursors together. */
  lemma {:induction false} MatchedCount(emitted: seq<Transaction>, cr: seq<Entry>, i: nat, dr: seq<Entry>, j: nat)
    requires i <= |cr| && j <= |dr|
    ensures |Matched(emitted, cr, i, dr, j)| <= |emitted| + if i == |cr| || j == |dr| then 0 else |cr| - i + |dr| - j - 1
    decreases |cr| - i + |dr| - j
  {
    if i < |cr| && j < |dr| {
      var settle := Min(cr[i].1, dr[j].1);
      var next := if settle > Threshold then emitted + [Transaction(dr[j].0, cr[i].0, settle)] else emitted;
      var cr' := cr[i := (cr[i].0, cr[i].1 - settle)];
      var dr' := dr[j := (dr[j].0, dr[j].1 - settle)];
      MatchedCount(next, cr', if cr'[i].1 <= Threshold then i + 1 else i, dr', if dr'[j].1 <= Threshold then j + 1 else j);
    }
  }

  /** No debtor pays more than what remained of its debt. */
  lemma {:induction false} MatchedPaid(emitted: seq<Transaction>, cr: seq<Entry>, i: nat, dr: seq<Entry>, j: nat, x: int)
    requires i <= |cr| && j <= |dr| && NonNegativeFrom(cr, i) && NonNegativeFrom(dr, j)
    ensures PaidBy(Matched(emitted, cr, i, dr, j), x) <= PaidBy(emitted, x) + Remaining(dr, j, x)
    decreases |cr| - i + |dr| - j
  {
    if i < |cr| && j < |dr| {
      var settle := Min(cr[i].1, dr[j].1);
      var t := Transaction(dr[j].0, cr[i].0, settle);
      var next := if settle > Threshold then emitted + [t] else emitted;
      var cr' := cr[i := (cr[i].0, cr[i].1 - settle)];
      var dr' := dr[j := (dr[j].0, dr[j].1 - settle)];
      var i' := if cr'[i].1 <= Threshold then i + 1 else i;
      var j' := if dr'[j].1 <= Threshold then j + 1 else j;
      assert Matched(emitted, cr, i, dr, j) == Matched(next, cr', i', dr', j');
      assert NonNegativeFrom(cr', i') && NonNegativeFrom(dr', j');
      MatchedPaid(next, cr', i', dr', j', x);
      PaidByAppend(emitted, t, x);
      assert PaidBy(next, x) <= PaidBy(emitted, x) + (if dr[j].0 == x then settle else 0.0);
      assert Remaining(dr', j', x) <= Remaining(dr', j, x);
      RemainingUpdate(dr, j, dr[j].1 - settle, x);
    } else {
      RemainingNonNegative(dr, j, x);
    }
  }

  /** No creditor receives more than what remained of its credit. */
  lemma {:induction false} MatchedReceived(emitted: seq<Transaction>, cr: seq<Entry>, i: nat, dr: seq<Entry>, j: nat, x: int)
    requires i <= |cr| && j <= |dr| && NonNegativeFrom(cr, i) && NonNegativeFrom(dr, j)
    ensures ReceivedBy(Matched(emitted, cr, i, dr, j), x) <= ReceivedBy(emitted, x) + Remaining(cr, i, x)
    decreases |cr| - i + |dr| - j
  {
    if i < |cr| && j < |dr| {
      var settle := Min(cr[i].1, dr[j].1);
      var t := Transaction(dr[j].0, cr[i].0, settle);
      var next := if settle > Threshold then emitted + [t] else emitted;
      var cr' := cr[i := (cr[i].0, cr[i].1 - settle)];
      var dr' := dr[j := (dr[j].0, dr[j].1 - settle)];
      var i' := if cr'[i].1 <= Threshold then i + 1 else i;
      var j' := if dr'[j].1 <= Threshold then j + 1 else j;
      assert Matched(emitted, cr, i, dr, j) == Matched(next, cr', i', dr', j');
      assert NonNegativeFrom(cr', i') && NonNegativeFrom(dr', j');
      MatchedReceived(next, cr', i', dr', j', x);
      PaidByAppend(emitted, t, x);
      assert ReceivedBy(next, x) <= ReceivedBy(emitted, x) + (if cr[i].0 == x then settle else 0.0);
      assert Remaining(cr', i', x) <= Remaining(cr', i, x);
      RemainingUpdate(cr, i, cr[i].1 - settle, x);
    } else {
      RemainingNonNegative(cr, i, x);
    }
  }

  /** What the plan promises about the balances it settles: each transaction
      goes from a member who owes to a member who is owed and moves more than
      one cent; no member pays more than it owes or receives more than it is
      owed; and there is at most one transaction fewer than there are
      creditors and debtors together. */
  lemma PlanFacts(b: seq<Entry>)
    requires DistinctKeys(b)
    ensures forall t :: t in Plan(b) ==> Get(b, t.debtor) < 0.0 < Get(b, t.creditor) && t.amount > Threshold
    ensures forall x :: PaidBy(Plan(b), x) <= if Get(b, x) < 0.0 then -Get(b, x) else 0.0
    ensures forall x :: ReceivedBy(Plan(b), x) <= if Get(b, x) > 0.0 then Get(b, x) else 0.0
    ensures |Plan(b)| <= if Creditors(b) == [] || Debtors(b) == [] then 0 else |Creditors(b)| + |Debtors(b)| - 1
  {
    var cs := Sort(Creditors(b));
    var ds := Sort(Debtors(b));
    CreditorsKeys(b);
    CreditorsGet(b);
    DebtorsKeys(b);
    DebtorsGet(b);
    SortKeys(Creditors(b));
    SortKeys(Debtors(b));
    SortIsSorted(Creditors(b));
    SortIsSorted(Debtors(b));
    SortPermutes(Creditors(b));
    SortPermutes(Debtors(b));
    assert NonNegative(cs) by {
      forall p | 0 <= p < |cs| ensures cs[p].1 >= 0.0 {
        assert cs[p] in multiset(Creditors(b));
      }
    }
    assert NonNegative(ds) by {
      forall p | 0 <= p < |ds| ensures ds[p].1 >= 0.0 {
        assert ds[p] in multiset(Debtors(b));
      }
    }
    MatchedEnds([], cs, 0, ds, 0);
    MatchedCount([], cs, 0, ds, 0);
    forall x ensures PaidBy(Plan(b), x) <= if Get(b, x) < 0.0 then -Get(b, x) else 0.0 {
      SortGet(Debtors(b), x);
      MatchedPaid([], cs, 0, ds, 0, x);
      RemainingGet(ds, 0, x);
      assert ds[0..] == ds;
    }
    forall x ensures ReceivedBy(Plan(b), x) <= if Get(b, x) > 0.0 then Get(b, x) else 0.0 {
      SortGet(Creditors(b), x);
      MatchedReceived([], cs, 0, ds, 0, x);
      RemainingGet(cs, 0, x);
      assert cs[0..] == cs;
    }
  }

  /** Replaying the plan does not always bring every balance to within one
      cent of zero: two creditors of one cent and a debtor of two cents sum to
      zero, yet each match settles exactly one cent, which is not above the
      threshold, so no transaction is emitted and the debtor still owes two cents. */
  lemma SubCentDebtLeftOpen()
    ensures var b := [(1, 0.01), (2, 0.01), (3, -0.02)];
      Total(b) == 0.0 && Plan(b) == [] && Get(b, 3) + PaidBy(Plan(b), 3) - ReceivedBy(Plan(b), 3) == -0.02
  {
    var b: seq<Entry> := [(1, 0.01), (2, 0.01), (3, -0.02)];
    var cs: seq<Entry> := [(1, 0.01), (2, 0.01)];
    var ds: seq<Entry> := [(3, 0.02)];
    assert Creditors(b) == cs;
    assert Debtors(b) == ds;
    assert Sort(cs) == cs;
    assert Sort(ds) == ds;
    var cr' := cs[0 := (1, 0.0)];
    var dr' := ds[0 := (3, 0.01)];
    assert Matched([], cs, 0, ds, 0) == Matched([], cr', 1, dr', 1);
  }

  /** `simplify_debts`: split the balances into creditors and debtors, sort
      each by descending amount, then match them with two cursors, rewriting
      the matched pair's remainders in place. */
  method SimplifyDebts(balances: seq<Entry>) returns (transactions: seq<Transaction>, ghost rounds: nat)
    requires DistinctKeys(balances)
    ensures transactions == Plan(balances)
    ensures forall t :: t in transactions ==>
      Get(balances, t.debtor) < 0.0 < Get(balances, t.creditor) && t.amount > Threshold
    ensures forall x :: PaidBy(transactions, x) <= if Get(balances, x) < 0.0 then -Get(balances, x) else 0.0
    ensures forall x :: ReceivedBy(transactions, x) <= if Get(balances, x) > 0.0 then Get(balances, x) else 0.0
    ensures rounds <= if Creditors(balances) == [] || Debtors(balances) == [] then 0
      else |Creditors(balances)| + |Debtors(balances)| - 1
  {
    var creditors := Creditors(balances);
    var debtors := Debtors(balances);
    SortIsSorted(creditors);
    SortIsSorted(debtors);
    creditors := Sort(creditors);
    debtors := Sort(debtors);
    ghost var c0, d0 := creditors, debtors;
    transactions := [];
    rounds := 0;
    var i, j := 0, 0;
    while i < |creditors| && j < |debtors|
      invariant 0 <= i <= |creditors| == |c0| && 0 <= j <= |debtors| == |d0|
      invariant Matched(transactions, creditors, i, debtors, j) == Matched([], c0, 0, d0, 0)
      invariant rounds <= i + j
      invariant rounds == 0 || (c0 != [] && d0 != [] && rounds <= |c0| + |d0| - 1)
      decreases |creditors| - i + |debtors| - j
    {
      var creditorId, credit := creditors[i].0, creditors[i].1;
      var debtorId, debt := debtors[j].0, debtors[j].1;
      var settle := Min(credit, debt);
      if settle > Threshold {
        transactions := transactions + [Transaction(debtorId, creditorId, settle)];
      }
      creditors := creditors[i := (creditorId, credit - settle)];
      debtors := debtors[j := (debtorId, debt - settle)];
      if creditors[i].1 <= Threshold {
        i := i + 1;
      }
      if debtors[j].1 <= Threshold {
        j := j + 1;
      }
      rounds := rounds + 1;
    }
    PlanFacts(balances);
  }
}
