/** Balance aggregation: `calculate_balances` folds the group's expense shares
    and settlements into one signed net balance per member. A positive balance
    means the group owes the member; a negative one means the member owes. */
module Balances {
  import opened Tally

  /** One row of the join of `expenses` with `expense_shares`: the expense's id,
      full amount and payer, and one share of it. */
  datatype ShareRow = ShareRow(expenseId: int, amount: real, paidBy: int, userId: int, shareAmount: real)

  /** One row of `settlements`: `payerId` paid `payeeId` the amount out of band. */
  datatype SettlementRow = SettlementRow(payerId: int, payeeId: int, amount: real)

  /** The rows the share query returns: the group's share rows whose member is
      current, in the order the store produced them. */
  function CountedShares(members: set<int>, rows: seq<ShareRow>): seq<ShareRow>
  {
    if rows == [] then []
    else
      var init := CountedShares(members, rows[..|rows| - 1]);
      var last := rows[|rows| - 1];
      if last.userId in members then init + [last] else init
  }

  /** The settlements the settlement query returns: those whose payer and payee
      are both current members. */
  function CountedSettlements(members: set<int>, settlements: seq<SettlementRow>): seq<SettlementRow>
  {
    if settlements == [] then []
    else
      var init := CountedSettlements(members, settlements[..|settlements| - 1]);
      var last := settlements[|settlements| - 1];
      if last.payerId in members && last.payeeId in members then init + [last] else init
  }

  function ExpenseIds(rows: seq<ShareRow>): set<int>
  {
    if rows == [] then {} else ExpenseIds(rows[..|rows| - 1]) + {rows[|rows| - 1].expenseId}
  }

  /** For each expense id, the first row that carries it. */
  function FirstRows(rows: seq<ShareRow>): seq<ShareRow>
  {
    if rows == [] then []
    else
      var init := rows[..|rows| - 1];
      var last := rows[|rows| - 1];
      if last.expenseId in ExpenseIds(init) then FirstRows(init) else FirstRows(init) + [last]
  }

  /** What the rows' expenses credit to `x` as their payer. */
  function Credit(rows: seq<ShareRow>, x: int): real
  {
    if rows == [] then 0.0
    else
      var last := rows[|rows| - 1];
      Credit(rows[..|rows| - 1], x) + (if last.paidBy == x then last.amount else 0.0)
  }

  /** What the rows' shares debit from `x`. */
  function Debit(rows: seq<ShareRow>, x: int): real
  {
    if rows == [] then 0.0
    else
      var last := rows[|rows| - 1];
      Debit(rows[..|rows| - 1], x) + (if last.userId == x then last.shareAmount else 0.0)
  }

  /** What the settlements add to `x`: paid out raises the balance, received lowers it. */
  function Settled(settlements: seq<SettlementRow>, x: int): real
  {
    if settlements == [] then 0.0
    else
      var last := settlements[|settlements| - 1];
      Settled(settlements[..|settlements| - 1], x) + Transfer(last, x)
  }

  /** What one settlement adds to `x`. */
  function Transfer(s: SettlementRow, x: int): real
  {
    (if s.payerId == x then s.amount else 0.0) - (if s.payeeId == x then s.amount else 0.0)
  }

  /** Sum of the full amounts of the rows' expenses. */
  function AmountSum(rows: seq<ShareRow>): real
  {
    if rows == [] then 0.0 else AmountSum(rows[..|rows| - 1]) + rows[|rows| - 1].amount
  }

  /** Sum of the rows' share amounts. */
  function ShareSum(rows: seq<ShareRow>): real
  {
    if rows == [] then 0.0 else ShareSum(rows[..|rows| - 1]) + rows[|rows| - 1].shareAmount
  }

  /** The net balance of `x`: each counted expense credits its payer once, every
      counted share debits its member, every counted settlement moves its amount
      from the payee's balance to the payer's. */
  function NetBalance(members: set<int>, rows: seq<ShareRow>, settlements: seq<SettlementRow>, x: int): real
  {
    var counted := CountedShares(members, rows);
    Credit(FirstRows(counted), x) - Debit(counted, x) + Settled(CountedSettlements(members, settlements), x)
  }

  function Payers(rows: seq<ShareRow>): set<int>
  {
    if rows == [] then {} else Payers(rows[..|rows| - 1]) + {rows[|rows| - 1].paidBy}
  }

  function Users(rows: seq<ShareRow>): set<int>
  {
    if rows == [] then {} else Users(rows[..|rows| - 1]) + {rows[|rows| - 1].userId}
  }

  function Parties(settlements: seq<SettlementRow>): set<int>
  {
    if settlements == [] then {}
    else
      var last := settlements[|settlements| - 1];
      Parties(settlements[..|settlements| - 1]) + {last.payerId, last.payeeId}
  }

  /** The members whose balance is touched: every credited payer, every counted
      share's member, and both sides of every counted settlement. */
  function Touched(members: set<int>, rows: seq<ShareRow>, settlements: seq<SettlementRow>): set<int>
  {
    var counted := CountedShares(members, rows);
    Payers(FirstRows(counted)) + Users(counted) + Parties(CountedSettlements(members, settlements))
  }

  // Appending one row or settlement to a sequence extends each sum by that
  // element's contribution.

  lemma CreditAppend(credits: seq<ShareRow>, row: ShareRow)
    ensures forall x :: Credit(credits + [row], x) == Credit(credits, x) + (if row.paidBy == x then row.amount else 0.0)
  {
    assert (credits + [row])[..|credits|] == credits;
  }

  lemma AmountSumAppend(credits: seq<ShareRow>, row: ShareRow)
    ensures AmountSum(credits + [row]) == AmountSum(credits) + row.amount
  {
    assert (credits + [row])[..|credits|] == credits;
  }

  lemma PayersAppend(credits: seq<ShareRow>, row: ShareRow)
    ensures Payers(credits + [row]) == Payers(credits) + {row.paidBy}
  {
    assert (credits + [row])[..|credits|] == credits;
  }

  lemma DebitAppend(debits: seq<ShareRow>, row: ShareRow)
    ensures forall x :: Debit(debits + [row], x) == Debit(debits, x) + (if row.userId == x then row.shareAmount else 0.0)
  {
    assert (debits + [row])[..|debits|] == debits;
  }

  lemma ShareSumAppend(debits: seq<ShareRow>, row: ShareRow)
    ensures ShareSum(debits + [row]) == ShareSum(debits) + row.shareAmount
  {
    assert (debits + [row])[..|debits|] == debits;
  }

  lemma UsersAppend(debits: seq<ShareRow>, row: ShareRow)
    ensures Users(debits + [row]) == Users(debits) + {row.userId}
  {
    assert (debits + [row])[..|debits|] == debits;
  }

  lemma SettledAppend(paid: seq<SettlementRow>, s: SettlementRow)
    ensures forall x :: Settled(paid + [s], x) == Settled(paid, x) + Transfer(s, x)
  {
    assert (paid + [s])[..|paid|] == paid;
  }

  lemma PartiesAppend(paid: seq<SettlementRow>, s: SettlementRow)
    ensures Parties(paid + [s]) == Parties(paid) + {s.payerId, s.payeeId}
  {
    assert (paid + [s])[..|paid|] == paid;
  }

  /** One pass of the share loop over `row`, given the dict so far and the
      expense ids already processed: the payer is credited the full amount
      when the expense id is new, then the row's member is debited its share. */
  function ShareStep(b: seq<Entry>, processed: set<int>, row: ShareRow): seq<Entry>
  {
    var credited := if row.expenseId in processed then b else Add(b, row.paidBy, row.amount);
    Add(credited, row.userId, -row.shareAmount)
  }

  /** What one share-loop pass adds to `x`: the full amount when `x` pays an
      expense not yet processed, less the share when `x` is the row's member. */
  function StepDelta(processed: set<int>, row: ShareRow, x: int): real
  {
    (if row.expenseId !in processed && row.paidBy == x then row.amount else 0.0)
      - (if row.userId == x then row.shareAmount else 0.0)
  }

  /** The defaultdict after the share loop has seen `rows`: each row credits its
      expense's payer when no earlier row carried the same expense id, and
      debits its own member by its share. */
  function FoldShares(rows: seq<ShareRow>): seq<Entry>
  {
    if rows == [] then []
    else
      var init := rows[..|rows| - 1];
      ShareStep(FoldShares(init), ExpenseIds(init), rows[|rows| - 1])
  }

  /** The defaultdict after the settlement loop has applied `paid` to `b`. */
  function FoldSettlements(b: seq<Entry>, paid: seq<SettlementRow>): seq<Entry>
  {
    if paid == [] then b
    else
      var s := paid[|paid| - 1];
      Add(Add(FoldSettlements(b, paid[..|paid| - 1]), s.payerId, s.amount), s.payeeId, -s.amount)
  }

  /** The share loop's pass in its two cases: a row whose expense id was
      processed before only debits its member; otherwise it first credits its payer. */
  lemma ShareStepCases(b: seq<Entry>, processed: set<int>, row: ShareRow)
    ensures row.expenseId in processed ==> ShareStep(b, processed, row) == Add(b, row.userId, -row.shareAmount)
    ensures row.expenseId !in processed ==>
      ShareStep(b, processed, row) == Add(Add(b, row.paidBy, row.amount), row.userId, -row.shareAmount)
  {
  }

  /** The share loop's step over row `k`. */
  lemma FoldSharesStep(rows: seq<ShareRow>, k: nat)
    requires k < |rows|
    ensures ExpenseIds(rows[..k + 1]) == ExpenseIds(rows[..k]) + {rows[k].expenseId}
    ensures FoldShares(rows[..k + 1]) == ShareStep(FoldShares(rows[..k]), ExpenseIds(rows[..k]), rows[k])
  {
    assert rows[..k + 1][..k] == rows[..k];
  }

  /** The settlement loop's step over settlement `m`. */
  lemma FoldSettlementsStep(b: seq<Entry>, paid: seq<SettlementRow>, m: nat)
    requires m < |paid|
    ensures FoldSettlements(b, paid[..m + 1])
      == Add(Add(FoldSettlements(b, paid[..m]), paid[m].payerId, paid[m].amount), paid[m].payeeId, -paid[m].amount)
  {
    assert paid[..m + 1][..m] == paid[..m];
  }

  /** One more share row: its expense's first row joins the credited rows unless
      an earlier row already carried the expense id. */
  lemma FirstRowsStep(rows: seq<ShareRow>, k: nat)
    requires k < |rows|
    ensures ExpenseIds(rows[..k + 1]) == ExpenseIds(rows[..k]) + {rows[k].expenseId}
    ensures FirstRows(rows[..k + 1])
      == if rows[k].expenseId in ExpenseIds(rows[..k]) then FirstRows(rows[..k]) else FirstRows(rows[..k]) + [rows[k]]
  {
    assert rows[..k + 1] == rows[..k] + [rows[k]];
    assert rows[..k + 1][..k] == rows[..k];
  }

  /** One share-loop pass adds the payer when it is credited, and the row's member. */
  lemma ShareStepKeys(b: seq<Entry>, processed: set<int>, row: ShareRow)
    ensures Keys(ShareStep(b, processed, row))
      == Keys(b) + (if row.expenseId in processed then {} else {row.paidBy}) + {row.userId}
  {
    AddKeys(b, row.paidBy, row.amount);
    AddKeys(Add(b, row.paidBy, row.amount), row.userId, -row.shareAmount);
    AddKeys(b, row.userId, -row.shareAmount);
  }

  /** One share-loop pass credits the payer of a new expense its full amount and
      debits the row's member its share; no other value changes. */
  lemma ShareStepGet(b: seq<Entry>, processed: set<int>, row: ShareRow)
    ensures forall x :: Get(ShareStep(b, processed, row), x) == Get(b, x) + StepDelta(processed, row, x)
  {
    AddGet(b, row.paidBy, row.amount);
    AddGet(Add(b, row.paidBy, row.amount), row.userId, -row.shareAmount);
    AddGet(b, row.userId, -row.shareAmount);
  }

  /** One share-loop pass raises the sum of all values by the credit less the share. */
  lemma ShareStepTotal(b: seq<Entry>, processed: set<int>, row: ShareRow)
    ensures Total(ShareStep(b, processed, row))
      == Total(b) + (if row.expenseId in processed then 0.0 else row.amount) - row.shareAmount
  {
    AddTotal(b, row.paidBy, row.amount);
    AddTotal(Add(b, row.paidBy, row.amount), row.userId, -row.shareAmount);
    AddTotal(b, row.userId, -row.shareAmount);
  }

  /** One share-loop pass keeps the keys distinct. */
  lemma ShareStepDistinct(b: seq<Entry>, processed: set<int>, row: ShareRow)
    requires DistinctKeys(b)
    ensures DistinctKeys(ShareStep(b, processed, row))
  {
    AddDistinct(b, row.paidBy, row.amount);
    AddDistinct(Add(b, row.paidBy, row.amount), row.userId, -row.shareAmount);
    AddDistinct(b, row.userId, -row.shareAmount);
  }

  lemma {:induction false} FoldSharesDistinct(rows: seq<ShareRow>)
    ensures DistinctKeys(FoldShares(rows))
  {
    if rows != [] {
      var init := rows[..|rows| - 1];
      FoldSharesDistinct(init);
      ShareStepDistinct(FoldShares(init), ExpenseIds(init), rows[|rows| - 1]);
    }
  }

  /** The share loop touches exactly the credited payers and the debited members. */
  lemma {:induction false} FoldSharesKeys(rows: seq<ShareRow>)
    ensures Keys(FoldShares(rows)) == Payers(FirstRows(rows)) + Users(rows)
  {
    if rows != [] {
      var init := rows[..|rows| - 1];
      var row := rows[|rows| - 1];
      FoldSharesKeys(init);
      ShareStepKeys(FoldShares(init), ExpenseIds(init), row);
      if row.expenseId !in ExpenseIds(init) {
        PayersAppend(FirstRows(init), row);
      }
    }
  }

  /** After the share loop each member's value is its credits as a payer, one
      per expense, less its shares. */
  lemma {:induction false} FoldSharesValues(rows: seq<ShareRow>)
    ensures forall x :: Get(FoldShares(rows), x) == Credit(FirstRows(rows), x) - Debit(rows, x)
  {
    if rows != [] {
      var init := rows[..|rows| - 1];
      var row := rows[|rows| - 1];
      FoldSharesValues(init);
      ShareStepGet(FoldShares(init), ExpenseIds(init), row);
      if row.expenseId !in ExpenseIds(init) {
        CreditAppend(FirstRows(init), row);
      }
    }
  }

  /** After the share loop the values sum to the credited expense amounts less the shares. */
  lemma {:induction false} FoldSharesTotal(rows: seq<ShareRow>)
    ensures Total(FoldShares(rows)) == AmountSum(FirstRows(rows)) - ShareSum(rows)
  {
    if rows != [] {
      var init := rows[..|rows| - 1];
      var row := rows[|rows| - 1];
      FoldSharesTotal(init);
      ShareStepTotal(FoldShares(init), ExpenseIds(init), row);
      if row.expenseId !in ExpenseIds(init) {
        AmountSumAppend(FirstRows(init), row);
      }
    }
  }

  lemma {:induction false} FoldSettlementsDistinct(b: seq<Entry>, paid: seq<SettlementRow>)
    requires DistinctKeys(b)
    ensures DistinctKeys(FoldSettlements(b, paid))
  {
    if paid != [] {
      var s := paid[|paid| - 1];
      var b0 := FoldSettlements(b, paid[..|paid| - 1]);
      FoldSettlementsDistinct(b, paid[..|paid| - 1]);
      AddDistinct(b0, s.payerId, s.amount);
      AddDistinct(Add(b0, s.payerId, s.amount), s.payeeId, -s.amount);
    }
  }

  /** The settlement loop adds both sides of each settlement to the keys. */
  lemma {:induction false} FoldSettlementsKeys(b: seq<Entry>, paid: seq<SettlementRow>)
    ensures Keys(FoldSettlements(b, paid)) == Keys(b) + Parties(paid)
  {
    if paid != [] {
      var s := paid[|paid| - 1];
      var b0 := FoldSettlements(b, paid[..|paid| - 1]);
      FoldSettlementsKeys(b, paid[..|paid| - 1]);
      AddKeys(b0, s.payerId, s.amount);
      AddKeys(Add(b0, s.payerId, s.amount), s.payeeId, -s.amount);
      PartiesAppend(paid[..|paid| - 1], s);
      assert paid[..|paid| - 1] + [s] == paid;
    }
  }

  /** Each settlement raises its payer's value and lowers its payee's by its amount. */
  lemma {:induction false} FoldSettlementsValues(b: seq<Entry>, paid: seq<SettlementRow>)
    ensures forall x :: Get(FoldSettlements(b, paid), x) == Get(b, x) + Settled(paid, x)
  {
    if paid != [] {
      var s := paid[|paid| - 1];
      var b0 := FoldSettlements(b, paid[..|paid| - 1]);
      FoldSettlementsValues(b, paid[..|paid| - 1]);
      AddGet(b0, s.payerId, s.amount);
      AddGet(Add(b0, s.payerId, s.amount), s.payeeId, -s.amount);
      SettledAppend(paid[..|paid| - 1], s);
      assert paid[..|paid| - 1] + [s] == paid;
    }
  }

  /** Settlements leave the sum of all balances unchanged. */
  lemma {:induction false} FoldSettlementsTotal(b: seq<Entry>, paid: seq<SettlementRow>)
    ensures Total(FoldSettlements(b, paid)) == Total(b)
  {
    if paid != [] {
      var s := paid[|paid| - 1];
      var b0 := FoldSettlements(b, paid[..|paid| - 1]);
      FoldSettlementsTotal(b, paid[..|paid| - 1]);
      AddTotal(b0, s.payerId, s.amount);
      AddTotal(Add(b0, s.payerId, s.amount), s.payeeId, -s.amount);
    }
  }

  /** The defaultdict `calculate_balances` returns: the share loop over the
      counted share rows, then the settlement loop over the counted settlements. */
  function Aggregate(members: set<int>, rows: seq<ShareRow>, settlements: seq<SettlementRow>): seq<Entry>
  {
    FoldSettlements(FoldShares(CountedShares(members, rows)), CountedSettlements(members, settlements))
  }

  /** What the aggregated defaultdict holds: distinct keys, exactly the touched
      members, each member's net balance, and a sum of values in which the
      settlements cancel out. */
  lemma AggregateFacts(members: set<int>, rows: seq<ShareRow>, settlements: seq<SettlementRow>)
    ensures DistinctKeys(Aggregate(members, rows, settlements))
    ensures Keys(Aggregate(members, rows, settlements)) == Touched(members, rows, settlements)
    ensures forall x :: Get(Aggregate(members, rows, settlements), x) == NetBalance(members, rows, settlements, x)
    ensures Total(Aggregate(members, rows, settlements))
      == AmountSum(FirstRows(CountedShares(members, rows))) - ShareSum(CountedShares(members, rows))
  {
    var expenses := CountedShares(members, rows);
    var paid := CountedSettlements(members, settlements);
    var afterShares := FoldShares(expenses);
    FoldSharesDistinct(expenses);
    FoldSharesKeys(expenses);
    FoldSharesValues(expenses);
    FoldSharesTotal(expenses);
    FoldSettlementsDistinct(afterShares, paid);
    FoldSettlementsKeys(afterShares, paid);
    FoldSettlementsValues(afterShares, paid);
    FoldSettlementsTotal(afterShares, paid);
  }

  /** What the share rows of expense `id` add up to. */
  function SharesOf(rows: seq<ShareRow>, id: int): real
  {
    if rows == [] then 0.0
    else
      var last := rows[|rows| - 1];
      SharesOf(rows[..|rows| - 1], id) + (if last.expenseId == id then last.shareAmount else 0.0)
  }

  /** For each row of `credited`, what the share rows of its expense add up to in `rows`. */
  function CreditedShares(credited: seq<ShareRow>, rows: seq<ShareRow>): real
  {
    if credited == [] then 0.0
    else CreditedShares(credited[..|credited| - 1], rows) + SharesOf(rows, credited[|credited| - 1].expenseId)
  }

  lemma SharesOfAppend(rows: seq<ShareRow>, row: ShareRow, id: int)
    ensures SharesOf(rows + [row], id) == SharesOf(rows, id) + (if row.expenseId == id then row.shareAmount else 0.0)
  {
    assert (rows + [row])[..|rows|] == rows;
  }

  /** An expense with no row has no shares. */
  lemma {:induction false} SharesOfAbsent(rows: seq<ShareRow>, id: int)
    requires id !in ExpenseIds(rows)
    ensures SharesOf(rows, id) == 0.0
  {
    if rows != [] {
      SharesOfAbsent(rows[..|rows| - 1], id);
    }
  }

  /** An expense id that no row carries is not among the rows' ids. */
  lemma {:induction false} IdAbsent(rows: seq<ShareRow>, id: int)
    requires forall p :: 0 <= p < |rows| ==> rows[p].expenseId != id
    ensures id !in ExpenseIds(rows)
  {
    if rows != [] {
      IdAbsent(rows[..|rows| - 1], id);
    }
  }

  /** One more share row raises the credited shares by its share exactly when
      its expense is among the credited ones, each credited once. */
  lemma {:induction false} CreditedSharesAppend(credited: seq<ShareRow>, rows: seq<ShareRow>, row: ShareRow)
    requires forall p, q :: 0 <= p < q < |credited| ==> credited[p].expenseId != credited[q].expenseId
    ensures CreditedShares(credited, rows + [row])
      == CreditedShares(credited, rows) + (if row.expenseId in ExpenseIds(credited) then row.shareAmount else 0.0)
  {
    if credited != [] {
      var n := |credited| - 1;
      var init := credited[..n];
      var last := credited[n];
      CreditedSharesAppend(init, rows, row);
      SharesOfAppend(rows, row, last.expenseId);
      if last.expenseId == row.expenseId {
        IdAbsent(init, row.expenseId);
      }
    }
  }

  /** Grouping the shares by the expense each first row credits gives back
      all of the shares. */
  lemma {:induction false} CreditedSharesAll(rows: seq<ShareRow>)
    ensures CreditedShares(FirstRows(rows), rows) == ShareSum(rows)
  {
    if rows != [] {
      var init := rows[..|rows| - 1];
      var row := rows[|rows| - 1];
      var f := FirstRows(init);
      assert rows == init + [row];
      CreditedSharesAll(init);
      FirstRowsIds(init);
      FirstRowsDistinct(init);
      CreditedSharesAppend(f, init, row);
      if row.expenseId !in ExpenseIds(init) {
        assert (f + [row])[..|f|] == f;
        SharesOfAppend(init, row, row.expenseId);
        SharesOfAbsent(init, row.expenseId);
      }
    }
  }

  /** When each credited row's amount is what its expense's shares add up to,
      the credited amounts are the grouped shares. */
  lemma {:induction false} CreditedAmounts(credited: seq<ShareRow>, rows: seq<ShareRow>)
    requires forall r :: r in credited ==> r.amount == SharesOf(rows, r.expenseId)
    ensures AmountSum(credited) == CreditedShares(credited, rows)
  {
    if credited != [] {
      CreditedAmounts(credited[..|credited| - 1], rows);
    }
  }

  /** Every credited row is one of the rows. */
  lemma {:induction false} FirstRowsIn(rows: seq<ShareRow>)
    ensures forall r :: r in FirstRows(rows) ==> r in rows
  {
    if rows != [] {
      FirstRowsIn(rows[..|rows| - 1]);
    }
  }

  /** With every member current, the share query keeps every row. */
  lemma {:induction false} CountedAll(members: set<int>, rows: seq<ShareRow>)
    requires forall k :: 0 <= k < |rows| ==> rows[k].userId in members
    ensures CountedShares(members, rows) == rows
  {
    if rows != [] {
      CountedAll(members, rows[..|rows| - 1]);
      assert rows[..|rows| - 1] + [rows[|rows| - 1]] == rows;
    }
  }

  /** Conservation: when every share row belongs to a current member and each
      expense's amount is what its shares add up to, the group's balances sum
      to zero, whatever the settlements. */
  lemma {:induction false} BalancesSumToZero(members: set<int>, rows: seq<ShareRow>, settlements: seq<SettlementRow>)
    requires forall k :: 0 <= k < |rows| ==> rows[k].userId in members
    requires forall r :: r in rows ==> r.amount == SharesOf(rows, r.expenseId)
    ensures Total(Aggregate(members, rows, settlements)) == 0.0
  {
    CountedAll(members, rows);
    AggregateFacts(members, rows, settlements);
    CreditedSharesAll(rows);
    FirstRowsIn(rows);
    CreditedAmounts(FirstRows(rows), rows);
  }

  /** The share query keeps exactly the rows of current members. */
  lemma {:induction false} CountedSharesMembers(members: set<int>, rows: seq<ShareRow>)
    ensures forall row :: row in CountedShares(members, rows) <==> row in rows && row.userId in members
  {
    if rows != [] {
      CountedSharesMembers(members, rows[..|rows| - 1]);
      assert rows == rows[..|rows| - 1] + [rows[|rows| - 1]];
    }
  }

  /** The settlement query keeps exactly the settlements between two current members. */
  lemma {:induction false} CountedSettlementsMembers(members: set<int>, settlements: seq<SettlementRow>)
    ensures forall s :: s in CountedSettlements(members, settlements) <==>
      s in settlements && s.payerId in members && s.payeeId in members
  {
    if settlements != [] {
      CountedSettlementsMembers(members, settlements[..|settlements| - 1]);
      assert settlements == settlements[..|settlements| - 1] + [settlements[|settlements| - 1]];
    }
  }

  /** The credited rows carry every expense id of the rows. */
  lemma {:induction false} FirstRowsIds(rows: seq<ShareRow>)
    ensures ExpenseIds(FirstRows(rows)) == ExpenseIds(rows)
  {
    if rows != [] {
      var init := rows[..|rows| - 1];
      var row := rows[|rows| - 1];
      FirstRowsIds(init);
      if row.expenseId !in ExpenseIds(init) {
        PayersAppendIds(FirstRows(init), row);
      }
    }
  }

  /** Credit once per expense: no two credited rows carry the same expense id. */
  lemma {:induction false} FirstRowsDistinct(rows: seq<ShareRow>)
    ensures forall p, q :: 0 <= p < q < |FirstRows(rows)| ==> FirstRows(rows)[p].expenseId != FirstRows(rows)[q].expenseId
  {
    if rows != [] {
      var init := rows[..|rows| - 1];
      var row := rows[|rows| - 1];
      FirstRowsDistinct(init);
      if row.expenseId !in ExpenseIds(init) {
        var f := FirstRows(init);
        FirstRowsIds(init);
        forall p | 0 <= p < |f| ensures f[p].expenseId != row.expenseId {
          IdAt(f, p);
        }
      }
    }
  }

  /** Each credited row is the first row of `rows` that carries its expense id. */
  lemma {:induction false} FirstRowsFirst(rows: seq<ShareRow>)
    ensures forall r :: r in FirstRows(rows) ==>
      exists k :: 0 <= k < |rows| && rows[k] == r && r.expenseId !in ExpenseIds(rows[..k])
  {
    if rows != [] {
      var n := |rows| - 1;
      var init := rows[..n];
      var row := rows[n];
      FirstRowsFirst(init);
      forall r | r in FirstRows(rows)
        ensures exists k :: 0 <= k < |rows| && rows[k] == r && r.expenseId !in ExpenseIds(rows[..k])
      {
        if r in FirstRows(init) {
          var k :| 0 <= k < |init| && init[k] == r && r.expenseId !in ExpenseIds(init[..k]);
          assert init[..k] == rows[..k];
        } else {
          assert r == row && rows[n] == r && r.expenseId !in ExpenseIds(rows[..n]);
        }
      }
    }
  }

  lemma PayersAppendIds(rows: seq<ShareRow>, row: ShareRow)
    ensures ExpenseIds(rows + [row]) == ExpenseIds(rows) + {row.expenseId}
  {
    assert (rows + [row])[..|rows|] == rows;
  }

  lemma {:induction false} IdAt(rows: seq<ShareRow>, p: nat)
    requires p < |rows|
    ensures rows[p].expenseId in ExpenseIds(rows)
  {
    if p < |rows| - 1 {
      IdAt(rows[..|rows| - 1], p);
    }
  }

  /** A member who is not current is debited nothing. */
  lemma {:induction false} NoDebitOutsideMembers(members: set<int>, rows: seq<ShareRow>, x: int)
    requires x !in members
    ensures Debit(CountedShares(members, rows), x) == 0.0
  {
    if rows != [] {
      var init := rows[..|rows| - 1];
      var row := rows[|rows| - 1];
      NoDebitOutsideMembers(members, init, x);
      if row.userId in members {
        DebitAppend(CountedShares(members, init), row);
      }
    }
  }

  /** A member who is not current takes part in no counted settlement. */
  lemma {:induction false} NoSettlementOutsideMembers(members: set<int>, settlements: seq<SettlementRow>, x: int)
    requires x !in members
    ensures Settled(CountedSettlements(members, settlements), x) == 0.0
  {
    if settlements != [] {
      var init := settlements[..|settlements| - 1];
      var s := settlements[|settlements| - 1];
      NoSettlementOutsideMembers(members, init, x);
      if s.payerId in members && s.payeeId in members {
        SettledAppend(CountedSettlements(members, init), s);
      }
    }
  }

  /** Someone outside the current members keeps only what they are credited as
      the payer of an expense that still has a counted share: no share and no
      settlement of theirs is counted. */
  lemma NonMemberBalance(members: set<int>, rows: seq<ShareRow>, settlements: seq<SettlementRow>, x: int)
    requires x !in members
    ensures NetBalance(members, rows, settlements, x) == Credit(FirstRows(CountedShares(members, rows)), x)
  {
    NoDebitOutsideMembers(members, rows, x);
    NoSettlementOutsideMembers(members, settlements, x);
  }

  /** One more share row from the join: a row of someone outside the members
      changes nothing; otherwise it debits its member by its share, and credits
      its payer with the full amount only if no counted row had its expense id. */
  lemma AppendShareRow(members: set<int>, rows: seq<ShareRow>, settlements: seq<SettlementRow>, row: ShareRow, x: int)
    ensures NetBalance(members, rows + [row], settlements, x) == NetBalance(members, rows, settlements, x) + (
      if row.userId !in members then 0.0
      else
        (if row.expenseId !in ExpenseIds(CountedShares(members, rows)) && row.paidBy == x then row.amount else 0.0)
        - (if row.userId == x then row.shareAmount else 0.0))
  {
    assert (rows + [row])[..|rows|] == rows;
    var counted := CountedShares(members, rows);
    if row.userId in members {
      assert counted + [row] == CountedShares(members, rows + [row]);
      assert (counted + [row])[..|counted|] == counted;
      DebitAppend(counted, row);
      if row.expenseId !in ExpenseIds(counted) {
        CreditAppend(FirstRows(counted), row);
      }
    }
  }

  /** One more settlement: counted only between two current members, it raises
      its payer's balance and lowers its payee's by its amount. */
  lemma AppendSettlement(members: set<int>, rows: seq<ShareRow>, settlements: seq<SettlementRow>, s: SettlementRow, x: int)
    ensures NetBalance(members, rows, settlements + [s], x) == NetBalance(members, rows, settlements, x)
      + (if s.payerId in members && s.payeeId in members then Transfer(s, x) else 0.0)
  {
    assert (settlements + [s])[..|settlements|] == settlements;
    if s.payerId in members && s.payeeId in members {
      SettledAppend(CountedSettlements(members, settlements), s);
    }
  }

  /** The share loop of `calculate_balances`: each row credits its expense's
      payer with the full amount the first time the expense id is seen
      (`processed_expenses`), then debits the row's member by its share. */
  method ApplyShares(expenses: seq<ShareRow>) returns (balances: seq<Entry>)
    ensures balances == FoldShares(expenses)
  {
    balances := [];
    var processed: set<int> := {};
    var k := 0;
    while k < |expenses|
      invariant 0 <= k <= |expenses|
      invariant processed == ExpenseIds(expenses[..k])
      invariant balances == FoldShares(expenses[..k])
    {
      var row := expenses[k];
      FoldSharesStep(expenses, k);
      ShareStepCases(balances, processed, row);
      if row.expenseId !in processed {
        balances := Add(balances, row.paidBy, row.amount);
        processed := processed + {row.expenseId};
      }
      balances := Add(balances, row.userId, -row.shareAmount);
      k := k + 1;
    }
    assert expenses[..k] == expenses;
  }

  /** The settlement loop of `calculate_balances`: each settlement raises its
      payer's balance and lowers its payee's by its amount. */
  method ApplySettlements(b: seq<Entry>, paid: seq<SettlementRow>) returns (balances: seq<Entry>)
    ensures balances == FoldSettlements(b, paid)
  {
    balances := b;
    var m := 0;
    while m < |paid|
      invariant 0 <= m <= |paid|
      invariant balances == FoldSettlements(b, paid[..m])
    {
      var s := paid[m];
      FoldSettlementsStep(b, paid, m);
      balances := Add(balances, s.payerId, s.amount);
      balances := Add(balances, s.payeeId, -s.amount);
      m := m + 1;
    }
    assert paid[..m] == paid;
  }

  /** `calculate_balances`: the two query results are folded into a
      defaultdict, the share rows first, then the settlements. */
  method CalculateBalances(members: set<int>, rows: seq<ShareRow>, settlements: seq<SettlementRow>)
    returns (balances: seq<Entry>)
    ensures balances == Aggregate(members, rows, settlements)
    ensures DistinctKeys(balances)
    ensures Keys(balances) == Touched(members, rows, settlements)
    ensures forall x :: Get(balances, x) == NetBalance(members, rows, settlements, x)
    ensures Total(balances)
      == AmountSum(FirstRows(CountedShares(members, rows))) - ShareSum(CountedShares(members, rows))
  {
    var expenses := CountedShares(members, rows);
    var paid := CountedSettlements(members, settlements);
    balances := ApplyShares(expenses);
    balances := ApplySettlements(balances, paid);
    AggregateFacts(members, rows, settlements);
  }
}
