/** Expense splitting, the share computation of `add_expense`: the submitted
    form is validated, then one `expense_shares` row is produced per selected
    member, either an equal part of the amount or the member's custom amount. */
module ExpenseSplit {
  import opened Common

  /** One `expense_shares` row: the member and the share amount. */
  type Share = (int, real)

  datatype SplitType = Equal | Custom

  /** The hidden `custom_amounts` field after `json.loads`: text that is not
      JSON at all; JSON that is not an object (an array, a number, a string,
      `true`, `false` or `null`); or the object's entries, each value either a
      number `float()` accepts or something it rejects (`None`). An empty field
      is read as the empty object. */
  datatype CustomAmounts = Malformed | NotAnObject | Parsed(entries: seq<(string, Option<real>)>)

  /** The submitted expense form. */
  datatype ExpenseRequest = ExpenseRequest(
    description: string, amount: real, paidBy: int,
    splitAmong: seq<int>, splitType: SplitType, custom: CustomAmounts)

  datatype SplitError =
    | FormInvalid          // the form's own validators refuse the submission
    | InvalidCustomData    // the custom amounts are not JSON or hold a non-number
    | Unhandled            // `.values()` on JSON that is not an object raises `AttributeError`, which nothing catches
    | CustomTotalMismatch  // the custom amounts do not add up to the amount
    | MissingCustomAmount  // a selected member has no custom amount
    | DuplicateShare       // a second share row for one member violates `UNIQUE(expense_id, user_id)`, which nothing catches

  /** `NumberRange(min=0.01)` on the amount. */
  const MinAmount: real := 0.01

  /** `Length(max=200)` on the description. */
  const MaxDescription: nat := 200

  /** The ASCII characters `str.strip()` removes. */
  const Whitespace: set<char> :=
    {' ', '\t', '\n', '\r', '\U{000B}', '\U{000C}', '\U{001C}', '\U{001D}', '\U{001E}', '\U{001F}'}

  /** How far the custom total may be from the amount. */
  const Tolerance: real := 0.01

  function Abs(x: real): real
  {
    if x < 0.0 then -x else x
  }

  function NatToString(n: nat): string
  {
    if n < 10 then ["0123456789"[n]] else NatToString(n / 10) + ["0123456789"[n % 10]]
  }

  /** `str(member_id)`, the key a member's custom amount is stored under. */
  function IdKey(id: int): string
  {
    if id < 0 then "-" + NatToString(-id) else NatToString(id)
  }

  /** A JSON object never holds a key twice. */
  predicate IsObject(entries: seq<(string, Option<real>)>)
  {
    forall p, q :: 0 <= p < q < |entries| ==> entries[p].0 != entries[q].0
  }

  predicate HasKey(entries: seq<(string, Option<real>)>, key: string)
  {
    exists p :: 0 <= p < |entries| && entries[p].0 == key
  }

  /** Every value of the object is a number. */
  predicate AllNumeric(entries: seq<(string, Option<real>)>)
  {
    forall p :: 0 <= p < |entries| ==> entries[p].1.Some?
  }

  /** `sum(float(amount) for amount in custom_amounts.values())`. */
  function CustomTotal(entries: seq<(string, Option<real>)>): real
    requires AllNumeric(entries)
  {
    if entries == [] then 0.0 else CustomTotal(entries[..|entries| - 1]) + entries[|entries| - 1].1.value
  }

  /** `float(custom_amounts[key])`. */
  function ValueAt(entries: seq<(string, Option<real>)>, key: string): real
    requires AllNumeric(entries) && HasKey(entries, key)
  {
    if entries[0].0 == key then entries[0].1.value
    else
      assert HasKey(entries[1..], key) by {
        var p :| 0 <= p < |entries| && entries[p].0 == key;
        assert entries[1..][p - 1].0 == key;
      }
      ValueAt(entries[1..], key)
  }

  /** The value read for a key is the value stored beside it. */
  lemma {:induction false} ValueAtIndex(entries: seq<(string, Option<real>)>, p: nat)
    requires AllNumeric(entries) && IsObject(entries) && p < |entries|
    ensures HasKey(entries, entries[p].0) && ValueAt(entries, entries[p].0) == entries[p].1.value
  {
    if p > 0 {
      ValueAtIndex(entries[1..], p - 1);
    }
  }

  /** `DataRequired` on a text field: something other than whitespace. */
  predicate Filled(s: string)
  {
    exists i :: 0 <= i < |s| && s[i] !in Whitespace
  }

  /** The form's validators: `DataRequired` and `Length(min=1, max=200)` on the
      description; `DataRequired` and `NumberRange(min=0.01)` on the amount; a
      non-zero payer among the group's members (`DataRequired` and the choices
      of `paid_by`); and a non-empty selection drawn from the group's members. */
  predicate FormValid(members: set<int>, req: ExpenseRequest)
  {
    && Filled(req.description) && |req.description| <= MaxDescription
    && req.amount >= MinAmount
    && req.paidBy != 0 && req.paidBy in members
    && req.splitAmong != [] && forall k :: 0 <= k < |req.splitAmong| ==> req.splitAmong[k] in members
  }

  /** `json.loads` gave an object and `float()` accepts each of its values. */
  predicate CustomNumeric(req: ExpenseRequest)
  {
    req.custom.Parsed? && AllNumeric(req.custom.entries)
  }

  /** Every selected member has an entry. */
  predicate AllSelectedHaveKey(entries: seq<(string, Option<real>)>, splitAmong: seq<int>)
  {
    forall k :: 0 <= k < |splitAmong| ==> HasKey(entries, IdKey(splitAmong[k]))
  }

  /** The custom amounts pass every check of `add_expense`. */
  predicate CustomAccepted(req: ExpenseRequest)
  {
    CustomNumeric(req) && Abs(CustomTotal(req.custom.entries) - req.amount) <= Tolerance
      && AllSelectedHaveKey(req.custom.entries, req.splitAmong)
  }

  /** Sum of the share amounts. */
  function ShareTotal(shares: seq<Share>): real
  {
    if shares == [] then 0.0 else ShareTotal(shares[..|shares| - 1]) + shares[|shares| - 1].1
  }

  /** No member is selected twice. */
  predicate Distinct(ids: seq<int>)
  {
    forall p, q :: 0 <= p < q < |ids| ==> ids[p] != ids[q]
  }

  /** No two shares go to the same member. */
  predicate DistinctMembers(shares: seq<Share>)
  {
    forall p, q :: 0 <= p < q < |shares| ==> shares[p].0 != shares[q].0
  }

  /** Equal split: the selected members in order, every one owing the same
      part, and the parts adding up to the amount. */
  function EqualShares(amount: real, splitAmong: seq<int>): (shares: seq<Share>)
    requires splitAmong != []
    ensures |shares| == |splitAmong|
    ensures forall k :: 0 <= k < |shares| ==> shares[k].0 == splitAmong[k]
    ensures forall p, q :: 0 <= p < |shares| && 0 <= q < |shares| ==> shares[p].1 == shares[q].1
    ensures ShareTotal(shares) == amount
  {
    var n := |splitAmong| as real;
    var shares := seq(|splitAmong|, k requires 0 <= k < |splitAmong| => (splitAmong[k], amount / n));
    ConstantTotal(shares, amount / n);
    assert n * (amount / n) == amount;
    shares
  }

  /** The object stores the number `v` under `key`. */
  predicate StoredUnder(entries: seq<(string, Option<real>)>, key: string, v: real)
  {
    exists p :: 0 <= p < |entries| && entries[p].0 == key && entries[p].1 == Some(v)
  }

  /** Custom split: the selected members in order, each owing the number the
      object stores under its key. */
  function CustomShares(entries: seq<(string, Option<real>)>, splitAmong: seq<int>): (shares: seq<Share>)
    requires AllNumeric(entries) && AllSelectedHaveKey(entries, splitAmong)
    ensures |shares| == |splitAmong|
    ensures forall k :: 0 <= k < |shares| ==> shares[k].0 == splitAmong[k]
    ensures forall k :: 0 <= k < |shares| ==> StoredUnder(entries, IdKey(splitAmong[k]), shares[k].1)
  {
    var shares := seq(|splitAmong|, k requires 0 <= k < |splitAmong| => (splitAmong[k], ValueAt(entries, IdKey(splitAmong[k]))));
    ValueAtStoredAll(entries, splitAmong);
    shares
  }

  /** The value read for a key is one stored under that key. */
  lemma {:induction false} ValueAtStored(entries: seq<(string, Option<real>)>, key: string)
    requires AllNumeric(entries) && HasKey(entries, key)
    ensures StoredUnder(entries, key, ValueAt(entries, key))
  {
    if entries[0].0 != key {
      var p :| 0 <= p < |entries| && entries[p].0 == key;
      assert entries[1..][p - 1].0 == key;
      ValueAtStored(entries[1..], key);
      var q :| 0 <= q < |entries[1..]| && entries[1..][q].0 == key && entries[1..][q].1 == Some(ValueAt(entries[1..], key));
      assert entries[q + 1].0 == key;
    } else {
      assert entries[0].1 == Some(ValueAt(entries, key));
    }
  }

  lemma ValueAtStoredAll(entries: seq<(string, Option<real>)>, splitAmong: seq<int>)
    requires AllNumeric(entries) && AllSelectedHaveKey(entries, splitAmong)
    ensures forall k :: 0 <= k < |splitAmong| ==> StoredUnder(entries, IdKey(splitAmong[k]), ValueAt(entries, IdKey(splitAmong[k])))
  {
    forall k | 0 <= k < |splitAmong|
      ensures StoredUnder(entries, IdKey(splitAmong[k]), ValueAt(entries, IdKey(splitAmong[k])))
    {
      ValueAtStored(entries, IdKey(splitAmong[k]));
    }
  }

  /** The shares `add_expense` inserts for a submission, or why it inserts
      nothing: the custom data is read and totalled first, the total checked
      against the amount, and only then is every selected member looked up. */
  function Split(members: set<int>, req: ExpenseRequest): (r: Result<seq<Share>, SplitError>)
    requires req.custom.Parsed? ==> IsObject(req.custom.entries)
    ensures r.Success? ==> |r.value| == |req.splitAmong|
    ensures r.Success? ==> forall k :: 0 <= k < |r.value| ==> r.value[k].0 == req.splitAmong[k]
    ensures !FormValid(members, req) ==> r == Failure(FormInvalid)
    ensures r.Success? ==> DistinctMembers(r.value)
    ensures FormValid(members, req) && req.splitType.Equal? ==> (r.Success? <==> Distinct(req.splitAmong))
    ensures FormValid(members, req) && req.splitType.Custom? ==> (r.Success? <==> CustomAccepted(req) && Distinct(req.splitAmong))
    ensures r == Failure(DuplicateShare) <==> (FormValid(members, req) && !Distinct(req.splitAmong)
      && (req.splitType.Equal? || CustomAccepted(req)))
    ensures r == Failure(CustomTotalMismatch) <==> (FormValid(members, req) && req.splitType.Custom? && CustomNumeric(req)
      && Abs(CustomTotal(req.custom.entries) - req.amount) > Tolerance)
    ensures r == Failure(InvalidCustomData) <==> (FormValid(members, req) && req.splitType.Custom?
      && (req.custom.Malformed? || (req.custom.Parsed? && !AllNumeric(req.custom.entries))))
    ensures r == Failure(Unhandled) <==> (FormValid(members, req) && req.splitType.Custom? && req.custom.NotAnObject?)
    ensures r.Success? && req.splitType.Custom? ==> (CustomAccepted(req)
      && forall k :: 0 <= k < |r.value| ==> r.value[k].1 == ValueAt(req.custom.entries, IdKey(req.splitAmong[k])))
  {
    if !FormValid(members, req) then Failure(FormInvalid)
    else if req.splitType.Equal? then
      if !Distinct(req.splitAmong) then Failure(DuplicateShare) else Success(EqualShares(req.amount, req.splitAmong))
    else match req.custom
      case Malformed => Failure(InvalidCustomData)
      case NotAnObject => Failure(Unhandled)
      case Parsed(entries) =>
        if !AllNumeric(entries) then Failure(InvalidCustomData)
        else if Abs(CustomTotal(entries) - req.amount) > Tolerance then
          Failure(CustomTotalMismatch)
        else if !AllSelectedHaveKey(entries, req.splitAmong) then Failure(MissingCustomAmount)
        else if !Distinct(req.splitAmong) then Failure(DuplicateShare)
        else Success(CustomShares(entries, req.splitAmong))
  }

  lemma {:induction false} ConstantTotal(shares: seq<Share>, v: real)
    requires forall k :: 0 <= k < |shares| ==> shares[k].1 == v
    ensures ShareTotal(shares) == (|shares| as real) * v
  {
    if shares != [] {
      ConstantTotal(shares[..|shares| - 1], v);
    }
  }

  /** A valid equal split goes through exactly when no member is selected twice;
      it then inserts one share of `amount / n` per selected member, and the
      shares add up to the amount. */
  lemma EqualSplitSums(members: set<int>, req: ExpenseRequest)
    requires req.custom.Parsed? ==> IsObject(req.custom.entries)
    requires FormValid(members, req) && req.splitType.Equal?
    ensures Split(members, req).Success? <==> Distinct(req.splitAmong)
    ensures Split(members, req).Success? ==>
      && (forall k :: 0 <= k < |req.splitAmong| ==>
            Split(members, req).value[k] == (req.splitAmong[k], req.amount / (|req.splitAmong| as real)))
      && ShareTotal(Split(members, req).value) == req.amount
  {
  }

  /** A member selected twice gets no shares at all: the second insert for
      that member breaks the uniqueness of `(expense_id, user_id)` and nothing
      is committed. */
  lemma RepeatedMemberRefused()
    ensures Split({1}, ExpenseRequest("Dinner", 10.0, 1, [1, 1], Equal, Malformed)) == Failure(DuplicateShare)
  {
    var req := ExpenseRequest("Dinner", 10.0, 1, [1, 1], Equal, Malformed);
    assert req.description[0] !in Whitespace;
    assert FormValid({1}, req);
    assert !Distinct(req.splitAmong) by {
      assert req.splitAmong[0] == req.splitAmong[1];
    }
  }

  /** Custom amounts of members outside the selection count towards the total
      that is checked, but no share is inserted for them: 50 split among member
      1 alone, with custom amounts 20 for member 1 and 30 for member 2, is
      accepted with shares that add up to 20. */
  lemma UnselectedAmountsCounted()
    ensures var req := ExpenseRequest("Dinner", 50.0, 1, [1], Custom, Parsed([("1", Some(20.0)), ("2", Some(30.0))]));
      Split({1, 2}, req) == Success([(1, 20.0)]) && Abs(ShareTotal(Split({1, 2}, req).value) - req.amount) > Tolerance
  {
    var entries: seq<(string, Option<real>)> := [("1", Some(20.0)), ("2", Some(30.0))];
    var req := ExpenseRequest("Dinner", 50.0, 1, [1], Custom, Parsed(entries));
    assert IdKey(1) == "1";
    assert entries[0].0 == "1";
    assert AllSelectedHaveKey(entries, [1]);
    assert req.description[0] !in Whitespace;
    assert FormValid({1, 2}, req);
    assert entries[..1][..0] == [];
    assert CustomTotal(entries) == 50.0;
    assert ValueAt(entries, "1") == 20.0;
    assert CustomShares(entries, [1]) == [(1, 20.0)];
    assert [(1, 20.0)][..0] == [];
    assert ShareTotal([(1, 20.0)]) == 20.0;
  }

  /** The check the tolerance evidently intends: the custom amounts of the
      selected members, the ones that become shares, must add up to the amount. */
  function SplitChecked(members: set<int>, req: ExpenseRequest): (r: Result<seq<Share>, SplitError>)
    ensures r.Success? ==> |r.value| == |req.splitAmong|
    ensures r.Success? ==> forall k :: 0 <= k < |r.value| ==> r.value[k].0 == req.splitAmong[k]
    ensures r.Success? ==> DistinctMembers(r.value)
  {
    if !FormValid(members, req) then Failure(FormInvalid)
    else if req.splitType.Equal? then
      if !Distinct(req.splitAmong) then Failure(DuplicateShare) else Success(EqualShares(req.amount, req.splitAmong))
    else match req.custom
      case Malformed => Failure(InvalidCustomData)
      case NotAnObject => Failure(Unhandled)
      case Parsed(entries) =>
        if !AllNumeric(entries) then Failure(InvalidCustomData)
        else if !AllSelectedHaveKey(entries, req.splitAmong) then Failure(MissingCustomAmount)
        else
          var shares := CustomShares(entries, req.splitAmong);
          if Abs(ShareTotal(shares) - req.amount) > Tolerance then Failure(CustomTotalMismatch)
          else if !Distinct(req.splitAmong) then Failure(DuplicateShare)
          else Success(shares)
  }

  /** With the corrected check, the shares of every accepted expense add up to
      its amount within one cent, exactly for an equal split. */
  lemma SplitCheckedSums(members: set<int>, req: ExpenseRequest)
    requires SplitChecked(members, req).Success?
    ensures Abs(ShareTotal(SplitChecked(members, req).value) - req.amount) <= Tolerance
    ensures req.splitType.Equal? ==> ShareTotal(SplitChecked(members, req).value) == req.amount
  {
  }
}
