/** Apportioning a scanned receipt: which items were picked and by whom, which
    picks were already paid for on the spot, and the one expense that charges
    every remaining user for their share of the items they picked. */
module Receipt {
  import opened Common
  import opened Tally

  /** How the form assigned one receipt line: in split mode a list of
      checked users, otherwise one user picked from a dropdown (or none). */
  datatype Assignment = SplitMode(users: seq<int>) | SingleMode(user: Option<int>)

  /** A line of the stored receipt analysis (`name`, parsed `price`) with the
      assignment the form posted for it. `price` is the outcome of
      `float(item.get('price', 0))`: `None` when it does not parse. */
  datatype ReceiptLine = ReceiptLine(name: string, price: Option<real>, assignment: Assignment)

  /** A selected item: its price and the group members who share it. */
  datatype Item = Item(name: string, price: real, selectedBy: seq<int>)

  datatype Member = Member(id: int, username: string)

  datatype ReceiptError =
    | BadPrice(item: string)   // a selected line whose price does not parse
    | NothingSelected          // no line is assigned to any group member

  /** What the submission leads to: nothing to record when every pick was
      already paid, otherwise one expense paid by the bill payer. */
  datatype Outcome =
    | AllConfirmed
    | Expense(payer: int, amount: real, shares: seq<Entry>)

  // ----- selecting items -----

  /** The users the form put on a line (`selected_by`). */
  function Chosen(a: Assignment): seq<int>
  {
    match a
    case SplitMode(users) => users
    case SingleMode(user) => if user.Some? then [user.value] else []
  }

  /** `[u for u in ids if u in keep]`. */
  function Within(ids: seq<int>, keep: set<int>): (r: seq<int>)
    ensures |r| <= |ids|
  {
    if ids == [] then []
    else Within(ids[..|ids| - 1], keep) + (if ids[|ids| - 1] in keep then [ids[|ids| - 1]] else [])
  }

  /** `[u for u in ids if u not in drop]`. */
  function Outside(ids: seq<int>, drop: set<int>): (r: seq<int>)
    ensures |r| <= |ids|
  {
    if ids == [] then []
    else Outside(ids[..|ids| - 1], drop) + (if ids[|ids| - 1] !in drop then [ids[|ids| - 1]] else [])
  }

  /** The item loop over the first lines: the first selected line whose price
      does not parse ends it with an error; lines with no group member on them
      are skipped whatever their price. */
  function Scan(lines: seq<ReceiptLine>, valid: set<int>): Result<seq<Item>, ReceiptError>
  {
    if lines == [] then Success([])
    else
      match Scan(lines[..|lines| - 1], valid)
      case Failure(e) => Failure(e)
      case Success(items) =>
        var line := lines[|lines| - 1];
        var members := Within(Chosen(line.assignment), valid);
        if members == [] then Success(items)
        else if line.price.None? then Failure(BadPrice(line.name))
        else Success(items + [Item(line.name, line.price.value, members)])
  }

  /** The whole selection step: the item loop, then the refusal of an empty selection. */
  function Selection(lines: seq<ReceiptLine>, valid: set<int>): Result<seq<Item>, ReceiptError>
  {
    match Scan(lines, valid)
    case Failure(e) => Failure(e)
    case Success(items) => if items == [] then Failure(NothingSelected) else Success(items)
  }

  /** The sum of the prices of some items. */
  function PriceSum(items: seq<Item>): real
  {
    if items == [] then 0.0 else PriceSum(items[..|items| - 1]) + items[|items| - 1].price
  }

  /** The set of elements of a list of ids. */
  function Elems(ids: seq<int>): set<int>
  {
    if ids == [] then {} else Elems(ids[..|ids| - 1]) + {ids[|ids| - 1]}
  }

  /** Every user who shares some item. */
  function Users(items: seq<Item>): set<int>
  {
    if items == [] then {} else Users(items[..|items| - 1]) + Elems(items[|items| - 1].selectedBy)
  }

  lemma {:induction false} ElemsIn(ids: seq<int>)
    ensures forall x :: x in Elems(ids) <==> x in ids
  {
    if ids != [] {
      ElemsIn(ids[..|ids| - 1]);
      assert ids == ids[..|ids| - 1] + [ids[|ids| - 1]];
    }
  }

  /** The member filter keeps exactly the listed ids that are members. */
  lemma {:induction false} WithinMembers(ids: seq<int>, keep: set<int>)
    ensures forall x :: x in Within(ids, keep) <==> x in ids && x in keep
  {
    if ids != [] {
      WithinMembers(ids[..|ids| - 1], keep);
      assert ids == ids[..|ids| - 1] + [ids[|ids| - 1]];
    }
  }

  /** The confirmed-user filter keeps exactly the listed ids that are not confirmed. */
  lemma {:induction false} OutsideMembers(ids: seq<int>, drop: set<int>)
    ensures forall x :: x in Outside(ids, drop) <==> x in ids && x !in drop
  {
    if ids != [] {
      OutsideMembers(ids[..|ids| - 1], drop);
      assert ids == ids[..|ids| - 1] + [ids[|ids| - 1]];
    }
  }

  /** The members among the listed ids, as a set. */
  lemma {:induction false} ElemsWithin(ids: seq<int>, keep: set<int>)
    ensures Elems(Within(ids, keep)) == Elems(ids) * keep
  {
    if ids != [] {
      var init := ids[..|ids| - 1];
      ElemsWithin(init, keep);
      var w := Within(init, keep);
      if ids[|ids| - 1] in keep {
        assert (w + [ids[|ids| - 1]])[..|w|] == w;
      } else {
        assert w + [] == w;
      }
    }
  }

  /** The unconfirmed among the listed ids, as a set. */
  lemma {:induction false} ElemsOutside(ids: seq<int>, drop: set<int>)
    ensures Elems(Outside(ids, drop)) == Elems(ids) - drop
  {
    if ids != [] {
      var init := ids[..|ids| - 1];
      ElemsOutside(init, drop);
      var w := Outside(init, drop);
      if ids[|ids| - 1] !in drop {
        assert (w + [ids[|ids| - 1]])[..|w|] == w;
      } else {
        assert w + [] == w;
      }
    }
  }

  /** Once the item loop has stopped on an error, later lines do not change it. */
  lemma {:induction false} ScanFailureStays(lines: seq<ReceiptLine>, i: nat, valid: set<int>)
    requires i <= |lines| && Scan(lines[..i], valid).Failure?
    ensures Scan(lines, valid) == Scan(lines[..i], valid)
  {
    if i < |lines| {
      assert lines[..|lines| - 1][..i] == lines[..i];
      ScanFailureStays(lines[..|lines| - 1], i, valid);
    } else {
      assert lines[..i] == lines;
    }
  }

  /** What the item loop keeps: every kept item is shared by at least one
      user, all of them group members (guests are dropped), and no more items
      are kept than there are lines. */
  lemma {:induction false} ScanKeepsMembers(lines: seq<ReceiptLine>, valid: set<int>)
    requires Scan(lines, valid).Success?
    ensures |Scan(lines, valid).value| <= |lines|
    ensures forall k :: 0 <= k < |Scan(lines, valid).value| ==>
      Scan(lines, valid).value[k].selectedBy != [] &&
      forall u :: u in Scan(lines, valid).value[k].selectedBy ==> u in valid
  {
    if lines != [] {
      var init := lines[..|lines| - 1];
      var line := lines[|lines| - 1];
      ScanKeepsMembers(init, valid);
      WithinMembers(Chosen(line.assignment), valid);
    }
  }

  /** Every user of a kept item is a group member. */
  lemma {:induction false} ScanUsers(lines: seq<ReceiptLine>, valid: set<int>)
    requires Scan(lines, valid).Success?
    ensures Users(Scan(lines, valid).value) <= valid
  {
    if lines != [] {
      var init := lines[..|lines| - 1];
      var line := lines[|lines| - 1];
      ScanUsers(init, valid);
      var members := Within(Chosen(line.assignment), valid);
      if members != [] && line.price.Some? {
        var items := Scan(init, valid).value;
        var next := items + [Item(line.name, line.price.value, members)];
        assert next[..|items|] == items;
        assert Scan(lines, valid).value == next;
        assert Users(next) == Users(items) + Elems(members);
        ElemsWithin(Chosen(line.assignment), valid);
      }
    }
  }

  /** The item loop fails exactly when some line assigned to a group member has
      a price that does not parse, and the error names such a line. */
  lemma {:induction false} ScanBadPrice(lines: seq<ReceiptLine>, valid: set<int>)
    ensures Scan(lines, valid).Success? <==>
      forall line :: line in lines && Within(Chosen(line.assignment), valid) != [] ==> line.price.Some?
    ensures Scan(lines, valid).Failure? ==> (
      Scan(lines, valid).error.BadPrice? &&
      exists line :: line in lines && line.name == Scan(lines, valid).error.item &&
        line.price.None? && Within(Chosen(line.assignment), valid) != [])
  {
    if lines != [] {
      var init := lines[..|lines| - 1];
      var line := lines[|lines| - 1];
      ScanBadPrice(init, valid);
      assert lines == init + [line];
    }
  }

  /** One more line of the item loop. */
  lemma ScanStep(lines: seq<ReceiptLine>, i: nat, valid: set<int>)
    requires i < |lines| && Scan(lines[..i], valid).Success?
    ensures Scan(lines[..i + 1], valid) == (
      var items := Scan(lines[..i], valid).value;
      var members := Within(Chosen(lines[i].assignment), valid);
      if members == [] then Success(items)
      else if lines[i].price.None? then Failure(BadPrice(lines[i].name))
      else Success(items + [Item(lines[i].name, lines[i].price.value, members)]))
  {
    assert lines[..i + 1][..i] == lines[..i];
  }

  lemma PriceSumAppend(items: seq<Item>, item: Item)
    ensures PriceSum(items + [item]) == PriceSum(items) + item.price
  {
    assert (items + [item])[..|items|] == items;
  }

  /** The selection step: the kept items and the sum of their prices, or the
      error that sends the form back. */
  method SelectItems(lines: seq<ReceiptLine>, valid: set<int>) returns (r: Result<seq<Item>, ReceiptError>, total: real)
    ensures r == Selection(lines, valid)
    ensures r.Success? ==> total == PriceSum(r.value)
  {
    var items: seq<Item> := [];
    total := 0.0;
    var i := 0;
    while i < |lines|
      invariant i <= |lines|
      invariant Scan(lines[..i], valid) == Success(items)
      invariant total == PriceSum(items)
    {
      var line := lines[i];
      ScanStep(lines, i, valid);
      var selectedBy := Chosen(line.assignment);
      if selectedBy != [] {
        var membersOnly := Within(selectedBy, valid);
        if membersOnly != [] {
          if line.price.None? {
            r := Failure(BadPrice(line.name));
            ScanFailureStays(lines, i + 1, valid);
            return;
          }
          var price := line.price.value;
          PriceSumAppend(items, Item(line.name, price, membersOnly));
          items := items + [Item(line.name, price, membersOnly)];
          total := total + price;
        }
      }
      i := i + 1;
    }
    assert lines[..i] == lines;
    if items == [] {
      r := Failure(NothingSelected);
    } else {
      r := Success(items);
    }
  }

  // ----- payments confirmed on the spot -----

  /** The confirmed payments by name (`confirmed_user_payments`): each key
      holding a `_` is split at its last `_` into a name and an amount, and
      when the amount parses as a number it is stored under the name; a later
      key for the same name replaces an earlier one. */
  function ConfirmedPayments(keys: seq<string>, parseFloat: string -> Option<real>): map<string, real>
  {
    if keys == [] then map[]
    else
      var key := keys[|keys| - 1];
      var before := ConfirmedPayments(keys[..|keys| - 1], parseFloat);
      if '_' in key && parseFloat(AfterLast(key, '_')).Some? then
        before[BeforeLast(key, '_') := parseFloat(AfterLast(key, '_')).value]
      else before
  }

  /** A name has a confirmed payment exactly when some key splits into it and
      a parsable amount. */
  lemma {:induction false} ConfirmedPaymentsNames(keys: seq<string>, parseFloat: string -> Option<real>)
    ensures forall name :: name in ConfirmedPayments(keys, parseFloat) <==>
      exists key :: key in keys && '_' in key && parseFloat(AfterLast(key, '_')).Some? && BeforeLast(key, '_') == name
  {
    if keys != [] {
      ConfirmedPaymentsNames(keys[..|keys| - 1], parseFloat);
      assert keys == keys[..|keys| - 1] + [keys[|keys| - 1]];
    }
  }

  /** A key built as `name + "_" + amount` records the amount under `name`
      even when the name itself holds underscores, provided the amount holds
      none and parses. */
  lemma NameWithUnderscores(name: string, amount: string, parseFloat: string -> Option<real>)
    requires '_' !in amount && parseFloat(amount).Some?
    ensures ConfirmedPayments([name + "_" + amount], parseFloat) == map[name := parseFloat(amount).value]
  {
    RSplitOfJoin(name, '_', amount);
    assert [name + "_" + amount][..0] == [];
  }

  /** The payment-key loop filling `confirmed_user_payments`. */
  method ParseConfirmedPayments(keys: seq<string>, parseFloat: string -> Option<real>)
    returns (payments: map<string, real>)
    ensures payments == ConfirmedPayments(keys, parseFloat)
  {
    payments := map[];
    var i := 0;
    while i < |keys|
      invariant i <= |keys|
      invariant payments == ConfirmedPayments(keys[..i], parseFloat)
    {
      var key := keys[i];
      assert keys[..i + 1][..i] == keys[..i];
      if '_' in key {
        var userName := BeforeLast(key, '_');
        var amountText := AfterLast(key, '_');
        var amount := parseFloat(amountText);
        if amount.Some? {
          payments := payments[userName := amount.value];
        }
      }
      i := i + 1;
    }
    assert keys[..i] == keys;
  }

  /** The ids of the members whose username has a confirmed payment. */
  function ConfirmedIds(members: seq<Member>, names: set<string>): set<int>
  {
    if members == [] then {}
    else
      var m := members[|members| - 1];
      ConfirmedIds(members[..|members| - 1], names) + (if m.username in names then {m.id} else {})
  }

  /** An id is confirmed exactly when some member with that id has a confirmed name. */
  lemma {:induction false} ConfirmedIdsMembers(members: seq<Member>, names: set<string>)
    ensures forall id :: id in ConfirmedIds(members, names) <==>
      exists m :: m in members && m.id == id && m.username in names
  {
    if members != [] {
      ConfirmedIdsMembers(members[..|members| - 1], names);
      assert members == members[..|members| - 1] + [members[|members| - 1]];
    }
  }

  /** The member loop collecting the ids of confirmed users. */
  method CollectConfirmedIds(members: seq<Member>, names: set<string>) returns (ids: set<int>)
    ensures ids == ConfirmedIds(members, names)
  {
    ids := {};
    var i := 0;
    while i < |members|
      invariant i <= |members|
      invariant ids == ConfirmedIds(members[..i], names)
    {
      assert members[..i + 1][..i] == members[..i];
      if members[i].username in names {
        ids := ids + {members[i].id};
      }
      i := i + 1;
    }
    assert members[..i] == members;
  }

  // ----- dropping confirmed users -----

  /** The items that still have an unpaid user, each shared by those users only. */
  function Strip(items: seq<Item>, confirmed: set<int>): seq<Item>
  {
    if items == [] then []
    else
      var item := items[|items| - 1];
      var remaining := Outside(item.selectedBy, confirmed);
      Strip(items[..|items| - 1], confirmed)
      + (if remaining != [] then [Item(item.name, item.price, remaining)] else [])
  }

  /** After the confirmed users are dropped, every item left is still shared by somebody. */
  lemma {:induction false} StripNonEmpty(items: seq<Item>, confirmed: set<int>)
    ensures forall k :: 0 <= k < |Strip(items, confirmed)| ==> Strip(items, confirmed)[k].selectedBy != []
  {
    if items != [] {
      StripNonEmpty(items[..|items| - 1], confirmed);
    }
  }

  /** Nobody confirmed shares an item any more, and everybody left shared it
      before. */
  lemma {:induction false} StripUsers(items: seq<Item>, confirmed: set<int>)
    ensures Users(Strip(items, confirmed)) == Users(items) - confirmed
  {
    if items != [] {
      var init := items[..|items| - 1];
      var item := items[|items| - 1];
      StripUsers(init, confirmed);
      var remaining := Outside(item.selectedBy, confirmed);
      ElemsOutside(item.selectedBy, confirmed);
      var s := Strip(init, confirmed);
      if remaining != [] {
        var next := s + [Item(item.name, item.price, remaining)];
        assert next[..|s|] == s;
        assert Strip(items, confirmed) == next;
        assert Users(next) == Users(s) + Elems(remaining);
      } else {
        assert Strip(items, confirmed) == s + [] == s;
        assert Elems(remaining) == {};
      }
    }
  }

  /** No item is left exactly when every user of every item has confirmed. */
  lemma StripEmpty(items: seq<Item>, confirmed: set<int>)
    ensures Strip(items, confirmed) == [] <==> Users(items) <= confirmed
  {
    StripUsers(items, confirmed);
    if Strip(items, confirmed) != [] {
      StripNonEmpty(items, confirmed);
      var it := Strip(items, confirmed)[0];
      assert it.selectedBy != [];
      var s := Strip(items, confirmed);
      UsersOf(s, 0);
      assert s[0] == it;
      var u := it.selectedBy[0];
      assert u in it.selectedBy;
      assert u in s[0].selectedBy;
      assert u in Users(s);
    } else {
      assert Users(items) - confirmed == {};
    }
  }

  /** The users of any one item are among the users. */
  lemma {:induction false} UsersOf(items: seq<Item>, k: nat)
    requires k < |items|
    ensures forall u :: u in items[k].selectedBy ==> u in Users(items)
  {
    if k < |items| - 1 {
      UsersOf(items[..|items| - 1], k);
    } else {
      ElemsIn(items[k].selectedBy);
    }
  }

  /** The filtering loop: the items left to charge and the sum of their prices
      (`actual_total_amount`). */
  method StripConfirmed(items: seq<Item>, confirmed: set<int>) returns (kept: seq<Item>, actualTotal: real)
    ensures kept == Strip(items, confirmed)
    ensures actualTotal == PriceSum(kept)
  {
    kept := [];
    actualTotal := 0.0;
    var i := 0;
    while i < |items|
      invariant i <= |items|
      invariant kept == Strip(items[..i], confirmed)
      invariant actualTotal == PriceSum(kept)
    {
      var item := items[i];
      assert items[..i + 1][..i] == items[..i];
      var remainingUsers := Outside(item.selectedBy, confirmed);
      if remainingUsers != [] {
        var next := Item(item.name, item.price, remainingUsers);
        assert (kept + [next])[..|kept|] == kept;
        kept := kept + [next];
        actualTotal := actualTotal + item.price;
      }
      i := i + 1;
    }
    assert items[..i] == items;
  }

  // ----- one expense share per user -----

  /** The share of an item each of its users owes: the price divided evenly. */
  function PerUser(item: Item): real
  {
    if item.selectedBy == [] then 0.0 else item.price / (|item.selectedBy| as real)
  }

  /** `user_shares[u] += share` for each listed user in turn. */
  function AddEach(d: seq<Entry>, users: seq<int>, share: real): seq<Entry>
  {
    if users == [] then d else Add(AddEach(d, users[..|users| - 1], share), users[|users| - 1], share)
  }

  /** The per-user totals built over the items, in the order users first appear. */
  function UserShares(items: seq<Item>): seq<Entry>
  {
    if items == [] then []
    else
      var item := items[|items| - 1];
      AddEach(UserShares(items[..|items| - 1]), item.selectedBy, PerUser(item))
  }

  /** How many times `x` is listed. */
  function Count(users: seq<int>, x: int): nat
  {
    if users == [] then 0
    else Count(users[..|users| - 1], x) + (if users[|users| - 1] == x then 1 else 0)
  }

  /** What one user owes over all items: one share per time they are listed on an item. */
  function OwedBy(items: seq<Item>, x: int): real
  {
    if items == [] then 0.0
    else
      var item := items[|items| - 1];
      OwedBy(items[..|items| - 1], x) + Repeat(Count(item.selectedBy, x), PerUser(item))
  }

  /** Adding one share per listed user keeps the keys distinct. */
  lemma {:induction false} AddEachDistinct(d: seq<Entry>, users: seq<int>, share: real)
    requires DistinctKeys(d)
    ensures DistinctKeys(AddEach(d, users, share))
  {
    if users != [] {
      AddEachDistinct(d, users[..|users| - 1], share);
      AddDistinct(AddEach(d, users[..|users| - 1], share), users[|users| - 1], share);
    }
  }

  /** Adding one share per listed user adds exactly the listed users as keys. */
  lemma {:induction false} AddEachKeys(d: seq<Entry>, users: seq<int>, share: real)
    ensures Keys(AddEach(d, users, share)) == Keys(d) + Elems(users)
  {
    if users != [] {
      AddEachKeys(d, users[..|users| - 1], share);
      AddKeys(AddEach(d, users[..|users| - 1], share), users[|users| - 1], share);
    }
  }

  /** `n` shares of the same size added up. */
  function Repeat(n: nat, share: real): real
  {
    if n == 0 then 0.0 else Repeat(n - 1, share) + share
  }

  /** `n` equal shares add up to `n` times the share. */
  lemma {:induction false} RepeatIsProduct(n: nat, share: real)
    ensures Repeat(n, share) == (n as real) * share
  {
    if n > 0 {
      RepeatIsProduct(n - 1, share);
    }
  }

  /** Adding one share per listed user raises each user's value by one share per listing. */
  lemma {:induction false} AddEachGet(d: seq<Entry>, users: seq<int>, share: real, x: int)
    ensures Get(AddEach(d, users, share), x) == Get(d, x) + Repeat(Count(users, x), share)
  {
    if users != [] {
      var init := users[..|users| - 1];
      var u := users[|users| - 1];
      AddEachGet(d, init, share, x);
      AddGet(AddEach(d, init, share), u, share);
    }
  }

  /** Adding one share per listed user raises the total by one share per listing. */
  lemma {:induction false} AddEachTotal(d: seq<Entry>, users: seq<int>, share: real)
    ensures Total(AddEach(d, users, share)) == Total(d) + Repeat(|users|, share)
  {
    if users != [] {
      var init := users[..|users| - 1];
      AddEachTotal(d, init, share);
      AddTotal(AddEach(d, init, share), users[|users| - 1], share);
    }
  }

  /** Dividing a price evenly among its users and adding the shares back gives the price. */
  lemma EvenSplit(item: Item)
    requires item.selectedBy != []
    ensures Repeat(|item.selectedBy|, PerUser(item)) == item.price
  {
    RepeatIsProduct(|item.selectedBy|, PerUser(item));
  }

  /** The aggregated shares hold one entry per user: exactly the users of the items. */
  lemma {:induction false} UserSharesKeys(items: seq<Item>)
    ensures DistinctKeys(UserShares(items))
    ensures Keys(UserShares(items)) == Users(items)
  {
    if items != [] {
      var init := items[..|items| - 1];
      var item := items[|items| - 1];
      UserSharesKeys(init);
      AddEachDistinct(UserShares(init), item.selectedBy, PerUser(item));
      AddEachKeys(UserShares(init), item.selectedBy, PerUser(item));
    }
  }

  /** Each user's aggregated share is what that user owes over all items. */
  lemma {:induction false} UserSharesGet(items: seq<Item>, x: int)
    ensures Get(UserShares(items), x) == OwedBy(items, x)
  {
    if items != [] {
      var init := items[..|items| - 1];
      var item := items[|items| - 1];
      UserSharesGet(init, x);
      AddEachGet(UserShares(init), item.selectedBy, PerUser(item), x);
    }
  }

  /** When every item is shared by someone, the aggregated shares add up to
      the price of all items together. */
  lemma {:induction false} UserSharesTotal(items: seq<Item>)
    requires forall k :: 0 <= k < |items| ==> items[k].selectedBy != []
    ensures Total(UserShares(items)) == PriceSum(items)
  {
    if items != [] {
      var init := items[..|items| - 1];
      var item := items[|items| - 1];
      UserSharesTotal(init);
      AddEachTotal(UserShares(init), item.selectedBy, PerUser(item));
      EvenSplit(item);
    }
  }

  /** The nested loop filling `user_shares`. */
  method AggregateShares(items: seq<Item>) returns (userShares: seq<Entry>)
    ensures userShares == UserShares(items)
  {
    userShares := [];
    var i := 0;
    while i < |items|
      invariant i <= |items|
      invariant userShares == UserShares(items[..i])
    {
      var item := items[i];
      assert items[..i + 1][..i] == items[..i];
      var individualShare := PerUser(item);
      ghost var before := userShares;
      var k := 0;
      while k < |item.selectedBy|
        invariant k <= |item.selectedBy|
        invariant userShares == AddEach(before, item.selectedBy[..k], individualShare)
      {
        assert item.selectedBy[..k + 1][..k] == item.selectedBy[..k];
        userShares := Add(userShares, item.selectedBy[k], individualShare);
        k := k + 1;
      }
      assert item.selectedBy[..k] == item.selectedBy;
      i := i + 1;
    }
    assert items[..i] == items;
  }

  // ----- the whole submission -----

  /** What submitting the item selection amounts to. */
  function Apportion(lines: seq<ReceiptLine>, valid: set<int>, confirmedKeys: seq<string>,
                     parseFloat: string -> Option<real>, members: seq<Member>, payer: int): Result<Outcome, ReceiptError>
  {
    match Selection(lines, valid)
    case Failure(e) => Failure(e)
    case Success(items) =>
      var kept := Strip(items, ConfirmedIds(members, ConfirmedPayments(confirmedKeys, parseFloat).Keys));
      if kept == [] then Success(AllConfirmed)
      else Success(Expense(payer, PriceSum(kept), UserShares(kept)))
  }

  /** The guarantees of a submission. It fails exactly when the selection
      fails. Nothing is recorded exactly when every user on every selected
      item has confirmed a payment. Otherwise the expense is paid by the bill
      payer, its shares name each unpaid group member once, nobody who
      confirmed a payment, and they add up to the amount of the expense,
      which is the price of the items still owed. */
  lemma ApportionFacts(lines: seq<ReceiptLine>, valid: set<int>, confirmedKeys: seq<string>,
                       parseFloat: string -> Option<real>, members: seq<Member>, payer: int)
    ensures Apportion(lines, valid, confirmedKeys, parseFloat, members, payer).Failure? <==>
      Selection(lines, valid).Failure?
    ensures Selection(lines, valid).Success? ==> (
      var confirmed := ConfirmedIds(members, ConfirmedPayments(confirmedKeys, parseFloat).Keys);
      var outcome := Apportion(lines, valid, confirmedKeys, parseFloat, members, payer).value;
      (outcome.AllConfirmed? <==> Users(Selection(lines, valid).value) <= confirmed) &&
      (outcome.Expense? ==>
        outcome.payer == payer &&
        DistinctKeys(outcome.shares) &&
        Keys(outcome.shares) == Users(Selection(lines, valid).value) - confirmed &&
        Keys(outcome.shares) <= valid &&
        Total(outcome.shares) == outcome.amount))
  {
    if Selection(lines, valid).Success? {
      var items := Selection(lines, valid).value;
      var confirmed := ConfirmedIds(members, ConfirmedPayments(confirmedKeys, parseFloat).Keys);
      ScanUsers(lines, valid);
      StripUsers(items, confirmed);
      StripEmpty(items, confirmed);
      StripNonEmpty(items, confirmed);
      UserSharesKeys(Strip(items, confirmed));
      UserSharesTotal(Strip(items, confirmed));
    }
  }

  // The pizza scenario below, one step at a time.

  lemma PizzaSelected()
    ensures Selection([ReceiptLine("Pizza", Some(20.0), SplitMode([2, 3]))], {2, 3})
      == Success([Item("Pizza", 20.0, [2, 3])])
  {
    var lines := [ReceiptLine("Pizza", Some(20.0), SplitMode([2, 3]))];
    assert Within([2, 3], {2, 3}) == [2, 3] by {
      assert [2, 3][..1] == [2];
      assert [2][..0] == [];
    }
    assert lines[..|lines| - 1] == [];
    assert Scan(lines[..|lines| - 1], {2, 3}) == Success([]);
    assert Chosen(lines[|lines| - 1].assignment) == [2, 3];
    assert Scan(lines, {2, 3}) == Success([] + [Item("Pizza", 20.0, [2, 3])]);
    assert [] + [Item("Pizza", 20.0, [2, 3])] == [Item("Pizza", 20.0, [2, 3])];
  }

  lemma PizzaPaidByB(parseFloat: string -> Option<real>)
    requires parseFloat("10.00") == Some(10.0)
    ensures ConfirmedPayments(["B_10.00"], parseFloat).Keys == {"B"}
  {
    NameWithUnderscores("B", "10.00", parseFloat);
    assert "B" + "_" + "10.00" == "B_10.00";
  }

  lemma PizzaConfirmed()
    ensures ConfirmedIds([Member(2, "B"), Member(3, "C")], {"B"}) == {2}
  {
    var members := [Member(2, "B"), Member(3, "C")];
    assert members[..|members| - 1] == [Member(2, "B")];
    assert [Member(2, "B")][..0] == [];
    assert ConfirmedIds([Member(2, "B")], {"B"}) == {2};
    assert "C" !in {"B"};
  }

  lemma PizzaKept()
    ensures Strip([Item("Pizza", 20.0, [2, 3])], {2}) == [Item("Pizza", 20.0, [3])]
  {
    assert Outside([2, 3], {2}) == [3] by {
      assert [2, 3][..1] == [2];
      assert [2][..0] == [];
    }
    var items := [Item("Pizza", 20.0, [2, 3])];
    assert items[..0] == [];
  }

  lemma PizzaShares()
    ensures UserShares([Item("Pizza", 20.0, [3])]) == [(3, 20.0)]
    ensures PriceSum([Item("Pizza", 20.0, [3])]) == 20.0
  {
    var kept := [Item("Pizza", 20.0, [3])];
    assert kept[..0] == [];
    assert [3][..0] == [];
    assert PerUser(kept[0]) == 20.0;
    assert AddEach([], [3], 20.0) == Add([], 3, 20.0) == [(3, 20.0)];
  }

  /** A pizza for 20 shared by members 2 ("B") and 3 ("C"), with B's payment
      of 10.00 confirmed on the spot: C alone owes the whole 20. */
  lemma ConfirmedPaymentMovesShare()
    ensures Apportion([ReceiptLine("Pizza", Some(20.0), SplitMode([2, 3]))], {2, 3}, ["B_10.00"],
                      s => if s == "10.00" then Some(10.0) else None,
                      [Member(2, "B"), Member(3, "C")], 1)
      == Success(Expense(1, 20.0, [(3, 20.0)]))
  {
    var parseFloat: string -> Option<real> := s => if s == "10.00" then Some(10.0) else None;
    PizzaSelected();
    PizzaPaidByB(parseFloat);
    PizzaConfirmed();
    PizzaKept();
    PizzaShares();
  }

  /** The item-selection handler from the submitted form to the outcome. */
  method ApportionReceipt(lines: seq<ReceiptLine>, valid: set<int>, confirmedKeys: seq<string>,
                          parseFloat: string -> Option<real>, members: seq<Member>, payer: int)
    returns (r: Result<Outcome, ReceiptError>)
    ensures r == Apportion(lines, valid, confirmedKeys, parseFloat, members, payer)
  {
    var selected, totalAmount := SelectItems(lines, valid);
    if selected.Failure? {
      return Failure(selected.error);
    }
    var payments := ParseConfirmedPayments(confirmedKeys, parseFloat);
    var confirmedUserIds := CollectConfirmedIds(members, payments.Keys);
    var filtered, actualTotalAmount := StripConfirmed(selected.value, confirmedUserIds);
    if filtered == [] {
      return Success(AllConfirmed);
    }
    var userShares := AggregateShares(filtered);
    r := Success(Expense(payer, actualTotalAmount, userShares));
  }
}
