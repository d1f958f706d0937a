/**
 * The first half of the editor's "calculate" action: every person starts at
 * zero and each item's cost is debited in equal shares to the people it is
 * assigned to, or to everyone when it is assigned to nobody. Nobody is ever
 * credited, so every balance ends at or below zero.
 */
module BillBalances {
  import opened BillCreator

  /** `item.price * item.quantity` */
  function ItemCost(item: BillItem): real
  {
    item.price * item.quantity as real
  }

  /** The bill total shown by the editor: the sum of all item costs; positive items give a positive total. */
  function BillTotal(items: seq<BillItem>): (t: real)
    ensures (forall k :: 0 <= k < |items| ==> ValidItem(items[k])) ==> t >= 0.0
    ensures (forall k :: 0 <= k < |items| ==> ValidItem(items[k])) && items != [] ==> t > 0.0
  {
    if items == [] then 0.0
    else
      assert ValidItem(items[0]) ==> ItemCost(items[0]) > 0.0 by {
        if ValidItem(items[0]) { PositiveCost(items[0]); }
      }
      ItemCost(items[0]) + BillTotal(items[1..])
  }

  lemma PositiveCost(item: BillItem)
    requires ValidItem(item)
    ensures ItemCost(item) > 0.0
  {
    assert item.quantity as real > 0.0;
  }

  /** `items.reduce((sum, item) => sum + item.price * item.quantity, acc)` */
  function ReduceTotal(acc: real, items: seq<BillItem>): (r: real)
    ensures (forall k :: 0 <= k < |items| ==> ValidItem(items[k])) ==> r >= acc
    decreases items
  {
    if items == [] then acc else ReduceTotal(acc + ItemCost(items[0]), items[1..])
  }

  /** The left fold of the editor's `reduce` adds up to the same total. */
  lemma {:induction false} ReduceIsTotal(acc: real, items: seq<BillItem>)
    ensures ReduceTotal(acc, items) == acc + BillTotal(items)
    decreases items
  {
    if items != [] {
      ReduceIsTotal(acc + ItemCost(items[0]), items[1..]);
    }
  }

  /** Who shares an item's cost: its assignees, or everyone when it has none. */
  function Group(users: seq<User>, item: BillItem): seq<User>
  {
    if |item.assignedUsers| == 0 then users else item.assignedUsers
  }

  /** The editor only assigns people from its list, and there is someone to split among whenever there are items. */
  predicate ItemsFit(users: seq<User>, items: seq<BillItem>)
  {
    && (forall k, m :: 0 <= k < |items| && 0 <= m < |items[k].assignedUsers| ==> items[k].assignedUsers[m].id in Ids(users))
    && (|items| > 0 ==> |users| > 0)
  }

  /** Every person of the list has a balance. */
  predicate Covers(b: map<string, real>, users: seq<User>)
  {
    forall k :: 0 <= k < |users| ==> users[k].id in b
  }

  /** Every balance starts at zero. */
  function InitialBalances(users: seq<User>): (b: map<string, real>)
    ensures Covers(b, users)
    ensures forall x :: x in b ==> x in Ids(users) && b[x] == 0.0
  {
    map x | x in Ids(users) :: 0.0
  }

  /** Subtract `share` from the balance of each member of `group`, in order. */
  function Debit(b: map<string, real>, group: seq<User>, share: real): (r: map<string, real>)
    requires Covers(b, group)
    ensures r.Keys == b.Keys
  {
    if group == [] then b else Debit(b[group[0].id := b[group[0].id] - share], group[1..], share)
  }

  /** One item's debits. */
  function ApplyItem(b: map<string, real>, users: seq<User>, item: BillItem): (r: map<string, real>)
    requires Covers(b, Group(users, item)) && |Group(users, item)| > 0
    ensures r.Keys == b.Keys
  {
    Debit(b, Group(users, item), ItemCost(item) / |Group(users, item)| as real)
  }

  /** Every item's debits, first item first. */
  function ApplyItems(b: map<string, real>, users: seq<User>, items: seq<BillItem>): (r: map<string, real>)
    requires Covers(b, users) && ItemsFit(users, items)
    ensures r.Keys == b.Keys
  {
    if items == [] then b
    else
      ItemGroupCovered(b, users, items, 0);
      ApplyItems(ApplyItem(b, users, items[0]), users, items[1..])
  }

  lemma ItemGroupCovered(b: map<string, real>, users: seq<User>, items: seq<BillItem>, k: nat)
    requires Covers(b, users) && ItemsFit(users, items) && k < |items|
    ensures Covers(b, Group(users, items[k])) && |Group(users, items[k])| > 0
    ensures ItemsFit(users, items[k + 1..])
  {
    forall m | 0 <= m < |items[k].assignedUsers| ensures items[k].assignedUsers[m].id in b {
      var x := items[k].assignedUsers[m].id;
      assert x in Ids(users);
      var n :| 0 <= n < |users| && Ids(users)[n] == x;
    }
  }

  /** The balances the calculation starts its matching from. */
  function Balances(users: seq<User>, items: seq<BillItem>): (b: map<string, real>)
    requires ItemsFit(users, items)
    ensures Covers(b, users)
    ensures forall x :: x in b <==> x in Ids(users)
  {
    ApplyItems(InitialBalances(users), users, items)
  }

  /** How often x occurs in ids. */
  function Count(ids: seq<string>, x: string): nat
  {
    if ids == [] then 0 else (if ids[0] == x then 1 else 0) + Count(ids[1..], x)
  }

  /** `share` added up n times. */
  function Times(share: real, n: nat): real
  {
    if n == 0 then 0.0 else Times(share, n - 1) + share
  }

  lemma {:induction false} TimesProduct(share: real, n: nat)
    ensures Times(share, n) == share * n as real
  {
    if n > 0 {
      TimesProduct(share, n - 1);
      Distribute(share, (n - 1) as real);
    }
  }

  /** Each member of the group loses `share` once per time it is listed; everyone else keeps their balance. */
  lemma {:induction false} DebitAt(b: map<string, real>, group: seq<User>, share: real, x: string)
    requires Covers(b, group) && x in b
    ensures Debit(b, group, share)[x] == b[x] - Times(share, Count(Ids(group), x))
  {
    if group != [] {
      var b' := b[group[0].id := b[group[0].id] - share];
      DebitAt(b', group[1..], share, x);
      assert Ids(group)[1..] == Ids(group[1..]);
    }
  }

  lemma {:induction false} CountDistinct(ids: seq<string>, x: string)
    requires Distinct(ids)
    ensures Count(ids, x) == if x in ids then 1 else 0
  {
    if ids != [] {
      CountDistinct(ids[1..], x);
      assert ids[0] !in ids[1..];
      assert x in ids <==> x == ids[0] || x in ids[1..];
    }
  }

  /**
   * An item with cost c and a group of k distinct people takes c / k from each
   * of them and leaves everybody else's balance as it was.
   */
  lemma ItemDebitsEachMember(b: map<string, real>, users: seq<User>, item: BillItem, x: string)
    requires Covers(b, Group(users, item)) && |Group(users, item)| > 0
    requires Distinct(Ids(Group(users, item))) && x in b
    ensures x in Ids(Group(users, item)) ==>
              ApplyItem(b, users, item)[x] == b[x] - ItemCost(item) / |Group(users, item)| as real
    ensures x !in Ids(Group(users, item)) ==> ApplyItem(b, users, item)[x] == b[x]
  {
    DebitAt(b, Group(users, item), ItemCost(item) / |Group(users, item)| as real, x);
    CountDistinct(Ids(Group(users, item)), x);
  }

  /** A non-negative share never raises a balance. */
  lemma {:induction false} DebitLowers(b: map<string, real>, group: seq<User>, share: real)
    requires Covers(b, group) && share >= 0.0
    ensures forall x :: x in b ==> Debit(b, group, share)[x] <= b[x]
  {
    if group != [] {
      DebitLowers(b[group[0].id := b[group[0].id] - share], group[1..], share);
    }
  }

  lemma {:induction false} ApplyItemsLowers(b: map<string, real>, users: seq<User>, items: seq<BillItem>)
    requires Covers(b, users) && ItemsFit(users, items)
    requires forall k :: 0 <= k < |items| ==> ItemCost(items[k]) >= 0.0
    ensures forall x :: x in b ==> ApplyItems(b, users, items)[x] <= b[x]
  {
    if items != [] {
      ItemGroupCovered(b, users, items, 0);
      var g := Group(users, items[0]);
      DebitLowers(b, g, ItemCost(items[0]) / |g| as real);
      ApplyItemsLowers(ApplyItem(b, users, items[0]), users, items[1..]);
    }
  }

  /** With non-negative item costs (which the add form guarantees), nobody ends above zero. */
  lemma BalancesNonPositive(users: seq<User>, items: seq<BillItem>)
    requires ItemsFit(users, items)
    requires forall k :: 0 <= k < |items| ==> ItemCost(items[k]) >= 0.0
    ensures forall x :: x in Balances(users, items) ==> Balances(users, items)[x] <= 0.0
  {
    ApplyItemsLowers(InitialBalances(users), users, items);
  }

  /** Sum of the balances of the listed ids. */
  function SumOver(ids: seq<string>, b: map<string, real>): real
    requires forall k :: 0 <= k < |ids| ==> ids[k] in b
  {
    if ids == [] then 0.0 else b[ids[0]] + SumOver(ids[1..], b)
  }

  lemma {:induction false} SumOverUpdate(ids: seq<string>, b: map<string, real>, x: string, v: real)
    requires forall k :: 0 <= k < |ids| ==> ids[k] in b
    requires Distinct(ids) && x in b
    ensures SumOver(ids, b[x := v]) == SumOver(ids, b) + (if x in ids then v - b[x] else 0.0)
  {
    if ids != [] {
      SumOverUpdate(ids[1..], b, x, v);
      assert ids[0] !in ids[1..];
      assert x in ids <==> x == ids[0] || x in ids[1..];
    }
  }

  lemma {:induction false} DebitSum(ids: seq<string>, b: map<string, real>, group: seq<User>, share: real)
    requires forall k :: 0 <= k < |ids| ==> ids[k] in b
    requires Distinct(ids) && Covers(b, group)
    requires forall k :: 0 <= k < |group| ==> group[k].id in ids
    ensures SumOver(ids, Debit(b, group, share)) == SumOver(ids, b) - Times(share, |group|)
  {
    if group != [] {
      var x := group[0].id;
      var b' := b[x := b[x] - share];
      assert SumOver(ids, b') == SumOver(ids, b) - share by {
        assert x in ids by { assert group[0].id in ids; }
        SumOverUpdate(ids, b, x, b[x] - share);
      }
      DebitSum(ids, b', group[1..], share);
    }
  }

  lemma Distribute(share: real, n: real)
    ensures share * (n + 1.0) == share * n + share
  {
  }

  lemma {:induction false} ApplyItemsSum(b: map<string, real>, users: seq<User>, items: seq<BillItem>)
    requires Covers(b, users) && ItemsFit(users, items) && Distinct(Ids(users))
    ensures SumOver(Ids(users), ApplyItems(b, users, items)) == SumOver(Ids(users), b) - BillTotal(items)
  {
    if items != [] {
      ItemGroupCovered(b, users, items, 0);
      var b1 := ApplyItem(b, users, items[0]);
      assert SumOver(Ids(users), b1) == SumOver(Ids(users), b) - ItemCost(items[0]) by {
        assert forall m :: 0 <= m < |items[0].assignedUsers| ==> items[0].assignedUsers[m].id in Ids(users);
        ApplyItemSum(b, users, items[0]);
      }
      assert SumOver(Ids(users), ApplyItems(b1, users, items[1..]))
             == SumOver(Ids(users), b1) - BillTotal(items[1..]) by {
        ApplyItemsSum(b1, users, items[1..]);
      }
      assert ApplyItems(b, users, items) == ApplyItems(b1, users, items[1..]);
    }
  }

  /** One item lowers the sum of the balances by exactly its cost. */
  lemma ApplyItemSum(b: map<string, real>, users: seq<User>, item: BillItem)
    requires Covers(b, users) && Distinct(Ids(users))
    requires Covers(b, Group(users, item)) && |Group(users, item)| > 0
    requires forall m :: 0 <= m < |item.assignedUsers| ==> item.assignedUsers[m].id in Ids(users)
    ensures SumOver(Ids(users), ApplyItem(b, users, item)) == SumOver(Ids(users), b) - ItemCost(item)
  {
    var g := Group(users, item);
    var n := |g| as real;
    forall k | 0 <= k < |g| ensures g[k].id in Ids(users) {
      if |item.assignedUsers| == 0 {
        assert Ids(users)[k] == g[k].id;
      }
    }
    DebitSum(Ids(users), b, g, ItemCost(item) / n);
    TimesProduct(ItemCost(item) / n, |g|);
    SharesAddUp(ItemCost(item), n);
  }

  lemma SharesAddUp(cost: real, n: real)
    requires n > 0.0
    ensures cost / n * n == cost
  {
  }

  lemma {:induction false} SumOverZero(ids: seq<string>, b: map<string, real>)
    requires forall k :: 0 <= k < |ids| ==> ids[k] in b && b[ids[k]] == 0.0
    ensures SumOver(ids, b) == 0.0
  {
    if ids != [] {
      SumOverZero(ids[1..], b);
    }
  }

  /** The balances add up to minus the bill total: every item's cost is debited in full, and nothing is credited. */
  lemma BalancesSum(users: seq<User>, items: seq<BillItem>)
    requires ItemsFit(users, items) && Distinct(Ids(users))
    ensures SumOver(Ids(users), Balances(users, items)) == -BillTotal(items)
  {
    var b0 := InitialBalances(users);
    SumOverZero(Ids(users), b0);
    ApplyItemsSum(b0, users, items);
  }

  /** The balance loops of the calculation: initialise every person to zero, then debit item by item. */
  method ComputeBalances(users: seq<User>, items: seq<BillItem>) returns (balances: map<string, real>)
    requires ItemsFit(users, items)
    ensures balances == Balances(users, items)
  {
    balances := map[];
    for k := 0 to |users|
      invariant balances == InitialBalances(users[..k])
    {
      assert Ids(users[..k + 1]) == Ids(users[..k]) + [users[k].id];
      balances := balances[users[k].id := 0.0];
    }
    assert users[..|users|] == users;
    for n := 0 to |items|
      invariant Covers(balances, users) && ItemsFit(users, items[n..])
      invariant ApplyItems(balances, users, items[n..]) == Balances(users, items)
    {
      assert items[n..][0] == items[n] && items[n..][1..] == items[n + 1..];
      ItemGroupCovered(balances, users, items[n..], 0);
      ghost var before := balances;
      var item := items[n];
      var totalItemCost := ItemCost(item);
      var group := if |item.assignedUsers| == 0 then users else item.assignedUsers;
      assert group == Group(users, item);
      balances := DebitEach(balances, group, totalItemCost / |group| as real);
      assert balances == ApplyItem(before, users, item);
    }
  }

  /** `group.forEach(user => { userBalances[user.id] -= costPerPerson })` */
  method DebitEach(b: map<string, real>, group: seq<User>, costPerPerson: real) returns (balances: map<string, real>)
    requires Covers(b, group)
    ensures balances == Debit(b, group, costPerPerson)
  {
    balances := b;
    assert group[0..] == group;
    for m := 0 to |group|
      invariant Covers(balances, group[m..])
      invariant Debit(balances, group[m..], costPerPerson) == Debit(b, group, costPerPerson)
    {
      assert group[m..][0] == group[m] && group[m..][1..] == group[m + 1..];
      balances := balances[group[m].id := balances[group[m].id] - costPerPerson];
    }
  }
}
