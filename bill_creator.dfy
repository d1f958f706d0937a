/**
 * The bill editor's data and its list handlers: adding, deleting and editing
 * items, adding people, and toggling who shares an item. Each handler builds
 * the next list from the current one, as the editor hands it to its state
 * setter; error results stand for the editor's error notices, after which
 * the lists stay as they were.
 */
module BillCreator {
  import opened Wrappers
  import Text
  import Seqs

  datatype User = User(id: string, name: string)

  /** One line of the bill; an empty `assignedUsers` means "split among everyone". */
  datatype BillItem = BillItem(id: string, name: string, price: real, quantity: int, assignedUsers: seq<User>)

  /** A settlement transfer as the editor records it. */
  datatype Payment = Payment(from: User, to: User, amount: real)

  function Ids(us: seq<User>): (ids: seq<string>)
    ensures |ids| == |us| && forall k :: 0 <= k < |us| ==> ids[k] == us[k].id
  {
    seq(|us|, k requires 0 <= k < |us| => us[k].id)
  }

  function ItemIds(items: seq<BillItem>): (ids: seq<string>)
    ensures |ids| == |items| && forall k :: 0 <= k < |items| ==> ids[k] == items[k].id
  {
    seq(|items|, k requires 0 <= k < |items| => items[k].id)
  }

  predicate Distinct(ids: seq<string>)
  {
    forall p, q :: 0 <= p < q < |ids| ==> ids[p] != ids[q]
  }

  /** What the add form admits: a positive price and a positive quantity. */
  predicate ValidItem(it: BillItem)
  {
    it.price > 0.0 && it.quantity > 0
  }

  // ---------------------------------------------------------------- adding items

  datatype AddItemError = MissingNameOrPrice | InvalidPrice | InvalidQuantity

  /**
   * `handleAddItem`. `priceText` is the price field as typed; `price` and
   * `quantity` are what `parseFloat` and `parseInt` made of the two fields,
   * `None` standing for NaN.
   */
  function AddItem(items: seq<BillItem>, name: string, priceText: string, price: Option<real>,
                   quantity: Option<int>, newId: string): (r: Result<seq<BillItem>, AddItemError>)
    ensures name == "" || priceText == "" ==> r == Failure(MissingNameOrPrice)
    ensures name != "" && priceText != "" && (price.None? || price.value <= 0.0) ==> r == Failure(InvalidPrice)
    ensures name != "" && priceText != "" && price.Some? && price.value > 0.0 && (quantity.None? || quantity.value <= 0)
            ==> r == Failure(InvalidQuantity)
    ensures r.Success? <==> name != "" && priceText != "" && price.Some? && price.value > 0.0
                            && quantity.Some? && quantity.value > 0
    ensures r.Success? ==> |r.value| == |items| + 1 && r.value[..|items|] == items
                           && r.value[|items|] == BillItem(newId, name, price.value, quantity.value, [])
    ensures r.Success? && (forall k :: 0 <= k < |items| ==> ValidItem(items[k]))
            ==> forall k :: 0 <= k < |r.value| ==> ValidItem(r.value[k])
  {
    if name == "" || priceText == "" then Failure(MissingNameOrPrice)
    else if price.None? || price.value <= 0.0 then Failure(InvalidPrice)
    else if quantity.None? || quantity.value <= 0 then Failure(InvalidQuantity)
    else Success(items + [BillItem(newId, name, price.value, quantity.value, [])])
  }

  // ---------------------------------------------------------------- adding people

  datatype AddUserError = MissingName | DuplicateName

  /** Some person already has this name, ignoring letter case. */
  predicate NameTaken(users: seq<User>, name: string)
  {
    exists k :: 0 <= k < |users| && Text.Lower(users[k].name) == Text.Lower(name)
  }

  /** No two people's names are equal ignoring letter case. */
  predicate NamesDistinct(users: seq<User>)
  {
    forall p, q :: 0 <= p < q < |users| ==> Text.Lower(users[p].name) != Text.Lower(users[q].name)
  }

  /** `handleAddUser`; `newId` is the fresh id the editor generates. */
  function AddUser(users: seq<User>, name: string, newId: string): (r: Result<seq<User>, AddUserError>)
    ensures name == "" ==> r == Failure(MissingName)
    ensures name != "" && NameTaken(users, name) ==> r == Failure(DuplicateName)
    ensures r.Success? <==> name != "" && !NameTaken(users, name)
    ensures r.Success? ==> r.value == users + [User(newId, name)]
  {
    if name == "" then Failure(MissingName)
    else if NameTaken(users, name) then Failure(DuplicateName)
    else Success(users + [User(newId, name)])
  }

  /** Adding people keeps names distinct ignoring case. */
  lemma AddUserKeepsNamesDistinct(users: seq<User>, name: string, newId: string)
    requires NamesDistinct(users)
    ensures AddUser(users, name, newId).Success? ==> NamesDistinct(AddUser(users, name, newId).value)
  {
    if AddUser(users, name, newId).Success? {
      var r := AddUser(users, name, newId).value;
      forall p, q | 0 <= p < q < |r| ensures Text.Lower(r[p].name) != Text.Lower(r[q].name) {
        if q == |users| {
          assert r[p] == users[p];
        }
      }
    }
  }

  /** Adding a person under a fresh id keeps ids distinct. */
  lemma AddUserKeepsIdsDistinct(users: seq<User>, name: string, newId: string)
    requires Distinct(Ids(users)) && newId !in Ids(users)
    ensures AddUser(users, name, newId).Success? ==> Distinct(Ids(AddUser(users, name, newId).value))
  {
    if AddUser(users, name, newId).Success? {
      var r := AddUser(users, name, newId).value;
      forall p, q | 0 <= p < q < |r| ensures Ids(r)[p] != Ids(r)[q] {
        assert r[p] == users[p] && Ids(users)[p] == users[p].id;
        if q < |users| {
          assert r[q] == users[q] && Ids(users)[q] == users[q].id;
        }
      }
    }
  }

  /** Adding an item under a fresh id keeps item ids distinct. */
  lemma AddItemKeepsIdsDistinct(items: seq<BillItem>, name: string, priceText: string, price: Option<real>,
                                quantity: Option<int>, newId: string)
    requires Distinct(ItemIds(items)) && newId !in ItemIds(items)
    ensures var r := AddItem(items, name, priceText, price, quantity, newId);
      r.Success? ==> Distinct(ItemIds(r.value))
  {
    var r := AddItem(items, name, priceText, price, quantity, newId);
    if r.Success? {
      var v := r.value;
      forall p, q | 0 <= p < q < |v| ensures ItemIds(v)[p] != ItemIds(v)[q] {
        assert v[p] == items[p] && ItemIds(items)[p] == items[p].id;
        if q < |items| {
          assert v[q] == items[q] && ItemIds(items)[q] == items[q].id;
        }
      }
    }
  }

  // ---------------------------------------------------------------- deleting and editing items

  /** `handleDeleteItem` */
  function DeleteItem(items: seq<BillItem>, id: string): (r: seq<BillItem>)
    ensures forall it :: it in r <==> it in items && it.id != id
  {
    Seqs.Without(items, (it: BillItem) => it.id, id)
  }

  /** With distinct item ids, deleting the item at index k removes exactly it and keeps the others in order. */
  lemma DeleteItemAt(items: seq<BillItem>, k: nat)
    requires Distinct(ItemIds(items)) && k < |items|
    ensures DeleteItem(items, items[k].id) == items[..k] + items[k + 1..]
  {
    Seqs.WithoutAt(items, (it: BillItem) => it.id, k);
  }

  /** Deleting an id no item has changes nothing. */
  lemma DeleteItemAbsent(items: seq<BillItem>, id: string)
    requires id !in ItemIds(items)
    ensures DeleteItem(items, id) == items
  {
    Seqs.WithoutAbsent(items, (it: BillItem) => it.id, id);
  }

  /** The fields an edit may carry; an absent field keeps the item's value. */
  datatype ItemPatch = ItemPatch(name: Option<string>, price: Option<real>, quantity: Option<int>)

  /** `{ ...item, ...data }` */
  function Patched(it: BillItem, patch: ItemPatch): BillItem
  {
    it.(name := if patch.name.Some? then patch.name.value else it.name,
        price := if patch.price.Some? then patch.price.value else it.price,
        quantity := if patch.quantity.Some? then patch.quantity.value else it.quantity)
  }

  /** `handleUpdateItem` */
  function UpdateItem(items: seq<BillItem>, id: string, patch: ItemPatch): (r: seq<BillItem>)
    ensures |r| == |items|
    ensures forall k :: 0 <= k < |r| ==> r[k].id == items[k].id && r[k].assignedUsers == items[k].assignedUsers
    ensures forall k :: 0 <= k < |r| && items[k].id != id ==> r[k] == items[k]
    ensures forall k :: 0 <= k < |r| && items[k].id == id ==>
              && (patch.name.Some? ==> r[k].name == patch.name.value)
              && (patch.name.None? ==> r[k].name == items[k].name)
              && (patch.price.Some? ==> r[k].price == patch.price.value)
              && (patch.price.None? ==> r[k].price == items[k].price)
              && (patch.quantity.Some? ==> r[k].quantity == patch.quantity.value)
              && (patch.quantity.None? ==> r[k].quantity == items[k].quantity)
  {
    seq(|items|, k requires 0 <= k < |items| => if items[k].id == id then Patched(items[k], patch) else items[k])
  }

  /** Applying the same edit twice is the same as applying it once. */
  lemma UpdateItemIdempotent(items: seq<BillItem>, id: string, patch: ItemPatch)
    ensures UpdateItem(UpdateItem(items, id, patch), id, patch) == UpdateItem(items, id, patch)
  {
  }

  /** An edit with a positive price and quantity, where present, keeps every item valid. */
  lemma UpdateItemKeepsValid(items: seq<BillItem>, id: string, patch: ItemPatch)
    requires forall k :: 0 <= k < |items| ==> ValidItem(items[k])
    requires patch.price.Some? ==> patch.price.value > 0.0
    requires patch.quantity.Some? ==> patch.quantity.value > 0
    ensures forall k :: 0 <= k < |items| ==> ValidItem(UpdateItem(items, id, patch)[k])
  {
  }

  // ---------------------------------------------------------------- toggling who shares an item

  /** `users.find(u => u.id === userId)` */
  function FindUser(users: seq<User>, userId: string): (r: Option<User>)
    ensures r.Some? ==> r.value in users && r.value.id == userId
    ensures r.Some? ==> exists k :: 0 <= k < |users| && users[k] == r.value
                          && forall j :: 0 <= j < k ==> users[j].id != userId
    ensures r.None? <==> userId !in Ids(users)
  {
    if users == [] then None
    else if users[0].id == userId then Some(users[0])
    else FindUser(users[1..], userId)
  }

  /** The new `assignedUsers` of the toggled item. */
  function ToggleAssignee(assignees: seq<User>, users: seq<User>, userId: string): (r: seq<User>)
    ensures userId in Ids(r) <==> userId !in Ids(assignees) && userId in Ids(users)
    ensures forall x :: x != userId ==> (x in Ids(r) <==> x in Ids(assignees))
    ensures Distinct(Ids(assignees)) ==> Distinct(Ids(r))
    ensures (forall x :: x in Ids(assignees) ==> x in Ids(users)) ==> (forall x :: x in Ids(r) ==> x in Ids(users))
    ensures userId in Ids(assignees) ==> r == RemoveAssignee(assignees, userId)
    ensures userId !in Ids(assignees) && userId in Ids(users) ==> r == assignees + [FindUser(users, userId).value]
    ensures userId !in Ids(assignees) && userId !in Ids(users) ==> r == assignees
  {
    if userId in Ids(assignees) then
      RemoveAssignee(assignees, userId)
    else match FindUser(users, userId)
      case Some(u) =>
        assert Ids(assignees + [u]) == Ids(assignees) + [u.id];
        assignees + [u]
      case None => assignees
  }

  /** `assignees.filter(user => user.id !== userId)` */
  function RemoveAssignee(assignees: seq<User>, userId: string): (r: seq<User>)
    ensures forall u :: u in r <==> u in assignees && u.id != userId
    ensures forall x :: x in Ids(r) <==> x in Ids(assignees) && x != userId
    ensures Distinct(Ids(assignees)) ==> Distinct(Ids(r))
  {
    var r := Seqs.Without(assignees, (u: User) => u.id, userId);
    RemoveAssigneeIds(assignees, userId);
    if Distinct(Ids(assignees)) then
      RemoveAssigneeDistinct(assignees, userId);
      r
    else r
  }

  /** With distinct ids, removing the id of entry k cuts out exactly that entry and keeps the others in order. */
  lemma RemoveAssigneeAt(assignees: seq<User>, k: nat)
    requires Distinct(Ids(assignees)) && k < |assignees|
    ensures RemoveAssignee(assignees, assignees[k].id) == assignees[..k] + assignees[k + 1..]
  {
    var key := (u: User) => u.id;
    assert Seqs.KeysDistinct(assignees, key) by {
      forall p, q | 0 <= p < q < |assignees| ensures key(assignees[p]) != key(assignees[q]) {
        assert Ids(assignees)[p] != Ids(assignees)[q];
      }
    }
    Seqs.WithoutAt(assignees, key, k);
  }

  /** A person's id occurs in `Ids(us)` exactly when some entry of `us` carries it. */
  lemma IdsMembership(us: seq<User>, x: string)
    ensures x in Ids(us) <==> exists u :: u in us && u.id == x
  {
    if x in Ids(us) {
      var k :| 0 <= k < |us| && Ids(us)[k] == x;
      assert us[k] in us;
    }
  }

  lemma RemoveAssigneeIds(assignees: seq<User>, userId: string)
    ensures var r := Seqs.Without(assignees, (u: User) => u.id, userId);
      forall x :: x in Ids(r) <==> x in Ids(assignees) && x != userId
  {
    var r := Seqs.Without(assignees, (u: User) => u.id, userId);
    forall x ensures x in Ids(r) <==> x in Ids(assignees) && x != userId {
      IdsMembership(r, x);
      IdsMembership(assignees, x);
    }
  }

  lemma {:induction false} RemoveAssigneeDistinct(assignees: seq<User>, userId: string)
    requires Distinct(Ids(assignees))
    ensures Distinct(Ids(Seqs.Without(assignees, (u: User) => u.id, userId)))
  {
    if assignees != [] {
      var r := Seqs.Without(assignees, (u: User) => u.id, userId);
      var rest := Seqs.Without(assignees[1..], (u: User) => u.id, userId);
      assert Ids(assignees[1..]) == Ids(assignees)[1..];
      RemoveAssigneeDistinct(assignees[1..], userId);
      var a0 := assignees[0].id;
      if a0 != userId {
        assert r == [assignees[0]] + rest;
        assert a0 !in Ids(assignees[1..]);
        RemoveAssigneeIds(assignees[1..], userId);
        assert Ids(r) == [a0] + Ids(rest);
      } else {
        assert r == rest;
      }
    }
  }

  /** `handleUserToggle`: only the item with `itemId` changes, and only in its `assignedUsers`. */
  function UserToggle(items: seq<BillItem>, users: seq<User>, itemId: string, userId: string): (r: seq<BillItem>)
    ensures |r| == |items|
    ensures forall k :: 0 <= k < |r| && items[k].id != itemId ==> r[k] == items[k]
    ensures forall k :: 0 <= k < |r| && items[k].id == itemId ==>
              r[k] == items[k].(assignedUsers := ToggleAssignee(items[k].assignedUsers, users, userId))
  {
    seq(|items|, k requires 0 <= k < |items| =>
      if items[k].id == itemId
      then items[k].(assignedUsers := ToggleAssignee(items[k].assignedUsers, users, userId))
      else items[k])
  }

  /** Toggling the same person twice restores who shares the item, as a set of ids. */
  lemma ToggleTwice(assignees: seq<User>, users: seq<User>, userId: string)
    requires forall x :: x in Ids(assignees) ==> x in Ids(users)
    ensures var twice := ToggleAssignee(ToggleAssignee(assignees, users, userId), users, userId);
      forall x :: x in Ids(twice) <==> x in Ids(assignees)
  {
  }
}
