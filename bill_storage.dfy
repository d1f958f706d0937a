/**
 * The keyed bill store of `useBillStorage`: a record of saved bills indexed
 * by bill id, with save, update, lookup, delete and a newest-first listing.
 * The fresh id and the timestamp are parameters; a timestamp is an integer
 * that orders like the ISO date it stands for.
 */
module BillStorage {
  import opened Wrappers
  import opened BillCreator

  /** An item as saved with a bill, which may record who paid for it. */
  datatype StoredItem = StoredItem(id: string, name: string, price: real, quantity: int,
                                   assignedUsers: seq<User>, paidBy: Option<User>)

  datatype BillData = BillData(id: string, title: string, items: seq<StoredItem>, users: seq<User>,
                               currency: string, totalAmount: real, payments: seq<Payment>,
                               updatedAt: int)

  /** What a caller supplies to save a bill: everything except id and timestamp. */
  datatype BillFields = BillFields(title: string, items: seq<StoredItem>, users: seq<User>,
                                   currency: string, totalAmount: real, payments: seq<Payment>)

  /** A partial update: only the fields given as `Some` are overwritten. */
  datatype BillPatch = BillPatch(title: Option<string>, items: Option<seq<StoredItem>>,
                                 users: Option<seq<User>>, currency: Option<string>,
                                 totalAmount: Option<real>, payments: Option<seq<Payment>>)

  /** The record `saveBill` stores: the supplied fields plus id and timestamp. */
  function Stamped(f: BillFields, id: string, updatedAt: int): (b: BillData)
    ensures b.id == id && b.updatedAt == updatedAt
    ensures BillFields(b.title, b.items, b.users, b.currency, b.totalAmount, b.payments) == f
  {
    BillData(id, f.title, f.items, f.users, f.currency, f.totalAmount, f.payments, updatedAt)
  }

  function Pick<T>(o: Option<T>, current: T): T
  {
    if o.Some? then o.value else current
  }

  /** `{...prev, ...patch, updatedAt}`: supplied fields win, the id is kept. */
  function Merged(b: BillData, p: BillPatch, updatedAt: int): (r: BillData)
    ensures r.id == b.id && r.updatedAt == updatedAt
    ensures p.title.None? ==> r.title == b.title
    ensures p.title.Some? ==> r.title == p.title.value
    ensures p.items.None? ==> r.items == b.items
    ensures p.items.Some? ==> r.items == p.items.value
    ensures p.users.None? ==> r.users == b.users
    ensures p.users.Some? ==> r.users == p.users.value
    ensures p.currency.None? ==> r.currency == b.currency
    ensures p.currency.Some? ==> r.currency == p.currency.value
    ensures p.totalAmount.None? ==> r.totalAmount == b.totalAmount
    ensures p.totalAmount.Some? ==> r.totalAmount == p.totalAmount.value
    ensures p.payments.None? ==> r.payments == b.payments
    ensures p.payments.Some? ==> r.payments == p.payments.value
  {
    BillData(b.id, Pick(p.title, b.title), Pick(p.items, b.items), Pick(p.users, b.users),
             Pick(p.currency, b.currency), Pick(p.totalAmount, b.totalAmount),
             Pick(p.payments, b.payments), updatedAt)
  }

  /** Newest first: the order `getAllBills` sorts into. */
  predicate NewestFirst(s: seq<BillData>)
  {
    forall p, q :: 0 <= p < q < |s| ==> s[p].updatedAt >= s[q].updatedAt
  }

  predicate IdsDistinct(s: seq<BillData>)
  {
    forall p, q :: 0 <= p < q < |s| ==> s[p].id != s[q].id
  }

  /** How many leading bills of a newest-first list are strictly newer than b. */
  function NewerCount(b: BillData, s: seq<BillData>): (i: nat)
    ensures i <= |s|
    ensures forall p :: 0 <= p < i ==> s[p].updatedAt > b.updatedAt
    ensures i < |s| ==> s[i].updatedAt <= b.updatedAt
  {
    if s == [] || b.updatedAt >= s[0].updatedAt then 0 else 1 + NewerCount(b, s[1..])
  }

  /** Places b in front of the first bill that is not newer than it. */
  function InsertNewestFirst(b: BillData, s: seq<BillData>): (r: seq<BillData>)
    requires NewestFirst(s)
    ensures NewestFirst(r)
    ensures |r| == |s| + 1
    ensures forall x :: x in r <==> x == b || x in s
    ensures multiset(r) == multiset(s) + multiset{b}
    ensures IdsDistinct(s) && (forall x :: x in s ==> x.id != b.id) ==> IdsDistinct(r)
  {
    var i := NewerCount(b, s);
    var r := s[..i] + [b] + s[i..];
    assert s == s[..i] + s[i..];
    SpliceAt(s, b, i);
    InsertKeepsOrder(b, s, i, r);
    InsertKeepsDistinct(b, s, i, r);
    r
  }

  /** Where each entry of s ends up once b is spliced in at position i. */
  lemma SpliceAt(s: seq<BillData>, b: BillData, i: nat)
    requires i <= |s|
    ensures var r := s[..i] + [b] + s[i..];
      && |r| == |s| + 1 && r[i] == b
      && (forall p :: 0 <= p < i ==> r[p] == s[p])
      && (forall p :: i < p < |r| ==> r[p] == s[p - 1])
      && (forall x :: x in r <==> x == b || x in s)
  {
    var r := s[..i] + [b] + s[i..];
    forall x | x in s ensures x in r {
      var p :| 0 <= p < |s| && s[p] == x;
      if p < i { assert r[p] == x; } else { assert r[p + 1] == x; }
    }
  }

  lemma InsertKeepsOrder(b: BillData, s: seq<BillData>, i: nat, r: seq<BillData>)
    requires NewestFirst(s) && i == NewerCount(b, s) && r == s[..i] + [b] + s[i..]
    ensures NewestFirst(r)
  {
    SpliceAt(s, b, i);
    forall p, q | 0 <= p < q < |r| ensures r[p].updatedAt >= r[q].updatedAt {
      if q < i {
      } else if q == i {
      } else if p < i {
      } else if p == i {
      } else {
        assert r[p] == s[p - 1] && r[q] == s[q - 1];
      }
    }
  }

  lemma InsertKeepsDistinct(b: BillData, s: seq<BillData>, i: nat, r: seq<BillData>)
    requires i <= |s| && r == s[..i] + [b] + s[i..]
    ensures IdsDistinct(s) && (forall x :: x in s ==> x.id != b.id) ==> IdsDistinct(r)
  {
    if IdsDistinct(s) && (forall x :: x in s ==> x.id != b.id) {
      SpliceAt(s, b, i);
      forall p, q | 0 <= p < q < |r| ensures r[p].id != r[q].id {
        if p == i {
          assert r[q] in s;
        } else if q == i {
          assert r[p] in s;
        }
      }
    }
  }

  class BillStore {
    /** Saved bills by id. */
    var bills: map<string, BillData>

    /** Every bill is stored under its own id. */
    ghost predicate Valid()
      reads this
    {
      forall k :: k in bills ==> bills[k].id == k
    }

    constructor ()
      ensures Valid() && bills == map[]
    {
      bills := map[];
    }

    /** `saveBill`: stores the fields under the fresh id and returns that id. */
    method SaveBill(fields: BillFields, billId: string, updatedAt: int) returns (id: string)
      requires Valid()
      modifies this
      ensures Valid()
      ensures id == billId
      ensures bills == old(bills)[billId := Stamped(fields, billId, updatedAt)]
      ensures GetBill(billId) == Some(Stamped(fields, billId, updatedAt))
      ensures forall k :: k in old(bills) && k != billId ==> k in bills && bills[k] == old(bills)[k]
      ensures billId !in old(bills) ==> |bills| == |old(bills)| + 1
    {
      bills := bills[billId := Stamped(fields, billId, updatedAt)];
      id := billId;
    }

    /** `updateBill`: merges the patch into an existing bill; an unknown id changes nothing. */
    method UpdateBill(billId: string, patch: BillPatch, updatedAt: int)
      requires Valid()
      modifies this
      ensures Valid()
      ensures billId !in old(bills) ==> bills == old(bills)
      ensures billId in old(bills) ==>
        bills == old(bills)[billId := Merged(old(bills)[billId], patch, updatedAt)]
      ensures bills.Keys == old(bills).Keys
      ensures forall k :: k in old(bills) && k != billId ==> bills[k] == old(bills)[k]
    {
      if billId in bills {
        bills := bills[billId := Merged(bills[billId], patch, updatedAt)];
      }
    }

    /** `getBill`: the stored bill, or nothing. */
    function GetBill(billId: string): (r: Option<BillData>)
      reads this
      ensures r.Some? <==> billId in bills
      ensures r.Some? ==> r.value == bills[billId]
    {
      if billId in bills then Some(bills[billId]) else None
    }

    /** `deleteBill`: removes that key, a no-op when it is absent. */
    method DeleteBill(billId: string)
      requires Valid()
      modifies this
      ensures Valid()
      ensures bills == old(bills) - {billId}
      ensures GetBill(billId) == None
      ensures billId !in old(bills) ==> bills == old(bills)
      ensures forall k :: k in old(bills) && k != billId ==> k in bills && bills[k] == old(bills)[k]
    {
      bills := bills - {billId};
    }

    /** `getAllBills`: every stored bill once, newest first. */
    method GetAllBills() returns (r: seq<BillData>)
      requires Valid()
      ensures |r| == |bills|
      ensures forall b :: b in r <==> b in bills.Values
      ensures IdsDistinct(r)
      ensures NewestFirst(r)
    {
      r := [];
      var remaining := bills.Keys;
      while remaining != {}
        invariant remaining <= bills.Keys
        invariant |r| + |remaining| == |bills.Keys|
        invariant NewestFirst(r) && IdsDistinct(r)
        invariant forall b :: b in r ==> b.id in bills && b.id !in remaining && bills[b.id] == b
        invariant forall k :: k in bills && k !in remaining ==> bills[k] in r
        decreases |remaining|
      {
        var k :| k in remaining;
        r := InsertNewestFirst(bills[k], r);
        remaining := remaining - {k};
      }
      assert |bills.Keys| == |bills|;
      forall b | b in bills.Values
        ensures b in r
      {
        var k :| k in bills && bills[k] == b;
      }
    }
  }
}
