/**
 * The second half of the "calculate" action: the balances are sorted
 * ascending and matched greedily from both ends. A front cursor i and a back
 * cursor j walk inward while i < j; a side within 0.01 of zero is skipped,
 * otherwise the smaller of the two magnitudes is recorded (rounded to cents)
 * as a payment from sorted[i] to sorted[j] and moved, unrounded, between the
 * two working balances.
 */
module BillSettlement {
  import opened BillCreator
  import opened BillBalances
  import opened Money

  /** One row of the sorted balance list: a person and their working balance. */
  datatype Entry = Entry(user: User, balance: real)

  /** One row per person with their balance, in the order the people were added. */
  function Entries(users: seq<User>, b: map<string, real>): (e: seq<Entry>)
    requires Covers(b, users)
    ensures |e| == |users| && forall k :: 0 <= k < |e| ==> e[k] == Entry(users[k], b[users[k].id])
  {
    seq(|users|, k requires 0 <= k < |users| => Entry(users[k], b[users[k].id]))
  }

  predicate SortedByBalance(e: seq<Entry>)
  {
    forall p, q :: 0 <= p < q < |e| ==> e[p].balance <= e[q].balance
  }

  /** Insert x in front of the first row whose balance is not below it. */
  function Insert(x: Entry, s: seq<Entry>): (r: seq<Entry>)
    requires SortedByBalance(s)
    ensures SortedByBalance(r) && multiset(r) == multiset(s) + multiset{x}
  {
    if s == [] || x.balance <= s[0].balance then [x] + s
    else
      var rest := Insert(x, s[1..]);
      KeepHead(x, s, rest);
      [s[0]] + rest
  }

  /** Putting the head of s back in front of x inserted into the tail keeps the order. */
  lemma KeepHead(x: Entry, s: seq<Entry>, rest: seq<Entry>)
    requires SortedByBalance(s) && s != [] && s[0].balance < x.balance
    requires SortedByBalance(rest) && multiset(rest) == multiset(s[1..]) + multiset{x}
    ensures SortedByBalance([s[0]] + rest) && multiset([s[0]] + rest) == multiset(s) + multiset{x}
  {
    assert s == [s[0]] + s[1..];
    var r := [s[0]] + rest;
    forall k | 0 <= k < |rest| ensures s[0].balance <= rest[k].balance {
      assert rest[k] in multiset(rest);
      if rest[k] != x {
        assert rest[k] in s[1..];
      }
    }
    forall p, q | 0 <= p < q < |r| ensures r[p].balance <= r[q].balance {
      if p > 0 {
        assert r[p] == rest[p - 1] && r[q] == rest[q - 1];
      } else {
        assert r[q] == rest[q - 1];
      }
    }
  }

  /** The ascending sort by balance (stable: equal balances keep their order). */
  function SortByBalance(s: seq<Entry>): (r: seq<Entry>)
    ensures SortedByBalance(r) && multiset(r) == multiset(s)
  {
    if s == [] then []
    else
      assert s == [s[0]] + s[1..];
      Insert(s[0], SortByBalance(s[1..]))
  }

  /** The rows with balance v, in the order they appear. */
  function WithBalance(s: seq<Entry>, v: real): (r: seq<Entry>)
    ensures forall x :: x in r <==> x in s && x.balance == v
  {
    if s == [] then [] else (if s[0].balance == v then [s[0]] else []) + WithBalance(s[1..], v)
  }

  /** Insert places x in front of every row whose balance ties with it. */
  lemma {:induction false} InsertTies(x: Entry, s: seq<Entry>, v: real)
    requires SortedByBalance(s)
    ensures WithBalance(Insert(x, s), v) == (if x.balance == v then [x] else []) + WithBalance(s, v)
  {
    if s == [] || x.balance <= s[0].balance {
      WithBalanceCons(x, s, v);
    } else {
      var rest := Insert(x, s[1..]);
      var hs := if s[0].balance == v then [s[0]] else [];
      var hx := if x.balance == v then [x] else [];
      InsertTies(x, s[1..], v);
      WithBalanceCons(s[0], rest, v);
      assert WithBalance(s, v) == hs + WithBalance(s[1..], v);
      TieSwap(hs, hx, WithBalance(s[1..], v));
    }
  }

  /** Two pieces of which at most one is non-empty can be put in either order. */
  lemma TieSwap(a: seq<Entry>, b: seq<Entry>, w: seq<Entry>)
    requires a == [] || b == []
    ensures a + (b + w) == b + (a + w)
  {
    if a == [] {
      assert a + (b + w) == b + w == b + (a + w);
    } else {
      assert a + (b + w) == a + w == b + (a + w);
    }
  }

  lemma WithBalanceCons(e: Entry, t: seq<Entry>, v: real)
    ensures WithBalance([e] + t, v) == (if e.balance == v then [e] else []) + WithBalance(t, v)
  {
    assert ([e] + t)[1..] == t;
  }

  /** The sort is stable: rows with equal balances keep the order they had. */
  lemma {:induction false} SortStable(s: seq<Entry>, v: real)
    ensures WithBalance(SortByBalance(s), v) == WithBalance(s, v)
  {
    if s != [] {
      SortStable(s[1..], v);
      InsertTies(s[0], SortByBalance(s[1..]), v);
    }
  }

  // ---------------------------------------------------------------- the matching loop

  /** The loop's variables: the working balances, the two cursors and the payments so far. */
  datatype MatchState = MatchState(entries: seq<Entry>, i: int, j: int, payments: seq<Payment>)

  /** `i = 0`, `j = sortedBalances.length - 1`, no payments; sorted rows meet the loop invariant. */
  function Start(e: seq<Entry>): (st: MatchState)
    ensures st.entries == e && st.payments == []
    ensures SortedByBalance(e) ==> Inv(st)
  {
    MatchState(e, 0, |e| - 1, [])
  }

  predicate Settled(x: Entry)
  {
    Abs(x.balance) < Tolerance
  }

  /** Between lo and hi no positive balance stands before a negative one; sorting guarantees it. */
  predicate SignOrdered(e: seq<Entry>, lo: int, hi: int)
  {
    forall p, q :: 0 <= lo <= p < q <= hi < |e| ==> !(e[p].balance > 0.0 && e[q].balance < 0.0)
  }

  /** What holds at the top of every iteration. */
  predicate Inv(st: MatchState)
  {
    && 0 <= st.i <= st.j + 1 <= |st.entries|
    && SignOrdered(st.entries, st.i, st.j)
    && (forall k :: 0 <= k < st.i ==> Settled(st.entries[k]))
    && (forall k :: st.j < k < |st.entries| ==> Settled(st.entries[k]))
  }

  /** One iteration of `while (i < j)`. */
  function Step(st: MatchState): (r: MatchState)
    requires 0 <= st.i < st.j < |st.entries|
    ensures |r.entries| == |st.entries| && st.i <= r.i && r.j <= st.j
    ensures |st.payments| <= |r.payments| <= |st.payments| + 1
    ensures r.i == st.i && r.j == st.j ==> |r.payments| == |st.payments| + 1
  {
    var debtor := st.entries[st.i];
    var creditor := st.entries[st.j];
    if Abs(debtor.balance) < Tolerance || Abs(creditor.balance) < Tolerance then
      st.(i := if Abs(debtor.balance) < Tolerance then st.i + 1 else st.i,
          j := if Abs(creditor.balance) < Tolerance then st.j - 1 else st.j)
    else
      var amount := Min(Abs(debtor.balance), Abs(creditor.balance));
      var d := debtor.(balance := debtor.balance + amount);
      var c := creditor.(balance := creditor.balance - amount);
      MatchState(st.entries[st.i := d][st.j := c],
                 if Abs(d.balance) < Tolerance then st.i + 1 else st.i,
                 if Abs(c.balance) < Tolerance then st.j - 1 else st.j,
                 st.payments + [Payment(debtor.user, creditor.user, Round2(amount))])
  }

  /**
   * Within one pair of cursors, the magnitude that an emitting step shrinks, in
   * whole cents: the debtor's when it is negative, otherwise the creditor's.
   */
  function Progress(st: MatchState): nat
  {
    if 0 <= st.i < st.j < |st.entries| then
      var d := st.entries[st.i].balance;
      var c := st.entries[st.j].balance;
      if d < 0.0 then (-d * 100.0).Floor else if c > 0.0 then (c * 100.0).Floor else 0
    else 0
  }

  lemma FloorDrops(x: real, y: real)
    requires y <= x - 1.0
    ensures y.Floor < x.Floor
  {
  }

  /**
   * Termination: a skip moves a cursor; an emitting step either moves a cursor or
   * takes at least one cent off the side that shrinks. Which side shrinks is
   * decided by signs: a negative debtor moves up towards zero, a positive
   * creditor moves down towards zero, and the sign order rules out a positive
   * debtor facing a negative creditor.
   */
  lemma {:induction false} StepProgress(st: MatchState)
    requires Inv(st) && st.i < st.j
    ensures var r := Step(st);
      r.j - r.i < st.j - st.i || (r.i == st.i && r.j == st.j && Progress(r) < Progress(st))
  {
    var r := Step(st);
    var d := st.entries[st.i].balance;
    var c := st.entries[st.j].balance;
    if !(Abs(d) < Tolerance || Abs(c) < Tolerance) && r.i == st.i && r.j == st.j {
      var amount := Min(Abs(d), Abs(c));
      var d' := r.entries[st.i].balance;
      var c' := r.entries[st.j].balance;
      assert d' == d + amount && c' == c - amount;
      if d < 0.0 {
        FloorDrops(-d * 100.0, -d' * 100.0);
      } else {
        assert !(d > 0.0 && c < 0.0);
        FloorDrops(c * 100.0, c' * 100.0);
      }
    }
  }

  /** A debtor never changes sign class: negative stays at or below zero, positive stays positive; likewise a creditor. */
  lemma {:induction false} StepKeepsInv(st: MatchState)
    requires Inv(st) && st.i < st.j
    ensures Inv(Step(st))
  {
    var e := st.entries;
    var d, c := e[st.i].balance, e[st.j].balance;
    if !(Abs(d) < Tolerance || Abs(c) < Tolerance) {
      var amount := Min(Abs(d), Abs(c));
      var d', c' := e[st.i].(balance := d + amount), e[st.j].(balance := c - amount);
      StepEmitting(st, amount, d', c');
      EmitKeepsInv(st, d', c', Step(st));
    }
  }

  /**
   * Moving the two cursor rows towards zero keeps the invariant: the debtor can
   * only end positive if it was positive, the creditor only negative if it was
   * negative, and a row the cursors pass is settled.
   */
  lemma EmitKeepsInv(st: MatchState, d': Entry, c': Entry, r: MatchState)
    requires Inv(st) && st.i < st.j
    requires d'.balance > 0.0 ==> st.entries[st.i].balance > 0.0
    requires c'.balance < 0.0 ==> st.entries[st.j].balance < 0.0
    requires r.entries == st.entries[st.i := d'][st.j := c']
    requires r.i == (if Settled(d') then st.i + 1 else st.i)
    requires r.j == (if Settled(c') then st.j - 1 else st.j)
    ensures Inv(r)
  {
    var e, e' := st.entries, r.entries;
    forall p, q | 0 <= r.i <= p < q <= r.j < |e'|
      ensures !(e'[p].balance > 0.0 && e'[q].balance < 0.0)
    {
      assert e'[p].balance > 0.0 ==> e[p].balance > 0.0;
      assert e'[q].balance < 0.0 ==> e[q].balance < 0.0;
    }
  }

  /** Run the loop to the end: `while (i < j) { … }`. */
  function Settle(st: MatchState): (r: MatchState)
    requires Inv(st)
    ensures Inv(r) && r.j < r.i + 1
    ensures forall p, q :: 0 <= p < q < |r.entries| ==> Settled(r.entries[p]) || Settled(r.entries[q])
    decreases st.j - st.i, Progress(st)
  {
    if st.i < st.j then
      StepKeepsInv(st);
      StepProgress(st);
      Settle(Step(st))
    else st
  }

  // ---------------------------------------------------------------- what the loop guarantees

  function BalanceSum(e: seq<Entry>): real
  {
    if e == [] then 0.0 else e[0].balance + BalanceSum(e[1..])
  }

  lemma {:induction false} BalanceSumUpdate(e: seq<Entry>, p: nat, x: Entry)
    requires p < |e|
    ensures BalanceSum(e[p := x]) == BalanceSum(e) - e[p].balance + x.balance
  {
    if p > 0 {
      BalanceSumUpdate(e[1..], p - 1, x);
      assert e[p := x][1..] == e[1..][p - 1 := x];
    }
  }

  function UsersOf(e: seq<Entry>): (us: seq<User>)
    ensures |us| == |e| && forall k :: 0 <= k < |e| ==> us[k] == e[k].user
  {
    seq(|e|, k requires 0 <= k < |e| => e[k].user)
  }

  /**
   * One step: a skip changes no balance; an emitting step adds the unrounded
   * amount min(|debtor|, |creditor|), at least 0.01, to the debtor and takes it
   * from the creditor, records it rounded to cents, and leaves every other row
   * as it was. Afterwards the debtor cursor has advanced exactly when the
   * debtor's row is settled, and the creditor cursor has retreated exactly
   * when the creditor's row is.
   */
  lemma StepEffect(st: MatchState)
    requires Inv(st) && st.i < st.j
    ensures var r := Step(st);
      var d, c := st.entries[st.i], st.entries[st.j];
      var amount := Min(Abs(d.balance), Abs(c.balance));
      && |r.entries| == |st.entries|
      && (forall k :: 0 <= k < |st.entries| && k != st.i && k != st.j ==> r.entries[k] == st.entries[k])
      && (Settled(d) || Settled(c) ==> r.entries == st.entries && r.payments == st.payments)
      && (!Settled(d) && !Settled(c) ==>
            && amount >= Tolerance
            && r.entries[st.i] == d.(balance := d.balance + amount)
            && r.entries[st.j] == c.(balance := c.balance - amount)
            && r.payments == st.payments + [Payment(d.user, c.user, Round2(amount))])
      && r.i == (if Settled(r.entries[st.i]) then st.i + 1 else st.i)
      && r.j == (if Settled(r.entries[st.j]) then st.j - 1 else st.j)
      && BalanceSum(r.entries) == BalanceSum(st.entries)
  {
    var e := st.entries;
    var d, c := e[st.i], e[st.j];
    if !(Abs(d.balance) < Tolerance || Abs(c.balance) < Tolerance) {
      var amount := Min(Abs(d.balance), Abs(c.balance));
      var e1 := e[st.i := d.(balance := d.balance + amount)];
      BalanceSumUpdate(e, st.i, d.(balance := d.balance + amount));
      BalanceSumUpdate(e1, st.j, c.(balance := c.balance - amount));
    }
  }

  /** The working balances change by exactly the unrounded amounts, so their sum never changes; the people do not move. */
  lemma {:induction false} SettleKeepsSum(st: MatchState)
    requires Inv(st)
    ensures BalanceSum(Settle(st).entries) == BalanceSum(st.entries)
    ensures UsersOf(Settle(st).entries) == UsersOf(st.entries)
    decreases st.j - st.i, Progress(st)
  {
    if st.i < st.j {
      StepKeepsInv(st);
      StepProgress(st);
      StepEffect(st);
      SettleKeepsSum(Step(st));
    }
  }

  predicate UniqueUserIds(e: seq<Entry>)
  {
    forall p, q :: 0 <= p < q < |e| ==> e[p].user.id != e[q].user.id
  }

  /** A recorded payment: at least a cent, a whole number of cents, between two different people of the list. */
  predicate ValidPayment(p: Payment, users: seq<User>)
  {
    && p.amount >= Tolerance
    && p.amount * 100.0 == (p.amount * 100.0).Floor as real
    && p.from in users && p.to in users
    && p.from.id != p.to.id
  }

  /**
   * Every payment the loop records goes from sorted[i] to sorted[j] with i < j,
   * so from one person to a different one, for an unrounded amount of at least
   * 0.01; the payments recorded before are kept.
   */
  lemma {:induction false} SettlePayments(st: MatchState)
    requires Inv(st) && UniqueUserIds(st.entries)
    ensures |Settle(st).payments| >= |st.payments| && Settle(st).payments[..|st.payments|] == st.payments
    ensures forall k :: |st.payments| <= k < |Settle(st).payments| ==>
              ValidPayment(Settle(st).payments[k], UsersOf(st.entries))
    decreases st.j - st.i, Progress(st)
  {
    if st.i < st.j {
      StepKeepsInv(st);
      StepProgress(st);
      var r := Step(st);
      StepPayments(st);
      SettlePayments(r);
      var all := Settle(r).payments;
      assert Settle(st).payments == all;
      assert all[..|st.payments|] == all[..|r.payments|][..|st.payments|];
    }
  }

  /** One step keeps the people and the payments so far, and what it records is valid. */
  lemma StepPayments(st: MatchState)
    requires Inv(st) && st.i < st.j && UniqueUserIds(st.entries)
    ensures var r := Step(st);
      && UsersOf(r.entries) == UsersOf(st.entries) && UniqueUserIds(r.entries)
      && |r.payments| >= |st.payments| && r.payments[..|st.payments|] == st.payments
      && forall k :: |st.payments| <= k < |r.payments| ==> ValidPayment(r.payments[k], UsersOf(st.entries))
  {
    var r := Step(st);
    var e := st.entries;
    assert UsersOf(r.entries) == UsersOf(e);
    assert UniqueUserIds(r.entries) by {
      forall p, q | 0 <= p < q < |r.entries| ensures r.entries[p].user.id != r.entries[q].user.id {
        assert r.entries[p].user == UsersOf(r.entries)[p] == UsersOf(e)[p];
        assert r.entries[q].user == UsersOf(r.entries)[q] == UsersOf(e)[q];
      }
    }
    if |r.payments| > |st.payments| {
      var p := r.payments[|st.payments|];
      var amount := Min(Abs(e[st.i].balance), Abs(e[st.j].balance));
      assert p == Payment(e[st.i].user, e[st.j].user, Round2(amount));
      assert UsersOf(e)[st.i] == p.from && UsersOf(e)[st.j] == p.to;
    }
  }

  /** When every working balance is within 0.01 of zero the loop only moves the cursors: no payment, no change. */
  lemma {:induction false} SettleAllSettled(st: MatchState)
    requires Inv(st)
    requires forall k :: 0 <= k < |st.entries| ==> Settled(st.entries[k])
    ensures Settle(st).payments == st.payments && Settle(st).entries == st.entries
    decreases st.j - st.i, Progress(st)
  {
    if st.i < st.j {
      StepKeepsInv(st);
      StepProgress(st);
      SettleAllSettled(Step(st));
    }
  }

  /**
   * Two people who both owe 10 (nobody is ever credited): the loop still records
   * a payment of 10.00 from the first to the second, leaving them at 0 and -20.
   */
  lemma TwoDebtorsStillPay(a: User, b: User)
    ensures Settle(Start([Entry(a, -10.0), Entry(b, -10.0)]))
            == MatchState([Entry(a, 0.0), Entry(b, -20.0)], 1, 1, [Payment(a, b, 10.0)])
  {
    var s0 := Start([Entry(a, -10.0), Entry(b, -10.0)]);
    assert Round2(10.0) == 10.0 by {
      assert Cents(10.0) == 1000;
    }
    var s1 := Step(s0);
    assert s1 == MatchState([Entry(a, 0.0), Entry(b, -20.0)], 1, 1, [Payment(a, b, 10.0)]);
    assert Settle(s0) == Settle(s1);
  }

  /** An emitting step, spelled out: both rows move by the amount and a payment is recorded. */
  lemma StepEmitting(st: MatchState, amount: real, d: Entry, c: Entry)
    requires 0 <= st.i < st.j < |st.entries|
    requires !Settled(st.entries[st.i]) && !Settled(st.entries[st.j])
    requires amount == Min(Abs(st.entries[st.i].balance), Abs(st.entries[st.j].balance))
    requires d == st.entries[st.i].(balance := st.entries[st.i].balance + amount)
    requires c == st.entries[st.j].(balance := st.entries[st.j].balance - amount)
    ensures Step(st) == MatchState(st.entries[st.i := d][st.j := c],
                                   if Settled(d) then st.i + 1 else st.i,
                                   if Settled(c) then st.j - 1 else st.j,
                                   st.payments + [Payment(d.user, c.user, Round2(amount))])
  {
  }

  /** The loop of the calculation, run in place over the sorted rows. */
  method SettleInPlace(a: array<Entry>) returns (payments: seq<Payment>)
    requires Inv(Start(a[..]))
    modifies a
    ensures var r := Settle(Start(old(a[..])));
      payments == r.payments && a[..] == r.entries
  {
    var i := 0;
    var j := a.Length - 1;
    payments := [];
    while i < j
      invariant Inv(MatchState(a[..], i, j, payments))
      invariant Settle(MatchState(a[..], i, j, payments)) == Settle(Start(old(a[..])))
      decreases j - i, Progress(MatchState(a[..], i, j, payments))
    {
      ghost var before := MatchState(a[..], i, j, payments);
      StepKeepsInv(before);
      StepProgress(before);
      var debtor := a[i];
      var creditor := a[j];
      assert debtor == before.entries[before.i] && creditor == before.entries[before.j];
      if Abs(debtor.balance) < Tolerance || Abs(creditor.balance) < Tolerance {
        if Abs(debtor.balance) < Tolerance {
          i := i + 1;
        }
        if Abs(creditor.balance) < Tolerance {
          j := j - 1;
        }
        assert MatchState(a[..], i, j, payments) == Step(before);
        continue;
      }
      var paymentAmount := Min(Abs(debtor.balance), Abs(creditor.balance));
      payments := payments + [Payment(debtor.user, creditor.user, Round2(paymentAmount))];
      debtor := debtor.(balance := debtor.balance + paymentAmount);
      creditor := creditor.(balance := creditor.balance - paymentAmount);
      StepEmitting(before, paymentAmount, debtor, creditor);
      a[i] := debtor;
      a[j] := creditor;
      assert a[..] == before.entries[i := debtor][j := creditor];
      if Abs(debtor.balance) < Tolerance {
        i := i + 1;
      }
      if Abs(creditor.balance) < Tolerance {
        j := j - 1;
      }
      assert MatchState(a[..], i, j, payments) == Step(before);
    }
  }

  // ---------------------------------------------------------------- the whole calculation

  /** Every sorted row is one of the unsorted rows. */
  lemma SortedFromRows(e: seq<Entry>, k: nat)
    requires k < |SortByBalance(e)|
    ensures exists m :: 0 <= m < |e| && SortByBalance(e)[k] == e[m]
  {
    var sorted := SortByBalance(e);
    assert sorted[k] in multiset(sorted);
    assert sorted[k] in multiset(e);
  }

  /** A row that stands at two positions is counted twice. */
  lemma CountedTwice(s: seq<Entry>, p: nat, q: nat)
    requires p < q < |s| && s[p] == s[q]
    ensures multiset(s)[s[p]] >= 2
  {
    assert s == s[..q] + s[q..];
    assert s[p] in multiset(s[..q]) && s[q] in multiset(s[q..]);
  }

  /** Reordering rows with distinct user ids keeps them distinct. */
  lemma PermutationUnique(e: seq<Entry>, r: seq<Entry>)
    requires UniqueUserIds(e) && multiset(r) == multiset(e)
    ensures UniqueUserIds(r)
  {
    forall p, q | 0 <= p < q < |r| ensures r[p].user.id != r[q].user.id {
      assert r[p] in multiset(e) && r[q] in multiset(e);
      var mp :| 0 <= mp < |e| && r[p] == e[mp];
      var mq :| 0 <= mq < |e| && r[q] == e[mq];
      if mp == mq {
        CountedTwice(r, p, q);
        OccursOnce(e, mp);
      }
    }
  }

  /** Sorting keeps the rows: the same people, still with distinct ids, and the same balances. */
  lemma SortedRows(users: seq<User>, b: map<string, real>)
    requires Covers(b, users) && Distinct(Ids(users))
    ensures var sorted := SortByBalance(Entries(users, b));
      && UniqueUserIds(sorted)
      && (forall k :: 0 <= k < |sorted| ==> sorted[k].user in users)
      && ((forall k :: 0 <= k < |users| ==> Abs(b[users[k].id]) < Tolerance) ==>
            forall k :: 0 <= k < |sorted| ==> Settled(sorted[k]))
  {
    var entries := Entries(users, b);
    assert UniqueUserIds(entries) by {
      forall p, q | 0 <= p < q < |entries| ensures entries[p].user.id != entries[q].user.id {
        assert Ids(users)[p] != Ids(users)[q];
      }
    }
    PermutationUnique(entries, SortByBalance(entries));
    forall k | 0 <= k < |SortByBalance(entries)| ensures SortByBalance(entries)[k].user in users {
      SortedFromRows(entries, k);
    }
    forall k | 0 <= k < |SortByBalance(entries)| && (forall n :: 0 <= n < |users| ==> Abs(b[users[n].id]) < Tolerance)
      ensures Settled(SortByBalance(entries)[k])
    {
      SortedFromRows(entries, k);
    }
  }

  /** In rows with distinct user ids each row occurs once. */
  lemma {:induction false} OccursOnce(e: seq<Entry>, m: nat)
    requires UniqueUserIds(e) && m < |e|
    ensures multiset(e)[e[m]] == 1
  {
    if m == 0 {
      assert e == [e[0]] + e[1..];
      assert e[0] !in e[1..];
    } else {
      assert e == [e[0]] + e[1..];
      assert e[0] != e[m];
      OccursOnce(e[1..], m - 1);
    }
  }

  /** Sorted rows of distinct people: every payment the matching loop records is valid. */
  lemma SettledPaymentsValid(users: seq<User>, b: map<string, real>)
    requires Covers(b, users) && Distinct(Ids(users))
    ensures var sorted := SortByBalance(Entries(users, b));
      Inv(Start(sorted)) &&
      var payments := Settle(Start(sorted)).payments;
      forall k :: 0 <= k < |payments| ==> ValidPayment(payments[k], users)
  {
    var sorted := SortByBalance(Entries(users, b));
    SortedRows(users, b);
    SettlePayments(Start(sorted));
    var payments := Settle(Start(sorted)).payments;
    forall k | 0 <= k < |payments| ensures ValidPayment(payments[k], users) {
      assert ValidPayment(payments[k], UsersOf(sorted));
    }
  }

  /** When every balance is within 0.01 of zero the matching loop records nothing. */
  lemma NothingToSettle(users: seq<User>, b: map<string, real>)
    requires Covers(b, users) && Distinct(Ids(users))
    requires forall k :: 0 <= k < |users| ==> Abs(b[users[k].id]) < Tolerance
    ensures var sorted := SortByBalance(Entries(users, b));
      Inv(Start(sorted)) && Settle(Start(sorted)).payments == []
  {
    var sorted := SortByBalance(Entries(users, b));
    SortedRows(users, b);
    SettleAllSettled(Start(sorted));
  }

  /**
   * `calculateBill`: compute the balances, sort them ascending and run the
   * matching loop. Every payment is at least 0.01, a whole number of cents,
   * between two different people of the bill; when every balance is within
   * 0.01 of zero nothing is paid.
   */
  method CalculateBill(users: seq<User>, items: seq<BillItem>) returns (payments: seq<Payment>)
    requires Distinct(Ids(users)) && ItemsFit(users, items)
    ensures payments == Settle(Start(SortByBalance(Entries(users, Balances(users, items))))).payments
    ensures forall k :: 0 <= k < |payments| ==> ValidPayment(payments[k], users)
    ensures (forall k :: 0 <= k < |users| ==> Abs(Balances(users, items)[users[k].id]) < Tolerance) ==> payments == []
  {
    var balances := ComputeBalances(users, items);
    var sorted := SortByBalance(Entries(users, balances));
    var a := new Entry[|sorted|](k requires 0 <= k < |sorted| => sorted[k]);
    assert a[..] == sorted;
    SettledPaymentsValid(users, balances);
    payments := SettleInPlace(a);
    if forall k :: 0 <= k < |users| ==> Abs(balances[users[k].id]) < Tolerance {
      NothingToSettle(users, balances);
    }
  }
}
