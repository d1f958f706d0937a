/**
 * `generateShareText`: the plain-text summary of a saved bill that is handed
 * to the share sheet or the clipboard. The text is a header, the total, the
 * people, one line per item, an optional payments section and a fixed footer.
 */
module ShareText {
  import opened BillCreator
  import opened BillStorage
  import opened Money
  import Text

  const ItemsHeading: string := "\U{1F4DD} Items:\n"
  const PaymentsHeading: string := "\n\U{1F4B0} Payments:\n"
  const Footer: string := "\nShared via Dine Share Easy App"

  function Header(title: string): string
  {
    "\U{1F4CA} " + title + " - Bill Summary\n\n"
  }

  function TotalLine(total: real, currency: string): string
  {
    "\U{1F4B5} Total: " + Fixed2(total) + " " + currency + "\n"
  }

  /** `users.map(u => u.name)` */
  function Names(users: seq<User>): (r: seq<string>)
    ensures |r| == |users| && forall k :: 0 <= k < |users| ==> r[k] == users[k].name
  {
    seq(|users|, k requires 0 <= k < |users| => users[k].name)
  }

  /** Adding a person to the list adds ", " and their name at the end of the joined names. */
  lemma PeopleJoinSnoc(users: seq<User>, u: User)
    requires |users| >= 1
    ensures Text.Join(Names(users + [u]), ", ") == Text.Join(Names(users), ", ") + ", " + u.name
  {
    assert Names(users + [u]) == Names(users) + [u.name];
    Text.JoinSnoc(Names(users), ", ", u.name);
  }

  function PeopleLine(users: seq<User>): string
  {
    "\U{1F465} People: " + Text.Join(Names(users), ", ") + "\n\n"
  }

  function PaidByNote(paidBy: Wrappers.Option<User>): string
  {
    if paidBy.Some? then " (Paid by " + paidBy.value.name + ")" else ""
  }

  /** An item line up to the optional payer note: name, price, currency and quantity. */
  function ItemHead(item: StoredItem, currency: string): string
  {
    "- " + item.name + ": " + Fixed2(item.price) + " " + currency + " x " + IntToString(item.quantity)
  }

  function ItemLine(item: StoredItem, currency: string): string
  {
    ItemHead(item, currency) + PaidByNote(item.paidBy) + "\n"
  }

  function PaymentLine(p: Payment, currency: string): string
  {
    "- " + p.from.name + " pays " + Fixed2(p.amount) + " " + currency + " to " + p.to.name + "\n"
  }

  /** The lines of xs, one after another in list order. */
  function Lines<T>(xs: seq<T>, line: T -> string): string
  {
    if xs == [] then "" else Lines(xs[..|xs| - 1], line) + line(xs[|xs| - 1])
  }

  lemma {:induction false} LinesAppend<T>(xs: seq<T>, ys: seq<T>, line: T -> string)
    ensures Lines(xs + ys, line) == Lines(xs, line) + Lines(ys, line)
  {
    if ys == [] {
      assert xs + ys == xs;
    } else {
      assert (xs + ys)[..|xs + ys| - 1] == xs + ys[..|ys| - 1];
      LinesAppend(xs, ys[..|ys| - 1], line);
    }
  }

  lemma AppendAssoc(a: string, b: string, c: string)
    ensures (a + b) + c == a + (b + c)
  {
  }

  /** Extending a prefix of xs by one element appends that element's line. */
  lemma LinesStep<T>(xs: seq<T>, k: nat, line: T -> string)
    requires k < |xs|
    ensures Lines(xs[..k + 1], line) == Lines(xs[..k], line) + line(xs[k])
  {
    assert xs[..k + 1][..k] == xs[..k];
  }

  function ItemLines(items: seq<StoredItem>, currency: string): string
  {
    Lines(items, (it: StoredItem) => ItemLine(it, currency))
  }

  function PaymentLines(payments: seq<Payment>, currency: string): string
  {
    Lines(payments, (p: Payment) => PaymentLine(p, currency))
  }

  /** The payments section, present exactly when there are payments. */
  function PaymentsSection(payments: seq<Payment>, currency: string): (r: string)
    ensures r == "" <==> payments == []
    ensures payments != [] ==> |r| >= |PaymentsHeading| && r[..|PaymentsHeading|] == PaymentsHeading
  {
    if |payments| > 0 then PaymentsHeading + PaymentLines(payments, currency) else ""
  }

  /** Appending to a string keeps any prefix it already had. */
  lemma PrefixKept(a: string, b: string, p: string)
    requires |p| <= |a| && a[..|p|] == p
    ensures |p| <= |a + b| && (a + b)[..|p|] == p
  {
    assert (a + b)[..|p|] == a[..|p|];
  }

  /** The whole summary, section by section. */
  function ShareText(bill: BillData): (text: string)
    ensures |text| >= |Header(bill.title)| + |Footer|
    ensures text[..|Header(bill.title)|] == Header(bill.title)
    ensures text[|text| - |Footer|..] == Footer
  {
    var h := Header(bill.title);
    var t1 := h + TotalLine(bill.totalAmount, bill.currency);
    var t2 := t1 + PeopleLine(bill.users);
    var t3 := t2 + ItemsHeading;
    var t4 := t3 + ItemLines(bill.items, bill.currency);
    var t5 := t4 + PaymentsSection(bill.payments, bill.currency);
    PrefixKept(h, TotalLine(bill.totalAmount, bill.currency), h);
    PrefixKept(t1, PeopleLine(bill.users), h);
    PrefixKept(t2, ItemsHeading, h);
    PrefixKept(t3, ItemLines(bill.items, bill.currency), h);
    PrefixKept(t4, PaymentsSection(bill.payments, bill.currency), h);
    PrefixKept(t5, Footer, h);
    t5 + Footer
  }

  /** An item line closes with ")" before its newline exactly when the item records a payer. */
  lemma PaidByMarker(item: StoredItem, currency: string)
    ensures var line := ItemLine(item, currency);
      |line| >= 2 && (line[|line| - 2] == ')' <==> item.paidBy.Some?)
  {
    var head := "- " + item.name + ": " + Fixed2(item.price) + " " + currency + " x ";
    var q := IntToString(item.quantity);
    var line := ItemLine(item, currency);
    assert ItemHead(item, currency) == head + q;
    assert line == head + q + PaidByNote(item.paidBy) + "\n";
    if item.paidBy.None? {
      assert line == head + q + "\n";
      assert line[|line| - 2] == q[|q| - 1];
    }
  }

  /** Item k's line sits between the lines of the items before it and after it. */
  lemma ItemLinesInOrder(items: seq<StoredItem>, currency: string, k: nat)
    requires k < |items|
    ensures ItemLines(items, currency)
      == ItemLines(items[..k], currency) + ItemLine(items[k], currency) + ItemLines(items[k + 1..], currency)
  {
    var line := (it: StoredItem) => ItemLine(it, currency);
    assert items == items[..k] + [items[k]] + items[k + 1..];
    LinesAppend(items[..k] + [items[k]], items[k + 1..], line);
    LinesAppend(items[..k], [items[k]], line);
    assert Lines([items[k]], line) == Lines([], line) + line(items[k]);
  }

  /** Payment k's line sits between the lines of the payments before it and after it. */
  lemma PaymentLinesInOrder(payments: seq<Payment>, currency: string, k: nat)
    requires k < |payments|
    ensures PaymentLines(payments, currency)
      == PaymentLines(payments[..k], currency) + PaymentLine(payments[k], currency)
         + PaymentLines(payments[k + 1..], currency)
  {
    var line := (p: Payment) => PaymentLine(p, currency);
    assert payments == payments[..k] + [payments[k]] + payments[k + 1..];
    LinesAppend(payments[..k] + [payments[k]], payments[k + 1..], line);
    LinesAppend(payments[..k], [payments[k]], line);
    assert Lines([payments[k]], line) == Lines([], line) + line(payments[k]);
  }

  /** Appending an item's head, its payer note and a newline appends its line. */
  lemma ItemStep(before: string, items: seq<StoredItem>, currency: string, k: nat, text: string)
    requires k < |items|
    requires text == before + ItemLines(items[..k], currency)
    ensures text + ItemHead(items[k], currency) + PaidByNote(items[k].paidBy) + "\n"
            == before + ItemLines(items[..k + 1], currency)
  {
    var head := ItemHead(items[k], currency);
    var note := PaidByNote(items[k].paidBy);
    LinesStep(items, k, (it: StoredItem) => ItemLine(it, currency));
    AppendAssoc(text, head, note);
    AppendAssoc(text, head + note, "\n");
    AppendAssoc(before, ItemLines(items[..k], currency), ItemLine(items[k], currency));
  }

  /** Appending a payment's line extends the payment lines written so far. */
  lemma PaymentStep(before: string, payments: seq<Payment>, currency: string, k: nat, text: string)
    requires k < |payments|
    requires text == before + PaymentLines(payments[..k], currency)
    ensures text + PaymentLine(payments[k], currency) == before + PaymentLines(payments[..k + 1], currency)
  {
    LinesStep(payments, k, (p: Payment) => PaymentLine(p, currency));
    AppendAssoc(before, PaymentLines(payments[..k], currency), PaymentLine(payments[k], currency));
  }

  /** Builds the summary by appending to the text item by item and payment by payment. */
  method GenerateShareText(bill: BillData) returns (text: string)
    ensures text == ShareText(bill)
  {
    text := Header(bill.title);
    text := text + TotalLine(bill.totalAmount, bill.currency);
    text := text + PeopleLine(bill.users);
    text := text + ItemsHeading;
    ghost var beforeItems := text;
    for k := 0 to |bill.items|
      invariant text == beforeItems + ItemLines(bill.items[..k], bill.currency)
    {
      var item := bill.items[k];
      ItemStep(beforeItems, bill.items, bill.currency, k, text);
      text := text + ItemHead(item, bill.currency);
      if item.paidBy.Some? {
        text := text + PaidByNote(item.paidBy);
      }
      text := text + "\n";
    }
    assert bill.items[..|bill.items|] == bill.items;
    ghost var beforePayments := text;
    if |bill.payments| > 0 {
      text := text + PaymentsHeading;
      for k := 0 to |bill.payments|
        invariant text == beforePayments + PaymentsHeading + PaymentLines(bill.payments[..k], bill.currency)
      {
        PaymentStep(beforePayments + PaymentsHeading, bill.payments, bill.currency, k, text);
        text := text + PaymentLine(bill.payments[k], bill.currency);
      }
      assert bill.payments[..|bill.payments|] == bill.payments;
      AppendAssoc(beforePayments, PaymentsHeading, PaymentLines(bill.payments, bill.currency));
    } else {
      assert text == beforePayments + PaymentsSection(bill.payments, bill.currency);
    }
    text := text + Footer;
  }
}
