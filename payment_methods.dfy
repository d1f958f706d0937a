/**
 * The local list of a user's payment methods: how it changes after a remote
 * delete or a remote "make default", and the text copied for one method.
 * Each remote call is reduced to whether it reported an error.
 */
module PaymentMethods {
  import opened Wrappers
  import Seqs
  import Text

  /**
   * A column as the component sees it: a string, SQL null, or a property
   * that is missing from the object.
   */
  datatype Field = Str(s: string) | Null | Undefined

  /** `${field}` in a template literal. */
  function Shown(f: Field): string
  {
    match f
    case Str(s) => s
    case Null => "null"
    case Undefined => "undefined"
  }

  /** `if (field)`: a non-empty string is truthy, everything else is not. */
  predicate Truthy(f: Field)
  {
    f.Str? && f.s != ""
  }

  datatype PaymentMethod = PaymentMethod(id: string, kind: string, accountNumber: Field,
                                         bankName: Field, rut: Field, email: Field,
                                         isDefault: bool)

  /** Whether a remote update reported an error. */
  datatype Remote = Ok | Failed

  function MethodId(m: PaymentMethod): string
  {
    m.id
  }

  // ---------------------------------------------------------------- delete

  /** `handleDelete`: the local list drops that id only after the remote delete succeeded. */
  function AfterDelete(methods: seq<PaymentMethod>, id: string, outcome: Remote): (r: seq<PaymentMethod>)
    ensures outcome.Failed? ==> r == methods
    ensures outcome.Ok? ==> forall m :: m in r <==> m in methods && m.id != id
    ensures |r| <= |methods|
  {
    if outcome.Ok? then Seqs.Without(methods, MethodId, id) else methods
  }

  /** With distinct ids, a successful delete of entry k removes exactly it and keeps the order. */
  lemma AfterDeleteAt(methods: seq<PaymentMethod>, k: nat)
    requires Seqs.KeysDistinct(methods, MethodId) && k < |methods|
    ensures AfterDelete(methods, methods[k].id, Ok) == methods[..k] + methods[k + 1..]
  {
    Seqs.WithoutAt(methods, MethodId, k);
  }

  // ---------------------------------------------------------------- default

  /**
   * `handleSetDefault`: first every method of the user is cleared remotely,
   * then the chosen one is marked; the local list is rewritten only when both
   * succeed (the second call is not made when the first fails).
   */
  function AfterSetDefault(methods: seq<PaymentMethod>, id: string, cleared: Remote, marked: Remote)
    : (r: seq<PaymentMethod>)
    ensures cleared.Failed? || marked.Failed? ==> r == methods
    ensures |r| == |methods|
    ensures cleared.Ok? && marked.Ok? ==>
      forall k :: 0 <= k < |r| ==>
        r[k].isDefault == (methods[k].id == id) && r[k].(isDefault := methods[k].isDefault) == methods[k]
  {
    if cleared.Failed? || marked.Failed? then methods
    else seq(|methods|, k requires 0 <= k < |methods| => methods[k].(isDefault := methods[k].id == id))
  }

  function DefaultPositions(methods: seq<PaymentMethod>): set<nat>
  {
    set k: nat | k < |methods| && methods[k].isDefault
  }

  /** With distinct ids and the chosen id present, exactly that entry ends up the default. */
  lemma ExactlyOneDefault(methods: seq<PaymentMethod>, k: nat)
    requires Seqs.KeysDistinct(methods, MethodId) && k < |methods|
    ensures DefaultPositions(AfterSetDefault(methods, methods[k].id, Ok, Ok)) == {k}
  {
    var r := AfterSetDefault(methods, methods[k].id, Ok, Ok);
    forall p: nat | p < |r|
      ensures r[p].isDefault <==> p == k
    {
      if p != k {
        assert MethodId(methods[p]) != MethodId(methods[k]);
      }
    }
  }

  /** With the chosen id absent, a successful update leaves no default at all. */
  lemma NoDefaultForUnknownId(methods: seq<PaymentMethod>, id: string)
    requires forall k :: 0 <= k < |methods| ==> methods[k].id != id
    ensures DefaultPositions(AfterSetDefault(methods, id, Ok, Ok)) == {}
  {
    var r := AfterSetDefault(methods, id, Ok, Ok);
    assert forall p: nat | p < |r| :: !r[p].isDefault;
  }

  // ---------------------------------------------------------------- copy text

  /** `s.charAt(0).toUpperCase() + s.slice(1)` */
  function Capitalized(s: string): (r: string)
    ensures |r| == |s|
    ensures s != [] ==> r[0] == Text.UpperChar(s[0]) && r[1..] == s[1..]
  {
    if s == [] then "" else [Text.UpperChar(s[0])] + s[1..]
  }

  predicate Copyable(kind: string)
  {
    kind == "bank" || kind == "paypal" || kind == "venmo" || kind == "cash"
  }

  /** `handleCopyToClipboard`: the text put on the clipboard for one method. */
  method CopyText(m: PaymentMethod) returns (text: string)
    ensures m.kind == "bank" ==>
      text == "Bank: " + Shown(m.bankName) + "\nAccount: " + Shown(m.accountNumber)
              + (if Truthy(m.rut) then "\nRUT: " + Shown(m.rut) else "")
    ensures m.kind == "paypal" ==> text == "Paypal: " + Shown(m.email)
    ensures m.kind == "venmo" ==> text == "Venmo: " + Shown(m.email)
    ensures m.kind == "cash" ==> text == "Cash payment"
    ensures text == "" <==> !Copyable(m.kind)
  {
    text := "";
    if m.kind == "bank" {
      text := "Bank: " + Shown(m.bankName) + "\nAccount: " + Shown(m.accountNumber);
      if Truthy(m.rut) {
        text := text + "\nRUT: " + Shown(m.rut);
      }
    } else if m.kind == "paypal" || m.kind == "venmo" {
      text := Capitalized(m.kind) + ": " + Shown(m.email);
      assert m.kind == "paypal" ==> Capitalized(m.kind) == "Paypal";
      assert m.kind == "venmo" ==> Capitalized(m.kind) == "Venmo";
    } else if m.kind == "cash" {
      text := "Cash payment";
    }
  }
}
