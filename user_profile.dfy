/**
 * The pure helpers of the user avatar chip: initials from a name, a colour
 * class derived from the user id, and the signed amount label under it.
 * Characters are code points; `charCodeAt` is modelled as the code point.
 */
module UserProfile {
  import opened Wrappers
  import opened Money
  import Text

  /** `s.split(" ")`: the pieces between single spaces, empty pieces included. */
  function Split(s: string): (r: seq<string>)
    ensures |r| >= 1
  {
    if s == [] then [""]
    else
      var rest := Split(s[1..]);
      if s[0] == ' ' then [""] + rest else [[s[0]] + rest[0]] + rest[1..]
  }

  /** `w[0]`, where the `undefined` of an empty word joins as nothing. */
  function Initial(w: string): string
  {
    if w == [] then "" else [w[0]]
  }

  /** `words.map(n => n[0]).join("")` */
  function FirstChars(words: seq<string>): string
  {
    if words == [] then "" else Initial(words[0]) + FirstChars(words[1..])
  }

  /**
   * Reference reading of the same thing, scanning the name once: every
   * non-space character that starts the name or follows a space.
   */
  function WordStarts(s: string, atStart: bool): string
  {
    if s == [] then ""
    else (if atStart && s[0] != ' ' then [s[0]] else "") + WordStarts(s[1..], s[0] == ' ')
  }

  /** Splitting on spaces and taking first characters picks out exactly the word starts. */
  lemma {:induction false} SplitFirstChars(s: string)
    ensures FirstChars(Split(s)) == WordStarts(s, true)
    ensures FirstChars(Split(s)[1..]) == WordStarts(s, false)
  {
    if s != [] {
      var rest := Split(s[1..]);
      SplitFirstChars(s[1..]);
      if s[0] == ' ' {
        assert Split(s)[1..] == rest;
      } else {
        assert Split(s)[1..] == rest[1..];
      }
      assert FirstChars(Split(s)) == Initial(Split(s)[0]) + FirstChars(Split(s)[1..]);
    }
  }

  predicate Blank(s: string)
  {
    forall k :: 0 <= k < |s| ==> s[k] == ' '
  }

  lemma {:induction false} BlankHasNoStarts(s: string, atStart: bool)
    requires Blank(s)
    ensures WordStarts(s, atStart) == ""
  {
    if s != [] {
      BlankHasNoStarts(s[1..], true);
    }
  }

  lemma {:induction false} NonBlankHasStart(s: string)
    requires !Blank(s)
    ensures |WordStarts(s, true)| > 0
  {
    if s[0] == ' ' {
      var k :| 0 <= k < |s| && s[k] != ' ';
      assert s[1..][k - 1] != ' ';
      NonBlankHasStart(s[1..]);
    }
  }

  /** A name has no word start exactly when it is all spaces (or empty). */
  lemma StartsEmptyIffBlank(s: string)
    ensures WordStarts(s, true) == "" <==> Blank(s)
  {
    if Blank(s) { BlankHasNoStarts(s, true); } else { NonBlankHasStart(s); }
  }

  /** `getInitials`: the first two word starts, upper-cased. */
  function GetInitials(name: string): (r: string)
    ensures |r| <= 2
    ensures var starts := WordStarts(name, true);
      && |r| == (if |starts| < 2 then |starts| else 2)
      && forall k :: 0 <= k < |r| ==> r[k] == Text.UpperChar(starts[k])
    ensures r == "" <==> Blank(name)
  {
    SplitFirstChars(name);
    StartsEmptyIffBlank(name);
    var upper := Text.Upper(FirstChars(Split(name)));
    if |upper| <= 2 then upper else upper[..2]
  }

  /** What the avatar circle shows. */
  datatype Avatar = Initials(text: string) | Icon

  /** `initials || <User/>`: empty initials fall back to the icon. */
  function AvatarContent(name: string): (a: Avatar)
    ensures a.Icon? <==> Blank(name)
    ensures a.Initials? ==> 0 < |a.text| <= 2
  {
    var initials := GetInitials(name);
    if initials != "" then Initials(initials) else Icon
  }

  const Colors: seq<string> := ["bg-blue-500", "bg-green-500", "bg-yellow-500", "bg-purple-500",
                                "bg-pink-500", "bg-indigo-500", "bg-red-500", "bg-orange-500"]

  /** The sum of the character codes of s. */
  function CharCodeSum(s: string): (c: nat)
    ensures forall k :: 0 <= k < |s| ==> s[k] as nat <= c
  {
    if s == [] then 0 else CharCodeSum(s[..|s| - 1]) + s[|s| - 1] as nat
  }

  /** `getRandomColor`: the colour at (sum of character codes) mod 8. */
  function GetRandomColor(seed: string): (c: string)
    ensures c in Colors
    ensures c == Colors[CharCodeSum(seed) % |Colors|]
  {
    Colors[CharCodeSum(seed) % |Colors|]
  }

  lemma {:induction false} CharCodeSumAppend(a: string, b: string)
    ensures CharCodeSum(a + b) == CharCodeSum(a) + CharCodeSum(b)
  {
    if b != [] {
      assert (a + b)[..|a + b| - 1] == a + b[..|b| - 1];
      assert (a + b)[|a + b| - 1] == b[|b| - 1];
      CharCodeSumAppend(a, b[..|b| - 1]);
    } else {
      assert a + b == a;
    }
  }

  /** Taking the last character of a and a matching b[i] leaves equal multisets. */
  lemma RemoveMatching(a: string, b: string, i: nat)
    requires multiset(a) == multiset(b) && a != [] && i < |b| && b[i] == a[|a| - 1]
    ensures b == b[..i] + [b[i]] + b[i + 1..]
    ensures multiset(a[..|a| - 1]) == multiset(b[..i] + b[i + 1..])
  {
    var c := a[|a| - 1];
    assert b == b[..i] + [c] + b[i + 1..];
    assert a == a[..|a| - 1] + [c];
    assert multiset(a) == multiset(a[..|a| - 1]) + multiset{c};
    assert multiset(b) == multiset(b[..i]) + multiset{c} + multiset(b[i + 1..]);
    assert multiset(b[..i] + b[i + 1..]) == multiset(b[..i]) + multiset(b[i + 1..]);
    assert multiset(a[..|a| - 1]) == multiset(a) - multiset{c};
    assert multiset(b[..i] + b[i + 1..]) == multiset(b) - multiset{c};
  }

  /** The sum only depends on which characters occur, not on their order. */
  lemma {:induction false} CharCodeSumPermutation(a: string, b: string)
    requires multiset(a) == multiset(b)
    ensures CharCodeSum(a) == CharCodeSum(b)
    decreases |a|
  {
    if a != [] {
      var c := a[|a| - 1];
      assert c in multiset(b);
      var i :| 0 <= i < |b| && b[i] == c;
      var rest := b[..i] + b[i + 1..];
      RemoveMatching(a, b, i);
      CharCodeSumPermutation(a[..|a| - 1], rest);
      CharCodeSumAppend(b[..i] + [c], b[i + 1..]);
      CharCodeSumAppend(b[..i], [c]);
      CharCodeSumAppend(b[..i], b[i + 1..]);
      assert CharCodeSum([c]) == c as nat by {
        assert [c][..0] == [];
      }
    }
  }

  /** Ids made of the same characters in any order get the same colour. */
  lemma AnagramsShareColor(a: string, b: string)
    requires multiset(a) == multiset(b)
    ensures GetRandomColor(a) == GetRandomColor(b)
  {
    CharCodeSumPermutation(a, b);
  }

  /** `color || getRandomColor(id)`: a non-empty explicit colour wins. */
  function AvatarColor(color: Option<string>, id: string): (c: string)
    ensures color.Some? && color.value != "" ==> c == color.value
    ensures color.None? || color.value == "" ==> c == GetRandomColor(id) && c in Colors
  {
    if color.Some? && color.value != "" then color.value else GetRandomColor(id)
  }

  /** The balance label under the avatar and its text colour class. */
  datatype AmountLabel = AmountLabel(text: string, className: string)

  const PositiveClass: string := "text-success"
  const NegativeClass: string := "text-destructive"
  const ZeroClass: string := "text-muted-foreground"

  /** A positive amount reads "+$x", a negative one "-$|x|", zero "$0.00". */
  function AmountLabelOf(amount: real): (l: AmountLabel)
    ensures amount > 0.0 ==> l.className == PositiveClass && l.text == "+$" + Fixed2(amount)
    ensures amount < 0.0 ==> l.className == NegativeClass && l.text == "-$" + Fixed2(Abs(amount))
    ensures amount == 0.0 ==> l.className == ZeroClass && l.text == "$" + Fixed2(0.0)
    ensures l.text[0] == '+' <==> amount > 0.0
    ensures l.text[0] == '-' <==> amount < 0.0
  {
    if amount > 0.0 then AmountLabel("+$" + Fixed2(amount), PositiveClass)
    else if amount < 0.0 then AmountLabel("-$" + Fixed2(Abs(amount)), NegativeClass)
    else
      assert Fixed2(0.0) == "0.00" by {
        assert Cents(0.0) == 0;
      }
      AmountLabel("$0.00", ZeroClass)
  }

  /** Opposite amounts get the same figure and differ only in the sign and the class. */
  lemma OppositeAmountsMirror(x: real)
    requires x != 0.0
    ensures AmountLabelOf(-x).text[1..] == AmountLabelOf(x).text[1..]
    ensures AmountLabelOf(-x).className != AmountLabelOf(x).className
  {
    assert Abs(-x) == Abs(x);
    if x < 0.0 {
      assert Fixed2(-x) == Fixed2(Abs(x));
    } else {
      assert Fixed2(x) == Fixed2(Abs(-x));
    }
  }
}
