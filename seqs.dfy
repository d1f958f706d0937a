/** `Array.prototype.filter` by key, as the list handlers use it to drop entries. */
module Seqs {

  /** `s.filter(x => key(x) !== k)` */
  function Without<T(!new)>(s: seq<T>, key: T -> string, k: string): (r: seq<T>)
    ensures forall x :: x in r <==> x in s && key(x) != k
    ensures |r| <= |s|
  {
    if s == [] then [] else (if key(s[0]) != k then [s[0]] else []) + Without(s[1..], key, k)
  }

  /** No two entries share a key. */
  predicate KeysDistinct<T>(s: seq<T>, key: T -> string)
  {
    forall p, q :: 0 <= p < q < |s| ==> key(s[p]) != key(s[q])
  }

  /** Filtering a key nobody has keeps the sequence as it is. */
  lemma {:induction false} WithoutAbsent<T(!new)>(s: seq<T>, key: T -> string, k: string)
    requires forall i :: 0 <= i < |s| ==> key(s[i]) != k
    ensures Without(s, key, k) == s
  {
    if s != [] {
      WithoutAbsent(s[1..], key, k);
    }
  }

  /** With distinct keys, filtering the key of entry i cuts out exactly that entry, keeping the order of the rest. */
  lemma {:induction false} WithoutAt<T(!new)>(s: seq<T>, key: T -> string, i: nat)
    requires KeysDistinct(s, key) && i < |s|
    ensures Without(s, key, key(s[i])) == s[..i] + s[i + 1..]
  {
    var k := key(s[i]);
    if i == 0 {
      TailKeysDiffer(s, key);
      WithoutAbsent(s[1..], key, k);
      assert s[..0] + s[1..] == s[1..];
    } else {
      TailKeysDistinct(s, key);
      assert s[1..][i - 1] == s[i];
      WithoutAt(s[1..], key, i - 1);
      SpliceTail(s, i);
    }
  }

  lemma TailKeysDiffer<T>(s: seq<T>, key: T -> string)
    requires KeysDistinct(s, key) && s != []
    ensures forall j :: 0 <= j < |s[1..]| ==> key(s[1..][j]) != key(s[0])
  {
    forall j | 0 <= j < |s[1..]| ensures key(s[1..][j]) != key(s[0]) {
      assert s[1..][j] == s[j + 1];
    }
  }

  lemma TailKeysDistinct<T>(s: seq<T>, key: T -> string)
    requires KeysDistinct(s, key) && s != []
    ensures KeysDistinct(s[1..], key)
  {
    var t := s[1..];
    forall p, q | 0 <= p < q < |t| ensures key(t[p]) != key(t[q]) {
      assert t[p] == s[p + 1] && t[q] == s[q + 1];
    }
  }

  /** Cutting entry i out of s is keeping s[0] and cutting entry i - 1 out of the tail. */
  lemma SpliceTail<T>(s: seq<T>, i: nat)
    requires 0 < i < |s|
    ensures s[..i] + s[i + 1..] == [s[0]] + (s[1..][..i - 1] + s[1..][i..])
  {
    assert s[1..][..i - 1] == s[1..i] && s[1..][i..] == s[i + 1..];
  }
}
