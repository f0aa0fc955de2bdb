/** Sorting by a (time, name) key, and why the result does not depend on where the sort started. */
module Ordering {
  import opened Encoding

  /** The order of Rust's `str`; `NameLessIsByteOrder` says why comparing scalar values is enough. */
  predicate NameLess(a: string, b: string) {
    b != [] && (a == [] || a[0] < b[0] || (a[0] == b[0] && NameLess(a[1..], b[1..])))
  }

  datatype Key = Key(time: int, name: string)

  predicate KeyLess(a: Key, b: Key) {
    a.time < b.time || (a.time == b.time && NameLess(a.name, b.name))
  }

  lemma {:induction false} NameTotal(a: string, b: string)
    ensures NameLess(a, b) || NameLess(b, a) || a == b
  {
    if a != [] && b != [] && a[0] == b[0] {
      NameTotal(a[1..], b[1..]);
      assert a == [a[0]] + a[1..] && b == [b[0]] + b[1..];
    }
  }

  lemma {:induction false} NameTransitive(a: string, b: string, c: string)
    requires NameLess(a, b) && NameLess(b, c)
    ensures NameLess(a, c)
  {
    if a != [] && a[0] == b[0] == c[0] {
      NameTransitive(a[1..], b[1..], c[1..]);
    }
  }

  lemma {:induction false} NameIrreflexive(a: string)
    ensures !NameLess(a, a)
  {
    if a != [] {
      NameIrreflexive(a[1..]);
    }
  }

  // ---- the order of names is the order of their bytes ----

  predicate BytesLess(a: Bytes, b: Bytes) {
    b != [] && (a == [] || a[0] < b[0] || (a[0] == b[0] && BytesLess(a[1..], b[1..])))
  }

  lemma {:induction false} BytesAsymmetric(a: Bytes, b: Bytes)
    requires BytesLess(a, b)
    ensures !BytesLess(b, a)
  {
    if a != [] && a[0] == b[0] {
      BytesAsymmetric(a[1..], b[1..]);
    }
  }

  lemma {:induction false} BytesPrefix(p: Bytes, a: Bytes, b: Bytes)
    ensures BytesLess(p + a, p + b) <==> BytesLess(a, b)
  {
    if p == [] {
      assert p + a == a && p + b == b;
    } else {
      assert (p + a)[1..] == p[1..] + a && (p + b)[1..] == p[1..] + b;
      BytesPrefix(p[1..], a, b);
    }
  }

  /** The first byte in which two encodings differ decides, whatever follows. */
  lemma FirstDifference(a: Bytes, b: Bytes, n: nat, x: Bytes, y: Bytes)
    requires n < |a| && n < |b| && a[..n] == b[..n] && a[n] < b[n]
    ensures BytesLess(a + x, b + y)
  {
    assert a + x == a[..n] + (a[n..] + x) && b + y == a[..n] + (b[n..] + y);
    BytesPrefix(a[..n], a[n..] + x, b[n..] + y);
  }

  /** The smaller character has the smaller bytes: first by length, then digit by digit. */
  lemma CharOrder(c: char, d: char) returns (n: nat)
    requires c < d
    ensures n < |EncodeChar(c)| && n < |EncodeChar(d)|
    ensures EncodeChar(c)[..n] == EncodeChar(d)[..n] && EncodeChar(c)[n] < EncodeChar(d)[n]
  {
    var i, j := c as int, d as int;
    if |EncodeChar(c)| != |EncodeChar(d)| {
      n := 0;
      Lead(c);
      Lead(d);
    } else if j < 0x80 {
      n := 0;
    } else if j < 0x800 {
      n := if i / 64 < j / 64 then 0 else 1;
    } else if j < 0x1_0000 {
      n := ThreeDigits(c, d);
    } else {
      n := FourDigits(c, d);
    }
  }

  lemma Lead(c: char)
    ensures var b := EncodeChar(c)[0];
      match |EncodeChar(c)|
      case 1 => b < 0x80
      case 2 => 0xC2 <= b < 0xE0
      case 3 => 0xE0 <= b < 0xF0
      case _ => 0xF0 <= b
    ensures |EncodeChar(c)| ==
            (if c as int < 0x80 then 1 else if c as int < 0x800 then 2 else if c as int < 0x1_0000 then 3 else 4)
  {
  }

  lemma ThreeDigits(c: char, d: char) returns (n: nat)
    requires 0x800 <= c as int < d as int < 0x1_0000
    ensures n < 3 && |EncodeChar(c)| == |EncodeChar(d)| == 3
    ensures EncodeChar(c)[..n] == EncodeChar(d)[..n] && EncodeChar(c)[n] < EncodeChar(d)[n]
  {
    var i, j := c as int, d as int;
    TwelveBits(i);
    TwelveBits(j);
    n := if i / 4096 < j / 4096 then 0 else if i / 64 % 64 < j / 64 % 64 then 1 else 2;
  }

  lemma FourDigits(c: char, d: char) returns (n: nat)
    requires 0x1_0000 <= c as int < d as int
    ensures n < 4 && |EncodeChar(c)| == |EncodeChar(d)| == 4
    ensures EncodeChar(c)[..n] == EncodeChar(d)[..n] && EncodeChar(c)[n] < EncodeChar(d)[n]
  {
    var i, j := c as int, d as int;
    SixBitDigits(i);
    SixBitDigits(j);
    n := if i / 262144 < j / 262144 then 0
         else if i / 4096 % 64 < j / 4096 % 64 then 1
         else if i / 64 % 64 < j / 64 % 64 then 2
         else 3;
  }

  lemma {:induction false} NameLessThenBytes(a: string, b: string)
    requires NameLess(a, b)
    ensures BytesLess(Utf8(a), Utf8(b))
  {
    hide EncodeChar;
    if a != [] {
      if a[0] == b[0] {
        NameLessThenBytes(a[1..], b[1..]);
        BytesPrefix(EncodeChar(a[0]), Utf8(a[1..]), Utf8(b[1..]));
      } else {
        var n := CharOrder(a[0], b[0]);
        FirstDifference(EncodeChar(a[0]), EncodeChar(b[0]), n, Utf8(a[1..]), Utf8(b[1..]));
      }
    }
  }

  /** Comparing scalar values compares the UTF-8 bytes, which is what the source does. */
  lemma NameLessIsByteOrder(a: string, b: string)
    ensures NameLess(a, b) <==> BytesLess(Utf8(a), Utf8(b))
  {
    if NameLess(a, b) {
      NameLessThenBytes(a, b);
    } else if NameLess(b, a) {
      NameLessThenBytes(b, a);
      if BytesLess(Utf8(a), Utf8(b)) {
        BytesAsymmetric(Utf8(a), Utf8(b));
      }
    } else {
      NameTotal(a, b);
      if BytesLess(Utf8(a), Utf8(b)) {
        BytesAsymmetric(Utf8(a), Utf8(b));
      }
    }
  }

  /** What coming first means: the bytes agree up to a place where the first string ends or has the smaller one. */
  lemma {:induction false} WhereBytesDiffer(a: Bytes, b: Bytes) returns (n: nat)
    requires BytesLess(a, b)
    ensures n <= |a| && n < |b| && a[..n] == b[..n] && (n == |a| || a[n] < b[n])
  {
    n := 0;
    if a != [] && a[0] == b[0] {
      n := WhereBytesDiffer(a[1..], b[1..]);
      n := n + 1;
      assert a[..n] == [a[0]] + a[1..][..n - 1] && b[..n] == [b[0]] + b[1..][..n - 1];
    }
  }

  /** For names. */
  lemma WhereNamesDiffer(a: string, b: string) returns (n: nat)
    requires NameLess(a, b)
    ensures var x, y := Utf8(a), Utf8(b); n <= |x| && n < |y| && x[..n] == y[..n] && (n == |x| || x[n] < y[n])
  {
    NameLessIsByteOrder(a, b);
    n := WhereBytesDiffer(Utf8(a), Utf8(b));
  }

  lemma KeyTransitive(a: Key, b: Key, c: Key)
    requires KeyLess(a, b) && KeyLess(b, c)
    ensures KeyLess(a, c)
  {
    if a.time == b.time == c.time {
      NameTransitive(a.name, b.name, c.name);
    }
  }

  lemma KeyIrreflexive(a: Key)
    ensures !KeyLess(a, a)
  {
    NameIrreflexive(a.name);
  }

  /** Strictly ascending by key: in particular no two entries share a key. */
  ghost predicate Ascending<T>(s: seq<T>, key: T -> Key) {
    forall i, j :: 0 <= i < j < |s| ==> KeyLess(key(s[i]), key(s[j]))
  }

  ghost predicate KeysDiffer<T>(s: seq<T>, key: T -> Key) {
    forall i, j :: 0 <= i < j < |s| ==> key(s[i]) != key(s[j])
  }

  ghost predicate SameElements<T>(s: seq<T>, t: seq<T>) {
    (forall x :: x in s ==> x in t) && (forall x :: x in t ==> x in s)
  }

  function Insert<T>(x: T, s: seq<T>, key: T -> Key): (r: seq<T>)
    ensures multiset(r) == multiset(s) + multiset{x}
  {
    if s == [] then [x]
    else if KeyLess(key(s[0]), key(x)) then
      assert s == [s[0]] + s[1..];
      [s[0]] + Insert(x, s[1..], key)
    else [x] + s
  }

  /** `sort_by` with a comparison by key. */
  function SortByKey<T>(s: seq<T>, key: T -> Key): (r: seq<T>)
    ensures multiset(r) == multiset(s)
  {
    if s == [] then []
    else
      assert s == [s[0]] + s[1..];
      Insert(s[0], SortByKey(s[1..], key), key)
  }

  lemma SameMultiset<T>(s: seq<T>, t: seq<T>)
    requires multiset(s) == multiset(t)
    ensures SameElements(s, t) && |s| == |t|
  {
    forall x | x in s
      ensures x in t
    {
      assert x in multiset(t);
    }
    forall x | x in t
      ensures x in s
    {
      assert x in multiset(s);
    }
    assert |s| == |multiset(s)|;
  }

  lemma {:induction false} InsertAscending<T>(x: T, s: seq<T>, key: T -> Key)
    requires Ascending(s, key) && forall y :: y in s ==> key(y) != key(x)
    ensures Ascending(Insert(x, s, key), key)
  {
    if s != [] {
      assert s[0] in s;
      var r := Insert(x, s, key);
      if KeyLess(key(s[0]), key(x)) {
        InsertAscending(x, s[1..], key);
        var rest := Insert(x, s[1..], key);
        forall y | y in rest
          ensures KeyLess(key(s[0]), key(y))
        {
          assert y in multiset(rest);
          assert y == x || y in multiset(s[1..]);
        }
        assert r == [s[0]] + rest;
      } else {
        KeyTotal(key(s[0]), key(x));
        forall y | y in s
          ensures KeyLess(key(x), key(y))
        {
          if y != s[0] {
            var i :| 0 < i < |s| && s[i] == y;
            KeyTransitive(key(x), key(s[0]), key(y));
          }
        }
        assert r == [x] + s;
      }
    }
  }

  lemma KeyTotal(a: Key, b: Key)
    ensures KeyLess(a, b) || KeyLess(b, a) || a == b
  {
    NameTotal(a.name, b.name);
  }

  /** Sorting entries with pairwise different keys leaves them strictly ascending. */
  lemma {:induction false} SortAscending<T>(s: seq<T>, key: T -> Key)
    requires KeysDiffer(s, key)
    ensures Ascending(SortByKey(s, key), key)
  {
    if s != [] {
      SortAscending(s[1..], key);
      SameMultiset(SortByKey(s[1..], key), s[1..]);
      forall y | y in SortByKey(s[1..], key)
        ensures key(y) != key(s[0])
      {
        assert y in s[1..];
        var i :| 0 < i < |s| && s[i] == y;
      }
      InsertAscending(s[0], SortByKey(s[1..], key), key);
    }
  }

  lemma HeadIsLeast<T>(s: seq<T>, key: T -> Key, x: T)
    requires Ascending(s, key) && x in s
    ensures x == s[0] || KeyLess(key(s[0]), key(x))
  {
    var i :| 0 <= i < |s| && s[i] == x;
  }

  lemma SameHead<T>(s: seq<T>, t: seq<T>, key: T -> Key)
    requires Ascending(s, key) && Ascending(t, key) && SameElements(s, t) && s != [] && t != []
    ensures s[0] == t[0]
  {
    assert s[0] in s && t[0] in t;
    HeadIsLeast(s, key, t[0]);
    HeadIsLeast(t, key, s[0]);
    if s[0] != t[0] {
      KeyTransitive(key(s[0]), key(t[0]), key(s[0]));
      KeyIrreflexive(key(s[0]));
    }
  }

  lemma NothingIn<T>(t: seq<T>)
    ensures t == [] || exists x :: x in t
  {
    assert |t| > 0 ==> t[0] in t;
  }

  /** An ascending sequence is determined by its set of entries. */
  lemma {:induction false} AscendingUnique<T>(s: seq<T>, t: seq<T>, key: T -> Key)
    requires Ascending(s, key) && Ascending(t, key) && SameElements(s, t)
    ensures s == t
  {
    hide KeyLess;
    if s == [] {
      NothingIn(t);
    } else {
      assert s[0] in t;
      SameHead(s, t, key);
      TailElements(s, key);
      TailElements(t, key);
      assert forall x :: x in s[1..] ==> x in s && x != s[0];
      assert forall x :: x in t[1..] ==> x in t && x != t[0];
      AscendingUnique(s[1..], t[1..], key);
      assert s == [s[0]] + s[1..] && t == [t[0]] + t[1..];
    }
  }

  lemma TailElements<T>(s: seq<T>, key: T -> Key)
    requires Ascending(s, key) && s != []
    ensures s[0] !in s[1..] && forall x :: x in s ==> x == s[0] || x in s[1..]
  {
    KeyIrreflexive(key(s[0]));
    assert forall i :: 0 < i < |s| ==> s[i] != s[0];
  }
}
