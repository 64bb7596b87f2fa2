/** Strings, lists of fields, numerals, least elements and sizes of sets: what the other modules share. */
module Text {

  datatype Option<+T> = None | Some(value: T)

  ghost predicate Without(s: string, c: char) {
    forall i :: 0 <= i < |s| ==> s[i] != c
  }

  /** Fields joined by a separator, as Rust's `[..].join(sep)` does. */
  function Join(fields: seq<string>, sep: char): string
    requires |fields| > 0
  {
    if |fields| == 1 then fields[0] else fields[0] + [sep] + Join(fields[1..], sep)
  }

  function Split(s: string, sep: char): (fields: seq<string>)
    ensures |fields| > 0
  {
    if s == "" then [""]
    else if s[0] == sep then [""] + Split(s[1..], sep)
    else
      var rest := Split(s[1..], sep);
      [[s[0]] + rest[0]] + rest[1..]
  }

  lemma {:induction false} SplitPlain(s: string, sep: char)
    requires Without(s, sep)
    ensures Split(s, sep) == [s]
  {
    if s != "" {
      SplitPlain(s[1..], sep);
      assert [s[0]] + s[1..] == s;
    }
  }

  lemma {:induction false} SplitField(field: string, sep: char, rest: string)
    requires Without(field, sep)
    ensures Split(field + [sep] + rest, sep) == [field] + Split(rest, sep)
  {
    var s := field + [sep] + rest;
    if field == "" {
      assert s[1..] == rest;
    } else {
      SplitField(field[1..], sep, rest);
      assert s[1..] == field[1..] + [sep] + rest;
      assert [field[0]] + field[1..] == field;
    }
  }

  /** Joining loses nothing: fields free of the separator are read back exactly. */
  lemma {:induction false} SplitJoin(fields: seq<string>, sep: char)
    requires |fields| > 0
    requires forall i :: 0 <= i < |fields| ==> Without(fields[i], sep)
    ensures Split(Join(fields, sep), sep) == fields
  {
    if |fields| == 1 {
      SplitPlain(fields[0], sep);
      assert fields == [fields[0]];
    } else {
      SplitJoin(fields[1..], sep);
      SplitField(fields[0], sep, Join(fields[1..], sep));
      assert fields == [fields[0]] + fields[1..];
    }
  }

  lemma {:induction false} JoinSnoc(fields: seq<string>, sep: char)
    requires |fields| > 1
    ensures Join(fields, sep) == Join(fields[..|fields| - 1], sep) + [sep] + fields[|fields| - 1]
  {
    if |fields| > 2 {
      JoinSnoc(fields[1..], sep);
      assert fields[1..][..|fields| - 2] == fields[..|fields| - 1][1..];
    }
  }

  predicate IsDigit(c: char) {
    '0' <= c <= '9'
  }

  function Digit(d: nat): (c: char)
    requires d < 10
    ensures IsDigit(c) && c as int - '0' as int == d
  {
    ('0' as int + d) as char
  }

  /** `to_string` of an unsigned integer. */
  function Decimal(n: nat): (s: string)
    ensures |s| > 0
    ensures forall i :: 0 <= i < |s| ==> IsDigit(s[i])
  {
    if n < 10 then [Digit(n)] else Decimal(n / 10) + [Digit(n % 10)]
  }

  function DigitsValue(s: string): nat
    requires forall i :: 0 <= i < |s| ==> IsDigit(s[i])
  {
    if s == "" then 0
    else
      var last := s[|s| - 1];
      assert IsDigit(last);
      10 * DigitsValue(s[..|s| - 1]) + (last as int - '0' as int)
  }

  lemma {:induction false} DecimalValue(n: nat)
    ensures DigitsValue(Decimal(n)) == n
  {
    var s := Decimal(n);
    if n >= 10 {
      DecimalValue(n / 10);
      assert s[..|s| - 1] == Decimal(n / 10);
    } else {
      assert s[..0] == "";
    }
  }

  function HexValue(c: char): Option<int> {
    if '0' <= c <= '9' then Some(c as int - '0' as int)
    else if 'a' <= c <= 'f' then Some(c as int - 'a' as int + 10)
    else if 'A' <= c <= 'F' then Some(c as int - 'A' as int + 10)
    else None
  }

  /** No numeral but zero itself begins with a zero. */
  lemma {:induction false} NoLeadingZero(n: nat)
    ensures Decimal(n)[0] == '0' <==> n == 0
    ensures |Decimal(n)| == 1 <==> n < 10
  {
    if n >= 10 { NoLeadingZero(n / 10); }
  }

  /** `hex::decode` */
  function DecodeHex(s: string): Option<seq<int>> {
    if s == "" then Some([])
    else if |s| == 1 then None
    else match (HexValue(s[0]), HexValue(s[1]), DecodeHex(s[2..])) {
           case (Some(hi), Some(lo), Some(rest)) => Some([16 * hi + lo] + rest)
           case _ => None
         }
  }

  /** Exactly the texts of an even number of hex digits decode. */
  lemma {:induction false} DecodesExactly(s: string)
    ensures DecodeHex(s).Some? <==> |s| % 2 == 0 && forall i :: 0 <= i < |s| ==> HexValue(s[i]).Some?
    ensures DecodeHex(s).Some? ==> |s| == 2 * |DecodeHex(s).value|
  {
    if |s| >= 2 {
      DecodesExactly(s[2..]);
      assert forall i :: 2 <= i < |s| ==> s[i] == s[2..][i - 2];
      if forall i :: 0 <= i < |s| ==> HexValue(s[i]).Some? {
        assert forall i :: 0 <= i < |s| - 2 ==> s[2..][i] == s[i + 2];
      }
    }
  }

  /** Two digits make a byte, the first of them the higher. */
  lemma {:induction false} DecodedByte(s: string, i: nat)
    requires DecodeHex(s).Some? && i < |DecodeHex(s).value|
    ensures 2 * i + 1 < |s| && HexValue(s[2 * i]).Some? && HexValue(s[2 * i + 1]).Some?
    ensures DecodeHex(s).value[i] == 16 * HexValue(s[2 * i]).value + HexValue(s[2 * i + 1]).value
  {
    if i > 0 {
      DecodedByte(s[2..], i - 1);
      assert s[2 * i] == s[2..][2 * (i - 1)] && s[2 * i + 1] == s[2..][2 * (i - 1) + 1];
    }
  }

  /** The position of the last separator, as `rsplit_once` would find it. */
  function LastIndex(s: string, sep: char): (i: Option<nat>)
    ensures i.Some? ==> i.value < |s| && s[i.value] == sep
  {
    if s == "" then None
    else if s[|s| - 1] == sep then Some(|s| - 1)
    else LastIndex(s[..|s| - 1], sep)
  }

  lemma {:induction false} LastIndexOfTail(head: string, sep: char, tail: string)
    requires Without(tail, sep)
    ensures LastIndex(head + [sep] + tail, sep) == Some(|head|)
  {
    var s := head + [sep] + tail;
    if tail != "" {
      assert s[|s| - 1] == tail[|tail| - 1];
      assert s[..|s| - 1] == head + [sep] + tail[..|tail| - 1];
      LastIndexOfTail(head, sep, tail[..|tail| - 1]);
    }
  }

  ghost predicate IsLeast<K>(s: set<K>, key: map<K, int>, m: K)
    requires s <= key.Keys
  {
    m in s && forall x :: x in s ==> key[m] <= key[x]
  }

  /** A non-empty finite set has an element with the least key. */
  lemma {:induction false} FindLeast<K>(s: set<K>, key: map<K, int>) returns (m: K)
    requires s != {} && s <= key.Keys
    ensures IsLeast(s, key, m)
    decreases |s|
  {
    var a :| a in s;
    var rest := s - {a};
    assert forall x :: x in s ==> x == a || x in rest;
    m := a;
    if rest != {} {
      var b := FindLeast(rest, key);
      m := if key[b] < key[a] then b else a;
    }
  }

  lemma {:induction false} ProperSubsetSize<T>(a: set<T>, b: set<T>)
    requires a < b
    ensures |a| < |b|
    decreases |a|
  {
    if x :| x in a {
      var y :| y in b && y !in a;
      assert y in b - {x} && y !in a - {x};
      ProperSubsetSize(a - {x}, b - {x});
    } else {
      var y :| y in b;
    }
  }

  lemma {:induction false} SubsetSize<T>(a: set<T>, b: set<T>)
    requires a <= b
    ensures |a| <= |b|
  {
    if a != b { ProperSubsetSize(a, b); }
  }
}
