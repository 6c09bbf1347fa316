// UTF-16 code units, in which JavaScript strings count their positions. A string here holds Unicode
// scalar values, so it stands for a well-formed JavaScript string.
module Utf16 {
  import Text

  newtype Unit = n: int | 0 <= n < 0x10000

  function Units(c: char): (r: seq<Unit>)
    ensures 1 <= |r| <= 2
    ensures |r| == 1 <==> c as int < 0x10000
    ensures forall i | 0 <= i < |r| && r[i] as int < 0x80 :: r == [r[i]] && r[i] as int == c as int
  {
    var n := c as int;
    if n < 0x10000 then [n as Unit]
    else [(0xD800 + (n - 0x10000) / 0x400) as Unit, (0xDC00 + (n - 0x10000) % 0x400) as Unit]
  }

  function Encode(s: string): seq<Unit> {
    if s == "" then [] else Units(s[0]) + Encode(s[1..])
  }

  // The position in JavaScript of the i-th scalar value.
  function Offset(s: string, i: nat): nat {
    |Encode(if i <= |s| then s[..i] else s)|
  }

  ghost predicate Ascii(s: string) {
    forall i | 0 <= i < |s| :: s[i] as int < 0x80
  }

  // The units of the pattern, an ASCII one, occur in u at k.
  ghost predicate UnitsAt(u: seq<Unit>, k: int, pattern: string) {
    0 <= k && k + |pattern| <= |u| && forall j | 0 <= j < |pattern| :: u[k + j] as int == pattern[j] as int
  }

  lemma {:induction false} EncodeConcat(a: string, b: string)
    ensures Encode(a + b) == Encode(a) + Encode(b)
  {
    if a == "" {
      assert a + b == b;
    } else {
      assert (a + b)[1..] == a[1..] + b;
      EncodeConcat(a[1..], b);
    }
  }

  lemma {:induction false} AsciiEncode(s: string)
    requires Ascii(s)
    ensures |Encode(s)| == |s| && forall j | 0 <= j < |s| :: Encode(s)[j] as int == s[j] as int
  {
    if s != "" {
      AsciiEncode(s[1..]);
    }
  }

  lemma OffsetsIncrease(s: string, i: nat, j: nat)
    requires i < j <= |s|
    ensures Offset(s, i) < Offset(s, j)
  {
    assert s[..j] == s[..i] + s[i..j];
    EncodeConcat(s[..i], s[i..j]);
  }

  // An occurrence of an ASCII pattern shows at its offset.
  lemma OccursInUnits(s: string, i: nat, pattern: string)
    requires Ascii(pattern) && Text.At(s, i, pattern)
    ensures UnitsAt(Encode(s), Offset(s, i), pattern)
  {
    var n := i + |pattern|;
    assert s == s[..i] + (s[i..n] + s[n..]) && s[i..n] == pattern;
    EncodeConcat(s[..i], s[i..n] + s[n..]);
    EncodeConcat(s[i..n], s[n..]);
    AsciiEncode(pattern);
    hide Encode;
    forall j | 0 <= j < |pattern| ensures Encode(s)[Offset(s, i) + j] == Encode(pattern)[j] {
    }
  }

  lemma OffsetOfFirst(s: string)
    requires s != ""
    ensures Offset(s, 0) == 0 && Offset(s, 1) == |Units(s[0])|
  {
    assert s[..0] == "" && s[..1] == [s[0]] && [s[0]][1..] == "";
    assert Encode([s[0]]) == Units(s[0]) + Encode("");
  }

  lemma OffsetInRest(s: string, j: nat)
    requires s != "" && j <= |s| - 1
    ensures Offset(s, j + 1) == |Units(s[0])| + Offset(s[1..], j)
  {
    assert s[..j + 1] == [s[0]] + s[1..][..j] && s[..j + 1][1..] == s[1..][..j];
  }

  // A unit of an ASCII value is the whole of a scalar value.
  lemma {:induction false} UnitOfAscii(s: string, k: nat) returns (i: nat)
    requires k < |Encode(s)| && Encode(s)[k] as int < 0x80
    ensures i < |s| && k == Offset(s, i) && s[i] as int == Encode(s)[k] as int && Offset(s, i + 1) == k + 1
  {
    var first := Units(s[0]);
    OffsetOfFirst(s);
    if k < |first| {
      assert Encode(s)[k] == first[k];
      i := 0;
    } else {
      assert Encode(s)[k] == Encode(s[1..])[k - |first|];
      var j := UnitOfAscii(s[1..], k - |first|);
      hide Encode, Offset;
      i := j + 1;
      OffsetInRest(s, j);
      OffsetInRest(s, j + 1);
    }
  }

  // An ASCII pattern that occurs among the units occurs in the string, at that offset.
  lemma {:induction false} UnitsOccur(s: string, k: nat, pattern: string) returns (i: nat)
    requires Ascii(pattern) && pattern != "" && UnitsAt(Encode(s), k, pattern)
    ensures i < |s| && k == Offset(s, i) && Text.At(s, i, pattern)
    decreases |pattern|
  {
    hide Encode;
    assert Encode(s)[k + 0] as int == pattern[0] as int;
    i := UnitOfAscii(s, k);
    assert s[i] == pattern[0];
    assert pattern == [pattern[0]] + pattern[1..];
    if |pattern| > 1 {
      var rest := pattern[1..];
      assert UnitsAt(Encode(s), k + 1, rest) by {
        forall j | 0 <= j < |rest| ensures Encode(s)[k + 1 + j] as int == rest[j] as int {
          assert Encode(s)[k + (j + 1)] as int == pattern[j + 1] as int;
        }
      }
      var next := UnitsOccur(s, k + 1, rest);
      if next < i + 1 {
        OffsetsIncrease(s, next, i + 1);
      } else if next > i + 1 {
        OffsetsIncrease(s, i + 1, next);
      }
      assert s[i..i + |pattern|] == [s[i]] + s[next..next + |rest|];
    }
  }

  lemma OffsetOrder(s: string, i: nat, j: nat)
    requires i <= |s| && j <= |s|
    ensures i <= j <==> Offset(s, i) <= Offset(s, j)
  {
    if i < j {
      OffsetsIncrease(s, i, j);
    } else if j < i {
      OffsetsIncrease(s, j, i);
    }
  }

  lemma OffsetAfter(s: string, i: nat, pattern: string)
    requires Ascii(pattern) && Text.At(s, i, pattern)
    ensures Offset(s, i + |pattern|) == Offset(s, i) + |pattern|
  {
    assert s[..i + |pattern|] == s[..i] + pattern;
    EncodeConcat(s[..i], pattern);
    AsciiEncode(pattern);
  }

  lemma EncodeSlice(s: string, i: nat, j: nat)
    requires i <= j <= |s|
    ensures Offset(s, i) <= Offset(s, j) <= |Encode(s)| && Encode(s)[Offset(s, i)..Offset(s, j)] == Encode(s[i..j])
  {
    assert s[..j] == s[..i] + s[i..j] && s == s[..j] + s[j..];
    EncodeConcat(s[..i], s[i..j]);
    EncodeConcat(s[..j], s[j..]);
  }

  lemma UnitsInjective(c: char, d: char, a: seq<Unit>, b: seq<Unit>)
    requires Units(c) + a == Units(d) + b
    ensures c == d && a == b
  {
    var u := Units(c) + a;
    assert u[0] == Units(c)[0] == Units(d)[0];
    if |Units(c)| == 2 && |Units(d)| == 2 {
      assert u[1] == Units(c)[1] == Units(d)[1];
    }
    assert c == d;
    assert a == u[|Units(c)|..] == b;
  }

  // No two strings have the same units.
  lemma {:induction false} EncodeInjective(a: string, b: string)
    requires Encode(a) == Encode(b)
    ensures a == b
  {
    if a != "" && b != "" {
      UnitsInjective(a[0], b[0], Encode(a[1..]), Encode(b[1..]));
      EncodeInjective(a[1..], b[1..]);
      assert a == [a[0]] + a[1..] && b == [b[0]] + b[1..];
    }
  }
}
