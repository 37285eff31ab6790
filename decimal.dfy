/**
  Decimal text of integers, as the tablet header key spells its two numbers:
  the formatter writes an optional '-' and the digits without leading zeros;
  the parser (gutil's `safe_strto64` and `safe_strto32`) first drops ASCII
  whitespace at both ends, then accepts an optional sign and one or more
  digits, and fails on anything else and on values outside the target
  integer type.
 */
module Decimal {
  import opened Bytes
  import opened Wrappers

  const Minus: byte := 0x2d       // '-'
  const Plus: byte := 0x2b        // '+'
  const Underscore: byte := 0x5f  // '_'

  predicate IsDigit(b: byte)
  {
    0x30 <= b <= 0x39
  }

  predicate AllDigits(s: Bytes)
  {
    forall i | 0 <= i < |s| :: IsDigit(s[i])
  }

  /** The digits of `n`, most significant first, without leading zeros. */
  function Digits(n: nat): (s: Bytes)
    ensures |s| > 0 && AllDigits(s)
  {
    if n < 10 then [0x30 + n] else Digits(n / 10) + [0x30 + n % 10]
  }

  /** The value of a string of digits. */
  function DigitsValue(s: Bytes): nat
    requires AllDigits(s)
  {
    if s == [] then 0 else DigitsValue(s[..|s| - 1]) * 10 + (s[|s| - 1] - 0x30)
  }

  /** `strings::Substitute("$0", x)` for an integer `x`. */
  function Text(x: int): (s: Bytes)
    ensures |s| > 0 && Underscore !in s
  {
    NoUnderscoreInDigits(if x < 0 then -x else x);
    if x < 0 then [Minus] + Digits(-x) else Digits(x)
  }

  lemma NoUnderscoreInDigits(n: nat)
    ensures Underscore !in Digits(n)
  {
  }

  /** The bytes `ascii_isspace` accepts: space, and tab through carriage return. */
  predicate IsSpace(b: byte)
  {
    b == 0x20 || 0x09 <= b <= 0x0d
  }

  predicate AllSpace(s: Bytes)
  {
    forall i | 0 <= i < |s| :: IsSpace(s[i])
  }

  /** `s` without its leading whitespace. */
  function TrimStart(s: Bytes): (r: Bytes)
    ensures |r| <= |s| && r == s[|s| - |r|..]
    ensures AllSpace(s[..|s| - |r|])
    ensures |r| > 0 ==> !IsSpace(r[0])
    decreases |s|
  {
    if |s| > 0 && IsSpace(s[0]) then
      var r := TrimStart(s[1..]);
      assert s[1..][..|s| - 1 - |r|] == s[1..|s| - |r|];
      r
    else s
  }

  /** `s` without its trailing whitespace. */
  function TrimEnd(s: Bytes): (r: Bytes)
    ensures |r| <= |s| && r == s[..|r|]
    ensures AllSpace(s[|r|..])
    ensures |r| > 0 ==> !IsSpace(r[|r| - 1])
    decreases |s|
  {
    if |s| > 0 && IsSpace(s[|s| - 1]) then
      var r := TrimEnd(s[..|s| - 1]);
      assert s[..|s| - 1][|r|..] == s[|r|..|s| - 1];
      r
    else s
  }

  /** What the parser reads: the text with the whitespace at both of its ends dropped. */
  function Trim(s: Bytes): Bytes
  {
    TrimEnd(TrimStart(s))
  }

  /** A signed decimal number: an optional '+' or '-', then at least one digit. */
  function ParseSigned(s: Bytes): Option<int>
  {
    if |s| > 0 && (s[0] == Minus || s[0] == Plus) then
      if |s| > 1 && AllDigits(s[1..]) then
        var magnitude: int := DigitsValue(s[1..]);
        Some(if s[0] == Minus then -magnitude else magnitude)
      else None
    else if |s| > 0 && AllDigits(s) then Some(DigitsValue(s))
    else None
  }

  /** A decimal number, with any whitespace around it. */
  function Parse(s: Bytes): Option<int>
  {
    ParseSigned(Trim(s))
  }

  function ParseInt64(s: Bytes): Option<int64>
  {
    match Parse(s)
    case Some(x) => if INT64_MIN <= x <= INT64_MAX then Some(x as int64) else None
    case None => None
  }

  function ParseInt32(s: Bytes): Option<int32>
  {
    match Parse(s)
    case Some(x) => if -0x8000_0000 <= x < 0x8000_0000 then Some(x as int32) else None
    case None => None
  }

  lemma {:induction false} DigitsValueOfDigits(n: nat)
    ensures DigitsValue(Digits(n)) == n
  {
    if n >= 10 {
      var d := Digits(n);
      assert d[..|d| - 1] == Digits(n / 10);
      DigitsValueOfDigits(n / 10);
    }
  }

  lemma {:induction false} TrimStartPadded(pre: Bytes, s: Bytes)
    requires AllSpace(pre) && |s| > 0 && !IsSpace(s[0])
    ensures TrimStart(pre + s) == s
    decreases |pre|
  {
    if pre == [] {
      assert pre + s == s;
    } else {
      assert (pre + s)[1..] == pre[1..] + s;
      TrimStartPadded(pre[1..], s);
    }
  }

  lemma {:induction false} TrimEndPadded(s: Bytes, post: Bytes)
    requires AllSpace(post) && |s| > 0 && !IsSpace(s[|s| - 1])
    ensures TrimEnd(s + post) == s
    decreases |post|
  {
    if post == [] {
      assert s + post == s;
    } else {
      assert (s + post)[..|s + post| - 1] == s + post[..|post| - 1];
      TrimEndPadded(s, post[..|post| - 1]);
    }
  }

  /** Whitespace around a text that neither starts nor ends with whitespace is dropped, and nothing else. */
  lemma TrimPadded(pre: Bytes, s: Bytes, post: Bytes)
    requires AllSpace(pre) && AllSpace(post)
    requires |s| > 0 && !IsSpace(s[0]) && !IsSpace(s[|s| - 1])
    ensures Trim(pre + s + post) == s
  {
    assert pre + s + post == pre + (s + post);
    TrimStartPadded(pre, s + post);
    TrimEndPadded(s, post);
  }

  /** Parsing the text of a number gives the number back. */
  lemma {:induction false} ParseText(x: int)
    ensures Parse(Text(x)) == Some(x)
  {
    ParsePadded([], x, []);
    assert [] + Text(x) + [] == Text(x);
  }

  /** The number reads back whatever whitespace surrounds its text. */
  lemma {:induction false} ParsePadded(pre: Bytes, x: int, post: Bytes)
    requires AllSpace(pre) && AllSpace(post)
    ensures Parse(pre + Text(x) + post) == Some(x)
  {
    var t := Text(x);
    assert !IsSpace(t[0]) && !IsSpace(t[|t| - 1]) by {
      if x < 0 {
        assert t[|t| - 1] == Digits(-x)[|Digits(-x)| - 1];
      }
    }
    TrimPadded(pre, t, post);
    SignedText(x);
  }

  /** Whitespace and the digits of a number hold no '_'. */
  lemma NoUnderscorePadded(pre: Bytes, x: int, post: Bytes)
    requires AllSpace(pre) && AllSpace(post)
    ensures Underscore !in pre + Text(x) + post
  {
    var t := Text(x);
    forall i | 0 <= i < |pre + t + post| ensures (pre + t + post)[i] != Underscore {
      if i < |pre| {
        assert (pre + t + post)[i] == pre[i];
      } else if i < |pre| + |t| {
        assert (pre + t + post)[i] == t[i - |pre|];
      } else {
        assert (pre + t + post)[i] == post[i - |pre| - |t|];
      }
    }
  }

  lemma {:induction false} SignedText(x: int)
    ensures ParseSigned(Text(x)) == Some(x)
  {
    if x < 0 {
      var s := Text(x);
      assert s[1..] == Digits(-x);
      DigitsValueOfDigits(-x);
    } else {
      var d := Digits(x);
      assert IsDigit(d[0]);
      DigitsValueOfDigits(x);
    }
  }

  lemma ParseInt64Text(x: int64)
    ensures ParseInt64(Text(x)) == Some(x)
  {
    ParseText(x);
  }

  lemma ParseInt32Text(x: int32)
    ensures ParseInt32(Text(x)) == Some(x)
  {
    ParseText(x);
  }

  /** The index of the first occurrence of `b` in `s` (what `memchr` finds). */
  function IndexOf(s: Bytes, b: byte): (r: Option<nat>)
    ensures r.Some? ==> r.value < |s|
  {
    if s == [] then None
    else if s[0] == b then Some(0)
    else match IndexOf(s[1..], b)
      case None => None
      case Some(i) => Some(i + 1)
  }

  /** The search finds the first occurrence, and fails exactly when there is none. */
  lemma {:induction false} IndexOfFirst(s: Bytes, b: byte)
    ensures IndexOf(s, b).None? <==> b !in s
    ensures IndexOf(s, b).Some? ==> s[IndexOf(s, b).value] == b && b !in s[..IndexOf(s, b).value]
  {
    if s != [] && s[0] != b {
      IndexOfFirst(s[1..], b);
      assert s == [s[0]] + s[1..];
      match IndexOf(s[1..], b)
      case None =>
      case Some(i) => assert s[..i + 1] == [s[0]] + s[1..][..i];
    }
  }
}
