/**
 * The pieces of Python's string handling that the report parser and the key
 * registry rely on, restricted to ASCII: `str.isspace`, `str.isdigit`,
 * `str.strip`, `int(str)`, `str(int)`, `str.upper` and `str.join`.
 */
module Text {
  import opened Wrappers

  /** Python's `str.isspace()` (and the regex class `\s`) on ASCII: space, tab to carriage return, and the separators 0x1C-0x1F. */
  predicate IsSpace(c: char)
  {
    c == ' ' || ('\t' <= c <= '\r') || ('\U{1c}' <= c <= '\U{1f}')
  }

  predicate IsDigit(c: char)
  {
    '0' <= c <= '9'
  }

  /** `str.isdigit()`: false on the empty string. */
  predicate IsAllDigits(s: string)
  {
    |s| > 0 && forall i :: 0 <= i < |s| ==> IsDigit(s[i])
  }

  predicate IsStripped(s: string)
  {
    s == [] || (!IsSpace(s[0]) && !IsSpace(s[|s| - 1]))
  }

  /** End of the longest run of whitespace that starts at `i`: it stops at the end or at a non-space. */
  function SpaceRunEnd(s: string, i: nat): (r: nat)
    requires i <= |s|
    ensures i <= r <= |s|
    ensures r == |s| || !IsSpace(s[r])
    decreases |s| - i
  {
    if i < |s| && IsSpace(s[i]) then SpaceRunEnd(s, i + 1) else i
  }

  /** Everything the run of whitespace covers is whitespace. */
  lemma {:induction false} SpaceRun(s: string, i: nat)
    requires i <= |s|
    ensures forall k :: i <= k < SpaceRunEnd(s, i) ==> IsSpace(s[k])
    decreases |s| - i
  {
    if i < |s| && IsSpace(s[i]) {
      SpaceRun(s, i + 1);
    }
  }

  /** The run of whitespace from `i` ends at the first non-space after only whitespace. */
  lemma {:induction false} SpaceRunEndAt(s: string, i: nat, w: nat)
    requires i <= w < |s|
    requires forall k :: i <= k < w ==> IsSpace(s[k])
    requires !IsSpace(s[w])
    ensures SpaceRunEnd(s, i) == w
    decreases w - i
  {
    if i < w {
      SpaceRunEndAt(s, i + 1, w);
    }
  }

  /** A whitespace run is found the same way after any prefix. */
  lemma {:induction false} SpaceRunEndShift(x: string, b: string, i: nat)
    requires i <= |b|
    ensures SpaceRunEnd(x + b, |x| + i) == |x| + SpaceRunEnd(b, i)
    decreases |b| - i
  {
    if i < |b| {
      assert (x + b)[|x| + i] == b[i];
      if IsSpace(b[i]) {
        SpaceRunEndShift(x, b, i + 1);
      }
    }
  }

  /** End of the longest run of ASCII digits that starts at `i`: it stops at the end or at a non-digit. */
  function DigitRunEnd(s: string, i: nat): (r: nat)
    requires i <= |s|
    ensures i <= r <= |s|
    ensures r == |s| || !IsDigit(s[r])
    decreases |s| - i
  {
    if i < |s| && IsDigit(s[i]) then DigitRunEnd(s, i + 1) else i
  }

  /** Everything the run of digits covers is a digit. */
  lemma {:induction false} DigitRun(s: string, i: nat)
    requires i <= |s|
    ensures forall k :: i <= k < DigitRunEnd(s, i) ==> IsDigit(s[k])
    decreases |s| - i
  {
    if i < |s| && IsDigit(s[i]) {
      DigitRun(s, i + 1);
    }
  }

  /** `str.strip()`: whitespace is removed from both ends until neither end is whitespace. */
  function Strip(s: string): (r: string)
    ensures IsStripped(r) && |r| <= |s|
  {
    if s != [] && IsSpace(s[0]) then Strip(s[1..])
    else if s != [] && IsSpace(s[|s| - 1]) then Strip(s[..|s| - 1])
    else s
  }

  /** `strip` removes whitespace and nothing else: the result is the slice `s[a..b]` with only whitespace around it. */
  lemma {:induction false} StripIsSlice(s: string) returns (a: nat, b: nat)
    ensures a <= b <= |s| && Strip(s) == s[a..b]
    ensures forall k :: 0 <= k < a ==> IsSpace(s[k])
    ensures forall k :: b <= k < |s| ==> IsSpace(s[k])
  {
    if s != [] && IsSpace(s[0]) {
      var tail := s[1..];
      a, b := StripIsSlice(tail);
      assert tail[a..b] == s[a + 1..b + 1];
      forall k | 0 <= k < a + 1 ensures IsSpace(s[k]) {
        if k > 0 { assert s[k] == tail[k - 1]; }
      }
      forall k | b + 1 <= k < |s| ensures IsSpace(s[k]) {
        assert s[k] == tail[k - 1];
      }
      a, b := a + 1, b + 1;
    } else if s != [] && IsSpace(s[|s| - 1]) {
      var front := s[..|s| - 1];
      a, b := StripIsSlice(front);
      assert front[a..b] == s[a..b];
      forall k | b <= k < |s| ensures IsSpace(s[k]) {
        if k < |s| - 1 { assert s[k] == front[k]; }
      }
    } else {
      a, b := 0, |s|;
    }
  }

  /** `strip` gives the empty string exactly when every character is whitespace. */
  lemma {:induction false} StripEmpty(s: string)
    ensures Strip(s) == [] <==> forall k :: 0 <= k < |s| ==> IsSpace(s[k])
  {
    if s != [] && IsSpace(s[0]) {
      StripEmpty(s[1..]);
      assert forall k :: 0 < k < |s| ==> s[k] == s[1..][k - 1];
    } else if s != [] && IsSpace(s[|s| - 1]) {
      StripEmpty(s[..|s| - 1]);
      assert forall k :: 0 <= k < |s| - 1 ==> s[k] == s[..|s| - 1][k];
    }
  }

  function DigitValue(c: char): (d: nat)
    requires IsDigit(c)
    ensures d < 10
  {
    c as int - '0' as int
  }

  /** The value of a string of decimal digits, read left to right. */
  function DigitsValue(s: string): nat
    requires forall i :: 0 <= i < |s| ==> IsDigit(s[i])
  {
    if s == [] then 0 else DigitsValue(s[..|s| - 1]) * 10 + DigitValue(s[|s| - 1])
  }

  function DigitChar(d: nat): (c: char)
    requires d < 10
    ensures IsDigit(c) && DigitValue(c) == d
  {
    ('0' as int + d) as char
  }

  /** `str(n)` for a non-negative integer: its decimal digits without leading zeros. */
  function NatToString(n: nat): (r: string)
    ensures IsAllDigits(r) && DigitsValue(r) == n
    ensures |r| == 1 || r[0] != '0'
  {
    if n < 10 then [DigitChar(n)]
    else
      var r := NatToString(n / 10) + [DigitChar(n % 10)];
      assert r[..|r| - 1] == NatToString(n / 10);
      r
  }

  /** `str(i)` for any integer: a minus sign before the digits of a negative one. */
  function IntToString(i: int): (r: string)
    ensures i >= 0 ==> IsAllDigits(r) && DigitsValue(r) == i
    ensures i < 0 ==> |r| > 1 && r[0] == '-' && IsAllDigits(r[1..]) && DigitsValue(r[1..]) == -i
    ensures i >= 0 ==> |r| == 1 || r[0] != '0'
    ensures i < 0 ==> r[1] != '0'
  {
    if i < 0 then
      var r := "-" + NatToString(-i);
      assert r[1..] == NatToString(-i);
      r
    else NatToString(i)
  }

  /**
   * The digits of an integer literal as Python's `int()` accepts them: ASCII
   * digits, with single underscores allowed between two digits.
   */
  predicate IsIntBody(s: string)
  {
    && |s| > 0
    && IsDigit(s[0])
    && IsDigit(s[|s| - 1])
    && (forall i :: 0 <= i < |s| ==> IsDigit(s[i]) || s[i] == '_')
    && (forall i :: 0 < i < |s| && s[i] == '_' ==> IsDigit(s[i - 1]))
  }

  /** The characters of `s` other than `_`, in order. */
  function RemoveUnderscores(s: string): (r: string)
    ensures |r| <= |s|
    ensures forall i :: 0 <= i < |r| ==> r[i] != '_'
    ensures (forall i :: 0 <= i < |s| ==> IsDigit(s[i]) || s[i] == '_') ==> forall i :: 0 <= i < |r| ==> IsDigit(r[i])
    ensures (forall i :: 0 <= i < |s| ==> s[i] != '_') ==> r == s
  {
    if s == [] then []
    else if s[0] == '_' then RemoveUnderscores(s[1..])
    else [s[0]] + RemoveUnderscores(s[1..])
  }

  /** Removing underscores works piece by piece: every other character is kept, in order. */
  lemma {:induction false} RemoveUnderscoresAppend(a: string, b: string)
    ensures RemoveUnderscores(a + b) == RemoveUnderscores(a) + RemoveUnderscores(b)
    decreases |a|
  {
    if a == [] {
      assert a + b == b;
    } else {
      assert (a + b)[0] == a[0] && (a + b)[1..] == a[1..] + b;
      RemoveUnderscoresAppend(a[1..], b);
    }
  }

  /**
   * CPython's default limit on the digits `int()` converts (the digits
   * proper, underscores not counted): a longer literal raises `ValueError`.
   * It can be changed with `sys.set_int_max_str_digits`; the default is modelled.
   */
  const MaxStrDigits: nat := 4300

  /** The text after an optional leading sign. */
  function Unsigned(t: string): (r: string)
    ensures |r| <= |t| && r == t[|t| - |r|..]
  {
    if |t| > 0 && (t[0] == '+' || t[0] == '-') then t[1..] else t
  }

  /** The text of an integer literal (after stripping): an optional sign and an `IsIntBody`. */
  predicate IsIntLiteral(t: string)
  {
    IsIntBody(Unsigned(t))
  }

  /**
   * Python's `int(s)` on a string: `None` where Python raises `ValueError`,
   * that is, when the stripped text is no literal or has too many digits.
   */
  function ParseInt(s: string): (r: Option<int>)
    ensures r.None? <==> !IsIntLiteral(Strip(s)) || |RemoveUnderscores(Unsigned(Strip(s)))| > MaxStrDigits
    ensures r.Some? ==> (r.value < 0 ==> Strip(s)[0] == '-')
  {
    var t := Strip(s);
    if IsIntLiteral(t) && |RemoveUnderscores(Unsigned(t))| <= MaxStrDigits then
      var v: int := DigitsValue(RemoveUnderscores(Unsigned(t)));
      Some(if t[0] == '-' then -v else v)
    else None
  }

  lemma NatToStringIsIntBody(n: nat)
    ensures IsIntBody(NatToString(n)) && IsStripped(NatToString(n))
    ensures RemoveUnderscores(NatToString(n)) == NatToString(n)
  {
    var r := NatToString(n);
    assert forall i :: 0 <= i < |r| ==> r[i] != '_' && !IsSpace(r[i]);
  }

  /** `int()` of a plain digit string within the digit limit is its decimal value. */
  lemma ParseIntOfDigits(d: string)
    requires IsIntBody(d) && IsStripped(d) && RemoveUnderscores(d) == d && |d| <= MaxStrDigits
    ensures ParseInt(d) == Some(DigitsValue(d))
  {
    assert Strip(d) == d;
    assert !(d[0] == '+' || d[0] == '-');
  }

  /** `int()` of a digit string longer than the limit raises. */
  lemma ParseIntTooLong(d: string)
    requires IsIntBody(d) && IsStripped(d) && RemoveUnderscores(d) == d && |d| > MaxStrDigits
    ensures ParseInt(d) == None
  {
    assert Strip(d) == d;
    assert !(d[0] == '+' || d[0] == '-');
  }

  /** `int()` of a minus sign before a digit string within the limit is the negated value. */
  lemma ParseIntOfNegated(d: string)
    requires IsIntBody(d) && IsStripped(d) && RemoveUnderscores(d) == d && |d| <= MaxStrDigits
    ensures ParseInt("-" + d) == Some(-(DigitsValue(d) as int))
  {
    var m := "-" + d;
    assert m[0] == '-' && m[1..] == d;
    assert IsStripped(m);
    StripStripped(m);
    assert Unsigned(m) == d;
    assert IsIntLiteral(m);
  }

  /** `int(str(i)) == i`: printing an integer of at most `MaxStrDigits` digits and reading it back gives the integer. */
  lemma ParseIntOfIntToString(i: int)
    requires |NatToString(if i < 0 then -i else i)| <= MaxStrDigits
    ensures ParseInt(IntToString(i)) == Some(i)
  {
    var n: nat := if i < 0 then -i else i;
    NatToStringIsIntBody(n);
    if i < 0 {
      ParseIntOfNegated(NatToString(n));
    } else {
      ParseIntOfDigits(NatToString(n));
    }
  }

  /** A text that is stripped already is what `strip()` returns. */
  lemma StripStripped(s: string)
    requires IsStripped(s)
    ensures Strip(s) == s
  {
  }

  /** `int()` of an unsigned literal body that is already stripped. */
  lemma ParseIntOfBody(d: string)
    requires IsIntBody(d) && IsStripped(d)
    ensures ParseInt(d) == if |RemoveUnderscores(d)| <= MaxStrDigits then Some(DigitsValue(RemoveUnderscores(d))) else None
  {
    StripStripped(d);
    assert Unsigned(d) == d;
  }

  /** Two runs of digits joined by one `_` form a literal body with nothing to strip. */
  lemma DigitsUnderscoreDigitsIsBody(a: string, b: string)
    requires IsAllDigits(a) && IsAllDigits(b)
    ensures IsIntBody(a + "_" + b) && IsStripped(a + "_" + b)
  {
    var u := a + "_" + b;
    forall i | 0 <= i < |u| && i != |a| ensures IsDigit(u[i]) {
      if i < |a| {
        assert u[i] == a[i];
      } else {
        assert u[i] == b[i - |a| - 1];
      }
    }
    assert u[|a|] == '_' && u[|a| - 1] == a[|a| - 1];
    assert u[0] == a[0] && u[|u| - 1] == b[|b| - 1];
  }

  /** Two runs of digits joined by one `_`: a literal body whose digits, once the `_` is removed, are the two runs. */
  lemma DigitsUnderscoreDigits(a: string, b: string)
    requires IsAllDigits(a) && IsAllDigits(b)
    ensures IsIntBody(a + "_" + b) && IsStripped(a + "_" + b)
    ensures RemoveUnderscores(a + "_" + b) == a + b
  {
    DigitsUnderscoreDigitsIsBody(a, b);
    RemoveUnderscoresAppend(a + "_", b);
    RemoveUnderscoresAppend(a, "_");
    assert RemoveUnderscores("_") == [];
    assert RemoveUnderscores(a) == a && RemoveUnderscores(b) == b;
    assert a + [] == a;
  }

  /** An underscore between two runs of digits does not change what `int()` returns: `int("1_0") == int("10")`. */
  lemma ParseIntIgnoresUnderscore(a: string, b: string)
    requires IsAllDigits(a) && IsAllDigits(b)
    ensures ParseInt(a + "_" + b) == ParseInt(a + b)
  {
    DigitsUnderscoreDigits(a, b);
    ParseIntOfBody(a + "_" + b);
    var v := a + b;
    assert IsIntBody(v) && IsStripped(v);
    assert RemoveUnderscores(v) == v;
    ParseIntOfBody(v);
  }

  function UpperChar(c: char): char
  {
    if 'a' <= c <= 'z' then (c as int - 'a' as int + 'A' as int) as char else c
  }

  /** `str.upper()` on ASCII letters; every other character is kept. */
  function Upper(s: string): (r: string)
    ensures |r| == |s|
    ensures forall i :: 0 <= i < |s| ==> r[i] == UpperChar(s[i])
  {
    seq(|s|, i requires 0 <= i < |s| => UpperChar(s[i]))
  }

  /** The number of characters in all of `xs`. */
  function TotalChars(xs: seq<string>): nat
  {
    if xs == [] then 0 else |xs[0]| + TotalChars(xs[1..])
  }

  /** `sep.join(xs)`: the items in order, with one separator between each two. */
  function Join(xs: seq<string>, sep: string): (r: string)
    ensures xs == [] ==> r == ""
    ensures xs != [] ==> |r| == TotalChars(xs) + (|xs| - 1) * |sep|
    ensures xs != [] ==> |xs[0]| <= |r| && r[..|xs[0]|] == xs[0]
  {
    if xs == [] then "" else if |xs| == 1 then xs[0] else xs[0] + sep + Join(xs[1..], sep)
  }

  /** Each further item follows the ones before it, after one separator. */
  lemma {:induction false} JoinSnoc(xs: seq<string>, x: string, sep: string)
    requires xs != []
    ensures Join(xs + [x], sep) == Join(xs, sep) + sep + x
    decreases |xs|
  {
    var ys := xs + [x];
    assert ys[0] == xs[0] && ys[1..] == xs[1..] + [x];
    if |xs| == 1 {
      assert ys[1..] == [x];
    } else {
      JoinSnoc(xs[1..], x, sep);
      assert Join(ys, sep) == xs[0] + sep + (Join(xs[1..], sep) + sep + x);
    }
  }

  function CountChar(s: string, c: char): nat
  {
    if s == [] then 0 else (if s[0] == c then 1 else 0) + CountChar(s[1..], c)
  }

  lemma {:induction false} CountCharAppend(a: string, b: string, c: char)
    ensures CountChar(a + b, c) == CountChar(a, c) + CountChar(b, c)
  {
    if a != [] {
      assert (a + b)[1..] == a[1..] + b;
      CountCharAppend(a[1..], b, c);
    } else {
      assert a + b == b;
    }
  }

  /** A string none of whose characters is `c` contributes nothing to a count of `c`. */
  lemma {:induction false} CountCharAbsent(s: string, c: char)
    requires c !in s
    ensures CountChar(s, c) == 0
  {
    if s != [] {
      assert s == [s[0]] + s[1..];
      CountCharAbsent(s[1..], c);
    }
  }
}
