/**
  The handful of Python value semantics the playbook arguments go through:
  truthiness, `int(v)` and `str(v)`. Only the value kinds that reach the modelled
  code are represented: `None`, booleans, integers and strings.
 */
module Values {
  import opened Outcomes

  /** A scalar argument value as Ansible hands it to the module. */
  datatype Value = VNone | VBool(b: bool) | VInt(i: int) | VStr(s: string)

  /** Python truthiness: `None`, `False`, `0` and `""` are false. */
  predicate Truthy(v: Value) {
    match v
    case VNone => false
    case VBool(b) => b
    case VInt(i) => i != 0
    case VStr(s) => s != ""
  }

  predicate IsDigit(c: char) {
    '0' <= c <= '9'
  }

  predicate AllDigits(s: string) {
    forall k :: 0 <= k < |s| ==> IsDigit(s[k])
  }

  /** A decimal integer literal: an optional sign followed by at least one digit. */
  predicate IsDecimal(s: string) {
    if |s| > 0 && (s[0] == '-' || s[0] == '+') then
      |s| > 1 && AllDigits(s[1..])
    else
      |s| > 0 && AllDigits(s)
  }

  function DigitChar(d: nat): (c: char)
    requires d < 10
    ensures IsDigit(c) && c as int - '0' as int == d
  {
    (d + '0' as int) as char
  }

  /** The number a string of decimal digits denotes (most significant digit first). */
  function DigitsValue(s: string): nat
    requires AllDigits(s)
  {
    if s == [] then 0
    else DigitsValue(s[..|s| - 1]) * 10 + (s[|s| - 1] as int - '0' as int)
  }

  /** Decimal rendering of a natural number, without leading zeros. */
  function ShowNat(n: nat): (s: string)
    ensures |s| >= 1 && AllDigits(s)
    ensures s[0] == '0' ==> n == 0
    decreases n
  {
    if n < 10 then [DigitChar(n)] else ShowNat(n / 10) + [DigitChar(n % 10)]
  }

  /** `str(i)` for an integer. */
  function ShowInt(i: int): (s: string)
    ensures IsDecimal(s)
    ensures s[0] != '+'
    ensures (s[0] == '-') <==> i < 0
    // no leading zeros: a zero digit first is the whole rendering of zero
    ensures s[0] == '0' ==> i == 0 && s == "0"
    ensures i < 0 ==> s[1] != '0'
  {
    if i < 0 then "-" + ShowNat(-i) else ShowNat(i)
  }

  /** `int(s)` for a string, restricted to plain decimal literals. */
  function ParseInt(s: string): (r: Option<int>)
    ensures r.Some? <==> IsDecimal(s)
    ensures r.Some? && r.value < 0 ==> s[0] == '-'
  {
    if |s| > 0 && (s[0] == '-' || s[0] == '+') then
      if |s| > 1 && AllDigits(s[1..]) then
        var n: int := DigitsValue(s[1..]);
        Some(if s[0] == '-' then -n else n)
      else None
    else if |s| > 0 && AllDigits(s) then Some(DigitsValue(s))
    else None
  }

  /** The ASCII whitespace `int()` ignores around a number. */
  predicate IsSpace(c: char) {
    c == ' ' || c == '\t' || c == '\n' || c == '\r' || c as int == 11 || c as int == 12
  }

  function TrimStart(s: string): string {
    if s != [] && IsSpace(s[0]) then TrimStart(s[1..]) else s
  }

  function TrimEnd(s: string): string {
    if s != [] && IsSpace(s[|s| - 1]) then TrimEnd(s[..|s| - 1]) else s
  }

  /** `s.strip()` restricted to ASCII whitespace. */
  function Strip(s: string): string {
    TrimEnd(TrimStart(s))
  }

  /** A string that neither starts nor ends with whitespace is its own stripped form. */
  lemma StripTrimmed(s: string)
    requires s != [] && !IsSpace(s[0]) && !IsSpace(s[|s| - 1])
    ensures Strip(s) == s
  {
  }

  /** Python's `int(v)`; `None` on the inputs for which Python raises. */
  function ToInt(v: Value): (r: Option<int>)
    ensures v.VNone? ==> r.None?
    ensures v.VBool? ==> r == Some(if v.b then 1 else 0)
    ensures v.VInt? ==> r == Some(v.i)
    ensures v.VStr? ==> (r.Some? <==> IsDecimal(Strip(v.s)))
  {
    match v
    case VNone => None
    case VBool(b) => Some(if b then 1 else 0)
    case VInt(i) => Some(i)
    case VStr(s) => ParseInt(Strip(s))
  }

  /** Python's `str(v)` (and `"{0}".format(v)`, which agrees on these kinds). */
  function ToStr(v: Value): string {
    match v
    case VNone => "None"
    case VBool(b) => if b then "True" else "False"
    case VInt(i) => ShowInt(i)
    case VStr(s) => s
  }

  /** Reading back the digits of a rendered number gives the number. */
  lemma {:induction false} DigitsValueShowNat(n: nat)
    ensures DigitsValue(ShowNat(n)) == n
    decreases n
  {
    if n >= 10 {
      var prefix := ShowNat(n / 10);
      var s := prefix + [DigitChar(n % 10)];
      assert s[..|s| - 1] == prefix;
      DigitsValueShowNat(n / 10);
    }
  }

  /** A rendered natural number parses back to itself. */
  lemma ParseShowNat(n: nat)
    ensures ParseInt(ShowNat(n)) == Some(n)
  {
    var s := ShowNat(n);
    assert IsDigit(s[0]);
    DigitsValueShowNat(n);
  }

  /** A minus sign before a rendered positive number parses back to its negation. */
  lemma ParseShowNegative(n: int)
    requires n > 0
    ensures ParseInt("-" + ShowNat(n)) == Some(-n)
  {
    var s := "-" + ShowNat(n);
    assert s[0] == '-' && s[1..] == ShowNat(n);
    DigitsValueShowNat(n);
  }

  /** A run of zero digits denotes zero. */
  lemma {:induction false} DigitsValueZeros(zeros: string)
    requires forall k :: 0 <= k < |zeros| ==> zeros[k] == '0'
    ensures AllDigits(zeros) && DigitsValue(zeros) == 0
    decreases |zeros|
  {
    if zeros != [] {
      DigitsValueZeros(zeros[..|zeros| - 1]);
    }
  }

  /** Leading zeros do not change the number a string of digits denotes. */
  lemma {:induction false} DigitsValueLeadingZeros(zeros: string, s: string)
    requires forall k :: 0 <= k < |zeros| ==> zeros[k] == '0'
    requires AllDigits(s)
    ensures AllDigits(zeros + s) && DigitsValue(zeros + s) == DigitsValue(s)
    decreases |s|
  {
    DigitsValueZeros(zeros);
    var t := zeros + s;
    assert AllDigits(t) by {
      forall k | 0 <= k < |t| ensures IsDigit(t[k]) {
        if k < |zeros| { assert t[k] == zeros[k]; } else { assert t[k] == s[k - |zeros|]; }
      }
    }
    if s == [] {
      assert t == zeros;
    } else {
      var init := s[..|s| - 1];
      assert t[..|t| - 1] == zeros + init;
      assert t[|t| - 1] == s[|s| - 1];
      DigitsValueLeadingZeros(zeros, init);
    }
  }

  /** A non-empty run of digits with no sign is read as the number it denotes. */
  lemma ParseDigits(digits: string)
    requires digits != [] && AllDigits(digits)
    ensures ParseInt(digits) == Some(DigitsValue(digits))
  {
    assert IsDigit(digits[0]);
  }

  /** A sign followed by a non-empty run of digits is read as that number, negated after a minus. */
  lemma ParseSignedDigits(sign: char, digits: string)
    requires sign == '+' || sign == '-'
    requires digits != [] && AllDigits(digits)
    ensures ParseInt([sign] + digits) == Some(if sign == '-' then 0 - DigitsValue(digits) as int else DigitsValue(digits) as int)
  {
    var s := [sign] + digits;
    assert s[0] == sign && s[1..] == digits;
  }

  /**
    Every decimal literal is an optional sign, a run of zeros and the rendering of a
    natural number; `int()` reads it as that number, negated after a minus.
   */
  lemma ParseLiteral(sign: string, zeros: string, n: int)
    requires sign == "" || sign == "+" || sign == "-"
    requires forall k :: 0 <= k < |zeros| ==> zeros[k] == '0'
    requires n >= 0
    ensures ParseInt(sign + zeros + ShowNat(n)) == Some(if sign == "-" then -n else n)
  {
    var digits := zeros + ShowNat(n);
    DigitsValueLeadingZeros(zeros, ShowNat(n));
    DigitsValueShowNat(n);
    assert sign + zeros + ShowNat(n) == sign + digits;
    if sign == "" {
      assert sign + digits == digits;
      ParseDigits(digits);
    } else {
      assert sign == [sign[0]];
      ParseSignedDigits(sign[0], digits);
    }
  }

  /** `int(str(i)) == i` for every integer. */
  lemma ParseShowInt(i: int)
    ensures ParseInt(ShowInt(i)) == Some(i)
  {
    if i < 0 {
      ParseShowNegative(-i);
    } else {
      ParseShowNat(i);
    }
  }

  /** The integer an integer value stringifies to is parsed back unchanged. */
  lemma IntStrRoundTrip(v: Value)
    requires v.VInt?
    ensures ToInt(VStr(ToStr(v))) == ToInt(v)
  {
    var s := ShowInt(v.i);
    assert IsDigit(s[|s| - 1]);
    StripTrimmed(s);
    ParseShowInt(v.i);
  }

  /** Surrounding whitespace does not change the number a string denotes. */
  lemma PaddedIntParses(pad: string, i: int, trail: string)
    requires forall k :: 0 <= k < |pad| ==> IsSpace(pad[k])
    requires forall k :: 0 <= k < |trail| ==> IsSpace(trail[k])
    ensures ToInt(VStr(pad + ShowInt(i) + trail)) == Some(i)
  {
    var s := ShowInt(i);
    assert IsDigit(s[|s| - 1]);
    PadStrip(pad, s, trail);
    ParseShowInt(i);
  }

  /**
    `int()` on a string: any decimal literal (optional sign, leading zeros, digits)
    with whitespace around it reads as its number.
   */
  lemma ToIntLiteral(pad: string, sign: string, zeros: string, n: int, trail: string)
    requires forall k :: 0 <= k < |pad| ==> IsSpace(pad[k])
    requires forall k :: 0 <= k < |trail| ==> IsSpace(trail[k])
    requires sign == "" || sign == "+" || sign == "-"
    requires forall k :: 0 <= k < |zeros| ==> zeros[k] == '0'
    requires n >= 0
    ensures ToInt(VStr(pad + (sign + zeros + ShowNat(n)) + trail)) == Some(if sign == "-" then -n else n)
  {
    var digits := ShowNat(n);
    var lit := sign + zeros + digits;
    assert lit[|lit| - 1] == digits[|digits| - 1];
    assert IsDigit(digits[0]);
    assert lit[0] == if sign != "" then sign[0] else if zeros != [] then zeros[0] else digits[0];
    PadStrip(pad, lit, trail);
    ParseLiteral(sign, zeros, n);
  }

  lemma {:induction false} PadStrip(pad: string, s: string, trail: string)
    requires s != [] && !IsSpace(s[0]) && !IsSpace(s[|s| - 1])
    requires forall k :: 0 <= k < |pad| ==> IsSpace(pad[k])
    requires forall k :: 0 <= k < |trail| ==> IsSpace(trail[k])
    ensures Strip(pad + s + trail) == s
  {
    assert pad + s + trail == pad + (s + trail);
    TrimStartPad(pad, s + trail);
    TrimEndPad(s, trail);
  }

  lemma {:induction false} TrimStartPad(pad: string, rest: string)
    requires rest != [] && !IsSpace(rest[0])
    requires forall k :: 0 <= k < |pad| ==> IsSpace(pad[k])
    ensures TrimStart(pad + rest) == rest
    decreases |pad|
  {
    if pad != [] {
      var full := pad + rest;
      assert full[0] == pad[0] && IsSpace(pad[0]);
      assert full[1..] == pad[1..] + rest;
      assert TrimStart(full) == TrimStart(full[1..]);
      TrimStartPad(pad[1..], rest);
    } else {
      assert pad + rest == rest;
    }
  }

  lemma {:induction false} TrimEndPad(s: string, trail: string)
    requires s != [] && !IsSpace(s[|s| - 1])
    requires forall k :: 0 <= k < |trail| ==> IsSpace(trail[k])
    ensures TrimEnd(s + trail) == s
    decreases |trail|
  {
    if trail != [] {
      var t := trail[..|trail| - 1];
      assert (s + trail)[..|s + trail| - 1] == s + t;
      TrimEndPad(s, t);
    } else {
      assert s + trail == s;
    }
  }
}
