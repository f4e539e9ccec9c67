/**
 * The string operations the buzzer relies on from the Rust standard library:
 * `str::trim`, `String::len` (a length in UTF-8 bytes), the decimal rendering
 * of a game code (`usize::to_string`, `format!("{}")`) and the integer parsers
 * `str::parse::<usize>` / `str::parse::<i32>` used by the frontend forms.
 */
module Text {

  datatype Option<+T> = None | Some(value: T)

  /** usize::MAX on the frontend's target (wasm32, a 32-bit usize). */
  const USIZE_MAX: nat := 0xFFFF_FFFF

  /** `char::is_whitespace`: the Unicode White_Space property. */
  predicate IsWhitespace(c: char)
  {
    var v := c as int;
    || (0x09 <= v <= 0x0D) || v == 0x20 || v == 0x85 || v == 0xA0
    || v == 0x1680 || (0x2000 <= v <= 0x200A) || v == 0x2028 || v == 0x2029
    || v == 0x202F || v == 0x205F || v == 0x3000
  }

  predicate AllWhitespace(s: string)
  {
    forall i :: 0 <= i < |s| ==> IsWhitespace(s[i])
  }

  /** The number of whitespace characters at the front of `s`. */
  function LeadingWhitespace(s: string): (k: nat)
    ensures k <= |s|
    ensures AllWhitespace(s[..k])
    ensures k < |s| ==> !IsWhitespace(s[k])
    decreases |s|
  {
    if s == [] || !IsWhitespace(s[0]) then 0
    else
      var k := LeadingWhitespace(s[1..]);
      assert s[1..][..k] == s[1..k + 1];
      1 + k
  }

  /** The number of whitespace characters at the back of `s`. */
  function TrailingWhitespace(s: string): (k: nat)
    ensures k <= |s|
    ensures AllWhitespace(s[|s| - k..])
    ensures k < |s| ==> !IsWhitespace(s[|s| - 1 - k])
    decreases |s|
  {
    if s == [] || !IsWhitespace(s[|s| - 1]) then 0
    else
      var init := s[..|s| - 1];
      var k := TrailingWhitespace(init);
      assert init[|init| - k..] == s[|s| - 1 - k..|s| - 1];
      1 + k
  }

  /** True when `r` is `s` with whitespace removed at both ends. */
  predicate IsTrimOf(r: string, s: string)
  {
    exists a, b :: 0 <= a <= b <= |s| && r == s[a..b]
      && AllWhitespace(s[..a]) && AllWhitespace(s[b..])
      && (r != [] ==> !IsWhitespace(r[0]) && !IsWhitespace(r[|r| - 1]))
  }

  /** `str::trim`: drop leading and trailing whitespace. */
  function Trim(s: string): (r: string)
    ensures |r| <= |s|
    ensures r != [] ==> !IsWhitespace(r[0]) && !IsWhitespace(r[|r| - 1])
  {
    var a := LeadingWhitespace(s);
    var rest := s[a..];
    rest[..|rest| - TrailingWhitespace(rest)]
  }

  /** Trim removes exactly the whitespace at both ends and nothing else. */
  lemma TrimIsTrimOf(s: string)
    ensures IsTrimOf(Trim(s), s)
  {
    var a := LeadingWhitespace(s);
    var rest := s[a..];
    var t := TrailingWhitespace(rest);
    var b := a + |rest| - t;
    assert Trim(s) == s[a..b];
    assert s[b..] == rest[|rest| - t..];
  }

  /** `a` is the number of leading whitespace characters whenever the first
      `a` characters are whitespace and the next one (if any) is not. */
  lemma {:induction false} LeadingWhitespaceIs(s: string, a: nat)
    requires a <= |s| && AllWhitespace(s[..a])
    requires a < |s| ==> !IsWhitespace(s[a])
    ensures LeadingWhitespace(s) == a
    decreases a
  {
    if a > 0 {
      assert s[..a][0] == s[0];
      assert s[1..][..a - 1] == s[1..a];
      LeadingWhitespaceIs(s[1..], a - 1);
    }
  }

  /** The mirror image of LeadingWhitespaceIs for the back of `s`. */
  lemma {:induction false} TrailingWhitespaceIs(s: string, u: nat)
    requires u <= |s| && AllWhitespace(s[|s| - u..])
    requires u < |s| ==> !IsWhitespace(s[|s| - 1 - u])
    ensures TrailingWhitespace(s) == u
    decreases u
  {
    if u > 0 {
      var init := s[..|s| - 1];
      assert s[|s| - u..][u - 1] == s[|s| - 1];
      assert init[|init| - (u - 1)..] == s[|s| - u..|s| - 1];
      TrailingWhitespaceIs(init, u - 1);
    }
  }

  /** The unique characterisation: any split of `s` into whitespace, a core
      that starts and ends with non-whitespace, and whitespace, gives Trim. */
  lemma TrimUnique(s: string, a: nat, b: nat)
    requires a <= b <= |s|
    requires AllWhitespace(s[..a]) && AllWhitespace(s[b..])
    requires a < b ==> !IsWhitespace(s[a]) && !IsWhitespace(s[b - 1])
    ensures Trim(s) == s[a..b]
  {
    if a == b {
      TrimAllWhitespace(s, a);
    } else {
      LeadingWhitespaceIs(s, a);
      var rest := s[a..];
      var u := |s| - b;
      assert rest[|rest| - u..] == s[b..];
      TrailingWhitespaceIs(rest, u);
      assert rest[..|rest| - u] == s[a..b];
    }
  }

  /** A string made of whitespace around an empty core trims to nothing. */
  lemma TrimAllWhitespace(s: string, a: nat)
    requires a <= |s| && AllWhitespace(s[..a]) && AllWhitespace(s[a..])
    ensures Trim(s) == []
  {
    assert AllWhitespace(s) by {
      forall i | 0 <= i < |s| ensures IsWhitespace(s[i]) {
        if i < a { assert s[..a][i] == s[i]; } else { assert s[a..][i - a] == s[i]; }
      }
    }
    assert s[..|s|] == s;
    LeadingWhitespaceIs(s, |s|);
  }

  /** Trimming twice is the same as trimming once. */
  lemma TrimIdempotent(s: string)
    ensures Trim(Trim(s)) == Trim(s)
  {
    var r := Trim(s);
    assert r[..0] == [] && r[|r|..] == [];
    TrimUnique(r, 0, |r|);
    assert r[0..|r|] == r;
  }

  /** A string trims to nothing exactly when it is all whitespace. */
  lemma TrimEmptyIffWhitespace(s: string)
    ensures Trim(s) == [] <==> AllWhitespace(s)
  {
    if AllWhitespace(s) {
      assert s[..0] == [] && s[0..] == s;
      TrimUnique(s, 0, 0);
    }
    if Trim(s) == [] {
      TrimIsTrimOf(s);
      var a, b :| 0 <= a <= b <= |s| && Trim(s) == s[a..b]
        && AllWhitespace(s[..a]) && AllWhitespace(s[b..]);
      forall i | 0 <= i < |s| ensures IsWhitespace(s[i]) {
        if i < a { assert s[..a][i] == s[i]; } else { assert s[b..][i - b] == s[i]; }
      }
    }
  }

  /** Bytes of one scalar value in UTF-8. */
  function CharUtf8Len(c: char): (n: nat)
    ensures 1 <= n <= 4
    ensures n == 1 <==> c as int < 0x80
  {
    var v := c as int;
    if v < 0x80 then 1 else if v < 0x800 then 2 else if v < 0x1_0000 then 3 else 4
  }

  /** `String::len`: the length in UTF-8 bytes. */
  function Utf8Len(s: string): (n: nat)
    ensures |s| <= n <= 4 * |s|
    ensures n == |s| <==> forall i :: 0 <= i < |s| ==> s[i] as int < 0x80
    decreases |s|
  {
    if s == [] then 0
    else
      var rest := Utf8Len(s[1..]);
      assert forall i :: 1 <= i < |s| ==> s[i] == s[1..][i - 1];
      CharUtf8Len(s[0]) + rest
  }

  predicate IsDigit(c: char) { '0' <= c <= '9' }

  predicate AllDigits(s: string)
  {
    forall i :: 0 <= i < |s| ==> IsDigit(s[i])
  }

  function DigitChar(d: nat): (c: char)
    requires d < 10
    ensures IsDigit(c) && c as int - '0' as int == d
  {
    ('0' as int + d) as char
  }

  /** Decimal rendering of a natural number, without leading zeros. */
  function NatToString(n: nat): (s: string)
    ensures |s| >= 1 && AllDigits(s)
    ensures s[0] != '0' || n == 0
    decreases n
  {
    if n < 10 then [DigitChar(n)]
    else
      var front := NatToString(n / 10);
      front + [DigitChar(n % 10)]
  }

  /** The value of a string of decimal digits, most significant first. */
  function DigitsValue(s: string): nat
    requires AllDigits(s)
    decreases |s|
  {
    if s == [] then 0
    else DigitsValue(s[..|s| - 1]) * 10 + (s[|s| - 1] as int - '0' as int)
  }

  lemma {:induction false} DigitsValueOfNatToString(n: nat)
    ensures DigitsValue(NatToString(n)) == n
    decreases n
  {
    if n >= 10 {
      var s := NatToString(n);
      assert s[..|s| - 1] == NatToString(n / 10);
      DigitsValueOfNatToString(n / 10);
    }
  }

  /** `str::parse::<usize>`: an optional '+', then one or more ASCII digits,
      and a value that fits a 32-bit usize. */
  function ParseUsize(s: string): (r: Option<nat>)
    ensures r.Some? ==> r.value <= USIZE_MAX
    ensures r.Some? ==> s != [] && s != "+"
  {
    var digits := if |s| > 0 && s[0] == '+' then s[1..] else s;
    if digits == [] || !AllDigits(digits) then None
    else
      var v := DigitsValue(digits);
      if v <= USIZE_MAX then Some(v) else None
  }

  /** Rendering a usize and parsing it back gives the same number. */
  lemma ParseUsizeNatToString(n: nat)
    requires n <= USIZE_MAX
    ensures ParseUsize(NatToString(n)) == Some(n)
  {
    DigitsValueOfNatToString(n);
  }

  /** `str::parse::<i32>`: an optional '+' or '-', then one or more ASCII
      digits, and a value in the i32 range. */
  function ParseI32(s: string): (r: Option<int>)
    ensures r.Some? ==> -0x8000_0000 <= r.value < 0x8000_0000
    ensures r.Some? ==> s != [] && s != "+" && s != "-"
  {
    var negative := |s| > 0 && s[0] == '-';
    var digits := if |s| > 0 && (s[0] == '+' || s[0] == '-') then s[1..] else s;
    if digits == [] || !AllDigits(digits) then None
    else
      var v := if negative then -(DigitsValue(digits) as int) else DigitsValue(digits);
      if -0x8000_0000 <= v < 0x8000_0000 then Some(v) else None
  }

  /** Parsing the rendering of a number, optionally with a minus sign. */
  lemma ParseI32NatToString(n: nat, negative: bool)
    requires if negative then n <= 0x8000_0000 else n < 0x8000_0000
    ensures ParseI32(if negative then "-" + NatToString(n) else NatToString(n))
         == Some(if negative then -(n as int) else n)
  {
    DigitsValueOfNatToString(n);
    if negative {
      var s := "-" + NatToString(n);
      assert s[1..] == NatToString(n);
    }
  }
}
