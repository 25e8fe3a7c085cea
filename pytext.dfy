/**
 * The three pieces of Python's text handling the core depends on:
 * `str.strip()` (used on the submitted uid), `int(s)` for a string `s`
 * (used for the submitted target and for the provider's counter) and
 * `str(n)` for an integer, its inverse.
 */
module PyText {
  import opened Wrappers

  /** The characters Python's `str.isspace()` accepts (and `strip()` removes). */
  predicate IsSpace(c: char) {
    var n := c as int;
    (9 <= n <= 13) || (28 <= n <= 32) || n == 0x85 || n == 0xA0 || n == 0x1680
    || (0x2000 <= n <= 0x200A) || n == 0x2028 || n == 0x2029 || n == 0x202F
    || n == 0x205F || n == 0x3000
  }

  /**
   * The information separators U+001C to U+001F: `str.isspace()` accepts
   * them, but `int()` neither skips them nor reads them, so it rejects any
   * string holding one.
   */
  predicate IsSeparator(c: char) {
    28 <= c as int <= 31
  }

  /** The white space `int()` skips around a number. */
  predicate IsIntSpace(c: char) {
    IsSpace(c) && !IsSeparator(c)
  }

  predicate HasSeparator(s: string) {
    exists k :: 0 <= k < |s| && IsSeparator(s[k])
  }

  /** `s.lstrip()`: a suffix of `s`, everything dropped was white space. */
  function TrimLeft(s: string): (r: string)
    ensures |r| <= |s| && r == s[|s| - |r|..]
    ensures r == [] || !IsSpace(r[0])
    ensures forall k :: 0 <= k < |s| - |r| ==> IsSpace(s[k])
  {
    if s != [] && IsSpace(s[0]) then TrimLeft(s[1..]) else s
  }

  /** `s.rstrip()`: a prefix of `s`, everything dropped was white space. */
  function TrimRight(s: string): (r: string)
    ensures |r| <= |s| && r == s[..|r|]
    ensures r == [] || !IsSpace(r[|r| - 1])
    ensures forall k :: |r| <= k < |s| ==> IsSpace(s[k])
  {
    if s != [] && IsSpace(s[|s| - 1]) then TrimRight(s[..|s| - 1]) else s
  }

  /**
   * `s.strip()`: the white space at the front of `s` is dropped, leaving
   * the suffix `TrimLeft(s)`, and then the white space at its back, leaving
   * a prefix of that suffix; what remains neither starts nor ends with
   * white space.
   */
  function Strip(s: string): (r: string)
    ensures var l := TrimLeft(s);
      |r| <= |l| <= |s| && l == s[|s| - |l|..] && r == l[..|r|]
      && (forall k :: 0 <= k < |s| - |l| ==> IsSpace(s[k]))
      && (forall k :: |r| <= k < |l| ==> IsSpace(l[k]))
    ensures r == [] || (!IsSpace(r[0]) && !IsSpace(r[|r| - 1]))
  {
    var l := TrimLeft(s);
    var r := TrimRight(l);
    assert r == [] || r[0] == l[0];
    r
  }

  /** Stripping twice is stripping once. */
  lemma StripIdempotent(s: string)
    ensures Strip(Strip(s)) == Strip(s)
  {
    var r := Strip(s);
    assert r == [] || !IsSpace(r[0]);
    assert TrimLeft(r) == r;
  }

  predicate IsDigit(c: char) {
    '0' <= c <= '9'
  }

  function DigitValue(c: char): (d: nat)
    requires IsDigit(c)
    ensures d < 10
  {
    c as int - '0' as int
  }

  function DigitChar(d: nat): (c: char)
    requires d < 10
    ensures IsDigit(c) && DigitValue(c) == d
  {
    ('0' as int + d) as char
  }

  /**
   * The digit part Python's `int()` accepts in base 10: ASCII digits,
   * with single underscores allowed between two digits.
   */
  predicate DigitGroup(s: string) {
    |s| > 0 && IsDigit(s[0]) && IsDigit(s[|s| - 1])
    && (forall k :: 0 <= k < |s| ==> IsDigit(s[k]) || s[k] == '_')
    && (forall k :: 0 <= k < |s| - 1 ==> s[k] == '_' ==> s[k + 1] != '_')
  }

  /** The value of a run of digits and underscores; the underscores are skipped. */
  function DigitsValue(s: string): nat
    requires forall k :: 0 <= k < |s| ==> IsDigit(s[k]) || s[k] == '_'
  {
    if s == [] then 0
    else if s[|s| - 1] == '_' then DigitsValue(s[..|s| - 1])
    else 10 * DigitsValue(s[..|s| - 1]) + DigitValue(s[|s| - 1])
  }

  /**
   * A stripped number as `int()` reads it: an optional sign, then a digit
   * group; `None` for anything else.
   */
  function ReadSigned(t: string): (r: Option<int>)
    ensures r.Some? <==> DigitGroup(t) || (|t| > 0 && (t[0] == '+' || t[0] == '-') && DigitGroup(t[1..]))
    ensures r.Some? && DigitGroup(t) ==> r.value == DigitsValue(t)
    ensures r.Some? && |t| > 0 && t[0] == '+' ==> r.value == DigitsValue(t[1..])
    ensures r.Some? && |t| > 0 && t[0] == '-' ==> r.value == -(DigitsValue(t[1..]) as int)
  {
    if |t| > 0 && (t[0] == '+' || t[0] == '-') then
      if DigitGroup(t[1..]) then
        var v: int := DigitsValue(t[1..]);
        Some(if t[0] == '-' then -v else v)
      else None
    else if DigitGroup(t) then Some(DigitsValue(t))
    else None
  }

  /**
   * `int(s)` for a string in base 10; `None` where Python raises
   * `ValueError`. A string holding an information separator is rejected;
   * any other is stripped and read as an optional sign and a digit group.
   */
  function ParseInt(s: string): (r: Option<int>)
    ensures HasSeparator(s) ==> r.None?
    ensures !HasSeparator(s) ==> r == ReadSigned(Strip(s))
  {
    if HasSeparator(s) then None else ReadSigned(Strip(s))
  }

  /** `str(n)` for a non-negative integer: its decimal digits, no leading zero. */
  function ShowNat(n: nat): string {
    if n < 10 then [DigitChar(n)] else ShowNat(n / 10) + [DigitChar(n % 10)]
  }

  /** `str(n)`. */
  function Show(n: int): string {
    if n < 0 then "-" + ShowNat(-n) else ShowNat(n)
  }

  lemma {:induction false} ShowNatDigits(n: nat)
    ensures DigitGroup(ShowNat(n)) && DigitsValue(ShowNat(n)) == n
    ensures forall k :: 0 <= k < |ShowNat(n)| ==> IsDigit(ShowNat(n)[k])
  {
    if n >= 10 {
      ShowNatDigits(n / 10);
      var s := ShowNat(n);
      assert s[..|s| - 1] == ShowNat(n / 10);
    }
  }

  /** Reading back what `str(n)` prints gives `n`: `int(str(n)) == n`. */
  lemma {:induction false} ParseShow(n: int)
    ensures ParseInt(Show(n)) == Some(n)
  {
    if n < 0 {
      ParseNegative(-n);
    } else {
      ParseNonNegative(n);
    }
  }

  lemma ParseNonNegative(n: nat)
    ensures ParseInt(ShowNat(n)) == Some(n)
  {
    var s := ShowNat(n);
    ShowNatDigits(n);
    assert !HasSeparator(s);
    StripUnpadded(s);
  }

  lemma ParseNegative(n: nat)
    requires n > 0
    ensures ParseInt("-" + ShowNat(n)) == Some(-(n as int))
  {
    var d := ShowNat(n);
    ShowNatDigits(n);
    SignedDigits(d);
    StripUnpadded("-" + d);
  }

  /** A minus sign before a run of digits: no separator, no white space at either end, and the negated value. */
  lemma SignedDigits(d: string)
    requires DigitGroup(d) && forall k :: 0 <= k < |d| ==> IsDigit(d[k])
    ensures var s := "-" + d;
      !HasSeparator(s) && !IsSpace(s[0]) && !IsSpace(s[|s| - 1])
      && ReadSigned(s) == Some(-(DigitsValue(d) as int))
  {
    var s := "-" + d;
    assert s[1..] == d;
    forall k | 0 <= k < |s| ensures !IsSeparator(s[k]) {
      if k > 0 { assert s[k] == d[k - 1]; }
    }
    assert s[|s| - 1] == d[|d| - 1];
  }

  /** A string with no white space at either end is its own strip. */
  lemma StripUnpadded(s: string)
    requires s != [] && !IsSpace(s[0]) && !IsSpace(s[|s| - 1])
    ensures Strip(s) == s
  {
    assert TrimLeft(s) == s;
  }

  /** The white space `int()` skips around a number does not change what it reads. */
  lemma ParseIgnoresSpace(pre: string, s: string, post: string)
    requires forall k :: 0 <= k < |pre| ==> IsIntSpace(pre[k])
    requires forall k :: 0 <= k < |post| ==> IsIntSpace(post[k])
    ensures ParseInt(pre + s + post) == ParseInt(s)
  {
    var w := pre + s + post;
    if HasSeparator(s) {
      var k :| 0 <= k < |s| && IsSeparator(s[k]);
      assert w[|pre| + k] == s[k];
    } else {
      forall k | 0 <= k < |w| ensures !IsSeparator(w[k]) {
        if k < |pre| { assert w[k] == pre[k]; }
        else if k < |pre| + |s| { assert w[k] == s[k - |pre|]; }
        else { assert w[k] == post[k - |pre| - |s|]; }
      }
      StripAround(pre, s, post);
    }
  }

  /** A separator at the edge of a number makes `int()` fail, although `strip()` would remove it. */
  lemma SeparatorRejected(s: string)
    ensures ParseInt([28 as char] + s) == None
  {
    assert IsSeparator(([28 as char] + s)[0]);
  }

  lemma {:induction false} StripAround(pre: string, s: string, post: string)
    requires forall k :: 0 <= k < |pre| ==> IsSpace(pre[k])
    requires forall k :: 0 <= k < |post| ==> IsSpace(post[k])
    ensures Strip(pre + s + post) == Strip(s)
  {
    assert pre + s + post == pre + (s + post);
    TrimLeftAround(pre, s + post);
    var l := TrimLeft(s);
    if l == [] {
      var w := s + post;
      AllSpaceConcat(s, post);
      assert w + [] == w;
      TrimLeftAround(w, []);
      assert TrimLeft(w) == [];
    } else {
      TrimLeftKeepsSuffix(s, post);
      TrimRightAround(l, post);
    }
  }

  lemma AllSpaceConcat(s: string, post: string)
    requires TrimLeft(s) == []
    requires forall k :: 0 <= k < |post| ==> IsSpace(post[k])
    ensures forall k :: 0 <= k < |s + post| ==> IsSpace((s + post)[k])
  {
    forall k | 0 <= k < |s + post| ensures IsSpace((s + post)[k]) {
      if k >= |s| { assert (s + post)[k] == post[k - |s|]; }
      else { assert (s + post)[k] == s[k]; }
    }
  }

  lemma {:induction false} TrimLeftAround(pre: string, s: string)
    requires forall k :: 0 <= k < |pre| ==> IsSpace(pre[k])
    ensures TrimLeft(pre + s) == TrimLeft(s)
  {
    if pre != [] {
      assert (pre + s)[0] == pre[0];
      assert (pre + s)[1..] == pre[1..] + s;
      TrimLeftAround(pre[1..], s);
    } else {
      assert pre + s == s;
    }
  }

  lemma {:induction false} TrimLeftKeepsSuffix(s: string, post: string)
    requires TrimLeft(s) != []
    ensures TrimLeft(s + post) == TrimLeft(s) + post
  {
    assert (s + post)[0] == s[0];
    if IsSpace(s[0]) {
      assert (s + post)[1..] == s[1..] + post;
      TrimLeftKeepsSuffix(s[1..], post);
    }
  }

  lemma {:induction false} TrimRightAround(s: string, post: string)
    requires forall k :: 0 <= k < |post| ==> IsSpace(post[k])
    ensures TrimRight(s + post) == TrimRight(s)
  {
    if post != [] {
      var p := post[..|post| - 1];
      assert (s + post)[|s + post| - 1] == post[|post| - 1];
      assert (s + post)[..|s + post| - 1] == s + p;
      TrimRightAround(s, p);
    } else {
      assert s + post == s;
    }
  }
}
