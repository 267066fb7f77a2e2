/** The two pieces of JavaScript string behaviour the core relies on:
    `String.prototype.trim` and the decimal form `Number.prototype.toString`
    gives an integer. */
module Text {
  import opened Types

  /** The ECMAScript WhiteSpace and LineTerminator code points, which `trim` strips. */
  predicate IsTrimmable(c: char)
  {
    || c == '\t' || c == '\U{000B}' || c == '\U{000C}' || c == ' ' || c == '\U{00A0}' || c == '\U{FEFF}'
    || c == '\U{1680}' || ('\U{2000}' <= c <= '\U{200A}') || c == '\U{202F}' || c == '\U{205F}' || c == '\U{3000}'
    || c == '\n' || c == '\r' || c == '\U{2028}' || c == '\U{2029}'
  }

  /** `s` with its leading white space removed: a suffix of `s` that starts with a kept character. */
  function TrimStart(s: string): (r: string)
    ensures |r| <= |s| && r == s[|s| - |r|..]
    ensures forall i :: 0 <= i < |s| - |r| ==> IsTrimmable(s[i])
    ensures r == [] || !IsTrimmable(r[0])
  {
    if |s| > 0 && IsTrimmable(s[0]) then
      var r := TrimStart(s[1..]);
      assert s[1..][|s| - 1 - |r|..] == s[|s| - |r|..];
      assert forall i :: 1 <= i < |s| - |r| ==> s[i] == s[1..][i - 1];
      r
    else s
  }

  /** `s` with its trailing white space removed: a prefix of `s` that ends with a kept character. */
  function TrimEnd(s: string): (r: string)
    ensures |r| <= |s| && r == s[..|r|]
    ensures forall i :: |r| <= i < |s| ==> IsTrimmable(s[i])
    ensures r == [] || !IsTrimmable(r[|r| - 1])
  {
    if |s| > 0 && IsTrimmable(s[|s| - 1]) then
      var r := TrimEnd(s[..|s| - 1]);
      assert s[..|s| - 1][..|r|] == s[..|r|];
      assert forall i :: |r| <= i < |s| - 1 ==> s[i] == s[..|s| - 1][i];
      r
    else s
  }

  /** `String.prototype.trim`: the middle of `s` left after dropping white space at
      both ends; it starts and ends with a kept character. */
  function Trim(s: string): (r: string)
    ensures |s| - |TrimStart(s)| + |r| <= |s|
    ensures forall j :: 0 <= j < |r| ==> r[j] == s[|s| - |TrimStart(s)| + j]
    ensures forall i :: |s| - |TrimStart(s)| + |r| <= i < |s| ==> IsTrimmable(s[i])
    ensures r != [] ==> !IsTrimmable(r[0])
    ensures r != [] ==> !IsTrimmable(r[|r| - 1])
  {
    TrimIsSlice(s);
    TrimLeavesBlankTail(s);
    TrimKeptEnds(s);
    TrimEnd(TrimStart(s))
  }

  /** Trimming at both ends leaves a slice of the original string. */
  lemma TrimIsSlice(s: string)
    ensures |s| - |TrimStart(s)| + |TrimEnd(TrimStart(s))| <= |s|
    ensures forall j :: 0 <= j < |TrimEnd(TrimStart(s))| ==>
      TrimEnd(TrimStart(s))[j] == s[|s| - |TrimStart(s)| + j]
  {
    var t := TrimStart(s);
    PrefixOfSuffix(s, t, TrimEnd(t));
  }

  /** A prefix of a suffix of `s` is a slice of `s`. */
  lemma PrefixOfSuffix(s: string, t: string, u: string)
    requires |t| <= |s| && t == s[|s| - |t|..]
    requires |u| <= |t| && u == t[..|u|]
    ensures forall j :: 0 <= j < |u| ==> u[j] == s[|s| - |t| + j]
  {
  }

  /** Only white space follows that slice. */
  lemma TrimLeavesBlankTail(s: string)
    ensures forall i :: |s| - |TrimStart(s)| + |TrimEnd(TrimStart(s))| <= i < |s| ==> IsTrimmable(s[i])
  {
    var t := TrimStart(s);
    BlankTailOfSuffix(s, t, |TrimEnd(t)|);
  }

  /** White space at the end of a suffix of `s` is white space at the end of `s`. */
  lemma BlankTailOfSuffix(s: string, t: string, n: nat)
    requires |t| <= |s| && t == s[|s| - |t|..] && n <= |t|
    requires forall i :: n <= i < |t| ==> IsTrimmable(t[i])
    ensures forall i :: |s| - |t| + n <= i < |s| ==> IsTrimmable(s[i])
  {
    forall i | |s| - |t| + n <= i < |s|
      ensures IsTrimmable(s[i])
    {
      assert s[i] == t[i - (|s| - |t|)];
    }
  }

  /** The slice starts and ends with a kept character. */
  lemma TrimKeptEnds(s: string)
    ensures TrimEnd(TrimStart(s)) == [] ||
      (!IsTrimmable(TrimEnd(TrimStart(s))[0]) && !IsTrimmable(TrimEnd(TrimStart(s))[|TrimEnd(TrimStart(s))| - 1]))
  {
    var t := TrimStart(s);
    var u := TrimEnd(t);
    assert u != [] ==> u[0] == t[0];
  }

  /** A string is falsy after trimming exactly when every character of it is white space. */
  lemma TrimEmptyIffBlank(s: string)
    ensures Trim(s) == [] <==> forall i :: 0 <= i < |s| ==> IsTrimmable(s[i])
  {
    var t := TrimStart(s);
    if t != [] {
      assert t[0] == s[|s| - |t|];
      assert !IsTrimmable(t[0]);
      var u := TrimEnd(t);
    }
  }

  predicate IsDigit(c: char)
  {
    '0' <= c <= '9'
  }

  predicate AllDigits(s: string)
  {
    forall i :: 0 <= i < |s| ==> IsDigit(s[i])
  }

  function DigitChar(d: int): (c: char)
    requires 0 <= d < 10
    ensures IsDigit(c) && c as int - '0' as int == d
  {
    ('0' as int + d) as char
  }

  /** The decimal digits of `n`, most significant first, with no leading zero. */
  function NatToDecimal(n: nat): (s: string)
    ensures |s| >= 1 && AllDigits(s)
    ensures s[0] == '0' ==> n == 0 && s == "0"
    decreases n
  {
    if n < 10 then [DigitChar(n)] else NatToDecimal(n / 10) + [DigitChar(n % 10)]
  }

  /** The form `toString` gives an integer: an optional minus sign, then at least one
      digit, with no leading zero unless the digits are exactly "0", and no "-0". */
  predicate CanonicalDecimal(s: string)
  {
    if |s| > 0 && s[0] == '-' then |s| >= 2 && AllDigits(s[1..]) && s[1] != '0'
    else |s| >= 1 && AllDigits(s) && (s[0] == '0' ==> s == "0")
  }

  /** `Number.prototype.toString()` of an integer whose magnitude is below 10^21. */
  function IntToDecimal(i: int): (s: string)
    ensures CanonicalDecimal(s)
    ensures i >= 0 ==> |s| >= 1 && AllDigits(s) && DigitsValue(s) == i
    ensures i < 0 ==> |s| >= 2 && s[0] == '-' && AllDigits(s[1..]) && DigitsValue(s[1..]) == -i
    ensures i >= 0 && s[0] == '0' ==> s == "0"
    ensures i < 0 ==> s[1] != '0'
  {
    if i < 0 then
      NatToDecimalValue(-i);
      assert ("-" + NatToDecimal(-i))[1..] == NatToDecimal(-i);
      "-" + NatToDecimal(-i)
    else
      NatToDecimalValue(i);
      NatToDecimal(i)
  }

  /** The number a string of decimal digits denotes. */
  function DigitsValue(s: string): (n: nat)
    requires AllDigits(s)
  {
    if s == [] then 0 else DigitsValue(s[..|s| - 1]) * 10 + (s[|s| - 1] as int - '0' as int)
  }

  /** Reads an optionally signed, non-empty string of decimal digits. */
  function ParseDecimal(s: string): (r: Option<int>)
  {
    if |s| > 1 && s[0] == '-' && AllDigits(s[1..]) then Some(0 - DigitsValue(s[1..]) as int)
    else if |s| > 0 && AllDigits(s) then Some(DigitsValue(s))
    else None
  }

  lemma {:induction false} NatToDecimalValue(n: nat)
    ensures DigitsValue(NatToDecimal(n)) == n
    decreases n
  {
    var s := NatToDecimal(n);
    if n >= 10 {
      NatToDecimalValue(n / 10);
      assert s[..|s| - 1] == NatToDecimal(n / 10);
    }
  }

  /** A digit string without leading zero is the decimal form of its own value. */
  lemma {:induction false} DigitsCanonical(d: string)
    requires |d| >= 1 && AllDigits(d) && (d[0] == '0' ==> d == "0")
    ensures d == NatToDecimal(DigitsValue(d))
    decreases |d|
  {
    var n := DigitsValue(d);
    var last := d[|d| - 1];
    if |d| == 1 {
      assert d[..|d| - 1] == [];
      assert DigitsValue(d[..|d| - 1]) == 0;
      assert n == last as int - '0' as int;
      assert NatToDecimal(n) == [DigitChar(n)];
    } else {
      var d' := d[..|d| - 1];
      assert d'[0] == d[0] && d[0] != '0';
      DigitsCanonical(d');
      var v := DigitsValue(d');
      var r := last as int - '0' as int;
      assert n == v * 10 + r && 0 <= r < 10;
      assert n / 10 == v && n % 10 == r;
      assert DigitChar(r) == last;
      assert d == d' + [last];
    }
  }

  /** A canonical decimal string is the only one of that form for its value: whatever
      canonical string reads back as `i` is exactly the decimal form of `i`. */
  lemma CanonicalDecimalUnique(s: string, i: int)
    requires CanonicalDecimal(s) && ParseDecimal(s) == Some(i)
    ensures s == IntToDecimal(i)
  {
    if s[0] == '-' {
      var d := s[1..];
      DigitsCanonical(d);
      assert s == "-" + d;
    } else {
      DigitsCanonical(s);
    }
  }

  /** The decimal form of an integer reads back as that integer, so distinct clock
      values give distinct identifiers. */
  lemma DecimalRoundTrip(i: int)
    ensures ParseDecimal(IntToDecimal(i)) == Some(i)
  {
    if i < 0 {
      var d := NatToDecimal(-i);
      NatToDecimalValue(-i);
      assert IntToDecimal(i)[1..] == d;
    } else {
      var d := NatToDecimal(i);
      NatToDecimalValue(i);
      assert !(d[0] == '-');
    }
  }
}
