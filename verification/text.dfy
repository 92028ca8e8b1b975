/** Character classes, decimal numerals and the string operations of
    JavaScript's String.prototype that the log helpers rely on
    (toString of an integer, trim, padStart, Array.prototype.join). */
module Text {

  predicate IsDigit(c: char) { '0' <= c <= '9' }

  predicate AllDigits(s: string) { forall i :: 0 <= i < |s| ==> IsDigit(s[i]) }

  predicate IsHexDigit(c: char) { IsDigit(c) || 'a' <= c <= 'f' || 'A' <= c <= 'F' }

  function DigitValue(c: char): (d: nat)
    requires IsDigit(c)
    ensures d < 10
  {
    c as int - '0' as int
  }

  function DigitChar(d: nat): (c: char)
    requires d < 10
    ensures IsDigit(c) && DigitValue(c) == d
  {
    ('0' as int + d) as char
  }

  /** The number a string of decimal digits denotes, most significant digit first. */
  function DigitsValue(s: string): nat
    requires AllDigits(s)
  {
    if s == [] then 0 else 10 * DigitsValue(s[..|s| - 1]) + DigitValue(s[|s| - 1])
  }

  /** A numeral without superfluous leading zeros. */
  predicate Canonical(s: string)
  {
    |s| >= 1 && AllDigits(s) && (|s| == 1 || s[0] != '0')
  }

  /** Number.prototype.toString() of a non-negative integer. */
  function NatToString(n: nat): (r: string)
    ensures Canonical(r)
    ensures DigitsValue(r) == n
  {
    if n < 10 then [DigitChar(n)]
    else
      var r := NatToString(n / 10) + [DigitChar(n % 10)];
      assert r[..|r| - 1] == NatToString(n / 10);
      r
  }

  /** Number.prototype.toString() of an integer. */
  function IntToString(i: int): (r: string)
    ensures i >= 0 ==> Canonical(r) && DigitsValue(r) == i
    ensures i < 0 ==> |r| >= 2 && r[0] == '-' && Canonical(r[1..]) && DigitsValue(r[1..]) == -i
  {
    if i < 0 then "-" + NatToString(-i) else NatToString(i)
  }

  lemma {:induction false} LeadingNonZeroIsPositive(s: string)
    requires |s| >= 1 && AllDigits(s) && s[0] != '0'
    ensures DigitsValue(s) >= 1
  {
    if |s| > 1 {
      LeadingNonZeroIsPositive(s[..|s| - 1]);
    }
  }

  /** A canonical numeral is the decimal form of the number it denotes. */
  lemma {:induction false} CanonicalRoundTrip(s: string)
    requires Canonical(s)
    ensures NatToString(DigitsValue(s)) == s
  {
    if |s| > 1 {
      var p := s[..|s| - 1];
      assert Canonical(p) by { assert p[0] == s[0]; }
      LeadingNonZeroIsPositive(p);
      CanonicalRoundTrip(p);
      var v := DigitsValue(s);
      assert v / 10 == DigitsValue(p) && v % 10 == DigitValue(s[|s| - 1]);
      assert DigitChar(DigitValue(s[|s| - 1])) == s[|s| - 1];
      assert s == p + [s[|s| - 1]];
    } else {
      assert DigitChar(DigitValue(s[0])) == s[0];
    }
  }

  /** Numbers below 1000 have at most three digits. */
  lemma ShortNumeral(n: nat)
    requires n < 1000
    ensures |NatToString(n)| <= 3
  {
    if n >= 10 {
      assert |NatToString(n)| == |NatToString(n / 10)| + 1;
      if n / 10 >= 10 {
        assert |NatToString(n / 10)| == |NatToString(n / 100)| + 1;
      }
    }
  }

  /** Two numbers have the same decimal form only if they are equal. */
  lemma NatToStringInjective(m: nat, n: nat)
    requires NatToString(m) == NatToString(n)
    ensures m == n
  {
  }

  /** WhiteSpace and LineTerminator code points removed by String.prototype.trim. */
  predicate IsJsSpace(c: char)
  {
    c == '\t' || c == '\n' || c == '\U{B}' || c == '\U{C}' || c == '\r' || c == ' '
    || c == '\U{A0}' || c == '\U{1680}' || ('\U{2000}' <= c <= '\U{200A}')
    || c == '\U{2028}' || c == '\U{2029}' || c == '\U{202F}' || c == '\U{205F}'
    || c == '\U{3000}' || c == '\U{FEFF}'
  }

  /** No white space at either end. */
  predicate IsTrimmed(s: string)
  {
    s == [] || (!IsJsSpace(s[0]) && !IsJsSpace(s[|s| - 1]))
  }

  /** String.prototype.trimStart */
  function TrimStart(s: string): (r: string)
    ensures |r| <= |s|
    ensures r == [] || !IsJsSpace(r[0])
    ensures r != [] ==> r[|r| - 1] == s[|s| - 1]
  {
    if s != [] && IsJsSpace(s[0]) then TrimStart(s[1..]) else s
  }

  /** String.prototype.trimEnd */
  function TrimEnd(s: string): (r: string)
    ensures |r| <= |s|
    ensures r == [] || !IsJsSpace(r[|r| - 1])
    ensures r != [] ==> r[0] == s[0]
  {
    if s != [] && IsJsSpace(s[|s| - 1]) then TrimEnd(s[..|s| - 1]) else s
  }

  /** String.prototype.trim: the infix left when the white space at both ends is
      removed. */
  function Trim(s: string): (r: string)
    ensures IsTrimmed(r)
    ensures |r| <= |s|
  {
    TrimEnd(TrimStart(s))
  }

  /** trimStart removes a prefix of white space only. */
  lemma {:induction false} TrimStartRemovesSpace(s: string)
    ensures var r := TrimStart(s);
      r == s[|s| - |r|..] && forall k :: 0 <= k < |s| - |r| ==> IsJsSpace(s[k])
  {
    if s != [] && IsJsSpace(s[0]) {
      TrimStartRemovesSpace(s[1..]);
    }
  }

  /** trimEnd removes a suffix of white space only. */
  lemma {:induction false} TrimEndRemovesSpace(s: string)
    ensures var r := TrimEnd(s);
      r == s[..|r|] && forall k :: |r| <= k < |s| ==> IsJsSpace(s[k])
  {
    if s != [] && IsJsSpace(s[|s| - 1]) {
      TrimEndRemovesSpace(s[..|s| - 1]);
    }
  }

  /** trim removes white space at the two ends and nothing else: the result is the
      infix s[i..i + |r|] of s, and every character before or after it is white
      space. It returns the start i. */
  lemma TrimIsInfix(s: string) returns (i: nat)
    ensures var r := Trim(s);
      i + |r| <= |s| && r == s[i..i + |r|]
      && (forall k :: 0 <= k < i ==> IsJsSpace(s[k])) && (forall k :: i + |r| <= k < |s| ==> IsJsSpace(s[k]))
  {
    var t := TrimStart(s);
    var r := TrimEnd(t);
    TrimStartRemovesSpace(s);
    TrimEndRemovesSpace(t);
    i := |s| - |t|;
    assert t == s[i..] && r == t[..|r|];
    assert s[i..i + |r|] == t[..|r|];
    forall k | i + |r| <= k < |s| ensures IsJsSpace(s[k]) {
      assert s[k] == t[k - i];
    }
  }

  /** Trimming leaves a string alone exactly when it has no white space at its ends. */
  lemma TrimFixesTrimmed(s: string)
    ensures Trim(s) == s <==> IsTrimmed(s)
  {
  }

  /** One space followed by a trimmed word trims to the word. */
  lemma {:induction false} TrimLeadingSpace(w: string)
    requires IsTrimmed(w)
    ensures Trim(" " + w) == w
  {
    assert (" " + w)[1..] == w;
    assert TrimStart(" " + w) == TrimStart(w) == w;
  }

  function Repeat(c: char, n: nat): (r: string)
    ensures |r| == n && forall i :: 0 <= i < n ==> r[i] == c
  {
    if n == 0 then [] else [c] + Repeat(c, n - 1)
  }

  /** String.prototype.padStart(n, fill) with a one-character fill. */
  function PadStart(s: string, n: nat, fill: char): (r: string)
    ensures |s| >= n ==> r == s
    ensures |s| < n ==>
      |r| == n && r[n - |s|..] == s && forall i :: 0 <= i < n - |s| ==> r[i] == fill
  {
    if |s| >= n then s else Repeat(fill, n - |s|) + s
  }

  /** Padding a numeral with leading zeros does not change its value. */
  lemma {:induction false} ZeroPadKeepsValue(s: string, n: nat)
    requires AllDigits(s)
    ensures AllDigits(PadStart(s, n, '0'))
    ensures DigitsValue(PadStart(s, n, '0')) == DigitsValue(s)
    decreases n
  {
    if |s| < n {
      var r := PadStart(s, n, '0');
      assert r == "0" + PadStart(s, n - 1, '0') by {
        assert |s| >= n - 1 ==> Repeat('0', n - |s|) == "0";
      }
      ZeroPadKeepsValue(s, n - 1);
      LeadingZeroKeepsValue(PadStart(s, n - 1, '0'));
    }
  }

  lemma {:induction false} LeadingZeroKeepsValue(s: string)
    requires AllDigits(s)
    ensures AllDigits("0" + s) && DigitsValue("0" + s) == DigitsValue(s)
  {
    if s != [] {
      var z := "0" + s;
      assert z[..|z| - 1] == "0" + s[..|s| - 1];
      LeadingZeroKeepsValue(s[..|s| - 1]);
    }
  }

  /** Array.prototype.join over already converted element strings. */
  function Join(parts: seq<string>, sep: string): string
  {
    if |parts| == 0 then ""
    else if |parts| == 1 then parts[0]
    else Join(parts[..|parts| - 1], sep) + sep + parts[|parts| - 1]
  }

  /** Joining one more part adds the separator and the part. */
  lemma JoinAppend(ws: seq<string>, w: string, sep: string)
    requires |ws| >= 1
    ensures Join(ws + [w], sep) == Join(ws, sep) + sep + w
  {
    assert (ws + [w])[..|ws|] == ws;
  }
}
