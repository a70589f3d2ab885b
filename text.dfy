/** Strings as the tracker's JavaScript sees them: character classes of the
    regular-expression engine, `String(n)` for integers, `padStart`,
    `parseInt` on digit strings, `String.prototype.trim`, and the code-unit
    order that `Array.prototype.sort` uses by default. */
module Text {

  // ----- character classes -------------------------------------------------

  predicate IsDigit(c: char) { '0' <= c <= '9' }

  predicate AllDigits(s: string) { forall i :: 0 <= i < |s| ==> IsDigit(s[i]) }

  predicate IsAsciiLetter(c: char) { 'A' <= c <= 'Z' || 'a' <= c <= 'z' }

  /** The class `\w`: ASCII letters, digits and the underscore. */
  predicate IsWordChar(c: char) { IsAsciiLetter(c) || IsDigit(c) || c == '_' }

  /** JavaScript line terminators: LF, CR, LINE SEPARATOR, PARAGRAPH SEPARATOR. */
  predicate IsLineTerminator(c: char) {
    c == '\n' || c == '\r' || c as int == 0x2028 || c as int == 0x2029
  }

  /** The class `\s`, which is also what `trim` removes: the line terminators
      and the JavaScript white-space characters. */
  predicate IsJsSpace(c: char) {
    var u := c as int;
    IsLineTerminator(c) || u == 0x09 || u == 0x0B || u == 0x0C || u == 0x20
    || u == 0xA0 || u == 0x1680 || (0x2000 <= u <= 0x200A) || u == 0x202F
    || u == 0x205F || u == 0x3000 || u == 0xFEFF
  }

  /** Case folding of the `i` flag without the `u` flag, restricted to the
      characters `\w` can match (only ASCII letters change). */
  function FoldAscii(c: char): char {
    if 'a' <= c <= 'z' then (c as int - 32) as char else c
  }

  /** `FoldAscii` applied to every character. */
  function FoldString(s: string): (r: string)
    ensures |r| == |s|
  {
    seq(|s|, j requires 0 <= j < |s| => FoldAscii(s[j]))
  }

  // ----- decimal rendering and parsing -------------------------------------

  function DigitChar(n: int): (c: char)
    requires 0 <= n < 10
    ensures IsDigit(c) && c as int - '0' as int == n
  {
    (n + '0' as int) as char
  }

  function DigitValue(c: char): int
    requires IsDigit(c)
  {
    c as int - '0' as int
  }

  /** `String(n)` for a non-negative integer: decimal digits, no leading zero. */
  function NatToString(n: nat): (s: string)
    ensures |s| >= 1 && AllDigits(s)
    ensures s[0] == '0' ==> n == 0
    ensures n < 10 <==> |s| == 1
    decreases n
  {
    if n < 10 then [DigitChar(n)] else NatToString(n / 10) + [DigitChar(n % 10)]
  }

  /** `String(i)` for any integer: a minus sign before the magnitude. */
  function IntToString(i: int): string {
    if i < 0 then "-" + NatToString(-i) else NatToString(i)
  }

  /** Different integers print differently. */
  lemma IntToStringInjective(a: int, b: int)
    requires IntToString(a) == IntToString(b)
    ensures a == b
  {
    var s := IntToString(a);
    if a < 0 && b < 0 {
      assert s[1..] == NatToString(-a) && s[1..] == NatToString(-b);
      NatToStringInjective(-a, -b);
    } else if a >= 0 && b >= 0 {
      NatToStringInjective(a, b);
    }
  }

  /** `parseInt` of a string made of decimal digits only. */
  function ParseDigits(s: string): nat
    requires AllDigits(s)
  {
    if s == [] then 0 else ParseDigits(s[..|s| - 1]) * 10 + DigitValue(s[|s| - 1])
  }

  /** Parsing undoes rendering. */
  lemma {:induction false} ParseNatToString(n: nat)
    ensures ParseDigits(NatToString(n)) == n
    decreases n
  {
    if n >= 10 {
      ParseNatToString(n / 10);
      var s := NatToString(n);
      assert s[..|s| - 1] == NatToString(n / 10);
    }
  }

  lemma NatToStringInjective(a: nat, b: nat)
    ensures NatToString(a) == NatToString(b) ==> a == b
  {
    ParseNatToString(a);
    ParseNatToString(b);
  }

  /** A digit string that `String(n)` can produce: no leading zero unless it is "0". */
  predicate Canonical(s: string) {
    |s| >= 1 && AllDigits(s) && (s[0] == '0' ==> |s| == 1)
  }

  lemma {:induction false} ParseDigitsZero(s: string)
    requires AllDigits(s) && ParseDigits(s) == 0
    ensures forall i :: 0 <= i < |s| ==> s[i] == '0'
  {
    if s != [] {
      ParseDigitsZero(s[..|s| - 1]);
      assert forall i :: 0 <= i < |s| - 1 ==> s[..|s| - 1][i] == s[i];
    }
  }

  /** Rendering undoes parsing on canonical digit strings. */
  lemma {:induction false} NatToStringParse(s: string)
    requires Canonical(s)
    ensures NatToString(ParseDigits(s)) == s
    decreases |s|
  {
    if |s| >= 2 {
      var q := s[..|s| - 1];
      assert q[0] == s[0];
      NatToStringParse(q);
      if ParseDigits(q) == 0 {
        ParseDigitsZero(q);
        assert false;
      }
      var n := ParseDigits(s);
      assert n / 10 == ParseDigits(q) && n % 10 == DigitValue(s[|s| - 1]);
      assert s == q + [s[|s| - 1]];
    }
  }

  lemma {:induction false} ParseDigitsLeadingZero(s: string)
    requires AllDigits(s)
    ensures ParseDigits(['0'] + s) == ParseDigits(s)
    decreases |s|
  {
    if s != [] {
      var t := ['0'] + s;
      assert t[..|t| - 1] == ['0'] + s[..|s| - 1];
      ParseDigitsLeadingZero(s[..|s| - 1]);
    }
  }

  // ----- padStart ----------------------------------------------------------

  /** `s.padStart(width, fill)` with a one-character fill. */
  function PadStart(s: string, width: nat, fill: char): (r: string)
    ensures |r| == if |s| >= width then |s| else width
    ensures r[|r| - |s|..] == s
    ensures forall i :: 0 <= i < |r| - |s| ==> r[i] == fill
  {
    if |s| >= width then s else seq(width - |s|, _ => fill) + s
  }

  /** `String(n).padStart(2, '0')`. */
  function Pad2(n: nat): string {
    PadStart(NatToString(n), 2, '0')
  }

  /** Below 100 the padded form has exactly two digits and reads back as `n`. */
  lemma Pad2Parse(n: nat)
    requires n < 100
    ensures |Pad2(n)| == 2 && AllDigits(Pad2(n)) && ParseDigits(Pad2(n)) == n
  {
    ParseNatToString(n);
    if n < 10 {
      assert Pad2(n) == ['0'] + NatToString(n);
      ParseDigitsLeadingZero(NatToString(n));
    } else {
      assert NatToString(n) == NatToString(n / 10) + [DigitChar(n % 10)];
    }
  }

  lemma Pad2Injective(a: nat, b: nat)
    requires a < 100 && b < 100 && Pad2(a) == Pad2(b)
    ensures a == b
  {
    Pad2Parse(a);
    Pad2Parse(b);
  }

  function Pow10(w: nat): nat {
    if w == 0 then 1 else 10 * Pow10(w - 1)
  }

  /** A number below `10^w` prints with at most `w` digits. */
  lemma {:induction false} NatToStringWidth(n: nat, w: nat)
    requires 1 <= w && n < Pow10(w)
    ensures |NatToString(n)| <= w
    decreases w
  {
    if n >= 10 {
      NatToStringWidth(n / 10, w - 1);
    }
  }

  /** Leading zeros do not change the value of a digit string. */
  lemma {:induction false} ParseZerosPrefix(k: nat, s: string)
    requires AllDigits(s)
    ensures AllDigits(seq(k, _ => '0') + s)
    ensures ParseDigits(seq(k, _ => '0') + s) == ParseDigits(s)
    decreases k
  {
    if k > 0 {
      var rest := seq(k - 1, _ => '0') + s;
      ParseZerosPrefix(k - 1, s);
      assert seq(k, _ => '0') + s == ['0'] + rest;
      ParseDigitsLeadingZero(rest);
    } else {
      assert seq(k, _ => '0') + s == s;
    }
  }

  /** `String(n).padStart(w, '0')` is `w` digits that read back as `n` when `n < 10^w`. */
  lemma ZeroPadParse(n: nat, w: nat)
    requires 1 <= w && n < Pow10(w)
    ensures var s := PadStart(NatToString(n), w, '0');
      |s| == w && AllDigits(s) && ParseDigits(s) == n
  {
    NatToStringWidth(n, w);
    ParseNatToString(n);
    var t := NatToString(n);
    if |t| < w {
      assert PadStart(t, w, '0') == seq(w - |t|, _ => '0') + t;
      ParseZerosPrefix(w - |t|, t);
    }
  }

  /** Padding to one more place puts one more fill character in front. */
  lemma PadStartCons(s: string, w: nat, fill: char)
    requires |s| < w
    ensures PadStart(s, w, fill) == [fill] + PadStart(s, w - 1, fill)
  {
    var a, b := PadStart(s, w, fill), [fill] + PadStart(s, w - 1, fill);
    forall i | 0 <= i < w ensures a[i] == b[i] {
      if i > 0 {
        assert b[i] == PadStart(s, w - 1, fill)[i - 1];
        if i >= w - |s| {
          assert a[i] == a[|a| - |s|..][i - (w - |s|)];
        }
      }
    }
  }

  /** A `w`-digit string is the zero-padded rendering of its own value. */
  lemma {:induction false} ZeroPadCanonical(t: string, w: nat)
    requires |t| == w >= 1 && AllDigits(t)
    ensures PadStart(NatToString(ParseDigits(t)), w, '0') == t
    decreases w
  {
    var n := ParseDigits(t);
    if t[0] == '0' && w > 1 {
      var rest := t[1..];
      assert t == ['0'] + rest;
      ParseDigitsLeadingZero(rest);
      ZeroPadCanonical(rest, w - 1);
      PadStartCons(NatToString(n), w, '0');
    } else {
      NatToStringParse(t);
    }
  }

  // ----- trim --------------------------------------------------------------

  function TrimStart(s: string): (r: string)
    ensures |r| <= |s| && r == s[|s| - |r|..]
    ensures forall i :: 0 <= i < |s| - |r| ==> IsJsSpace(s[i])
    ensures r == [] || !IsJsSpace(r[0])
  {
    if s != [] && IsJsSpace(s[0]) then TrimStart(s[1..]) else s
  }

  function TrimEnd(s: string): (r: string)
    ensures |r| <= |s| && r == s[..|r|]
    ensures forall i :: |r| <= i < |s| ==> IsJsSpace(s[i])
    ensures r == [] || !IsJsSpace(r[|r| - 1])
  {
    if s != [] && IsJsSpace(s[|s| - 1]) then TrimEnd(s[..|s| - 1]) else s
  }

  /** `s.trim()`. */
  function Trim(s: string): string {
    TrimEnd(TrimStart(s))
  }

  /** What `trim` returns: the input without its white-space ends; it is empty
      exactly when the input is all white space. */
  lemma TrimProperties(s: string)
    ensures var r := Trim(s);
      && (r == [] || (!IsJsSpace(r[0]) && !IsJsSpace(r[|r| - 1])))
      && (r == [] <==> forall i :: 0 <= i < |s| ==> IsJsSpace(s[i]))
  {
    var a := TrimStart(s);
    var r := TrimEnd(a);
    if r != [] {
      assert r[0] == a[0];
    }
    if r == [] {
      assert |a| == 0;
    }
  }

  /** A string is its own trim exactly when it has no white space at either end. */
  lemma TrimIdentity(s: string)
    ensures Trim(s) == s <==> (s == [] || (!IsJsSpace(s[0]) && !IsJsSpace(s[|s| - 1])))
  {
    TrimProperties(s);
  }

  // ----- code-unit order ---------------------------------------------------

  /** The order the default `sort()` puts strings in (for the ASCII keys used
      here, code points and UTF-16 code units coincide). */
  predicate LexLe(a: string, b: string)
    decreases |a|
  {
    if a == [] then true
    else if b == [] then false
    else if a[0] != b[0] then a[0] < b[0]
    else LexLe(a[1..], b[1..])
  }

  lemma {:induction false} LexLeTotal(a: string, b: string)
    ensures LexLe(a, b) || LexLe(b, a)
    decreases |a|
  {
    if a != [] && b != [] && a[0] == b[0] {
      LexLeTotal(a[1..], b[1..]);
    }
  }

  lemma {:induction false} LexLeTransitive(a: string, b: string, c: string)
    requires LexLe(a, b) && LexLe(b, c)
    ensures LexLe(a, c)
    decreases |a|
  {
    if a != [] && b != [] && c != [] && a[0] == b[0] && b[0] == c[0] {
      LexLeTransitive(a[1..], b[1..], c[1..]);
    }
  }

  lemma {:induction false} LexLeAntisymmetric(a: string, b: string)
    requires LexLe(a, b) && LexLe(b, a)
    ensures a == b
    decreases |a|
  {
    if a != [] && b != [] {
      LexLeAntisymmetric(a[1..], b[1..]);
      assert a == [a[0]] + a[1..] && b == [b[0]] + b[1..];
    }
  }
}
