/** The checks of the transaction form (scripts/validators.js): one
    recogniser per regular expression, written out over the characters the
    expression's classes accept, and `validateAll`, which raises an error
    flag field by field and leaves one message per field. */
module Validators {
  import opened Seqs
  import opened Text
  import opened Calendar
  import opened Ledger

  // ----- description: /^\S(?:.*\S)?$|^\S$/ ---------------------------------

  /** A first and a last character that are not white space, and no line
      terminator in between (`.` does not match one). */
  predicate DescriptionPattern(s: string) {
    |s| >= 1 && !IsJsSpace(s[0]) && !IsJsSpace(s[|s| - 1]) && OneLine(s)
  }

  predicate OneLine(s: string) {
    forall i :: 0 <= i < |s| ==> !IsLineTerminator(s[i])
  }

  /** The description pattern accepts exactly the non-empty one-line
      strings that `trim` leaves unchanged. */
  lemma DescriptionPatternIsTrimmed(s: string)
    ensures DescriptionPattern(s) <==> s != [] && Trim(s) == s && OneLine(s)
  {
    TrimIdentity(s);
  }

  // ----- duplicate words: /\b(\w+)\s+\1\b/i --------------------------------

  /** The word `s[i..i+n]` starts at a word boundary, is followed by white
      space up to `k`, and is repeated (ignoring ASCII case) at `k..k+n`,
      which ends at a word boundary. */
  predicate RepeatAt(s: string, i: int, n: int, k: int)
    requires 0 <= i && 1 <= n && i + n < k && k + n <= |s|
  {
    && (i == 0 || !IsWordChar(s[i - 1]))
    && (forall j :: i <= j < i + n ==> IsWordChar(s[j]))
    && (forall j :: i + n <= j < k ==> IsJsSpace(s[j]))
    && FoldString(s[k..k + n]) == FoldString(s[i..i + n])
    && (k + n == |s| || !IsWordChar(s[k + n]))
  }

  /** `duplicateWordRegex.test(s)`. */
  predicate DuplicateWord(s: string) {
    exists i, n, k | 0 <= i < |s| && 1 <= n <= |s| && 0 <= k <= |s| ::
      i + n < k && k + n <= |s| && RepeatAt(s, i, n, k)
  }

  /** A word repeated in another case is a duplicate. */
  lemma DuplicateWordExample()
    ensures DuplicateWord("the The")
  {
    assert RepeatAt("the The", 0, 3, 4);
  }

  /** Two different words are not. */
  lemma DistinctWordsExample()
    ensures !DuplicateWord("the cat")
  {
    var s := "the cat";
    forall i, n, k | 0 <= i && 1 <= n && i + n < k && k + n <= |s|
      ensures !RepeatAt(s, i, n, k)
    {
      if i + n != 3 {
        assert !IsJsSpace(s[i + n]);
      } else if i != 0 {
        assert IsWordChar(s[i - 1]);
      } else {
        assert k == 4;
        assert FoldString(s[k..k + n])[0] == 'C' && FoldString(s[i..i + n])[0] == 'T';
      }
    }
  }

  /** Any word, white space, and the same word again in any case, with
      nothing around them, is a duplicate. */
  lemma WordRepeatedIsDuplicate(w: string, sp: string, w2: string)
    requires |w| >= 1 && forall j :: 0 <= j < |w| ==> IsWordChar(w[j])
    requires |sp| >= 1 && forall j :: 0 <= j < |sp| ==> IsJsSpace(sp[j])
    requires FoldString(w2) == FoldString(w)
    ensures DuplicateWord(w + sp + w2)
  {
    var s := w + sp + w2;
    var n, k := |w|, |w| + |sp|;
    assert s[..n] == w && s[k..k + n] == w2;
    assert forall j :: n <= j < k ==> s[j] == sp[j - n];
    assert RepeatAt(s, 0, n, k);
  }

  /** A duplicate needs white space between its two copies. */
  lemma DuplicateNeedsSpace(s: string)
    requires DuplicateWord(s)
    ensures exists j :: 0 <= j < |s| && IsJsSpace(s[j])
  {
    var i, n, k :| 0 <= i < |s| && 1 <= n <= |s| && 0 <= k <= |s|
      && i + n < k && k + n <= |s| && RepeatAt(s, i, n, k);
    assert IsJsSpace(s[i + n]);
  }

  // ----- amount: /^(0|[1-9]\d*)(\.\d{1,2})?$/ ------------------------------

  /** A whole part as `String(n)` prints it (`Canonical`), optionally
      followed by a point and one or two digits. */
  predicate AmountPattern(s: string) {
    || Canonical(s)
    || exists j | 0 < j < |s| ::
        s[j] == '.' && Canonical(s[..j]) && 2 <= |s| - j <= 3 && AllDigits(s[j + 1..])
  }

  /** A leading zero and a third decimal are rejected; one decimal is fine. */
  lemma AmountExamples()
    ensures !AmountPattern("01") && !AmountPattern("1.234")
    ensures AmountPattern("12.5") && AmountPattern("0")
  {
    AmountWithFraction("12", "5");
    assert "12" + "." + "5" == "12.5";
    var s := "1.234";
    assert !IsDigit(s[1]);
    forall j | 0 < j < |s| && s[j] == '.' ensures j == 1 {
    }
  }

  /** Every whole number as `String` prints it is accepted, and an accepted
      amount without a point is such a number. */
  lemma WholeAmounts(n: nat, s: string)
    ensures AmountPattern(NatToString(n))
    ensures AmountPattern(s) && '.' !in s ==> AllDigits(s) && NatToString(ParseDigits(s)) == s
  {
    if AmountPattern(s) && '.' !in s {
      NatToStringParse(s);
    }
  }

  /** A whole part, a point and one or two digits are accepted. */
  lemma AmountWithFraction(w: string, f: string)
    requires Canonical(w) && 1 <= |f| <= 2 && AllDigits(f)
    ensures AmountPattern(w + "." + f)
  {
    var s := w + "." + f;
    assert s[..|w|] == w;
    assert s[|w| + 1..] == f;
  }

  /** So a whole number followed by two-digit cents is accepted. */
  lemma AmountWithCents(n: nat, c: nat)
    requires c < 100
    ensures AmountPattern(NatToString(n) + "." + Pad2(c))
  {
    Pad2Parse(c);
    AmountWithFraction(NatToString(n), Pad2(c));
  }

  // ----- category: /^[A-Za-z]+(?:[ -][A-Za-z]+)*$/ -------------------------

  predicate IsSeparator(c: char) { c == ' ' || c == '-' }

  /** Letters, and separators that sit between two letters. */
  predicate CategoryPattern(s: string) {
    |s| >= 1 && IsAsciiLetter(s[0]) && IsAsciiLetter(s[|s| - 1])
    && forall i :: 0 <= i < |s| ==> CategoryCharOk(s, i)
  }

  predicate CategoryCharOk(s: string, i: int)
    requires 0 <= i < |s|
  {
    IsAsciiLetter(s[i])
    || (IsSeparator(s[i]) && 0 < i < |s| - 1 && IsAsciiLetter(s[i - 1]) && IsAsciiLetter(s[i + 1]))
  }

  /** A non-empty run of letters. */
  predicate Letters(w: string) {
    |w| >= 1 && forall i :: 0 <= i < |w| ==> IsAsciiLetter(w[i])
  }

  /** The expression read as a grammar: a run of letters, or a shorter
      category, one separator and a run of letters. */
  predicate CategoryGrammar(s: string)
    decreases |s|
  {
    || Letters(s)
    || exists j | 0 < j < |s| - 1 :: IsSeparator(s[j]) && CategoryGrammar(s[..j]) && Letters(s[j + 1..])
  }

  /** The position of the last separator in `s`, or -1. */
  function LastSeparator(s: string): (j: int)
    ensures -1 <= j < |s|
    ensures j >= 0 ==> IsSeparator(s[j])
    ensures forall i :: j < i < |s| ==> !IsSeparator(s[i])
  {
    if s == [] then -1
    else if IsSeparator(s[|s| - 1]) then |s| - 1
    else LastSeparator(s[..|s| - 1])
  }

  /** A category, one separator and a run of letters make a category. */
  lemma CategoryJoin(p: string, sep: char, w: string)
    requires CategoryPattern(p) && IsSeparator(sep) && Letters(w)
    ensures CategoryPattern(p + [sep] + w)
  {
    var s, j := p + [sep] + w, |p|;
    forall i | 0 <= i < |s| ensures CategoryCharOk(s, i) {
      if i < j {
        assert s[i] == p[i] && CategoryCharOk(p, i);
        if i + 1 < j {
          assert s[i + 1] == p[i + 1];
        }
        if i > 0 {
          assert s[i - 1] == p[i - 1];
        }
      } else if i == j {
        assert s[i - 1] == p[|p| - 1] && s[i + 1] == w[0];
      } else {
        assert s[i] == w[i - j - 1];
      }
    }
    assert s[|s| - 1] == w[|w| - 1];
  }

  /** A category with a separator splits at its last one into a shorter
      category and a run of letters. */
  lemma CategorySplit(s: string)
    requires CategoryPattern(s) && LastSeparator(s) >= 0
    ensures var j := LastSeparator(s);
      0 < j < |s| - 1 && CategoryPattern(s[..j]) && Letters(s[j + 1..])
  {
    var j := LastSeparator(s);
    assert CategoryCharOk(s, j);
    var p, w := s[..j], s[j + 1..];
    forall i | 0 <= i < |p| ensures CategoryCharOk(p, i) {
      assert p[i] == s[i] && CategoryCharOk(s, i);
      if i + 1 < |s| {
        assert i + 1 < j ==> p[i + 1] == s[i + 1];
      }
      if i > 0 {
        assert p[i - 1] == s[i - 1];
      }
    }
    forall i | 0 <= i < |w| ensures IsAsciiLetter(w[i]) {
      assert w[i] == s[j + 1 + i] && CategoryCharOk(s, j + 1 + i);
    }
  }

  lemma {:induction false} PatternToGrammar(s: string)
    requires CategoryPattern(s)
    ensures CategoryGrammar(s)
    decreases |s|
  {
    var j := LastSeparator(s);
    if j >= 0 {
      CategorySplit(s);
      PatternToGrammar(s[..j]);
    } else {
      forall i | 0 <= i < |s| ensures IsAsciiLetter(s[i]) {
        assert CategoryCharOk(s, i);
      }
    }
  }

  lemma LettersArePattern(w: string)
    requires Letters(w)
    ensures CategoryPattern(w)
  {
    forall i | 0 <= i < |w| ensures CategoryCharOk(w, i) {
    }
  }

  lemma {:induction false} GrammarToPattern(s: string)
    requires CategoryGrammar(s)
    ensures CategoryPattern(s)
    decreases |s|
  {
    if Letters(s) {
      LettersArePattern(s);
    } else {
      var j :| 0 < j < |s| - 1 && IsSeparator(s[j]) && CategoryGrammar(s[..j]) && Letters(s[j + 1..]);
      GrammarToPattern(s[..j]);
      CategoryJoin(s[..j], s[j], s[j + 1..]);
      SplitAt(s, j);
    }
  }

  /** The character-level recogniser and the grammar accept the same strings. */
  lemma CategoryPatternIsGrammar(s: string)
    ensures CategoryPattern(s) <==> CategoryGrammar(s)
  {
    if CategoryPattern(s) {
      PatternToGrammar(s);
    }
    if CategoryGrammar(s) {
      GrammarToPattern(s);
    }
  }

  /** A single separator between words passes; doubled or outer ones and
      digits do not. */
  lemma CategoryExamples()
    ensures CategoryPattern("Self-care")
    ensures !CategoryPattern("Food  Court") && !CategoryPattern(" Food") && !CategoryPattern("Food1")
  {
    assert Letters("Self") && Letters("care");
    GrammarToPattern("Self");
    CategoryJoin("Self", '-', "care");
    assert "Self" + ['-'] + "care" == "Self-care";
    assert !CategoryCharOk("Food  Court", 4);
    assert !CategoryCharOk("Food1", 4);
  }

  // ----- date: /^\d{4}-(0[1-9]|1[0-2])-(0[1-9]|[12]\d|3[01])$/ -------------

  /** `0[1-9]|1[0-2]`. */
  predicate MonthDigits(a: char, b: char) {
    (a == '0' && '1' <= b <= '9') || (a == '1' && '0' <= b <= '2')
  }

  /** `0[1-9]|[12]\d|3[01]`. */
  predicate DayDigits(a: char, b: char) {
    (a == '0' && '1' <= b <= '9') || ((a == '1' || a == '2') && IsDigit(b)) || (a == '3' && (b == '0' || b == '1'))
  }

  predicate DatePattern(s: string) {
    && |s| == 10 && AllDigits(s[..4]) && s[4] == '-' && s[7] == '-'
    && MonthDigits(s[5], s[6]) && DayDigits(s[8], s[9])
  }

  /** The alternations accept exactly the two-digit strings 01-12 and 01-31. */
  lemma TwoDigitRanges(t: string)
    requires |t| == 2
    ensures MonthDigits(t[0], t[1]) <==> AllDigits(t) && 1 <= ParseDigits(t) <= 12
    ensures DayDigits(t[0], t[1]) <==> AllDigits(t) && 1 <= ParseDigits(t) <= 31
  {
    if AllDigits(t) {
      assert ParseDigits(t[..1]) == DigitValue(t[0]) by {
        assert t[..1][..0] == [];
      }
      assert ParseDigits(t) == DigitValue(t[0]) * 10 + DigitValue(t[1]);
    }
  }

  /** The date pattern by value: four digits, a month 1-12 and a day 1-31,
      whatever the month. */
  lemma DatePatternByValue(s: string)
    ensures DatePattern(s) <==>
      && |s| == 10 && AllDigits(s[..4]) && s[4] == '-' && s[7] == '-'
      && AllDigits(s[5..7]) && 1 <= ParseDigits(s[5..7]) <= 12
      && AllDigits(s[8..]) && 1 <= ParseDigits(s[8..]) <= 31
  {
    if |s| == 10 {
      TwoDigitRanges(s[5..7]);
      TwoDigitRanges(s[8..]);
    }
  }

  /** The pattern does not know month lengths. */
  lemma ImpossibleDayAccepted()
    ensures DatePattern("2024-02-31") && !IsValidYmd(Ymd(2024, 2, 31))
  {
  }

  /** Four digits, a month 01-12 and a day 01-31 joined by hyphens pass. */
  lemma DatePartsAccepted(ys: string, ms: string, ds: string)
    requires |ys| == 4 && AllDigits(ys)
    requires |ms| == 2 && AllDigits(ms) && 1 <= ParseDigits(ms) <= 12
    requires |ds| == 2 && AllDigits(ds) && 1 <= ParseDigits(ds) <= 31
    ensures DatePattern(ys + "-" + ms + "-" + ds)
  {
    SplitDateString(ys, ms, ds);
    DatePatternByValue(ys + "-" + ms + "-" + ds);
  }

  /** Every stored date with a four-digit year passes. */
  lemma DateStringAccepted(d: Date)
    requires 0 <= d.year <= 9999
    ensures DatePattern(DateString(d))
  {
    assert Pow10(4) == 10000;
    ZeroPadParse(d.year, 4);
    Pad2Parse(d.month);
    Pad2Parse(d.day);
    DatePartsAccepted(PadStart(NatToString(d.year), 4, '0'), Pad2(d.month), Pad2(d.day));
  }

  /** The date a string that passes the pattern names. */
  function ParsedDate(s: string): (d: Ymd)
    requires DatePattern(s)
  {
    DatePatternByValue(s);
    Ymd(ParseDigits(s[..4]), ParseDigits(s[5..7]), ParseDigits(s[8..]))
  }

  lemma JoinDateParts(s: string)
    requires |s| == 10 && s[4] == '-' && s[7] == '-'
    ensures s == s[..4] + "-" + s[5..7] + "-" + s[8..]
  {
  }

  /** A string that passes the pattern and names a day that exists is that
      day's stored form. */
  lemma ParsedDateString(s: string)
    requires DatePattern(s) && IsValidYmd(ParsedDate(s))
    ensures DateString(ParsedDate(s)) == s
  {
    DatePatternByValue(s);
    ZeroPadCanonical(s[..4], 4);
    ZeroPadCanonical(s[5..7], 2);
    ZeroPadCanonical(s[8..], 2);
    JoinDateParts(s);
  }

  /** The stored form of a date with a four-digit year parses back to it. */
  lemma DateStringParsed(d: Date)
    requires 0 <= d.year <= 9999
    ensures DatePattern(DateString(d)) && ParsedDate(DateString(d)) == d
  {
    DateStringAccepted(d);
    DateStringParse(d);
  }

  // ----- validateAll -------------------------------------------------------

  /** The trimmed form fields; `amount` is the text `String(data.amount)` gives. */
  datatype Form = Form(description: string, amount: string, category: string, date: string)

  /** The flag `validateAll` returns and the text left in each error element
      ("" where it was cleared). */
  datatype Report = Report(
    hasErrors: bool,
    descError: string,
    amountError: string,
    categoryError: string,
    dateError: string)

  const DescriptionSpacesMessage := "!!No leading or trailing spaces."
  const DuplicateWordsMessage := "!!Duplicate words detected."
  const AmountMessage := "!! Enter a valid amount (e.g. 12.50)"
  const CategoryMessage := "!! Letters only (hyphens/spaces allowed)."
  const DateMessage := "!! Date required."

  predicate DescriptionOk(s: string) {
    DescriptionPattern(s) && !DuplicateWord(s)
  }

  /** Checks the four fields in order; `true` means some field failed. */
  method ValidateAll(data: Form) returns (r: Report)
    ensures !r.hasErrors <==>
      DescriptionOk(data.description) && AmountPattern(data.amount)
      && CategoryPattern(data.category) && DatePattern(data.date)
    ensures r.descError ==
      if !DescriptionPattern(data.description) then DescriptionSpacesMessage
      else if DuplicateWord(data.description) then DuplicateWordsMessage
      else ""
    ensures r.amountError == if AmountPattern(data.amount) then "" else AmountMessage
    ensures r.categoryError == if CategoryPattern(data.category) then "" else CategoryMessage
    ensures r.dateError == if DatePattern(data.date) then "" else DateMessage
    ensures r.hasErrors <==>
      r.descError != "" || r.amountError != "" || r.categoryError != "" || r.dateError != ""
  {
    var hasErrors := false;
    var desc, amount, category, date := "", "", "", "";
    if data.description == "" || !DescriptionPattern(data.description) {
      desc := DescriptionSpacesMessage;
      hasErrors := true;
    } else if DuplicateWord(data.description) {
      desc := DuplicateWordsMessage;
      hasErrors := true;
    }
    if !AmountPattern(data.amount) {
      amount := AmountMessage;
      hasErrors := true;
    }
    if !CategoryPattern(data.category) {
      category := CategoryMessage;
      hasErrors := true;
    }
    if !DatePattern(data.date) {
      date := DateMessage;
      hasErrors := true;
    }
    r := Report(hasErrors, desc, amount, category, date);
  }
}
