/** The search box (scripts/search.js): turning the typed text into a
    case-insensitive pattern, and escaping record text before it is put
    into the table's HTML. The regular-expression engine itself is a
    parameter. */
module Search {
  import opened Text

  datatype Option<T> = None | Some(value: T)

  // ----- escapeHtml --------------------------------------------------------

  /** `s.replace(/c/g, repl)` for a single character `c`. */
  function ReplaceAll(s: string, c: char, repl: string): string
    decreases |s|
  {
    if s == [] then [] else (if s[0] == c then repl else [s[0]]) + ReplaceAll(s[1..], c, repl)
  }

  lemma {:induction false} ReplaceAllAppend(a: string, b: string, c: char, repl: string)
    ensures ReplaceAll(a + b, c, repl) == ReplaceAll(a, c, repl) + ReplaceAll(b, c, repl)
    decreases |a|
  {
    if a != [] {
      assert (a + b)[1..] == a[1..] + b;
      ReplaceAllAppend(a[1..], b, c, repl);
    } else {
      assert a + b == b;
    }
  }

  /** Only occurrences of `c` change. */
  lemma {:induction false} ReplaceAllAbsent(s: string, c: char, repl: string)
    requires c !in s
    ensures ReplaceAll(s, c, repl) == s
    decreases |s|
  {
    if s != [] {
      assert s[1..] + [] == s[1..];
      assert c !in s[1..] by {
        forall i | 0 <= i < |s[1..]| ensures s[1..][i] != c {
          assert s[1..][i] == s[i + 1];
        }
      }
      ReplaceAllAbsent(s[1..], c, repl);
      assert s == [s[0]] + s[1..];
    }
  }

  /** `escapeHtml`: `&` first, then `<`, `>` and `"`. */
  function EscapeHtml(s: string): string {
    ReplaceAll(ReplaceAll(ReplaceAll(ReplaceAll(s, '&', "&amp;"), '<', "&lt;"), '>', "&gt;"), '"', "&quot;")
  }

  /** The entity for one character, or the character itself. */
  function EscapeChar(c: char): string {
    if c == '&' then "&amp;"
    else if c == '<' then "&lt;"
    else if c == '>' then "&gt;"
    else if c == '"' then "&quot;"
    else [c]
  }

  /** The reference definition: every character replaced by its entity. */
  function EscapeEach(s: string): string
    decreases |s|
  {
    if s == [] then [] else EscapeChar(s[0]) + EscapeEach(s[1..])
  }

  lemma EscapeHtmlAppend(a: string, b: string)
    ensures EscapeHtml(a + b) == EscapeHtml(a) + EscapeHtml(b)
  {
    var a1, b1 := ReplaceAll(a, '&', "&amp;"), ReplaceAll(b, '&', "&amp;");
    ReplaceAllAppend(a, b, '&', "&amp;");
    var a2, b2 := ReplaceAll(a1, '<', "&lt;"), ReplaceAll(b1, '<', "&lt;");
    ReplaceAllAppend(a1, b1, '<', "&lt;");
    var a3, b3 := ReplaceAll(a2, '>', "&gt;"), ReplaceAll(b2, '>', "&gt;");
    ReplaceAllAppend(a2, b2, '>', "&gt;");
    ReplaceAllAppend(a3, b3, '"', "&quot;");
  }

  lemma ReplaceAllOne(c: char, t: char, repl: string)
    ensures ReplaceAll([c], t, repl) == if c == t then repl else [c]
  {
    assert [c][1..] == [];
  }

  /** One replacement stage on a character or on the entity an earlier
      stage made of it. */
  lemma Stage(x: string, c: char, t: char, repl: string)
    requires x == [c] || t !in x
    ensures ReplaceAll(x, t, repl) == if x == [c] && c == t then repl else x
  {
    if x == [c] {
      ReplaceAllOne(c, t, repl);
    } else {
      ReplaceAllAbsent(x, t, repl);
    }
  }

  /** Each entity is free of the characters replaced after it. */
  lemma EntitiesFree()
    ensures '<' !in "&amp;" && '>' !in "&amp;" && '"' !in "&amp;"
    ensures '>' !in "&lt;" && '"' !in "&lt;" && '"' !in "&gt;"
  {
  }

  /** On one character the chained replacements give its entity: the
      entities made early contain none of the later characters, which is
      why `&` has to go first. */
  lemma EscapeHtmlChar(c: char)
    ensures EscapeHtml([c]) == EscapeChar(c)
  {
    EntitiesFree();
    var s1 := ReplaceAll([c], '&', "&amp;");
    Stage([c], c, '&', "&amp;");
    assert s1 == [c] || '<' !in s1;
    var s2 := ReplaceAll(s1, '<', "&lt;");
    Stage(s1, c, '<', "&lt;");
    assert s2 == [c] || '>' !in s2;
    var s3 := ReplaceAll(s2, '>', "&gt;");
    Stage(s2, c, '>', "&gt;");
    assert s3 == [c] || '"' !in s3;
    Stage(s3, c, '"', "&quot;");
  }

  /** The chained replacements escape character by character. */
  lemma {:induction false} EscapeHtmlByChar(s: string)
    ensures EscapeHtml(s) == EscapeEach(s)
    decreases |s|
  {
    if s != [] {
      assert s == [s[0]] + s[1..];
      EscapeHtmlAppend([s[0]], s[1..]);
      EscapeHtmlChar(s[0]);
      EscapeHtmlByChar(s[1..]);
    }
  }

  predicate Special(c: char) { c == '&' || c == '<' || c == '>' || c == '"' }

  /** The escaped text has no `<`, `>` or `"`. */
  lemma {:induction false} EscapeEachSafe(s: string)
    ensures var r := EscapeEach(s); '<' !in r && '>' !in r && '"' !in r
    decreases |s|
  {
    if s != [] {
      EscapeEachSafe(s[1..]);
      var e := EscapeChar(s[0]);
      assert '<' !in e && '>' !in e && '"' !in e;
    }
  }

  /** What `escapeHtml` promises: nothing in the output can open a tag or
      close an attribute value. */
  lemma EscapeHtmlSafe(s: string)
    ensures var r := EscapeHtml(s); '<' !in r && '>' !in r && '"' !in r
  {
    EscapeHtmlByChar(s);
    EscapeEachSafe(s);
  }

  /** Text without special characters is left as it is. */
  lemma {:induction false} EscapeHtmlIdentity(s: string)
    requires forall i :: 0 <= i < |s| ==> !Special(s[i])
    ensures EscapeHtml(s) == s
    decreases |s|
  {
    EscapeHtmlByChar(s);
    EscapeEachPlain(s);
  }

  lemma {:induction false} EscapeEachPlain(s: string)
    requires forall i :: 0 <= i < |s| ==> !Special(s[i])
    ensures EscapeEach(s) == s
    decreases |s|
  {
    if s != [] {
      EscapeEachPlain(s[1..]);
      assert s == [s[0]] + s[1..];
    }
  }

  /** Reading the entities back: the inverse of escaping. */
  function Unescape(s: string): string
    decreases |s|
  {
    if s == [] then []
    else if s[0] != '&' then [s[0]] + Unescape(s[1..])
    else if |s| >= 5 && s[..5] == "&amp;" then "&" + Unescape(s[5..])
    else if |s| >= 4 && s[..4] == "&lt;" then "<" + Unescape(s[4..])
    else if |s| >= 4 && s[..4] == "&gt;" then ">" + Unescape(s[4..])
    else if |s| >= 6 && s[..6] == "&quot;" then "\"" + Unescape(s[6..])
    else [s[0]] + Unescape(s[1..])
  }

  /** After an `&`, the entity is recognised by its second character. */
  lemma UnescapeEntity(e: string, c: char, rest: string)
    requires e == EscapeChar(c) && Special(c)
    ensures Unescape(e + rest) == [c] + Unescape(rest)
  {
    var s := e + rest;
    assert s[..|e|] == e && s[|e|..] == rest;
    assert s[0] == '&' && s[1] == e[1];
    if c != '&' && |s| >= 5 {
      assert s[..5][1] == e[1];
    }
    if c != '&' && c != '<' && |s| >= 4 {
      assert s[..4][1] == e[1];
    }
  }

  lemma UnescapeChar(c: char, rest: string)
    ensures Unescape(EscapeChar(c) + rest) == [c] + Unescape(rest)
  {
    if Special(c) {
      UnescapeEntity(EscapeChar(c), c, rest);
    } else {
      var s := [c] + rest;
      assert s[0] == c && s[1..] == rest;
    }
  }

  /** Escaping loses nothing: the original text can be read back. */
  lemma {:induction false} UnescapeEscape(s: string)
    ensures Unescape(EscapeHtml(s)) == s
    decreases |s|
  {
    EscapeHtmlByChar(s);
    UnescapeEach(s);
  }

  lemma {:induction false} UnescapeEach(s: string)
    ensures Unescape(EscapeEach(s)) == s
    decreases |s|
  {
    if s != [] {
      UnescapeChar(s[0], EscapeEach(s[1..]));
      UnescapeEach(s[1..]);
      assert s == [s[0]] + s[1..];
    }
  }

  // ----- compileRegex and highlight ----------------------------------------

  /** `new RegExp(source, flags)`. */
  datatype Regex = Regex(source: string, flags: string)

  /** `compileRegex`: null for empty or white-space input; otherwise the
      trimmed text as a case-insensitive pattern, or null when the engine
      rejects it (`compiles` stands for the `RegExp` constructor not throwing). */
  function CompileRegex(input: string, compiles: string -> bool): Option<Regex> {
    if input == "" || Trim(input) == "" then None
    else if compiles(Trim(input)) then Some(Regex(Trim(input), "i"))
    else None
  }

  /** A pattern is produced exactly when the input has a non-white character
      and its trim compiles; it is then the trimmed input, flagged `i`. */
  lemma CompileRegexSpec(input: string, compiles: string -> bool)
    ensures var r := CompileRegex(input, compiles);
      && (r.Some? <==> (exists i :: 0 <= i < |input| && !IsJsSpace(input[i])) && compiles(Trim(input)))
      && (r.Some? ==> r.value.source == Trim(input) && r.value.flags == "i"
                      && r.value.source != [] && !IsJsSpace(r.value.source[0])
                      && !IsJsSpace(r.value.source[|r.value.source| - 1]))
  {
    TrimProperties(input);
  }

  /** `highlight`: the escaped text, with matches wrapped by `mark` (the
      engine's `replace` with `<mark>` tags) when there is a pattern. */
  function Highlight(text: string, re: Option<Regex>, mark: (string, Regex) -> string): string {
    if re.None? then EscapeHtml(text) else mark(EscapeHtml(text), re.value)
  }

  /** Without a pattern the cell is exactly the escaped text, so it is safe. */
  lemma HighlightWithoutPattern(text: string, mark: (string, Regex) -> string)
    ensures var r := Highlight(text, None, mark);
      r == EscapeEach(text) && '<' !in r && '>' !in r && '"' !in r && Unescape(r) == text
  {
    EscapeHtmlByChar(text);
    EscapeHtmlSafe(text);
    UnescapeEscape(text);
  }
}
