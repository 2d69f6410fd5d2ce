/**
  `escapeHtml` of the browser client: five `replaceAll` passes, `&` first,
  that turn the characters with a meaning in HTML into entities before a
  task's fields are put into a card's markup.
 */
module HtmlEscape {

  /** `s.replaceAll(c, rep)` for a one-character pattern and a replacement
      holding no `$` (so no `$&`-style substitution pattern applies, as for
      the five entities): every `c` becomes `rep`; the result is not
      scanned again. */
  function ReplaceAll(s: string, c: char, rep: string): (r: string)
    ensures c !in s ==> r == s
    ensures c !in rep ==> c !in r
  {
    if s == [] then [] else (if s[0] == c then rep else [s[0]]) + ReplaceAll(s[1..], c, rep)
  }

  lemma {:induction false} ReplaceAllConcat(a: string, b: string, c: char, rep: string)
    ensures ReplaceAll(a + b, c, rep) == ReplaceAll(a, c, rep) + ReplaceAll(b, c, rep)
  {
    if a == [] {
      assert a + b == b;
    } else {
      assert (a + b)[1..] == a[1..] + b;
      ReplaceAllConcat(a[1..], b, c, rep);
    }
  }

  function EscapeHtml(s: string): string {
    var amp := ReplaceAll(s, '&', "&amp;");
    var lt := ReplaceAll(amp, '<', "&lt;");
    var gt := ReplaceAll(lt, '>', "&gt;");
    var quot := ReplaceAll(gt, '"', "&quot;");
    ReplaceAll(quot, '\'', "&#039;")
  }

  /** The five characters `escapeHtml` rewrites. */
  predicate IsSpecial(c: char) {
    c == '&' || c == '<' || c == '>' || c == '"' || c == '\''
  }

  /** The entity each character is written as: the reference for what
      `escapeHtml` does to one character. */
  function EscapeChar(c: char): string {
    match c
    case '&' => "&amp;"
    case '<' => "&lt;"
    case '>' => "&gt;"
    case '"' => "&quot;"
    case '\'' => "&#039;"
    case _ => [c]
  }

  /** Escapes each character on its own and concatenates the results. */
  function EscapeEach(s: string): string {
    if s == [] then [] else EscapeChar(s[0]) + EscapeEach(s[1..])
  }

  lemma EscapeHtmlConcat(a: string, b: string)
    ensures EscapeHtml(a + b) == EscapeHtml(a) + EscapeHtml(b)
  {
    ReplaceAllConcat(a, b, '&', "&amp;");
    var a1, b1 := ReplaceAll(a, '&', "&amp;"), ReplaceAll(b, '&', "&amp;");
    ReplaceAllConcat(a1, b1, '<', "&lt;");
    var a2, b2 := ReplaceAll(a1, '<', "&lt;"), ReplaceAll(b1, '<', "&lt;");
    ReplaceAllConcat(a2, b2, '>', "&gt;");
    var a3, b3 := ReplaceAll(a2, '>', "&gt;"), ReplaceAll(b2, '>', "&gt;");
    ReplaceAllConcat(a3, b3, '"', "&quot;");
    var a4, b4 := ReplaceAll(a3, '"', "&quot;"), ReplaceAll(b3, '"', "&quot;");
    ReplaceAllConcat(a4, b4, '\'', "&#039;");
  }

  /** Five passes of `ReplaceAll` over a one-character string, for any
      patterns `p` and replacements `reps` where no replacement contains a
      later pattern: the character comes out as the replacement of the first
      pattern it equals (`k`), or unchanged when it equals none (`k == 5`). */
  lemma {:induction false} FivePassesOneChar(c: char, p: seq<char>, reps: seq<string>, k: nat)
    requires |p| == 5 && |reps| == 5 && k <= 5
    requires k < 5 ==> c == p[k]
    requires forall i :: 0 <= i < k ==> c != p[i]
    requires forall i, j :: 0 <= i < j < 5 ==> p[j] !in reps[i]
    ensures ReplaceAll(ReplaceAll(ReplaceAll(ReplaceAll(ReplaceAll([c], p[0], reps[0]), p[1], reps[1]), p[2], reps[2]), p[3], reps[3]), p[4], reps[4])
            == if k < 5 then reps[k] else [c]
  {
    assert [c][1..] == [];
    var x1 := ReplaceAll([c], p[0], reps[0]);
    assert x1 == if k == 0 then reps[0] else [c];
    var x2 := ReplaceAll(x1, p[1], reps[1]);
    assert x2 == if k <= 1 then reps[k] else [c];
    var x3 := ReplaceAll(x2, p[2], reps[2]);
    assert x3 == if k <= 2 then reps[k] else [c];
    var x4 := ReplaceAll(x3, p[3], reps[3]);
    assert x4 == if k <= 3 then reps[k] else [c];
  }

  lemma EscapeHtmlOneChar(c: char)
    ensures EscapeHtml([c]) == EscapeChar(c)
  {
    var k := if c == '&' then 0 else if c == '<' then 1 else if c == '>' then 2
             else if c == '"' then 3 else if c == '\'' then 4 else 5;
    FivePassesOneChar(c, "&<>\"'", ["&amp;", "&lt;", "&gt;", "&quot;", "&#039;"], k);
  }

  /** Because `&` is replaced first, no entity is escaped a second time:
      the five passes escape every character independently. */
  lemma {:induction false} EscapeHtmlPerChar(s: string)
    ensures EscapeHtml(s) == EscapeEach(s)
  {
    if s != [] {
      assert s == [s[0]] + s[1..];
      EscapeHtmlConcat([s[0]], s[1..]);
      EscapeHtmlOneChar(s[0]);
      EscapeHtmlPerChar(s[1..]);
    }
  }

  predicate NoMarkup(r: string) {
    '<' !in r && '>' !in r && '"' !in r && '\'' !in r
  }

  /** The escaped text holds no `<`, `>`, `"` or `'`. */
  lemma EscapeHtmlHasNoMarkup(s: string)
    ensures NoMarkup(EscapeHtml(s))
  {
    EscapeHtmlPerChar(s);
    EscapeEachHasNoMarkup(s);
  }

  lemma {:induction false} EscapeEachHasNoMarkup(s: string)
    ensures NoMarkup(EscapeEach(s))
  {
    if s != [] {
      EscapeEachHasNoMarkup(s[1..]);
      var e := EscapeChar(s[0]);
      assert NoMarkup(e);
      assert EscapeEach(s) == e + EscapeEach(s[1..]);
    }
  }

  /** Text without any of the five characters is left unchanged. */
  lemma EscapeHtmlPlainText(s: string)
    requires forall i :: 0 <= i < |s| ==> !IsSpecial(s[i])
    ensures EscapeHtml(s) == s
  {
    EscapeHtmlPerChar(s);
    EscapeEachPlainText(s);
  }

  lemma {:induction false} EscapeEachPlainText(s: string)
    requires forall i :: 0 <= i < |s| ==> !IsSpecial(s[i])
    ensures EscapeEach(s) == s
  {
    if s != [] {
      EscapeEachPlainText(s[1..]);
      assert s == [s[0]] + s[1..];
    }
  }

  predicate StartsWith(s: string, p: string) {
    |p| <= |s| && s[..|p|] == p
  }

  /** Decodes the five entities `escapeHtml` writes; any other text is
      copied. */
  function UnescapeHtml(s: string): string
    decreases |s|
  {
    if s == [] then []
    else if StartsWith(s, "&amp;") then "&" + UnescapeHtml(s[5..])
    else if StartsWith(s, "&lt;") then "<" + UnescapeHtml(s[4..])
    else if StartsWith(s, "&gt;") then ">" + UnescapeHtml(s[4..])
    else if StartsWith(s, "&quot;") then "\"" + UnescapeHtml(s[6..])
    else if StartsWith(s, "&#039;") then "'" + UnescapeHtml(s[6..])
    else [s[0]] + UnescapeHtml(s[1..])
  }

  lemma StartsWithOwn(e: string, rest: string)
    ensures StartsWith(e + rest, e) && (e + rest)[|e|..] == rest
  {
    assert (e + rest)[..|e|] == e;
  }

  lemma NotStartsWith(s: string, p: string, i: nat)
    requires i < |s| && i < |p| && s[i] != p[i]
    ensures !StartsWith(s, p)
  {
    if |p| <= |s| {
      assert s[..|p|][i] == s[i];
    }
  }

  /** The entity of one character, followed by any text, decodes to that
      character followed by the decoding of the text: the entities do not
      overlap and a plain character starts none of them. */
  lemma UnescapeEscapeChar(c: char, rest: string)
    ensures UnescapeHtml(EscapeChar(c) + rest) == [c] + UnescapeHtml(rest)
  {
    var s := EscapeChar(c) + rest;
    StartsWithOwn(EscapeChar(c), rest);
    if c == '&' {
    } else if c == '<' {
      NotStartsWith(s, "&amp;", 1);
    } else if c == '>' {
      NotStartsWith(s, "&amp;", 1);
      NotStartsWith(s, "&lt;", 1);
    } else if c == '"' {
      NotStartsWith(s, "&amp;", 1);
      NotStartsWith(s, "&lt;", 1);
      NotStartsWith(s, "&gt;", 1);
    } else if c == '\'' {
      NotStartsWith(s, "&amp;", 1);
      NotStartsWith(s, "&lt;", 1);
      NotStartsWith(s, "&gt;", 1);
      NotStartsWith(s, "&quot;", 1);
    } else {
      NotStartsWith(s, "&amp;", 0);
      NotStartsWith(s, "&lt;", 0);
      NotStartsWith(s, "&gt;", 0);
      NotStartsWith(s, "&quot;", 0);
      NotStartsWith(s, "&#039;", 0);
    }
  }

  /** Decoding the entities recovers the original text. */
  lemma {:induction false} UnescapeEscapeHtml(s: string)
    ensures UnescapeHtml(EscapeHtml(s)) == s
  {
    EscapeHtmlPerChar(s);
    UnescapeEscapeEach(s);
  }

  lemma {:induction false} UnescapeEscapeEach(s: string)
    ensures UnescapeHtml(EscapeEach(s)) == s
  {
    if s != [] {
      UnescapeEscapeChar(s[0], EscapeEach(s[1..]));
      UnescapeEscapeEach(s[1..]);
    }
  }

  /** Distinct texts are escaped differently. */
  lemma EscapeHtmlInjective(a: string, b: string)
    requires EscapeHtml(a) == EscapeHtml(b)
    ensures a == b
  {
    UnescapeEscapeHtml(a);
    UnescapeEscapeHtml(b);
  }
}
