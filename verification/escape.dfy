/** `escapeHTML` (frontend/app.js): five global replacements applied in a fixed order. */
module HtmlEscape {
  import opened Wrappers
  import opened Text

  /** `s.replace(/c/g, rep)`: every occurrence of `c` becomes `rep`. */
  function ReplaceAll(s: string, c: char, rep: string): (r: string)
    ensures c !in rep ==> c !in r
    ensures c !in s ==> r == s
  {
    if s == [] then [] else (if s[0] == c then rep else [s[0]]) + ReplaceAll(s[1..], c, rep)
  }

  /** The replacement chain of `escapeHTML`, ampersand first. */
  function ReplaceChain(s: string): string {
    var amp := ReplaceAll(s, '&', "&amp;");
    var lt := ReplaceAll(amp, '<', "&lt;");
    var gt := ReplaceAll(lt, '>', "&gt;");
    var quot := ReplaceAll(gt, '"', "&quot;");
    ReplaceAll(quot, '\'', "&#039;")
  }

  /** `escapeHTML(str)`: a falsy argument (absent or empty) gives the empty string. */
  function EscapeHtml(str: Option<string>): (r: string)
    ensures str.None? || str.value == "" ==> r == ""
    ensures str.Some? ==> r == EscapeEach(str.value)
    ensures '<' !in r && '>' !in r && '"' !in r && '\'' !in r
  {
    if str.None? || str.value == "" then ""
    else
      ReplaceChainIsSinglePass(str.value);
      ReplaceChain(str.value)
  }

  /** The entity each character stands for in the output, or the character itself. */
  function EscapeChar(c: char): string {
    match c
    case '&' => "&amp;"
    case '<' => "&lt;"
    case '>' => "&gt;"
    case '"' => "&quot;"
    case '\'' => "&#039;"
    case _ => [c]
  }

  predicate IsSpecial(c: char) {
    c == '&' || c == '<' || c == '>' || c == '"' || c == '\''
  }

  /** A single left-to-right pass mapping each character through `EscapeChar`. */
  function EscapeEach(s: string): (r: string)
    ensures '<' !in r && '>' !in r && '"' !in r && '\'' !in r
    ensures (forall i :: 0 <= i < |s| ==> !IsSpecial(s[i])) ==> r == s
  {
    if s == [] then []
    else
      EscapeCharSafe(s[0]);
      EscapeChar(s[0]) + EscapeEach(s[1..])
  }

  /** No entity contains a markup-significant character, and other characters map to themselves. */
  lemma EscapeCharSafe(c: char)
    ensures '<' !in EscapeChar(c) && '>' !in EscapeChar(c) && '"' !in EscapeChar(c) && '\'' !in EscapeChar(c)
    ensures !IsSpecial(c) ==> EscapeChar(c) == [c]
  {
  }

  lemma {:induction false} ReplaceAllConcat(a: string, b: string, c: char, rep: string)
    ensures ReplaceAll(a + b, c, rep) == ReplaceAll(a, c, rep) + ReplaceAll(b, c, rep)
  {
    if a == [] {
      assert a + b == b;
    } else {
      assert (a + b)[1..] == a[1..] + b;
      ReplaceAllConcat(a[1..], b, c, rep);
    }
  }

  lemma ReplaceChainConcat(a: string, b: string)
    ensures ReplaceChain(a + b) == ReplaceChain(a) + ReplaceChain(b)
  {
    var a1, b1 := ReplaceAll(a, '&', "&amp;"), ReplaceAll(b, '&', "&amp;");
    ReplaceAllConcat(a, b, '&', "&amp;");
    var a2, b2 := ReplaceAll(a1, '<', "&lt;"), ReplaceAll(b1, '<', "&lt;");
    ReplaceAllConcat(a1, b1, '<', "&lt;");
    var a3, b3 := ReplaceAll(a2, '>', "&gt;"), ReplaceAll(b2, '>', "&gt;");
    ReplaceAllConcat(a2, b2, '>', "&gt;");
    var a4, b4 := ReplaceAll(a3, '"', "&quot;"), ReplaceAll(b3, '"', "&quot;");
    ReplaceAllConcat(a3, b3, '"', "&quot;");
    ReplaceAllConcat(a4, b4, '\'', "&#039;");
  }

  lemma ReplaceOne(c: char, x: char, rep: string)
    ensures ReplaceAll([c], x, rep) == if c == x then rep else [c]
  {
    assert [c][1..] == [];
  }

  /** On one character the chain produces exactly that character's entity: no entity is escaped twice. */
  lemma ReplaceChainOneChar(c: char)
    ensures ReplaceChain([c]) == EscapeChar(c)
  {
    if c == '&' { ChainOnAmp(); }
    else if c == '<' { ChainOnLt(); }
    else if c == '>' { ChainOnGt(); }
    else if c == '"' { ChainOnQuot(); }
    else if c == '\'' { ChainOnApos(); }
    else { ChainOnPlain(c); }
  }

  /** Text without the later-replaced characters survives the later steps. */
  lemma LaterStepsKeep(s: string)
    requires '<' !in s && '>' !in s && '"' !in s && '\'' !in s
    ensures ReplaceAll(ReplaceAll(ReplaceAll(ReplaceAll(s, '<', "&lt;"), '>', "&gt;"), '"', "&quot;"), '\'', "&#039;") == s
  {
  }

  lemma ChainOnAmp()
    ensures ReplaceChain("&") == "&amp;"
  {
    ReplaceOne('&', '&', "&amp;");
    LaterStepsKeep("&amp;");
  }

  lemma ChainOnPlain(c: char)
    requires !IsSpecial(c)
    ensures ReplaceChain([c]) == [c]
  {
    ReplaceOne(c, '&', "&amp;");
    LaterStepsKeep([c]);
  }

  lemma Keeps(s: string, x: char, rep: string)
    requires x !in s
    ensures ReplaceAll(s, x, rep) == s
  {
  }

  lemma ChainOnLt()
    ensures ReplaceChain("<") == "&lt;"
  {
    ReplaceOne('<', '&', "&amp;");
    ReplaceOne('<', '<', "&lt;");
    var lt := ReplaceAll(ReplaceAll("<", '&', "&amp;"), '<', "&lt;");
    assert lt == "&lt;";
    assert '>' !in lt && '"' !in lt && '\'' !in lt;
    Keeps(lt, '>', "&gt;");
    Keeps(lt, '"', "&quot;");
    Keeps(lt, '\'', "&#039;");
  }

  lemma ChainOnGt()
    ensures ReplaceChain(">") == "&gt;"
  {
    ReplaceOne('>', '&', "&amp;");
    ReplaceOne('>', '<', "&lt;");
    ReplaceOne('>', '>', "&gt;");
    var gt := ReplaceAll(ReplaceAll(ReplaceAll(">", '&', "&amp;"), '<', "&lt;"), '>', "&gt;");
    assert gt == "&gt;";
    assert '"' !in gt && '\'' !in gt;
    Keeps(gt, '"', "&quot;");
    Keeps(gt, '\'', "&#039;");
  }

  lemma ChainOnQuot()
    ensures ReplaceChain("\"") == "&quot;"
  {
    ReplaceOne('"', '&', "&amp;");
    ReplaceOne('"', '<', "&lt;");
    ReplaceOne('"', '>', "&gt;");
    ReplaceOne('"', '"', "&quot;");
    Keeps("&quot;", '\'', "&#039;");
  }

  lemma ChainOnApos()
    ensures ReplaceChain("'") == "&#039;"
  {
    ReplaceOne('\'', '&', "&amp;");
    ReplaceOne('\'', '<', "&lt;");
    ReplaceOne('\'', '>', "&gt;");
    ReplaceOne('\'', '"', "&quot;");
    ReplaceOne('\'', '\'', "&#039;");
  }

  /** The ordered replacements equal one pass that maps every input character exactly once. */
  lemma {:induction false} ReplaceChainIsSinglePass(s: string)
    ensures ReplaceChain(s) == EscapeEach(s)
  {
    if s != [] {
      assert s == [s[0]] + s[1..];
      ReplaceChainConcat([s[0]], s[1..]);
      ReplaceChainOneChar(s[0]);
      ReplaceChainIsSinglePass(s[1..]);
    }
  }

  /** Decodes the five entities `escapeHTML` produces; any other text is kept. */
  function Unescape(s: string): string
    decreases |s|
  {
    if s == [] then []
    else if HasPrefix(s, "&amp;") then "&" + Unescape(s[5..])
    else if HasPrefix(s, "&lt;") then "<" + Unescape(s[4..])
    else if HasPrefix(s, "&gt;") then ">" + Unescape(s[4..])
    else if HasPrefix(s, "&quot;") then "\"" + Unescape(s[6..])
    else if HasPrefix(s, "&#039;") then "'" + Unescape(s[6..])
    else [s[0]] + Unescape(s[1..])
  }

  /** A text whose second character differs from an entity's does not start with that entity. */
  lemma NotPrefixAt1(s: string, p: string)
    requires |s| >= 2 && |p| >= 2 && s[1] != p[1]
    ensures !HasPrefix(s, p)
  {
    if |p| <= |s| {
      assert s[..|p|][1] == s[1];
    }
  }

  /** Decoding consumes a character's own encoding and nothing more. */
  lemma UnescapeStep(c: char, rest: string)
    ensures Unescape(EscapeChar(c) + rest) == [c] + Unescape(rest)
  {
    if IsSpecial(c) {
      UnescapeEntity(c, rest);
    } else {
      EscapeCharSafe(c);
      var s := [c] + rest;
      assert s[0] == c && s[1..] == rest;
      UnescapeOrdinary(s);
    }
  }

  /** A text whose first character differs from an entity's does not start with that entity. */
  lemma NotPrefixAt0(s: string, p: string)
    requires |s| >= 1 && |p| >= 1 && s[0] != p[0]
    ensures !HasPrefix(s, p)
  {
    if |p| <= |s| {
      assert s[..|p|][0] == s[0];
    }
  }

  /** Text that does not start with `&` decodes its first character as itself. */
  lemma UnescapeOrdinary(s: string)
    requires s != [] && s[0] != '&'
    ensures Unescape(s) == [s[0]] + Unescape(s[1..])
  {
    NotPrefixAt0(s, "&amp;");
    NotPrefixAt0(s, "&lt;");
    NotPrefixAt0(s, "&gt;");
    NotPrefixAt0(s, "&quot;");
    NotPrefixAt0(s, "&#039;");
  }

  lemma UnescapeEntity(c: char, rest: string)
    requires IsSpecial(c)
    ensures Unescape(EscapeChar(c) + rest) == [c] + Unescape(rest)
  {
    var entity := EscapeChar(c);
    var s := entity + rest;
    var n := |entity|;
    assert s[..n] == entity && s[n..] == rest;
    assert entity[..n] == entity && entity[n..] == [];
    if entity != "&amp;" {
      NotPrefixAt1(s, "&amp;");
      NotPrefixAt1(entity, "&amp;");
    }
    if entity != "&amp;" && entity != "&lt;" {
      NotPrefixAt1(s, "&lt;");
      NotPrefixAt1(entity, "&lt;");
    }
    if entity == "&quot;" || entity == "&#039;" {
      NotPrefixAt1(s, "&gt;");
      NotPrefixAt1(entity, "&gt;");
    }
    if entity == "&#039;" {
      NotPrefixAt1(s, "&quot;");
      NotPrefixAt1(entity, "&quot;");
    }
  }

  /** Escaping loses nothing: decoding the entities gives the input back. */
  lemma {:induction false} UnescapeRoundTrip(s: string)
    ensures Unescape(EscapeEach(s)) == s
  {
    if s != [] {
      UnescapeStep(s[0], EscapeEach(s[1..]));
      UnescapeRoundTrip(s[1..]);
      assert [s[0]] + s[1..] == s;
    }
  }

  /** Different non-empty inputs never escape to the same text. */
  lemma EscapeInjective(a: string, b: string)
    requires EscapeHtml(Some(a)) == EscapeHtml(Some(b))
    ensures a == b
  {
    UnescapeRoundTrip(a);
    UnescapeRoundTrip(b);
  }

  /** Text free of the five special characters passes through unchanged. */
  lemma PlainTextUnchanged(s: string)
    requires forall i :: 0 <= i < |s| ==> !IsSpecial(s[i])
    ensures EscapeHtml(Some(s)) == s
  {
  }
}
