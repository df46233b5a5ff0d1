/** `escapeHTML`: the five characters with a meaning in HTML markup replaced
    by their character references. */
module Html {

  /** The characters `escapeHTML` rewrites. */
  predicate IsSpecial(c: char) {
    c == '&' || c == '<' || c == '>' || c == '\'' || c == '"'
  }

  /** The replacement for one character. */
  function EscapeChar(c: char): (r: string)
    ensures !IsSpecial(c) ==> r == [c]
    ensures IsSpecial(c) ==> |r| >= 4 && r[0] == '&' && r[|r| - 1] == ';'
  {
    match c
    case '&' => "&amp;"
    case '<' => "&lt;"
    case '>' => "&gt;"
    case '\'' => "&#39;"
    case '"' => "&quot;"
    case _ => [c]
  }

  /** `escapeHTML(str)`: every character replaced by `EscapeChar` of it. The
      result never contains `<`, `>`, `'` or `"`, so it is safe as element
      text and inside a quoted attribute. */
  function EscapeHTML(s: string): (r: string)
    ensures |r| >= |s|
    ensures forall i :: 0 <= i < |r| ==> r[i] != '<' && r[i] != '>' && r[i] != '\'' && r[i] != '"'
  {
    if s == [] then [] else EscapeChar(s[0]) + EscapeHTML(s[1..])
  }

  /** Escaping works character by character: a concatenation escapes to the
      concatenation of the escaped parts. */
  lemma {:induction false} EscapeAppend(a: string, b: string)
    ensures EscapeHTML(a + b) == EscapeHTML(a) + EscapeHTML(b)
  {
    if a == [] {
      assert a + b == b;
    } else {
      assert (a + b)[1..] == a[1..] + b;
      EscapeAppend(a[1..], b);
    }
  }

  /** Text without any of the five special characters passes through unchanged. */
  lemma {:induction false} EscapePlainText(s: string)
    requires forall i :: 0 <= i < |s| ==> !IsSpecial(s[i])
    ensures EscapeHTML(s) == s
  {
    if s != [] {
      EscapePlainText(s[1..]);
    }
  }

  predicate StartsWith(s: string, prefix: string) {
    |prefix| <= |s| && s[..|prefix|] == prefix
  }

  /** What an HTML parser reads back from escaped text: the five character
      references turned back into their characters. */
  function Unescape(s: string): string
    decreases |s|
  {
    if s == [] then []
    else if s[0] != '&' then [s[0]] + Unescape(s[1..])
    else if StartsWith(s, "&amp;") then "&" + Unescape(s[5..])
    else if StartsWith(s, "&lt;") then "<" + Unescape(s[4..])
    else if StartsWith(s, "&gt;") then ">" + Unescape(s[4..])
    else if StartsWith(s, "&#39;") then "'" + Unescape(s[5..])
    else if StartsWith(s, "&quot;") then "\"" + Unescape(s[6..])
    else "&" + Unescape(s[1..])
  }

  lemma UnescapeStep(c: char, rest: string)
    ensures Unescape(EscapeChar(c) + rest) == [c] + Unescape(rest)
  {
    if IsSpecial(c) {
      UnescapeReference(c, rest);
    } else {
      var s := EscapeChar(c) + rest;
      assert s[0] == c && s[1..] == rest;
    }
  }

  /** Each of the five references decodes to its character. */
  lemma UnescapeReference(c: char, rest: string)
    requires IsSpecial(c)
    ensures Unescape(EscapeChar(c) + rest) == [c] + Unescape(rest)
  {
    var s := EscapeChar(c) + rest;
    assert s[..|EscapeChar(c)|] == EscapeChar(c) && s[|EscapeChar(c)|..] == rest;
    if c == '&' {
      assert StartsWith(s, "&amp;");
    } else if c == '<' {
      UnescapeAfterAmp(s, 'l');
    } else if c == '>' {
      UnescapeAfterAmp(s, 'g');
    } else if c == '\'' {
      UnescapeAfterAmp(s, '#');
    } else {
      UnescapeAfterAmp(s, 'q');
    }
  }

  /** The character after `&` tells which reference can start there. */
  lemma UnescapeAfterAmp(s: string, d: char)
    requires |s| >= 2 && s[0] == '&' && s[1] == d
    ensures d != 'a' ==> !StartsWith(s, "&amp;")
    ensures d != 'l' ==> !StartsWith(s, "&lt;")
    ensures d != 'g' ==> !StartsWith(s, "&gt;")
    ensures d != '#' ==> !StartsWith(s, "&#39;")
  {
  }

  /** The escaped text reads back as the original: escaping loses nothing,
      and no two texts escape alike. */
  lemma {:induction false} UnescapeEscape(s: string)
    ensures Unescape(EscapeHTML(s)) == s
  {
    if s != [] {
      UnescapeStep(s[0], EscapeHTML(s[1..]));
      UnescapeEscape(s[1..]);
    }
  }
}
