/** `escapeHtml` and `escapeAttr`: character-to-entity escaping for the feature-detail pages. */
module Escaping {
  import opened Values

  /** The replacement `escapeHtml` uses for one character. */
  function EscapeChar(c: char): string
  {
    if c == '&' then "&amp;"
    else if c == '<' then "&lt;"
    else if c == '>' then "&gt;"
    else if c == '"' then "&quot;"
    else if c == '\'' then "&#39;"
    else [c]
  }

  /** The characters that may open or close a tag or an attribute value. */
  predicate Markup(c: char)
  {
    c == '<' || c == '>' || c == '"' || c == '\''
  }

  /** The characters `escapeHtml` replaces. */
  predicate Special(c: char)
  {
    c == '&' || Markup(c)
  }

  /** `escapeHtml(s)`: its result holds no markup character, and text without special characters is left as it is. */
  function EscapeHtml(s: string): (r: string)
    ensures forall i :: 0 <= i < |r| ==> !Markup(r[i])
    ensures (forall i :: 0 <= i < |s| ==> !Special(s[i])) ==> r == s
  {
    if s == [] then [] else EscapeChar(s[0]) + EscapeHtml(s[1..])
  }

  /** `.replace(/"/g, '&quot;')`. */
  function ReplaceQuotes(s: string): string
  {
    if s == [] then []
    else (if s[0] == '"' then "&quot;" else [s[0]]) + ReplaceQuotes(s[1..])
  }

  lemma {:induction false} ReplaceQuotesWithoutQuotes(s: string)
    requires forall i :: 0 <= i < |s| ==> s[i] != '"'
    ensures ReplaceQuotes(s) == s
  {
    if s != [] {
      ReplaceQuotesWithoutQuotes(s[1..]);
    }
  }

  /** `escapeAttr(s)`: its extra replacement finds no quote left, so it equals `escapeHtml(s)`. */
  function EscapeAttr(s: string): (r: string)
    ensures r == EscapeHtml(s)
  {
    ReplaceQuotesWithoutQuotes(EscapeHtml(s));
    ReplaceQuotes(EscapeHtml(s))
  }

  /** Reads the five entities back: the inverse of `escapeHtml`. */
  function Unescape(s: string): string
    decreases |s|
  {
    if s == [] then []
    else if StartsWith(s, "&amp;") then "&" + Unescape(s[5..])
    else if StartsWith(s, "&lt;") then "<" + Unescape(s[4..])
    else if StartsWith(s, "&gt;") then ">" + Unescape(s[4..])
    else if StartsWith(s, "&quot;") then "\"" + Unescape(s[6..])
    else if StartsWith(s, "&#39;") then "'" + Unescape(s[5..])
    else [s[0]] + Unescape(s[1..])
  }

  /** Two texts that differ at position `k` do not start one with the other. */
  lemma DiffersAt(e: string, p: string, k: nat)
    requires k < |p| && k < |e| && e[k] != p[k]
    ensures !StartsWith(e, p)
  {
    if |p| <= |e| {
      assert e[..|p|][k] == e[k];
    }
  }

  /** An entity followed by any text reads back as its character followed by that text. */
  lemma UnescapeAfterEntity(c: char, t: string)
    requires Special(c)
    ensures Unescape(EscapeChar(c) + t) == [c] + Unescape(t)
  {
    var entity := EscapeChar(c);
    var e := entity + t;
    assert e[..|entity|] == entity && e[|entity|..] == t;
    assert StartsWith(e, entity);
    assert e[1] == entity[1];
    if c != '&' {
      DiffersAt(e, "&amp;", 1);
    }
    if c != '&' && c != '<' {
      DiffersAt(e, "&lt;", 1);
    }
    if c != '&' && c != '<' && c != '>' {
      DiffersAt(e, "&gt;", 1);
    }
    if c == '\'' {
      DiffersAt(e, "&quot;", 1);
    }
  }

  /** An unescaped character is not `&`, so no entity starts with it. */
  lemma UnescapeAfterPlain(c: char, t: string)
    requires !Special(c)
    ensures Unescape([c] + t) == [c] + Unescape(t)
  {
    var e := [c] + t;
    assert e[0] == c && e[1..] == t;
    DiffersAt(e, "&amp;", 0);
    DiffersAt(e, "&lt;", 0);
    DiffersAt(e, "&gt;", 0);
    DiffersAt(e, "&quot;", 0);
    DiffersAt(e, "&#39;", 0);
  }

  lemma UnescapeAfterEscapeChar(c: char, t: string)
    ensures Unescape(EscapeChar(c) + t) == [c] + Unescape(t)
  {
    if Special(c) {
      UnescapeAfterEntity(c, t);
    } else {
      UnescapeAfterPlain(c, t);
    }
  }

  /** Escaping loses nothing: every character is replaced by an entity that reads back as it. */
  lemma {:induction false} UnescapeEscapeHtml(s: string)
    ensures Unescape(EscapeHtml(s)) == s
  {
    if s != [] {
      UnescapeAfterEscapeChar(s[0], EscapeHtml(s[1..]));
      UnescapeEscapeHtml(s[1..]);
    }
  }

  /** Hence two texts that escape alike are the same text. */
  lemma EscapeHtmlInjective(s: string, t: string)
    requires EscapeHtml(s) == EscapeHtml(t)
    ensures s == t
  {
    UnescapeEscapeHtml(s);
    UnescapeEscapeHtml(t);
  }
}
