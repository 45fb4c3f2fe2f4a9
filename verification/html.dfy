/** The page's `escHtml`: the five characters `& < > " '` become entity references before
    registry text is written into the result panel. */
module Html {
  import opened Strings

  /** The characters `escHtml` rewrites. */
  predicate IsSpecial(c: char) {
    c == '&' || c == '<' || c == '>' || c == '"' || c == '\''
  }

  /** One character's replacement. */
  function EscapeChar(c: char): (r: string)
    ensures r != [] && r[0] == (if IsSpecial(c) then '&' else c)
    ensures !IsSpecial(c) <==> r == [c]
    ensures '<' !in r && '>' !in r && '"' !in r && '\'' !in r
  {
    match c
    case '&' => "&amp;"
    case '<' => "&lt;"
    case '>' => "&gt;"
    case '"' => "&quot;"
    case '\'' => "&#39;"
    case _ => [c]
  }

  /** `escHtml(str)`. */
  function EscHtml(s: string): (r: string)
    ensures '<' !in r && '>' !in r && '"' !in r && '\'' !in r
    ensures |r| >= |s|
    decreases |s|
  {
    if s == [] then [] else EscapeChar(s[0]) + EscHtml(s[1..])
  }

  /** Reads entity references back: the inverse of `EscHtml`, an independent definition
      that scans the escaped text. */
  function Unescape(t: string): (r: string)
    decreases |t|
  {
    if t == [] then []
    else if IsPrefix("&amp;", t) then "&" + Unescape(t[5..])
    else if IsPrefix("&lt;", t) then "<" + Unescape(t[4..])
    else if IsPrefix("&gt;", t) then ">" + Unescape(t[4..])
    else if IsPrefix("&quot;", t) then "\"" + Unescape(t[6..])
    else if IsPrefix("&#39;", t) then "'" + Unescape(t[5..])
    else [t[0]] + Unescape(t[1..])
  }

  /** Unescaping one escaped character. */
  lemma UnescapeChar(c: char, x: string)
    ensures Unescape(EscapeChar(c) + x) == [c] + Unescape(x)
  {
    match c
    case '&' => UnescapeAmp(x);
    case '<' => UnescapeLt(x);
    case '>' => UnescapeGt(x);
    case '"' => UnescapeQuot(x);
    case '\'' => UnescapeApos(x);
    case _ => UnescapePlain(c, x);
  }

  lemma UnescapeAmp(x: string)
    ensures Unescape("&amp;" + x) == "&" + Unescape(x)
  {
    var t := "&amp;" + x;
    assert t[..5] == "&amp;" && t[5..] == x;
  }

  lemma UnescapeLt(x: string)
    ensures Unescape("&lt;" + x) == "<" + Unescape(x)
  {
    var t := "&lt;" + x;
    assert t[..4] == "&lt;" && t[4..] == x;
    assert t[1] == 'l';
  }

  lemma UnescapeGt(x: string)
    ensures Unescape("&gt;" + x) == ">" + Unescape(x)
  {
    var t := "&gt;" + x;
    assert t[..4] == "&gt;" && t[4..] == x;
    assert t[1] == 'g';
  }

  lemma UnescapeQuot(x: string)
    ensures Unescape("&quot;" + x) == "\"" + Unescape(x)
  {
    var t := "&quot;" + x;
    assert t[..6] == "&quot;" && t[6..] == x;
    assert t[1] == 'q';
  }

  lemma UnescapeApos(x: string)
    ensures Unescape("&#39;" + x) == "'" + Unescape(x)
  {
    var t := "&#39;" + x;
    assert t[..5] == "&#39;" && t[5..] == x;
    assert t[1] == '#';
  }

  lemma UnescapePlain(c: char, x: string)
    requires !IsSpecial(c)
    ensures Unescape([c] + x) == [c] + Unescape(x)
  {
    var t := [c] + x;
    assert t[0] == c && t[1..] == x;
  }

  /** Unescaping undoes escaping. */
  lemma {:induction false} RoundTrip(s: string)
    ensures Unescape(EscHtml(s)) == s
    decreases |s|
  {
    if s != [] {
      UnescapeChar(s[0], EscHtml(s[1..]));
      RoundTrip(s[1..]);
      assert [s[0]] + s[1..] == s;
    }
  }

  /** Different texts stay different once escaped. */
  lemma Injective(s: string, t: string)
    requires EscHtml(s) == EscHtml(t)
    ensures s == t
  {
    RoundTrip(s);
    RoundTrip(t);
  }

  /** Text without any of the five characters is left alone. */
  lemma {:induction false} PlainUnchanged(s: string)
    requires forall i :: 0 <= i < |s| ==> !IsSpecial(s[i])
    ensures EscHtml(s) == s
    decreases |s|
  {
    if s != [] {
      PlainUnchanged(s[1..]);
      assert [s[0]] + s[1..] == s;
    }
  }

  /** Escaping works character by character. */
  lemma {:induction false} EscHtmlAppend(a: string, b: string)
    ensures EscHtml(a + b) == EscHtml(a) + EscHtml(b)
    decreases |a|
  {
    if a == [] {
      assert a + b == b;
    } else {
      assert (a + b)[1..] == a[1..] + b;
      EscHtmlAppend(a[1..], b);
    }
  }

  /** An ampersand is escaped again: escaping is not idempotent. */
  lemma NotIdempotent()
    ensures EscHtml("&") == "&amp;"
    ensures EscHtml("&amp;") == "&amp;amp;"
  {
    assert "&amp;" == ['&'] + "amp;";
    PlainUnchanged("amp;");
  }
}
