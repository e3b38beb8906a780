/** Python's `html.escape(s, quote=True)`: `&`, `<`, `>`, `"` and `'` are
    replaced by character references; every other character is kept. */
module Html {
  import opened Sequences

  /** The characters that escaping removes from its output. */
  const Markup: set<char> := {'<', '>', '"', '\''}

  /** Every character the five references are written with. */
  const ReferenceChars: set<char> := set c | c in "&;#amplgtquox27"

  /** The replacement of one character. */
  function EscapeChar(c: char): string
  {
    match c
    case '&' => "&amp;"
    case '<' => "&lt;"
    case '>' => "&gt;"
    case '"' => "&quot;"
    case '\'' => "&#x27;"
    case _ => [c]
  }

  /** `html.escape(s)`, one character at a time; the result holds no markup
      character and is at least as long as `s`. */
  function Escape(s: string): (r: string)
    ensures forall i :: 0 <= i < |r| ==> r[i] !in Markup
    ensures |r| >= |s|
  {
    if |s| == 0 then "" else EscapeChar(s[0]) + Escape(s[1..])
  }

  /** `s` begins with `p`. */
  predicate StartsWith(s: string, p: string)
  {
    |p| <= |s| && s[..|p|] == p
  }

  /** Decodes exactly the five references `Escape` produces and keeps every
      other character: the reference inverse of `Escape`. */
  function Unescape(s: string): string
    decreases |s|
  {
    if |s| == 0 then ""
    else if s[0] != '&' then [s[0]] + Unescape(s[1..])
    else if StartsWith(s, "&amp;") then "&" + Unescape(s[5..])
    else if StartsWith(s, "&lt;") then "<" + Unescape(s[4..])
    else if StartsWith(s, "&gt;") then ">" + Unescape(s[4..])
    else if StartsWith(s, "&quot;") then "\"" + Unescape(s[6..])
    else if StartsWith(s, "&#x27;") then "'" + Unescape(s[6..])
    else "&" + Unescape(s[1..])
  }

  /** Escaping commutes with concatenation. */
  lemma {:induction false} EscapeAppend(a: string, b: string)
    ensures Escape(a + b) == Escape(a) + Escape(b)
  {
    if |a| == 0 {
      assert a + b == b;
    } else {
      AppendFront(a, b);
      EscapeAppend(a[1..], b);
      AppendAssoc(EscapeChar(a[0]), Escape(a[1..]), Escape(b));
    }
  }

  /** Decoding one escaped character in front of any text. */
  lemma UnescapeEscapeChar(c: char, t: string)
    ensures Unescape(EscapeChar(c) + t) == [c] + Unescape(t)
  {
    var s := EscapeChar(c) + t;
    if c == '&' {
      assert StartsWith(s, "&amp;") && s[5..] == t;
    } else if c == '<' {
      UnescapeLt(t);
    } else if c == '>' {
      UnescapeGt(t);
    } else if c == '"' {
      UnescapeQuot(t);
    } else if c == '\'' {
      UnescapeApos(t);
    } else {
      assert s[0] == c && s[1..] == t;
    }
  }

  lemma UnescapeLt(t: string)
    ensures Unescape("&lt;" + t) == "<" + Unescape(t)
  {
    var s := "&lt;" + t;
    assert s[1] == 'l' && StartsWith(s, "&lt;") && s[4..] == t;
  }

  lemma UnescapeGt(t: string)
    ensures Unescape("&gt;" + t) == ">" + Unescape(t)
  {
    var s := "&gt;" + t;
    assert s[1] == 'g' && StartsWith(s, "&gt;") && s[4..] == t;
  }

  lemma UnescapeQuot(t: string)
    ensures Unescape("&quot;" + t) == "\"" + Unescape(t)
  {
    var s := "&quot;" + t;
    assert s[1] == 'q' && StartsWith(s, "&quot;") && s[6..] == t;
  }

  lemma UnescapeApos(t: string)
    ensures Unescape("&#x27;" + t) == "'" + Unescape(t)
  {
    var s := "&#x27;" + t;
    assert s[1] == '#' && StartsWith(s, "&#x27;") && s[6..] == t;
  }

  /** Decoding an escaped prefix gives back the original prefix. */
  lemma {:induction false} UnescapeEscapeAppend(a: string, t: string)
    ensures Unescape(Escape(a) + t) == a + Unescape(t)
  {
    if |a| == 0 {
      assert Escape(a) + t == t && a + Unescape(t) == Unescape(t);
    } else {
      var tail := Escape(a[1..]) + t;
      UnescapeEscapeAppend(a[1..], t);
      AppendAssoc(EscapeChar(a[0]), Escape(a[1..]), t);
      UnescapeEscapeChar(a[0], tail);
      ConsAppend(a, Unescape(t));
    }
  }

  /** Escaping loses nothing: decoding gives back the escaped text. */
  lemma {:induction false} EscapeRoundTrip(s: string)
    ensures Unescape(Escape(s)) == s
  {
    UnescapeEscapeAppend(s, "");
    assert Escape(s) + "" == Escape(s) && s + "" == s;
  }

  /** A character outside the markup and reference alphabets occurs in the
      escaped text exactly when it occurs in the original. */
  lemma {:induction false} EscapeKeepsPlainChar(s: string, c: char)
    requires c !in Markup && c !in ReferenceChars
    ensures c in Escape(s) <==> c in s
  {
    if |s| > 0 {
      EscapeKeepsPlainChar(s[1..], c);
      assert Escape(s) == EscapeChar(s[0]) + Escape(s[1..]);
      assert s == [s[0]] + s[1..];
    }
  }

  /** Text without any of the five special characters is left as it is. */
  lemma {:induction false} EscapePlain(s: string)
    requires forall c :: c in s ==> c !in Markup && c != '&'
    ensures Escape(s) == s
  {
    if |s| > 0 {
      assert s[0] in s;
      EscapePlain(s[1..]);
      assert s == [s[0]] + s[1..];
    }
  }

  /** The example of the test suite: `<a>David</a>` is escaped tag by tag. */
  lemma EscapeTagExample()
    ensures Escape("<a>" + "David" + "</a>") == "&lt;a&gt;" + "David" + "&lt;/a&gt;"
  {
    EscapeAppend("<a>", "David");
    EscapeAppend("<a>" + "David", "</a>");
    EscapeTags();
    EscapePlain("David");
  }

  lemma EscapeTags()
    ensures Escape("<a>") == "&lt;a&gt;" && Escape("</a>") == "&lt;/a&gt;"
  {
  }
}
