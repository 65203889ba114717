/** The escapes put into page text are JSON's own: whoever reads them as such reads the page text. */
module BrowserEscapes {
  import opened Text
  import opened BrowserText

  /** The escape sequence \u003c of a JSON string read as the character it stands for. */
  function Read(s: string): string {
    ReplaceAll(s, "\\u003c", "<")
  }

  /** Text without a backslash is read as it is. */
  lemma {:induction false} ReadPlain(p: string, rest: string)
    requires '\\' !in p
    ensures Read(p + rest) == p + Read(rest)
    decreases |p|
  {
    if p == "" {
      assert p + rest == rest;
    } else {
      assert p[0] in p && forall c <- p[1..] :: c in p;
      var s := p + rest;
      assert s[0] == p[0] && s[1..] == p[1..] + rest;
      ReadPlain(p[1..], rest);
    }
  }

  lemma ReadEscape(rest: string)
    ensures Read("\\u003c" + rest) == "<" + Read(rest)
  {
    var s := "\\u003c" + rest;
    assert s[6..] == rest;
  }

  /** Text without an angle bracket passes through an escaping pass. */
  lemma {:induction false} PassPlain(p: string, rest: string, m: string)
    requires IsMarker(m) && '<' !in p
    ensures ReplaceAll(p + rest, m, Escaped(m)) == p + ReplaceAll(rest, m, Escaped(m))
    decreases |p|
  {
    if p == "" {
      assert p + rest == rest;
    } else {
      assert p[0] in p && forall c <- p[1..] :: c in p;
      var s := p + rest;
      assert s[0] == p[0] && s[1..] == p[1..] + rest;
      PassPlain(p[1..], rest, m);
    }
  }

  /** An escaped marker is read as the marker. */
  lemma MarkerRead(m: string, rest: string)
    requires IsMarker(m)
    ensures Read(Escaped(m) + rest) == m + Read(rest) && Read(m + rest) == m + Read(rest)
  {
    MarkerHasNoBackslash(m);
    assert m == "<" + m[1..];
    assert forall c <- m[1..] :: c in m;
    hide IsMarker, Read;
    assert Escaped(m) + rest == "\\u003c" + (m[1..] + rest);
    ReadEscape(m[1..] + rest);
    ReadPlain(m[1..], rest);
    ReadPlain(m, rest);
    assert m + Read(rest) == "<" + (m[1..] + Read(rest));
  }

  /** Where the text starts with an escape, the pass leaves it alone. */
  lemma EscapeRead(m: string, rest: string)
    requires IsMarker(m)
    ensures Read(ReplaceAll("\\u003c" + rest, m, Escaped(m))) == "<" + Read(ReplaceAll(rest, m, Escaped(m)))
  {
    PassPlain("\\u003c", rest, m);
    hide IsMarker, Read, ReplaceAll;
    ReadEscape(ReplaceAll(rest, m, Escaped(m)));
  }

  /** One escaping pass does not change what is read. */
  lemma {:induction false} PassReads(s: string, m: string)
    requires IsMarker(m)
    ensures Read(ReplaceAll(s, m, Escaped(m))) == Read(s)
    decreases |s|
  {
    if s != "" {
      if m <= s {
        var rest := s[|m|..];
        PassReads(rest, m);
        assert s == m + rest;
        hide Escaped, IsMarker, Read;
        MarkerRead(m, ReplaceAll(rest, m, Escaped(m)));
        MarkerRead(m, rest);
      } else if "\\u003c" <= s {
        var rest := s[6..];
        PassReads(rest, m);
        assert s == "\\u003c" + rest;
        hide Escaped, IsMarker, Read, ReplaceAll;
        EscapeRead(m, rest);
        ReadEscape(rest);
      } else {
        PassReads(s[1..], m);
        OtherRead(s, m);
      }
    }
  }

  lemma OtherRead(s: string, m: string)
    requires IsMarker(m) && s != "" && !(m <= s) && !("\\u003c" <= s)
    ensures Read(s) == [s[0]] + Read(s[1..])
    ensures Read(ReplaceAll(s, m, Escaped(m))) == [s[0]] + Read(ReplaceAll(s[1..], m, Escaped(m)))
  {
    var t := [s[0]] + ReplaceAll(s[1..], m, Escaped(m));
    assert ReplaceAll(s, m, Escaped(m)) == t;
    assert s == [s[0]] + s[1..];
    if "\\u003c" <= t {
      EscapeWasThere(s[0], s[1..], m);
    }
    hide IsMarker, Escaped;
  }

  lemma EscapeWasThere(c: char, tail: string, m: string)
    requires IsMarker(m) && "\\u003c" <= [c] + ReplaceAll(tail, m, Escaped(m))
    ensures "\\u003c" <= [c] + tail
  {
    var word, t := "\\u003c", [c] + ReplaceAll(tail, m, Escaped(m));
    assert word[1..] == "u003c" && t[1..] == ReplaceAll(tail, m, Escaped(m));
    hide IsMarker, Escaped, ReplaceAll;
    PrefixKept(tail, m, "u003c");
  }

  /** The markers, letter by letter. */
  lemma BeginIs()
    ensures BEGIN == "<<<BEGIN UNTRUSTED EXTERNAL CONTENT>>>"
  {
  }

  lemma EndIs()
    ensures END == "<<<END UNTRUSTED EXTERNAL CONTENT>>>"
  {
  }

  /** Between the two markers, each on a line of its own, stands text that is read as the page text is. */
  lemma EscapesLoseNothing(value: string)
    ensures exists body :: UntrustedText(value) == BEGIN + "\n" + body + "\n" + END && Read(body) == Read(value)
  {
    BothAreMarkers();
    hide BEGIN, END, IsMarker, Read, Escaped, ReplaceAll;
    var once := ReplaceAll(value, BEGIN, Escaped(BEGIN));
    var body := ReplaceAll(once, END, Escaped(END));
    PassReads(value, BEGIN);
    PassReads(once, END);
    assert UntrustedText(value) == BEGIN + "\n" + body + "\n" + END;
  }
}
