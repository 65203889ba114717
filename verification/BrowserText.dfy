/**
 Text from a web page put between two markers: whatever the page says, the only begin marker
 is the first thing in the result and the only end marker the last.
 */
module BrowserText {
  import opened Text

  const CONTENT := " UNTRUSTED EXTERNAL CONTENT>>>"
  const BEGIN := "<<<BEGIN" + CONTENT
  const END := "<<<END" + CONTENT

  /** strings.ReplaceAll: from the left, without overlaps. */
  function ReplaceAll(s: string, from: string, to: string): string
    requires from != ""
    decreases |s|
  {
    if s == "" then ""
    else if from <= s then to + ReplaceAll(s[|from|..], from, to)
    else [s[0]] + ReplaceAll(s[1..], from, to)
  }

  /** The marker with its first angle bracket spelled out. */
  function Escaped(marker: string): string
    requires marker != ""
  {
    "\\u003c" + marker[1..]
  }

  function UntrustedText(value: string): string {
    BEGIN + "\n" + ReplaceAll(ReplaceAll(value, BEGIN, Escaped(BEGIN)), END, Escaped(END)) + "\n" + END
  }

  predicate OccursAt(s: string, marker: string, i: int) {
    0 <= i <= |s| - |marker| && s[i..i + |marker|] == marker
  }

  ghost predicate Occurs(s: string, marker: string) {
    exists i :: OccursAt(s, marker, i)
  }

  /** Three angle brackets, none after them, no backslash and no newline. */
  ghost predicate IsMarker(m: string) {
    && |m| > 3 && m[0] == m[1] == m[2] == '<'
    && (forall i :: 3 <= i < |m| ==> m[i] != '<')
    && '\\' !in m && '\n' !in m
  }

  lemma ContentIsPlain()
    ensures |CONTENT| == 30 && '<' !in CONTENT && '\\' !in CONTENT && '\n' !in CONTENT
  {
  }

  lemma HeadIsMarker(head: string, rest: string)
    requires |head| > 3 && head[..3] == "<<<" && '<' !in head[3..] && '\\' !in head && '\n' !in head
    requires '<' !in rest && '\\' !in rest && '\n' !in rest
    ensures IsMarker(head + rest)
  {
    var m := head + rest;
    assert m[..3] == head[..3];
    assert m[0] == m[..3][0] && m[1] == m[..3][1] && m[2] == m[..3][2];
    forall i | 3 <= i < |m|
      ensures m[i] != '<'
    {
      assert i < |head| ==> m[i] == head[3..][i - 3];
      assert i >= |head| ==> m[i] == rest[i - |head|];
    }
  }

  lemma BothAreMarkers()
    ensures IsMarker(BEGIN) && BEGIN[3] == 'B' && |BEGIN| == 38
    ensures IsMarker(END) && END[3] == 'E' && |END| == 36
  {
    hide IsMarker;
    ContentIsPlain();
    hide CONTENT;
    HeadIsMarker("<<<BEGIN", CONTENT);
    HeadIsMarker("<<<END", CONTENT);
  }

  lemma Brackets(m: string, s: string, i: int)
    requires IsMarker(m) && OccursAt(s, m, i)
    ensures s[i] == s[i + 1] == s[i + 2] == '<' && s[i + 3] == m[3]
    ensures s[i..i + |m|] == m
  {
    var part := s[i..i + |m|];
    assert part[0] == s[i] && part[1] == s[i + 1] && part[2] == s[i + 2] && part[3] == s[i + 3];
  }

  /** What a replaced text starts with, if it holds no backslash, the original started with. */
  lemma {:induction false} PrefixKept(s: string, m: string, w: string)
    requires IsMarker(m) && '\\' !in w && w <= ReplaceAll(s, m, Escaped(m))
    ensures w <= s
    decreases |s|
  {
    if w != "" && s != "" {
      assert w[0] in w;
      if !(m <= s) {
        PrefixKept(s[1..], m, w[1..]);
      }
    }
  }

  /** No marker starts inside an escaped one, whatever follows it. */
  lemma NoneInEscaped(m: string, k: string, rest: string, i: int)
    requires IsMarker(m) && IsMarker(k) && 0 <= i < |Escaped(m)|
    ensures !OccursAt(Escaped(m) + rest, k, i)
  {
    var s := Escaped(m) + rest;
    assert forall j :: 6 <= j < |Escaped(m)| ==> s[j] == m[j - 5];
    if OccursAt(s, k, i) {
      Brackets(k, s, i);
    }
  }

  /** Where an occurrence in a replaced text comes from: from further on, or from the very start of the original. */
  lemma WhereFrom(s: string, m: string, k: string, i: int)
    requires IsMarker(m) && IsMarker(k) && s != "" && OccursAt(ReplaceAll(s, m, Escaped(m)), k, i)
    ensures if m <= s then OccursAt(ReplaceAll(s[|m|..], m, Escaped(m)), k, i - |Escaped(m)|)
      else OccursAt(ReplaceAll(s[1..], m, Escaped(m)), k, i - 1) || OccursAt(s, k, 0)
  {
    if m <= s {
      var rest := ReplaceAll(s[|m|..], m, Escaped(m));
      assert ReplaceAll(s, m, Escaped(m)) == Escaped(m) + rest;
      hide ReplaceAll, IsMarker, OccursAt, Escaped;
      if i < |Escaped(m)| {
        AtLeastZero(Escaped(m) + rest, k, i);
        NoneInEscaped(m, k, rest, i);
      } else {
        SliceShift(Escaped(m), rest, k, i);
      }
    } else {
      var rest := ReplaceAll(s[1..], m, Escaped(m));
      assert ReplaceAll(s, m, Escaped(m)) == [s[0]] + rest;
      hide IsMarker, Escaped;
      if i == 0 {
        assert k == ([s[0]] + rest)[..|k|];
        hide ReplaceAll, OccursAt;
        MarkerHasNoBackslash(k);
        PrefixKept(s, m, k);
        StartsIt(s, k);
      } else {
        hide ReplaceAll;
        SliceShift([s[0]], rest, k, i);
      }
    }
  }

  lemma AtLeastZero(s: string, k: string, i: int)
    requires OccursAt(s, k, i)
    ensures 0 <= i
  {
  }

  lemma MarkerHasNoBackslash(k: string)
    requires IsMarker(k)
    ensures '\\' !in k
  {
  }

  lemma SliceShift(head: string, rest: string, k: string, i: int)
    requires OccursAt(head + rest, k, i) && i >= |head|
    ensures OccursAt(rest, k, i - |head|)
  {
    assert (head + rest)[i..i + |k|] == rest[i - |head|..i - |head| + |k|];
  }

  /** A pass that escapes `m` leaves no `m`, and makes no marker `k` that was not there. */
  lemma {:induction false} NoMarkerLeft(s: string, m: string, k: string)
    requires IsMarker(m) && IsMarker(k) && (k == m || !Occurs(s, k))
    ensures !Occurs(ReplaceAll(s, m, Escaped(m)), k)
    decreases |s|
  {
    if s == "" {
      EmptyHasNone(k);
    } else {
      var step := if m <= s then |m| else 1;
      TailKeepsNone(s, step, k);
      NoMarkerLeft(s[step..], m, k);
      StartsIt(s, k);
      forall i
        ensures !OccursAt(ReplaceAll(s, m, Escaped(m)), k, i)
      {
        hide ReplaceAll, IsMarker, OccursAt;
        if OccursAt(ReplaceAll(s, m, Escaped(m)), k, i) {
          WhereFrom(s, m, k, i);
        }
      }
    }
  }

  lemma EmptyHasNone(k: string)
    requires IsMarker(k)
    ensures !Occurs("", k)
  {
  }

  lemma StartsIt(s: string, k: string)
    ensures k <= s <==> OccursAt(s, k, 0)
  {
    assert k <= s ==> s[0..|k|] == k;
  }

  lemma TailKeepsNone(s: string, step: nat, k: string)
    requires step <= |s|
    ensures !Occurs(s, k) ==> !Occurs(s[step..], k)
  {
    forall i | OccursAt(s[step..], k, i)
      ensures OccursAt(s, k, i + step)
    {
      assert s[step..][i..i + |k|] == s[i + step..i + step + |k|];
    }
  }

  lemma NewlineInside(s: string, i: nat, j: nat, at: nat)
    requires i <= at < j <= |s| && s[at] == '\n'
    ensures '\n' in s[i..j]
  {
    assert s[i..j][at - i] == '\n';
  }

  /** A marker in framed text is in one of its lines: it holds no newline. */
  lemma OnOneLine(a: string, b: string, k: string, i: int)
    requires IsMarker(k) && OccursAt(a + "\n" + b, k, i)
    ensures i + |k| <= |a| || i > |a|
    ensures i + |k| <= |a| ==> OccursAt(a, k, i)
    ensures i > |a| ==> OccursAt(b, k, i - |a| - 1)
  {
    var s := a + "\n" + b;
    if i <= |a| < i + |k| {
      NewlineInside(s, i, i + |k|, |a|);
    } else if i + |k| <= |a| {
      assert s[i..i + |k|] == a[i..i + |k|];
    } else {
      assert s[i..i + |k|] == b[i - |a| - 1..i - |a| - 1 + |k|];
    }
  }

  /** Inside one marker another can only start at its start, and then agrees with it on the fourth character. */
  lemma MarkerInMarker(m: string, k: string, i: int)
    requires IsMarker(m) && IsMarker(k) && OccursAt(m, k, i)
    ensures i == 0 && k[3] == m[3]
  {
    Brackets(k, m, i);
  }

  /** The whole text has exactly one begin marker, at its start, and exactly one end marker, at its end. */
  lemma ExactlyOneOfEach(value: string, i: int)
    ensures OccursAt(UntrustedText(value), BEGIN, i) <==> i == 0
    ensures OccursAt(UntrustedText(value), END, i) <==> i == |UntrustedText(value)| - |END|
  {
    hide ReplaceAll, Escaped, IsMarker;
    BothAreMarkers();
    hide BEGIN, END;
    var once := ReplaceAll(value, BEGIN, Escaped(BEGIN));
    var body := ReplaceAll(once, END, Escaped(END));
    NoMarkerLeft(value, BEGIN, BEGIN);
    NoMarkerLeft(once, END, BEGIN);
    NoMarkerLeft(once, END, END);
    Framed(body, BEGIN, i);
    Framed(body, END, i);
  }

  lemma Framed(body: string, k: string, i: int)
    requires !Occurs(body, k) && k in [BEGIN, END]
    ensures OccursAt(BEGIN + "\n" + body + "\n" + END, k, i) <==>
      i == if k == BEGIN then 0 else |BEGIN| + |body| + 2
  {
    BothAreMarkers();
    hide BEGIN, END, CONTENT, IsMarker;
    var s, rest := BEGIN + "\n" + body + "\n" + END, body + "\n" + END;
    assert s == BEGIN + "\n" + rest;
    if OccursAt(s, k, i) {
      OnOneLine(BEGIN, rest, k, i);
      if i > |BEGIN| {
        OnOneLine(body, END, k, i - |BEGIN| - 1);
        hide OccursAt;
        NotThere(body, k, i - |BEGIN| - 1);
        MarkerInMarker(END, k, i - |BEGIN| - |body| - 2);
      } else {
        MarkerInMarker(BEGIN, k, i);
      }
    }
    assert s[0..|BEGIN|] == BEGIN && s[|BEGIN| + |body| + 2..|s|] == END;
  }

  lemma NotThere(s: string, k: string, i: int)
    requires !Occurs(s, k)
    ensures !OccursAt(s, k, i)
  {
  }

  lemma OccursFurtherOn(s: string, m: string)
    requires s != "" && !(m <= s)
    ensures Occurs(s, m) ==> Occurs(s[1..], m)
  {
    if i :| OccursAt(s, m, i) {
      StartsIt(s, m);
      assert s[1..][i - 1..i - 1 + |m|] == s[i..i + |m|];
      assert OccursAt(s[1..], m, i - 1);
    }
  }

  /** A pass changes nothing if and only if there is nothing to escape. */
  lemma {:induction false} PassIsExact(s: string, m: string)
    requires IsMarker(m)
    ensures |ReplaceAll(s, m, Escaped(m))| >= |s|
    ensures |ReplaceAll(s, m, Escaped(m))| == |s| <==> !Occurs(s, m)
    ensures !Occurs(s, m) ==> ReplaceAll(s, m, Escaped(m)) == s
    decreases |s|
  {
    hide OccursAt, Occurs, IsMarker;
    if s == "" {
      EmptyHasNone(m);
    } else {
      var step := if m <= s then |m| else 1;
      MarkerLength(m);
      PassIsExact(s[step..], m);
      TailKeepsNone(s, step, m);
      if m <= s {
        StartsIt(s, m);
        ThereItOccurs(s, m);
      } else {
        OccursFurtherOn(s, m);
      }
    }
  }

  lemma MarkerLength(m: string)
    requires IsMarker(m)
    ensures |m| > 3 && |Escaped(m)| == |m| + 5
  {
  }

  lemma ThereItOccurs(s: string, m: string)
    requires OccursAt(s, m, 0)
    ensures Occurs(s, m)
  {
  }

  /** Page text goes through untouched if and only if it holds neither marker: only exact collisions are escaped. */
  lemma UntouchedWithoutMarkers(value: string)
    ensures UntrustedText(value) == BEGIN + "\n" + value + "\n" + END <==> !Occurs(value, BEGIN) && !Occurs(value, END)
  {
    hide ReplaceAll, Escaped, IsMarker, Occurs;
    BothAreMarkers();
    hide BEGIN, END;
    var once := ReplaceAll(value, BEGIN, Escaped(BEGIN));
    var body := ReplaceAll(once, END, Escaped(END));
    PassIsExact(value, BEGIN);
    PassIsExact(once, END);
    Unframed(BEGIN + "\n", body, value, "\n" + END);
    assert UntrustedText(value) == BEGIN + "\n" + body + ("\n" + END);
    assert BEGIN + "\n" + value + "\n" + END == BEGIN + "\n" + value + ("\n" + END);
  }

  lemma Unframed(a: string, x: string, y: string, b: string)
    ensures a + x + b == a + y + b ==> x == y
  {
    if a + x + b == a + y + b {
      assert |x| == |y|;
      assert (a + x + b)[|a|..|a| + |x|] == x && (a + y + b)[|a|..|a| + |y|] == y;
    }
  }
}
