/** Exported names, word by word: what exportName makes of a name, without reading it character by character. */
module GoWords {
  import opened Text
  import opened GoNames

  /** The letters and digits the text starts with. */
  function Word(s: string): string {
    if s == "" || !IsAlphanumeric(s[0]) then "" else [s[0]] + Word(s[1..])
  }

  lemma {:induction false} WordIs(s: string)
    ensures Word(s) <= s && AllAlphanumeric(Word(s))
    ensures |Word(s)| < |s| ==> !IsAlphanumeric(s[|Word(s)|])
  {
    if s != "" && IsAlphanumeric(s[0]) {
      WordIs(s[1..]);
    }
  }

  /** The runs of letters and digits in the text. */
  function Words(s: string): seq<string> {
    if s == "" then []
    else if !IsAlphanumeric(s[0]) then Words(s[1..])
    else
      WordIs(s);
      [Word(s)] + Words(s[|Word(s)|..])
  }

  /** The word with a capital, if it starts with a letter. */
  function Title(word: string): string
    requires word != ""
  {
    [ToUpper(word[0])] + word[1..]
  }

  function Titles(words: seq<string>): string
    requires "" !in words
  {
    if words == [] then "" else Title(words[0]) + Titles(words[1..])
  }

  lemma {:induction false} WordsAre(s: string)
    ensures forall w <- Words(s) :: w != "" && AllAlphanumeric(w)
    decreases |s|
  {
    if s != "" {
      WordIs(s);
      if IsAlphanumeric(s[0]) {
        WordsAre(s[|Word(s)|..]);
      } else {
        WordsAre(s[1..]);
      }
    }
  }

  /** Inside a word nothing changes. */
  lemma {:induction false} CamelRun(w: string, rest: string)
    requires AllAlphanumeric(w)
    ensures Camel(w + rest, false) == w + Camel(rest, false)
    decreases |w|
  {
    if w == "" {
      assert w + rest == rest;
    } else {
      assert (w + rest)[0] == w[0] && (w + rest)[1..] == w[1..] + rest;
      CamelRun(w[1..], rest);
    }
  }

  lemma {:induction false} CamelWords(s: string)
    ensures "" !in Words(s) && Camel(s, true) == Titles(Words(s))
    decreases |s|
  {
    WordsAre(s);
    if s != "" && IsAlphanumeric(s[0]) {
      WordIs(s);
      var w, rest := Word(s), s[|Word(s)|..];
      CamelWords(rest);
      CamelRun(w[1..], rest);
      assert s[1..] == w[1..] + rest;
      assert rest != "" ==> rest[0] == s[|w|];
    } else if s != "" {
      CamelWords(s[1..]);
    }
  }

  /** The name with its last word in capitals, where that is one of eight. */
  predicate Corrected(plain: string, name: string) {
    if HasSuffix(plain, "Id") then name == plain[..|plain| - 2] + "ID"
    else if HasSuffix(plain, "Url") then name == plain[..|plain| - 3] + "URL"
    else if HasSuffix(plain, "Uri") then name == plain[..|plain| - 3] + "URI"
    else if HasSuffix(plain, "Api") then name == plain[..|plain| - 3] + "API"
    else if HasSuffix(plain, "Json") then name == plain[..|plain| - 4] + "JSON"
    else if HasSuffix(plain, "Http") then name == plain[..|plain| - 4] + "HTTP"
    else if HasSuffix(plain, "Mcp") then name == plain[..|plain| - 3] + "MCP"
    else if HasSuffix(plain, "Sdp") then name == plain[..|plain| - 3] + "SDP"
    else name == plain
  }

  lemma NoneLeft(s: string, rs: seq<Rewrite>)
    requires EndsUpper(s) && forall r <- rs :: GoodRewrite(r)
    ensures RewriteAll(s, rs) == s
  {
    forall r | r in rs && HasSuffix(s, r.from)
      ensures r.from == r.to
    {
      assert s[|s| - 1] == s[|s| - |r.from|..][|r.from| - 1];
    }
    SettledIsFixed(s, rs);
  }

  /** The first rewrite that applies is the only one. */
  lemma {:induction false} FirstApplies(s: string, rs: seq<Rewrite>, k: nat)
    requires k < |rs| && HasSuffix(s, rs[k].from) && rs[k].from != rs[k].to
    requires (forall j :: 0 <= j < k ==> !HasSuffix(s, rs[j].from)) && forall r <- rs :: GoodRewrite(r)
    ensures RewriteAll(s, rs) == s[..|s| - |rs[k].from|] + rs[k].to
    decreases k
  {
    hide GoodRewrite;
    if k == 0 {
      RewriteSuffixEnding(s, rs[0]);
      NoneLeft(RewriteSuffix(s, rs[0]), rs[1..]);
    } else {
      assert rs[1..][k - 1] == rs[k];
      assert !HasSuffix(s, rs[0].from);
      FirstApplies(s, rs[1..], k - 1);
    }
  }

  lemma TableIs()
    ensures |INITIALISMS| == 10
    ensures INITIALISMS[0] == Rewrite("Id", "ID") && INITIALISMS[1] == Rewrite("Url", "URL")
    ensures INITIALISMS[2] == Rewrite("Uri", "URI") && INITIALISMS[3] == Rewrite("Api", "API")
    ensures INITIALISMS[4] == Rewrite("Json", "JSON") && INITIALISMS[5] == Rewrite("Http", "HTTP")
    ensures INITIALISMS[6] == Rewrite("Mcp", "MCP") && INITIALISMS[7] == Rewrite("Sdp", "SDP")
    ensures INITIALISMS[8].from == INITIALISMS[8].to && INITIALISMS[9].from == INITIALISMS[9].to
  {
  }

  lemma AppliesAt(plain: string, k: nat)
    requires k < 8 && HasSuffix(plain, INITIALISMS[k].from) && INITIALISMS[k].from != INITIALISMS[k].to
    requires forall j :: 0 <= j < k ==> !HasSuffix(plain, INITIALISMS[j].from)
    ensures RewriteAll(plain, INITIALISMS) == plain[..|plain| - |INITIALISMS[k].from|] + INITIALISMS[k].to
  {
    InitialismsGood();
    hide INITIALISMS, GoodRewrite;
    TableIs();
    FirstApplies(plain, INITIALISMS, k);
  }

  lemma TableCorrects(plain: string)
    ensures Corrected(plain, RewriteAll(plain, INITIALISMS))
  {
    hide INITIALISMS, RewriteAll, HasSuffix;
    TableIs();
    if n: nat :| n < 8 && HasSuffix(plain, INITIALISMS[n].from) {
      var k := FirstOf(plain, n);
      AppliesAt(plain, k);
    } else {
      assert forall r <- INITIALISMS :: HasSuffix(plain, r.from) ==> r.from == r.to;
      SettledIsFixed(plain, INITIALISMS);
    }
  }

  lemma FirstOf(plain: string, n: nat) returns (k: nat)
    requires n < |INITIALISMS| && HasSuffix(plain, INITIALISMS[n].from)
    ensures k <= n && HasSuffix(plain, INITIALISMS[k].from)
    ensures forall j :: 0 <= j < k ==> !HasSuffix(plain, INITIALISMS[j].from)
  {
    hide INITIALISMS, HasSuffix;
    k := n;
    if j: nat :| j < n && HasSuffix(plain, INITIALISMS[j].from) {
      k := FirstOf(plain, j);
    }
  }

  /**
   The exported name is the words of the source, each with a capital, behind an N if that
   starts with a digit, and with one of eight initialisms at the end written in capitals.
   */
  lemma ExportNameIs(s: string)
    ensures "" !in Words(s)
    ensures var titled := Titles(Words(s));
      Corrected(if titled != "" && IsDigit(titled[0]) then "N" + titled else titled, ExportName(s))
  {
    CamelWords(s);
    hide INITIALISMS, RewriteAll, Camel, Titles, Words, Corrected;
    TableCorrects(NoLeadingDigit(Camel(s, true)));
  }
}
