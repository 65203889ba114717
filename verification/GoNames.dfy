/** exportName: from a JSON or schema name to an exported Go identifier. */
module GoNames {
  import opened Text

  /** Keeps ASCII letters and digits; anything else starts a new word. `upper` capitalises the next letter. */
  function Camel(s: string, upper: bool): string {
    if s == "" then ""
    else if IsDigit(s[0]) then [s[0]] + Camel(s[1..], false)
    else if IsAlphanumeric(s[0]) then [if upper then ToUpper(s[0]) else s[0]] + Camel(s[1..], false)
    else Camel(s[1..], true)
  }

  /** The flag after reading s. */
  function UpperAfter(s: string, upper: bool): bool {
    if s == "" then upper else !IsAlphanumeric(s[|s| - 1])
  }

  function NoLeadingDigit(s: string): string {
    if s != "" && IsDigit(s[0]) then "N" + s else s
  }

  datatype Rewrite = Rewrite(from: string, to: string)

  const INITIALISMS: seq<Rewrite> := [
    Rewrite("Id", "ID"), Rewrite("Url", "URL"), Rewrite("Uri", "URI"), Rewrite("Api", "API"),
    Rewrite("Json", "JSON"), Rewrite("Http", "HTTP"), Rewrite("Mcp", "MCP"), Rewrite("Sdp", "SDP"),
    Rewrite("Cwd", "Cwd"), Rewrite("Ts", "Ts")]

  function RewriteSuffix(s: string, r: Rewrite): string {
    if HasSuffix(s, r.from) then s[..|s| - |r.from|] + r.to else s
  }

  /** The suffix rewrites, one after the other. */
  function RewriteAll(s: string, rs: seq<Rewrite>): string
    decreases |rs|
  {
    if rs == [] then s else RewriteAll(RewriteSuffix(s, rs[0]), rs[1..])
  }

  function ExportName(s: string): string {
    RewriteAll(NoLeadingDigit(Camel(s, true)), INITIALISMS)
  }

  lemma {:induction false} CamelConcat(s: string, t: string, upper: bool)
    ensures Camel(s + t, upper) == Camel(s, upper) + Camel(t, UpperAfter(s, upper))
  {
    if s == "" {
      assert s + t == t;
    } else {
      assert (s + t)[1..] == s[1..] + t;
      var next := !IsAlphanumeric(s[0]);
      CamelConcat(s[1..], t, next);
      assert UpperAfter(s[1..], next) == UpperAfter(s, upper);
    }
  }

  lemma CamelAppend(s: string, c: char, upper: bool)
    ensures Camel(s + [c], upper) == Camel(s, upper) + Camel([c], UpperAfter(s, upper))
  {
    CamelConcat(s, [c], upper);
  }

  lemma {:induction false} RewriteAllAppend(s: string, rs: seq<Rewrite>, r: Rewrite)
    ensures RewriteAll(s, rs + [r]) == RewriteSuffix(RewriteAll(s, rs), r)
    decreases |rs|
  {
    if rs == [] {
      assert rs + [r] == [r] && [r][1..] == [];
    } else {
      assert (rs + [r])[1..] == rs[1..] + [r];
      RewriteAllAppend(RewriteSuffix(s, rs[0]), rs[1..], r);
    }
  }

  /** exportName as written: a builder and a word-boundary flag, then the suffix table. */
  method BuildExportName(s: string) returns (out: string)
    ensures out == ExportName(s)
  {
    var upper := true;
    out := "";
    for i := 0 to |s|
      invariant out == Camel(s[..i], true)
      invariant upper == UpperAfter(s[..i], true)
    {
      var c := s[i];
      CamelAppend(s[..i], c, true);
      assert s[..i + 1] == s[..i] + [c];
      assert Camel([c], upper) == if IsDigit(c) then [c] else if !IsAlphanumeric(c) then "" else if upper then [ToUpper(c)] else [c];
      if !IsAlphanumeric(c) {
        upper := true;
      } else if IsDigit(c) {
        out := out + [c];
        upper := false;
      } else if upper {
        out := out + [ToUpper(c)];
        upper := false;
      } else {
        out := out + [c];
      }
    }
    assert s[..|s|] == s;
    if out != "" && IsDigit(out[0]) {
      out := "N" + out;
    }
    ghost var plain := out;
    for i := 0 to |INITIALISMS|
      invariant out == RewriteAll(plain, INITIALISMS[..i])
    {
      RewriteAllAppend(plain, INITIALISMS[..i], INITIALISMS[i]);
      assert INITIALISMS[..i + 1] == INITIALISMS[..i] + [INITIALISMS[i]];
      if HasSuffix(out, INITIALISMS[i].from) {
        out := out[..|out| - |INITIALISMS[i].from|] + INITIALISMS[i].to;
      }
    }
    assert INITIALISMS[..|INITIALISMS|] == INITIALISMS;
  }

  // Shape.

  ghost predicate AllAlphanumeric(s: string) {
    forall i :: 0 <= i < |s| ==> IsAlphanumeric(s[i])
  }

  /** Empty, or ASCII letters and digits behind a capital letter. */
  ghost predicate IsExported(s: string) {
    AllAlphanumeric(s) && (s != "" ==> IsUpper(s[0]))
  }

  lemma {:induction false} CamelShape(s: string, upper: bool)
    ensures AllAlphanumeric(Camel(s, upper))
    ensures upper && Camel(s, upper) != "" ==> !IsLower(Camel(s, upper)[0])
  {
    if s != "" {
      CamelShape(s[1..], !IsAlphanumeric(s[0]));
    }
  }

  /** A rewrite either does nothing or turns a lower-case ending into an upper-case one. */
  ghost predicate GoodRewrite(r: Rewrite) {
    && IsExported(r.from) && IsExported(r.to) && r.from != "" && r.to != ""
    && (r.from == r.to || (IsLower(r.from[|r.from| - 1]) && IsUpper(r.to[|r.to| - 1])))
  }

  ghost predicate EndsUpper(s: string) {
    s != "" && IsUpper(s[|s| - 1])
  }

  lemma RewriteSuffixShape(s: string, r: Rewrite)
    requires GoodRewrite(r) && IsExported(s)
    ensures IsExported(RewriteSuffix(s, r))
  {
    if HasSuffix(s, r.from) {
      var keep := s[..|s| - |r.from|];
      assert AllAlphanumeric(keep);
      if keep == "" {
        assert RewriteSuffix(s, r) == r.to;
      }
    }
  }

  lemma RewriteSuffixEnding(s: string, r: Rewrite)
    requires GoodRewrite(r)
    ensures RewriteSuffix(s, r) == s <==> !(HasSuffix(s, r.from) && r.from != r.to)
    ensures RewriteSuffix(s, r) == s || EndsUpper(RewriteSuffix(s, r))
  {
    if HasSuffix(s, r.from) {
      assert s == s[..|s| - |r.from|] + r.from;
      assert s[|s| - 1] == r.from[|r.from| - 1];
    }
  }

  /** Once through the table, no rewrite in it applies any more. */
  lemma {:induction false} RewriteAllSettles(s: string, rs: seq<Rewrite>)
    requires IsExported(s) && forall r <- rs :: GoodRewrite(r)
    ensures IsExported(RewriteAll(s, rs))
    ensures EndsUpper(RewriteAll(s, rs))
            || (RewriteAll(s, rs) == s && forall r <- rs :: HasSuffix(s, r.from) ==> r.from == r.to)
    decreases |rs|
  {
    if rs != [] {
      RewriteSuffixShape(s, rs[0]);
      RewriteSuffixEnding(s, rs[0]);
      RewriteAllSettles(RewriteSuffix(s, rs[0]), rs[1..]);
    }
  }

  lemma {:induction false} SettledIsFixed(s: string, rs: seq<Rewrite>)
    requires forall r <- rs :: HasSuffix(s, r.from) ==> r.from == r.to
    ensures RewriteAll(s, rs) == s
  {
    if rs != [] {
      assert RewriteSuffix(s, rs[0]) == s;
      SettledIsFixed(s, rs[1..]);
    }
  }

  lemma {:induction false} CamelFixed(s: string, upper: bool)
    requires AllAlphanumeric(s) && (upper && s != "" ==> !IsLower(s[0]))
    ensures Camel(s, upper) == s
  {
    if s != "" {
      CamelFixed(s[1..], false);
    }
  }

  lemma ShortInitialismsGood()
    ensures forall r <- INITIALISMS[..4] :: GoodRewrite(r)
    ensures forall r <- INITIALISMS[8..] :: GoodRewrite(r)
  {
    assert INITIALISMS[8..] == [Rewrite("Cwd", "Cwd"), Rewrite("Ts", "Ts")];
  }

  lemma LongInitialismsGood()
    ensures forall r <- INITIALISMS[4..8] :: GoodRewrite(r)
  {
  }

  lemma InitialismsGood()
    ensures forall r <- INITIALISMS :: GoodRewrite(r)
  {
    hide GoodRewrite;
    ShortInitialismsGood();
    LongInitialismsGood();
    assert INITIALISMS == INITIALISMS[..4] + INITIALISMS[4..8] + INITIALISMS[8..];
  }

  /** A non-empty exported name is an identifier: a capital letter, then letters and digits. */
  lemma ExportNameShape(s: string)
    ensures IsExported(ExportName(s))
  {
    CamelShape(s, true);
    InitialismsGood();
    RewriteAllSettles(NoLeadingDigit(Camel(s, true)), INITIALISMS);
  }

  /** Exporting a name that is already exported changes nothing. */
  lemma ExportNameIdempotent(s: string)
    ensures ExportName(ExportName(s)) == ExportName(s)
  {
    ExportNameShape(s);
    var out := ExportName(s);
    var plain := NoLeadingDigit(Camel(s, true));
    CamelShape(s, true);
    InitialismsGood();
    hide INITIALISMS;
    RewriteAllSettles(plain, INITIALISMS);
    hide RewriteAll, Camel;
    CamelFixed(out, true);
    forall r | r in INITIALISMS && HasSuffix(out, r.from)
      ensures r.from == r.to
    {
      assert GoodRewrite(r);
      assert out[|out| - 1] == r.from[|r.from| - 1];
    }
    SettledIsFixed(out, INITIALISMS);
  }

  /** The name is empty exactly when the source holds no ASCII letter or digit. */
  lemma ExportNameEmpty(s: string)
    ensures ExportName(s) == "" <==> forall i :: 0 <= i < |s| ==> !IsAlphanumeric(s[i])
  {
    CamelEmpty(s, true);
    CamelShape(s, true);
    InitialismsGood();
    RewriteAllSettles(NoLeadingDigit(Camel(s, true)), INITIALISMS);
    if Camel(s, true) == "" {
      SettledIsFixed("", INITIALISMS);
    }
  }

  lemma {:induction false} CamelEmpty(s: string, upper: bool)
    ensures Camel(s, upper) == "" <==> forall i :: 0 <= i < |s| ==> !IsAlphanumeric(s[i])
  {
    if s != "" {
      CamelEmpty(s[1..], !IsAlphanumeric(s[0]));
      assert s == [s[0]] + s[1..];
    }
  }

  /** Which character separates two words does not show. */
  lemma SeparatorsAlike(x: string, y: string, c: char, d: char)
    requires !IsAlphanumeric(c) && !IsAlphanumeric(d)
    ensures ExportName(x + [c] + y) == ExportName(x + [d] + y)
  {
    hide RewriteAll, INITIALISMS, NoLeadingDigit;
    SeparatorVanishes(x, y, c);
    SeparatorVanishes(x, y, d);
  }

  lemma SeparatorVanishes(x: string, y: string, c: char)
    requires !IsAlphanumeric(c)
    ensures Camel(x + [c] + y, true) == Camel(x, true) + Camel(y, true)
  {
    CamelConcat(x + [c], y, true);
    CamelConcat(x, [c], true);
    assert (x + [c])[|x + [c]| - 1] == c;
    assert [c][1..] == [];
    assert Camel([c], UpperAfter(x, true)) == "";
  }

  /** An exported name stays as it is with "Type" behind it: no initialism ends like that. */
  lemma TypeSuffixExported(s: string)
    ensures ExportName(ExportName(s) + "Type") == ExportName(s) + "Type"
  {
    ExportNameShape(s);
    var out := ExportName(s) + "Type";
    hide ExportName;
    assert IsExported(out);
    CamelFixed(out, true);
    NoInitialismEndsInE();
    hide INITIALISMS, RewriteAll, Camel;
    forall r | r in INITIALISMS
      ensures !HasSuffix(out, r.from)
    {
      OtherEnding(out, r.from);
    }
    SettledIsFixed(out, INITIALISMS);
    ExportFixed(out);
  }

  lemma OtherEnding(s: string, suffix: string)
    requires s != "" && suffix != "" && s[|s| - 1] != suffix[|suffix| - 1]
    ensures !HasSuffix(s, suffix)
  {
  }

  lemma NoInitialismEndsInE()
    ensures forall r <- INITIALISMS :: r.from != "" && r.from[|r.from| - 1] != 'e'
  {
  }

  lemma ExportFixed(s: string)
    requires IsExported(s) && Camel(s, true) == s && RewriteAll(s, INITIALISMS) == s
    ensures ExportName(s) == s
  {
    hide RewriteAll, INITIALISMS, Camel;
  }
}
