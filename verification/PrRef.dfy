/**
 Pull and merge request references: the parser of URLs, the printer of canonical ones, and
 for which parts and which URLs the two undo each other.
 */
module PrRef {
  import opened Prelude
  import opened Text
  import opened Decimal

  /** A URL as text: its scheme, its host and everything from the path on. */
  datatype Url = Url(scheme: string, host: string, rest: string)

  datatype Parts = Parts(host: string, owner: string, repo: string, number: int)

  predicate IsGitHubHost(host: string) {
    var h := Lower(host);
    || h in ["github.com", "www.github.com", "api.github.com"]
    || HasSuffix(h, ".github.com") || HasSuffix(h, ".ghe.io")
  }

  const PULL := "pull"
  const DASH := "-"
  const MERGE := "merge_requests"

  function Kind(host: string): seq<string> {
    if IsGitHubHost(host) then [PULL] else [DASH, MERGE]
  }

  /** cliPRURLFromParts. */
  function Print(p: Parts): Url
    requires p.number >= 0
  {
    var kind := if IsGitHubHost(p.host) then PULL else DASH + "/" + MERGE;
    Url("https", p.host, "/" + p.owner + "/" + p.repo + "/" + kind + "/" + Itoa(p.number))
  }

  // What url.Parse makes of the text after the host.

  predicate IsControl(c: char) {
    c as int < 0x20 || c as int == 0x7f
  }

  predicate IsHex(c: char) {
    IsDigit(c) || 'a' <= c <= 'f' || 'A' <= c <= 'F'
  }

  function HexValue(c: char): (n: nat)
    requires IsHex(c)
    ensures n < 16
  {
    if IsDigit(c) then DigitValue(c) else (ToLower(c) - 'a') as nat + 10
  }

  /** Percent-escapes undone, byte by byte; a malformed one is an error. */
  function Unescape(s: string): Option<string>
    decreases |s|
  {
    if s == "" then Some("")
    else if s[0] != '%' then
      match Unescape(s[1..])
      case None => None
      case Some(t) => Some([s[0]] + t)
    else if |s| >= 3 && IsHex(s[1]) && IsHex(s[2]) then
      match Unescape(s[3..])
      case None => None
      case Some(t) => Some([(16 * HexValue(s[1]) + HexValue(s[2])) as char] + t)
    else None
  }

  function Before(s: string, c: char): string {
    s[..IndexOf(s, c)]
  }

  /** The path of a URL: up to the fragment and the query, with its escapes undone. */
  function ReadPath(rest: string): Option<string> {
    var u := Before(rest, '#');
    if exists i :: 0 <= i < |u| && IsControl(u[i]) then None
    else if |u| < |rest| && Unescape(rest[|u| + 1..]).None? then None
    else Unescape(Before(u, '?'))
  }

  /** Text that url.Parse hands back as it is. */
  predicate Verbatim(s: string) {
    forall i :: 0 <= i < |s| ==> s[i] !in ['?', '#', '%'] && !IsControl(s[i])
  }

  /** strings.Trim(s, "/"). */
  function TrimSlashes(s: string): string
    decreases |s|
  {
    if s != "" && s[0] == '/' then TrimSlashes(s[1..])
    else if s != "" && s[|s| - 1] == '/' then TrimSlashes(s[..|s| - 1])
    else s
  }

  function Positive(s: string): Option<int> {
    match Atoi(s)
    case Some(n) => if n > 0 then Some(n) else None
    case None => None
  }

  function FromSegments(host: string, parts: seq<string>): Option<Parts> {
    var n := |parts|;
    if n == 4 && parts[2] == PULL then
      match Positive(parts[3])
      case None => None
      case Some(number) => Some(Parts(host, parts[0], TrimSuffix(parts[1], ".git"), number))
    else if n >= 5 && parts[n - 2] == MERGE && parts[n - 3] == DASH then
      match Positive(parts[n - 1])
      case None => None
      case Some(number) =>
        if n - 3 < 2 then None
        else Some(Parts(host, JoinWith(parts[..n - 4], '/'), TrimSuffix(parts[n - 4], ".git"), number))
    else None
  }

  /** cliParsePRURL. */
  function Parse(u: Url): Option<Parts> {
    if ReadPath(u.rest).None? || Lower(u.scheme) != "https" then None
    else FromSegments(u.host, Split(TrimSlashes(ReadPath(u.rest).value), '/'))
  }

  /** resolvePRRef on a URL: parse it, insist on every part, print it. */
  function Canonical(u: Url): Option<Url> {
    match Parse(u)
    case None => None
    case Some(p) => if p.host == "" || p.owner == "" || p.repo == "" || p.number <= 0 then None else Some(Print(p))
  }

  /** Parts a printed URL can carry: one owner segment on GitHub hosts, any nesting elsewhere. */
  predicate Carried(p: Parts) {
    && 1 <= p.number <= MAX_INT64
    && Verbatim(p.owner) && Verbatim(p.repo)
    && '/' !in p.repo && !HasSuffix(p.repo, ".git")
    && p.owner != "" && p.owner[0] != '/'
    && (IsGitHubHost(p.host) ==> '/' !in p.owner)
  }

  // Printing.

  /** The segments a printed path is made of. */
  function Segments(p: Parts): seq<string>
    requires p.number >= 0
  {
    Split(p.owner, '/') + [p.repo] + Kind(p.host) + [Itoa(p.number)]
  }

  lemma JoinShort(x: string, y: string)
    ensures JoinWith([x], '/') == x && JoinWith([x, y], '/') == x + "/" + y
  {
    assert [x, y][1..] == [y];
  }

  lemma KindJoins(host: string)
    ensures JoinWith(Kind(host), '/') == if IsGitHubHost(host) then PULL else DASH + "/" + MERGE
  {
    hide IsGitHubHost, PULL, DASH, MERGE;
    JoinShort(PULL, "");
    JoinShort(DASH, MERGE);
  }

  lemma KindsDiffer()
    ensures PULL != MERGE && '/' !in PULL && '/' !in DASH && '/' !in MERGE
    ensures |PULL| == 4 && |DASH| == 1 && |MERGE| == 14
  {
  }

  /** A printed path is a slash and its segments, joined. */
  lemma PathIsJoined(p: Parts)
    requires p.number >= 0
    ensures Print(p).rest == "/" + JoinWith(Segments(p), '/')
    ensures JoinWith(Segments(p), '/')
      == p.owner + "/" + p.repo + "/" + JoinWith(Kind(p.host), '/') + "/" + Itoa(p.number)
  {
    hide Itoa, IsGitHubHost, Split, JoinWith, Kind, PULL, DASH, MERGE;
    var owner, kind, d := Split(p.owner, '/'), Kind(p.host), Itoa(p.number);
    KindJoins(p.host);
    KindIsThere(p.host);
    JoinAppend(owner + [p.repo] + kind, [d], '/');
    JoinAppend(owner + [p.repo], kind, '/');
    JoinAppend(owner, [p.repo], '/');
    JoinSplit(p.owner, '/');
    JoinShort(p.repo, "");
    JoinShort(d, "");
  }

  lemma KindIsThere(host: string)
    ensures Kind(host) != [] && forall s <- Kind(host) :: '/' !in s
  {
    KindsDiffer();
  }

  lemma ItoaEndsInDigit(n: nat)
    ensures '/' !in Itoa(n) && Itoa(n)[|Itoa(n)| - 1] != '/'
  {
    ItoaDigits(n);
    hide Itoa;
    var s := Itoa(n);
    assert forall c <- s :: IsDigit(c);
    assert s[|s| - 1] in s;
  }

  lemma TrimOne(s: string)
    requires s != "" && s[0] != '/' && s[|s| - 1] != '/'
    ensures TrimSlashes("/" + s) == s
  {
    var t := "/" + s;
    assert t[1..] == s;
  }

  /** Verbatim text is read as it is. */
  lemma {:induction false} UnescapePlain(s: string)
    requires '%' !in s
    ensures Unescape(s) == Some(s)
    decreases |s|
  {
    if s != "" {
      assert s[0] in s && forall c <- s[1..] :: c in s;
      UnescapePlain(s[1..]);
      assert s == [s[0]] + s[1..];
    }
  }

  lemma BeforeNone(s: string, c: char)
    requires c !in s
    ensures Before(s, c) == s
  {
  }

  lemma VerbatimLacks(s: string)
    requires Verbatim(s)
    ensures '?' !in s && '#' !in s && '%' !in s
  {
  }

  lemma ReadVerbatim(rest: string)
    requires Verbatim(rest)
    ensures ReadPath(rest) == Some(rest)
  {
    VerbatimLacks(rest);
    BeforeNone(rest, '#');
    BeforeNone(rest, '?');
    UnescapePlain(rest);
  }

  lemma KindIsVerbatim(host: string)
    ensures Verbatim(JoinWith(Kind(host), '/'))
  {
    KindJoins(host);
  }

  lemma {:induction false} ItoaIsVerbatim(n: nat)
    ensures Verbatim(Itoa(n))
    decreases n
  {
    if n >= 10 {
      ItoaIsVerbatim(n / 10);
    }
  }

  lemma PathIsVerbatim(owner: string, repo: string, kind: string, d: string)
    requires Verbatim(kind) && Verbatim(d)
    ensures Verbatim("/" + owner + "/" + repo + "/" + kind + "/" + d) <==> Verbatim(owner) && Verbatim(repo)
  {
    var s := "/" + owner + "/" + repo + "/" + kind + "/" + d;
    assert s[1..1 + |owner|] == owner;
    assert s[2 + |owner|..2 + |owner| + |repo|] == repo;
    if Verbatim(s) {
      forall i | 0 <= i < |owner|
        ensures owner[i] == s[i + 1]
      {
      }
      forall i | 0 <= i < |repo|
        ensures repo[i] == s[i + 2 + |owner|]
      {
      }
    }
  }

  /** Parsing a printed URL gets the printed segments back. */
  lemma ParsePrinted(p: Parts)
    requires p.number >= 0 && p.owner != "" && p.owner[0] != '/' && '/' !in p.repo
    requires Verbatim(p.owner) && Verbatim(p.repo)
    ensures Parse(Print(p)) == FromSegments(p.host, Segments(p))
  {
    hide Itoa, IsGitHubHost, FromSegments, Split, JoinWith, Kind, TrimSlashes;
    PathIsJoined(p);
    ItoaEndsInDigit(p.number);
    JoinSplit(p.owner, '/');
    KindIsThere(p.host);
    LowerHttps();
    KindIsVerbatim(p.host);
    ItoaIsVerbatim(p.number);
    PathIsVerbatim(p.owner, p.repo, JoinWith(Kind(p.host), '/'), Itoa(p.number));
    PrintedRest(p);
    ReadVerbatim(Print(p).rest);
    hide ReadPath, Verbatim;
    assert Parse(Print(p)) == FromSegments(p.host, Split(TrimSlashes(Print(p).rest), '/'));
    PathTrims(p.owner, p.repo, JoinWith(Kind(p.host), '/'), Itoa(p.number));
    assert forall s <- Segments(p) :: '/' !in s;
    SplitJoin(Segments(p), '/');
  }

  lemma PrintedRest(p: Parts)
    requires p.number >= 0
    ensures Print(p).rest == "/" + p.owner + "/" + p.repo + "/" + JoinWith(Kind(p.host), '/') + "/" + Itoa(p.number)
  {
    KindJoins(p.host);
  }

  lemma PathTrims(owner: string, repo: string, kind: string, d: string)
    requires owner != "" && owner[0] != '/' && d != "" && d[|d| - 1] != '/'
    ensures var s := owner + "/" + repo + "/" + kind + "/" + d; TrimSlashes("/" + s) == s
  {
    TrimOne(owner + "/" + repo + "/" + kind + "/" + d);
  }

  lemma LowerHttps()
    ensures Lower("https") == "https"
  {
  }

  lemma OneSegment(owner: string)
    ensures '/' !in owner <==> |Split(owner, '/')| == 1
    ensures '/' !in owner ==> Split(owner, '/') == [owner]
  {
    JoinSplit(owner, '/');
    if '/' !in owner {
      SplitJoin([owner], '/');
    }
    if |Split(owner, '/')| == 1 {
      assert owner == Split(owner, '/')[0];
    }
  }

  lemma ReadNumber(n: nat)
    ensures Positive(Itoa(n)) == if 1 <= n <= MAX_INT64 then Some(n) else None
  {
    ItoaRoundTrip(n);
  }

  lemma SegmentsRead(p: Parts)
    requires p.number >= 0 && p.owner != "" && p.owner[0] != '/' && '/' !in p.repo
    ensures FromSegments(p.host, Segments(p)) ==
      if !(1 <= p.number <= MAX_INT64) || (IsGitHubHost(p.host) && '/' in p.owner) then None
      else Some(p.(repo := TrimSuffix(p.repo, ".git")))
  {
    hide Itoa, IsGitHubHost, Positive, Split, JoinWith, TrimSuffix, PULL, DASH, MERGE;
    ReadNumber(p.number);
    OneSegment(p.owner);
    JoinSplit(p.owner, '/');
    KindsDiffer();
    var o, s := Split(p.owner, '/'), Segments(p);
    var n := |s|;
    assert s[n - 1] == Itoa(p.number);
    if IsGitHubHost(p.host) {
      assert s == o + [p.repo, PULL, Itoa(p.number)];
      assert s[n - 2] == PULL;
    } else {
      assert s == o + [p.repo, DASH, MERGE, Itoa(p.number)];
      assert s[n - 2] == MERGE && s[n - 3] == DASH && s[n - 4] == p.repo;
      assert s[..n - 4] == o;
    }
  }

  /** What the parser never yields: an owner that is empty or starts with a slash, a repository with one, a bad number. */
  lemma ParsedParts(u: Url)
    ensures Parse(u).Some? ==>
      var p := Parse(u).value;
      p.owner != "" && p.owner[0] != '/' && '/' !in p.repo && 1 <= p.number <= MAX_INT64 && p.host == u.host
  {
    hide Atoi, Split, TrimSlashes, FromSegments, Lower, ReadPath;
    var raw := if ReadPath(u.rest).Some? then ReadPath(u.rest).value else "";
    var path := TrimSlashes(raw);
    TrimmedStart(raw);
    JoinSplit(path, '/');
    FirstSegment(path);
    SegmentParts(u.host, Split(path, '/'));
  }

  lemma TrimmedIsPlain(repo: string)
    requires '/' !in repo
    ensures '/' !in TrimSuffix(repo, ".git")
  {
  }

  lemma SegmentParts(host: string, parts: seq<string>)
    requires forall s <- parts :: '/' !in s
    requires |parts| > 1 ==> parts[0] != ""
    ensures FromSegments(host, parts).Some? ==>
      var p := FromSegments(host, parts).value;
      p.owner != "" && p.owner[0] != '/' && '/' !in p.repo && 1 <= p.number <= MAX_INT64 && p.host == host
  {
    hide JoinWith, PULL, DASH, MERGE, AllDigits, Value;
    if |parts| >= 4 {
      assert parts[0] in parts && parts[0][0] in parts[0];
      var repo := if |parts| == 4 then parts[1] else parts[|parts| - 4];
      assert repo in parts;
      TrimmedIsPlain(repo);
    }
    if |parts| >= 5 {
      JoinStart(parts[..|parts| - 4]);
    }
  }

  lemma {:induction false} TrimmedStart(s: string)
    ensures TrimSlashes(s) != "" ==> TrimSlashes(s)[0] != '/'
    decreases |s|
  {
    if s != "" && s[0] == '/' {
      TrimmedStart(s[1..]);
    } else if s != "" && s[|s| - 1] == '/' {
      TrimmedStart(s[..|s| - 1]);
    }
  }

  lemma FirstSegment(path: string)
    requires path != "" ==> path[0] != '/'
    ensures |Split(path, '/')| > 1 ==> Split(path, '/')[0] != ""
  {
  }

  lemma JoinStart(parts: seq<string>)
    requires parts != [] && parts[0] != "" && parts[0][0] != '/'
    ensures JoinWith(parts, '/') != "" && JoinWith(parts, '/')[0] != '/'
  {
  }

  lemma Trimmed(repo: string)
    ensures TrimSuffix(repo, ".git") == repo <==> !HasSuffix(repo, ".git")
    ensures |TrimSuffix(repo, ".git")| == if HasSuffix(repo, ".git") then |repo| - 4 else |repo|
  {
  }

  // What a URL cannot carry: text that reading changes is also shortened by it.

  lemma {:induction false} UnescapeShrinks(s: string)
    ensures Unescape(s).Some? ==> |Unescape(s).value| <= |s|
    ensures Unescape(s).Some? && |Unescape(s).value| == |s| ==> '%' !in s
    decreases |s|
  {
    if s != "" && s[0] != '%' {
      UnescapeShrinks(s[1..]);
    } else if |s| >= 3 {
      UnescapeShrinks(s[3..]);
    }
  }

  lemma BeforeShrinks(s: string, c: char)
    ensures |Before(s, c)| <= |s| && (|Before(s, c)| == |s| <==> c !in s)
    ensures Before(s, c) <= s
  {
    assert c in s ==> |Before(s, c)| < |s|;
  }

  lemma ReadShrinks(rest: string)
    requires ReadPath(rest).Some?
    ensures |ReadPath(rest).value| <= |rest|
    ensures |ReadPath(rest).value| == |rest| ==> Verbatim(rest)
  {
    hide Unescape, Before;
    var u := Before(rest, '#');
    BeforeShrinks(rest, '#');
    BeforeShrinks(u, '?');
    UnescapeShrinks(Before(u, '?'));
  }

  /** What is read still starts with the slash. */
  lemma ReadStarts(rest: string)
    requires rest != "" && rest[0] == '/' && ReadPath(rest).Some?
    ensures ReadPath(rest).value != "" && ReadPath(rest).value[0] == '/'
  {
    var u := Before(rest, '#');
    assert u != "" && u[0] == '/';
    assert Before(u, '?') != "" && Before(u, '?')[0] == '/';
    hide Before;
  }

  lemma {:induction false} TrimIsShorter(s: string)
    ensures |TrimSlashes(s)| <= |s|
    ensures s != "" && s[0] == '/' ==> |TrimSlashes(s)| < |s|
    decreases |s|
  {
    if s != "" && s[0] == '/' {
      TrimIsShorter(s[1..]);
    } else if s != "" && s[|s| - 1] == '/' {
      TrimIsShorter(s[..|s| - 1]);
    }
  }

  lemma PositiveLength(s: string)
    requires Positive(s).Some?
    ensures Positive(s).value > 0 && |Itoa(Positive(s).value)| <= |s|
  {
    var digits := if HasPrefix(s, "-") || HasPrefix(s, "+") then s[1..] else s;
    ItoaIsShortest(digits);
    hide Itoa, Value;
  }

  /** Whatever form it comes in, a path is at least as long as what is taken from it. */
  lemma SegmentsLength(host: string, parts: seq<string>)
    requires parts != [] && FromSegments(host, parts).Some?
    ensures var p := FromSegments(host, parts).value;
      && 1 <= p.number
      && |JoinWith(parts, '/')| >= |p.owner| + |p.repo| + |Itoa(p.number)| + 7
      && (|parts| >= 2 && parts[|parts| - 2] == MERGE ==>
            |JoinWith(parts, '/')| >= |p.owner| + |p.repo| + |Itoa(p.number)| + 19)
  {
    hide Itoa, Positive, PULL, DASH, MERGE, JoinWith, TrimSuffix;
    KindsDiffer();
    var n := |parts|;
    Trimmed(if n == 4 then parts[1] else if n >= 4 then parts[n - 4] else "");
    PositiveLength(parts[n - 1]);
    if n == 4 && parts[2] == PULL {
      assert parts == [parts[0], parts[1], PULL, parts[3]];
      JoinFour(parts[0], parts[1], PULL, parts[3]);
      assert |JoinWith(parts, '/')| == |parts[0]| + |parts[1]| + |parts[3]| + 7;
    } else {
      assert parts == parts[..n - 4] + [parts[n - 4], DASH, MERGE, parts[n - 1]];
      JoinAppend(parts[..n - 4], [parts[n - 4], DASH, MERGE, parts[n - 1]], '/');
      JoinFour(parts[n - 4], DASH, MERGE, parts[n - 1]);
      assert |JoinWith(parts, '/')| == |JoinWith(parts[..n - 4], '/')| + |parts[n - 4]| + |parts[n - 1]| + 19;
    }
  }

  lemma JoinFour(a: string, b: string, c: string, d: string)
    ensures JoinWith([a, b, c, d], '/') == a + "/" + b + "/" + c + "/" + d
  {
    assert [a, b, c, d][1..] == [b, c, d] && [b, c, d][1..] == [c, d];
    JoinShort(c, d);
  }

  lemma {:induction false} UnescapeTail(x: string, tail: string)
    requires tail != "" && '%' !in tail && !IsHex(tail[0])
    ensures Unescape(x + tail) ==
      match Unescape(x) { case None => None case Some(y) => Some(y + tail) }
    decreases |x|
  {
    var s := x + tail;
    if x == "" {
      assert s == tail;
      UnescapePlain(tail);
    } else if x[0] != '%' {
      assert s[1..] == x[1..] + tail;
      UnescapeTail(x[1..], tail);
      if y :| Unescape(x[1..]) == Some(y) {
        assert [x[0]] + (y + tail) == [x[0]] + y + tail;
      }
    } else if |x| >= 3 && IsHex(x[1]) && IsHex(x[2]) {
      assert s[3..] == x[3..] + tail;
      UnescapeTail(x[3..], tail);
      if y :| Unescape(x[3..]) == Some(y) {
        var c := (16 * HexValue(x[1]) + HexValue(x[2])) as char;
        assert [c] + (y + tail) == [c] + y + tail;
      }
    }
  }

  /** Trimming slashes leaves a tail that ends in something else, its own first slash apart. */
  lemma {:induction false} TrimKeepsTail(x: string, tail: string) returns (y: Option<string>)
    requires |tail| >= 2 && tail[0] == '/' && tail[1] != '/' && tail[|tail| - 1] != '/'
    ensures TrimSlashes(x + tail) == match y { case None => tail[1..] case Some(z) => z + tail }
    decreases |x|
  {
    var s := x + tail;
    if x == "" {
      assert s == tail && tail[1..][0] != '/' && tail[1..][|tail| - 2] != '/';
      assert TrimSlashes(tail[1..]) == tail[1..];
      y := None;
    } else if x[0] == '/' {
      assert s[1..] == x[1..] + tail;
      y := TrimKeepsTail(x[1..], tail);
    } else {
      assert s[0] == x[0] && s[|s| - 1] == tail[|tail| - 1];
      y := Some(x);
    }
  }

  /** A path that ends like a merge request is not read as a pull request. */
  lemma EndsAsMerge(y: string, d: string)
    requires d != "" && '/' !in d
    ensures var parts := Split(TrimSlashes(y + ("/" + (DASH + "/" + MERGE + "/" + d))), '/');
      |parts| >= 2 && parts[|parts| - 2] == MERGE
  {
    hide DASH, MERGE, Split, TrimSlashes, JoinWith;
    KindsDiffer();
    assert DASH[0] in DASH && d[|d| - 1] in d;
    JoinThree(DASH, MERGE, d);
    SplitJoin([DASH, MERGE, d], '/');
    var end := DASH + "/" + MERGE + "/" + d;
    var z := TrimKeepsTail(y, "/" + end);
    assert ("/" + end)[1..] == end;
    if z.Some? {
      assert z.value + ("/" + end) == z.value + ['/'] + end;
      SplitAppend(z.value, end, '/');
    }
  }

  lemma JoinThree(a: string, b: string, c: string)
    ensures JoinWith([a, b, c], '/') == a + "/" + b + "/" + c
  {
    assert [a, b, c][1..] == [b, c];
    JoinShort(b, c);
  }

  /** With the query or fragment mark before the tail, less is read than comes before the tail. */
  lemma CutBeforeTail(x: string, tail: string)
    requires '?' !in tail && '#' !in tail && ReadPath(x + tail).Some?
    requires '?' in x || '#' in x
    ensures |ReadPath(x + tail).value| < |x|
  {
    var rest := x + tail;
    var u := Before(rest, '#');
    UnescapeShrinks(Before(u, '?'));
    CutShort(x, tail, '#');
    if '#' !in x {
      assert u == rest;
      CutShort(x, tail, '?');
    } else {
      BeforeShrinks(u, '?');
    }
    hide Before, Unescape;
  }

  lemma CutShort(x: string, tail: string, c: char)
    requires c !in tail
    ensures c in x ==> |Before(x + tail, c)| < |x|
    ensures c !in x ==> Before(x + tail, c) == x + tail
  {
    var s := x + tail;
    if c in x {
      var i :| 0 <= i < |x| && x[i] == c;
      IndexAtMost(s, c, i);
    }
  }

  /** Without either mark, only escapes in front of the tail are undone. */
  lemma NoCutBeforeTail(x: string, tail: string)
    requires tail != "" && '%' !in tail && !IsHex(tail[0])
    requires '?' !in x + tail && '#' !in x + tail && ReadPath(x + tail).Some?
    ensures Unescape(x).Some? && ReadPath(x + tail).value == Unescape(x).value + tail
  {
    BeforeNone(x + tail, '#');
    BeforeNone(x + tail, '?');
    UnescapeTail(x, tail);
    hide Unescape, Before;
  }

  lemma PrintedLength(p: Parts)
    requires p.number >= 0
    ensures |Print(p).rest| == |p.owner| + |p.repo| + |Itoa(p.number)| + if IsGitHubHost(p.host) then 8 else 20
  {
    hide Itoa, IsGitHubHost;
  }

  /** Parts a URL would not carry verbatim do not come back: what is read is too short for them. */
  lemma NotVerbatimIsLost(p: Parts)
    requires p.number >= 0 && !(Verbatim(p.owner) && Verbatim(p.repo))
    ensures Parse(Print(p)) != Some(p)
  {
    hide Itoa, IsGitHubHost, ReadPath, Verbatim, FromSegments, Split, TrimSlashes, Kind, JoinWith, PULL, DASH, MERGE;
    var rest := Print(p).rest;
    KindIsThere(p.host);
    if ReadPath(rest).Some? {
      var path := ReadPath(rest).value;
      var parts := Split(TrimSlashes(path), '/');
      PrintedRest(p);
      PrintedLength(p);
      KindIsVerbatim(p.host);
      ItoaIsVerbatim(p.number);
      PathIsVerbatim(p.owner, p.repo, JoinWith(Kind(p.host), '/'), Itoa(p.number));
      ReadShrinks(rest);
      ReadStarts(rest);
      TrimIsShorter(path);
      JoinSplit(TrimSlashes(path), '/');
      if FromSegments(p.host, parts) == Some(p) {
        SegmentsLength(p.host, parts);
        if !IsGitHubHost(p.host) {
          ReadsAsMerge(p);
        }
      }
    }
  }

  /** A printed merge request, if it is read at full length up to its tail, is read as a merge request. */
  lemma ReadsAsMerge(p: Parts)
    requires p.number >= 0 && !IsGitHubHost(p.host) && ReadPath(Print(p).rest).Some?
    ensures var path := ReadPath(Print(p).rest).value;
      var parts := Split(TrimSlashes(path), '/');
      || |path| <= |p.owner| + |p.repo| + 1
      || (|parts| >= 2 && parts[|parts| - 2] == MERGE)
  {
    hide Itoa, IsGitHubHost, ReadPath, FromSegments, Split, TrimSlashes, JoinWith, Unescape;
    var d := Itoa(p.number);
    var x, tail := "/" + p.owner + "/" + p.repo, "/" + (DASH + "/" + MERGE + "/" + d);
    var rest := Print(p).rest;
    assert rest == x + tail;
    ItoaEndsInDigit(p.number);
    ItoaIsVerbatim(p.number);
    VerbatimLacks(d);
    TailIsPlain(d);
    hide DASH, MERGE;
    if '?' in x || '#' in x {
      CutBeforeTail(x, tail);
    } else {
      NoCutBeforeTail(x, tail);
      EndsAsMerge(Unescape(x).value, d);
    }
  }

  lemma TailIsPlain(d: string)
    requires '?' !in d && '#' !in d && '%' !in d
    ensures var tail := "/" + (DASH + "/" + MERGE + "/" + d);
      '?' !in tail && '#' !in tail && '%' !in tail && !IsHex(tail[0])
  {
  }

  /** Parsing a printed URL gives the parts back if and only if a URL can carry them. */
  lemma RoundTrip(p: Parts)
    requires p.number >= 0
    ensures Parse(Print(p)) == Some(p) <==> Carried(p)
  {
    ParsedParts(Print(p));
    if !Verbatim(p.owner) || !Verbatim(p.repo) {
      NotVerbatimIsLost(p);
    } else if p.owner != "" && p.owner[0] != '/' && '/' !in p.repo {
      ParsePrinted(p);
      SegmentsRead(p);
      Trimmed(p.repo);
    }
    hide Parse, Print, IsGitHubHost, TrimSuffix, HasSuffix, Verbatim;
  }

  /** Different parts print differently. */
  lemma PrintIsInjective(p: Parts, q: Parts)
    requires p.number >= 0 && '/' !in p.repo && q.number >= 0 && '/' !in q.repo
    requires Print(p) == Print(q)
    ensures p == q
  {
    hide Itoa, IsGitHubHost, Split, JoinWith, Print;
    PathIsJoined(p);
    PathIsJoined(q);
    PrintedHost(p);
    PrintedHost(q);
    assert JoinWith(Segments(p), '/') == ("/" + JoinWith(Segments(p), '/'))[1..];
    assert JoinWith(Segments(q), '/') == ("/" + JoinWith(Segments(q), '/'))[1..];
    SegmentsArePlain(p);
    SegmentsArePlain(q);
    SplitJoin(Segments(p), '/');
    SplitJoin(Segments(q), '/');
    SameSegments(p, q);
  }

  lemma PrintedHost(p: Parts)
    requires p.number >= 0
    ensures Print(p).host == p.host
  {
  }

  lemma SegmentsArePlain(p: Parts)
    requires p.number >= 0 && '/' !in p.repo
    ensures forall s <- Segments(p) :: '/' !in s
  {
    hide Itoa, IsGitHubHost, Split, JoinWith, Kind;
    JoinSplit(p.owner, '/');
    KindIsThere(p.host);
    ItoaEndsInDigit(p.number);
  }

  lemma SameSegments(p: Parts, q: Parts)
    requires p.number >= 0 && q.number >= 0 && p.host == q.host && Segments(p) == Segments(q)
    ensures p == q
  {
    hide Itoa, IsGitHubHost, Split, JoinWith, Kind;
    var s, n, k := Segments(p), |Segments(p)|, |Kind(p.host)|;
    assert s[n - 1] == Itoa(p.number) == Itoa(q.number);
    ItoaDigits(p.number);
    ItoaDigits(q.number);
    assert s[n - 2 - k] == p.repo == q.repo;
    assert s[..n - 2 - k] == Split(p.owner, '/') == Split(q.owner, '/');
    JoinSplit(p.owner, '/');
    JoinSplit(q.owner, '/');
  }

  /**
   Canonicalising a canonical URL changes nothing if and only if the repository name, its
   suffix once removed, does not end in ".git" again, on a GitHub host the owner is one
   segment, and neither of the two holds what a URL would read as something else.
   */
  lemma CanonicalIsFixed(u: Url)
    requires Canonical(u).Some?
    ensures var p, v := Parse(u).value, Canonical(u).value;
      && (Canonical(v) == Some(v) <==>
            && !HasSuffix(p.repo, ".git") && (IsGitHubHost(p.host) ==> '/' !in p.owner)
            && Verbatim(p.owner) && Verbatim(p.repo))
      && (Verbatim(p.owner) && Verbatim(p.repo) && IsGitHubHost(p.host) && '/' in p.owner ==> Canonical(v) == None)
  {
    var p, v := Parse(u).value, Canonical(u).value;
    ParsedParts(u);
    RoundTrip(p);
    if Verbatim(p.owner) && Verbatim(p.repo) {
      ParsePrinted(p);
      SegmentsRead(p);
    }
    if Canonical(v) == Some(v) {
      ParsedParts(v);
      PrintIsInjective(Parse(v).value, p);
    }
    hide Parse, IsGitHubHost, TrimSuffix, HasSuffix, Print, Verbatim;
  }

  /** The failing family of escapes: a question mark let in as an escape cuts the printed URL short. */
  lemma QuestionMarkMoves(u: Url)
    requires Canonical(u).Some? && '?' in Parse(u).value.owner
    ensures Canonical(Canonical(u).value) != Canonical(u)
  {
    CanonicalIsFixed(u);
    var owner := Parse(u).value.owner;
    assert Verbatim(owner) ==> '?' !in owner;
    hide Canonical, Parse, Verbatim;
  }

  lemma PathLength(p: Parts, q: Parts)
    requires p.number >= 0 && q == p.(repo := q.repo)
    ensures Print(p) == Print(q) ==> |p.repo| == |q.repo|
  {
    hide Itoa, IsGitHubHost;
    var kind := if IsGitHubHost(p.host) then PULL else DASH + "/" + MERGE;
    assert |Print(p).rest| == 3 + |p.owner| + |p.repo| + |kind| + 1 + |Itoa(p.number)|;
    assert |Print(q).rest| == 3 + |p.owner| + |q.repo| + |kind| + 1 + |Itoa(p.number)|;
  }

  /** A doubled suffix is stripped once a time: no such URL is canonical after one pass. */
  lemma DoubledSuffixMoves(p: Parts)
    requires Carried(p) && p.host != "" && p.repo != ""
    ensures var twice, once := p.(repo := p.repo + ".git" + ".git"), p.(repo := p.repo + ".git");
      && Canonical(Print(twice)) == Some(Print(once))
      && Canonical(Print(once)) == Some(Print(p)) != Some(Print(once))
  {
    hide IsGitHubHost, Print, Parse;
    var twice, once := p.(repo := p.repo + ".git" + ".git"), p.(repo := p.repo + ".git");
    ParsePrinted(twice);
    SegmentsRead(twice);
    ParsePrinted(once);
    SegmentsRead(once);
    SuffixOff(p.repo + ".git");
    SuffixOff(p.repo);
    PathLength(p, once);
    hide TrimSuffix, HasSuffix;
  }

  lemma SuffixOff(repo: string)
    ensures TrimSuffix(repo + ".git", ".git") == repo
  {
    assert (repo + ".git")[|repo|..] == ".git";
  }
}
