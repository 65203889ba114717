/**
 URLs as anybody may spell them: characters of the path written as they are or as escapes
 (section 2.1 of RFC 3986), with a query and a fragment behind it.
 */
module PrEscapes {
  import opened Prelude
  import opened Text
  import opened Decimal
  import opened PrRef
  import opened PrForms

  /** One character of a path, as it is or as an escape with either case of hexadecimal digits. */
  datatype Spelling = AsIs | Escape(high: bool, low: bool)

  function HexDigit(n: nat, upper: bool): char
    requires n < 16
  {
    if upper then "0123456789ABCDEF"[n] else "0123456789abcdef"[n]
  }

  function Spelled(c: char, how: Spelling): string
    requires c as int < 256
  {
    match how
    case AsIs => [c]
    case Escape(high, low) => ['%', HexDigit(c as int / 16, high), HexDigit(c as int % 16, low)]
  }

  function Written(s: string, how: seq<Spelling>): string
    requires |how| == |s| && forall i :: 0 <= i < |s| ==> s[i] as int < 256
  {
    if s == "" then "" else Spelled(s[0], how[0]) + Written(s[1..], how[1..])
  }

  predicate IsPlain(c: char) {
    c !in "?#%" && 0x20 <= c as int < 0x7f
  }

  /** Only plain characters are written as they are. */
  predicate MayWrite(s: string, how: seq<Spelling>) {
    && |how| == |s|
    && forall i :: 0 <= i < |s| ==> s[i] as int < 256 && (how[i].AsIs? ==> IsPlain(s[i]))
  }

  lemma HexDigitIs(n: nat, upper: bool)
    requires n < 16
    ensures IsHex(HexDigit(n, upper)) && HexValue(HexDigit(n, upper)) == n
    ensures IsPlain(HexDigit(n, upper))
  {
  }

  lemma SpelledIs(c: char, how: Spelling, rest: string)
    requires c as int < 256 && (how.AsIs? ==> c != '%')
    ensures Unescape(Spelled(c, how) + rest) == if Unescape(rest).None? then None else Some([c] + Unescape(rest).value)
  {
    var s := Spelled(c, how) + rest;
    if how.Escape? {
      var high, low := c as int / 16, c as int % 16;
      HexDigitIs(high, how.high);
      HexDigitIs(low, how.low);
      hide HexDigit, HexValue, IsHex;
      assert s[3..] == rest;
      assert (16 * high + low) as char == c;
    } else {
      assert s[1..] == rest;
    }
  }

  /** However it is spelled, it is read as what it says. */
  lemma {:induction false} SpellingUndone(s: string, how: seq<Spelling>)
    requires MayWrite(s, how)
    ensures Unescape(Written(s, how)) == Some(s)
    decreases |s|
  {
    hide Unescape, IsPlain;
    if s == "" {
      UnescapePlain("");
    } else {
      assert how[0].AsIs? ==> s[0] != '%' by {
        PlainIsNoPercent(s[0]);
      }
      SpellingUndone(s[1..], how[1..]);
      SpelledIs(s[0], how[0], Written(s[1..], how[1..]));
      assert s == [s[0]] + s[1..];
    }
  }

  lemma PlainIsNoPercent(c: char)
    ensures IsPlain(c) ==> c != '%'
  {
  }

  /** Such spelling is made of plain characters and percent signs. */
  lemma {:induction false} WrittenIsPlain(s: string, how: seq<Spelling>)
    requires MayWrite(s, how)
    ensures forall c <- Written(s, how) :: c == '%' || IsPlain(c)
    decreases |s|
  {
    hide IsPlain;
    if s != "" {
      WrittenIsPlain(s[1..], how[1..]);
      if how[0].Escape? {
        HexDigitIs(s[0] as int / 16, how[0].high);
        HexDigitIs(s[0] as int % 16, how[0].low);
        hide HexDigit;
      }
    }
  }

  // The text behind the host.

  function Behind(path: string, query: Option<string>, fragment: Option<string>): string {
    path + (if query.Some? then "?" + query.value else "") + (if fragment.Some? then "#" + fragment.value else "")
  }

  predicate HasControl(s: string) {
    exists c <- s :: c as int < 0x20 || c as int == 0x7f
  }

  /** A control character before the fragment, or a bad escape in it, spoils the whole URL; else the path alone counts. */
  lemma BehindIs(path: string, query: Option<string>, fragment: Option<string>)
    requires '?' !in path && '#' !in path && (query.Some? ==> '#' !in query.value)
    ensures ReadPath(Behind(path, query, fragment)) ==
      if HasControl(path) || (query.Some? && HasControl(query.value)) || (fragment.Some? && Unescape(fragment.value).None?)
      then None
      else Unescape(path)
  {
    var u := path + if query.Some? then "?" + query.value else "";
    UpToFragment(u, fragment);
    CutAt(path, query, '?', u);
    ControlInQuery(path, query);
    assert '#' !in u;
    hide Unescape, HasControl, Before, ReadPath;
  }

  lemma UpToFragment(u: string, fragment: Option<string>)
    requires '#' !in u
    ensures ReadPath(u + if fragment.Some? then "#" + fragment.value else "") ==
      if HasControl(u) || (fragment.Some? && Unescape(fragment.value).None?) then None else Unescape(Before(u, '?'))
  {
    CutAt(u, fragment, '#', u + if fragment.Some? then "#" + fragment.value else "");
    ControlIs(u);
    hide Unescape, HasControl, IsControl, Before;
  }

  lemma ControlInQuery(path: string, query: Option<string>)
    ensures HasControl(path + if query.Some? then "?" + query.value else "")
      <==> HasControl(path) || (query.Some? && HasControl(query.value))
  {
    assert forall c :: c in path + (if query.Some? then "?" + query.value else "") <==>
      c in path || (query.Some? && (c == '?' || c in query.value));
  }

  lemma ControlIs(s: string)
    ensures HasControl(s) <==> exists i :: 0 <= i < |s| && IsControl(s[i])
  {
    if i :| 0 <= i < |s| && IsControl(s[i]) {
      assert s[i] in s;
    }
    if HasControl(s) {
      var c :| c in s && (c as int < 0x20 || c as int == 0x7f);
      var i :| 0 <= i < |s| && s[i] == c;
      assert IsControl(s[i]);
    }
  }

  lemma CutAt(s: string, more: Option<string>, c: char, all: string)
    requires c !in s && all == s + if more.Some? then [c] + more.value else ""
    ensures Before(all, c) == s && (more.Some? ==> |s| < |all| && all[|s| + 1..] == more.value)
    ensures more.None? ==> all == s
  {
    if more.Some? {
      assert all == s + [c] + more.value;
      FirstIndex(s, c, more.value);
    } else {
      assert all == s;
      BeforeNone(s, c);
    }
  }

  /** A URL is read by what its path says: not by its spelling, its query or its fragment. */
  lemma SpellingNeverShows(
      scheme: string, host: string, path: string, how: seq<Spelling>, query: Option<string>, fragment: Option<string>)
    requires MayWrite(path, how)
    requires query.Some? ==> '#' !in query.value && !HasControl(query.value)
    requires fragment.Some? ==> Unescape(fragment.value).Some?
    ensures Parse(Url(scheme, host, Behind(Written(path, how), query, fragment)))
      == if SameLetters(scheme, "https") then FromSegments(host, Split(TrimSlashes(path), '/')) else None
  {
    LowerIs(scheme, "https");
    SpellingUndone(path, how);
    WrittenIsPlain(path, how);
    PlainHasNoControl(Written(path, how));
    BehindIs(Written(path, how), query, fragment);
    hide ReadPath, Behind, Written, FromSegments, Split, TrimSlashes, Unescape, HasControl, SameLetters, MayWrite;
  }

  lemma PlainHasNoControl(s: string)
    requires forall c <- s :: c == '%' || IsPlain(c)
    ensures '?' !in s && '#' !in s && !HasControl(s)
  {
  }

  /** So a pull request URL is read as the same parts in any spelling. */
  lemma PullSpelled(
      scheme: string, host: string, owner: string, name: string, repo: string, n: nat,
      how: seq<Spelling>, query: Option<string>, fragment: Option<string>)
    requires SameLetters(scheme, "https") && Names(name, repo) && owner != "" && '/' !in owner && '/' !in name
    requires MayWrite("/" + owner + "/" + name + "/pull/" + Itoa(n), how)
    requires query.Some? ==> '#' !in query.value && !HasControl(query.value)
    requires fragment.Some? ==> Unescape(fragment.value).Some?
    ensures Parse(Url(scheme, host, Behind(Written("/" + owner + "/" + name + "/pull/" + Itoa(n), how), query, fragment)))
      == if 1 <= n <= MAX_INT64 then Some(Parts(host, owner, repo, n)) else None
  {
    hide *;
    var path := "/" + owner + "/" + name + "/pull/" + Itoa(n);
    SpellingNeverShows(scheme, host, path, how, query, fragment);
    PullSegments(owner, name, n);
    NamesTrim(name, repo);
    PullParts(host, owner, name, n);
  }

  lemma PullSegments(owner: string, name: string, n: nat)
    requires owner != "" && '/' !in owner && '/' !in name
    ensures Split(TrimSlashes("/" + owner + "/" + name + "/pull/" + Itoa(n)), '/') == [owner, name, "pull", Itoa(n)]
  {
    hide Itoa, Split, JoinWith, TrimSlashes;
    assert owner[0] in owner;
    var d := Itoa(n);
    var segments := [owner, name, "pull", d];
    ItoaEndsInDigit(n);
    ItoaThere(n);
    PathTrims(owner, name, "pull", d);
    PullText("/" + owner + "/" + name, d);
    var path := owner + "/" + name + "/" + "pull" + "/" + d;
    assert "/" + path == "/" + owner + "/" + name + "/" + "pull" + "/" + d;
    JoinFour(owner, name, "pull", d);
    assert '/' !in "pull" by {
      PullVerbatim();
    }
    assert forall s <- segments :: '/' !in s;
    SplitJoin(segments, '/');
  }

  lemma PullParts(host: string, owner: string, name: string, n: nat)
    ensures FromSegments(host, [owner, name, "pull", Itoa(n)])
      == if 1 <= n <= MAX_INT64 then Some(Parts(host, owner, TrimSuffix(name, ".git"), n)) else None
  {
    hide Itoa, TrimSuffix;
    ReadNumber(n);
  }
}
