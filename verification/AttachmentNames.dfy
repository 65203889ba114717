/** Which names the attachment store takes for attachments, sessions and workspace paths. */
module AttachmentNames {
  import opened Prelude
  import opened Text

  const WORKSPACE_DIR := ".ao/attachments"

  predicate IsNameChar(c: char, allowDot: bool) {
    IsAlphanumeric(c) || c == '-' || c == '_' || (allowDot && c == '.')
  }

  predicate HasDoubleDot(s: string) {
    exists i :: 0 <= i < |s| - 1 && s[i] == '.' && s[i + 1] == '.'
  }

  predicate ValidNamePart(part: string, allowDot: bool) {
    && part != ""
    && part[0] != '.' && part[|part| - 1] != '.' && !HasDoubleDot(part)
    && forall c <- part :: IsNameChar(c, allowDot)
  }

  /** What follows `attachment-` or `image-`. */
  function Remainder(name: string): Option<string> {
    if HasPrefix(name, "attachment-") then Some(name[11..])
    else if HasPrefix(name, "image-") then Some(name[6..])
    else None
  }

  /** filepath.Ext: from the last dot on. */
  function Extension(name: string): string {
    if name == "" then ""
    else if name[|name| - 1] == '.' then "."
    else if '.' !in name then ""
    else Extension(name[..|name| - 1]) + [name[|name| - 1]]
  }

  predicate ValidName(name: string) {
    && name != "" && |name| <= 255
    && '/' !in name && '\\' !in name && '\0' !in name
    && Remainder(name).Some?
    && var rest := Remainder(name).value;
       var dot := IndexOf(rest, '.');
       && 0 < dot < |rest| - 1
       && ValidNamePart(rest[..dot], false)
       && ValidNamePart(rest[dot + 1..], true)
       && Lower(Extension(name)) !in [".svg", ".svgz"]
  }

  predicate ValidSessionID(id: string) {
    id != "" && id != "." && id != ".." && '/' !in id && '\\' !in id && '\0' !in id
  }

  /** The name of a file being written. */
  function TempName(suffix: string): string {
    ".attachment-" + suffix
  }

  /** No temporary file is ever taken for an attachment, whatever its random suffix. */
  lemma TempIsNotValid(suffix: string)
    ensures !ValidName(TempName(suffix))
  {
    assert TempName(suffix)[0] == '.';
  }

  /** A backslash counts as a slash. */
  function Slashes(raw: string): (r: string)
    ensures |r| == |raw|
  {
    seq(|raw|, i requires 0 <= i < |raw| => if raw[i] == '\\' then '/' else raw[i])
  }

  function TrimSlash(raw: string): string {
    if HasPrefix(raw, "/") then raw[1..] else raw
  }

  function NameFromWorkspacePath(raw: string): Option<string> {
    var parts := Split(TrimSlash(Slashes(raw)), '/');
    if |parts| != 3 || parts[0] != ".ao" || parts[1] != "attachments" || !ValidName(parts[2]) then None
    else Some(parts[2])
  }

  /** A session id names one directory: one path component, whichever way slashes point, and none of the dots. */
  lemma SessionIdIsComponent(id: string)
    ensures ValidSessionID(id) <==> Split(Slashes(id), '/') == [id] && id !in ["", ".", ".."] && '\0' !in id
  {
    var t := Slashes(id);
    hide Split;
    SplitUnrolls(t, '/');
    assert forall i :: 0 <= i < |t| ==> (t[i] == '/' <==> id[i] in ['/', '\\']);
    if '/' !in id && '\\' !in id {
      assert t == id && t[..|t|] == t;
      assert '/' !in t;
    } else {
      var i :| 0 <= i < |id| && id[i] in ['/', '\\'];
      assert t[i] == '/';
      if Split(t, '/') == [id] {
        OnePart(t, id);
      }
    }
  }

  lemma OnePart(s: string, part: string)
    requires Split(s, '/') == [part]
    ensures part == s && '/' !in s
  {
    JoinSplit(s, '/');
    hide Split;
    assert part in Split(s, '/');
    assert JoinWith([part], '/') == part;
  }

  lemma JoinThree(name: string)
    ensures JoinWith([".ao", "attachments", name], '/') == WORKSPACE_DIR + "/" + name
  {
    var parts := [".ao", "attachments", name];
    assert parts[1..] == ["attachments", name];
    assert parts[1..][1..] == [name];
    assert JoinWith([name], '/') == name;
    assert JoinWith(["attachments", name], '/') == "attachments" + ['/'] + name;
    assert ".ao" + ['/'] + ("attachments" + ['/'] + name) == WORKSPACE_DIR + "/" + name;
  }

  lemma TrimmedRecognised(raw: string, name: string)
    ensures NameFromWorkspacePath(raw) == Some(name) <==>
      ValidName(name) && TrimSlash(Slashes(raw)) == WORKSPACE_DIR + "/" + name
  {
    hide ValidName;
    var path := TrimSlash(Slashes(raw));
    JoinThree(name);
    if NameFromWorkspacePath(raw) == Some(name) {
      JoinSplit(path, '/');
      assert Split(path, '/') == [".ao", "attachments", name];
    }
    if ValidName(name) && path == WORKSPACE_DIR + "/" + name {
      ValidHasNoSlash(name);
      SplitJoin([".ao", "attachments", name], '/');
    }
  }

  lemma OneSlashOff(s: string, t: string)
    requires t != "" && t[0] != '/'
    ensures TrimSlash(s) == t <==> s in [t, "/" + t]
  {
    assert s != "" && s[0] == '/' ==> s == "/" + s[1..];
    assert ("/" + t)[1..] == t;
  }

  /**
   A path is recognised if and only if it is the attachments directory, one slash and a
   valid name, give or take one leading slash and the direction of the slashes.
   */
  lemma PathRecognised(raw: string, name: string)
    ensures NameFromWorkspacePath(raw) == Some(name) <==>
      ValidName(name) && Slashes(raw) in [WORKSPACE_DIR + "/" + name, "/" + WORKSPACE_DIR + "/" + name]
  {
    var path := WORKSPACE_DIR + "/" + name;
    assert path[0] == '.' && "/" + path == "/" + WORKSPACE_DIR + "/" + name;
    hide ValidName, NameFromWorkspacePath, TrimSlash, Slashes;
    TrimmedRecognised(raw, name);
    OneSlashOff(Slashes(raw), path);
  }

  lemma ValidHasNoSlash(name: string)
    requires ValidName(name)
    ensures '/' !in name && '\\' !in name
  {
  }

  /** The path the store itself writes for a name is read back as that name. */
  lemma PathRoundTrip(name: string)
    requires ValidName(name)
    ensures NameFromWorkspacePath(WORKSPACE_DIR + "/" + name) == Some(name)
  {
    hide ValidName;
    ValidHasNoSlash(name);
    var raw := WORKSPACE_DIR + "/" + name;
    assert raw[0] == '.';
    assert Slashes(raw) == raw;
    PathRecognised(raw, name);
  }

  lemma RemainderSplits(name: string) returns (head: string)
    requires Remainder(name).Some?
    ensures name == head + Remainder(name).value && head in ["attachment-", "image-"]
  {
    head := if HasPrefix(name, "attachment-") then "attachment-" else "image-";
  }

  /** A valid name is one visible path component: it names a direct child and nothing else. */
  lemma ValidNameIsPlain(name: string)
    requires ValidName(name)
    ensures name[0] != '.' && name != ".." && |name| >= 9
    ensures forall c <- name :: IsAlphanumeric(c) || c in ['-', '_', '.']
    ensures !HasDoubleDot(name)
    ensures name[|name| - 1] != '.'
  {
    hide Extension, Lower;
    var rest := Remainder(name).value;
    var dot := IndexOf(rest, '.');
    hide Remainder;
    var head := RemainderSplits(name);
    hide ValidNamePart, IndexOf, HasDoubleDot;
    NoDoubleDot(head, rest, dot);
    PlainCharacters(head, rest, dot);
  }

  lemma PlainCharacters(head: string, rest: string, dot: nat)
    requires head in ["attachment-", "image-"] && 0 < dot < |rest| - 1 && rest[dot] == '.'
    requires ValidNamePart(rest[..dot], false) && ValidNamePart(rest[dot + 1..], true)
    ensures forall c <- head + rest :: IsAlphanumeric(c) || c in ['-', '_', '.']
    ensures head[0] != '.' && rest[|rest| - 1] != '.' && |head| >= 6
  {
    assert rest == rest[..dot] + ['.'] + rest[dot + 1..];
    assert forall c <- head :: IsAlphanumeric(c) || c == '-';
  }

  lemma NoDoubleDot(head: string, rest: string, dot: nat)
    requires head in ["attachment-", "image-"] && 0 < dot < |rest| - 1 && rest[dot] == '.'
    requires ValidNamePart(rest[..dot], false) && ValidNamePart(rest[dot + 1..], true)
    ensures !HasDoubleDot(head + rest)
  {
    var name := head + rest;
    forall i | 0 <= i < |name| - 1
      ensures !(name[i] == '.' && name[i + 1] == '.')
    {
      var k := i - |head|;
      if k >= 0 {
        assert name[i] == rest[k] && name[i + 1] == rest[k + 1];
        if k < dot {
          assert rest[k] == rest[..dot][k];
        } else if k == dot {
          assert rest[k + 1] == rest[dot + 1..][0];
        } else {
          assert rest[k] == rest[dot + 1..][k - dot - 1] && rest[k + 1] == rest[dot + 1..][k - dot];
        }
      }
    }
  }

  // What the names look like, written out.

  /** Letters, digits, dashes and underscores; dots only inside, and never two in a row. */
  ghost predicate PlainPart(part: string, dots: bool) {
    && part != ""
    && (forall c <- part :: 'a' <= c <= 'z' || 'A' <= c <= 'Z' || '0' <= c <= '9' || c in "-_" || (dots && c == '.'))
    && part[0] != '.' && part[|part| - 1] != '.'
    && forall x, y :: part != x + ".." + y
  }

  ghost predicate EndsLike(name: string, suffix: string) {
    exists x, y :: name == x + y && SameLetters(y, suffix)
  }

  /** attachment- or image-, a plain stem, a dot and a plain extension. */
  ghost predicate NameForm(name: string, head: string, stem: string, ext: string) {
    head in ["attachment-", "image-"] && name == head + stem + "." + ext && PlainPart(stem, false) && PlainPart(ext, true)
  }

  lemma PlainPartIs(part: string, dots: bool)
    ensures ValidNamePart(part, dots) <==> PlainPart(part, dots)
  {
    if HasDoubleDot(part) {
      var i :| 0 <= i < |part| - 1 && part[i] == '.' && part[i + 1] == '.';
      assert part == part[..i] + ".." + part[i + 2..];
    }
    if x, y :| part == x + ".." + y {
      assert part[|x|] == '.' && part[|x| + 1] == '.';
    }
    hide HasDoubleDot;
  }

  /** From the last dot on. */
  ghost predicate FromLastDot(e: string) {
    e != "" && e[0] == '.' && forall i :: 0 < i < |e| ==> e[i] != '.'
  }

  lemma {:induction false} ExtensionShape(name: string)
    ensures HasSuffix(name, Extension(name))
    ensures if '.' in name then FromLastDot(Extension(name)) else Extension(name) == ""
    decreases |name|
  {
    if name != "" && name[|name| - 1] != '.' && '.' in name {
      var before := name[..|name| - 1];
      ExtensionShape(before);
      assert name == before + [name[|name| - 1]];
      var e := Extension(before);
      assert name[|name| - |e| - 1..] == before[|before| - |e|..] + [name[|name| - 1]];
    }
  }

  lemma NotLonger(name: string, e: string, x: string)
    requires HasSuffix(name, e) && HasSuffix(name, x) && FromLastDot(e) && FromLastDot(x)
    ensures |x| <= |e|
  {
    forall k | |name| - |x| < k < |name|
      ensures name[k] != '.'
    {
      assert name[k] == x[k - (|name| - |x|)];
    }
    assert name[|name| - |e|] == e[0];
  }

  lemma ExtensionIs(name: string, e: string)
    requires HasSuffix(name, e) && FromLastDot(e)
    ensures Extension(name) == e
  {
    ExtensionShape(name);
    assert name[|name| - |e|] == e[0];
    NotLonger(name, e, Extension(name));
    NotLonger(name, Extension(name), e);
  }

  /** A name has the extension, in whatever case, exactly when it ends like it. */
  lemma ExtensionLike(name: string, suffix: string)
    requires FromLastDot(suffix) && forall c <- suffix :: !IsUpper(c)
    ensures Lower(Extension(name)) == suffix <==> EndsLike(name, suffix)
  {
    LowerIs(Extension(name), suffix);
    ExtensionShape(name);
    if SameLetters(Extension(name), suffix) {
      assert name == name[..|name| - |Extension(name)|] + Extension(name);
    }
    if x, y :| name == x + y && SameLetters(y, suffix) {
      assert forall i :: 0 < i < |y| ==> SameLetter(y[i], suffix[i]);
      ExtensionIs(name, y);
    }
  }

  lemma ValidParts(name: string) returns (rest: string, dot: nat)
    requires ValidName(name)
    ensures Remainder(name) == Some(rest) && 0 < dot < |rest| - 1 && rest[dot] == '.'
    ensures ValidNamePart(rest[..dot], false) && ValidNamePart(rest[dot + 1..], true)
  {
    hide Lower, Extension, ValidNamePart, Remainder;
    rest := Remainder(name).value;
    dot := IndexOf(rest, '.');
  }

  lemma PartsHaveForm(name: string, head: string, rest: string, dot: nat)
    requires name == head + rest && head in ["attachment-", "image-"] && dot < |rest| && rest[dot] == '.'
    requires ValidNamePart(rest[..dot], false) && ValidNamePart(rest[dot + 1..], true)
    ensures NameForm(name, head, rest[..dot], rest[dot + 1..])
  {
    hide ValidNamePart, PlainPart;
    PlainPartIs(rest[..dot], false);
    PlainPartIs(rest[dot + 1..], true);
    assert rest == rest[..dot] + "." + rest[dot + 1..];
    assert name == head + rest[..dot] + "." + rest[dot + 1..];
  }

  lemma ValidHasForm(name: string)
    requires ValidName(name)
    ensures exists head, stem, ext :: NameForm(name, head, stem, ext)
  {
    hide *;
    var rest, dot := ValidParts(name);
    var head := RemainderSplits(name);
    PartsHaveForm(name, head, rest, dot);
  }

  lemma FormParts(name: string, head: string, stem: string, ext: string)
    requires NameForm(name, head, stem, ext)
    ensures var rest := stem + "." + ext;
      && Remainder(name) == Some(rest) && IndexOf(rest, '.') == |stem| && 0 < |stem| < |rest| - 1
      && rest[..|stem|] == stem && rest[|stem| + 1..] == ext
    ensures ValidNamePart(stem, false) && ValidNamePart(ext, true)
  {
    hide PlainPart, ValidNamePart, Remainder, IndexOf;
    PlainPartIs(stem, false);
    PlainPartIs(ext, true);
    var rest := stem + "." + ext;
    assert name == head + rest;
    FormRemainder(head, rest);
    PartsThere(stem, ext);
    FirstDot(stem, ext);
  }

  lemma FormIsValid(name: string, head: string, stem: string, ext: string)
    requires NameForm(name, head, stem, ext) && |name| <= 255
    ensures ValidName(name) <==> Lower(Extension(name)) !in [".svg", ".svgz"]
  {
    FormParts(name, head, stem, ext);
    FormCharacters(head, stem, ext);
    hide Lower, Extension, PlainPart, ValidNamePart, Remainder, IndexOf;
  }

  lemma PartsThere(stem: string, ext: string)
    requires PlainPart(stem, false) && PlainPart(ext, true)
    ensures stem != "" && ext != "" && '.' !in stem
  {
  }

  /** The names that are taken: all of this form, of up to 255 characters, but for SVG in any letter case. */
  lemma ValidNameIs(name: string)
    ensures ValidName(name) <==>
      && |name| <= 255
      && (exists head, stem, ext :: NameForm(name, head, stem, ext))
      && !EndsLike(name, ".svg") && !EndsLike(name, ".svgz")
  {
    ExtensionLike(name, ".svg");
    ExtensionLike(name, ".svgz");
    if ValidName(name) {
      ValidHasForm(name);
      ValidIsShort(name);
    }
    hide ValidName, Lower, Extension, EndsLike, NameForm;
    if |name| <= 255 && exists head, stem, ext :: NameForm(name, head, stem, ext) {
      var head, stem, ext :| NameForm(name, head, stem, ext);
      FormIsValid(name, head, stem, ext);
    }
  }

  lemma ValidIsShort(name: string)
    requires ValidName(name)
    ensures |name| <= 255 && Lower(Extension(name)) !in [".svg", ".svgz"]
  {
    hide Lower, Extension;
  }

  lemma FormRemainder(head: string, rest: string)
    requires head in ["attachment-", "image-"]
    ensures Remainder(head + rest) == Some(rest)
  {
    assert (head + rest)[..|head|] == head;
    if head == "image-" {
      assert (head + rest)[0] == 'i';
    }
  }

  lemma FirstDot(stem: string, ext: string)
    requires '.' !in stem
    ensures IndexOf(stem + "." + ext, '.') == |stem|
  {
    var s := stem + "." + ext;
    IndexAtMost(s, '.', |stem|);
    forall k | 0 <= k < |stem|
      ensures s[k] != '.'
    {
      assert s[k] in stem;
    }
  }

  lemma FormCharacters(head: string, stem: string, ext: string)
    requires head in ["attachment-", "image-"] && PlainPart(stem, false) && PlainPart(ext, true)
    ensures var name := head + stem + "." + ext; '/' !in name && '\\' !in name && '\0' !in name
  {
    assert forall c <- head :: IsAlphanumeric(c) || c == '-';
  }
}
