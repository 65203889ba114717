/** The URLs of the two providers as they are written, letter by letter: what is printed where, and what is read. */
module PrForms {
  import opened Prelude
  import opened Text
  import opened Decimal
  import opened PrRef

  /** github.com itself, anything under it, anything under ghe.io; in any letter case. */
  ghost predicate OnGitHub(host: string) {
    || SameLetters(host, "github.com")
    || exists x, y :: host == x + y && (SameLetters(y, ".github.com") || SameLetters(y, ".ghe.io"))
  }

  lemma GitHubForms(host: string)
    ensures IsGitHubHost(host) <==> OnGitHub(host)
  {
    LowerIs(host, "github.com");
    SuffixIs(host, ".github.com");
    SuffixIs(host, ".ghe.io");
    hide SameLetters;
    UnderGitHub(Lower(host));
  }

  lemma UnderGitHub(h: string)
    ensures h in ["www.github.com", "api.github.com"] ==> HasSuffix(h, ".github.com")
  {
  }

  /** A pull request on GitHub, a merge request anywhere else. */
  lemma PrintedForm(p: Parts)
    requires p.number >= 0
    ensures Print(p).scheme == "https" && Print(p).host == p.host
    ensures OnGitHub(p.host) ==> Print(p).rest == "/" + p.owner + "/" + p.repo + "/pull/" + Itoa(p.number)
    ensures !OnGitHub(p.host) ==> Print(p).rest == "/" + p.owner + "/" + p.repo + "/-/merge_requests/" + Itoa(p.number)
  {
    GitHubForms(p.host);
    hide Itoa, IsGitHubHost, OnGitHub;
    assert "/" + PULL + "/" == "/pull/";
    assert "/" + (DASH + "/" + MERGE) + "/" == "/-/merge_requests/";
  }

  lemma ReadForm(scheme: string, host: string, owner: string, repo: string, kind: seq<string>, n: nat)
    requires SameLetters(scheme, "https")
    requires owner != "" && owner[0] != '/' && '/' !in repo && Verbatim(owner) && Verbatim(repo)
    requires kind != [] && (forall k <- kind :: '/' !in k) && Verbatim(JoinWith(kind, '/'))
    ensures Parse(Url(scheme, host, "/" + owner + "/" + repo + "/" + JoinWith(kind, '/') + "/" + Itoa(n)))
      == FromSegments(host, Split(owner, '/') + [repo] + kind + [Itoa(n)])
  {
    hide Itoa, FromSegments, Split, JoinWith, TrimSlashes;
    var d, k := Itoa(n), JoinWith(kind, '/');
    var path := owner + "/" + repo + "/" + k + "/" + d;
    LowerIs(scheme, "https");
    ItoaEndsInDigit(n);
    ItoaIsVerbatim(n);
    PathIsVerbatim(owner, repo, k, d);
    assert "/" + path == "/" + owner + "/" + repo + "/" + k + "/" + d;
    ReadVerbatim("/" + path);
    hide ReadPath, Verbatim;
    ItoaThere(n);
    PathTrims(owner, repo, k, d);
    var segments := Split(owner, '/') + [repo] + kind + [d];
    JoinSplit(owner, '/');
    JoinAppend(Split(owner, '/') + [repo] + kind, [d], '/');
    JoinAppend(Split(owner, '/') + [repo], kind, '/');
    JoinAppend(Split(owner, '/'), [repo], '/');
    JoinShort(repo, "");
    JoinShort(d, "");
    assert JoinWith(segments, '/') == path;
    assert forall s <- segments :: '/' !in s;
    SplitJoin(segments, '/');
  }

  lemma ItoaThere(n: nat)
    ensures Itoa(n) != ""
  {
  }

  /** A path segment that names a repository, with or without the suffix a clone URL has. */
  predicate Names(name: string, repo: string) {
    name == repo + ".git" || (name == repo && !HasSuffix(repo, ".git"))
  }

  lemma NamesTrim(name: string, repo: string)
    requires Names(name, repo)
    ensures TrimSuffix(name, ".git") == repo
  {
  }

  /** A pull request URL is read as what it says, whatever the host. */
  lemma PullForm(scheme: string, host: string, owner: string, name: string, repo: string, n: nat)
    requires SameLetters(scheme, "https") && Names(name, repo)
    requires owner != "" && '/' !in owner && '/' !in name && Verbatim(owner) && Verbatim(name)
    ensures Parse(Url(scheme, host, "/" + owner + "/" + name + "/pull/" + Itoa(n)))
      == if 1 <= n <= MAX_INT64 then Some(Parts(host, owner, repo, n)) else None
  {
    hide Itoa, Split, JoinWith, Parse, Names, Verbatim;
    assert owner[0] in owner;
    var kind := ["pull"];
    JoinShort("pull", "");
    assert Verbatim("pull") by {
      PullVerbatim();
    }
    ReadForm(scheme, host, owner, name, kind, n);
    PullText("/" + owner + "/" + name, Itoa(n));
    OneSegment(owner);
    var segments := Split(owner, '/') + [name] + kind + [Itoa(n)];
    assert segments == [owner, name, "pull", Itoa(n)];
    ReadNumber(n);
    NamesTrim(name, repo);
  }

  lemma PullVerbatim()
    ensures Verbatim("pull") && Verbatim("-/merge_requests") && '/' !in "pull" && '/' !in "-" && '/' !in "merge_requests"
  {
  }

  lemma PullText(path: string, d: string)
    ensures path + "/" + "pull" + "/" + d == path + "/pull/" + d
    ensures path + "/" + "-/merge_requests" + "/" + d == path + "/-/merge_requests/" + d
  {
    assert path + "/" + "pull" + "/" == path + "/pull/";
    assert path + "/" + "-/merge_requests" + "/" == path + "/-/merge_requests/";
  }

  /** A merge request URL is read as what it says, its owner nested as deep as it likes, whatever the host. */
  lemma MergeForm(scheme: string, host: string, owner: string, name: string, repo: string, n: nat)
    requires SameLetters(scheme, "https") && Names(name, repo)
    requires owner != "" && owner[0] != '/' && '/' !in name && Verbatim(owner) && Verbatim(name)
    ensures Parse(Url(scheme, host, "/" + owner + "/" + name + "/-/merge_requests/" + Itoa(n)))
      == if 1 <= n <= MAX_INT64 then Some(Parts(host, owner, repo, n)) else None
  {
    hide Itoa, Split, JoinWith, Parse, Names, Verbatim;
    PullVerbatim();
    var kind := ["-", "merge_requests"];
    JoinShort("-", "merge_requests");
    assert "-" + "/" + "merge_requests" == "-/merge_requests";
    ReadForm(scheme, host, owner, name, kind, n);
    PullText("/" + owner + "/" + name, Itoa(n));
    JoinSplit(owner, '/');
    var o := Split(owner, '/');
    var segments := o + [name] + kind + [Itoa(n)];
    assert segments == o + [name, "-", "merge_requests", Itoa(n)];
    var m := |segments|;
    assert segments[m - 1] == Itoa(n) && segments[m - 2] == "merge_requests" && segments[m - 3] == "-" && segments[m - 4] == name;
    assert segments[..m - 4] == o;
    ReadNumber(n);
    NamesTrim(name, repo);
    MergeSegments(host, segments, owner, name, n);
  }

  lemma MergeSegments(host: string, segments: seq<string>, owner: string, name: string, n: nat)
    requires var m := |segments|;
      && m >= 5 && segments[m - 1] == Itoa(n) && segments[m - 2] == "merge_requests" && segments[m - 3] == "-"
      && segments[m - 4] == name && JoinWith(segments[..m - 4], '/') == owner
    ensures FromSegments(host, segments)
      == if 1 <= n <= MAX_INT64 then Some(Parts(host, owner, TrimSuffix(name, ".git"), n)) else None
  {
    hide Itoa, JoinWith, TrimSuffix;
    ReadNumber(n);
  }
}
