/** `parseGitHubUrl`: an `owner/repo` pair from either the short form
    `owner/repo` or a `github.com` URL. The URL parser is a parameter. */
module GitHubUrl {
  import opened Results
  import opened Strings
  import opened Sequences

  datatype Repo = Repo(owner: string, repo: string)

  /** The two parts of a parsed URL the parser reads. */
  datatype UrlParts = UrlParts(hostname: string, pathname: string)

  /** `replace(/\.git$/, '')`: one `.git` at the very end is removed. */
  function StripGit(s: string): (r: string)
    ensures EndsWith(s, ".git") ==> s == r + ".git"
    ensures !EndsWith(s, ".git") ==> r == s
  {
    if EndsWith(s, ".git") then s[..|s| - 4] else s
  }

  /** Only one suffix is removed: whatever precedes it is kept, `.git` included. */
  lemma StripGitOnce(s: string)
    ensures StripGit(s + ".git") == s
  {
    assert EndsWith(s + ".git", ".git");
  }

  function NonEmpty(p: string): bool {
    p != ""
  }

  /** The non-empty `/`-separated segments of a path (`split('/').filter(p => p)`). */
  function Segments(path: string): (r: seq<string>)
    ensures forall i :: 0 <= i < |r| ==> r[i] != "" && '/' !in r[i]
  {
    FilterMembers(Split(path, '/'), NonEmpty);
    Filter(Split(path, '/'), NonEmpty)
  }

  /** The short form: the input holds a `/` and does not start with `http`. */
  predicate IsShortForm(trimmed: string) {
    '/' in trimmed && !StartsWith(trimmed, "http")
  }

  /** `parseGitHubUrl`. The input is trimmed first. The short form always gives
      a pair: the text before the first `/`, and the text after it up to the
      next `/` without a trailing `.git`. Otherwise the text must parse as a
      URL whose host is exactly `github.com` and whose path has at least two
      non-empty segments: the first two give the pair. Anything else gives
      nothing. */
  function ParseGitHubUrl(input: string, parseUrl: string -> Option<UrlParts>): (r: Option<Repo>)
    ensures var trimmed := Trim(input);
            IsShortForm(trimmed) ==>
              var k := IndexOf(trimmed, '/');
              var rest := trimmed[k + 1..];
              r == Some(Repo(trimmed[..k], StripGit(if '/' in rest then rest[..IndexOf(rest, '/')] else rest)))
    ensures var trimmed := Trim(input);
            !IsShortForm(trimmed) ==>
              (r.Some? <==> parseUrl(trimmed).Some? && parseUrl(trimmed).value.hostname == "github.com"
                            && |Segments(parseUrl(trimmed).value.pathname)| >= 2)
    ensures var trimmed := Trim(input);
            !IsShortForm(trimmed) && r.Some? ==>
              var segs := Segments(parseUrl(trimmed).value.pathname);
              r.value == Repo(segs[0], StripGit(segs[1]))
  {
    var trimmed := Trim(input);
    if IsShortForm(trimmed) then
      var parts := Split(trimmed, '/');
      SplitSecond(trimmed, '/');
      Some(Repo(parts[0], StripGit(parts[1])))
    else
      match parseUrl(trimmed)
      case None => None
      case Some(url) =>
        if url.hostname != "github.com" then None
        else
          var segs := Segments(url.pathname);
          if |segs| >= 2 then Some(Repo(segs[0], StripGit(segs[1]))) else None
  }

  /** Only the trimmed input matters. */
  lemma TrimmedFirst(input: string, parseUrl: string -> Option<UrlParts>)
    ensures ParseGitHubUrl(input, parseUrl) == ParseGitHubUrl(Trim(input), parseUrl)
  {
    TrimIdempotent(input);
  }

  /** Text without a `/` that is not a `github.com` URL gives nothing. */
  lemma NoSlashNoUrl(input: string, parseUrl: string -> Option<UrlParts>)
    requires '/' !in Trim(input)
    requires parseUrl(Trim(input)).None? || parseUrl(Trim(input)).value.hostname != "github.com"
    ensures ParseGitHubUrl(input, parseUrl).None?
  {
  }

  /** Text that is already trimmed and in the short form: the first two split pieces. */
  lemma ShortFormPieces(s: string, parseUrl: string -> Option<UrlParts>)
    requires |s| > 0 ==> !IsSpace(s[0]) && !IsSpace(s[|s| - 1])
    requires IsShortForm(s)
    ensures |Split(s, '/')| >= 2
    ensures ParseGitHubUrl(s, parseUrl) == Some(Repo(Split(s, '/')[0], StripGit(Split(s, '/')[1])))
  {
    TrimNoOp(s);
  }

  /** An owner that holds no `/` and does not start with `http` keeps the text in the short form. */
  lemma OwnerNotHttp(owner: string, rest: string)
    requires '/' !in owner && !StartsWith(owner, "http")
    ensures !StartsWith(owner + "/" + rest, "http")
  {
    var s := owner + "/" + rest;
    if |owner| >= 4 {
      assert s[..4] == owner[..4];
    } else {
      assert s[|owner|] == '/';
    }
  }

  /** A repository name keeps a `.git` that is not at its end. */
  lemma InnerGitKept(owner: string, repo: string, parseUrl: string -> Option<UrlParts>)
    requires owner != "" && '/' !in owner && '/' !in repo && !EndsWith(repo, ".git")
    requires !StartsWith(owner, "http") && !IsSpace(owner[0])
    requires |repo| > 0 ==> !IsSpace(repo[|repo| - 1])
    ensures ParseGitHubUrl(owner + "/" + repo, parseUrl) == Some(Repo(owner, repo))
  {
    var s := owner + "/" + repo;
    assert !IsSpace(s[0]) && !IsSpace(s[|s| - 1]) by {
      if |repo| == 0 {
        assert s[|s| - 1] == '/';
      }
    }
    assert !StartsWith(s, "http") by {
      OwnerNotHttp(owner, repo);
    }
    assert Split(s, '/')[0] == owner && Split(s, '/')[1] == repo by {
      SplitAfter(owner, '/', repo);
      assert Split(repo, '/') == [repo];
    }
    ShortFormPieces(s, parseUrl);
  }

  /** The short form reads the first two pieces; anything after a second `/` is ignored. */
  lemma ShortFormFirstTwo(owner: string, repo: string, tail: string, parseUrl: string -> Option<UrlParts>)
    requires owner != "" && '/' !in owner && '/' !in repo
    requires !StartsWith(owner, "http") && !IsSpace(owner[0])
    requires |tail| > 0 ==> !IsSpace(tail[|tail| - 1])
    ensures ParseGitHubUrl(owner + "/" + repo + "/" + tail, parseUrl) == Some(Repo(owner, StripGit(repo)))
  {
    var s := owner + "/" + repo + "/" + tail;
    assert !IsSpace(s[0]) && !IsSpace(s[|s| - 1]) by {
      if |tail| == 0 {
        assert s[|s| - 1] == '/';
      }
    }
    assert !StartsWith(s, "http") by {
      assert s == owner + "/" + (repo + "/" + tail);
      OwnerNotHttp(owner, repo + "/" + tail);
    }
    assert Split(s, '/')[0] == owner && Split(s, '/')[1] == repo by {
      assert s == owner + "/" + (repo + "/" + tail);
      SplitAfter(owner, '/', repo + "/" + tail);
      SplitAfter(repo, '/', tail);
    }
    ShortFormPieces(s, parseUrl);
  }

  /** The pieces of `/owner/repo`. */
  lemma SplitPath(owner: string, repo: string)
    requires '/' !in owner && '/' !in repo
    ensures Split("/" + owner + "/" + repo, '/') == ["", owner, repo]
  {
    assert "/" + owner + "/" + repo == "" + "/" + (owner + "/" + repo);
    SplitAfter("", '/', owner + "/" + repo);
    SplitAfter(owner, '/', repo);
    assert Split(repo, '/') == [repo];
  }

  /** A path `/owner/repo` has exactly the two segments. */
  lemma TwoSegments(owner: string, repo: string)
    requires owner != "" && repo != "" && '/' !in owner && '/' !in repo
    ensures Segments("/" + owner + "/" + repo) == [owner, repo]
  {
    SplitPath(owner, repo);
    DropEmptyHead(owner, repo);
  }

  /** Filtering `["", owner, repo]` drops the empty head only. */
  lemma DropEmptyHead(owner: string, repo: string)
    requires owner != "" && repo != ""
    ensures Filter(["", owner, repo], NonEmpty) == [owner, repo]
  {
    FilterThree("", owner, repo, NonEmpty);
  }

  /** An already trimmed URL whose host is `github.com`: the first two path segments. */
  lemma UrlPieces(url: string, path: string, parseUrl: string -> Option<UrlParts>)
    requires StartsWith(url, "http") && !IsSpace(url[0]) && !IsSpace(url[|url| - 1])
    requires parseUrl(url) == Some(UrlParts("github.com", path))
    requires |Segments(path)| >= 2
    ensures ParseGitHubUrl(url, parseUrl) == Some(Repo(Segments(path)[0], StripGit(Segments(path)[1])))
  {
    TrimNoOp(url);
  }

  /** A URL whose host is `github.com` and whose path is `/owner/repo`. */
  lemma UrlForm(url: string, path: string, owner: string, repo: string, parseUrl: string -> Option<UrlParts>)
    requires StartsWith(url, "http") && !IsSpace(url[0]) && !IsSpace(url[|url| - 1])
    requires owner != "" && repo != "" && '/' !in owner && '/' !in repo
    requires path == "/" + owner + "/" + repo
    requires parseUrl(url) == Some(UrlParts("github.com", path))
    ensures ParseGitHubUrl(url, parseUrl) == Some(Repo(owner, StripGit(repo)))
  {
    TwoSegments(owner, repo);
    UrlPieces(url, path, parseUrl);
  }

  /** A host other than `github.com` gives nothing, whatever the path. */
  lemma OtherHost(url: string, host: string, path: string, parseUrl: string -> Option<UrlParts>)
    requires StartsWith(url, "http") && !IsSpace(url[0]) && !IsSpace(url[|url| - 1])
    requires host != "github.com"
    requires parseUrl(url) == Some(UrlParts(host, path))
    ensures ParseGitHubUrl(url, parseUrl) == None
  {
    TrimNoOp(url);
  }

  /** The short form written out as one string. */
  lemma ShortInstance(s: string, owner: string, repo: string, parseUrl: string -> Option<UrlParts>)
    requires s == owner + "/" + repo
    requires owner != "" && '/' !in owner && '/' !in repo && !EndsWith(repo, ".git")
    requires !StartsWith(owner, "http") && !IsSpace(owner[0])
    requires |repo| > 0 ==> !IsSpace(repo[|repo| - 1])
    ensures ParseGitHubUrl(s, parseUrl) == Some(Repo(owner, repo))
  {
    InnerGitKept(owner, repo, parseUrl);
  }

  /** The short example `facebook/react`. */
  lemma ShortExample(input: string, parseUrl: string -> Option<UrlParts>)
    requires input == "facebook/react"
    ensures ParseGitHubUrl(input, parseUrl) == Some(Repo("facebook", "react"))
  {
    NotHttp("facebook");
    NotGit("react");
    ShortInstance(input, "facebook", "react", parseUrl);
  }

  /** The example URLs start with the scheme and carry no surrounding white space. */
  lemma ExampleUrl(url: string)
    requires |url| > 8 && url[..8] == "https://" && url[|url| - 1] in "tk"
    ensures StartsWith(url, "http") && !IsSpace(url[0]) && !IsSpace(url[|url| - 1])
  {
    assert url[..4] == url[..8][..4];
  }

  /** The URL example, given that the URL parser splits it the usual way. */
  lemma UrlExample(url: string, parseUrl: string -> Option<UrlParts>)
    requires url == "https://github.com/facebook/react"
    requires parseUrl(url) == Some(UrlParts("github.com", "/facebook/react"))
    ensures ParseGitHubUrl(url, parseUrl) == Some(Repo("facebook", "react"))
  {
    NotGit("react");
    ExampleUrl(url);
    UrlForm(url, "/facebook/react", "facebook", "react", parseUrl);
  }

  /** The URL example with `.git`, given that the URL parser splits it the usual way. */
  lemma UrlGitExample(url: string, parseUrl: string -> Option<UrlParts>)
    requires url == "https://github.com/facebook/react.git"
    requires parseUrl(url) == Some(UrlParts("github.com", "/facebook/react.git"))
    ensures ParseGitHubUrl(url, parseUrl) == Some(Repo("facebook", "react"))
  {
    StripReactGit();
    ExampleUrl(url);
    UrlForm(url, "/facebook/react.git", "facebook", "react.git", parseUrl);
  }

  /** `react.git` loses its suffix. */
  lemma StripReactGit()
    ensures StripGit("react.git") == "react"
  {
    assert "react.git" == "react" + ".git";
    StripGitOnce("react");
  }

  /** Words of the examples that do not start with `http`. */
  lemma NotHttp(w: string)
    requires |w| >= 4 && w[0] != 'h'
    ensures !StartsWith(w, "http")
  {
    assert w[..4][0] == w[0];
  }

  /** Words of the examples that do not end with `.git`. */
  lemma NotGit(w: string)
    requires |w| >= 4 && w[|w| - 4] != '.'
    ensures !EndsWith(w, ".git") && StripGit(w) == w
  {
    assert w[|w| - 4..][0] == w[|w| - 4];
  }

  /** The short form with a third piece, written out as one string. */
  lemma ShortInstanceThree(s: string, owner: string, repo: string, tail: string, parseUrl: string -> Option<UrlParts>)
    requires s == owner + "/" + repo + "/" + tail
    requires owner != "" && '/' !in owner && '/' !in repo && !EndsWith(repo, ".git")
    requires !StartsWith(owner, "http") && !IsSpace(owner[0])
    requires |tail| > 0 ==> !IsSpace(tail[|tail| - 1])
    ensures ParseGitHubUrl(s, parseUrl) == Some(Repo(owner, repo))
  {
    ShortFormFirstTwo(owner, repo, tail, parseUrl);
  }

  /** A URL typed without its scheme takes the short-form branch: the host is read as the owner. */
  lemma SchemelessUrl(input: string, parseUrl: string -> Option<UrlParts>)
    requires input == "github.com/facebook/react"
    ensures ParseGitHubUrl(input, parseUrl) == Some(Repo("github.com", "facebook"))
  {
    NotHttp("github.com");
    NotGit("facebook");
    ShortInstanceThree(input, "github.com", "facebook", "react", parseUrl);
  }
}
