/**
 * The GitHub client's two pieces of string logic: the check on the configured
 * base URL made before any network call, and the split of a repository URL
 * into owner and name.
 */
module GitHub {
  import opened Wrappers
  import opened Strings
  import Config

  const PublicGitHubUrl: string := "https://github.com"
  const UnsupportedHostError: string := "GHES not supported yet"
  const InvalidUrlError: string := "invalid repository url for this host"

  /**
   * The guard of NewGitHubClient: only an empty base URL or one starting with
   * the public GitHub URL is accepted.
   */
  function ValidateBaseUrl(baseUrl: string): (r: Option<string>)
    ensures r.Some? ==> r.value == UnsupportedHostError
  {
    if baseUrl != "" && !HasPrefix(baseUrl, PublicGitHubUrl) then Some(UnsupportedHostError) else None
  }

  /**
   * After configuration, a github host whose base URL is not an environment
   * reference reaches the client with a base URL the guard accepts exactly
   * when the configured one was empty or started with the public URL.
   */
  lemma MassagedHostPassesGuard(host: Config.Host, env: Config.Env)
    requires Config.Massage(host, env).error.None?
    requires host.hostType == Config.GitHubType && !HasPrefix(host.baseUrl, "$")
    ensures ValidateBaseUrl(Config.Massage(host, env).host.baseUrl).None?
            <==> (host.baseUrl == "" || HasPrefix(host.baseUrl, PublicGitHubUrl))
  {
    var base := Config.Massage(host, env).host.baseUrl;
    if host.baseUrl == "" {
      assert PublicGitHubUrl[..1] == "h";
      assert base == PublicGitHubUrl;
      assert HasPrefix(base, PublicGitHubUrl);
    } else {
      assert base == host.baseUrl;
    }
  }

  /** The guard tests a prefix only: a host name that merely begins like github.com passes. */
  lemma GuardIsAPrefixTest()
    ensures ValidateBaseUrl("https://github.com.example.org").None?
    ensures ValidateBaseUrl("https://gitea.example.org").Some?
  {
    assert "https://github.com.example.org"[..|PublicGitHubUrl|] == PublicGitHubUrl;
    assert "https://gitea.example.org"[12] != PublicGitHubUrl[12];
  }

  /** The owner and name a repository URL designates. */
  datatype RepositoryPath = RepositoryPath(owner: string, name: string)

  /** The part of the URL GetRepositoryByUrl splits: the base removed, then every leading '/'. */
  function RepositoryPart(url: string, baseUrl: string): string
  {
    TrimLeftChar(TrimPrefix(url, baseUrl), '/')
  }

  /**
   * The split of GetRepositoryByUrl. It succeeds exactly when the rest of the
   * URL holds one '/', and then gives back that rest around its '/', with a
   * non-empty owner.
   */
  function SplitRepositoryUrl(url: string, baseUrl: string): (r: Result<RepositoryPath, string>)
    ensures r.Success? <==> CountChar(RepositoryPart(url, baseUrl), '/') == 1
    ensures r.Success? ==> r.value.owner + "/" + r.value.name == RepositoryPart(url, baseUrl)
    ensures r.Success? ==> '/' !in r.value.owner && '/' !in r.value.name && r.value.owner != ""
    ensures r.Failure? ==> r.error == InvalidUrlError
  {
    var t := RepositoryPart(url, baseUrl);
    var parts := SplitN(t, '/', 3);
    SplitInTwoIffOneSeparator(t, parts);
    if |parts| != 2 then Failure(InvalidUrlError)
    else
      assert t == parts[0] + "/" + parts[1];
      Success(RepositoryPath(parts[0], parts[1]))
  }

  lemma SplitInTwoIffOneSeparator(t: string, parts: seq<string>)
    requires parts == SplitN(t, '/', 3)
    ensures |parts| == 2 <==> CountChar(t, '/') == 1
    ensures |parts| == 2 ==> t == parts[0] + "/" + parts[1]
  {
    if |parts| == 1 {
      assert t == parts[0];
      CountCharZero(t, '/');
    } else if |parts| == 2 {
      assert parts[1..] == [parts[1]];
      assert t == parts[0] + "/" + parts[1];
      CountCharConcat(parts[0] + "/", parts[1], '/');
      CountCharConcat(parts[0], "/", '/');
      CountCharZero(parts[0], '/');
      CountCharZero(parts[1], '/');
    } else {
      var tail := Join(parts[1..], '/');
      assert parts[1..][1..] == [parts[2]];
      assert tail == parts[1] + "/" + parts[2];
      assert t == parts[0] + "/" + tail;
      CountCharConcat(parts[0] + "/", tail, '/');
      CountCharConcat(parts[0], "/", '/');
      CountCharConcat(parts[1] + "/", parts[2], '/');
      CountCharConcat(parts[1], "/", '/');
    }
  }

  /**
   * `base/owner/name` splits into that owner and name, including an empty
   * name: `base/org/` is accepted.
   */
  lemma AcceptsOwnerAndName(baseUrl: string, owner: string, name: string)
    requires owner != "" && '/' !in owner && '/' !in name
    ensures SplitRepositoryUrl(baseUrl + "/" + owner + "/" + name, baseUrl) == Success(RepositoryPath(owner, name))
  {
    var t := owner + "/" + name;
    assert baseUrl + "/" + owner + "/" + name == baseUrl + "/" + t;
    assert t[0] == owner[0];
    PartAfterBase(baseUrl, t);
    OneSeparator(owner, name);
    var r := SplitRepositoryUrl(baseUrl + "/" + t, baseUrl);
    SameSplit(r.value.owner, r.value.name, owner, name);
  }

  /** After the base and a '/', the part split is the rest when it does not start with '/'. */
  lemma PartAfterBase(baseUrl: string, t: string)
    requires t != [] && t[0] != '/'
    ensures RepositoryPart(baseUrl + "/" + t, baseUrl) == t
  {
    var rest := "/" + t;
    assert baseUrl + "/" + t == baseUrl + rest;
    PrefixThenTrim(baseUrl, rest);
    assert rest[1..] == t;
    assert TrimLeftChar(rest, '/') == TrimLeftChar(t, '/');
  }

  lemma OneSeparator(owner: string, name: string)
    requires '/' !in owner && '/' !in name
    ensures CountChar(owner + "/" + name, '/') == 1
  {
    CountCharConcat(owner + "/", name, '/');
    CountCharConcat(owner, "/", '/');
    CountCharZero(owner, '/');
    CountCharZero(name, '/');
  }

  /** Around a single '/', the two sides are determined. */
  lemma SameSplit(a: string, b: string, c: string, d: string)
    requires a + "/" + b == c + "/" + d
    requires '/' !in a && '/' !in c
    ensures a == c && b == d
  {
    var s := a + "/" + b;
    FirstSeparator(a, b);
    FirstSeparator(c, d);
    assert a == s[..|a|] == c;
    assert b == s[|a| + 1..] == d;
  }

  /** The first '/' of `a + "/" + b` is the one after `a`. */
  lemma FirstSeparator(a: string, b: string)
    requires '/' !in a
    ensures IndexOfChar(a + "/" + b, '/') == Some(|a|)
  {
    var s := a + "/" + b;
    assert s[|a|] == '/';
  }

  /**
   * A URL with more than two segments after the base is rejected; a trailing
   * slash after the name is the case `more == ""`.
   */
  lemma RejectsExtraSegments(baseUrl: string, owner: string, name: string, more: string)
    requires owner != "" && '/' !in owner
    ensures SplitRepositoryUrl(baseUrl + "/" + owner + "/" + name + "/" + more, baseUrl).Failure?
  {
    var t := owner + "/" + name + "/" + more;
    var rest := "/" + t;
    assert baseUrl + "/" + owner + "/" + name + "/" + more == baseUrl + rest;
    PrefixThenTrim(baseUrl, rest);
    assert rest[1..] == t;
    assert TrimLeftChar(rest, '/') == TrimLeftChar(t, '/');
    assert t[0] == owner[0];
    assert RepositoryPart(baseUrl + rest, baseUrl) == t;
    CountCharConcat(owner + "/" + name + "/", more, '/');
    CountCharConcat(owner + "/" + name, "/", '/');
    CountCharConcat(owner + "/", name, '/');
    CountCharConcat(owner, "/", '/');
  }

  /** A URL naming only an owner is rejected, and so is the bare base URL. */
  lemma RejectsOwnerOnly(baseUrl: string, owner: string)
    requires '/' !in owner
    ensures SplitRepositoryUrl(baseUrl + "/" + owner, baseUrl).Failure?
    ensures SplitRepositoryUrl(baseUrl, baseUrl).Failure?
  {
    if owner != "" {
      PartAfterBase(baseUrl, owner);
      CountCharZero(owner, '/');
    } else {
      PartAfterBaseAlone(baseUrl);
      assert baseUrl + "/" + owner == baseUrl + "/";
    }
    PartAfterBaseAlone(baseUrl);
  }

  /** The base URL alone, or followed by a single '/', leaves nothing to split. */
  lemma PartAfterBaseAlone(baseUrl: string)
    ensures RepositoryPart(baseUrl, baseUrl) == ""
    ensures RepositoryPart(baseUrl + "/", baseUrl) == ""
  {
    PrefixThenTrim(baseUrl, "");
    assert baseUrl + "" == baseUrl;
    PrefixThenTrim(baseUrl, "/");
  }
}
