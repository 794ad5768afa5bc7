/**
 * Host configuration: validation, defaulting and environment substitution of
 * each configured host, applied in place to the host list. The process
 * environment is a map parameter.
 */
module Config {
  import opened Wrappers
  import opened Strings

  const GitHubType: string := "github"
  const GiteaType: string := "gitea"
  const DefaultGitHubBaseUrl: string := "https://github.com"

  /** One configured host, as read from the configuration file. */
  datatype Host = Host(name: string, hostType: string, baseUrl: string, token: string, usage: string)

  /** Why a host was rejected. `MissingEnvVar` carries the `$`-reference as written. */
  datatype ConfigError =
    | MissingHostType
    | InvalidHostType(hostType: string)
    | MissingGiteaBaseUrl
    | MissingToken
    | MissingEnvVar(reference: string)

  type Env = map<string, string>

  /**
   * readEnvVar: a value starting with `$` names an environment variable and is
   * replaced by its value, or is an error when the variable is unset; any
   * other value is kept. The replacement is not looked at again.
   */
  function ReadEnvVar(val: string, env: Env): (r: Result<string, ConfigError>)
    ensures !HasPrefix(val, "$") ==> r == Success(val)
    ensures HasPrefix(val, "$") ==> (r.Success? <==> val[1..] in env)
    ensures HasPrefix(val, "$") && r.Success? ==> r.value == env[val[1..]]
    ensures r.Failure? ==> r.error == MissingEnvVar(val)
  {
    if HasPrefix(val, "$") then
      var name := TrimPrefix(val, "$");
      if name in env then Success(env[name]) else Failure(MissingEnvVar(val))
    else
      Success(val)
  }

  /** Substitution is single-level: a value that is itself a reference stays as it is. */
  lemma ReadEnvVarIsSingleLevel()
    ensures ReadEnvVar("$A", map["A" := "$B", "B" := "x"]) == Success("$B")
  {
    assert TrimPrefix("$A", "$") == "A";
  }

  /**
   * The host after `massageConfig`, with the error it returned. On an error
   * the host keeps whatever updates were made before the failing step.
   */
  datatype Massaged = Massaged(host: Host, error: Option<ConfigError>)

  predicate ValidType(t: string)
  {
    t == GitHubType || t == GiteaType
  }

  /** The base URL after defaulting: the public GitHub URL for a github host left empty. */
  function DefaultedBase(host: Host): string
  {
    if host.hostType == GitHubType && host.baseUrl == "" then DefaultGitHubBaseUrl else host.baseUrl
  }

  /** Host.massageConfig, step by step on a value. */
  function Massage(host: Host, env: Env): (m: Massaged)
    ensures m.host.usage == host.usage && m.host.hostType == host.hostType
    ensures m.error == Some(MissingHostType) <==> host.hostType == ""
    ensures m.error.None? <==>
              && ValidType(host.hostType)
              && DefaultedBase(host) != ""
              && host.token != ""
              && ReadEnvVar(host.token, env).Success?
              && ReadEnvVar(DefaultedBase(host), env).Success?
    ensures m.error.None? ==> m.host.name != ""
    ensures m.error.None? ==> m.host.name == (if host.name == "" then host.hostType else host.name)
    ensures m.error.None? ==> m.host.token == ReadEnvVar(host.token, env).value
    ensures m.error.None? ==> m.host.baseUrl == ReadEnvVar(DefaultedBase(host), env).value
  {
    if host.hostType == "" then Massaged(host, Some(MissingHostType))
    else if !ValidType(host.hostType) then Massaged(host, Some(InvalidHostType(host.hostType)))
    else if host.hostType == GiteaType && host.baseUrl == "" then Massaged(host, Some(MissingGiteaBaseUrl))
    else
      var h1 := host.(baseUrl := DefaultedBase(host));
      var h2 := if h1.name == "" then h1.(name := h1.hostType) else h1;
      if h2.token == "" then Massaged(h2, Some(MissingToken))
      else
        match ReadEnvVar(h2.token, env)
        case Failure(e) => Massaged(h2, Some(e))
        case Success(token) =>
          var h3 := h2.(token := token);
          match ReadEnvVar(h3.baseUrl, env)
          case Failure(e) => Massaged(h3, Some(e))
          case Success(base) => Massaged(h3.(baseUrl := base), None)
  }

  /** A missing or unknown type is reported with the host untouched. */
  lemma TypeIsCheckedFirst(host: Host, env: Env)
    requires !ValidType(host.hostType)
    ensures Massage(host, env).host == host
    ensures Massage(host, env).error ==
              Some(if host.hostType == "" then MissingHostType else InvalidHostType(host.hostType))
  {
  }

  /** A gitea host needs a base URL; a github host gets the public one. */
  lemma EmptyBaseUrl(host: Host, env: Env)
    requires host.baseUrl == "" && ValidType(host.hostType)
    ensures host.hostType == GiteaType ==> Massage(host, env) == Massaged(host, Some(MissingGiteaBaseUrl))
    ensures host.hostType == GitHubType && Massage(host, env).error.None? ==> Massage(host, env).host.baseUrl == DefaultGitHubBaseUrl
  {
    assert DefaultGitHubBaseUrl[..1] == "h";
    assert ReadEnvVar(DefaultGitHubBaseUrl, env) == Success(DefaultGitHubBaseUrl);
  }

  /**
   * An empty token is reported before substitution is attempted: the error is
   * `MissingToken` whatever the environment holds, and the host keeps its
   * defaulted base and name.
   */
  lemma EmptyTokenBeforeSubstitution(host: Host, env: Env)
    requires ValidType(host.hostType) && DefaultedBase(host) != "" && host.token == ""
    ensures Massage(host, env).error == Some(MissingToken)
    ensures Massage(host, env).host.baseUrl == DefaultedBase(host)
    ensures Massage(host, env).host.name != ""
  {
  }

  /**
   * The token is substituted before the base URL: when both references are
   * unset, the token's is reported, and the base URL is still as defaulted.
   */
  lemma TokenSubstitutedBeforeBase(name: string, usage: string)
    ensures var host := Host(name, GiteaType, "$BASE", "$TOKEN", usage);
            Massage(host, map[]) == Massaged(host.(name := if name == "" then GiteaType else name), Some(MissingEnvVar("$TOKEN")))
  {
    assert HasPrefix("$TOKEN", "$");
  }

  /**
   * A `$VAR` base URL is substituted after defaulting, so a github host whose
   * variable is empty ends up with an empty base URL, not the public one.
   */
  lemma DollarBaseBypassesDefault(token: string)
    requires token != "" && !HasPrefix(token, "$")
    ensures var host := Host("gh", GitHubType, "$BASE", token, "source");
            Massage(host, map["BASE" := ""]) == Massaged(host.(baseUrl := ""), None)
  {
    assert HasPrefix("$BASE", "$") && TrimPrefix("$BASE", "$") == "BASE";
  }

  /** The configured hosts, updated in place as the Go slice of structs is. */
  class Config {
    const hosts: array<Host>

    constructor(hs: seq<Host>)
      ensures fresh(hosts) && hosts[..] == hs
    {
      hosts := new Host[|hs|](i requires 0 <= i < |hs| => hs[i]);
    }

    /** Host.massageConfig on `hosts[i]`, writing each step through to the slot. */
    method MassageHost(i: nat, env: Env) returns (err: Option<ConfigError>)
      requires i < hosts.Length
      modifies hosts
      ensures hosts[i] == Massage(old(hosts[i]), env).host
      ensures err == Massage(old(hosts[i]), env).error
      ensures forall j :: 0 <= j < hosts.Length && j != i ==> hosts[j] == old(hosts[j])
    {
      var host := hosts[i];
      if host.hostType == "" {
        return Some(MissingHostType);
      }
      if host.hostType != GitHubType && host.hostType != GiteaType {
        return Some(InvalidHostType(host.hostType));
      }
      if host.hostType == GitHubType {
        if host.baseUrl == "" {
          hosts[i] := hosts[i].(baseUrl := DefaultGitHubBaseUrl);
        }
      } else if host.hostType == GiteaType {
        if host.baseUrl == "" {
          return Some(MissingGiteaBaseUrl);
        }
      }
      if hosts[i].name == "" {
        hosts[i] := hosts[i].(name := hosts[i].hostType);
      }
      if hosts[i].token == "" {
        return Some(MissingToken);
      }
      var token := ReadEnvVar(hosts[i].token, env);
      if token.Failure? {
        return Some(token.error);
      }
      hosts[i] := hosts[i].(token := token.value);
      var base := ReadEnvVar(hosts[i].baseUrl, env);
      if base.Failure? {
        return Some(base.error);
      }
      hosts[i] := hosts[i].(baseUrl := base.value);
      return None;
    }

    /**
     * Config.massageConfig: hosts are massaged in index order up to the first
     * failure, which is returned; the failing host keeps its partial updates
     * and the hosts after it are untouched.
     */
    method MassageConfig(env: Env) returns (err: Option<ConfigError>, ghost failedAt: nat)
      modifies hosts
      ensures err.None? ==> forall j :: 0 <= j < hosts.Length ==>
                Massage(old(hosts[j]), env).error.None? && hosts[j] == Massage(old(hosts[j]), env).host
      ensures err.Some? ==> failedAt < hosts.Length && err == Massage(old(hosts[failedAt]), env).error
      ensures err.Some? ==> hosts[failedAt] == Massage(old(hosts[failedAt]), env).host
      ensures err.Some? ==> forall j :: 0 <= j < failedAt ==>
                Massage(old(hosts[j]), env).error.None? && hosts[j] == Massage(old(hosts[j]), env).host
      ensures err.Some? ==> forall j :: failedAt < j < hosts.Length ==> hosts[j] == old(hosts[j])
    {
      failedAt := 0;
      for i := 0 to hosts.Length
        invariant forall j :: 0 <= j < i ==>
                    Massage(old(hosts[j]), env).error.None? && hosts[j] == Massage(old(hosts[j]), env).host
        invariant forall j :: i <= j < hosts.Length ==> hosts[j] == old(hosts[j])
      {
        err := MassageHost(i, env);
        if err.Some? {
          failedAt := i;
          return;
        }
      }
      err := None;
    }
  }
}
