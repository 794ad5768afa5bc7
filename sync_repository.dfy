/**
 * The per-repository reconciliation: reading the backup markers of a
 * destination repository's description, labelling it, folding the ref
 * changelog into the refs to push and delete, and the gates before mirroring.
 * A new backup is created by BackupNewRepo.
 *
 * Destination repositories are Gitea repositories with their topic cache.
 * URL parsing with the path cleared (`url.Parse`, `Path = ""`, `String()`) is
 * the parameter `urlKey`. The answers of the hosting APIs, of the diff
 * library and of the git transport are oracle parameters.
 */
module SyncRepository {
  import opened Wrappers
  import opened Strings
  import opened Constants
  import opened Repository
  import Config
  import opened GitHub
  import opened Gitea

  /** url.Parse, the path cleared, turned back to a string: the authority key of a URL. */
  type UrlKey = string -> Result<string, string>

  /** The markers a description carries. */
  datatype RepositoryState = RepositoryState(isBackup: bool, ignore: bool)

  /** The source of a backup: its URL, and the index of the source host serving it if one does. */
  datatype RepositorySource = RepositorySource(host: Option<nat>, source: string)

  /** What findRepositorySource returns, with the source mapping it leaves. */
  datatype Resolution<R> = Resolution(source: Option<RepositorySource>, state: RepositoryState, mapping: map<string, R>)

  /** The source URL of a backup description: both markers removed, then the spaces around. */
  function SourceUrlOf(desc: string): string
  {
    TrimSpace(RemoveAll(RemoveAll(desc, BackupPrefix), IgnorePrefix))
  }

  /** findRepositorySource */
  function FindRepositorySource<R>(desc: string, repo: R, sourcesByPrefix: map<string, nat>,
                                   sourceMapping: map<string, R>, urlKey: UrlKey): (res: Resolution<R>)
    ensures res.state == RepositoryState(Contains(desc, BackupPrefix), Contains(desc, IgnorePrefix))
    ensures res.source.Some? <==>
              res.state.isBackup && SourceUrlOf(desc) != "" && urlKey(SourceUrlOf(desc)).Success?
    ensures res.source.Some? ==>
              var key := urlKey(SourceUrlOf(desc)).value;
              && res.source.value.source == SourceUrlOf(desc)
              && res.source.value.host == (if key in sourcesByPrefix then Some(sourcesByPrefix[key]) else None)
    ensures res.mapping == if res.source.Some? && res.source.value.host.Some?
                           then sourceMapping[SourceUrlOf(desc) := repo] else sourceMapping
  {
    var state := RepositoryState(Contains(desc, BackupPrefix), Contains(desc, IgnorePrefix));
    if !state.isBackup then Resolution(None, state, sourceMapping)
    else
      var sourceUrl := SourceUrlOf(desc);
      if sourceUrl == "" then Resolution(None, state, sourceMapping)
      else match urlKey(sourceUrl)
        case Failure(_) => Resolution(None, state, sourceMapping)
        case Success(key) =>
          if key in sourcesByPrefix then
            Resolution(Some(RepositorySource(Some(sourcesByPrefix[key]), sourceUrl)), state, sourceMapping[sourceUrl := repo])
          else
            Resolution(Some(RepositorySource(None, sourceUrl)), state, sourceMapping)
  }

  /** Without the backup marker there is no source, whatever else the description holds. */
  lemma IgnoreMarkerAloneIsNoBackup<R>(url: string, repo: R, sourcesByPrefix: map<string, nat>,
                                       sourceMapping: map<string, R>, urlKey: UrlKey)
    requires !Contains(url, BackupPrefix)
    ensures var desc := IgnorePrefix + " " + url;
            var res := FindRepositorySource(desc, repo, sourcesByPrefix, sourceMapping, urlKey);
            && res.source.None? && res.state == RepositoryState(false, true) && res.mapping == sourceMapping
  {
    IgnoreDescriptionMarkers(url);
  }

  /** `[ignore] url` carries the ignore marker and, when the URL lacks it, not the backup marker. */
  lemma IgnoreDescriptionMarkers(url: string)
    requires !Contains(url, BackupPrefix)
    ensures !Contains(IgnorePrefix + " " + url, BackupPrefix)
    ensures Contains(IgnorePrefix + " " + url, IgnorePrefix)
  {
    var desc := IgnorePrefix + " " + url;
    assert desc[1..] == "ignore] " + url;
    ContainsAfterPrefixWithout("ignore] ", url, BackupPrefix);
    assert !HasPrefix(desc, BackupPrefix) by {
      assert desc[1] != BackupPrefix[1];
    }
    assert HasPrefix(desc, IgnorePrefix) by {
      assert desc[..|IgnorePrefix|] == IgnorePrefix;
    }
  }

  /** The description BackupNewRepo gives a new backup: `[backup] <url>`. */
  function BackupDescription(url: string): string
  {
    BackupPrefix + " " + url
  }

  /**
   * A description made by BackupDescription starts with the backup marker,
   * and reads back as the trimmed URL when the URL holds neither marker.
   */
  lemma BackupDescriptionRoundTrip(url: string)
    requires !Contains(url, BackupPrefix) && !Contains(url, IgnorePrefix)
    ensures HasPrefix(BackupDescription(url), BackupPrefix)
    ensures Contains(BackupDescription(url), BackupPrefix) && !Contains(BackupDescription(url), IgnorePrefix)
    ensures SourceUrlOf(BackupDescription(url)) == TrimSpace(url)
  {
    BackupDescriptionMarkers(url);
    BackupDescriptionSource(url);
  }

  lemma BackupDescriptionMarkers(url: string)
    requires !Contains(url, IgnorePrefix)
    ensures HasPrefix(BackupDescription(url), BackupPrefix)
    ensures Contains(BackupDescription(url), BackupPrefix) && !Contains(BackupDescription(url), IgnorePrefix)
  {
    var desc := BackupDescription(url);
    assert desc == BackupPrefix + (" " + url);
    PrefixThenTrim(BackupPrefix, " " + url);
    assert desc[1..] == "backup] " + url;
    ContainsAfterPrefixWithout("backup] ", url, IgnorePrefix);
    assert !HasPrefix(desc, IgnorePrefix) by {
      assert desc[1] != IgnorePrefix[1];
    }
  }

  lemma BackupDescriptionSource(url: string)
    requires !Contains(url, BackupPrefix) && !Contains(url, IgnorePrefix)
    ensures SourceUrlOf(BackupDescription(url)) == TrimSpace(url)
  {
    var rest := " " + url;
    assert BackupDescription(url) == BackupPrefix + rest;
    RemoveAllLeading(BackupPrefix, rest);
    ContainsAfterPrefixWithout(" ", url, BackupPrefix);
    ContainsAfterPrefixWithout(" ", url, IgnorePrefix);
    assert RemoveAll(rest, BackupPrefix) == rest;
    assert RemoveAll(rest, IgnorePrefix) == rest;
    assert rest == [' '] + url;
    TrimSpaceSkipsLeadingSpace(' ', url);
  }

  /**
   * The variant in sync/sync.go returns the same source and state without
   * recording a mapping: neither depends on the mapping passed in.
   */
  lemma ResolutionIndependentOfMapping<R>(desc: string, repo: R, sourcesByPrefix: map<string, nat>,
                                          m1: map<string, R>, m2: map<string, R>, urlKey: UrlKey)
    ensures FindRepositorySource(desc, repo, sourcesByPrefix, m1, urlKey).source
            == FindRepositorySource(desc, repo, sourcesByPrefix, m2, urlKey).source
    ensures FindRepositorySource(desc, repo, sourcesByPrefix, m1, urlKey).state
            == FindRepositorySource(desc, repo, sourcesByPrefix, m2, urlKey).state
  {
  }

  /** The labels ensureLabel wants on a repository: the one to add, then the one to remove. */
  datatype LabelPlan = LabelPlan(add: string, remove: string)

  /** ensureLabel's decision, on a description prefix (not on the isBackup flag). */
  function PlanLabels(desc: string): (p: LabelPlan)
    ensures p.add != p.remove
    ensures {p.add, p.remove} == {BackupLabel, PrivateLabel}
    ensures p.add == BackupLabel <==> HasPrefix(desc, BackupPrefix)
  {
    if HasPrefix(desc, BackupPrefix) then LabelPlan(BackupLabel, PrivateLabel) else LabelPlan(PrivateLabel, BackupLabel)
  }

  /**
   * A backup marker later in the description makes the repository a backup
   * for the source lookup, but it is still labelled private.
   */
  lemma MarkerInsideDescriptionIsLabelledPrivate()
    ensures Contains("mirror " + BackupPrefix, BackupPrefix)
    ensures PlanLabels("mirror " + BackupPrefix) == LabelPlan(PrivateLabel, BackupLabel)
  {
    var desc := "mirror " + BackupPrefix;
    assert desc[0] != BackupPrefix[0];
    PrefixThenTrim(BackupPrefix, "");
    assert BackupPrefix + "" == BackupPrefix;
    ContainsAfterPrefixWithout("mirror ", BackupPrefix, BackupPrefix);
    assert BackupPrefix == "[backup]";
    assert HasPrefix(BackupPrefix, BackupPrefix);
  }

  /**
   * ensureLabel on a topic cache: add the wanted label, then remove the other;
   * the first error is returned without attempting the removal.
   */
  function EnsureLabelStep(c: TopicCache, desc: string, dryRun: bool, api: TopicApi): (s: Step)
    ensures var p, a := PlanLabels(desc), Add(c, PlanLabels(desc).add, dryRun, api);
            && (a.err.Some? ==> s == a)
            && (a.err.None? ==> var r := Remove(a.cache, p.remove, dryRun, api);
                                s == Step(r.cache, r.err, a.calls + r.calls))
            && (s.err.None? ==> p.add in s.cache.topics && p.remove !in s.cache.topics)
            && s.cache.topics - {p.add, p.remove} == Fetch(c, api).cache.topics - {p.add, p.remove}
  {
    var p := PlanLabels(desc);
    var a := Add(c, p.add, dryRun, api);
    if a.err.Some? then a
    else
      var r := Remove(a.cache, p.remove, dryRun, api);
      assert Fetch(a.cache, api).cache == a.cache;
      Step(r.cache, r.err, a.calls + r.calls)
  }

  /**
   * Labelling is idempotent: once it succeeded, running it again changes
   * nothing and makes no add or delete call.
   */
  lemma EnsureLabelIdempotent(c: TopicCache, desc: string, dryRun: bool, api: TopicApi)
    requires EnsureLabelStep(c, desc, dryRun, api).err.None?
    ensures var s1 := EnsureLabelStep(c, desc, dryRun, api);
            var s2 := EnsureLabelStep(s1.cache, desc, dryRun, api);
            && s2.cache == s1.cache && s2.err.None?
            && forall i :: 0 <= i < |s2.calls| ==> s2.calls[i] == ListTopics
  {
    var p := PlanLabels(desc);
    var s1 := EnsureLabelStep(c, desc, dryRun, api);
    assert Fetch(s1.cache, api).cache == s1.cache;
    var a2 := Add(s1.cache, p.add, dryRun, api);
    assert a2.cache == s1.cache;
    assert Fetch(a2.cache, api).cache == s1.cache;
  }

  /** ensureLabel on a Gitea repository; `isBackup` is not consulted. */
  method EnsureLabel(repo: GiteaRepository, isBackup: bool, dryRun: bool, api: TopicApi) returns (err: Option<string>)
    modifies repo
    ensures var s := EnsureLabelStep(old(repo.Cache()), repo.description, dryRun, api);
            repo.Cache() == s.cache && err == s.err && repo.calls == old(repo.calls) + s.calls
  {
    var p := PlanLabels(repo.description);
    err := repo.AddLabel(p.add, dryRun, api);
    if err.Some? {
      return;
    }
    err := repo.RemoveLabel(p.remove, dryRun, api);
  }

  /**
   * One entry of the changelog the diff library produces between the
   * destination and the source ref lists. An update carries the short name of
   * the destination ref at its path; a creation or deletion carries the
   * qualified name of the ref.
   */
  datatype Change = Delete(refName: string) | Update(name: string) | Create(refName: string)

  /** The name a change is filed under by the fold. */
  function KeyOf(c: Change): string
  {
    match c
    case Delete(n) => n
    case Update(n) => n
    case Create(n) => n
  }

  /** The names some update or creation marks changed. */
  function ChangedNames(cl: seq<Change>): set<string>
  {
    set i | 0 <= i < |cl| && !cl[i].Delete? :: KeyOf(cl[i])
  }

  /** The names some deletion marks, and no update or creation does, anywhere in the changelog. */
  function DeletedNames(cl: seq<Change>): set<string>
  {
    (set i | 0 <= i < |cl| && cl[i].Delete? :: KeyOf(cl[i])) - ChangedNames(cl)
  }

  lemma NamesStep(cl: seq<Change>, c: Change)
    ensures ChangedNames(cl + [c]) == ChangedNames(cl) + (if c.Delete? then {} else {KeyOf(c)})
    ensures DeletedNames(cl + [c]) ==
              if c.Delete? then (if KeyOf(c) in ChangedNames(cl) then DeletedNames(cl) else DeletedNames(cl) + {KeyOf(c)})
              else DeletedNames(cl) - {KeyOf(c)}
  {
    var cl' := cl + [c];
    assert forall i :: 0 <= i < |cl| ==> cl'[i] == cl[i];
    assert cl'[|cl|] == c;
    var candidates := set i | 0 <= i < |cl| && cl[i].Delete? :: KeyOf(cl[i]);
    var candidates' := set i | 0 <= i < |cl'| && cl'[i].Delete? :: KeyOf(cl'[i]);
    assert candidates' == candidates + (if c.Delete? then {KeyOf(c)} else {});
  }

  /**
   * The fold of processRepo over the changelog: the changed set and the
   * deleted set it builds are the reference sets, hence disjoint.
   */
  method FoldChangelog(changelog: seq<Change>) returns (changedRefSet: set<string>, deletedRefSet: set<string>)
    ensures changedRefSet == ChangedNames(changelog)
    ensures deletedRefSet == DeletedNames(changelog)
    ensures changedRefSet !! deletedRefSet
  {
    changedRefSet, deletedRefSet := {}, {};
    for i := 0 to |changelog|
      invariant changedRefSet == ChangedNames(changelog[..i])
      invariant deletedRefSet == DeletedNames(changelog[..i])
    {
      assert changelog[..i + 1] == changelog[..i] + [changelog[i]];
      NamesStep(changelog[..i], changelog[i]);
      match changelog[i]
      case Delete(name) =>
        if name !in changedRefSet {
          deletedRefSet := deletedRefSet + {name};
        }
      case Update(name) =>
        changedRefSet := changedRefSet + {name};
        deletedRefSet := deletedRefSet - {name};
      case Create(name) =>
        changedRefSet := changedRefSet + {name};
        deletedRefSet := deletedRefSet - {name};
    }
    assert changelog[..|changelog|] == changelog;
  }

  /** A name marked changed stays changed and is never marked deleted by later entries. */
  lemma ChangedNeverLaterDeleted(a: seq<Change>, b: seq<Change>)
    ensures ChangedNames(a) <= ChangedNames(a + b)
    ensures ChangedNames(a) !! DeletedNames(a + b)
  {
    forall n | n in ChangedNames(a) ensures n in ChangedNames(a + b) {
      var i :| 0 <= i < |a| && !a[i].Delete? && KeyOf(a[i]) == n;
      assert (a + b)[i] == a[i];
    }
  }

  /** A non-empty changelog always leaves something to push or delete. */
  lemma NonEmptyChangelogHasWork(cl: seq<Change>)
    requires |cl| > 0
    ensures ChangedNames(cl) != {} || DeletedNames(cl) != {}
  {
    assert KeyOf(cl[0]) in ChangedNames(cl) + DeletedNames(cl);
  }

  /**
   * Updates are filed under the short name and deletions under the qualified
   * one, so the two never cancel out: a deleted `refs/heads/main` followed by
   * an update of `main` leaves both marked.
   */
  lemma UpdateKeysByShortName()
    ensures var cl := [Delete("refs/heads/main"), Update("main")];
            ChangedNames(cl) == {"main"} && DeletedNames(cl) == {"refs/heads/main"}
  {
    var cl := [Delete("refs/heads/main"), Update("main")];
    NamesStep([], Delete("refs/heads/main"));
    NamesStep([Delete("refs/heads/main")], Update("main"));
    assert [] + [Delete("refs/heads/main")] == [Delete("refs/heads/main")];
    assert [Delete("refs/heads/main")] + [Update("main")] == cl;
    assert "main" != "refs/heads/main" by { assert |"main"| != |"refs/heads/main"|; }
  }

  /** `l` lists the elements of `s`, each once. */
  ghost predicate Lists(l: seq<string>, s: set<string>)
  {
    && |l| == |s|
    && (forall i :: 0 <= i < |l| ==> l[i] in s)
    && (forall x :: x in s ==> x in l)
    && (forall i, j :: 0 <= i < j < |l| ==> l[i] != l[j])
  }

  /** maps.Keys of a set-valued map: its keys in some order. */
  method KeysOf(s: set<string>) returns (l: seq<string>)
    ensures Lists(l, s)
  {
    l := [];
    var remaining := s;
    while remaining != {}
      invariant remaining <= s
      invariant |l| + |remaining| == |s|
      invariant forall i :: 0 <= i < |l| ==> l[i] in s && l[i] !in remaining
      invariant forall x :: x in s && x !in remaining ==> x in l
      invariant forall i, j :: 0 <= i < j < |l| ==> l[i] != l[j]
      decreases remaining
    {
      var k :| k in remaining;
      l := l + [k];
      remaining := remaining - {k};
    }
  }

  /** The refspecs to push: each changed name, then `:name` for each deleted one. */
  function Refspecs(changed: seq<string>, deleted: seq<string>): (r: seq<string>)
    ensures |r| == |changed| + |deleted|
  {
    changed + seq(|deleted|, i requires 0 <= i < |deleted| => ":" + deleted[i])
  }

  /** Reads a refspec list back: pushes, and the names after a leading ':'. */
  function SplitRefspecs(specs: seq<string>): (seq<string>, seq<string>)
  {
    if specs == [] then ([], [])
    else
      var (p, d) := SplitRefspecs(specs[1..]);
      if HasPrefix(specs[0], ":") then (p, [TrimPrefix(specs[0], ":")] + d) else ([specs[0]] + p, d)
  }

  /** The refspecs read back as the changed and deleted names, when no changed name starts with ':'. */
  lemma {:induction false} RefspecsRoundTrip(changed: seq<string>, deleted: seq<string>)
    requires forall i :: 0 <= i < |changed| ==> !HasPrefix(changed[i], ":")
    ensures SplitRefspecs(Refspecs(changed, deleted)) == (changed, deleted)
    decreases |changed| + |deleted|
  {
    var r := Refspecs(changed, deleted);
    if changed != [] {
      assert r[1..] == Refspecs(changed[1..], deleted);
      RefspecsRoundTrip(changed[1..], deleted);
      assert [changed[0]] + changed[1..] == changed;
    } else if deleted != [] {
      assert r[0] == ":" + deleted[0];
      PrefixThenTrim(":", deleted[0]);
      assert r[1..] == Refspecs([], deleted[1..]);
      RefspecsRoundTrip([], deleted[1..]);
      assert [deleted[0]] + deleted[1..] == deleted;
    } else {
      assert r == [];
    }
  }

  /** The refspec loops of mirrorRefs. */
  method BuildRefspecs(changedRefs: seq<string>, deletedRefs: seq<string>) returns (refspecs: seq<string>)
    ensures refspecs == Refspecs(changedRefs, deletedRefs)
  {
    refspecs := [];
    for i := 0 to |changedRefs|
      invariant refspecs == changedRefs[..i]
    {
      assert changedRefs[..i + 1] == changedRefs[..i] + [changedRefs[i]];
      refspecs := refspecs + [changedRefs[i]];
    }
    assert changedRefs[..|changedRefs|] == changedRefs;
    for i := 0 to |deletedRefs|
      invariant refspecs == Refspecs(changedRefs, deletedRefs[..i])
    {
      assert Refspecs(changedRefs, deletedRefs[..i + 1]) == Refspecs(changedRefs, deletedRefs[..i]) + [":" + deletedRefs[i]];
      refspecs := refspecs + [":" + deletedRefs[i]];
    }
    assert deletedRefs[..|deletedRefs|] == deletedRefs;
  }

  /**
   * The git transport's answers: the first error of cloning the source and
   * setting up the destination remote, and the push's error.
   */
  datatype Transfer = Transfer(setup: Option<string>, push: Option<string>)

  /** mirrorRefs: after the setup, the refspecs are pushed. `pushed` is what was pushed. */
  method MirrorRefs(changedRefs: seq<string>, deletedRefs: seq<string>, transfer: Transfer)
    returns (err: Option<string>, ghost pushed: Option<seq<string>>)
    ensures transfer.setup.Some? ==> err == transfer.setup && pushed.None?
    ensures transfer.setup.None? ==> err == transfer.push && pushed == Some(Refspecs(changedRefs, deletedRefs))
  {
    if transfer.setup.Some? {
      return transfer.setup, None;
    }
    var refspecs := BuildRefspecs(changedRefs, deletedRefs);
    return transfer.push, Some(refspecs);
  }

  /** The answers the hosts, the diff library and git give while one repository is processed. */
  datatype RepoAnswers = RepoAnswers(
    getRepository: Option<string>,
    sourceRefs: Result<seq<Ref>, string>,
    destRefs: Result<seq<Ref>, string>,
    changelog: Result<seq<Change>, string>,
    transfer: Transfer)

  const NotImplemented: string := "not implemented"

  /**
   * GetRepositoryByUrl of the source host: a GitHub host splits the URL and
   * asks the API; a Gitea host does not implement the lookup.
   */
  function GetRepositoryByUrl(host: Config.Host, url: string, getError: Option<string>): (r: Result<RepositoryPath, string>)
    ensures host.hostType != Config.GitHubType ==> r == Failure(NotImplemented)
    ensures host.hostType == Config.GitHubType ==>
              (r.Success? <==> SplitRepositoryUrl(url, host.baseUrl).Success? && getError.None?)
    ensures r.Success? ==> r.value == SplitRepositoryUrl(url, host.baseUrl).value
  {
    if host.hostType != Config.GitHubType then Failure(NotImplemented)
    else match SplitRepositoryUrl(url, host.baseUrl)
      case Failure(e) => Failure(e)
      case Success(path) => if getError.Some? then Failure(getError.value) else Success(path)
  }

  /** The changelog answer once the source repository and both ref lists are in hand. */
  function FetchChangelog(host: Config.Host, url: string, answers: RepoAnswers): (r: Result<seq<Change>, string>)
    ensures r.Success? <==>
              && GetRepositoryByUrl(host, url, answers.getRepository).Success?
              && answers.sourceRefs.Success? && answers.destRefs.Success? && answers.changelog.Success?
    ensures r.Success? ==> r == answers.changelog
  {
    match GetRepositoryByUrl(host, url, answers.getRepository)
    case Failure(e) => Failure("Failed getting repository from source host: " + e)
    case Success(_) =>
      if answers.sourceRefs.Failure? then Failure("Failed getting source repository refs: " + answers.sourceRefs.error)
      else if answers.destRefs.Failure? then Failure("Failed getting destination repository refs: " + answers.destRefs.error)
      else if answers.changelog.Failure? then Failure("Comparison error: " + answers.changelog.error)
      else answers.changelog
  }

  /** There is something to push or delete. */
  predicate HasWork(cl: seq<Change>)
  {
    ChangedNames(cl) != {} || DeletedNames(cl) != {}
  }

  /**
   * The part of processRepo after the source host is known: fetch the
   * changelog, fold it, and mirror unless there is nothing to do or dry-run is on.
   */
  method SyncFromSource(host: Config.Host, url: string, answers: RepoAnswers, dryRun: bool)
    returns (err: Option<string>, ghost pushed: Option<seq<string>>, ghost changedOrder: seq<string>, ghost deletedOrder: seq<string>)
    ensures var cl := FetchChangelog(host, url, answers);
            && (cl.Failure? ==> err == Some(cl.error) && pushed.None?)
            && (cl.Success? && (!HasWork(cl.value) || dryRun) ==> err.None? && pushed.None?)
            && (cl.Success? && HasWork(cl.value) && !dryRun ==>
                  && Lists(changedOrder, ChangedNames(cl.value))
                  && Lists(deletedOrder, DeletedNames(cl.value))
                  && (answers.transfer.setup.Some? ==> err == answers.transfer.setup && pushed.None?)
                  && (answers.transfer.setup.None? ==>
                        err == answers.transfer.push && pushed == Some(Refspecs(changedOrder, deletedOrder))))
  {
    changedOrder, deletedOrder := [], [];
    var changelog := FetchChangelog(host, url, answers);
    if changelog.Failure? {
      return Some(changelog.error), None, [], [];
    }
    var changedRefSet, deletedRefSet := FoldChangelog(changelog.value);
    if |changedRefSet| == 0 && |deletedRefSet| == 0 {
      return None, None, [], [];
    }
    if dryRun {
      return None, None, [], [];
    }
    var changedRefs := KeysOf(changedRefSet);
    var deletedRefs := KeysOf(deletedRefSet);
    changedOrder, deletedOrder := changedRefs, deletedRefs;
    err, pushed := MirrorRefs(changedRefs, deletedRefs, answers.transfer);
  }

  /** The source was found on a known host and the repository is not ignored. */
  predicate Mirrorable(res: Resolution<GiteaRepository>)
  {
    res.source.Some? && res.source.value.host.Some? && !res.state.ignore
  }

  /**
   * processRepo: resolve the source (recording it in the mapping), label the
   * repository, and go on to the source only when a source host was found
   * and the repository is not ignored.
   */
  method ProcessRepo(destRepo: GiteaRepository, sourcesByPrefix: map<string, nat>,
                     sourceMapping: map<string, GiteaRepository>, hosts: seq<Config.Host>,
                     answers: RepoAnswers, api: TopicApi, dryRun: bool, urlKey: UrlKey)
    returns (err: Option<string>, newMapping: map<string, GiteaRepository>, ghost pushed: Option<seq<string>>,
             ghost changedOrder: seq<string>, ghost deletedOrder: seq<string>)
    requires forall k :: k in sourcesByPrefix ==> sourcesByPrefix[k] < |hosts|
    modifies destRepo
    ensures var res := FindRepositorySource(destRepo.description, destRepo, sourcesByPrefix, sourceMapping, urlKey);
            newMapping == res.mapping
    ensures var lab := EnsureLabelStep(old(destRepo.Cache()), destRepo.description, dryRun, api);
            destRepo.Cache() == lab.cache && destRepo.calls == old(destRepo.calls) + lab.calls
    ensures var lab := EnsureLabelStep(old(destRepo.Cache()), destRepo.description, dryRun, api);
            lab.err.Some? ==> err == lab.err && pushed.None?
    ensures var res := FindRepositorySource(destRepo.description, destRepo, sourcesByPrefix, sourceMapping, urlKey);
            !Mirrorable(res) ==> err == EnsureLabelStep(old(destRepo.Cache()), destRepo.description, dryRun, api).err && pushed.None?
    ensures var res := FindRepositorySource(destRepo.description, destRepo, sourcesByPrefix, sourceMapping, urlKey);
            var lab := EnsureLabelStep(old(destRepo.Cache()), destRepo.description, dryRun, api);
            pushed.Some? ==>
              && lab.err.None? && Mirrorable(res) && !dryRun
              && var cl := FetchChangelog(hosts[res.source.value.host.value], res.source.value.source, answers);
                 cl.Success? && HasWork(cl.value) && answers.transfer.setup.None? && err == answers.transfer.push
    ensures var res := FindRepositorySource(destRepo.description, destRepo, sourcesByPrefix, sourceMapping, urlKey);
            var lab := EnsureLabelStep(old(destRepo.Cache()), destRepo.description, dryRun, api);
            lab.err.None? && Mirrorable(res) ==>
              var cl := FetchChangelog(hosts[res.source.value.host.value], res.source.value.source, answers);
              && (cl.Failure? ==> err == Some(cl.error) && pushed.None?)
              && (cl.Success? && (!HasWork(cl.value) || dryRun) ==> err.None? && pushed.None?)
              && (cl.Success? && HasWork(cl.value) && !dryRun ==>
                    && Lists(changedOrder, ChangedNames(cl.value))
                    && Lists(deletedOrder, DeletedNames(cl.value))
                    && (answers.transfer.setup.Some? ==> err == answers.transfer.setup && pushed.None?)
                    && (answers.transfer.setup.None? ==>
                          err == answers.transfer.push && pushed == Some(Refspecs(changedOrder, deletedOrder))))
  {
    var res := FindRepositorySource(destRepo.description, destRepo, sourcesByPrefix, sourceMapping, urlKey);
    newMapping := res.mapping;
    pushed, changedOrder, deletedOrder := None, [], [];
    err := EnsureLabel(destRepo, res.state.isBackup, dryRun, api);
    if err.Some? {
      return;
    }
    if res.source.None? || res.source.value.host.None? {
      return None, newMapping, None, [], [];
    }
    if res.state.ignore {
      return None, newMapping, None, [], [];
    }
    var host := hosts[res.source.value.host.value];
    err, pushed, changedOrder, deletedOrder := SyncFromSource(host, res.source.value.source, answers, dryRun);
  }

  /** The qualified names of a ref list, in order. */
  function RefNames(refs: seq<Ref>): (names: seq<string>)
    ensures |names| == |refs| && forall i :: 0 <= i < |refs| ==> names[i] == refs[i].refName
  {
    seq(|refs|, i requires 0 <= i < |refs| => refs[i].refName)
  }

  method CollectRefNames(refs: seq<Ref>) returns (allRefs: seq<string>)
    ensures allRefs == RefNames(refs)
  {
    allRefs := [];
    for i := 0 to |refs|
      invariant allRefs == RefNames(refs[..i])
    {
      allRefs := allRefs + [refs[i].refName];
    }
    assert refs[..|refs|] == refs;
  }

  /** Mirroring every source ref with no deletion pushes exactly the qualified names, in order. */
  lemma FullMirrorPushesRefNames(refs: seq<Ref>)
    ensures Refspecs(RefNames(refs), []) == RefNames(refs)
    ensures forall i :: 0 <= i < |refs| ==> Refspecs(RefNames(refs), [])[i] == refs[i].refName
  {
    assert Refspecs(RefNames(refs), []) == RefNames(refs) + [];
  }

  /**
   * backupNewRepo: under dry-run nothing is created. Otherwise a repository
   * named after the source is created with the backup description, labelled,
   * and every source ref is mirrored to it with no deletion.
   */
  method BackupNewRepo(sourceName: string, sourceUrl: string, createError: Option<string>,
                       sourceRefs: Result<seq<Ref>, string>, api: TopicApi, transfer: Transfer, dryRun: bool)
    returns (err: Option<string>, ghost created: Option<GiteaRepository>, ghost pushed: Option<seq<string>>)
    ensures dryRun ==> err.None? && created.None? && pushed.None?
    ensures !dryRun && createError.Some? ==> err == Some("Failed creating repository: " + createError.value) && created.None?
    ensures !dryRun && createError.None? ==> created.Some?
    ensures created.Some? ==>
              && fresh(created.value)
              && created.value.name == sourceName && created.value.description == BackupDescription(sourceUrl)
              && created.value.Cache() == EnsureLabelStep(TopicCache({}, false), BackupDescription(sourceUrl), false, api).cache
    ensures var lab := EnsureLabelStep(TopicCache({}, false), BackupDescription(sourceUrl), false, api);
            created.Some? && lab.err.Some? ==> err == Some("Error ensuring labels: " + lab.err.value) && pushed.None?
    ensures created.Some? && sourceRefs.Failure? ==> pushed.None? && err.Some?
    ensures var lab := EnsureLabelStep(TopicCache({}, false), BackupDescription(sourceUrl), false, api);
            created.Some? && lab.err.None? && sourceRefs.Failure? ==>
              err == Some("Failed getting source refs: " + sourceRefs.error)
    ensures var lab := EnsureLabelStep(TopicCache({}, false), BackupDescription(sourceUrl), false, api);
            created.Some? && lab.err.None? && sourceRefs.Success? ==>
              && (transfer.setup.Some? ==> err == transfer.setup && pushed.None?)
              && (transfer.setup.None? ==> pushed == Some(RefNames(sourceRefs.value)) && err == transfer.push)
    ensures pushed.Some? ==>
              && !dryRun && created.Some? && sourceRefs.Success? && transfer.setup.None?
              && pushed.value == RefNames(sourceRefs.value) && err == transfer.push
  {
    created, pushed := None, None;
    if dryRun {
      return None, None, None;
    }
    if createError.Some? {
      return Some("Failed creating repository: " + createError.value), None, None;
    }
    var destRepo := new GiteaRepository(sourceName, BackupDescription(sourceUrl));
    created := Some(destRepo);
    err := EnsureLabel(destRepo, true, false, api);
    if err.Some? {
      return Some("Error ensuring labels: " + err.value), created, None;
    }
    if sourceRefs.Failure? {
      return Some("Failed getting source refs: " + sourceRefs.error), created, None;
    }
    var allRefs := CollectRefNames(sourceRefs.value);
    FullMirrorPushesRefNames(sourceRefs.value);
    err, pushed := MirrorRefs(allRefs, [], transfer);
  }

  /** A new backup is labelled as a backup, whatever its URL. */
  lemma NewBackupIsLabelledBackup(url: string)
    ensures PlanLabels(BackupDescription(url)) == LabelPlan(BackupLabel, PrivateLabel)
  {
    assert BackupDescription(url) == BackupPrefix + (" " + url);
    PrefixThenTrim(BackupPrefix, " " + url);
  }
}
