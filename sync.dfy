/**
 * The top-level synchronisation: build the table of source hosts keyed by
 * the authority of their base URL, then process every backup destination in
 * turn, counting failures without stopping at them.
 */
module Sync {
  import opened Wrappers
  import Config
  import opened Gitea
  import opened SyncRepository

  const SourceUsage: string := "source"
  const BackupUsage: string := "backup"

  /** A repository of a destination host, with the answers it gets while it is processed. */
  datatype DestEntry = DestEntry(repo: GiteaRepository, api: TopicApi, answers: RepoAnswers)

  /** A configured host, with the answer its repository listing gets. */
  datatype Client = Client(config: Config.Host, repositories: Result<seq<DestEntry>, string>)

  function Configs(clients: seq<Client>): (hosts: seq<Config.Host>)
    ensures |hosts| == |clients| && forall i :: 0 <= i < |clients| ==> hosts[i] == clients[i].config
  {
    seq(|clients|, i requires 0 <= i < |clients| => clients[i].config)
  }

  /** A source host whose base URL does not parse. */
  predicate BadSource(host: Config.Host, urlKey: UrlKey)
  {
    host.usage == SourceUsage && urlKey(host.baseUrl).Failure?
  }

  /**
   * The prefix table of SyncHosts, host by host: each source host is filed
   * under its URL key, a later one replacing an earlier one; the first base
   * URL that does not parse is the error.
   */
  function PrefixTable(hosts: seq<Config.Host>, urlKey: UrlKey): (r: Result<map<string, nat>, string>)
    ensures r.Success? ==> forall k :: k in r.value ==> r.value[k] < |hosts|
  {
    if hosts == [] then Success(map[])
    else
      var last := |hosts| - 1;
      match PrefixTable(hosts[..last], urlKey)
      case Failure(e) => Failure(e)
      case Success(table) =>
        if hosts[last].usage != SourceUsage then Success(table)
        else match urlKey(hosts[last].baseUrl)
          case Failure(e) => Failure(e)
          case Success(key) => Success(table[key := last])
  }

  /** The table fails exactly on a source host whose base URL does not parse, with the first such error. */
  lemma {:induction false} PrefixTableFailure(hosts: seq<Config.Host>, urlKey: UrlKey)
    ensures PrefixTable(hosts, urlKey).Failure? <==> exists i :: 0 <= i < |hosts| && BadSource(hosts[i], urlKey)
    ensures PrefixTable(hosts, urlKey).Failure? ==>
              exists i :: 0 <= i < |hosts| && BadSource(hosts[i], urlKey)
                && PrefixTable(hosts, urlKey).error == urlKey(hosts[i].baseUrl).error
                && forall j :: 0 <= j < i ==> !BadSource(hosts[j], urlKey)
  {
    if hosts != [] {
      var last := |hosts| - 1;
      var init := hosts[..last];
      PrefixTableFailure(init, urlKey);
      assert forall i :: 0 <= i < last ==> init[i] == hosts[i];
      if PrefixTable(init, urlKey).Failure? {
        var i :| 0 <= i < |init| && BadSource(init[i], urlKey)
                 && PrefixTable(init, urlKey).error == urlKey(init[i].baseUrl).error
                 && forall j :: 0 <= j < i ==> !BadSource(init[j], urlKey);
        assert BadSource(hosts[i], urlKey);
      } else if BadSource(hosts[last], urlKey) {
        assert forall j :: 0 <= j < last ==> !BadSource(init[j], urlKey);
      } else {
        forall i | 0 <= i < |hosts| ensures !BadSource(hosts[i], urlKey) {
          if i < last {
            assert !BadSource(init[i], urlKey);
          }
        }
      }
    }
  }

  /** A source host filed under `key`. */
  predicate SourceWithKey(host: Config.Host, urlKey: UrlKey, key: string)
  {
    host.usage == SourceUsage && urlKey(host.baseUrl) == Success(key)
  }

  /**
   * The table holds only source hosts, each under its own URL key; every
   * source host's key is present; and the host filed is the last source with
   * that key.
   */
  lemma {:induction false} PrefixTableContents(hosts: seq<Config.Host>, urlKey: UrlKey)
    requires PrefixTable(hosts, urlKey).Success?
    ensures var t := PrefixTable(hosts, urlKey).value;
            && (forall k :: k in t ==> SourceWithKey(hosts[t[k]], urlKey, k))
            && (forall k :: k in t ==> forall j :: t[k] < j < |hosts| ==> !SourceWithKey(hosts[j], urlKey, k))
            && (forall i :: 0 <= i < |hosts| && hosts[i].usage == SourceUsage ==> urlKey(hosts[i].baseUrl).Success? && urlKey(hosts[i].baseUrl).value in t)
  {
    if hosts != [] {
      var last := |hosts| - 1;
      var init := hosts[..last];
      PrefixTableContents(init, urlKey);
      assert forall i :: 0 <= i < last ==> init[i] == hosts[i];
    }
  }

  /** A later source host with the same key replaces an earlier one. */
  lemma LaterSourceOverwrites(a: Config.Host, b: Config.Host, urlKey: UrlKey)
    requires a.usage == SourceUsage && b.usage == SourceUsage
    requires urlKey(a.baseUrl).Success? && urlKey(a.baseUrl) == urlKey(b.baseUrl)
    ensures PrefixTable([a, b], urlKey) == Success(map[urlKey(a.baseUrl).value := 1])
  {
    var k := urlKey(a.baseUrl).value;
    assert [a, b][..1] == [a];
    assert [a][..0] == [];
    assert PrefixTable([a], urlKey) == Success(map[k := 0]);
    assert map[k := 0][k := 1] == map[k := 1];
  }

  /** The prefix-table loop of SyncHosts. */
  method BuildPrefixTable(hosts: seq<Config.Host>, urlKey: UrlKey) returns (r: Result<map<string, nat>, string>)
    ensures r == PrefixTable(hosts, urlKey)
  {
    var prefixClients: map<string, nat> := map[];
    for i := 0 to |hosts|
      invariant PrefixTable(hosts[..i], urlKey) == Success(prefixClients)
    {
      assert hosts[..i + 1][..i] == hosts[..i];
      if hosts[i].usage != SourceUsage {
        continue;
      }
      var parsed := urlKey(hosts[i].baseUrl);
      if parsed.Failure? {
        PrefixTableFailure(hosts[..i + 1], urlKey);
        PrefixTableFailure(hosts, urlKey);
        assert BadSource(hosts[..i + 1][i], urlKey);
        assert forall j :: 0 <= j <= i ==> hosts[..i + 1][j] == hosts[j];
        FailurePersists(hosts, i + 1, urlKey);
        return Failure(parsed.error);
      }
      prefixClients := prefixClients[parsed.value := i];
    }
    assert hosts[..|hosts|] == hosts;
    return Success(prefixClients);
  }

  /** Once a prefix of the hosts fails, the whole list fails with the same error. */
  lemma {:induction false} FailurePersists(hosts: seq<Config.Host>, n: nat, urlKey: UrlKey)
    requires n <= |hosts| && PrefixTable(hosts[..n], urlKey).Failure?
    ensures PrefixTable(hosts, urlKey) == PrefixTable(hosts[..n], urlKey)
    decreases |hosts| - n
  {
    if n < |hosts| {
      assert hosts[..n + 1][..n] == hosts[..n];
      FailurePersists(hosts, n + 1, urlKey);
    } else {
      assert hosts[..n] == hosts;
    }
  }

  /** The repositories a destination listing holds. */
  function Repos(c: Client): set<GiteaRepository>
  {
    if c.repositories.Success? then set e | e in c.repositories.value :: e.repo else {}
  }

  function AllRepos(clients: seq<Client>): set<GiteaRepository>
  {
    set i, r | 0 <= i < |clients| && r in Repos(clients[i]) :: r
  }

  lemma ReposInAll(clients: seq<Client>, i: nat)
    requires i < |clients|
    ensures Repos(clients[i]) <= AllRepos(clients)
  {
    forall r | r in Repos(clients[i]) ensures r in AllRepos(clients) {
      assert 0 <= i < |clients| && r in Repos(clients[i]);
    }
  }

  /** A listing gives each repository its own object. */
  ghost predicate DistinctRepos(c: Client)
  {
    c.repositories.Success? ==>
      forall i, j :: 0 <= i < j < |c.repositories.value| ==> c.repositories.value[i].repo != c.repositories.value[j].repo
  }

  /** The number of failed outcomes: the error counter of processDestination and SyncHosts. */
  function Failures(outcomes: seq<Option<string>>): (n: nat)
    ensures n <= |outcomes|
  {
    if outcomes == [] then 0
    else Failures(outcomes[..|outcomes| - 1]) + (if outcomes[|outcomes| - 1].Some? then 1 else 0)
  }

  lemma FailuresAppend(outcomes: seq<Option<string>>, o: Option<string>)
    ensures Failures(outcomes + [o]) == Failures(outcomes) + (if o.Some? then 1 else 0)
  {
    assert (outcomes + [o])[..|outcomes|] == outcomes;
  }

  /** The counter is positive exactly when some outcome failed. */
  lemma {:induction false} FailuresPositive(outcomes: seq<Option<string>>)
    ensures Failures(outcomes) > 0 <==> exists j :: 0 <= j < |outcomes| && outcomes[j].Some?
  {
    if outcomes != [] {
      var init := outcomes[..|outcomes| - 1];
      FailuresPositive(init);
      assert forall j :: 0 <= j < |init| ==> init[j] == outcomes[j];
    }
  }

  /** The labelling step processRepo applies to a repository whose topic cache was `before`. */
  function LabelOf(e: DestEntry, before: TopicCache, dryRun: bool): Step
  {
    EnsureLabelStep(before, e.repo.description, dryRun, e.api)
  }

  /**
   * The repository of `e` went from topic cache `before` to `after` by the
   * labelling step, and `outcome` reports a labelling error.
   */
  predicate LabelledFrom(e: DestEntry, before: TopicCache, after: TopicCache, dryRun: bool, outcome: Option<string>)
  {
    var lab := LabelOf(e, before, dryRun);
    after == lab.cache && (lab.err.Some? ==> outcome == lab.err)
  }

  /** The repository of `e` now holds the cache the labelling step makes from `before`. */
  ghost predicate Labelled(e: DestEntry, before: TopicCache, dryRun: bool, outcome: Option<string>)
    reads e.repo
  {
    LabelledFrom(e, before, e.repo.Cache(), dryRun, outcome)
  }

  /**
   * What processDestination leaves for `dest`: a listing error is returned as
   * it is; otherwise every repository was labelled from its cache `before[i]`
   * to `after[i]`, with `outcomes` its processRepo errors, and "Some
   * repositories failed" is returned exactly when one of them failed
   * (`FailuresPositive`, `EntriesLabelledEach`).
   */
  predicate DestinationDone(dest: Client, dryRun: bool, err: Option<string>, before: seq<TopicCache>,
                            after: seq<TopicCache>, outcomes: seq<Option<string>>)
  {
    match dest.repositories
    case Failure(e) => err == Some(e) && outcomes == []
    case Success(entries) =>
      && |before| == |entries| && |after| == |entries| && |outcomes| == |entries|
      && (err.Some? <==> Failures(outcomes) > 0)
      && (err.Some? ==> err == Some("Some repositories failed"))
      && EntriesLabelled(entries, dryRun, before, after, outcomes)
  }

  /** `LabelledFrom` holds for each of the first |outcomes| entries. */
  predicate EntriesLabelled(entries: seq<DestEntry>, dryRun: bool, before: seq<TopicCache>,
                            after: seq<TopicCache>, outcomes: seq<Option<string>>)
    requires |after| == |outcomes| <= |entries| && |before| == |entries|
  {
    var n := |outcomes|;
    n == 0 ||
    (EntriesLabelled(entries, dryRun, before, after[..n - 1], outcomes[..n - 1]) &&
     LabelledFrom(entries[n - 1], before[n - 1], after[n - 1], dryRun, outcomes[n - 1]))
  }

  lemma EntriesLabelledExtend(entries: seq<DestEntry>, dryRun: bool, before: seq<TopicCache>,
                              after: seq<TopicCache>, outcomes: seq<Option<string>>, a: TopicCache, o: Option<string>)
    requires |after| == |outcomes| < |entries| && |before| == |entries|
    requires EntriesLabelled(entries, dryRun, before, after, outcomes)
    requires LabelledFrom(entries[|outcomes|], before[|outcomes|], a, dryRun, o)
    ensures EntriesLabelled(entries, dryRun, before, after + [a], outcomes + [o])
  {
    assert (after + [a])[..|after|] == after && (outcomes + [o])[..|outcomes|] == outcomes;
  }

  lemma {:induction false} EntriesLabelledEach(entries: seq<DestEntry>, dryRun: bool, before: seq<TopicCache>,
                                               after: seq<TopicCache>, outcomes: seq<Option<string>>)
    requires |after| == |outcomes| <= |entries| && |before| == |entries|
    requires EntriesLabelled(entries, dryRun, before, after, outcomes)
    ensures forall i :: 0 <= i < |outcomes| ==> LabelledFrom(entries[i], before[i], after[i], dryRun, outcomes[i])
  {
    var n := |outcomes|;
    if n > 0 {
      var afs, outs := after[..n - 1], outcomes[..n - 1];
      EntriesLabelledEach(entries, dryRun, before, afs, outs);
      forall i | 0 <= i < n
        ensures LabelledFrom(entries[i], before[i], after[i], dryRun, outcomes[i])
      {
        if i < n - 1 {
          assert after[i] == afs[i] && outcomes[i] == outs[i];
        }
      }
    }
  }

  /** The topic caches the repositories of `entries` hold, in order. */
  ghost function CachesOf(entries: seq<DestEntry>): (caches: seq<TopicCache>)
    reads set e | e in entries :: e.repo
    ensures |caches| == |entries|
    ensures forall i :: 0 <= i < |entries| ==> caches[i] == entries[i].repo.Cache()
  {
    if entries == [] then [] else [entries[0].repo.Cache()] + CachesOf(entries[1..])
  }

  /** `caches` are the topic caches the repositories of `dest` hold. */
  ghost predicate CachesAre(dest: Client, caches: seq<TopicCache>)
    reads Repos(dest)
  {
    if dest.repositories.Success? then
      |caches| == |dest.repositories.value| &&
      forall i :: 0 <= i < |caches| ==> caches[i] == dest.repositories.value[i].repo.Cache()
    else caches == []
  }

  /**
   * processDestination's loop after the first |outcomes| repositories: those
   * were labelled from their caches `before` to `after`, which they still
   * hold, and the others still hold their caches `before`.
   */
  ghost predicate EntriesProgress(entries: seq<DestEntry>, dryRun: bool, before: seq<TopicCache>,
                                  after: seq<TopicCache>, outcomes: seq<Option<string>>)
    reads set e | e in entries :: e.repo
  {
    && |after| == |outcomes| <= |entries| && |before| == |entries|
    && EntriesLabelled(entries, dryRun, before, after, outcomes)
    && (forall j :: 0 <= j < |after| ==> entries[j].repo.Cache() == after[j])
    && (forall j :: |after| <= j < |entries| ==> entries[j].repo.Cache() == before[j])
  }

  /** One iteration of processDestination's loop: processRepo on the next repository. */
  method ProcessEntry(entries: seq<DestEntry>, i: nat, sourcesByPrefix: map<string, nat>,
                      sourceMapping: map<string, GiteaRepository>, hosts: seq<Config.Host>, dryRun: bool,
                      urlKey: UrlKey, ghost before: seq<TopicCache>, ghost after: seq<TopicCache>,
                      ghost outcomes: seq<Option<string>>)
    returns (err: Option<string>, newMapping: map<string, GiteaRepository>, ghost after': seq<TopicCache>,
             ghost outcomes': seq<Option<string>>)
    requires forall k :: k in sourcesByPrefix ==> sourcesByPrefix[k] < |hosts|
    requires forall i, j :: 0 <= i < j < |entries| ==> entries[i].repo != entries[j].repo
    requires i == |outcomes| < |entries|
    requires EntriesProgress(entries, dryRun, before, after, outcomes)
    modifies entries[i].repo
    ensures outcomes' == outcomes + [err] && |after'| == |after| + 1
    ensures EntriesProgress(entries, dryRun, before, after', outcomes')
  {
    var entry := entries[i];
    ghost var pushed, changedOrder, deletedOrder;
    err, newMapping, pushed, changedOrder, deletedOrder :=
      ProcessRepo(entry.repo, sourcesByPrefix, sourceMapping, hosts, entry.answers, entry.api, dryRun, urlKey);
    assert Labelled(entry, before[i], dryRun, err);
    EntriesLabelledExtend(entries, dryRun, before, after, outcomes, entry.repo.Cache(), err);
    after', outcomes' := after + [entry.repo.Cache()], outcomes + [err];
    // The other repositories are distinct objects, so they keep their caches.
    forall j | 0 <= j < |entries| && j != i
      ensures entries[j].repo.Cache() == old(entries[j].repo.Cache())
    {
      assert entries[j].repo != entry.repo;
    }
  }

  /**
   * processDestination's loop over a listing: every repository is
   * processed in order, even after failures, each labelled from the cache it
   * had on entry; the counter is the number of failures. Each destination
   * starts an empty source mapping.
   */
  method ProcessEntries(entries: seq<DestEntry>, sourcesByPrefix: map<string, nat>, hosts: seq<Config.Host>,
                        dryRun: bool, urlKey: UrlKey)
    returns (errCount: nat, ghost before: seq<TopicCache>, ghost after: seq<TopicCache>,
             ghost outcomes: seq<Option<string>>)
    requires forall k :: k in sourcesByPrefix ==> sourcesByPrefix[k] < |hosts|
    requires forall i, j :: 0 <= i < j < |entries| ==> entries[i].repo != entries[j].repo
    modifies set e | e in entries :: e.repo
    ensures |before| == |entries| && |after| == |entries| && |outcomes| == |entries|
    ensures errCount == Failures(outcomes)
    ensures EntriesLabelled(entries, dryRun, before, after, outcomes)
    ensures forall i :: 0 <= i < |entries| ==>
              before[i] == old(entries[i].repo.Cache()) && after[i] == entries[i].repo.Cache()
  {
    before := CachesOf(entries);
    after, outcomes := [], [];
    var sourceMapping: map<string, GiteaRepository> := map[];
    errCount := 0;
    for i := 0 to |entries|
      invariant |outcomes| == i
      invariant errCount == Failures(outcomes)
      invariant EntriesProgress(entries, dryRun, before, after, outcomes)
    {
      var repoErr;
      ghost var outcomes0 := outcomes;
      repoErr, sourceMapping, after, outcomes :=
        ProcessEntry(entries, i, sourcesByPrefix, sourceMapping, hosts, dryRun, urlKey, before, after, outcomes);
      FailuresAppend(outcomes0, repoErr);
      if repoErr.Some? {
        errCount := errCount + 1;
      }
    }
  }

  /**
   * processDestination: a listing error is returned at once; otherwise the
   * listing goes through `ProcessEntries`, and "Some repositories failed" is
   * returned exactly when one repository failed.
   */
  method ProcessDestination(dest: Client, sourcesByPrefix: map<string, nat>, hosts: seq<Config.Host>,
                            dryRun: bool, urlKey: UrlKey)
    returns (err: Option<string>, ghost before: seq<TopicCache>, ghost after: seq<TopicCache>,
             ghost outcomes: seq<Option<string>>)
    requires forall k :: k in sourcesByPrefix ==> sourcesByPrefix[k] < |hosts|
    requires DistinctRepos(dest)
    modifies Repos(dest)
    ensures DestinationDone(dest, dryRun, err, before, after, outcomes)
    ensures old(CachesAre(dest, before)) && CachesAre(dest, after)
  {
    if dest.repositories.Failure? {
      return Some(dest.repositories.error), [], [], [];
    }
    var errCount;
    errCount, before, after, outcomes := ProcessEntries(dest.repositories.value, sourcesByPrefix, hosts, dryRun, urlKey);
    if errCount > 0 {
      return Some("Some repositories failed"), before, after, outcomes;
    }
    return None, before, after, outcomes;
  }

  /** Each listing yields its own repository objects, so no two hosts share one. */
  ghost predicate DisjointRepos(clients: seq<Client>)
  {
    forall i, j :: 0 <= i < j < |clients| ==> Repos(clients[i]) !! Repos(clients[j])
  }

  /** The ghost record of one host's processDestination run: caches before and after, and repository outcomes. */
  datatype Run = Run(before: seq<TopicCache>, after: seq<TopicCache>, outcomes: seq<Option<string>>)

  predicate IsBackup(c: Client)
  {
    c.config.usage == BackupUsage
  }

  /** A backup host was processed as `DestinationDone` says; any other host reports nothing and keeps its caches. */
  predicate HostDone(c: Client, dryRun: bool, err: Option<string>, run: Run)
  {
    if IsBackup(c) then DestinationDone(c, dryRun, err, run.before, run.after, run.outcomes)
    else err.None? && run.after == run.before
  }

  /** The topic caches of the repositories of `c`. */
  ghost function HostCaches(c: Client): (caches: seq<TopicCache>)
    reads Repos(c)
    ensures CachesAre(c, caches)
  {
    if c.repositories.Success? then CachesOf(c.repositories.value) else []
  }

  /** `HostDone` holds for each of the first |outcomes| hosts. */
  predicate HostsDone(clients: seq<Client>, dryRun: bool, outcomes: seq<Option<string>>, runs: seq<Run>)
    requires |runs| == |outcomes| <= |clients|
  {
    var n := |outcomes|;
    n == 0 ||
    (HostsDone(clients, dryRun, outcomes[..n - 1], runs[..n - 1]) &&
     HostDone(clients[n - 1], dryRun, outcomes[n - 1], runs[n - 1]))
  }

  lemma {:induction false} HostsDoneEach(clients: seq<Client>, dryRun: bool, outcomes: seq<Option<string>>,
                                         runs: seq<Run>)
    requires |runs| == |outcomes| <= |clients|
    requires HostsDone(clients, dryRun, outcomes, runs)
    ensures forall j :: 0 <= j < |outcomes| ==> HostDone(clients[j], dryRun, outcomes[j], runs[j])
  {
    var n := |outcomes|;
    if n > 0 {
      var outs, rs := outcomes[..n - 1], runs[..n - 1];
      HostsDoneEach(clients, dryRun, outs, rs);
      forall j | 0 <= j < n
        ensures HostDone(clients[j], dryRun, outcomes[j], runs[j])
      {
        if j < n - 1 {
          assert outcomes[j] == outs[j] && runs[j] == rs[j];
        }
      }
    }
  }

  lemma HostsDoneExtend(clients: seq<Client>, dryRun: bool, outcomes: seq<Option<string>>, runs: seq<Run>,
                        o: Option<string>, r: Run)
    requires |runs| == |outcomes| < |clients|
    requires HostsDone(clients, dryRun, outcomes, runs)
    requires HostDone(clients[|outcomes|], dryRun, o, r)
    ensures HostsDone(clients, dryRun, outcomes + [o], runs + [r])
  {
    assert (outcomes + [o])[..|outcomes|] == outcomes && (runs + [r])[..|runs|] == runs;
  }

  /**
   * SyncHosts' loop after the first |outcomes| hosts: those were processed
   * as `HostDone` says, from their caches on entry `initial` to `caches`,
   * which they still hold; the others still hold their caches on entry.
   */
  ghost predicate HostsProgress(clients: seq<Client>, dryRun: bool, initial: seq<seq<TopicCache>>,
                                caches: seq<seq<TopicCache>>, outcomes: seq<Option<string>>, runs: seq<Run>)
    reads AllRepos(clients)
  {
    && |runs| == |outcomes| <= |clients| && |initial| == |clients| && |caches| == |clients|
    && HostsDone(clients, dryRun, outcomes, runs)
    && (forall j :: 0 <= j < |runs| ==> runs[j].before == initial[j] && runs[j].after == caches[j])
    && (forall j :: |runs| <= j < |clients| ==> caches[j] == initial[j])
    && (forall j :: 0 <= j < |clients| ==> (ReposInAll(clients, j); CachesAre(clients[j], caches[j])))
  }

  /** One turn of SyncHosts' loop: a backup host goes through processDestination, any other is skipped. */
  method ProcessHost(clients: seq<Client>, i: nat, sourcesByPrefix: map<string, nat>, hosts: seq<Config.Host>,
                     dryRun: bool, urlKey: UrlKey, ghost initial: seq<seq<TopicCache>>,
                     ghost caches: seq<seq<TopicCache>>, ghost outcomes: seq<Option<string>>, ghost runs: seq<Run>)
    returns (err: Option<string>, ghost caches': seq<seq<TopicCache>>, ghost outcomes': seq<Option<string>>,
             ghost runs': seq<Run>)
    requires forall k :: k in sourcesByPrefix ==> sourcesByPrefix[k] < |hosts|
    requires i == |outcomes| < |clients|
    requires DistinctRepos(clients[i]) && DisjointRepos(clients)
    requires HostsProgress(clients, dryRun, initial, caches, outcomes, runs)
    modifies Repos(clients[i])
    ensures outcomes' == outcomes + [err] && |runs'| == |runs| + 1
    ensures HostsProgress(clients, dryRun, initial, caches', outcomes', runs')
  {
    var c := clients[i];
    ReposInAll(clients, i);
    ghost var run;
    if !IsBackup(c) {
      err, run := None, Run(initial[i], initial[i], []);
    } else {
      ghost var before, after, repoOutcomes;
      err, before, after, repoOutcomes := ProcessDestination(c, sourcesByPrefix, hosts, dryRun, urlKey);
      // processDestination started from the caches the host had on entry.
      assert old(CachesAre(c, before)) && old(CachesAre(c, initial[i]));
      run := Run(before, after, repoOutcomes);
    }
    HostsDoneExtend(clients, dryRun, outcomes, runs, err, run);
    caches', outcomes', runs' := caches[i := run.after], outcomes + [err], runs + [run];
    // The other hosts own none of the objects just modified.
    forall j | 0 <= j < |clients| && j != i
      ensures CachesAre(clients[j], caches'[j])
    {
      assert Repos(clients[j]) !! Repos(c);
      assert old(CachesAre(clients[j], caches[j]));
    }
  }

  /**
   * The host loop of SyncHosts: every backup host in order, counting the
   * ones that failed without stopping. The ghost results are indexed by host.
   */
  method ProcessBackups(clients: seq<Client>, sourcesByPrefix: map<string, nat>, hosts: seq<Config.Host>,
                        dryRun: bool, urlKey: UrlKey)
    returns (errCount: nat, ghost outcomes: seq<Option<string>>, ghost runs: seq<Run>)
    requires forall k :: k in sourcesByPrefix ==> sourcesByPrefix[k] < |hosts|
    requires forall i :: 0 <= i < |clients| ==> DistinctRepos(clients[i])
    requires DisjointRepos(clients)
    modifies AllRepos(clients)
    ensures |outcomes| == |clients| && |runs| == |clients|
    ensures errCount == Failures(outcomes)
    ensures HostsDone(clients, dryRun, outcomes, runs)
    ensures forall i :: 0 <= i < |clients| ==>
              old(CachesAre(clients[i], runs[i].before)) && CachesAre(clients[i], runs[i].after)
  {
    // The caches on entry, and the caches each host holds as the loop goes.
    ghost var initial := seq(|clients|, j requires 0 <= j < |clients| reads if 0 <= j < |clients| then Repos(clients[j]) else {} =>
                                          HostCaches(clients[j]));
    ghost var caches := initial;
    outcomes, runs := [], [];
    errCount := 0;
    for i := 0 to |clients|
      invariant |outcomes| == i
      invariant errCount == Failures(outcomes)
      invariant HostsProgress(clients, dryRun, initial, caches, outcomes, runs)
      invariant forall j :: 0 <= j < |clients| ==> old(CachesAre(clients[j], initial[j]))
    {
      ReposInAll(clients, i);
      var hostErr;
      ghost var outcomes0 := outcomes;
      hostErr, caches, outcomes, runs :=
        ProcessHost(clients, i, sourcesByPrefix, hosts, dryRun, urlKey, initial, caches, outcomes, runs);
      FailuresAppend(outcomes0, hostErr);
      if hostErr.Some? {
        errCount := errCount + 1;
      }
    }
  }

  /**
   * SyncHosts: a base URL that does not parse stops everything before any
   * destination is touched; otherwise processDestination runs on every
   * backup host in order, and an error is returned exactly when one of them
   * failed.
   */
  method SyncHosts(clients: seq<Client>, dryRun: bool, urlKey: UrlKey)
    returns (err: Option<string>, ghost outcomes: seq<Option<string>>, ghost runs: seq<Run>)
    requires forall i :: 0 <= i < |clients| ==> DistinctRepos(clients[i])
    requires DisjointRepos(clients)
    modifies AllRepos(clients)
    ensures var t := PrefixTable(Configs(clients), urlKey);
            t.Failure? ==> err == Some(t.error) && unchanged(AllRepos(clients))
    ensures PrefixTable(Configs(clients), urlKey).Success? ==>
              && |outcomes| == |clients| && |runs| == |clients|
              && (err.Some? <==> exists i :: 0 <= i < |outcomes| && outcomes[i].Some?)
              && (err.Some? ==> err == Some("Some destinations have failed"))
              && (forall i :: 0 <= i < |clients| ==> HostDone(clients[i], dryRun, outcomes[i], runs[i]))
              && (forall i :: 0 <= i < |clients| ==>
                    old(CachesAre(clients[i], runs[i].before)) && CachesAre(clients[i], runs[i].after))
  {
    var hosts := Configs(clients);
    var table := BuildPrefixTable(hosts, urlKey);
    if table.Failure? {
      return Some(table.error), [], [];
    }
    var errCount;
    errCount, outcomes, runs := ProcessBackups(clients, table.value, hosts, dryRun, urlKey);
    FailuresPositive(outcomes);
    HostsDoneEach(clients, dryRun, outcomes, runs);
    if errCount > 0 {
      return Some("Some destinations have failed"), outcomes, runs;
    }
    return None, outcomes, runs;
  }
}
