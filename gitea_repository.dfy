/**
 * A repository on a Gitea host: its topic cache and the listing of its refs.
 *
 * The cache holds the repository's topics (the labels the reconciliation puts
 * on backups). It is filled from the API on first use and updated by
 * AddLabel/RemoveLabel. The hosting API is an oracle: a fixed answer to the
 * topic listing and, per topic, the error (if any) adding or deleting it
 * returns. Ref listing reads pages the same way, from a sequence of answers.
 */
module Gitea {
  import opened Wrappers
  import opened Repository

  /** The API calls the topic cache makes, in order. */
  datatype TopicCall = ListTopics | AddTopic(topic: string) | DeleteTopic(topic: string)

  /** The hosting API's answers: the topic listing, and the labels whose add or delete fails. */
  datatype TopicApi = TopicApi(listing: Result<seq<string>, string>, addErrors: map<string, string>, deleteErrors: map<string, string>)

  /** The cached state of a repository: its topic set and whether it came from the API. */
  datatype TopicCache = TopicCache(topics: set<string>, initialized: bool)

  /** One cache operation: the new cache, the error returned and the API calls made. */
  datatype Step = Step(cache: TopicCache, err: Option<string>, calls: seq<TopicCall>)

  function ToSet(l: seq<string>): set<string>
  {
    set t | t in l
  }

  function ApiError(errors: map<string, string>, topic: string): Option<string>
  {
    if topic in errors then Some(errors[topic]) else None
  }

  /**
   * ensureTopics: an uninitialised cache lists the topics once; a failed
   * listing is swallowed and leaves the cache as it was, still uninitialised.
   */
  function Fetch(c: TopicCache, api: TopicApi): (s: Step)
    ensures s.err.None?
    ensures c.initialized ==> s == Step(c, None, [])
    ensures !c.initialized ==> s.calls == [ListTopics] && (s.cache.initialized <==> api.listing.Success?)
    ensures !c.initialized && api.listing.Success? ==> s.cache.topics == ToSet(api.listing.value)
    ensures api.listing.Failure? ==> s.cache == c
  {
    if c.initialized then Step(c, None, [])
    else match api.listing
      case Failure(_) => Step(c, None, [ListTopics])
      case Success(l) => Step(TopicCache(ToSet(l), true), None, [ListTopics])
  }

  /**
   * AddLabel: after the fetch, a topic already cached is a no-op; otherwise
   * the API is called unless dry-run, and the topic enters the cache exactly
   * when no error came back.
   */
  function Add(c: TopicCache, topic: string, dryRun: bool, api: TopicApi): (s: Step)
    ensures var f := Fetch(c, api);
            && s.cache.initialized == f.cache.initialized
            && (topic in s.cache.topics <==> s.err.None?)
            && s.cache.topics - {topic} == f.cache.topics - {topic}
            && (s.err.Some? ==> s.cache == f.cache && !dryRun && topic in api.addErrors)
            && (topic !in f.cache.topics ==> s.err == (if dryRun then None else ApiError(api.addErrors, topic)))
            && (topic in f.cache.topics ==> s == Step(f.cache, None, f.calls))
            && s.calls == f.calls + (if topic !in f.cache.topics && !dryRun then [AddTopic(topic)] else [])
  {
    var f := Fetch(c, api);
    if topic in f.cache.topics then Step(f.cache, None, f.calls)
    else
      var err := if dryRun then None else ApiError(api.addErrors, topic);
      var calls := f.calls + (if dryRun then [] else [AddTopic(topic)]);
      if err.None? then Step(f.cache.(topics := f.cache.topics + {topic}), None, calls)
      else Step(f.cache, err, calls)
  }

  /**
   * RemoveLabel: symmetric to Add; a topic not cached is a no-op, and the
   * topic leaves the cache exactly when no error came back.
   */
  function Remove(c: TopicCache, topic: string, dryRun: bool, api: TopicApi): (s: Step)
    ensures var f := Fetch(c, api);
            && s.cache.initialized == f.cache.initialized
            && (topic !in s.cache.topics <==> s.err.None?)
            && s.cache.topics - {topic} == f.cache.topics - {topic}
            && (s.err.Some? ==> s.cache == f.cache && !dryRun && topic in api.deleteErrors)
            && (topic in f.cache.topics ==> s.err == (if dryRun then None else ApiError(api.deleteErrors, topic)))
            && (topic !in f.cache.topics ==> s == Step(f.cache, None, f.calls))
            && s.calls == f.calls + (if topic in f.cache.topics && !dryRun then [DeleteTopic(topic)] else [])
  {
    var f := Fetch(c, api);
    if topic !in f.cache.topics then Step(f.cache, None, f.calls)
    else
      var err := if dryRun then None else ApiError(api.deleteErrors, topic);
      var calls := f.calls + (if dryRun then [] else [DeleteTopic(topic)]);
      if err.None? then Step(f.cache.(topics := f.cache.topics - {topic}), None, calls)
      else Step(f.cache, err, calls)
  }

  /** After a successful listing, the topics are never listed again. */
  lemma FetchedOnce(c: TopicCache, api: TopicApi)
    requires Fetch(c, api).cache.initialized
    ensures Fetch(Fetch(c, api).cache, api) == Step(Fetch(c, api).cache, None, [])
    ensures forall t, d :: ListTopics !in Add(Fetch(c, api).cache, t, d, api).calls
    ensures forall t, d :: ListTopics !in Remove(Fetch(c, api).cache, t, d, api).calls
  {
  }

  /** A failed listing is swallowed: no error, and the cache stays uninitialised. */
  lemma FailedFetchIsSwallowed(c: TopicCache, api: TopicApi)
    requires api.listing.Failure? && !c.initialized
    ensures Fetch(c, api) == Step(c, None, [ListTopics])
    ensures forall t, d :: !Add(c, t, d, api).cache.initialized && !Remove(c, t, d, api).cache.initialized
  {
  }

  /**
   * Repeating a successful AddLabel makes no further add call and changes
   * nothing; no call at all is made once the cache is initialised.
   */
  lemma AddIdempotent(c: TopicCache, topic: string, dryRun: bool, api: TopicApi)
    requires Add(c, topic, dryRun, api).err.None?
    ensures var s1 := Add(c, topic, dryRun, api);
            var s2 := Add(s1.cache, topic, dryRun, api);
            && s2.cache == s1.cache && s2.err.None?
            && s2.calls == (if s1.cache.initialized then [] else [ListTopics])
  {
  }

  /** Repeating a successful RemoveLabel makes no further delete call and changes nothing. */
  lemma RemoveIdempotent(c: TopicCache, topic: string, dryRun: bool, api: TopicApi)
    requires Remove(c, topic, dryRun, api).err.None?
    ensures var s1 := Remove(c, topic, dryRun, api);
            var s2 := Remove(s1.cache, topic, dryRun, api);
            && s2.cache == s1.cache && s2.err.None?
            && s2.calls == (if s1.cache.initialized then [] else [ListTopics])
  {
  }

  /** Under dry-run the cache changes as if the call had succeeded, and no mutating call is made. */
  lemma DryRunMakesNoMutatingCall(c: TopicCache, topic: string, api: TopicApi)
    ensures Add(c, topic, true, api).calls == Fetch(c, api).calls
    ensures Remove(c, topic, true, api).calls == Fetch(c, api).calls
    ensures Add(c, topic, true, api).cache.topics == Fetch(c, api).cache.topics + {topic}
    ensures Remove(c, topic, true, api).cache.topics == Fetch(c, api).cache.topics - {topic}
  {
  }

  /** A Gitea repository with its topic cache, updated in place. */
  class GiteaRepository {
    const name: string
    const description: string
    var topics: set<string>
    var topicsInitialized: bool
    /** The API calls made so far by this object. */
    ghost var calls: seq<TopicCall>

    function Cache(): TopicCache
      reads this
    {
      TopicCache(topics, topicsInitialized)
    }

    /** A repository as listed by the host, with an empty, uninitialised cache. */
    constructor(name: string, description: string)
      ensures this.name == name && this.description == description
      ensures Cache() == TopicCache({}, false) && calls == []
    {
      this.name := name;
      this.description := description;
      topics := {};
      topicsInitialized := false;
      calls := [];
    }

    /** ensureTopics: fills the cache from the listing, one topic at a time. */
    method EnsureTopics(api: TopicApi) returns (err: Option<string>)
      modifies this
      ensures var s := Fetch(old(Cache()), api);
              Cache() == s.cache && err == s.err && calls == old(calls) + s.calls
    {
      if !topicsInitialized {
        calls := calls + [ListTopics];
        if api.listing.Failure? {
          return None;
        }
        var listed := api.listing.value;
        var listedTopics: set<string> := {};
        for i := 0 to |listed|
          invariant listedTopics == ToSet(listed[..i])
        {
          assert listed[..i + 1] == listed[..i] + [listed[i]];
          listedTopics := listedTopics + {listed[i]};
        }
        assert listed[..|listed|] == listed;
        topics := listedTopics;
        topicsInitialized := true;
      }
      return None;
    }

    /** AddLabel */
    method AddLabel(topic: string, dryRun: bool, api: TopicApi) returns (err: Option<string>)
      modifies this
      ensures var s := Add(old(Cache()), topic, dryRun, api);
              Cache() == s.cache && err == s.err && calls == old(calls) + s.calls
    {
      err := EnsureTopics(api);
      if err.Some? {
        return None;
      }
      if topic in topics {
        return None;
      }
      if !dryRun {
        calls := calls + [AddTopic(topic)];
        err := ApiError(api.addErrors, topic);
      }
      if err.None? {
        topics := topics + {topic};
      }
    }

    /** RemoveLabel */
    method RemoveLabel(topic: string, dryRun: bool, api: TopicApi) returns (err: Option<string>)
      modifies this
      ensures var s := Remove(old(Cache()), topic, dryRun, api);
              Cache() == s.cache && err == s.err && calls == old(calls) + s.calls
    {
      err := EnsureTopics(api);
      if err.Some? {
        return None;
      }
      if topic !in topics {
        return None;
      }
      if !dryRun {
        calls := calls + [DeleteTopic(topic)];
        err := ApiError(api.deleteErrors, topic);
      }
      if err.None? {
        topics := topics - {topic};
      }
    }
  }

  /**
   * The topic map as the Go struct literal leaves it: nil until a listing
   * succeeds. Writing to a nil map panics.
   */
  datatype TopicMap = NilMap | Entries(entries: set<string>)

  datatype AsWrittenOutcome = Panicked | Returned(topicMap: TopicMap, initialized: bool, err: Option<string>)

  /** AddLabel on the struct as the host's listing builds it, with `topics` possibly nil. */
  function AddLabelAsWritten(m: TopicMap, initialized: bool, topic: string, dryRun: bool, api: TopicApi): (o: AsWrittenOutcome)
    ensures m.Entries? && (initialized || api.listing.Failure?) ==>
              var s := Add(TopicCache(m.entries, initialized), topic, dryRun, api);
              o == Returned(Entries(s.cache.topics), s.cache.initialized, s.err)
  {
    var (m', init') :=
      if !initialized && api.listing.Success? then (Entries(ToSet(api.listing.value)), true) else (m, initialized);
    if m'.Entries? && topic in m'.entries then Returned(m', init', None)
    else
      var err := if dryRun then None else ApiError(api.addErrors, topic);
      if err.Some? then Returned(m', init', err)
      else if m'.NilMap? then Panicked
      else Returned(Entries(m'.entries + {topic}), init', None)
  }

  /**
   * On a freshly listed repository whose topic listing fails, AddLabel under
   * dry-run, or with an add call that succeeds, writes to the nil map.
   */
  lemma AddLabelAfterFailedFetchPanics(topic: string, dryRun: bool, api: TopicApi)
    requires api.listing.Failure? && (dryRun || topic !in api.addErrors)
    ensures AddLabelAsWritten(NilMap, false, topic, dryRun, api) == Panicked
  {
  }

  /**
   * With the cache starting empty, the same sequence caches the topic and
   * returns no error, leaving the cache uninitialised so the next call lists again.
   */
  lemma AddLabelAfterFailedFetchCaches(topic: string, dryRun: bool, api: TopicApi)
    requires api.listing.Failure? && (dryRun || topic !in api.addErrors)
    ensures Add(TopicCache({}, false), topic, dryRun, api) ==
              Step(TopicCache({topic}, false), None, [ListTopics] + (if dryRun then [] else [AddTopic(topic)]))
  {
  }

  /** A branch or tag as the API lists it. */
  datatype NamedCommit = NamedCommit(name: string, sha: string)

  /**
   * One page of a branch or tag listing: its entries and the X-Total-Count
   * header as parsed by strconv.Atoi, or the request's error.
   */
  datatype PageResponse = Page(items: seq<NamedCommit>, totalCount: Result<int, string>) | PageFailed(error: string)

  /** The outcome of ListRefs; `Unfinished` when the given answers run out before the listing stops. */
  datatype Listing = Listed(refs: seq<Ref>) | ListFailed(error: string) | Unfinished

  function RefOf(c: NamedCommit, prefix: string): Ref
  {
    Ref(c.name, c.sha, prefix + c.name)
  }

  function RefsOf(items: seq<NamedCommit>, prefix: string): (r: seq<Ref>)
    ensures |r| == |items| && forall i :: 0 <= i < |items| ==> r[i] == RefOf(items[i], prefix)
  {
    seq(|items|, i requires 0 <= i < |items| => RefOf(items[i], prefix))
  }

  /** A ref listed as a branch carries the qualified name Branch.RefName gives it. */
  lemma BranchRefIsBranchRefName(c: NamedCommit)
    ensures RefOf(c, HeadsPrefix).refName == Branch(c.name, c.sha).RefName()
  {
  }

  /**
   * The paging loop of ListRefs for one kind of ref: pages are appended to
   * `acc` until the count of this kind's refs (those after position `base`)
   * reaches the announced total.
   */
  function CollectPages(pages: seq<PageResponse>, prefix: string, acc: seq<Ref>, base: nat): (r: Listing)
    ensures r.Listed? ==> |acc| <= |r.refs| && r.refs[..|acc|] == acc
    ensures pages == [] ==> r == Unfinished
    decreases |pages|
  {
    if pages == [] then Unfinished
    else match pages[0]
      case PageFailed(e) => ListFailed(e)
      case Page(items, total) =>
        var acc' := acc + RefsOf(items, prefix);
        if total.Failure? then ListFailed(total.error)
        else if total.value <= |acc'| - base then Listed(acc')
        else CollectPages(pages[1..], prefix, acc', base)
  }

  /** ListRefs: all branch pages, then all tag pages counted on their own. */
  function ListRefsOf(branchPages: seq<PageResponse>, tagPages: seq<PageResponse>): (r: Listing)
    ensures r.Listed? ==> var branches := CollectPages(branchPages, HeadsPrefix, [], 0);
              branches.Listed? && |branches.refs| <= |r.refs| && r.refs[..|branches.refs|] == branches.refs
  {
    match CollectPages(branchPages, HeadsPrefix, [], 0)
    case Listed(branches) => CollectPages(tagPages, TagsPrefix, branches, |branches|)
    case other => other
  }

  /**
   * A listing that stops keeps what it was given and appends refs of the
   * requested kind; it stops only once the last page's total is reached.
   */
  lemma {:induction false} CollectPagesExtends(pages: seq<PageResponse>, prefix: string, acc: seq<Ref>, base: nat)
    requires CollectPages(pages, prefix, acc, base).Listed?
    ensures var r := CollectPages(pages, prefix, acc, base).refs;
            && |acc| <= |r| && r[..|acc|] == acc
            && (forall i :: |acc| <= i < |r| ==> r[i].refName == prefix + r[i].name)
    ensures exists k :: 0 <= k < |pages| && pages[k].Page? && pages[k].totalCount.Success?
              && pages[k].totalCount.value <= |CollectPages(pages, prefix, acc, base).refs| - base
    decreases |pages|
  {
    var p := pages[0];
    var acc' := acc + RefsOf(p.items, prefix);
    if p.totalCount.value <= |acc'| - base {
      assert acc'[..|acc|] == acc;
    } else {
      CollectPagesExtends(pages[1..], prefix, acc', base);
      var r := CollectPages(pages, prefix, acc, base).refs;
      assert r[..|acc'|][..|acc|] == acc;
      var k :| 0 <= k < |pages[1..]| && pages[1..][k].Page? && pages[1..][k].totalCount.Success?
               && pages[1..][k].totalCount.value <= |r| - base;
      assert pages[k + 1] == pages[1..][k];
    }
  }

  /** Listed refs are all branches, named under refs/heads/, followed by all tags, named under refs/tags/. */
  lemma ListedRefsAreBranchesThenTags(branchPages: seq<PageResponse>, tagPages: seq<PageResponse>) returns (nb: nat)
    requires ListRefsOf(branchPages, tagPages).Listed?
    ensures var refs := ListRefsOf(branchPages, tagPages).refs;
            && nb <= |refs|
            && (forall i :: 0 <= i < nb ==> refs[i].refName == HeadsPrefix + refs[i].name)
            && (forall i :: nb <= i < |refs| ==> refs[i].refName == TagsPrefix + refs[i].name)
  {
    var branches := CollectPages(branchPages, HeadsPrefix, [], 0).refs;
    CollectPagesExtends(branchPages, HeadsPrefix, [], 0);
    CollectPagesExtends(tagPages, TagsPrefix, branches, |branches|);
    var refs := ListRefsOf(branchPages, tagPages).refs;
    assert refs[..|branches|] == branches;
    assert forall i :: 0 <= i < |branches| ==> refs[i] == branches[i];
    nb := |branches|;
  }

  /**
   * The tag loop compares the total with the tags listed so far, not with all
   * refs: five branches and a first tag page of one tag out of two still ask
   * for a second tag page.
   */
  lemma TagStopCountsOnlyTags(sha: string)
    ensures var b := NamedCommit("main", sha);
            var t := NamedCommit("v1", sha);
            && ListRefsOf([Page([b, b, b, b, b], Success(5))], [Page([t], Success(2))]) == Unfinished
            && ListRefsOf([Page([b, b, b, b, b], Success(5))], [Page([t], Success(2)), Page([t], Success(2))]).Listed?
  {
    var b := NamedCommit("main", sha);
    var t := NamedCommit("v1", sha);
    var branchPages := [Page([b, b, b, b, b], Success(5))];
    var branches := RefsOf([b, b, b, b, b], HeadsPrefix);
    assert [] + branches == branches;
    assert CollectPages(branchPages, HeadsPrefix, [], 0) == Listed(branches);
    var one := [Page([t], Success(2))];
    var two := [Page([t], Success(2)), Page([t], Success(2))];
    var first := branches + RefsOf([t], TagsPrefix);
    assert |first| - |branches| == 1;
    assert one[1..] == [];
    assert CollectPages(one, TagsPrefix, branches, |branches|) == CollectPages([], TagsPrefix, first, |branches|);
    assert two[1..] == one;
    assert CollectPages(two, TagsPrefix, branches, |branches|) == CollectPages(one, TagsPrefix, first, |branches|);
    assert |first + RefsOf([t], TagsPrefix)| - |branches| == 2;
  }

  /** Appends one page's entries to the listing, one ref at a time. */
  method AppendPage(allRefs: seq<Ref>, items: seq<NamedCommit>, prefix: string) returns (r: seq<Ref>)
    ensures r == allRefs + RefsOf(items, prefix)
  {
    r := allRefs;
    for j := 0 to |items|
      invariant r == allRefs + RefsOf(items[..j], prefix)
    {
      assert RefsOf(items[..j + 1], prefix) == RefsOf(items[..j], prefix) + [RefOf(items[j], prefix)];
      r := r + [RefOf(items[j], prefix)];
    }
    assert items[..|items|] == items;
  }

  /** One paging loop of ListRefs, over the given answers. */
  method PageThrough(pages: seq<PageResponse>, prefix: string, allRefs: seq<Ref>) returns (r: Listing)
    ensures r == CollectPages(pages, prefix, allRefs, |allRefs|)
  {
    var baseCount := |allRefs|;
    var acc := allRefs;
    var page := 0;
    while page < |pages|
      invariant 0 <= page <= |pages|
      invariant CollectPages(pages, prefix, allRefs, baseCount) == CollectPages(pages[page..], prefix, acc, baseCount)
    {
      assert pages[page..][1..] == pages[page + 1..];
      match pages[page]
      case PageFailed(e) =>
        return ListFailed(e);
      case Page(items, totalCount) =>
        acc := AppendPage(acc, items, prefix);
        if totalCount.Failure? {
          return ListFailed(totalCount.error);
        }
        if totalCount.value <= |acc| - baseCount {
          return Listed(acc);
        }
        page := page + 1;
    }
    return Unfinished;
  }

  /** ListRefs */
  method ListRefs(branchPages: seq<PageResponse>, tagPages: seq<PageResponse>) returns (r: Listing)
    ensures r == ListRefsOf(branchPages, tagPages)
  {
    r := PageThrough(branchPages, HeadsPrefix, []);
    if r.Listed? {
      r := PageThrough(tagPages, TagsPrefix, r.refs);
    }
  }
}
