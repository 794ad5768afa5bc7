/**
 * The ref-set diff: which refs of a destination mirror must be pushed and
 * which deleted so that it matches its source. Both sides are keyed by the
 * qualified ref name; the lists returned follow map iteration order, which is
 * unspecified, so their contents are stated as enumerations of maps.
 */
module Refdiff {
  import opened Repository

  datatype RefdiffResult = RefdiffResult(changedRefs: seq<Ref>, deletedRefs: seq<Ref>)
  {
    /** The number of refs that need work; 0 means the mirror is up to date. */
    function Len(): (n: nat)
      ensures n == 0 <==> changedRefs == [] && deletedRefs == []
      ensures n >= |changedRefs| && n >= |deletedRefs|
    {
      |changedRefs| + |deletedRefs|
    }
  }

  /** Position `i` holds the last ref of `refs` with its qualified name. */
  ghost predicate IsLastOccurrence(refs: seq<Ref>, i: int)
  {
    0 <= i < |refs| && forall j :: i < j < |refs| ==> refs[j].refName != refs[i].refName
  }

  /** The lookup table of a ref list: keyed by qualified name, the last entry wins. */
  function RefMap(refs: seq<Ref>): (m: map<string, Ref>)
    ensures forall k :: k in m ==> m[k].refName == k
  {
    if refs == [] then map[]
    else RefMap(refs[..|refs| - 1])[refs[|refs| - 1].refName := refs[|refs| - 1]]
  }

  /**
   * The table has exactly the qualified names of the list, and the entry for
   * each is the last ref of the list carrying it.
   */
  lemma {:induction false} RefMapContents(refs: seq<Ref>)
    ensures forall i :: 0 <= i < |refs| ==> refs[i].refName in RefMap(refs)
    ensures forall k :: k in RefMap(refs) ==> exists i :: 0 <= i < |refs| && refs[i].refName == k
    ensures forall i :: IsLastOccurrence(refs, i) ==> RefMap(refs)[refs[i].refName] == refs[i]
  {
    if refs != [] {
      var init := refs[..|refs| - 1];
      var last := refs[|refs| - 1];
      RefMapContents(init);
      var m := RefMap(refs);
      assert m == RefMap(init)[last.refName := last];
      forall i | 0 <= i < |refs| ensures refs[i].refName in m {
        if i < |refs| - 1 { assert refs[i] == init[i]; }
      }
      forall k | k in m ensures exists i :: 0 <= i < |refs| && refs[i].refName == k {
        if k == last.refName {
          assert refs[|refs| - 1].refName == k;
        } else {
          var i :| 0 <= i < |init| && init[i].refName == k;
          assert refs[i] == init[i];
        }
      }
      forall i | IsLastOccurrence(refs, i) ensures m[refs[i].refName] == refs[i] {
        if i < |refs| - 1 {
          assert refs[|refs| - 1].refName != refs[i].refName;
          assert refs[i] == init[i];
          assert IsLastOccurrence(init, i);
        }
      }
    }
  }

  /** refmapFromList */
  method RefmapFromList(refs: seq<Ref>) returns (result: map<string, Ref>)
    ensures result == RefMap(refs)
  {
    result := map[];
    for i := 0 to |refs|
      invariant result == RefMap(refs[..i])
    {
      assert refs[..i + 1][..i] == refs[..i];
      result := result[refs[i].refName := refs[i]];
    }
    assert refs[..|refs|] == refs;
  }

  /**
   * listFromRefmap: the values of `refs` in some order. `keys` is the order in
   * which the keys were visited.
   */
  method ListFromRefmap(refs: map<string, Ref>) returns (result: seq<Ref>, ghost keys: seq<string>)
    ensures |result| == |keys| == |refs|
    ensures forall i :: 0 <= i < |keys| ==> keys[i] in refs && result[i] == refs[keys[i]]
    ensures forall i, j :: 0 <= i < j < |keys| ==> keys[i] != keys[j]
    ensures forall k :: k in refs ==> k in keys
  {
    result, keys := [], [];
    var remaining := refs.Keys;
    while remaining != {}
      invariant remaining <= refs.Keys
      invariant |result| == |keys| && |keys| + |remaining| == |refs.Keys|
      invariant forall i :: 0 <= i < |keys| ==> keys[i] in refs && keys[i] !in remaining && result[i] == refs[keys[i]]
      invariant forall i, j :: 0 <= i < j < |keys| ==> keys[i] != keys[j]
      invariant forall k :: k in refs && k !in remaining ==> k in keys
      decreases remaining
    {
      var k :| k in remaining;
      result, keys := result + [refs[k]], keys + [k];
      remaining := remaining - {k};
    }
  }

  /** `l` lists the values of `m`, once each, without repeating a qualified name. */
  ghost predicate Enumerates(l: seq<Ref>, m: map<string, Ref>)
  {
    && |l| == |m|
    && (forall i :: 0 <= i < |l| ==> l[i].refName in m && m[l[i].refName] == l[i])
    && (forall i, j :: 0 <= i < j < |l| ==> l[i].refName != l[j].refName)
  }

  /** Source refs that are new to the destination or whose commit moved. */
  function ChangedRefMap(srefs: map<string, Ref>, drefs: map<string, Ref>): map<string, Ref>
  {
    map k | k in srefs && (k !in drefs || drefs[k].sha != srefs[k].sha) :: srefs[k]
  }

  /** Destination refs whose qualified name the source no longer has. */
  function DeletedRefMap(srefs: map<string, Ref>, drefs: map<string, Ref>): map<string, Ref>
  {
    map k | k in drefs && k !in srefs :: drefs[k]
  }

  function Changed(sourceRefs: seq<Ref>, destRefs: seq<Ref>): map<string, Ref>
  {
    ChangedRefMap(RefMap(sourceRefs), RefMap(destRefs))
  }

  function Deleted(sourceRefs: seq<Ref>, destRefs: seq<Ref>): map<string, Ref>
  {
    DeletedRefMap(RefMap(sourceRefs), RefMap(destRefs))
  }

  /** Both sides have the same qualified names, with the same commit for each. */
  ghost predicate InSync(sourceRefs: seq<Ref>, destRefs: seq<Ref>)
  {
    var s, d := RefMap(sourceRefs), RefMap(destRefs);
    s.Keys == d.Keys && forall k :: k in s ==> s[k].sha == d[k].sha
  }

  /** The entries of `m` whose keys are in `keys`: the part of a table a loop has visited. */
  function Restrict(m: map<string, Ref>, keys: set<string>): map<string, Ref>
  {
    map k | k in m && k in keys :: m[k]
  }

  lemma DeletedStep(srefs: map<string, Ref>, drefs: map<string, Ref>, visited: set<string>, key: string)
    requires key in drefs && drefs[key].refName == key
    ensures DeletedRefMap(srefs, Restrict(drefs, visited + {key}))
            == if key in srefs then DeletedRefMap(srefs, Restrict(drefs, visited - {key}))
               else DeletedRefMap(srefs, Restrict(drefs, visited - {key}))[key := drefs[key]]
  {
  }

  lemma ChangedStep(srefs: map<string, Ref>, drefs: map<string, Ref>, visited: set<string>, key: string)
    requires key in srefs && srefs[key].refName == key
    ensures ChangedRefMap(Restrict(srefs, visited + {key}), drefs)
            == if key !in drefs || drefs[key].sha != srefs[key].sha
               then ChangedRefMap(Restrict(srefs, visited - {key}), drefs)[key := srefs[key]]
               else ChangedRefMap(Restrict(srefs, visited - {key}), drefs)
  {
  }

  /** A table whose every entry is filed under its own qualified name. */
  ghost predicate Keyed(m: map<string, Ref>)
  {
    forall k :: k in m ==> m[k].refName == k
  }

  /** The first loop of Refdiff: destination refs absent from the source. */
  method CollectDeleted(srefs: map<string, Ref>, drefs: map<string, Ref>) returns (deletedRefs: map<string, Ref>)
    requires Keyed(drefs)
    ensures deletedRefs == DeletedRefMap(srefs, drefs)
  {
    deletedRefs := map[];
    var visited: set<string> := {};
    var remaining := drefs.Keys;
    while remaining != {}
      invariant visited <= drefs.Keys && remaining == drefs.Keys - visited
      invariant deletedRefs == DeletedRefMap(srefs, Restrict(drefs, visited))
      decreases remaining
    {
      var key :| key in remaining;
      var dref := drefs[key];
      DeletedStep(srefs, drefs, visited, key);
      if dref.refName !in srefs {
        deletedRefs := deletedRefs[dref.refName := dref];
      }
      visited, remaining := visited + {key}, remaining - {key};
    }
    assert Restrict(drefs, visited) == drefs;
  }

  /** The second loop of Refdiff: source refs the destination lacks or holds at another commit. */
  method CollectChanged(srefs: map<string, Ref>, drefs: map<string, Ref>) returns (changedRefs: map<string, Ref>)
    requires Keyed(srefs)
    ensures changedRefs == ChangedRefMap(srefs, drefs)
  {
    changedRefs := map[];
    var visited: set<string> := {};
    var remaining := srefs.Keys;
    while remaining != {}
      invariant visited <= srefs.Keys && remaining == srefs.Keys - visited
      invariant changedRefs == ChangedRefMap(Restrict(srefs, visited), drefs)
      decreases remaining
    {
      var key :| key in remaining;
      var sref := srefs[key];
      ChangedStep(srefs, drefs, visited, key);
      if sref.refName !in drefs || drefs[sref.refName].sha != sref.sha {
        changedRefs := changedRefs[sref.refName := sref];
      }
      visited, remaining := visited + {key}, remaining - {key};
    }
    assert Restrict(srefs, visited) == srefs;
  }

  /**
   * Refdiff: the changed list enumerates the changed table and the deleted
   * list the deleted table; no work is left exactly when both sides agree.
   */
  method Refdiff(sourceRefs: seq<Ref>, destRefs: seq<Ref>) returns (r: RefdiffResult)
    ensures Enumerates(r.changedRefs, Changed(sourceRefs, destRefs))
    ensures Enumerates(r.deletedRefs, Deleted(sourceRefs, destRefs))
    ensures r.Len() == 0 <==> InSync(sourceRefs, destRefs)
  {
    var srefs := RefmapFromList(sourceRefs);
    var drefs := RefmapFromList(destRefs);
    var deletedRefs := CollectDeleted(srefs, drefs);
    var changedRefs := CollectChanged(srefs, drefs);
    var changedList, changedKeys := ListFromRefmap(changedRefs);
    var deletedList, deletedKeys := ListFromRefmap(deletedRefs);
    r := RefdiffResult(changedList, deletedList);
    LenZeroIffInSync(sourceRefs, destRefs);
  }

  lemma LenZeroIffInSync(sourceRefs: seq<Ref>, destRefs: seq<Ref>)
    ensures |Changed(sourceRefs, destRefs)| + |Deleted(sourceRefs, destRefs)| == 0 <==> InSync(sourceRefs, destRefs)
  {
    var s, d := RefMap(sourceRefs), RefMap(destRefs);
    var c, x := Changed(sourceRefs, destRefs), Deleted(sourceRefs, destRefs);
    if |c| + |x| == 0 {
      assert c.Keys == {} && x.Keys == {};
      forall k | k in s ensures k in d && s[k].sha == d[k].sha {
        assert k !in c;
      }
      forall k | k in d ensures k in s {
        assert k !in x;
      }
    }
    if InSync(sourceRefs, destRefs) {
      assert c.Keys == {};
      assert x.Keys == {};
    }
  }

  /** A list diffed against itself needs no work, even with repeated names. */
  lemma SelfDiffIsEmpty(refs: seq<Ref>)
    ensures InSync(refs, refs)
    ensures Changed(refs, refs) == map[] && Deleted(refs, refs) == map[]
  {
  }

  /**
   * A destination ref is deleted exactly when no source ref has its qualified
   * name; the deleted entry is the destination's last ref with that name.
   */
  lemma DeletedIffAbsentFromSource(sourceRefs: seq<Ref>, destRefs: seq<Ref>, j: int)
    requires IsLastOccurrence(destRefs, j)
    ensures destRefs[j].refName in Deleted(sourceRefs, destRefs)
            <==> forall i :: 0 <= i < |sourceRefs| ==> sourceRefs[i].refName != destRefs[j].refName
    ensures destRefs[j].refName in Deleted(sourceRefs, destRefs)
            ==> Deleted(sourceRefs, destRefs)[destRefs[j].refName] == destRefs[j]
  {
    RefMapContents(sourceRefs);
    RefMapContents(destRefs);
  }

  /** Every deleted name is absent from the source and present in the destination. */
  lemma DeletedNamesAreOnlyInDestination(sourceRefs: seq<Ref>, destRefs: seq<Ref>, k: string)
    requires k in Deleted(sourceRefs, destRefs)
    ensures forall i :: 0 <= i < |sourceRefs| ==> sourceRefs[i].refName != k
    ensures exists j :: 0 <= j < |destRefs| && destRefs[j] == Deleted(sourceRefs, destRefs)[k]
  {
    RefMapContents(sourceRefs);
    RefMapContents(destRefs);
    var d := RefMap(destRefs);
    var j :| 0 <= j < |destRefs| && destRefs[j].refName == k;
    var last := LastOccurrenceOf(destRefs, j);
    assert destRefs[last] == d[k];
  }

  /** The last position holding the qualified name found at `j`. */
  lemma {:induction false} LastOccurrenceOf(refs: seq<Ref>, j: int) returns (last: int)
    requires 0 <= j < |refs|
    ensures IsLastOccurrence(refs, last) && refs[last].refName == refs[j].refName && j <= last
    decreases |refs| - j
  {
    if exists j' :: j < j' < |refs| && refs[j'].refName == refs[j].refName {
      var j' :| j < j' < |refs| && refs[j'].refName == refs[j].refName;
      last := LastOccurrenceOf(refs, j');
    } else {
      last := j;
    }
  }

  /**
   * A source ref (the last with its qualified name) is changed exactly when the
   * destination lacks the name or holds another commit for it; the changed
   * entry is that source ref.
   */
  lemma ChangedIffNewOrMoved(sourceRefs: seq<Ref>, destRefs: seq<Ref>, i: int)
    requires IsLastOccurrence(sourceRefs, i)
    ensures var k, d := sourceRefs[i].refName, RefMap(destRefs);
      k in Changed(sourceRefs, destRefs) <==> (k !in d || d[k].sha != sourceRefs[i].sha)
    ensures sourceRefs[i].refName in Changed(sourceRefs, destRefs)
            ==> Changed(sourceRefs, destRefs)[sourceRefs[i].refName] == sourceRefs[i]
  {
    RefMapContents(sourceRefs);
  }

  /** No qualified name is both changed and deleted. */
  lemma ChangedAndDeletedAreDisjoint(sourceRefs: seq<Ref>, destRefs: seq<Ref>)
    ensures Changed(sourceRefs, destRefs).Keys !! Deleted(sourceRefs, destRefs).Keys
  {
  }

  /** FullRefdiff: every ref is changed, nothing is deleted. */
  function FullRefdiff(refs: seq<Ref>): (r: RefdiffResult)
    ensures r.changedRefs == refs && r.deletedRefs == [] && r.Len() == |refs|
    ensures refs != [] ==> r.Len() > 0
  {
    RefdiffResult(refs, [])
  }

  /**
   * FullRefdiff is Refdiff against an empty destination, except that it keeps
   * the list as given: same order, repeated names included.
   */
  lemma FullRefdiffIsDiffAgainstEmpty(refs: seq<Ref>)
    ensures FullRefdiff(refs).changedRefs == refs && FullRefdiff(refs).deletedRefs == []
    ensures FullRefdiff(refs).Len() == |refs|
    ensures Deleted(refs, []) == map[]
    ensures Changed(refs, []) == RefMap(refs)
    ensures forall i :: 0 <= i < |refs| ==> refs[i].refName in Changed(refs, [])
    ensures forall k :: k in Changed(refs, []) ==> Changed(refs, [])[k] in FullRefdiff(refs).changedRefs
  {
    RefMapContents(refs);
    forall k | k in Changed(refs, []) ensures Changed(refs, [])[k] in refs {
      var j :| 0 <= j < |refs| && refs[j].refName == k;
      var last := LastOccurrenceOf(refs, j);
    }
  }

  /** The diff is keyed by qualified name: a branch and a tag with one short name are two refs. */
  lemma KeyedByQualifiedName(sha: string)
    ensures var branch := Ref("v1", sha, "refs/heads/v1");
            var tag := Ref("v1", sha, "refs/tags/v1");
            Changed([branch, tag], [branch]) == map["refs/tags/v1" := tag]
  {
    var branch := Ref("v1", sha, "refs/heads/v1");
    var tag := Ref("v1", sha, "refs/tags/v1");
    assert [branch, tag][..1] == [branch];
    assert [branch][..0] == [];
    assert "refs/heads/v1" != "refs/tags/v1" by { assert "refs/heads/v1"[5] != "refs/tags/v1"[5]; }
    assert RefMap([branch]) == map["refs/heads/v1" := branch];
    assert RefMap([branch, tag]) == map["refs/heads/v1" := branch, "refs/tags/v1" := tag];
  }

  /** With a repeated qualified name, the last entry of the list is the one compared. */
  lemma LastEntryWins(first: Ref, second: Ref)
    requires first.refName == second.refName && first.sha != second.sha
    ensures Changed([first, second], [first]) == map[second.refName := second]
    ensures Changed([first, second], [second]) == map[]
  {
    assert [first, second][..1] == [first];
    assert [first][..0] == [] && [second][..0] == [];
    assert RefMap([first]) == map[first.refName := first];
    assert RefMap([first, second]) == RefMap([first])[second.refName := second];
    assert RefMap([first, second]) == map[second.refName := second];
    assert RefMap([second]) == map[second.refName := second];
  }
}
