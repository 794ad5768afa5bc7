/** Value types shared by the hosting clients: a ref and a branch. */
module Repository {
  import opened Strings

  const HeadsPrefix: string := "refs/heads/"
  const TagsPrefix: string := "refs/tags/"

  /**
   * A ref as the clients list it: its short name, the commit it points to and
   * its fully qualified name (`refs/heads/<name>` or `refs/tags/<name>`),
   * which is the key the diff works on.
   */
  datatype Ref = Ref(name: string, sha: string, refName: string)

  datatype Branch = Branch(name: string, sha: string)
  {
    /** The fully qualified name of the branch. */
    function RefName(): (r: string)
      ensures HasPrefix(r, HeadsPrefix)
      ensures TrimPrefix(r, HeadsPrefix) == name
    {
      PrefixThenTrim(HeadsPrefix, name);
      HeadsPrefix + name
    }
  }

  /** The qualified name depends on the branch name only, never on its commit. */
  lemma RefNameIgnoresSha(b: Branch, sha: string)
    ensures b.(sha := sha).RefName() == b.RefName()
  {
  }

  /** Two branches share a qualified name exactly when they share a name. */
  lemma RefNameInjective(a: Branch, b: Branch)
    ensures a.RefName() == b.RefName() <==> a.name == b.name
  {
    if a.RefName() == b.RefName() {
      assert a.name == TrimPrefix(a.RefName(), HeadsPrefix);
    }
  }
}
