/** What every git-sweep operation shares: locating the remote by name, the
    master ref on it, and the candidate refs once HEAD, master or a caller's
    skip list are left out. */
module Base {
  import opened Seqs
  import opened Git

  /** The failures an operation reports. `MissingRemote` and `MissingMasterBranch` are the
      tool's own exceptions; `CommandError` stands for the error GitPython raises when a
      push fails, which git-sweep lets propagate. */
  datatype Error =
    | MissingRemote(remoteName: string)
    | MissingMasterBranch(masterBranch: string)
    | CommandError(message: string)

  datatype Result<T> = Ok(value: T) | Err(error: Error)

  /** The text `str(e)` shows the user for each error. */
  function Message(e: Error): string
  {
    match e
    case MissingRemote(name) => "Could not find the remote named " + name
    case MissingMasterBranch(branch) => "Could not find ref for " + branch
    case CommandError(message) => message
  }

  /** The two lookup failures can be told apart from their messages alone. */
  lemma MessagesDistinguishLookupFailures(remoteName: string, masterBranch: string)
    ensures Message(MissingRemote(remoteName)) != Message(MissingMasterBranch(masterBranch))
  {
    var a, b := Message(MissingRemote(remoteName)), Message(MissingMasterBranch(masterBranch));
    assert a[15] == 't' && b[15] == 'r';
  }

  /** The last remote in `remotes` called `name`, or `MissingRemote` when there is none. */
  function LastNamed(remotes: seq<Remote>, name: string): (r: Result<Remote>)
    ensures r.Err? <==> forall i :: 0 <= i < |remotes| ==> remotes[i].name != name
    ensures r.Err? ==> r.error == MissingRemote(name)
    ensures r.Ok? ==> exists i :: 0 <= i < |remotes| && remotes[i] == r.value && r.value.name == name
                              && forall j :: i < j < |remotes| ==> remotes[j].name != name
    decreases |remotes|
  {
    if remotes == [] then Err(MissingRemote(name))
    else if remotes[|remotes| - 1].name == name then Ok(remotes[|remotes| - 1])
    else LastNamed(remotes[..|remotes| - 1], name)
  }

  /** The first ref in `refs` whose short name is `head`, or `MissingMasterBranch` when there is none. */
  function FirstNamed(refs: seq<Ref>, head: string): (r: Result<Ref>)
    ensures r.Err? <==> forall i :: 0 <= i < |refs| ==> refs[i].remoteHead != head
    ensures r.Err? ==> r.error == MissingMasterBranch(head)
    ensures r.Ok? ==> exists i :: 0 <= i < |refs| && refs[i] == r.value && r.value.remoteHead == head
                              && forall j :: 0 <= j < i ==> refs[j].remoteHead != head
    decreases |refs|
  {
    if refs == [] then Err(MissingMasterBranch(head))
    else if refs[0].remoteHead == head then Ok(refs[0])
    else
      var r := FirstNamed(refs[1..], head);
      assert forall j :: 0 < j < |refs| ==> refs[j] == refs[1..][j - 1];
      assert r.Ok? ==> exists i :: 0 <= i < |refs| && refs[i] == r.value && r.value.remoteHead == head
                                 && forall j :: 0 <= j < i ==> refs[j].remoteHead != head
      by {
        if r.Ok? {
          var k :| 0 <= k < |refs[1..]| && refs[1..][k] == r.value && r.value.remoteHead == head
                   && forall j :: 0 <= j < k ==> refs[1..][j].remoteHead != head;
          assert refs[k + 1] == r.value;
        }
      }
      r
  }

  /** The test "the ref's short name is not listed in `skip`". */
  function NotIn(skip: seq<string>): Ref -> bool
  {
    (r: Ref) => r.remoteHead !in skip
  }

  /** The state every operation is built with; defaults as in the source. */
  datatype BaseOperation = BaseOperation(repo: Repo, remoteName: string := "origin", masterBranch: string := "master")
  {
    /** An empty skip list stands for `['HEAD', master_branch]`; any other replaces it. */
    function SkipList(skip: seq<string>): seq<string>
    {
      if skip == [] then ["HEAD", masterBranch] else skip
    }

    /** The remote this operation works on, as `Origin` finds it. */
    function OriginOf(): Result<Remote>
    {
      LastNamed(repo.remotes, remoteName)
    }

    /** The refs of `origin` whose short name is not skipped, in the remote's order. */
    function FilteredRemotes(origin: Remote, skip: seq<string>): (refs: seq<Ref>)
      ensures forall r :: r in refs <==> r in origin.refs && r.remoteHead !in SkipList(skip)
      ensures forall r :: multiset(refs)[r] == if r.remoteHead in SkipList(skip) then 0 else multiset(origin.refs)[r]
      ensures IsSubsequence(refs, origin.refs)
      ensures skip == [] ==> forall r :: r in refs ==> r.remoteHead != "HEAD" && r.remoteHead != masterBranch
      ensures skip != [] ==> forall r :: r in origin.refs && r.remoteHead !in skip ==> r in refs
    {
      FilterCounts(origin.refs, NotIn(SkipList(skip)));
      Filter(origin.refs, NotIn(SkipList(skip)))
    }

    /** `_master_ref`: scans the remote's refs for the master branch and stops at the first. */
    method MasterRef(origin: Remote) returns (r: Result<Ref>)
      ensures r == FirstNamed(origin.refs, masterBranch)
    {
      var refs := origin.refs;
      var i := 0;
      while i < |refs|
        invariant 0 <= i <= |refs|
        invariant FirstNamed(refs, masterBranch) == FirstNamed(refs[i..], masterBranch)
      {
        if refs[i].remoteHead == masterBranch {
          return Ok(refs[i]);
        }
        assert refs[i..][1..] == refs[i + 1..];
        i := i + 1;
      }
      return Err(MissingMasterBranch(masterBranch));
    }

    /** `_origin`: walks every remote, keeping the latest whose name matches. */
    method Origin() returns (r: Result<Remote>)
      ensures r == OriginOf()
    {
      var remotes := repo.remotes;
      var origin: Remote? := null;
      var i := 0;
      while i < |remotes|
        invariant 0 <= i <= |remotes|
        invariant origin == null <==> LastNamed(remotes[..i], remoteName).Err?
        invariant origin != null ==> LastNamed(remotes[..i], remoteName) == Ok(origin as Remote)
      {
        assert remotes[..i + 1][..i] == remotes[..i];
        if remotes[i].name == remoteName {
          origin := remotes[i];
        }
        i := i + 1;
      }
      assert remotes[..i] == remotes;
      if origin == null {
        return Err(MissingRemote(remoteName));
      }
      return Ok(origin);
    }
  }
}
