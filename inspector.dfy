/** The inspector: which candidate refs of the remote are merged into master,
    decided one ref at a time by the exit status of
    `git log --exit-code <origin>/<master>..<origin>/<branch>`. */
module Inspector {
  import opened Seqs
  import opened Git
  import opened Base

  /** The revision range `<origin>/<master>..<origin>/<branch>`: commits on the branch that
      master cannot reach. */
  function RevisionRange(origin: string, master: string, branch: string): string
  {
    origin + "/" + master + ".." + origin + "/" + branch
  }

  /** What every range for this remote and master starts with. */
  function RangePrefix(origin: string, master: string): string
  {
    origin + "/" + master + ".." + origin + "/"
  }

  /** The branch a range names, read back from the end of the string. */
  function BranchOf(range: string, origin: string, master: string): string
  {
    var n := |RangePrefix(origin, master)|;
    if n <= |range| then range[n..] else ""
  }

  /** The range string carries the branch after a prefix fixed by the remote and master,
      so the branch can be read back from it and two branches never share a range. */
  lemma RevisionRangeRoundTrip(origin: string, master: string, branch: string)
    ensures RevisionRange(origin, master, branch) == RangePrefix(origin, master) + branch
    ensures BranchOf(RevisionRange(origin, master, branch), origin, master) == branch
  {
    var p := RangePrefix(origin, master);
    assert RevisionRange(origin, master, branch) == p + branch;
    assert (p + branch)[|p|..] == branch;
  }

  lemma RevisionRangeInjective(origin: string, master: string, b1: string, b2: string)
    requires RevisionRange(origin, master, b1) == RevisionRange(origin, master, b2)
    ensures b1 == b2
  {
    RevisionRangeRoundTrip(origin, master, b1);
    RevisionRangeRoundTrip(origin, master, b2);
  }

  /** `git log --exit-code <range>`, run in the repository's working directory. */
  function LogCommand(workingDir: string, range: string): Command
  {
    Command(workingDir, ["git", "log", "--exit-code", range])
  }

  /** The command issued for one candidate ref. */
  function CommandFor(workingDir: string, origin: string, master: string): Ref -> Command
  {
    (ref: Ref) => LogCommand(workingDir, RevisionRange(origin, master, ref.remoteHead))
  }

  /** The classification: a ref is merged when its command exits with status 0. */
  function MergedTest(run: Command -> Output, workingDir: string, origin: string, master: string): Ref -> bool
  {
    (ref: Ref) => run(CommandFor(workingDir, origin, master)(ref)).status == 0
  }

  /** The value `merged_refs` returns when git answers every command as `run` does. */
  function MergedRefsOf(op: BaseOperation, run: Command -> Output): Result<seq<Ref>>
  {
    match op.OriginOf()
    case Err(e) => Err(e)
    case Ok(origin) =>
      match FirstNamed(origin.refs, op.masterBranch)
      case Err(e) => Err(e)
      case Ok(master) =>
        Ok(Filter(op.FilteredRemotes(origin, []),
                  MergedTest(run, op.repo.workingDir, origin.name, master.remoteHead)))
  }

  /** The commands `merged_refs` issues, in order. */
  function CommandsOf(op: BaseOperation): seq<Command>
  {
    match op.OriginOf()
    case Err(_) => []
    case Ok(origin) =>
      match FirstNamed(origin.refs, op.masterBranch)
      case Err(_) => []
      case Ok(master) =>
        Map(op.FilteredRemotes(origin, []), CommandFor(op.repo.workingDir, origin.name, master.remoteHead))
  }

  /** `Inspector.merged_refs`: resolves the remote and its master ref, then asks git once
      per candidate ref and keeps those whose command exits with status 0. */
  method MergedRefs(op: BaseOperation, git: GitBinary) returns (r: Result<seq<Ref>>)
    modifies git
    ensures r == MergedRefsOf(op, git.run)
    ensures git.log == old(git.log) + CommandsOf(op)
  {
    var o := op.Origin();
    if o.Err? {
      return Err(o.error);
    }
    var origin := o.value;
    var m := op.MasterRef(origin);
    if m.Err? {
      return Err(m.error);
    }
    var master := m.value;
    var refs := op.FilteredRemotes(origin, []);
    var merged := Classify(git, op.repo.workingDir, origin.name, master.remoteHead, refs);
    return Ok(merged);
  }

  /** The loop of `merged_refs`: one `git log --exit-code` per ref, in order, keeping the
      refs whose command exits with status 0. */
  method Classify(git: GitBinary, workingDir: string, origin: string, master: string, refs: seq<Ref>)
    returns (merged: seq<Ref>)
    modifies git
    ensures merged == Filter(refs, MergedTest(git.run, workingDir, origin, master))
    ensures git.log == old(git.log) + Map(refs, CommandFor(workingDir, origin, master))
  {
    ghost var isMerged := MergedTest(git.run, workingDir, origin, master);
    ghost var commandFor := CommandFor(workingDir, origin, master);
    merged := [];
    var i := 0;
    while i < |refs|
      invariant 0 <= i <= |refs|
      invariant merged == Filter(refs[..i], isMerged)
      invariant git.log == old(git.log) + Map(refs[..i], commandFor)
    {
      var ref := refs[i];
      assert refs[..i + 1] == refs[..i] + [ref];
      FilterSnoc(refs[..i], ref, isMerged);
      MapSnoc(refs[..i], ref, commandFor);
      var sinceUntil := RevisionRange(origin, master, ref.remoteHead);
      var out := git.Execute(LogCommand(workingDir, sinceUntil));
      assert commandFor(ref) == LogCommand(workingDir, sinceUntil);
      assert isMerged(ref) == (out.status == 0);
      if out.status == 0 {
        merged := merged + [ref];
      }
      i := i + 1;
    }
    assert refs[..i] == refs;
  }

  /** A missing remote or master is reported, with the name that was looked for, and no
      command is issued; otherwise the inspection succeeds. */
  lemma LookupFailuresComeFirst(op: BaseOperation, run: Command -> Output)
    ensures op.OriginOf().Err? ==>
              MergedRefsOf(op, run) == Err(MissingRemote(op.remoteName)) && CommandsOf(op) == []
    ensures op.OriginOf().Ok? && FirstNamed(op.OriginOf().value.refs, op.masterBranch).Err? ==>
              MergedRefsOf(op, run) == Err(MissingMasterBranch(op.masterBranch)) && CommandsOf(op) == []
    ensures MergedRefsOf(op, run).Err? <==>
              op.OriginOf().Err? || FirstNamed(op.OriginOf().value.refs, op.masterBranch).Err?
  {
  }

  /** One command per candidate ref, in candidate order, on that ref's revision range. */
  lemma OneCommandPerCandidate(op: BaseOperation, origin: Remote, master: Ref)
    requires op.OriginOf() == Ok(origin)
    requires FirstNamed(origin.refs, op.masterBranch) == Ok(master)
    ensures var refs, cmds := op.FilteredRemotes(origin, []), CommandsOf(op);
            |cmds| == |refs| &&
            forall i :: 0 <= i < |refs| ==>
              cmds[i] == Command(op.repo.workingDir,
                                 ["git", "log", "--exit-code",
                                  origin.name + "/" + op.masterBranch + ".." + origin.name + "/" + refs[i].remoteHead])
  {
  }

  /** A candidate ref is reported exactly when git exits with status 0 on its range; a
      non-zero status only leaves the ref out. The result keeps the candidates' order. */
  lemma MergedExactlyWhenExitZero(op: BaseOperation, run: Command -> Output, origin: Remote, master: Ref)
    requires op.OriginOf() == Ok(origin)
    requires FirstNamed(origin.refs, op.masterBranch) == Ok(master)
    ensures MergedRefsOf(op, run).Ok?
    ensures var merged, refs := MergedRefsOf(op, run).value, op.FilteredRemotes(origin, []);
            IsSubsequence(merged, refs) &&
            forall ref :: ref in merged <==>
              ref in refs &&
              run(LogCommand(op.repo.workingDir, RevisionRange(origin.name, op.masterBranch, ref.remoteHead))).status == 0
  {
    var refs := op.FilteredRemotes(origin, []);
    var isMerged := MergedTest(run, op.repo.workingDir, origin.name, master.remoteHead);
    assert MergedRefsOf(op, run) == Ok(Filter(refs, isMerged));
    assert master.remoteHead == op.masterBranch;
    forall ref
      ensures isMerged(ref) ==
                (run(LogCommand(op.repo.workingDir, RevisionRange(origin.name, op.masterBranch, ref.remoteHead))).status == 0)
    {
      var c := CommandFor(op.repo.workingDir, origin.name, master.remoteHead)(ref);
      assert c == LogCommand(op.repo.workingDir, RevisionRange(origin.name, op.masterBranch, ref.remoteHead));
      assert isMerged(ref) == (run(c).status == 0);
    }
  }

  /** HEAD and the master ref are never reported as merged. */
  lemma NeverHeadOrMaster(op: BaseOperation, run: Command -> Output)
    requires MergedRefsOf(op, run).Ok?
    ensures forall ref :: ref in MergedRefsOf(op, run).value ==>
              ref.remoteHead != "HEAD" && ref.remoteHead != op.masterBranch
  {
  }

  /** With only HEAD and master on the remote there is nothing to clean and nothing to ask git. */
  lemma OnlyMasterNothingToClean(op: BaseOperation, run: Command -> Output, origin: Remote)
    requires op.OriginOf() == Ok(origin)
    requires exists i :: 0 <= i < |origin.refs| && origin.refs[i].remoteHead == op.masterBranch
    requires forall i :: 0 <= i < |origin.refs| ==>
               origin.refs[i].remoteHead == "HEAD" || origin.refs[i].remoteHead == op.masterBranch
    ensures MergedRefsOf(op, run) == Ok([])
    ensures CommandsOf(op) == []
  {
  }

  /** When git reports every candidate as merged, every ref other than HEAD and master is
      returned, in the remote's order. */
  lemma AllMergedAllReturned(op: BaseOperation, run: Command -> Output, origin: Remote, master: Ref)
    requires op.OriginOf() == Ok(origin)
    requires FirstNamed(origin.refs, op.masterBranch) == Ok(master)
    requires forall ref :: ref in origin.refs && ref.remoteHead != "HEAD" && ref.remoteHead != op.masterBranch ==>
               run(LogCommand(op.repo.workingDir, RevisionRange(origin.name, op.masterBranch, ref.remoteHead))).status == 0
    ensures MergedRefsOf(op, run) == Ok(Filter(origin.refs, NotIn(["HEAD", op.masterBranch])))
  {
    var refs := op.FilteredRemotes(origin, []);
    var isMerged := MergedTest(run, op.repo.workingDir, origin.name, master.remoteHead);
    forall i | 0 <= i < |refs|
      ensures isMerged(refs[i])
    {
      var ref := refs[i];
      assert ref in refs;
      assert ref in origin.refs && ref.remoteHead != "HEAD" && ref.remoteHead != op.masterBranch;
      assert isMerged(ref) == (run(CommandFor(op.repo.workingDir, origin.name, master.remoteHead)(ref)).status == 0);
    }
    FilterAll(refs, isMerged);
  }

  /** Only the exit status is consulted: what git prints does not change the result. */
  lemma OnlyExitStatusMatters(op: BaseOperation, run1: Command -> Output, run2: Command -> Output)
    requires forall c :: run1(c).status == run2(c).status
    ensures MergedRefsOf(op, run1) == MergedRefsOf(op, run2)
  {
    if op.OriginOf().Ok? {
      var origin := op.OriginOf().value;
      if FirstNamed(origin.refs, op.masterBranch).Ok? {
        var master := FirstNamed(origin.refs, op.masterBranch).value;
        var wd := op.repo.workingDir;
        var refs := op.FilteredRemotes(origin, []);
        var p, q := MergedTest(run1, wd, origin.name, master.remoteHead),
                    MergedTest(run2, wd, origin.name, master.remoteHead);
        forall i | 0 <= i < |refs|
          ensures p(refs[i]) == q(refs[i])
        {
          var c := CommandFor(wd, origin.name, master.remoteHead)(refs[i]);
          assert p(refs[i]) == (run1(c).status == 0);
          assert q(refs[i]) == (run2(c).status == 0);
        }
        FilterCongruent(refs, p, q);
      }
    }
  }
}
