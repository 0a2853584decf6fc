/** The deleter: removes refs from the remote by pushing an empty source to
    each branch name, one push per ref, in order, with no recovery from a push
    that raises. */
module Deleter {
  import opened Seqs
  import opened Git
  import opened Base

  /** The refspec `:<branch>`: an empty source pushed to the branch deletes it remotely. */
  function Refspec(ref: Ref): string
  {
    ":" + ref.remoteHead
  }

  /** A deletion refspec is the colon followed by the branch, so the branch is recoverable
      from it and distinct branches get distinct refspecs. */
  lemma RefspecRoundTrip(ref: Ref, other: Ref)
    ensures |Refspec(ref)| == |ref.remoteHead| + 1 && Refspec(ref)[0] == ':' && Refspec(ref)[1..] == ref.remoteHead
    ensures Refspec(ref) == Refspec(other) ==> ref == other
  {
    assert Refspec(ref)[1..] == ref.remoteHead;
    assert Refspec(other)[1..] == other.remoteHead;
  }

  /** The refspecs for `refs`, in order. */
  function Refspecs(refs: seq<Ref>): seq<string>
  {
    Map(refs, Refspec)
  }

  /** The first `n` of `specs`, pushed one after another onto a remote that had already
      received `log`, are all accepted. */
  predicate AcceptedUpTo(reply: (seq<string>, string) -> PushOutcome, log: seq<string>, specs: seq<string>, n: nat)
    requires n <= |specs|
  {
    forall j :: 0 <= j < n ==> reply(log + specs[..j], specs[j]).Pushed?
  }

  /** `Deleter.remove_remote_refs`: resolves the remote, then pushes `:<branch>` for each ref
      in turn (see `PushEach`). Nothing but the selected remote's push log changes. */
  method RemoveRemoteRefs(op: BaseOperation, refs: seq<Ref>) returns (r: Result<seq<PushInfo>>)
    modifies op.repo.remotes
    ensures op.OriginOf().Err? ==> r == Err(MissingRemote(op.remoteName))
    ensures forall rm :: rm in op.repo.remotes && !(op.OriginOf().Ok? && rm == op.OriginOf().value) ==>
              rm.pushLog == old(rm.pushLog)
    ensures op.OriginOf().Ok? ==> PushedInOrder(op.OriginOf().value, refs, old(op.OriginOf().value.pushLog), r)
    ensures op.OriginOf().Ok? && refs == [] ==>
              r == Ok([]) && op.OriginOf().value.pushLog == old(op.OriginOf().value.pushLog)
  {
    var o := op.Origin();
    if o.Err? {
      return Err(o.error);
    }
    r := PushEach(o.value, refs);
  }

  /** What pushing `refs` in order onto `origin`, whose log was `log0`, leaves behind: `r` is
      the list of push results exactly when every push is accepted, and then there is one
      result per ref; otherwise the first push that raised gives the error and nothing
      after it was sent. */
  ghost predicate PushedInOrder(origin: Remote, refs: seq<Ref>, log0: seq<string>, r: Result<seq<PushInfo>>)
    reads origin
  {
    var specs := Refspecs(refs);
    (r.Ok? <==> AcceptedUpTo(origin.reply, log0, specs, |refs|)) &&
    (r.Ok? ==>
       origin.pushLog == log0 + specs && |r.value| == |refs| &&
       forall i :: 0 <= i < |refs| ==> r.value[i] == origin.reply(log0 + specs[..i], specs[i]).info) &&
    (r.Err? ==>
       exists n :: 0 <= n < |refs| && AcceptedUpTo(origin.reply, log0, specs, n) &&
         origin.reply(log0 + specs[..n], specs[n]).Raised? &&
         r == Err(CommandError(origin.reply(log0 + specs[..n], specs[n]).message)) &&
         origin.pushLog == log0 + specs[..n + 1])
  }

  /** The loop of `remove_remote_refs`: one push of `:<branch>` per ref, in order, collecting
      each push's result. A push that raises ends the loop with that error; there is no
      per-ref recovery. */
  method PushEach(origin: Remote, refs: seq<Ref>) returns (r: Result<seq<PushInfo>>)
    modifies origin
    ensures PushedInOrder(origin, refs, old(origin.pushLog), r)
    ensures refs == [] ==> r == Ok([]) && origin.pushLog == old(origin.pushLog)
  {
    ghost var log0 := origin.pushLog;
    ghost var specs := Refspecs(refs);
    var pushes := [];
    var i := 0;
    while i < |refs|
      invariant 0 <= i <= |refs|
      invariant origin.pushLog == log0 + specs[..i]
      invariant AcceptedUpTo(origin.reply, log0, specs, i)
      invariant |pushes| == i
      invariant forall j :: 0 <= j < i ==> pushes[j] == origin.reply(log0 + specs[..j], specs[j]).info
    {
      assert specs[i] == Refspec(refs[i]);
      var out := origin.Push(Refspec(refs[i]));
      assert specs[..i + 1] == specs[..i] + [specs[i]];
      assert out == origin.reply(log0 + specs[..i], specs[i]);
      if out.Raised? {
        r := Err(CommandError(out.message));
        assert !AcceptedUpTo(origin.reply, log0, specs, |refs|);
        assert AcceptedUpTo(origin.reply, log0, specs, i) && origin.pushLog == log0 + specs[..i + 1];
        return;
      }
      pushes := pushes + [out.info];
      i := i + 1;
    }
    assert specs[..i] == specs;
    r := Ok(pushes);
  }

  /** After a run in which every push was accepted, the remote has received exactly
      `:<branch>` for each ref, in the order of `refs`, after what it had before. */
  lemma PushLogSpellsRefspecs(origin: Remote, refs: seq<Ref>, log0: seq<string>, r: Result<seq<PushInfo>>)
    requires PushedInOrder(origin, refs, log0, r) && r.Ok?
    ensures |origin.pushLog| == |log0| + |refs|
    ensures origin.pushLog[..|log0|] == log0
    ensures forall i :: 0 <= i < |refs| ==> origin.pushLog[|log0| + i] == ":" + refs[i].remoteHead
  {
    var specs := Refspecs(refs);
    assert origin.pushLog == log0 + specs;
    forall i | 0 <= i < |refs|
      ensures origin.pushLog[|log0| + i] == ":" + refs[i].remoteHead
    {
      assert specs[i] == Refspec(refs[i]);
    }
  }
}
