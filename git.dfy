/** The parts of GitPython and of the git binary that git-sweep talks to,
    reduced to what its core observes: refs by their short name, remotes with
    an ordered ref list and a push primitive, and a command runner. What git
    itself answers is an oracle fixed for the run; what is asked of it is
    recorded in a log. */
module Git {

  /** A remote-tracking ref, seen through its short branch name (`remote_head`). */
  datatype Ref = Ref(remoteHead: string)

  /** An invocation of the git binary: the working directory it runs in and its argv. */
  datatype Command = Command(workingDir: string, argv: seq<string>)

  /** What an invocation yields without raising: exit status, standard output, standard error. */
  datatype Output = Output(status: int, stdout: string, stderr: string)

  /** What `push` hands back on success (GitPython's list of push infos), kept opaque. */
  type PushInfo = string

  /** A push either returns its report or raises a command error with a message. */
  datatype PushOutcome = Pushed(info: PushInfo) | Raised(message: string)

  /** A configured remote. Its name and advertised refs are fixed for the run; every push
      sent to it is appended to `pushLog`, and `reply` is how the far side answers a
      refspec given the pushes it has already received. */
  class Remote {
    const name: string
    const refs: seq<Ref>
    const reply: (seq<string>, string) -> PushOutcome
    var pushLog: seq<string>

    constructor (name: string, refs: seq<Ref>, reply: (seq<string>, string) -> PushOutcome)
      ensures this.name == name && this.refs == refs && this.reply == reply
      ensures pushLog == []
    {
      this.name := name;
      this.refs := refs;
      this.reply := reply;
      pushLog := [];
    }

    /** `remote.push(refspec)`: sends one refspec; the answer may be a raised error. */
    method Push(refspec: string) returns (out: PushOutcome)
      modifies this
      ensures pushLog == old(pushLog) + [refspec]
      ensures out == reply(old(pushLog), refspec)
    {
      out := reply(pushLog, refspec);
      pushLog := pushLog + [refspec];
    }
  }

  /** A local working copy: its directory and its configured remotes, in order. */
  datatype Repo = Repo(workingDir: string, remotes: seq<Remote>)

  /** The git binary as `Git(working_dir).execute(..., with_exceptions=False)` sees it:
      `run` gives the result of each command, `log` the commands issued so far. */
  class GitBinary {
    const run: Command -> Output
    var log: seq<Command>

    constructor (run: Command -> Output)
      ensures this.run == run && log == []
    {
      this.run := run;
      log := [];
    }

    /** Runs one command; never raises, whatever its exit status. */
    method Execute(cmd: Command) returns (out: Output)
      modifies this
      ensures log == old(log) + [cmd]
      ensures out == run(cmd)
    {
      out := run(cmd);
      log := log + [cmd];
    }
  }
}
