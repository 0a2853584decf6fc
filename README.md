# git-sweep: branch selection and deletion, modelled in Dafny

git-sweep finds remote branches that are fully merged into a master branch
and deletes them from the remote. This project models its core on abstract
Git data:

- **Base** (`base.dfy`): the state every operation is built with (`repo`,
  `remote_name`, `master_branch`, defaulting to `"origin"` and `"master"`).
  It also covers the lookup of the remote by name (`_origin`, which keeps the
  last match because its loop never breaks), the lookup of the master ref
  (`_master_ref`, which stops at the first match) and the candidate filter
  (`_filtered_remotes`). In that filter an empty skip list stands for
  `['HEAD', master_branch]`, and a non-empty one replaces that default.
- **Inspector** (`inspector.dfy`): `merged_refs` resolves the remote and the
  master ref, then runs `git log --exit-code <origin>/<master>..<origin>/<branch>`
  once per candidate, in order. It keeps the candidates whose exit status is 0.
- **Deleter** (`deleter.dfy`): `remove_remote_refs` resolves the remote, then
  pushes `:<branch>` once per ref, in order, and collects what each push
  returns. A push that raises propagates.
- **Git** (`git.dfy`): stand-ins for what GitPython and the git binary give the
  core, which are refs, remotes, a repository and a command runner. What git
  answers is an oracle that is fixed for the run:
  - `GitBinary.run` maps a command to its exit status and output.
  - `Remote.reply` maps the pushes a remote has already received, plus a new
    refspec, to that push's outcome.

  What the core asks of git is recorded in logs (`GitBinary.log`,
  `Remote.pushLog`).
- **Seqs** (`seqs.dfy`): the order-preserving filter and map that the list
  comprehension and the two loops amount to, plus the subsequence relation.

Exceptions become a `Result` whose `Error` is `MissingRemote`,
`MissingMasterBranch` or `CommandError`. `CommandError` stands for the error
a failing push raises. Loops in the source are methods with loop invariants,
proved equal to recursive specification functions (`LastNamed`, `FirstNamed`,
`Filter`, `Map`). The properties are stated as lemmas about those functions.

Points where git-sweep's described design and its code differ. The model
follows the code:
- **Merge test.** The code runs `git log --exit-code` on a revision range and
  reads only its exit status. It does not run a patch-equivalence (`git cherry`)
  comparison and does not look at the output.
- **Skip list.** A non-empty skip list replaces the default `['HEAD', master]`
  instead of being added to it. `merged_refs` always passes no skip list.
- **Push failures.** The deleter has no per-ref error handling. The first push
  that raises ends the call, and later refs are not pushed.
- **No `--skip` option.** The command line defines no `--skip` option, so none
  is modelled.

Running the inspection twice against the same git answers gives the same
result by construction: `MergedRefsOf` is a function of the operation and of
git's answers.

## Model

| member | source | states |
|---|---|---|
| Seqs.Filter | src/gitsweep/base.py:40 | The comprehension keeps exactly the elements that pass the test, and keeps them as an order-preserving subsequence of the input. |
| Seqs.FilterCounts | src/gitsweep/base.py:40 | Each passing element is kept as many times as it occurs in the input, and failing elements never appear. |
| Seqs.Map | src/gitsweep/deleter.py:19-20 | One output per input element, in input order, and the i-th output is the image of the i-th input. |
| Base.MessagesDistinguishLookupFailures | src/gitsweep/base.py:52-68 | The user-facing texts of `MissingRemote` and `MissingMasterBranch` never coincide. |
| Base.LastNamed | src/gitsweep/base.py:60-68 | It fails with `MissingRemote(name)` exactly when no remote has that name. Otherwise it returns a remote with that name, and no later remote in the list has the name. |
| Base.FirstNamed | src/gitsweep/base.py:48-53 | It fails with `MissingMasterBranch(name)` exactly when no ref has that short name. Otherwise it returns a ref with that name, and no earlier ref has the name. |
| Base.BaseOperation.FilteredRemotes | src/gitsweep/base.py:30-42 | It returns exactly the refs whose short name is not skipped, as an order-preserving subsequence, with all their occurrences. An empty skip list excludes `HEAD` and master. A non-empty list replaces that default, so every ref it does not name is kept. |
| Base.BaseOperation.MasterRef | src/gitsweep/base.py:44-53 | The early-return scan returns the first ref named like the master branch, or `MissingMasterBranch` when there is none. |
| Base.BaseOperation.Origin | src/gitsweep/base.py:55-70 | The scan that overwrites `origin` on every match returns the last remote with the requested name, or `MissingRemote` when there is none. |
| Inspector.RevisionRangeRoundTrip | src/gitsweep/inspector.py:27-29 | The range string is a prefix fixed by remote and master, followed by the branch name, and the branch can be read back from it. |
| Inspector.RevisionRangeInjective | src/gitsweep/inspector.py:27-29 | Two branches of the same remote and master never share a range string. |
| Inspector.MergedRefs | src/gitsweep/inspector.py:12-41 | The result is the specification value for git's answers. The commands issued are exactly those of the specification, appended to the log in order. |
| Inspector.Classify | src/gitsweep/inspector.py:24-39 | The loop issues one `git log --exit-code <range>` per ref, in order, and returns the refs whose status is 0, in order. |
| Inspector.LookupFailuresComeFirst | src/gitsweep/inspector.py:20-23 | A missing remote or master is reported with the name that was looked for, and then no command is issued at all. The inspection fails only in those two cases. |
| Inspector.OneCommandPerCandidate | src/gitsweep/inspector.py:26-35 | Exactly one command per candidate ref, in candidate order. Each command is `git log --exit-code origin/master..origin/branch`, run in the working directory. |
| Inspector.MergedExactlyWhenExitZero | src/gitsweep/inspector.py:33-39 | A candidate is in the result exactly when its command exits with status 0; a non-zero status only omits it. The result is an order-preserving subsequence of the candidates. |
| Inspector.NeverHeadOrMaster | src/gitsweep/inspector.py:22-23 | No ref named `HEAD` or named like the master branch is ever reported as merged. |
| Inspector.OnlyMasterNothingToClean | src/gitsweep/tests/test_inspector.py:10-14 | When the remote has only HEAD and master, the result is empty and no command is issued. |
| Inspector.AllMergedAllReturned | src/gitsweep/tests/test_inspector.py:83-125 | When every candidate's command exits with 0, the result is every ref other than `HEAD` and master, in the remote's order. |
| Inspector.OnlyExitStatusMatters | src/gitsweep/inspector.py:33-36 | Two runs of git that agree on exit statuses give the same result, whatever they print. |
| Deleter.RefspecRoundTrip | src/gitsweep/deleter.py:20 | A deletion refspec is `:` followed by the branch name, so distinct refs give distinct refspecs. |
| Deleter.RemoveRemoteRefs | src/gitsweep/deleter.py:10-22 | A missing remote gives `MissingRemote` before any push. Otherwise the pushes go to the remote found by name. The push log of every other remote is unchanged. Empty input returns an empty list and pushes nothing. |
| Deleter.PushEach | src/gitsweep/deleter.py:18-22 | The i-th push sends `:` plus the i-th branch. It succeeds exactly when every push is accepted, and then it returns one result per ref, in order. Otherwise the error of the first push that raised propagates. That push is in the log, and nothing after it is sent. |
| Deleter.PushLogSpellsRefspecs | src/gitsweep/deleter.py:19-20 | After a fully accepted run, the remote received exactly `:<branch>` for each ref, in input order, after what it had before. |

## Left out

- `cli.py`: argument parsing, printing, the interactive `y/n` prompt and exit codes are I/O plumbing. The core is modelled without them. In particular, the model omits that the command line deletes one ref per `remove_remote_refs` call.
- Git itself is an oracle. The model does not say what `git log --exit-code` reports for a given history, how a push decides to succeed, or how a deletion changes a ref list. A remote's refs are fixed for the run.
- `remote.fetch()`, `bootstrap.py`, `setup.py` and `entrypoints.py` are network access and packaging, with no logic of the core.
- `GitPython`'s `PushInfo` is kept opaque as a string. Push flags are not modelled.
- An invalid repository is detected by GitPython when the repository is opened, which happens before the core runs, so this error is not modelled.
