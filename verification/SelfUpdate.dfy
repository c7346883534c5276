/** The self-update pipeline: check the diff, guard protected directories, validate, commit, push. */
module SelfUpdate {
  import opened Wrappers
  import opened Text

  // ----- commands -----

  datatype Command =
    | DiffNames | DiffStat
    | Build | Vet | Test
    | AddAll | Commit(message: string) | RevParse
    | Push(branch: string)

  /** The program and arguments a command runs. */
  function Argv(c: Command): (string, seq<string>) {
    match c
    case DiffNames => ("git", ["diff", "--name-only"])
    case DiffStat => ("git", ["diff", "--stat"])
    case Build => ("go", ["build", "./cmd/agent/"])
    case Vet => ("go", ["vet", "./..."])
    case Test => ("go", ["test", "./..."])
    case AddAll => ("git", ["add", "-A"])
    case Commit(message) => ("git", ["commit", "-m", message])
    case RevParse => ("git", ["rev-parse", "HEAD"])
    case Push(branch) => ("git", ["push", "origin", branch])
  }

  /** The command lines, as they are run. */
  lemma CommandLines(message: string, branch: string)
    ensures Argv(DiffNames) == ("git", ["diff", "--name-only"]) && Argv(DiffStat) == ("git", ["diff", "--stat"])
    ensures Argv(Build) == ("go", ["build", "./cmd/agent/"]) && Argv(Vet) == ("go", ["vet", "./..."])
    ensures Argv(Test) == ("go", ["test", "./..."]) && Argv(AddAll) == ("git", ["add", "-A"])
    ensures Argv(Commit(message)) == ("git", ["commit", "-m", message])
    ensures Argv(RevParse) == ("git", ["rev-parse", "HEAD"])
    ensures Argv(Push(branch)) == ("git", ["push", "origin", branch])
  {}

  /** Different commands run differently, so a trace of commands says what was run. */
  lemma ArgvTellsCommand(a: Command, b: Command)
    requires Argv(a) == Argv(b)
    ensures a == b
  {
    var (p, x) := Argv(a);
    var (q, y) := Argv(b);
    assert x[0] == y[0] && (|x| > 1 ==> x[1] == y[1]) && (|x| > 2 ==> x[2] == y[2]);
  }

  datatype Reply = Reply(ok: bool, output: string)

  /** An arbitrary command runner: what it answers may depend on everything it was asked before. */
  class Runner {
    const answer: seq<Command> -> Reply
    var issued: seq<Command>

    constructor (answer: seq<Command> -> Reply)
      ensures this.answer == answer && issued == []
    {
      this.answer, issued := answer, [];
    }

    method Run(c: Command) returns (r: Reply)
      modifies this`issued
      ensures issued == old(issued) + [c] && r == answer(issued)
    {
      issued := issued + [c];
      r := answer(issued);
    }
  }

  // ----- protected directories -----

  /** The test on the two path strings. */
  predicate Touches(file: string, dir: string) {
    HasPrefix(file, dir + "/") || file == dir
  }

  predicate Protected(file: string, dirs: seq<string>) {
    exists dir :: dir in dirs && Touches(file, dir)
  }

  lemma {:induction false} JoinAppend(a: seq<string>, b: seq<string>)
    requires a != [] && b != []
    ensures Join(a + b, "/") == Join(a, "/") + "/" + Join(b, "/")
    decreases |a|
  {
    if |a| == 1 {
      assert (a + b)[1..] == b;
    } else {
      JoinAppend(a[1..], b);
      assert (a + b)[1..] == a[1..] + b;
      var x, y, z := a[0], Join(a[1..], "/"), Join(b, "/");
      assert x + "/" + (y + "/" + z) == x + "/" + y + "/" + z;
    }
  }

  /** The path components of the directory begin those of the file. */
  predicate Inside(file: string, dir: string) {
    Split(dir, "/") <= Split(file, "/")
  }

  /** The string test means that the directory's path components begin the file's. */
  lemma TouchesIsComponentPrefix(file: string, dir: string)
    ensures Touches(file, dir) <==> Inside(file, dir)
  {
    var fs, ds := Split(file, "/"), Split(dir, "/");
    if HasPrefix(file, dir + "/") {
      var rest := file[|dir| + 1..];
      assert file == dir + "/" + rest;
      SplitJoined(dir, '/', rest);
    }
    if ds <= fs {
      JoinSplit(file, "/");
      JoinSplit(dir, "/");
      if |ds| < |fs| {
        var more := fs[|ds|..];
        assert fs == ds + more;
        JoinAppend(ds, more);
        assert file[..|dir| + 1] == dir + "/";
      } else {
        assert ds == fs;
      }
    }
  }

  datatype UpdateError = DiffFailed | ProtectedModified(file: string, dir: string) | CommitFailed

  /** The file is the first protected one, and the directory the first that protects it. */
  predicate IsFirst(files: seq<string>, dirs: seq<string>, file: string, dir: string) {
    exists i, j :: 0 <= i < |files| && 0 <= j < |dirs| && files[i] == file && dirs[j] == dir
      && (forall k :: 0 <= k < i ==> !Protected(files[k], dirs))
      && (forall k :: 0 <= k < j ==> !Touches(file, dirs[k]))
  }

  /** Read-only search, file by file and directory by directory. */
  method CheckProtectedDirs(files: seq<string>, dirs: seq<string>) returns (r: Option<UpdateError>)
    ensures r == None <==> forall f :: f in files ==> !Protected(f, dirs)
    ensures r.Some? ==>
              && r.value.ProtectedModified? && r.value.file in files && r.value.dir in dirs
              && Touches(r.value.file, r.value.dir)
    ensures r.Some? ==> IsFirst(files, dirs, r.value.file, r.value.dir)
  {
    if |dirs| == 0 { return None; }
    for i := 0 to |files|
      invariant forall f :: f in files[..i] ==> !Protected(f, dirs)
    {
      var file := files[i];
      assert file in files && files[..i + 1] == files[..i] + [file];
      for j := 0 to |dirs|
        invariant forall d :: d in dirs[..j] ==> !Touches(file, d)
      {
        assert dirs[..j + 1] == dirs[..j] + [dirs[j]];
        if Touches(file, dirs[j]) { return Some(ProtectedModified(file, dirs[j])); }
      }
      assert dirs[..|dirs|] == dirs;
    }
    assert files[..|files|] == files;
    r := None;
  }

  // ----- the pipeline -----

  /** The file paths a diff lists. */
  function ListedFiles(output: string): seq<string> {
    var text := TrimSpace(output);
    if text == "" then [] else Split(text, "\n")
  }

  /** The listed files are the lines of the trimmed output. */
  lemma ListedFilesAreLines(output: string)
    ensures Join(ListedFiles(output), "\n") == TrimSpace(output)
    ensures ListedFiles(output) == [] <==> TrimSpace(output) == ""
    ensures forall f :: f in ListedFiles(output) ==> !Has(f, "\n")
  {
    if TrimSpace(output) != "" { JoinSplit(TrimSpace(output), "\n"); }
  }

  /** What a command is taken to have said: nothing if it failed. */
  function Output(r: Reply): string {
    if r.ok then TrimSpace(r.output) else ""
  }

  /** A failed command says nothing, any other all it wrote but the white space at the ends. */
  lemma OutputIsTrimmed(r: Reply) returns (a: string, b: string)
    ensures !r.ok ==> Output(r) == ""
    ensures r.ok ==> r.output == a + Output(r) + b && Blank(a) && Blank(b) && Trimmed(Output(r))
  {
    a, b := TrimSplit(r.output);
  }

  datatype UpdateResult = UpdateResult(validated: bool, committed: bool, hash: string, diff: string)

  /** All the commands a full update issues, in order. */
  function Pipeline(message: string, branch: string): seq<Command> {
    [DiffNames, DiffStat, Build, Vet, Test, AddAll, Commit(message), RevParse, Push(branch)]
  }

  /** What the runner answers to the k-th command of the pipeline, when the ones before it were issued. */
  function ReplyTo(answer: seq<Command> -> Reply, before: seq<Command>, pipeline: seq<Command>, k: nat): Reply
    requires k < |pipeline|
  {
    answer(before + pipeline[..k + 1])
  }

  predicate Succeeds(answer: seq<Command> -> Reply, before: seq<Command>, pipeline: seq<Command>, k: nat)
    requires k < |pipeline|
  {
    ReplyTo(answer, before, pipeline, k).ok
  }

  predicate Unprotected(files: seq<string>, dirs: seq<string>) {
    forall f :: f in files ==> !Protected(f, dirs)
  }

  /** An update may go on to the k-th command of its pipeline (counted from 0). */
  predicate Reaches(answer: seq<Command> -> Reply, before: seq<Command>, pipeline: seq<Command>,
                    dirs: seq<string>, push: bool, k: nat)
    requires |pipeline| == 9
  {
    var files := ListedFiles(ReplyTo(answer, before, pipeline, 0).output);
    && (k >= 1 ==> Succeeds(answer, before, pipeline, 0) && files != [])
    && (k >= 2 ==> Unprotected(files, dirs))
    && (k >= 3 ==> Succeeds(answer, before, pipeline, 2))
    && (k >= 4 ==> Succeeds(answer, before, pipeline, 3))
    && (k >= 5 ==> Succeeds(answer, before, pipeline, 4))
    && (k >= 6 ==> Succeeds(answer, before, pipeline, 5))
    && (k >= 7 ==> Succeeds(answer, before, pipeline, 6))
    && (k >= 8 ==> push)
    && k < 9
  }

  lemma ReachesDown(answer: seq<Command> -> Reply, before: seq<Command>, pipeline: seq<Command>,
                    dirs: seq<string>, push: bool, n: nat, k: nat)
    requires |pipeline| == 9 && n >= 1
    requires Reaches(answer, before, pipeline, dirs, push, n - 1) && !Reaches(answer, before, pipeline, dirs, push, n)
    ensures Reaches(answer, before, pipeline, dirs, push, k) <==> k < n
  {}

  class Updater {
    const runner: Runner
    var dirs: seq<string>
    var autoPush: bool
    var branch: string

    constructor (runner: Runner)
      ensures this.runner == runner && dirs == [] && !autoPush && branch == ""
    {
      this.runner, dirs, autoPush, branch := runner, [], false, "";
    }

    method SetProtectedDirs(dirs: seq<string>)
      modifies this`dirs
      ensures this.dirs == dirs
    {
      this.dirs := dirs;
    }

    method SetAutoPush(enabled: bool, branch: string)
      modifies this`autoPush, this`branch
      ensures autoPush == enabled && this.branch == branch
    {
      autoPush, this.branch := enabled, branch;
    }

    /** Build, vet and test, stopping at the first failure: the third to fifth commands of the pipeline. */
    method Validate(ghost before: seq<Command>, ghost pipeline: seq<Command>) returns (ok: bool, ghost ran: nat)
      requires |pipeline| == 9 && pipeline[2] == Build && pipeline[3] == Vet && pipeline[4] == Test
      requires runner.issued == before + pipeline[..2]
      modifies runner`issued
      ensures 1 <= ran <= 3 && runner.issued == before + pipeline[..2 + ran]
      ensures ran >= 2 ==> Succeeds(runner.answer, before, pipeline, 2)
      ensures ran >= 3 ==> Succeeds(runner.answer, before, pipeline, 3)
      ensures ok ==> ran == 3 && Succeeds(runner.answer, before, pipeline, 4)
      ensures !ok ==> !Succeeds(runner.answer, before, pipeline, 1 + ran)
    {
      var steps := [Build, Vet, Test];
      ran := 0;
      for i := 0 to |steps|
        invariant i == ran <= 3 && runner.issued == before + pipeline[..2 + i]
        invariant ran >= 1 ==> Succeeds(runner.answer, before, pipeline, 2)
        invariant ran >= 2 ==> Succeeds(runner.answer, before, pipeline, 3)
        invariant ran >= 3 ==> Succeeds(runner.answer, before, pipeline, 4)
      {
        OneMore(before, pipeline, 2 + i);
        var r := runner.Run(steps[i]);
        ran := ran + 1;
        if !r.ok { return false, ran; }
      }
      ok := true;
    }

    /** Whether a commit is followed by a push. */
    predicate Pushes()
      reads this
    {
      autoPush && branch != ""
    }

    /**
     Against any runner, an update issues the commands of the pipeline in order, up to the first
     one it may not reach.
     */
    method Apply(message: string) returns (result: UpdateResult, err: Option<UpdateError>, ghost issued: nat)
      modifies runner`issued
      ensures 1 <= issued <= 9 && runner.issued == old(runner.issued) + Pipeline(message, branch)[..issued]
      ensures issued == 9 <==> result.committed && autoPush && branch != ""
      ensures Reaches(runner.answer, old(runner.issued), Pipeline(message, branch), dirs, Pushes(), issued - 1)
      ensures !Reaches(runner.answer, old(runner.issued), Pipeline(message, branch), dirs, Pushes(), issued)
      ensures result.validated <==> issued >= 6
      ensures result.committed <==> issued >= 8
      ensures result.diff
           == if issued < 2 then ""
              else Output(ReplyTo(runner.answer, old(runner.issued), Pipeline(message, branch), 1))
      ensures result.hash
           == if issued < 8 then ""
              else Output(ReplyTo(runner.answer, old(runner.issued), Pipeline(message, branch), 7))
      ensures err == Some(DiffFailed) <==> !Succeeds(runner.answer, old(runner.issued), Pipeline(message, branch), 0)
      ensures match err
              case None => issued == 1 || 3 <= issued <= 5 || issued >= 8
              case Some(DiffFailed) => issued == 1
              case Some(ProtectedModified(file, dir)) =>
                && issued == 2 && dir in dirs && Touches(file, dir)
                && file in ListedFiles(ReplyTo(runner.answer, old(runner.issued), Pipeline(message, branch), 0).output)
              case Some(CommitFailed) => issued == 6 || issued == 7
    {
      ghost var pipeline, before := Pipeline(message, branch), runner.issued;
      assert before == before + pipeline[..0];
      var go, diff;
      go, diff, err, issued := Inspect(before, pipeline);
      var empty := UpdateResult(false, false, "", diff);
      if !go { return empty, err, issued; }
      var valid, ran := Validate(before, pipeline);
      if !valid { return empty, None, 2 + ran; }
      var committed;
      committed, issued := CommitAll(message, before, pipeline);
      if !committed { return UpdateResult(true, false, "", diff), Some(CommitFailed), issued; }
      var hash;
      hash, issued := Conclude(before, pipeline);
      return UpdateResult(true, true, hash, diff), None, issued;
    }

    /** The diff and its guard: the first two commands of the pipeline. */
    method Inspect(ghost before: seq<Command>, ghost pipeline: seq<Command>)
        returns (go: bool, diff: string, err: Option<UpdateError>, ghost issued: nat)
      requires |pipeline| == 9 && pipeline[0] == DiffNames && pipeline[1] == DiffStat
      requires runner.issued == before + pipeline[..0]
      modifies runner`issued
      ensures 1 <= issued <= 2 && runner.issued == before + pipeline[..issued]
      ensures var files := ListedFiles(ReplyTo(runner.answer, before, pipeline, 0).output);
              && (issued == 2 <==> Succeeds(runner.answer, before, pipeline, 0) && files != [])
              && (go <==> issued == 2 && Unprotected(files, dirs))
              && (go ==> err == None)
              && (!go && issued == 2 ==>
                    && err.Some? && err.value.ProtectedModified?
                    && err.value.file in files && err.value.dir in dirs && Touches(err.value.file, err.value.dir))
      ensures issued == 1 ==>
                err == if Succeeds(runner.answer, before, pipeline, 0) then None else Some(DiffFailed)
      ensures diff == if issued == 2 then Output(ReplyTo(runner.answer, before, pipeline, 1)) else ""
    {
      OneMore(before, pipeline, 0);
      var names := runner.Run(DiffNames);
      if !names.ok { return false, "", Some(DiffFailed), 1; }
      var files := ListedFiles(names.output);
      if |files| == 0 { return false, "", None, 1; }
      OneMore(before, pipeline, 1);
      var stat := runner.Run(DiffStat);
      diff := Output(stat);
      err := CheckProtectedDirs(files, dirs);
      return err == None, diff, err, 2;
    }

    /** The new head, and the push if there is to be one. Neither can fail the update. */
    method Conclude(ghost before: seq<Command>, ghost pipeline: seq<Command>) returns (hash: string, ghost issued: nat)
      requires |pipeline| == 9 && pipeline[7] == RevParse && pipeline[8] == Push(branch)
      requires runner.issued == before + pipeline[..7]
      modifies runner`issued
      ensures hash == Output(ReplyTo(runner.answer, before, pipeline, 7))
      ensures issued == (if Pushes() then 9 else 8) && runner.issued == before + pipeline[..issued]
    {
      OneMore(before, pipeline, 7);
      var head := runner.Run(RevParse);
      hash := Output(head);
      issued := 8;
      if Pushes() {
        OneMore(before, pipeline, 8);
        var _ := runner.Run(Push(branch));
        issued := 9;
      }
    }

    /** Staging, then committing: the sixth and seventh commands of the pipeline. */
    method CommitAll(message: string, ghost before: seq<Command>, ghost pipeline: seq<Command>)
        returns (ok: bool, ghost issued: nat)
      requires |pipeline| == 9 && pipeline[5] == AddAll && pipeline[6] == Commit(message)
      requires runner.issued == before + pipeline[..5]
      modifies runner`issued
      ensures 6 <= issued <= 7 && runner.issued == before + pipeline[..issued]
      ensures issued == 6 <==> !Succeeds(runner.answer, before, pipeline, 5)
      ensures ok <==> issued == 7 && Succeeds(runner.answer, before, pipeline, 6)
    {
      OneMore(before, pipeline, 5);
      var add := runner.Run(AddAll);
      if !add.ok { return false, 6; }
      OneMore(before, pipeline, 6);
      var commit := runner.Run(Commit(message));
      ok, issued := commit.ok, 7;
    }
  }

  lemma OneMore(before: seq<Command>, pipeline: seq<Command>, k: nat)
    requires k < |pipeline|
    ensures before + pipeline[..k] + [pipeline[k]] == before + pipeline[..k + 1]
    ensures k == 0 ==> before + [pipeline[0]] == before + pipeline[..1]
  {}

  /**
   An update that issued `n` commands committed exactly when the diff, the build, the vet, the
   test, the staging and the commit all succeeded, the diff listed files, and no listed file lies,
   by its path components, in a protected directory.
   */
  lemma CommittedExactly(answer: seq<Command> -> Reply, before: seq<Command>, message: string, branch: string,
                         dirs: seq<string>, push: bool, n: nat)
    requires n >= 1
    requires Reaches(answer, before, Pipeline(message, branch), dirs, push, n - 1)
    requires !Reaches(answer, before, Pipeline(message, branch), dirs, push, n)
    ensures var pipeline := Pipeline(message, branch);
            var files := ListedFiles(ReplyTo(answer, before, pipeline, 0).output);
            n >= 8 <==>
              && Succeeds(answer, before, pipeline, 0) && Succeeds(answer, before, pipeline, 2)
              && Succeeds(answer, before, pipeline, 3) && Succeeds(answer, before, pipeline, 4)
              && Succeeds(answer, before, pipeline, 5) && Succeeds(answer, before, pipeline, 6)
              && files != []
              && forall f, d :: f in files && d in dirs ==> !Inside(f, d)
  {
    ReachesDown(answer, before, Pipeline(message, branch), dirs, push, n, 7);
    ProtectedByComponents(ListedFiles(ReplyTo(answer, before, Pipeline(message, branch), 0).output), dirs);
  }

  /** Where an update stops: at the first command that fails or may not be issued. */
  lemma StopsWhere(answer: seq<Command> -> Reply, before: seq<Command>, message: string, branch: string,
                   dirs: seq<string>, push: bool, n: nat)
    requires n >= 1
    requires Reaches(answer, before, Pipeline(message, branch), dirs, push, n - 1)
    requires !Reaches(answer, before, Pipeline(message, branch), dirs, push, n)
    ensures var pipeline := [DiffNames, DiffStat, Build, Vet, Test, AddAll, Commit(message), RevParse, Push(branch)];
            var files := ListedFiles(ReplyTo(answer, before, pipeline, 0).output);
            && pipeline == Pipeline(message, branch)
            && n <= 9
            && (n == 1 <==> !Succeeds(answer, before, pipeline, 0) || files == [])
            && (n == 2 <==> && Succeeds(answer, before, pipeline, 0)
                            && exists f, d :: f in files && d in dirs && Inside(f, d))
            && (n >= 3 ==> (n == 3 <==> !Succeeds(answer, before, pipeline, 2)))
            && (n >= 4 ==> (n == 4 <==> !Succeeds(answer, before, pipeline, 3)))
            && (n >= 5 ==> (n == 5 <==> !Succeeds(answer, before, pipeline, 4)))
            && (n >= 6 ==> (n == 6 <==> !Succeeds(answer, before, pipeline, 5)))
            && (n >= 7 ==> (n == 7 <==> !Succeeds(answer, before, pipeline, 6)))
            && (n >= 8 ==> (n == 8 <==> !push))
  {
    ProtectedByComponents(ListedFiles(ReplyTo(answer, before, Pipeline(message, branch), 0).output), dirs);
  }

  lemma ProtectedByComponents(files: seq<string>, dirs: seq<string>)
    ensures Unprotected(files, dirs) <==> forall f, d :: f in files && d in dirs ==> !Inside(f, d)
  {
    forall f, d ensures Touches(f, d) <==> Inside(f, d) {
      TouchesIsComponentPrefix(f, d);
    }
    if f, d :| f in files && d in dirs && Inside(f, d) {
      assert Protected(f, dirs);
    } else {
      forall f | f in files ensures !Protected(f, dirs) {
        assert forall d :: d in dirs ==> !Inside(f, d);
      }
    }
  }
}
