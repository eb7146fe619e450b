/**
 * The build runner of scripting/get_game_data.py (`compile_code_files`): for every
 * `*.go` path below the target directory it changes into the file's directory,
 * runs `go build <name>` and changes back. The process state it touches (working
 * directory, the `os.chdir` calls, the commands run, `COMPILE_COMMAND`) is a
 * `Process` object; the external program is a function from working directory and
 * argument vector to exit status.
 */
module Build {
  import opened Glob
  import opened Paths

  /** `COMPILE_COMMAND = ["go", "build"]`. */
  const COMPILE_COMMAND: seq<string> := ["go", "build"]

  /** One `subprocess.run` call: where it ran, what it ran and the exit status it got. */
  datatype Invocation = Invocation(workdir: Path, argv: seq<string>, status: int)

  /**
   * `path.rglob(FILE_EXTENSION)`, given `tree`, the enumeration of every path below
   * the root: the paths whose name ends in ".go", files and directories alike.
   */
  function MatchedFiles(tree: seq<Path>): (files: seq<Path>)
    ensures |files| <= |tree|
    ensures forall p :: p in files ==> p in tree && Matches(FILE_EXTENSION, Name(p))
  {
    if tree == [] then []
    else
      var last := tree[|tree| - 1];
      MatchedFiles(tree[..|tree| - 1]) + (if Matches(FILE_EXTENSION, Name(last)) then [last] else [])
  }

  /** Every enumerated path whose name ends in ".go" is compiled, and only those. */
  lemma {:induction false} MatchedFilesExact(tree: seq<Path>, p: Path)
    ensures p in MatchedFiles(tree) <==> p in tree && |Name(p)| >= 3 && Name(p)[|Name(p)| - 3..] == ".go"
    decreases |tree|
  {
    FileExtensionAcceptance(Name(p));
    if tree != [] {
      var init := tree[..|tree| - 1];
      MatchedFilesExact(init, p);
      assert tree == init + [tree[|tree| - 1]];
    }
  }

  /** A single enumerated path is kept iff its name ends in ".go". */
  lemma MatchedFilesOne(p: Path)
    ensures MatchedFiles([p]) == if Matches(FILE_EXTENSION, Name(p)) then [p] else []
  {
    assert [p][..0] == [];
  }

  /**
   * The matched paths of two consecutive stretches of the enumeration are those of
   * the first followed by those of the second: with MatchedFilesOne, every `*.go`
   * path is kept once, in enumeration order.
   */
  lemma {:induction false} MatchedFilesAppend(a: seq<Path>, b: seq<Path>)
    ensures MatchedFiles(a + b) == MatchedFiles(a) + MatchedFiles(b)
    decreases |b|
  {
    if b == [] {
      assert a + b == a;
    } else {
      var init := b[..|b| - 1];
      var last := b[|b| - 1];
      var kept := if Matches(FILE_EXTENSION, Name(last)) then [last] else [];
      MatchedFilesAppend(a, init);
      assert (a + b)[..|a + b| - 1] == a + init;
      assert (a + b)[|a + b| - 1] == last;
      assert MatchedFiles(a + b) == MatchedFiles(a + init) + kept;
      assert MatchedFiles(b) == MatchedFiles(init) + kept;
      assert MatchedFiles(a) + MatchedFiles(init) + kept == MatchedFiles(a) + (MatchedFiles(init) + kept);
    }
  }

  /** The invocation `compile_code_files` makes for one file. */
  function BuildOf(file: Path, command: seq<string>, exitStatus: (Path, seq<string>) -> int): (inv: Invocation)
    ensures inv.workdir == Parent(file)
    ensures |inv.argv| == |command| + 1 && inv.argv[..|command|] == command && inv.argv[|command|] == Name(file)
    ensures inv.status == exitStatus(inv.workdir, inv.argv)
  {
    var argv := command + [Name(file)];
    Invocation(Parent(file), argv, exitStatus(Parent(file), argv))
  }

  /** The invocations made for `files`, in order. */
  function Builds(files: seq<Path>, command: seq<string>, exitStatus: (Path, seq<string>) -> int): seq<Invocation>
  {
    if files == [] then []
    else
      Builds(files[..|files| - 1], command, exitStatus) + [BuildOf(files[|files| - 1], command, exitStatus)]
  }

  /** The `os.chdir` calls made for `files` when the loop starts in `home`. */
  function ChdirTrace(files: seq<Path>, home: Path): seq<Path>
  {
    if files == [] then []
    else ChdirTrace(files[..|files| - 1], home) + [Parent(files[|files| - 1]), home]
  }

  /**
   * One invocation per matched file, in enumeration order: the k-th runs
   * `command + [name]` in the k-th file's directory.
   */
  lemma {:induction false} BuildsInOrder(files: seq<Path>, command: seq<string>, exitStatus: (Path, seq<string>) -> int)
    ensures |Builds(files, command, exitStatus)| == |files|
    ensures forall k :: 0 <= k < |files| ==>
      && Builds(files, command, exitStatus)[k].workdir == Parent(files[k])
      && Builds(files, command, exitStatus)[k].argv == command + [Name(files[k])]
    decreases |files|
  {
    if files != [] {
      var init := files[..|files| - 1];
      BuildsInOrder(init, command, exitStatus);
      forall k | 0 <= k < |init|
        ensures files[k] == init[k]
      {
      }
    }
  }

  /**
   * A failing build does not stop the scan: whatever the exit statuses, the same
   * commands are run in the same directories.
   */
  lemma BuildsIgnoreStatus(files: seq<Path>, command: seq<string>, st1: (Path, seq<string>) -> int, st2: (Path, seq<string>) -> int)
    ensures |Builds(files, command, st1)| == |Builds(files, command, st2)| == |files|
    ensures forall k :: 0 <= k < |files| ==>
      && Builds(files, command, st1)[k].workdir == Builds(files, command, st2)[k].workdir
      && Builds(files, command, st1)[k].argv == Builds(files, command, st2)[k].argv
  {
    BuildsInOrder(files, command, st1);
    BuildsInOrder(files, command, st2);
  }

  /**
   * The working directory goes to each file's directory and straight back to
   * where the loop started, once per file.
   */
  lemma {:induction false} ChdirTraceRestores(files: seq<Path>, home: Path)
    ensures |ChdirTrace(files, home)| == 2 * |files|
    ensures forall k :: 0 <= k < |files| ==>
      ChdirTrace(files, home)[2 * k] == Parent(files[k]) && ChdirTrace(files, home)[2 * k + 1] == home
    decreases |files|
  {
    if files != [] {
      var init := files[..|files| - 1];
      ChdirTraceRestores(init, home);
      forall k | 0 <= k < |init|
        ensures files[k] == init[k]
      {
      }
    }
  }

  /** Extending the matched prefix by one file adds that file's build. */
  lemma BuildsPrefixStep(files: seq<Path>, i: nat, command: seq<string>, exitStatus: (Path, seq<string>) -> int)
    requires i < |files|
    ensures Builds(files[..i + 1], command, exitStatus) == Builds(files[..i], command, exitStatus) + [BuildOf(files[i], command, exitStatus)]
  {
    assert files[..i + 1][..i] == files[..i];
  }

  /** Extending the matched prefix by one file adds its enter-and-return pair. */
  lemma ChdirPrefixStep(files: seq<Path>, i: nat, home: Path)
    requires i < |files|
    ensures ChdirTrace(files[..i + 1], home) == ChdirTrace(files[..i], home) + [Parent(files[i]), home]
  {
    assert files[..i + 1][..i] == files[..i];
  }

  /** The state of the Python process that the runner reads and changes. */
  class Process {
    /** The process working directory. */
    var cwd: Path
    /** Every `os.chdir` argument so far, in order. */
    var chdirs: seq<Path>
    /** Every `subprocess.run` so far, in order. */
    var invocations: seq<Invocation>
    /** The module-level list `COMPILE_COMMAND`. */
    var compileCommand: seq<string>

    constructor (start: Path)
      ensures cwd == start && chdirs == [] && invocations == [] && compileCommand == COMPILE_COMMAND
    {
      cwd := start;
      chdirs := [];
      invocations := [];
      compileCommand := COMPILE_COMMAND;
    }

    /** `os.chdir(dir)`. */
    method Chdir(dir: Path)
      modifies this
      ensures cwd == dir && chdirs == old(chdirs) + [dir]
      ensures invocations == old(invocations) && compileCommand == old(compileCommand)
    {
      cwd := dir;
      chdirs := chdirs + [dir];
    }

    /** `subprocess.run(argv, ...)` without `check`: a non-zero status is only returned. */
    method Run(argv: seq<string>, exitStatus: (Path, seq<string>) -> int) returns (status: int)
      modifies this
      ensures status == exitStatus(cwd, argv)
      ensures invocations == old(invocations) + [Invocation(cwd, argv, status)]
      ensures cwd == old(cwd) && chdirs == old(chdirs) && compileCommand == old(compileCommand)
    {
      status := exitStatus(cwd, argv);
      invocations := invocations + [Invocation(cwd, argv, status)];
    }

    /**
     * `compile_code_files`: one `go build <name>` per matched path, run in that
     * path's directory; the working directory is restored after every run, and
     * `COMPILE_COMMAND` is left as it was (the command is a new list).
     */
    method CompileCodeFiles(tree: seq<Path>, exitStatus: (Path, seq<string>) -> int)
      modifies this
      ensures cwd == old(cwd) && compileCommand == old(compileCommand)
      ensures invocations == old(invocations) + Builds(MatchedFiles(tree), old(compileCommand), exitStatus)
      ensures chdirs == old(chdirs) + ChdirTrace(MatchedFiles(tree), old(cwd))
    {
      var files := MatchedFiles(tree);
      ghost var home := cwd;
      ghost var command0 := compileCommand;
      ghost var invocations0 := invocations;
      ghost var chdirs0 := chdirs;
      var i := 0;
      while i < |files|
        invariant 0 <= i <= |files|
        invariant cwd == home && compileCommand == command0
        invariant invocations == invocations0 + Builds(files[..i], command0, exitStatus)
        invariant chdirs == chdirs0 + ChdirTrace(files[..i], home)
      {
        var file := files[i];
        var saved := cwd;
        Chdir(Parent(file));
        var command := compileCommand + [Name(file)];
        var status := Run(command, exitStatus);
        Chdir(saved);
        BuildsPrefixStep(files, i, command0, exitStatus);
        ChdirPrefixStep(files, i, home);
        i := i + 1;
      }
      assert files[..|files|] == files;
    }
  }
}
