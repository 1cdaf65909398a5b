/**
 * Choosing which files to retrace (Retrace.kt:46-76). The log path is a
 * regular file, a directory, or neither; a regular file is retraced when its
 * name starts with `log_` and its extension is `txt`, and a directory is
 * walked child by child, in the order the file system lists them, appending
 * one retrace job per selected file to a shared job list.
 */
module RetraceJobs {
  import opened Wrappers
  import opened Text

  /** A path on disk as `File.isFile` / `File.isDirectory` / `listFiles()` see it. */
  datatype Entry =
    | RegularFile(name: string)
    | Directory(name: string, children: seq<Entry>)
    | Neither(name: string)    // neither a file nor a directory, e.g. a path that does not exist

  /** A retrace job: `retraceFile(mappingFile, <file>)` for the file at `path` (its names from the root down). */
  datatype RetraceJob = RetraceJob(path: seq<string>)

  /** Kotlin `File.extension`: the text after the last `.` of the name, or "" when it has none. */
  function Extension(name: string): string
  {
    match LastIndexOf(name, '.')
      case None => ""
      case Some(i) => name[i + 1..]
  }

  /** The test of Retrace.kt:63. */
  predicate Eligible(name: string)
  {
    StartsWith(name, "log_") && Extension(name) == "txt"
  }

  /** "Starts with log_ and ends with .txt": the extension is `txt` exactly when the name ends in `.txt`. */
  lemma EligibleIffLogTxt(name: string)
    ensures Eligible(name) <==> StartsWith(name, "log_") && EndsWith(name, ".txt")
  {
    if Extension(name) == "txt" {
      TxtExtensionEndsWith(name);
    }
    if EndsWith(name, ".txt") {
      EndsWithTxtExtension(name);
    }
  }

  /** A name whose extension is `txt` ends in `.txt`. */
  lemma TxtExtensionEndsWith(name: string)
    requires Extension(name) == "txt"
    ensures EndsWith(name, ".txt")
  {
    LastIndexOfIsLast(name, '.');
    var i := LastIndexOf(name, '.').value;
    assert name[i + 1..] == "txt";
    assert |name| == i + 4;
    assert name[i..] == [name[i]] + name[i + 1..];
  }

  /** A name ending in `.txt` has extension `txt`: the dot there is its last one. */
  lemma EndsWithTxtExtension(name: string)
    requires EndsWith(name, ".txt")
    ensures Extension(name) == "txt"
  {
    var i := |name| - 4;
    var tail := name[i..];
    assert tail == ".txt";
    assert name[i] == tail[0] == '.';
    assert name[i + 1..] == tail[1..] == "txt";
    assert '.' !in "txt";
    LastIndexOfAt(name, '.', i);
  }

  /**
   * The temporary files a flush creates beside a log (Retrace.kt:117, 126) are
   * eligible logs themselves: a later walk over the directory queues any that
   * were left behind.
   */
  lemma TempFilesAreEligible(name: string)
    requires Eligible(name)
    ensures Eligible(name + "_retrace_obfuscated_temp.txt")
    ensures Eligible(name + "_retrace_deobfuscated_temp.txt")
  {
    EligibleWithTxtSuffix(name, "_retrace_obfuscated_temp.txt");
    EligibleWithTxtSuffix(name, "_retrace_deobfuscated_temp.txt");
  }

  /** An eligible name followed by a suffix ending in `.txt` is eligible. */
  lemma EligibleWithTxtSuffix(name: string, suffix: string)
    requires Eligible(name) && EndsWith(suffix, ".txt")
    ensures Eligible(name + suffix)
  {
    var full := name + suffix;
    assert full[..4] == name[..4];
    assert full[|full| - 4..] == suffix[|suffix| - 4..];
    EndsWithTxtExtension(full);
  }

  /** A directory's jobs for its first `k` children, in listing order. */
  function ChildJobs(at: seq<string>, e: Entry, k: nat): seq<RetraceJob>
    requires e.Directory? && k <= |e.children|
    decreases e, k
  {
    if k == 0 then []
    else ChildJobs(at, e, k - 1) + Jobs(at + [e.name], e.children[k - 1])
  }

  /** The jobs `getRetraceJobs` appends for entry `e` lying under the directories `at`. */
  function Jobs(at: seq<string>, e: Entry): seq<RetraceJob>
    decreases e, if e.Directory? then |e.children| + 1 else 0
  {
    match e
      case RegularFile(name) => if Eligible(name) then [RetraceJob(at + [name])] else []
      case Directory(_, children) => ChildJobs(at, e, |children|)
      case Neither(_) => []
  }

  /**
   * `rel` is the path, from `e` down, of an eligible regular file inside `e`
   * (or `e` itself).
   */
  predicate Selected(e: Entry, rel: seq<string>)
    decreases e, 1
  {
    match e
      case RegularFile(name) => rel == [name] && Eligible(name)
      case Directory(name, children) => |rel| > 1 && rel[0] == name && SelectedAmong(e, |children|, rel[1..])
      case Neither(_) => false
  }

  /** `rel` leads to an eligible regular file inside one of the first `k` children of directory `e`. */
  predicate SelectedAmong(e: Entry, k: nat, rel: seq<string>)
    requires e.Directory? && k <= |e.children|
    decreases e, 0
  {
    exists c :: 0 <= c < k && Selected(e.children[c], rel)
  }

  /** One more child: selected among the first `k` is selected among the first `k - 1` or in child `k - 1`. */
  lemma SelectedAmongStep(e: Entry, k: nat, rel: seq<string>)
    requires e.Directory? && 0 < k <= |e.children|
    ensures SelectedAmong(e, k, rel) <==> SelectedAmong(e, k - 1, rel) || Selected(e.children[k - 1], rel)
  {
    if SelectedAmong(e, k, rel) && !Selected(e.children[k - 1], rel) {
      var c :| 0 <= c < k && Selected(e.children[c], rel);
      assert c < k - 1;
    }
  }

  /** Every job's path runs through `at` and then at least one more name. */
  lemma {:induction false} JobsUnder(at: seq<string>, e: Entry)
    ensures forall j :: j in Jobs(at, e) ==> |at| < |j.path| && j.path[..|at|] == at
    decreases e, if e.Directory? then |e.children| + 1 else 0
  {
    if e.Directory? {
      ChildJobsUnder(at, e, |e.children|);
    }
  }

  /** `JobsUnder` for the first `k` children of a directory. */
  lemma {:induction false} ChildJobsUnder(at: seq<string>, e: Entry, k: nat)
    requires e.Directory? && k <= |e.children|
    ensures forall j :: j in ChildJobs(at, e, k) ==> |at| + 1 < |j.path| && j.path[..|at| + 1] == at + [e.name]
    decreases e, k
  {
    if k > 0 {
      var inner := at + [e.name];
      ChildJobsUnder(at, e, k - 1);
      JobsUnder(inner, e.children[k - 1]);
    }
  }

  /**
   * The jobs are exactly the eligible regular files of the tree: every job's
   * path lies under `at`, and a path under `at` has a job if and only if it
   * leads to an eligible regular file.
   */
  lemma JobsAreSelectedFiles(at: seq<string>, e: Entry)
    ensures forall j :: j in Jobs(at, e) ==> |at| < |j.path| && j.path[..|at|] == at
    ensures forall rel :: RetraceJob(at + rel) in Jobs(at, e) <==> Selected(e, rel)
  {
    JobsUnder(at, e);
    forall rel ensures RetraceJob(at + rel) in Jobs(at, e) <==> Selected(e, rel) {
      JobSelected(at, e, rel);
    }
  }

  /** `JobsAreSelectedFiles` for one path. */
  lemma {:induction false} JobSelected(at: seq<string>, e: Entry, rel: seq<string>)
    ensures RetraceJob(at + rel) in Jobs(at, e) <==> Selected(e, rel)
    decreases e, if e.Directory? then |e.children| + 1 else 0
  {
    match e
      case RegularFile(name) =>
        if RetraceJob(at + rel) in Jobs(at, e) {
          assert at + rel == at + [name];
          assert rel == (at + rel)[|at|..];
        }
      case Directory(name, children) =>
        ChildJobSelected(at, e, |children|, rel);
      case Neither(_) =>
  }

  /** `JobSelected` for the first `k` children of a directory. */
  lemma {:induction false} ChildJobSelected(at: seq<string>, e: Entry, k: nat, rel: seq<string>)
    requires e.Directory? && k <= |e.children|
    ensures RetraceJob(at + rel) in ChildJobs(at, e, k) <==>
      |rel| > 1 && rel[0] == e.name && SelectedAmong(e, k, rel[1..])
    decreases e, k
  {
    if k > 0 {
      var inner := at + [e.name];
      var child := e.children[k - 1];
      ChildJobSelected(at, e, k - 1, rel);
      JobsUnder(inner, child);
      ChildInner(at, e.name, rel, Jobs(inner, child));
      var under := |rel| > 1 && rel[0] == e.name;
      if under {
        JobSelected(inner, child, rel[1..]);
      }
      ChildJobsMember(at, e, k, rel, under);
    }
  }

  /** The step of `ChildJobSelected` from `k - 1` children to `k`, for one path. */
  lemma ChildJobsMember(at: seq<string>, e: Entry, k: nat, rel: seq<string>, under: bool)
    requires e.Directory? && 0 < k <= |e.children|
    requires under == (|rel| > 1 && rel[0] == e.name)
    requires (RetraceJob(at + rel) in ChildJobs(at, e, k - 1)) == (under && SelectedAmong(e, k - 1, rel[1..]))
    requires under ==> (RetraceJob(at + rel) in Jobs(at + [e.name], e.children[k - 1])) == Selected(e.children[k - 1], rel[1..])
    requires !under ==> RetraceJob(at + rel) !in Jobs(at + [e.name], e.children[k - 1])
    ensures RetraceJob(at + rel) in ChildJobs(at, e, k) <==> under && SelectedAmong(e, k, rel[1..])
  {
    assert ChildJobs(at, e, k) == ChildJobs(at, e, k - 1) + Jobs(at + [e.name], e.children[k - 1]);
    if under {
      SelectedAmongStep(e, k, rel[1..]);
    }
  }

  /**
   * A job under `at + [name]` for path `at + rel` is the job for `rel[1..]`
   * below `name`, and `rel` then starts with `name`.
   */
  lemma ChildInner(at: seq<string>, name: string, rel: seq<string>, jobs: seq<RetraceJob>)
    requires forall j :: j in jobs ==> |at| + 1 < |j.path| && j.path[..|at| + 1] == at + [name]
    ensures RetraceJob(at + rel) in jobs ==> |rel| > 1 && rel[0] == name
    ensures |rel| > 0 && rel[0] == name ==> at + rel == (at + [name]) + rel[1..]
  {
    if RetraceJob(at + rel) in jobs {
      var p := at + rel;
      assert p[..|at| + 1] == at + [name];
      assert rel[0] == p[|at|];
    }
    if |rel| > 0 && rel[0] == name {
      assert rel == [name] + rel[1..];
    }
  }

  /** The job list `getRetraceJobs` appends to. */
  class JobList {
    var jobs: seq<RetraceJob>

    constructor()
      ensures jobs == []
    {
      jobs := [];
    }
  }

  /**
   * Retrace.kt:61-76: a regular file adds a job when it is eligible; a
   * directory recurses into each child in listing order; anything else adds
   * nothing.
   */
  method GetRetraceJobs(at: seq<string>, logFile: Entry, jobs: JobList)
    modifies jobs
    ensures jobs.jobs == old(jobs.jobs) + Jobs(at, logFile)
    decreases logFile, 1
  {
    match logFile {
      case RegularFile(name) =>
        if StartsWith(name, "log_") && Extension(name) == "txt" {
          jobs.jobs := jobs.jobs + [RetraceJob(at + [name])];
        }
      case Directory(_, _) =>
        GetDirectoryJobs(at, logFile, jobs);
      case Neither(_) =>
    }
  }

  /** Retrace.kt:69-74: the loop over a directory's children, recursing into each in order. */
  method GetDirectoryJobs(at: seq<string>, dir: Entry, jobs: JobList)
    requires dir.Directory?
    modifies jobs
    ensures jobs.jobs == old(jobs.jobs) + ChildJobs(at, dir, |dir.children|)
    decreases dir, 0
  {
    var i := 0;
    while i < |dir.children|
      invariant 0 <= i <= |dir.children|
      invariant jobs.jobs == old(jobs.jobs) + ChildJobs(at, dir, i)
    {
      assert ChildJobs(at, dir, i + 1) == ChildJobs(at, dir, i) + Jobs(at + [dir.name], dir.children[i]);
      GetRetraceJobs(at + [dir.name], dir.children[i], jobs);
      i := i + 1;
    }
  }

  /** Retrace.kt:50-53: the jobs collected for the log path, before they are run. */
  method CollectJobs(logFile: Entry) returns (jobs: seq<RetraceJob>)
    ensures jobs == Jobs([], logFile)
  {
    var list := new JobList();
    GetRetraceJobs([], logFile, list);
    jobs := list.jobs;
  }
}
