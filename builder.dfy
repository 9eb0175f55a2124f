/**
 * BirdFont's task runner (scripts/builder.py): when a task is up to date, how
 * tasks are named, how a stream of possibly nested tasks is executed, and the
 * tasks Builder.build derives to turn a directory of Vala and C sources into
 * one binary.
 *
 * The file system is a map from path to modification time; a path absent from
 * the map is not a file. Running a shell command is a parameter that maps the
 * command and the file system before it to the file system after it.
 */
module Builder {
  import opened Common
  import opened PyStrings

  /** A task dictionary: 'name' may be missing, and so may 'file_dep'. */
  datatype Task = Task(
    name: Option<string>,
    basename: string,
    fileDep: Option<seq<string>>,
    actions: seq<string>,
    targets: seq<string>)

  /** Path to modification time. */
  type Files = map<string, int>

  /** is_up_to_date's outcome; Abort is the missing dependency that ends the whole build. */
  datatype Verdict = UpToDate | OutOfDate | Abort

  // ---------------------------------------------------------------------------
  // is_up_to_date
  // ---------------------------------------------------------------------------

  /** A dependency whose time counts: every one not named 'placeholder' (see CountedByBasename). */
  predicate Counted(dep: string) {
    dep != Placeholder && !EndsWith(dep, "/" + Placeholder)
  }

  /** The name of the marker file each build directory holds. */
  const Placeholder := "placeholder"

  /** A path's basename is a given plain name exactly when the path is that name or ends in '/' and that name. */
  lemma BasenameIs(dep: string, name: string)
    requires '/' !in name
    ensures Basename(dep) == name <==> dep == name || EndsWith(dep, "/" + name)
  {
    var b := Basename(dep);
    if b == name && dep != name {
      assert |b| < |dep|;
      assert dep[|dep| - |name| - 1..] == "/" + b;
    }
    if EndsWith(dep, "/" + name) {
      var dir := dep[..|dep| - |name| - 1];
      assert dep == dir + "/" + name;
      BasenameOfJoined(dir, name);
    }
  }

  /** Counted is exactly "os.path.basename(dep) is not 'placeholder'". */
  lemma CountedByBasename(dep: string)
    ensures Counted(dep) <==> Basename(dep) != Placeholder
  {
    BasenameIs(dep, Placeholder);
  }

  predicate AllExist(paths: seq<string>, fs: Files) {
    forall i :: 0 <= i < |paths| ==> paths[i] in fs
  }

  /**
   * Both time lists are non-empty and no counted dependency is newer than any
   * target: the newest dependency is no newer than the oldest target.
   */
  predicate TimesInOrder(deps: seq<string>, targets: seq<string>, fs: Files)
    requires AllExist(deps, fs) && AllExist(targets, fs)
  {
    && |targets| > 0
    && (exists i :: 0 <= i < |deps| && Counted(deps[i]))
    && forall i, j :: 0 <= i < |deps| && 0 <= j < |targets| && Counted(deps[i]) ==> fs[deps[i]] <= fs[targets[j]]
  }

  /** The decision is_up_to_date makes, stated without its loops. */
  function Decide(task: Task, fs: Files): Verdict {
    if !AllExist(task.targets, fs) || task.fileDep.None? then OutOfDate
    else if !AllExist(task.fileDep.value, fs) then Abort
    else if TimesInOrder(task.fileDep.value, task.targets, fs) then UpToDate
    else OutOfDate
  }

  /**
   * is_up_to_date: the targets must all exist and the task must list its
   * dependencies; a missing dependency ends the build; otherwise the newest
   * counted dependency must be no newer than the oldest target.
   */
  method IsUpToDate(task: Task, fs: Files) returns (v: Verdict)
    ensures v == Decide(task, fs)
  {
    var targets := task.targets;
    for k := 0 to |targets|
      invariant forall i :: 0 <= i < k ==> targets[i] in fs
    {
      if targets[k] !in fs {
        return OutOfDate;
      }
    }
    if task.fileDep.None? {
      return OutOfDate;
    }
    var deps := task.fileDep.value;
    for k := 0 to |deps|
      invariant forall i :: 0 <= i < k ==> deps[i] in fs
    {
      if deps[k] !in fs {
        return Abort;
      }
    }
    // the first element of the sorted target times
    var oldest := 0;
    for k := 0 to |targets|
      invariant k > 0 ==> exists j :: 0 <= j < k && oldest == fs[targets[j]]
      invariant forall j :: 0 <= j < k ==> oldest <= fs[targets[j]]
    {
      if k == 0 || fs[targets[k]] < oldest {
        oldest := fs[targets[k]];
      }
    }
    // the last element of the sorted counted dependency times
    var newest, counted := 0, 0;
    for k := 0 to |deps|
      invariant counted > 0 <==> exists i :: 0 <= i < k && Counted(deps[i])
      invariant counted > 0 ==> exists i :: 0 <= i < k && Counted(deps[i]) && newest == fs[deps[i]]
      invariant forall i :: 0 <= i < k && Counted(deps[i]) ==> fs[deps[i]] <= newest
    {
      if Counted(deps[k]) {
        if counted == 0 || newest < fs[deps[k]] {
          newest := fs[deps[k]];
        }
        counted := counted + 1;
      }
    }
    if counted == 0 || |targets| == 0 {
      return OutOfDate;
    }
    if newest <= oldest {
      v := UpToDate;
    } else {
      var i :| 0 <= i < |deps| && Counted(deps[i]) && newest == fs[deps[i]];
      var j :| 0 <= j < |targets| && oldest == fs[targets[j]];
      assert fs[deps[i]] > fs[targets[j]];
      v := OutOfDate;
    }
  }

  /** A task with a target that is not a file is never up to date. */
  lemma MissingTargetIsStale(task: Task, fs: Files, t: string)
    requires t in task.targets && t !in fs
    ensures Decide(task, fs) == OutOfDate
  {
    var j :| 0 <= j < |task.targets| && task.targets[j] == t;
    assert !AllExist(task.targets, fs);
  }

  /** Only a dependency that is not a file, once every target exists, stops the build. */
  lemma AbortMeansMissingDependency(task: Task, fs: Files)
    ensures Decide(task, fs) == Abort <==>
      AllExist(task.targets, fs) && task.fileDep.Some? && exists d :: d in task.fileDep.value && d !in fs
  {
    if AllExist(task.targets, fs) && task.fileDep.Some? && !AllExist(task.fileDep.value, fs) {
      var i :| 0 <= i < |task.fileDep.value| && task.fileDep.value[i] !in fs;
      assert task.fileDep.value[i] in task.fileDep.value;
    }
  }

  /** Dependencies named 'placeholder' do not take part: dropping them leaves the decision unchanged, as long as some other dependency remains. */
  lemma PlaceholderIgnored(task: Task, fs: Files, p: string)
    requires !Counted(p) && task.fileDep.Some? && p in fs
    ensures Decide(task.(fileDep := Some(task.fileDep.value + [p])), fs) == Decide(task, fs)
  {
    var deps := task.fileDep.value;
    var more := deps + [p];
    assert forall i :: 0 <= i < |deps| ==> more[i] == deps[i];
    assert AllExist(more, fs) <==> AllExist(deps, fs);
    if AllExist(more, fs) && AllExist(task.targets, fs) {
      if exists i :: 0 <= i < |more| && Counted(more[i]) {
        var i :| 0 <= i < |more| && Counted(more[i]);
        assert i < |deps| && Counted(deps[i]);
      }
    }
  }

  /** get_name: the task's 'name', or its 'basename' when it has none. */
  function GetName(task: Task): string {
    match task.name
    case Some(n) => n
    case None => task.basename
  }

  // ---------------------------------------------------------------------------
  // execute_task and process_tasks
  // ---------------------------------------------------------------------------

  /** What a generator yields: a task, or a nested generator of further items. */
  datatype Item = Single(task: Task) | Nested(items: seq<Item>)

  /** The world the runner acts on: the files, the commands handed to run, the printed lines, and whether the build has ended. */
  datatype Outcome = Outcome(fs: Files, ran: seq<string>, printed: seq<string>, aborted: bool)

  /** Printing and running each action in turn. */
  function RunActions(actions: seq<string>, o: Outcome, run: (string, Files) -> Files): (r: Outcome)
    ensures r.ran == o.ran + actions && r.printed == o.printed + actions && r.aborted == o.aborted
    decreases |actions|
  {
    if actions == [] then o
    else RunActions(actions[1..], o.(fs := run(actions[0], o.fs), ran := o.ran + [actions[0]], printed := o.printed + [actions[0]]), run)
  }

  /** execute_task's effect on the world. */
  function Exec(task: Task, o: Outcome, run: (string, Files) -> Files): Outcome {
    match Decide(task, o.fs)
    case Abort => o.(aborted := true)
    case UpToDate => o.(printed := o.printed + [GetName(task) + " - up to date."])
    case OutOfDate => RunActions(task.actions, o, run)
  }

  /** process_tasks' effect: the items in order, nested ones recursively, until the build ends. */
  function Process(items: seq<Item>, o: Outcome, run: (string, Files) -> Files): Outcome
    decreases items
  {
    if items == [] || o.aborted then o
    else match items[0]
      case Single(t) => Process(items[1..], Exec(t, o, run), run)
      case Nested(sub) => Process(items[1..], Process(sub, o, run), run)
  }

  /** The tasks of a nested stream, in the order process_tasks meets them. */
  function Flatten(items: seq<Item>): seq<Task>
    decreases items
  {
    if items == [] then []
    else match items[0]
      case Single(t) => [t] + Flatten(items[1..])
      case Nested(sub) => Flatten(sub) + Flatten(items[1..])
  }

  /** Processing a flat stream: one task after another. */
  function ProcessFlat(tasks: seq<Task>, o: Outcome, run: (string, Files) -> Files): Outcome
    decreases |tasks|
  {
    if tasks == [] || o.aborted then o
    else ProcessFlat(tasks[1..], Exec(tasks[0], o, run), run)
  }

  /** Once the build has ended, nothing more happens. */
  lemma {:induction false} EndedStaysEnded(tasks: seq<Task>, o: Outcome, run: (string, Files) -> Files)
    requires o.aborted
    ensures ProcessFlat(tasks, o, run) == o
  {
  }

  lemma {:induction false} ProcessFlatAppend(a: seq<Task>, b: seq<Task>, o: Outcome, run: (string, Files) -> Files)
    ensures ProcessFlat(a + b, o, run) == ProcessFlat(b, ProcessFlat(a, o, run), run)
    decreases |a|
  {
    if a == [] {
      assert a + b == b;
    } else if o.aborted {
      EndedStaysEnded(b, o, run);
    } else {
      assert (a + b)[1..] == a[1..] + b;
      ProcessFlatAppend(a[1..], b, Exec(a[0], o, run), run);
    }
  }

  /** Nesting does not matter: process_tasks runs the flattened stream of tasks. */
  lemma {:induction false} ProcessIsFlat(items: seq<Item>, o: Outcome, run: (string, Files) -> Files)
    ensures Process(items, o, run) == ProcessFlat(Flatten(items), o, run)
    decreases items
  {
    if items == [] {
    } else if o.aborted {
      EndedStaysEnded(Flatten(items), o, run);
    } else {
      match items[0]
      case Single(t) =>
        ProcessIsFlat(items[1..], Exec(t, o, run), run);
        assert ([t] + Flatten(items[1..]))[1..] == Flatten(items[1..]);
      case Nested(sub) =>
        ProcessIsFlat(sub, o, run);
        ProcessIsFlat(items[1..], Process(sub, o, run), run);
        ProcessFlatAppend(Flatten(sub), Flatten(items[1..]), o, run);
    }
  }

  /** An up-to-date task runs nothing and only reports its name; a stale one prints and runs every action in order; a missing dependency ends the build. */
  lemma ExecOutcomes(task: Task, o: Outcome, run: (string, Files) -> Files)
    ensures Decide(task, o.fs) == UpToDate ==>
      Exec(task, o, run) == o.(printed := o.printed + [(if task.name.Some? then task.name.value else task.basename) + " - up to date."])
    ensures Decide(task, o.fs) == OutOfDate ==>
      Exec(task, o, run).ran == o.ran + task.actions && !Exec(task, o, run).aborted
    ensures Decide(task, o.fs) == Abort <==> Exec(task, o, run).aborted && !o.aborted
    requires !o.aborted
  {
  }

  /** The state process_tasks acts on. */
  class Runner {
    var fs: Files
    var ran: seq<string>
    var printed: seq<string>
    var aborted: bool

    constructor (fs0: Files)
      ensures fs == fs0 && ran == [] && printed == [] && !aborted
    {
      fs, ran, printed, aborted := fs0, [], [], false;
    }

    function Snapshot(): Outcome
      reads this
    {
      Outcome(fs, ran, printed, aborted)
    }

    /** execute_task. */
    method ExecuteTask(task: Task, run: (string, Files) -> Files)
      requires !aborted
      modifies this
      ensures Snapshot() == Exec(task, old(Snapshot()), run)
    {
      var v := IsUpToDate(task, fs);
      if v == Abort {
        aborted := true;
      } else if v == UpToDate {
        printed := printed + [GetName(task) + " - up to date."];
      } else {
        ghost var o0 := Snapshot();
        for k := 0 to |task.actions|
          invariant RunActions(task.actions, o0, run) == RunActions(task.actions[k..], Snapshot(), run)
        {
          assert task.actions[k..][1..] == task.actions[k + 1..];
          printed := printed + [task.actions[k]];
          ran := ran + [task.actions[k]];
          fs := run(task.actions[k], fs);
        }
      }
    }

    /** process_tasks: each item in order, nested generators recursively, until the build ends. */
    method ProcessTasks(items: seq<Item>, run: (string, Files) -> Files)
      modifies this
      ensures Snapshot() == Process(items, old(Snapshot()), run)
      decreases items
    {
      var k := 0;
      while k < |items| && !aborted
        invariant 0 <= k <= |items|
        invariant Process(items, old(Snapshot()), run) == Process(items[k..], Snapshot(), run)
        decreases |items| - k
      {
        assert items[k..][1..] == items[k + 1..];
        match items[k] {
          case Single(t) =>
            ExecuteTask(t, run);
          case Nested(sub) =>
            ProcessTasks(sub, run);
        }
        k := k + 1;
      }
    }
  }

  // ---------------------------------------------------------------------------
  // Builder.build
  // ---------------------------------------------------------------------------

  /** The suffixes and command placeholders the build works with. */
  const ValaExt := ".vala"
  const CExt := ".c"
  const ObjExt := ".o"
  const HeaderExt := ".h"
  const SourceMark := "C_SOURCE"
  const ObjectMark := "OBJECT_FILE"
  const BuildRoot := "build"
  const BinName := "bin"

  /** A path copied into the build directory is a header when it ends in ".h" (Python's dest[-2:] == ".h"). */
  predicate IsHeader(dest: string) {
    |dest| >= 2 && dest[|dest| - 2] == '.' && dest[|dest| - 1] == 'h'
  }

  /** IsHeader is the suffix test dest[-2:] == ".h". */
  lemma IsHeaderBySuffix(dest: string)
    ensures IsHeader(dest) <==> EndsWith(dest, HeaderExt)
  {
    if |dest| >= 2 {
      assert dest[|dest| - 2..] == [dest[|dest| - 2], dest[|dest| - 1]];
    }
  }

  /** The copied paths that are not headers, in order. */
  function NonHeaders(dests: seq<string>): seq<string>
    decreases |dests|
  {
    if dests == [] then []
    else
      var last := dests[|dests| - 1];
      NonHeaders(dests[..|dests| - 1]) + (if IsHeader(last) then [] else [last])
  }

  /** The copied headers, in order. */
  function Headers(dests: seq<string>): seq<string>
    decreases |dests|
  {
    if dests == [] then []
    else
      var last := dests[|dests| - 1];
      Headers(dests[..|dests| - 1]) + (if IsHeader(last) then [last] else [])
  }

  /** The C file valac generates for a Vala source: build/<src>/X.c for X.vala. */
  function GeneratedC(buildDir: string, valaPath: string): string {
    PathJoin(buildDir, Replace(Basename(valaPath), ValaExt, CExt))
  }

  /** Where a C source or header is copied to. */
  function CopyDest(buildDir: string, path: string): string {
    PathJoin(buildDir, Basename(path))
  }

  /** The object file name for a C source: '.c' becomes '.o', then the basename. */
  function ObjectFile(csource: string): string {
    Basename(Replace(csource, CExt, ObjExt))
  }

  /** The inputs Builder.build reads: its constructor arguments and the sources found below the source directory. */
  datatype Project = Project(
    sourceDir: string,
    valacCommand: string,
    ccCommand: string,
    linkerCommand: string,
    targetBinary: string,
    link: Option<string>,
    dependencies: Option<seq<string>>,
    csources: seq<string>,
    headers: seq<string>,
    valas: seq<string>)

  function BuildDir(p: Project): string {
    PathJoin(BuildRoot, p.sourceDir)
  }

  function BinDir(): string {
    PathJoin(BuildRoot, BinName)
  }

  function BuildFile(p: Project): string {
    PathJoin(BuildDir(p), Placeholder)
  }

  function BinDeps(p: Project): (r: seq<string>)
    ensures p.dependencies.None? ==> r == []
    ensures p.dependencies.Some? ==> |r| == |p.dependencies.value|
  {
    match p.dependencies
    case None => []
    case Some(ds) => seq(|ds|, i requires 0 <= i < |ds| => PathJoin(BinDir(), ds[i]))
  }

  /** Every header path, then every C source path, copied into the build directory. */
  function Copied(p: Project): seq<string> {
    p.headers + p.csources
  }

  function CopyDests(p: Project): seq<string> {
    CopiesOf(BuildDir(p), Copied(p))
  }

  /** Where each of `paths` is copied to, in order. */
  function CopiesOf(buildDir: string, paths: seq<string>): (r: seq<string>)
    ensures |r| == |paths|
    decreases |paths|
  {
    if paths == [] then []
    else CopiesOf(buildDir, paths[..|paths| - 1]) + [CopyDest(buildDir, paths[|paths| - 1])]
  }

  function GeneratedPaths(p: Project): seq<string> {
    GeneratedOf(BuildDir(p), p.valas)
  }

  /** The C file generated for each of `valas`, in order. */
  function GeneratedOf(buildDir: string, valas: seq<string>): (r: seq<string>)
    ensures |r| == |valas|
    decreases |valas|
  {
    if valas == [] then []
    else GeneratedOf(buildDir, valas[..|valas| - 1]) + [GeneratedC(buildDir, valas[|valas| - 1])]
  }

  /** The C files compiled: the generated ones, then the copied non-headers. */
  function CompiledSources(p: Project): seq<string> {
    GeneratedPaths(p) + NonHeaders(CopyDests(p))
  }

  function MkdirTask(p: Project): Task {
    var bf := BuildFile(p);
    Task(None, "mkdir " + BuildDir(p), None,
         ["mkdir -p " + BinDir(), "mkdir -p " + BuildDir(p), "[ -e \"" + bf + "\" ] || touch \"" + bf + "\""],
         [bf])
  }

  function CopyTask(p: Project, path: string): Task {
    Task(None, "copy " + path, Some([BuildFile(p)] + [path]), ["cp " + path + " " + BuildDir(p)], [CopyDest(BuildDir(p), path)])
  }

  /** One copy task per header or C source, in order. */
  function CopyTasks(p: Project, paths: seq<string>): (r: seq<Task>)
    ensures |r| == |paths|
    decreases |paths|
  {
    if paths == [] then []
    else CopyTasks(p, paths[..|paths| - 1]) + [CopyTask(p, paths[|paths| - 1])]
  }

  function ValacTask(p: Project): Task {
    Task(None, "valac " + p.sourceDir, Some([BuildFile(p)] + p.valas + BinDeps(p)), [p.valacCommand], GeneratedPaths(p))
  }

  function CompileTask(p: Project, csource: string): Task {
    var objectPath := PathJoin(BuildDir(p), ObjectFile(csource));
    var command := Replace(Replace(p.ccCommand, SourceMark, csource), ObjectMark, objectPath);
    Task(None, "compile " + Basename(csource),
         Some([BuildFile(p), csource] + BinDeps(p) + Headers(CopyDests(p))),
         [command], [objectPath])
  }

  /** One compile task per C source, in order. */
  function CompileTasks(p: Project, csources: seq<string>): (r: seq<Task>)
    ensures |r| == |csources|
    decreases |csources|
  {
    if csources == [] then []
    else CompileTasks(p, csources[..|csources| - 1]) + [CompileTask(p, csources[|csources| - 1])]
  }

  lemma {:induction false} CompileTaskAt(p: Project, csources: seq<string>, k: nat)
    requires k < |csources|
    ensures CompileTasks(p, csources)[k] == CompileTask(p, csources[k])
    decreases |csources|
  {
    if k < |csources| - 1 {
      CompileTaskAt(p, csources[..|csources| - 1], k);
    }
  }

  function ObjectPaths(p: Project): (r: seq<string>)
    ensures |r| == |CompiledSources(p)|
  {
    var cs := CompiledSources(p);
    seq(|cs|, i requires 0 <= i < |cs| => PathJoin(BuildDir(p), ObjectFile(cs[i])))
  }

  function LinkTask(p: Project): Task {
    Task(None, p.sourceDir, Some(ObjectPaths(p) + [BuildFile(p)] + BinDeps(p)), [p.linkerCommand],
         [PathJoin(BinDir(), p.targetBinary)])
  }

  function CreateLinkTask(p: Project, link: string): Task {
    Task(None, "Create link " + p.targetBinary + " " + link,
         Some([PathJoin(BinDir(), p.targetBinary)]),
         ["cd build/bin/ && ln -s -f " + p.targetBinary + " " + link],
         [PathJoin(BinDir(), link)])
  }

  /** The tasks Builder.build yields, in order. */
  function BuildTasks(p: Project): seq<Task> {
    var copies := Copied(p);
    var compiled := CompiledSources(p);
    [MkdirTask(p)]
    + CopyTasks(p, copies)
    + [ValacTask(p)]
    + CompileTasks(p, compiled)
    + [LinkTask(p)]
    + (match p.link case Some(l) => [CreateLinkTask(p, l)] case None => [])
  }

  /** The loop over the Vala sources: the C file valac writes for each. */
  method GenerateCPaths(p: Project) returns (generated: seq<string>)
    ensures generated == GeneratedPaths(p)
  {
    var buildDir := BuildDir(p);
    generated := [];
    for k := 0 to |p.valas|
      invariant generated == GeneratedOf(buildDir, p.valas[..k])
    {
      assert p.valas[..k + 1][..k] == p.valas[..k];
      generated := generated + [GeneratedC(buildDir, p.valas[k])];
    }
    assert p.valas[..|p.valas|] == p.valas;
  }

  /** The loop over the headers and C sources: a copy task for each, sorting the copies into sources and headers. */
  method CopySources(p: Project) returns (copyTasks: seq<Task>, copiedSources: seq<string>, copiedHeaders: seq<string>)
    ensures copyTasks == CopyTasks(p, Copied(p))
    ensures copiedSources == NonHeaders(CopyDests(p))
    ensures copiedHeaders == Headers(CopyDests(p))
  {
    var copies := p.headers + p.csources;
    var buildDir := BuildDir(p);
    copiedSources, copiedHeaders, copyTasks := [], [], [];
    for k := 0 to |copies|
      invariant copiedSources == NonHeaders(CopiesOf(buildDir, copies[..k]))
      invariant copiedHeaders == Headers(CopiesOf(buildDir, copies[..k]))
      invariant copyTasks == CopyTasks(p, copies[..k])
    {
      var dest := CopyDest(buildDir, copies[k]);
      CopyStep(p, copies, k);
      if !IsHeader(dest) {
        copiedSources := copiedSources + [dest];
      } else {
        copiedHeaders := copiedHeaders + [dest];
      }
      copyTasks := copyTasks + [CopyTask(p, copies[k])];
    }
    assert copies[..|copies|] == copies;
  }

  /** One more copied path: its task is appended, and its copy joins the headers or the sources. */
  lemma CopyStep(p: Project, copies: seq<string>, k: nat)
    requires k < |copies|
    ensures var dest := CopyDest(BuildDir(p), copies[k]);
      var before, after := CopiesOf(BuildDir(p), copies[..k]), CopiesOf(BuildDir(p), copies[..k + 1]);
      && Headers(after) == Headers(before) + (if IsHeader(dest) then [dest] else [])
      && NonHeaders(after) == NonHeaders(before) + (if IsHeader(dest) then [] else [dest])
      && CopyTasks(p, copies[..k + 1]) == CopyTasks(p, copies[..k]) + [CopyTask(p, copies[k])]
  {
    assert copies[..k + 1][..k] == copies[..k];
    var after := CopiesOf(BuildDir(p), copies[..k + 1]);
    assert after[..|after| - 1] == CopiesOf(BuildDir(p), copies[..k]);
  }

  /** The loop over the C sources: a compile task for each. */
  method CompileSources(p: Project, csourcePaths: seq<string>) returns (compileTasks: seq<Task>)
    ensures compileTasks == CompileTasks(p, csourcePaths)
  {
    compileTasks := [];
    for k := 0 to |csourcePaths|
      invariant compileTasks == CompileTasks(p, csourcePaths[..k])
    {
      assert csourcePaths[..k + 1][..k] == csourcePaths[..k];
      compileTasks := compileTasks + [CompileTask(p, csourcePaths[k])];
    }
    assert csourcePaths[..|csourcePaths|] == csourcePaths;
  }

  /**
   * Builder.build: one pass over the Vala sources for the generated C paths,
   * one over the copied files sorting them into sources and headers, one over
   * the C sources to compile, then the link task and the optional symlink.
   */
  method Build(p: Project) returns (tasks: seq<Task>)
    ensures tasks == BuildTasks(p)
  {
    var generated := GenerateCPaths(p);
    var copyTasks, copiedSources, copiedHeaders := CopySources(p);
    var compileTasks := CompileSources(p, generated + copiedSources);
    var linkTasks: seq<Task> := [];
    if p.link.Some? {
      linkTasks := [CreateLinkTask(p, p.link.value)];
    }
    tasks := [MkdirTask(p)] + copyTasks + [ValacTask(p)] + compileTasks + [LinkTask(p)] + linkTasks;
  }

  // ---------------------------------------------------------------------------
  // What the derived paths are
  // ---------------------------------------------------------------------------

  /** One step of str.replace's scan. */
  lemma ReplaceStep(s: string, pat: string, rep: string)
    requires |pat| > 0
    ensures |s| < |pat| ==> Replace(s, pat, rep) == s
    ensures |s| >= |pat| && s[..|pat|] == pat ==> Replace(s, pat, rep) == rep + Replace(s[|pat|..], pat, rep)
    ensures |s| >= |pat| && s[..|pat|] != pat ==> Replace(s, pat, rep) == [s[0]] + Replace(s[1..], pat, rep)
  {
  }

  /** Replacing in a path where the pattern cannot span the separator: each side is replaced on its own. */
  lemma {:induction false} ReplaceAround(a: string, c: char, b: string, pat: string, rep: string)
    requires |pat| > 0 && forall i :: 0 <= i < |pat| ==> pat[i] != c
    ensures Replace(a + [c] + b, pat, rep) == Replace(a, pat, rep) + [c] + Replace(b, pat, rep)
    decreases |a|
  {
    if a == [] {
      ReplaceAroundEmpty(c, b, pat, rep);
    } else if |a| >= |pat| && a[..|pat|] == pat {
      ReplaceAround(a[|pat|..], c, b, pat, rep);
      ReplaceAroundMatch(a, c, b, pat, rep);
    } else if |a| >= |pat| {
      ReplaceAround(a[1..], c, b, pat, rep);
      ReplaceAroundSkip(a, c, b, pat, rep);
    } else {
      ReplaceAround(a[1..], c, b, pat, rep);
      ReplaceAroundShort(a, c, b, pat, rep);
    }
  }

  /** ReplaceAround when nothing precedes the separator. */
  lemma ReplaceAroundEmpty(c: char, b: string, pat: string, rep: string)
    requires |pat| > 0 && forall i :: 0 <= i < |pat| ==> pat[i] != c
    ensures Replace([] + [c] + b, pat, rep) == Replace([], pat, rep) + [c] + Replace(b, pat, rep)
  {
    var s := [c] + b;
    assert [] + [c] + b == s;
    ReplaceStep(s, pat, rep);
    ReplaceStep([], pat, rep);
    ReplaceStep(b, pat, rep);
    if |s| >= |pat| {
      assert s[..|pat|][0] == c;
      assert s[1..] == b;
    }
  }

  /** ReplaceAround's step when `a` starts with the pattern. */
  lemma ReplaceAroundMatch(a: string, c: char, b: string, pat: string, rep: string)
    requires |pat| > 0 && |a| >= |pat| && a[..|pat|] == pat
    requires Replace(a[|pat|..] + [c] + b, pat, rep) == Replace(a[|pat|..], pat, rep) + [c] + Replace(b, pat, rep)
    ensures Replace(a + [c] + b, pat, rep) == Replace(a, pat, rep) + [c] + Replace(b, pat, rep)
  {
    var s := a + [c] + b;
    assert s[..|pat|] == pat;
    assert s[|pat|..] == a[|pat|..] + [c] + b;
    ReplaceStep(s, pat, rep);
    ReplaceStep(a, pat, rep);
  }

  /** ReplaceAround's step when `a` is longer than the pattern but does not start with it. */
  lemma ReplaceAroundSkip(a: string, c: char, b: string, pat: string, rep: string)
    requires |pat| > 0 && |a| >= |pat| && a[..|pat|] != pat
    requires Replace(a[1..] + [c] + b, pat, rep) == Replace(a[1..], pat, rep) + [c] + Replace(b, pat, rep)
    ensures Replace(a + [c] + b, pat, rep) == Replace(a, pat, rep) + [c] + Replace(b, pat, rep)
  {
    SkipBeforeSeparator(a, c, b, pat, rep);
    ReplaceSkips(a, pat, rep);
    var ra, rb := Replace(a[1..], pat, rep), Replace(b, pat, rep);
    assert [a[0]] + (ra + [c] + rb) == ([a[0]] + ra) + [c] + rb;
  }

  /** The scan skips the first character of `a` in `a + [c] + b` too. */
  lemma SkipBeforeSeparator(a: string, c: char, b: string, pat: string, rep: string)
    requires |pat| > 0 && |a| >= |pat| && a[..|pat|] != pat
    ensures Replace(a + [c] + b, pat, rep) == [a[0]] + Replace(a[1..] + [c] + b, pat, rep)
  {
    var s := a + [c] + b;
    assert s[1..] == a[1..] + [c] + b;
    assert s[..|pat|] == a[..|pat|];
    ReplaceSkips(s, pat, rep);
  }

  /** When the text does not start with the pattern, the scan keeps its first character. */
  lemma ReplaceSkips(s: string, pat: string, rep: string)
    requires |pat| > 0 && |s| >= |pat| && s[..|pat|] != pat
    ensures Replace(s, pat, rep) == [s[0]] + Replace(s[1..], pat, rep)
  {
  }

  /** A prefix that fits in the first part of a concatenation is a prefix of that part. */
  lemma PrefixOfLonger(a: string, b: string, n: nat)
    requires n <= |a|
    ensures (a + b)[..n] == a[..n]
  {
  }

  /** ReplaceAround's step when `a` is non-empty and shorter than the pattern. */
  lemma ReplaceAroundShort(a: string, c: char, b: string, pat: string, rep: string)
    requires |pat| > 0 && forall i :: 0 <= i < |pat| ==> pat[i] != c
    requires a != [] && |a| < |pat|
    requires Replace(a[1..] + [c] + b, pat, rep) == Replace(a[1..], pat, rep) + [c] + Replace(b, pat, rep)
    ensures Replace(a + [c] + b, pat, rep) == Replace(a, pat, rep) + [c] + Replace(b, pat, rep)
  {
    var s := a + [c] + b;
    assert s[1..] == a[1..] + [c] + b;
    if |s| >= |pat| {
      assert s[..|pat|][|a|] == c;
    }
    ReplaceStep(s, pat, rep);
    ReplaceStep(a, pat, rep);
    ReplaceStep(a[1..], pat, rep);
  }

  /** A pattern that occurs only at the very end is replaced there and nowhere else. */
  lemma {:induction false} ReplaceAtEnd(a: string, pat: string, rep: string)
    requires |pat| > 0
    requires forall i :: 0 <= i < |a| ==> !OccursAt(a + pat, pat, i)
    ensures Replace(a + pat, pat, rep) == a + rep
    decreases |a|
  {
    var s := a + pat;
    ReplaceStep(s, pat, rep);
    if a == [] {
      assert s == pat && s[..|pat|] == pat && s[|pat|..] == [];
      ReplaceStep([], pat, rep);
    } else {
      assert !OccursAt(s, pat, 0);
      assert s[..|pat|] != pat;
      var t := a[1..] + pat;
      assert s[1..] == t;
      forall i | 0 <= i < |a[1..]|
        ensures !OccursAt(t, pat, i)
      {
        assert !OccursAt(s, pat, i + 1);
        assert t[i..i + |pat|] == s[i + 1..i + 1 + |pat|];
      }
      ReplaceAtEnd(a[1..], pat, rep);
      assert [a[0]] + a[1..] + rep == a + rep;
    }
  }

  /** A stem without ".c" in it, followed by ".c", has no earlier occurrence of ".c". */
  lemma OnlyFinalSuffix(stem: string, suffix: string)
    requires |suffix| >= 2 && suffix[0] == '.' && '.' !in suffix[1..]
    requires !Contains(stem, suffix)
    ensures forall i :: 0 <= i < |stem| ==> !OccursAt(stem + suffix, suffix, i)
  {
    var s := stem + suffix;
    forall i | 0 <= i < |stem|
      ensures !OccursAt(s, suffix, i)
    {
      if i + |suffix| <= |stem| {
        assert !OccursAt(stem, suffix, i);
        assert s[i..i + |suffix|] == stem[i..i + |suffix|];
      } else {
        // the '.' at |stem| sits inside the window, where the suffix has no '.'
        var j := |stem| - i;
        assert suffix[j] != '.' by {
          assert suffix[j] == suffix[1..][j - 1];
        }
        assert s[i..i + |suffix|][j] == s[|stem|] == '.';
      }
    }
  }

  /** A file X.c in any directory compiles to X.o, when X itself holds neither '/' nor ".c". */
  lemma ObjectOfSource(dir: string, stem: string)
    requires '/' !in stem && !Contains(stem, ".c")
    ensures ObjectFile(dir + "/" + stem + ".c") == stem + ".o"
  {
    OnlyFinalSuffix(stem, ".c");
    ReplaceAtEnd(stem, ".c", ".o");
    ReplaceAround(dir, '/', stem + ".c", ".c", ".o");
    assert dir + "/" + stem + ".c" == dir + ['/'] + (stem + ".c");
    var replaced := Replace(dir, ".c", ".o") + "/" + (stem + ".o");
    assert '/' !in stem + ".o";
    BasenameOfJoined(Replace(dir, ".c", ".o"), stem + ".o");
  }

  /** A Vala file X.vala in any directory yields <build dir>/X.c, when X holds neither '/' nor ".vala". */
  lemma GeneratedOfVala(buildDir: string, dir: string, stem: string)
    requires buildDir != "" && !EndsWith(buildDir, "/")
    requires '/' !in stem && !Contains(stem, ".vala")
    ensures GeneratedC(buildDir, dir + "/" + stem + ".vala") == buildDir + "/" + stem + ".c"
  {
    BasenameOfJoined(dir, stem + ".vala");
    assert dir + "/" + stem + ".vala" == dir + "/" + (stem + ".vala");
    OnlyFinalSuffix(stem, ".vala");
    ReplaceAtEnd(stem, ".vala", ".c");
  }

  /** Headers and non-headers split the copied paths between them. */
  lemma {:induction false} CopiesSplit(dests: seq<string>)
    ensures multiset(Headers(dests)) + multiset(NonHeaders(dests)) == multiset(dests)
    decreases |dests|
  {
    if dests != [] {
      var init, last := dests[..|dests| - 1], dests[|dests| - 1];
      CopiesSplit(init);
      assert dests == init + [last];
      if IsHeader(last) {
        assert Headers(dests) == Headers(init) + [last] && NonHeaders(dests) == NonHeaders(init);
      } else {
        assert Headers(dests) == Headers(init) && NonHeaders(dests) == NonHeaders(init) + [last];
      }
    }
  }

  /** Copying the headers gives only headers. */
  lemma {:induction false} HeaderCopies(buildDir: string, paths: seq<string>)
    requires forall i :: 0 <= i < |paths| ==> IsHeader(paths[i])
    ensures Headers(CopiesOf(buildDir, paths)) == CopiesOf(buildDir, paths)
    ensures NonHeaders(CopiesOf(buildDir, paths)) == []
    decreases |paths|
  {
    if paths != [] {
      var init := paths[..|paths| - 1];
      HeaderCopies(buildDir, init);
      HeaderCopyIsHeader(buildDir, paths[|paths| - 1]);
      var ds := CopiesOf(buildDir, paths);
      assert ds[..|ds| - 1] == CopiesOf(buildDir, init);
    }
  }

  /** Copying sources whose basenames do not end in ".h" gives no header. */
  lemma {:induction false} SourceCopies(buildDir: string, paths: seq<string>)
    requires forall i :: 0 <= i < |paths| ==> !IsHeader(Basename(paths[i]))
    ensures NonHeaders(CopiesOf(buildDir, paths)) == CopiesOf(buildDir, paths)
    ensures Headers(CopiesOf(buildDir, paths)) == []
    decreases |paths|
  {
    if paths != [] {
      var init := paths[..|paths| - 1];
      SourceCopies(buildDir, init);
      SourceCopyIsNotHeader(buildDir, paths[|paths| - 1]);
      var ds := CopiesOf(buildDir, paths);
      assert ds[..|ds| - 1] == CopiesOf(buildDir, init);
    }
  }

  /** Copying a concatenation copies each part. */
  lemma {:induction false} CopiesAppend(buildDir: string, a: seq<string>, b: seq<string>)
    ensures CopiesOf(buildDir, a + b) == CopiesOf(buildDir, a) + CopiesOf(buildDir, b)
    decreases |b|
  {
    if b == [] {
      assert a + b == a;
    } else {
      var init := b[..|b| - 1];
      assert (a + b)[..|a + b| - 1] == a + init;
      CopiesAppend(buildDir, a, init);
    }
  }

  /** Filtering a concatenation filters each part. */
  lemma {:induction false} FilterAppend(a: seq<string>, b: seq<string>)
    ensures Headers(a + b) == Headers(a) + Headers(b)
    ensures NonHeaders(a + b) == NonHeaders(a) + NonHeaders(b)
    decreases |b|
  {
    if b == [] {
      assert a + b == a;
    } else {
      var init := b[..|b| - 1];
      assert (a + b)[..|a + b| - 1] == a + init;
      FilterAppend(a, init);
    }
  }

  /** A copy's path is the build directory with a trailing '/', followed by the basename. */
  lemma CopyDestShape(buildDir: string, path: string)
    ensures var joint := if buildDir == "" || EndsInSlash(buildDir) then buildDir else buildDir + "/";
      CopyDest(buildDir, path) == joint + Basename(path) && (joint == "" || EndsInSlash(joint))
  {
    var b := Basename(path);
    assert !IsAbsolute(b) by {
      if b != [] {
        assert b[0] in b;
      }
    }
  }

  /** Behind a separator, a plain name is a header exactly when it is one on its own. */
  lemma HeaderBehindSlash(joint: string, b: string)
    requires joint == "" || EndsInSlash(joint)
    ensures IsHeader(joint + b) <==> IsHeader(b)
  {
    var d := joint + b;
    if |b| >= 2 {
      assert d[|d| - 2] == b[|b| - 2] && d[|d| - 1] == b[|b| - 1];
    } else if |b| == 1 && |d| >= 2 {
      assert d[|d| - 2] == joint[|joint| - 1];
    } else if |b| == 0 && joint != "" {
      assert d[|d| - 1] == joint[|joint| - 1];
    }
  }

  /** A path ending in ".h" has a basename ending in ".h". */
  lemma HeaderBasename(path: string)
    requires IsHeader(path)
    ensures IsHeader(Basename(path))
  {
    var b := Basename(path);
    if |b| < 2 {
      assert false;
    }
    assert b[|b| - 2] == path[|path| - 2] && b[|b| - 1] == path[|path| - 1];
  }

  /** A header keeps its ".h" when copied into the build directory. */
  lemma HeaderCopyIsHeader(buildDir: string, path: string)
    requires IsHeader(path)
    ensures IsHeader(CopyDest(buildDir, path))
  {
    CopyDestShape(buildDir, path);
    HeaderBasename(path);
    HeaderBehindSlash(if buildDir == "" || EndsInSlash(buildDir) then buildDir else buildDir + "/", Basename(path));
  }

  /** A path whose basename does not end in ".h" is not a header once copied. */
  lemma SourceCopyIsNotHeader(buildDir: string, path: string)
    requires !IsHeader(Basename(path))
    ensures !IsHeader(CopyDest(buildDir, path))
  {
    CopyDestShape(buildDir, path);
    HeaderBehindSlash(if buildDir == "" || EndsInSlash(buildDir) then buildDir else buildDir + "/", Basename(path));
  }

  /**
   * Copied headers go to the header list and are never compiled: when every
   * header path ends in ".h" and no C source's basename does, the header list
   * is the headers' copies and the compiled sources are the generated C files
   * followed by the C sources' copies.
   */
  lemma HeadersNeverCompiled(p: Project)
    requires forall i :: 0 <= i < |p.headers| ==> IsHeader(p.headers[i])
    requires forall i :: 0 <= i < |p.csources| ==> !IsHeader(Basename(p.csources[i]))
    ensures Headers(CopyDests(p)) == CopiesOf(BuildDir(p), p.headers)
    ensures CompiledSources(p) == GeneratedPaths(p) + CopiesOf(BuildDir(p), p.csources)
  {
    var bd := BuildDir(p);
    var hs, cs := CopiesOf(bd, p.headers), CopiesOf(bd, p.csources);
    CopiesAppend(bd, p.headers, p.csources);
    HeaderCopies(bd, p.headers);
    SourceCopies(bd, p.csources);
    FilterAppend(hs, cs);
    assert Headers(hs + cs) == hs + [];
    assert NonHeaders(hs + cs) == [] + cs;
  }

  /** The build yields the mkdir, valac and link tasks, one copy task per header and per C source, one compile task per Vala and C source, and the symlink task when a link is asked for. */
  lemma BuildTaskCount(p: Project)
    requires forall i :: 0 <= i < |p.headers| ==> IsHeader(p.headers[i])
    requires forall i :: 0 <= i < |p.csources| ==> !IsHeader(Basename(p.csources[i]))
    ensures |BuildTasks(p)| == 3 + |p.headers| + 2 * |p.csources| + |p.valas| + (if p.link.Some? then 1 else 0)
  {
    HeadersNeverCompiled(p);
  }
}
