/**
 * The timestamp-only runnable decision of waf's stateless build kit
 * (build_system_kit/nostate/ebdlib.py, `status`): a task waits for its
 * predecessors, then runs when some input, declared dependency or implicit
 * dependency is newer than some output, or when a file cannot be stat'ed.
 * The file system is a map from node path to modification time; a path
 * missing from the map is one whose stat raises.
 */
module StatelessBuild {
  import opened Common

  /** waf's Task.ASK_LATER, Task.RUN_ME and Task.SKIP_ME. */
  datatype Status = AskLater | RunMe | SkipMe

  /** The value of `hasrun` for a task that has not been executed yet (waf's NOT_RUN). */
  const NotRun: nat := 0

  type MTimes = map<string, int>

  /**
   * What `status` reads of a task: the `hasrun` flags of the tasks it must
   * run after, the outcome of its scanner (None when scan() raises), the
   * wscript node of its generator, and its inputs, dependency nodes and
   * outputs.
   */
  datatype TaskView = TaskView(
    runAfter: seq<nat>, scan: Option<seq<string>>, wscript: string,
    inputs: seq<string>, depNodes: seq<string>, outputs: seq<string>)

  /** One predecessor has not run yet. */
  predicate Pending(t: TaskView) {
    exists i :: 0 <= i < |t.runAfter| && t.runAfter[i] == NotRun
  }

  /** The implicit dependencies: the scanner's nodes (none when it raised), then the wscript node. */
  function ImplicitDeps(t: TaskView): seq<string> {
    (match t.scan case Some(nodes) => nodes case None => []) + [t.wscript]
  }

  /** Every node checked against the outputs, in the order the loop visits them. */
  function Sources(t: TaskView): seq<string> {
    t.inputs + t.depNodes + ImplicitDeps(t)
  }

  /** The pair (x, y) forces a run: one of the two cannot be stat'ed, or x is strictly newer. */
  predicate PairStale(x: string, y: string, mt: MTimes) {
    x !in mt || y !in mt || mt[x] > mt[y]
  }

  /** The first loop: is some predecessor still at NOT_RUN? */
  function FirstPending(flags: seq<nat>): bool
    decreases |flags|
  {
    if flags == [] then false
    else if flags[0] == NotRun then true
    else FirstPending(flags[1..])
  }

  /** The inner loop over outputs for one node x. */
  function StaleAgainst(x: string, ys: seq<string>, mt: MTimes): bool
    decreases |ys|
  {
    if ys == [] then false
    else if PairStale(x, ys[0], mt) then true
    else StaleAgainst(x, ys[1..], mt)
  }

  /** The outer loop over nodes. */
  function AnyStale(xs: seq<string>, ys: seq<string>, mt: MTimes): bool
    decreases |xs|
  {
    if xs == [] then false
    else if StaleAgainst(xs[0], ys, mt) then true
    else AnyStale(xs[1..], ys, mt)
  }

  /** ebdlib.status, loop by loop. */
  function TaskStatus(t: TaskView, mt: MTimes): Status {
    if FirstPending(t.runAfter) then AskLater
    else if AnyStale(Sources(t), t.outputs, mt) then RunMe
    else SkipMe
  }

  lemma {:induction false} FirstPendingExists(flags: seq<nat>)
    ensures FirstPending(flags) <==> exists i :: 0 <= i < |flags| && flags[i] == NotRun
    decreases |flags|
  {
    if flags != [] {
      FirstPendingExists(flags[1..]);
      if exists i :: 0 <= i < |flags[1..]| && flags[1..][i] == NotRun {
        var i :| 0 <= i < |flags[1..]| && flags[1..][i] == NotRun;
        assert flags[i + 1] == NotRun;
      }
      if exists i :: 0 <= i < |flags| && flags[i] == NotRun {
        var i :| 0 <= i < |flags| && flags[i] == NotRun;
        if i > 0 {
          assert flags[1..][i - 1] == NotRun;
        }
      }
    }
  }

  lemma {:induction false} StaleAgainstExists(x: string, ys: seq<string>, mt: MTimes)
    ensures StaleAgainst(x, ys, mt) <==> exists j :: 0 <= j < |ys| && PairStale(x, ys[j], mt)
    decreases |ys|
  {
    if ys != [] {
      StaleAgainstExists(x, ys[1..], mt);
      if exists j :: 0 <= j < |ys[1..]| && PairStale(x, ys[1..][j], mt) {
        var j :| 0 <= j < |ys[1..]| && PairStale(x, ys[1..][j], mt);
        assert ys[1..][j] == ys[j + 1];
      }
      if exists j :: 0 <= j < |ys| && PairStale(x, ys[j], mt) {
        var j :| 0 <= j < |ys| && PairStale(x, ys[j], mt);
        if j > 0 {
          assert ys[1..][j - 1] == ys[j];
        }
      }
    }
  }

  lemma {:induction false} AnyStaleExists(xs: seq<string>, ys: seq<string>, mt: MTimes)
    ensures AnyStale(xs, ys, mt) <==>
      exists i, j :: 0 <= i < |xs| && 0 <= j < |ys| && PairStale(xs[i], ys[j], mt)
    decreases |xs|
  {
    if xs != [] {
      AnyStaleExists(xs[1..], ys, mt);
      StaleAgainstExists(xs[0], ys, mt);
      if exists i, j :: 0 <= i < |xs[1..]| && 0 <= j < |ys| && PairStale(xs[1..][i], ys[j], mt) {
        var i, j :| 0 <= i < |xs[1..]| && 0 <= j < |ys| && PairStale(xs[1..][i], ys[j], mt);
        assert xs[1..][i] == xs[i + 1];
      }
      if exists i, j :: 0 <= i < |xs| && 0 <= j < |ys| && PairStale(xs[i], ys[j], mt) {
        var i, j :| 0 <= i < |xs| && 0 <= j < |ys| && PairStale(xs[i], ys[j], mt);
        if i > 0 {
          assert xs[1..][i - 1] == xs[i];
        }
      }
    }
  }

  /** ASK_LATER exactly when some predecessor has not run. */
  lemma AskLaterIffPending(t: TaskView, mt: MTimes)
    ensures TaskStatus(t, mt) == AskLater <==> Pending(t)
  {
    FirstPendingExists(t.runAfter);
  }

  /**
   * With every predecessor done, RUN_ME exactly when some node of the
   * inputs, dependency nodes and implicit dependencies is newer than, or
   * cannot be compared with, some output; SKIP_ME otherwise.
   */
  lemma RunMeIffStalePair(t: TaskView, mt: MTimes)
    requires !Pending(t)
    ensures TaskStatus(t, mt) == RunMe <==>
      exists i, j :: 0 <= i < |Sources(t)| && 0 <= j < |t.outputs| && PairStale(Sources(t)[i], t.outputs[j], mt)
    ensures TaskStatus(t, mt) == SkipMe <==>
      !exists i, j :: 0 <= i < |Sources(t)| && 0 <= j < |t.outputs| && PairStale(Sources(t)[i], t.outputs[j], mt)
  {
    FirstPendingExists(t.runAfter);
    AnyStaleExists(Sources(t), t.outputs, mt);
  }

  /** A task without outputs is skipped once its predecessors have run, even when its inputs are missing. */
  lemma NoOutputsSkipped(t: TaskView, mt: MTimes)
    requires !Pending(t) && t.outputs == []
    ensures TaskStatus(t, mt) == SkipMe
  {
    RunMeIffStalePair(t, mt);
  }

  /** A scanner that raises is treated as one that found nothing. */
  lemma ScanFailureIgnored(t: TaskView, mt: MTimes)
    requires t.scan.None?
    ensures TaskStatus(t, mt) == TaskStatus(t.(scan := Some([])), mt)
  {
    assert ImplicitDeps(t) == ImplicitDeps(t.(scan := Some([])));
  }

  /** The wscript node always takes part: a wscript newer than some output makes the task run. */
  lemma WscriptChecked(t: TaskView, mt: MTimes, j: nat)
    requires !Pending(t) && j < |t.outputs|
    requires PairStale(t.wscript, t.outputs[j], mt)
    ensures TaskStatus(t, mt) == RunMe
  {
    var s := Sources(t);
    assert s[|s| - 1] == t.wscript;
    RunMeIffStalePair(t, mt);
  }
}
