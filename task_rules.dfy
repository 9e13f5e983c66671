/**
 * Task metadata and the four-way classification that decides how a task's
 * service circle and label are drawn in a frame.
 */
module TaskRules {
  import opened Swarm

  datatype Status = Inactive | Completed | Missed | Pending

  /**
   * The scenario's tasks keyed by id. When two tasks share an id the later
   * one wins, as with any dictionary built in list order.
   */
  function Metadata(tasks: seq<ScenarioTask>): (m: map<TaskId, TaskMeta>)
    ensures m.Keys == set j | 0 <= j < |tasks| :: tasks[j].id
  {
    if tasks == [] then map[]
    else
      var last := tasks[|tasks| - 1];
      var init := tasks[..|tasks| - 1];
      assert tasks == init + [last];
      Metadata(init)[last.id := TaskMeta(last.t0, last.deadline)]
  }

  /** A task id maps to the activation time and deadline of the last task with that id. */
  lemma {:induction false} MetadataLastWins(tasks: seq<ScenarioTask>, j: nat)
    requires j < |tasks| && IsLastWithId(tasks, j)
    ensures Metadata(tasks)[tasks[j].id] == TaskMeta(tasks[j].t0, tasks[j].deadline)
  {
    var init := tasks[..|tasks| - 1];
    if j < |tasks| - 1 {
      assert forall k :: j < k < |init| ==> init[k] == tasks[k];
      MetadataLastWins(init, j);
      assert tasks[|tasks| - 1].id != tasks[j].id;
    }
  }

  /** No task after position j has the same id as the one at j. */
  predicate IsLastWithId(tasks: seq<ScenarioTask>, j: nat)
    requires j < |tasks|
  {
    forall k :: j < k < |tasks| ==> tasks[k].id != tasks[j].id
  }

  /**
   * The classification of a task at time t. Exactly one status holds, in
   * priority order: not yet active, done (whatever the deadline), past the
   * deadline, pending.
   */
  function Classify(t: real, t0: real, deadline: real, done: bool): (s: Status)
    ensures s == Inactive <==> t < t0
    ensures s == Completed <==> t0 <= t && done
    ensures s == Missed <==> t0 <= t && !done && deadline < t
    ensures s == Pending <==> t0 <= t <= deadline && !done
  {
    if t < t0 then Inactive
    else if done then Completed
    else if t > deadline then Missed
    else Pending
  }

  /** The fixed colour and circle opacity of each active status. */
  function Palette(s: Status): (v: TaskVisual)
    requires s != Inactive
    ensures v.labelAlpha == 1.0
    ensures v.colour == Green <==> s == Completed
    ensures v.colour == Red <==> s == Missed
    ensures v.colour == Blue <==> s == Pending
    ensures s == Pending ==> v.circleAlpha == 0.15
    ensures s != Pending ==> v.circleAlpha == 0.3
  {
    match s
    case Completed => TaskVisual(Green, 0.3, 1.0)
    case Missed => TaskVisual(Red, 0.3, 1.0)
    case Pending => TaskVisual(Blue, 0.15, 1.0)
  }

  /**
   * The visual a task takes on for status s. An inactive task is made fully
   * transparent but keeps the colour it had; the others get their palette
   * entry whatever they showed before.
   */
  function Restyle(s: Status, prev: TaskVisual): (v: TaskVisual)
    ensures s == Inactive <==> v.labelAlpha == 0.0
    ensures s == Inactive ==> v.circleAlpha == 0.0 && v.colour == prev.colour
    ensures s != Inactive ==> v == Palette(s)
  {
    if s == Inactive then prev.(circleAlpha := 0.0, labelAlpha := 0.0) else Palette(s)
  }

  /** The visual of a task before any frame mentions it: blue, both parts transparent. */
  const Hidden: TaskVisual := TaskVisual(Blue, 0.0, 0.0)

  /** Whether visual v is how status s is drawn (for Inactive: whatever the colour). */
  predicate Shows(v: TaskVisual, s: Status)
  {
    if s == Inactive then v.circleAlpha == 0.0 && v.labelAlpha == 0.0 else v == Palette(s)
  }

  /** Applies one task report of a frame at time t; reports for unknown ids change nothing. */
  function ApplyReport(meta: map<TaskId, TaskMeta>, vis: map<TaskId, TaskVisual>, t: real, r: TaskReport): (w: map<TaskId, TaskVisual>)
    requires vis.Keys <= meta.Keys
    ensures w.Keys == vis.Keys
    ensures forall id :: id in vis && id != r.id ==> w[id] == vis[id]
    ensures r.id in vis ==> Shows(w[r.id], Classify(t, meta[r.id].t0, meta[r.id].deadline, r.done))
    ensures r.id !in vis ==> w == vis
  {
    if r.id in vis then
      var m := meta[r.id];
      vis[r.id := Restyle(Classify(t, m.t0, m.deadline, r.done), vis[r.id])]
    else vis
  }

  /** Applies a frame's task reports in order. */
  function ApplyReports(meta: map<TaskId, TaskMeta>, vis: map<TaskId, TaskVisual>, t: real, rs: seq<TaskReport>): (w: map<TaskId, TaskVisual>)
    requires vis.Keys <= meta.Keys
    ensures w.Keys == vis.Keys
    ensures forall id :: id in vis && NotReported(rs, id) ==> w[id] == vis[id]
  {
    if rs == [] then vis
    else
      var init := rs[..|rs| - 1];
      assert forall j :: 0 <= j < |init| ==> init[j] == rs[j];
      ApplyReport(meta, ApplyReports(meta, vis, t, init), t, rs[|rs| - 1])
  }

  /** No report in rs is about task id. */
  predicate NotReported(rs: seq<TaskReport>, id: TaskId)
  {
    forall j :: 0 <= j < |rs| ==> rs[j].id != id
  }

  /** No report after position j is about the same task as the one at j. */
  predicate IsLastReport(rs: seq<TaskReport>, j: nat)
    requires j < |rs|
  {
    forall k :: j < k < |rs| ==> rs[k].id != rs[j].id
  }

  /** The last report about a known task decides how that task is shown. */
  lemma {:induction false} LastReportDecides(meta: map<TaskId, TaskMeta>, vis: map<TaskId, TaskVisual>, t: real, rs: seq<TaskReport>, j: nat)
    requires vis.Keys <= meta.Keys
    requires j < |rs| && IsLastReport(rs, j) && rs[j].id in vis
    ensures Shows(ApplyReports(meta, vis, t, rs)[rs[j].id],
                  Classify(t, meta[rs[j].id].t0, meta[rs[j].id].deadline, rs[j].done))
  {
    var init := rs[..|rs| - 1];
    var last := rs[|rs| - 1];
    var before := ApplyReports(meta, vis, t, init);
    if j < |rs| - 1 {
      assert forall k :: j < k < |init| ==> init[k] == rs[k];
      LastReportDecides(meta, vis, t, init, j);
      assert last.id != rs[j].id;
    }
  }
}
