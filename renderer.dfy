/**
 * The frame renderer: the long-lived drawing state (trail histories, trail
 * and marker settings, task circles and labels, banner and clock) that each
 * frame updates in place.
 */
module Renderer {
  import opened Swarm
  import opened TaskRules
  import opened TrailBuffer
  import opened FrameRules
  import opened Spacing

  class FrameRenderer {
    const numAgents: nat
    const cap: nat
    const meta: map<TaskId, TaskMeta>

    var histories: seq<seq<Pos>>
    var trailAlpha: seq<real>
    var trailTinted: seq<bool>
    var markers: seq<Option<Marker>>
    var tasks: map<TaskId, TaskVisual>
    var banner: Option<Banner>
    var clock: Option<real>

    /** The picture currently drawn. */
    function Picture(): View
      reads this
    {
      View(histories, trailAlpha, trailTinted, markers, tasks, banner, clock)
    }

    ghost predicate Valid()
      reads this
    {
      Fits(Picture(), numAgents, cap, meta)
    }

    /**
     * Sets up one blank trail and marker per agent and a hidden circle and
     * label per scenario task, with the capacity derived from the trace.
     */
    constructor (scenario: seq<ScenarioTask>, numAgents: nat, cap: nat, ghost frames: seq<Frame>)
      requires TrailCapacity(frames, numAgents) == Ok(cap)
      ensures Valid()
      ensures this.numAgents == numAgents && this.cap == cap && meta == Metadata(scenario)
      ensures Picture() == Initial(numAgents, Metadata(scenario))
    {
      this.numAgents := numAgents;
      this.cap := cap;
      var m := Metadata(scenario);
      meta := m;
      histories := seq(numAgents, _ => []);
      trailAlpha := seq(numAgents, _ => LiveTrailAlpha);
      trailTinted := seq(numAgents, _ => false);
      markers := seq(numAgents, _ => None);
      tasks := map id | id in m :: Hidden;
      banner := None;
      clock := None;
    }

    /**
     * Draws one frame. Returns false, changing nothing, when the frame's
     * leader entry is null (the run aborts there).
     */
    method Update(f: Frame) returns (ok: bool)
      requires Valid()
      requires |f.agents| <= numAgents
      modifies this
      ensures Valid()
      ensures ok == (f.leader != Null)
      ensures ok ==> Picture() == Step(cap, meta, old(Picture()), f).value
      ensures !ok ==> Picture() == old(Picture())
    {
      if f.leader == Null {
        return false;
      }
      clock := Some(f.t);
      banner := Some(BannerFor(f.leader).value);
      DrawAgents(f.agents, LeaderId(f.leader));
      DrawTasks(f.t, f.tasks);
      ok := true;
    }
  
    /** Extends, freezes, dims and redraws each listed agent's trail and marker. */
    method DrawAgents(agents: seq<AgentState>, leader: Option<AgentId>)
      requires Valid()
      requires |agents| <= numAgents
      modifies this`histories, this`trailAlpha, this`trailTinted, this`markers
      ensures Valid()
      ensures histories == NextHistories(cap, old(histories), agents)
      ensures trailAlpha == NextTrailAlpha(old(trailAlpha), agents)
      ensures trailTinted == NextTinted(old(trailTinted), agents)
      ensures markers == NextMarkers(old(markers), agents, leader)
    {
      for i := 0 to |agents|
        invariant |histories| == |trailAlpha| == |trailTinted| == |markers| == numAgents
        invariant forall j :: 0 <= j < numAgents ==> |histories[j]| <= cap
        invariant forall j :: 0 <= j < numAgents ==>
                    histories[j] == if j < i then Record(old(histories)[j], agents[j], cap) else old(histories)[j]
        invariant forall j :: 0 <= j < numAgents ==>
                    trailAlpha[j] == if j < i && !agents[j].alive then DeadTrailAlpha else old(trailAlpha)[j]
        invariant forall j :: 0 <= j < numAgents ==>
                    trailTinted[j] == ((j < i && agents[j].alive) || old(trailTinted)[j])
        invariant forall j :: 0 <= j < numAgents ==>
                    markers[j] == if j < i then Some(MarkerFor(agents[j], leader)) else old(markers)[j]
      {
        var a := agents[i];
        if a.alive {
          histories := histories[i := Push(histories[i], a.pos, cap)];
          trailTinted := trailTinted[i := true];
        } else {
          trailAlpha := trailAlpha[i := DeadTrailAlpha];
        }
        markers := markers[i := Some(MarkerFor(a, leader))];
      }
    }

    /** Restyles the circle and label of every known task the frame reports, in order. */
    method DrawTasks(t: real, reports: seq<TaskReport>)
      requires Valid()
      modifies this`tasks
      ensures Valid()
      ensures tasks == ApplyReports(meta, old(tasks), t, reports)
    {
      for k := 0 to |reports|
        invariant tasks.Keys == meta.Keys
        invariant tasks == ApplyReports(meta, old(tasks), t, reports[..k])
      {
        var r := reports[k];
        if r.id in tasks {
          var m := meta[r.id];
          tasks := tasks[r.id := Restyle(Classify(t, m.t0, m.deadline, r.done), tasks[r.id])];
        }
        assert reports[..k + 1][..k] == reports[..k];
      }
      assert reports[..|reports|] == reports;
    }
  }
}
