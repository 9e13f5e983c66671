/**
 * What one frame does to the rendered picture, as a function of the picture
 * before it, and what a whole run of frames does.
 */
module FrameRules {
  import opened Swarm
  import opened TaskRules
  import opened TrailBuffer
  import opened Spacing

  /** Opacity of a trail until its agent is first seen dead. */
  const LiveTrailAlpha: real := 0.3
  /** Opacity of a trail once its agent has been seen dead; never raised again. */
  const DeadTrailAlpha: real := 0.1

  /**
   * Everything the renderer draws, indexed by agent position in the frame
   * (histories, trails, markers) or by task id. A trail displays its
   * agent's history, so the history stands for the trail's data.
   */
  datatype View = View(
    histories: seq<seq<Pos>>,
    trailAlpha: seq<real>,
    trailTinted: seq<bool>,      // trail recoloured to match its agent's marker
    markers: seq<Option<Marker>>,  // None until the agent is first drawn
    tasks: map<TaskId, TaskVisual>,
    banner: Option<Banner>,      // None: the banner is still blank
    clock: Option<real>)         // the time shown, None before the first frame

  /** A picture for n agents, histories within capacity, a visual for exactly the scenario's tasks. */
  predicate Fits(v: View, n: nat, cap: nat, meta: map<TaskId, TaskMeta>)
  {
    && |v.histories| == n && |v.trailAlpha| == n && |v.trailTinted| == n && |v.markers| == n
    && (forall i :: 0 <= i < n ==> |v.histories[i]| <= cap)
    && v.tasks.Keys == meta.Keys
  }

  /** The picture before the first frame. */
  function Initial(n: nat, meta: map<TaskId, TaskMeta>): (v: View)
    ensures forall cap: nat :: Fits(v, n, cap, meta)
    ensures forall i :: 0 <= i < n ==>
              v.histories[i] == [] && v.trailAlpha[i] == LiveTrailAlpha && !v.trailTinted[i] && v.markers[i] == None
    ensures forall id :: id in v.tasks ==> v.tasks[id] == Hidden
    ensures v.banner == None && v.clock == None
  {
    View(seq(n, _ => []), seq(n, _ => LiveTrailAlpha), seq(n, _ => false), seq(n, _ => None),
         map id | id in meta :: Hidden, None, None)
  }

  /** The id of the frame's leader, if its leader entry carries one. */
  function LeaderId(l: LeaderField): (r: Option<AgentId>)
    ensures r.Some? <==> l.Given? && l.id.Some?
    ensures r.Some? ==> r.value == l.id.value
  {
    if l.Given? then l.id else None
  }

  /**
   * The banner for a frame's leader entry. An explicit null aborts the run
   * (the entry is then looked up as if it were an object).
   */
  function BannerFor(l: LeaderField): (r: Result<Banner>)
    ensures r.Err? <==> l == Null
    ensures r.Err? ==> r.failure == NullLeader
    ensures r == Ok(ReElecting) <==> l != Null && LeaderId(l) == None
    ensures r.Ok? && r.value.Leading? ==> LeaderId(l) == Some(r.value.id) && r.value.term == l.term.GetOr(0)
  {
    match l
    case Null => Err(NullLeader)
    case Absent => Ok(ReElecting)
    case Given(id, term) => if id.Some? then Ok(Leading(id.value, term.GetOr(0))) else Ok(ReElecting)
  }

  /** An agent's marker: at its position, a large diamond for the leader, dimmed when dead. */
  function MarkerFor(a: AgentState, leader: Option<AgentId>): (m: Marker)
    ensures m.pos == a.pos
    ensures m.shape == Diamond <==> leader == Some(a.id)
    ensures m.size == (if leader == Some(a.id) then 10 else 6)
    ensures m.alpha == (if a.alive then 1.0 else 0.2)
  {
    var isLeader := leader == Some(a.id);
    Marker(a.pos, if isLeader then 10 else 6, if isLeader then Diamond else Dot, if a.alive then 1.0 else 0.2)
  }

  /** An agent's history after a frame: extended when alive, frozen when dead. */
  function Record(h: seq<Pos>, a: AgentState, cap: nat): (r: seq<Pos>)
    requires |h| <= cap
    ensures |r| <= cap
    ensures !a.alive ==> r == h
  {
    if a.alive then Push(h, a.pos, cap) else h
  }

  /** Histories after a frame: agent i's follows the frame's i-th entry; agents beyond the frame's list are untouched. */
  function NextHistories(cap: nat, hs: seq<seq<Pos>>, agents: seq<AgentState>): (r: seq<seq<Pos>>)
    requires forall i :: 0 <= i < |hs| ==> |hs[i]| <= cap
    ensures |r| == |hs| && forall i :: 0 <= i < |r| ==> |r[i]| <= cap
  {
    seq(|hs|, i requires 0 <= i < |hs| => if i < |agents| then Record(hs[i], agents[i], cap) else hs[i])
  }

  /** Trail opacities after a frame: dimmed for each agent the frame reports dead. */
  function NextTrailAlpha(alphas: seq<real>, agents: seq<AgentState>): (r: seq<real>)
    ensures |r| == |alphas|
    ensures forall i :: 0 <= i < |r| && i < |agents| && !agents[i].alive ==> r[i] == DeadTrailAlpha
    ensures forall i :: 0 <= i < |r| && !(i < |agents| && !agents[i].alive) ==> r[i] == alphas[i]
  {
    seq(|alphas|, i requires 0 <= i < |alphas| =>
      if i < |agents| && !agents[i].alive then DeadTrailAlpha else alphas[i])
  }

  /** Trail colours after a frame: matched to the agent's marker for each agent reported alive. */
  function NextTinted(tinted: seq<bool>, agents: seq<AgentState>): (r: seq<bool>)
    ensures |r| == |tinted|
    ensures forall i :: 0 <= i < |r| ==> (r[i] <==> tinted[i] || (i < |agents| && agents[i].alive))
  {
    seq(|tinted|, i requires 0 <= i < |tinted| => (i < |agents| && agents[i].alive) || tinted[i])
  }

  /** Markers after a frame: redrawn for every agent the frame lists. */
  function NextMarkers(markers: seq<Option<Marker>>, agents: seq<AgentState>, leader: Option<AgentId>): (r: seq<Option<Marker>>)
    ensures |r| == |markers|
    ensures forall i :: 0 <= i < |r| && i < |agents| ==>
              r[i].Some? && r[i].value.pos == agents[i].pos && (r[i].value.shape == Diamond <==> leader == Some(agents[i].id))
    ensures forall i :: 0 <= i < |r| && i < |agents| ==> r[i] == Some(MarkerFor(agents[i], leader))
    ensures forall i :: |agents| <= i < |r| ==> r[i] == markers[i]
  {
    seq(|markers|, i requires 0 <= i < |markers| =>
      if i < |agents| then Some(MarkerFor(agents[i], leader)) else markers[i])
  }

  /** The picture after one frame, or the failure that aborts the run. */
  function Step(cap: nat, meta: map<TaskId, TaskMeta>, v: View, f: Frame): (r: Result<View>)
    requires Fits(v, |v.histories|, cap, meta)
    requires |f.agents| <= |v.histories|
    ensures r.Err? <==> f.leader == Null
    ensures r.Err? ==> r.failure == NullLeader
    ensures r.Ok? ==> Fits(r.value, |v.histories|, cap, meta)
  {
    if f.leader == Null then Err(NullLeader)
    else
      Ok(View(
        NextHistories(cap, v.histories, f.agents),
        NextTrailAlpha(v.trailAlpha, f.agents),
        NextTinted(v.trailTinted, f.agents),
        NextMarkers(v.markers, f.agents, LeaderId(f.leader)),
        ApplyReports(meta, v.tasks, f.t, f.tasks),
        Some(BannerFor(f.leader).value),
        Some(f.t)))
  }

  /** Every frame has at most n agents. */
  predicate AgentsWithin(frames: seq<Frame>, n: nat)
  {
    forall k :: 0 <= k < |frames| ==> |frames[k].agents| <= n
  }

  /** The picture after a run of frames, drawn in order; the first null leader aborts it. */
  function Run(cap: nat, meta: map<TaskId, TaskMeta>, v: View, frames: seq<Frame>): (r: Result<View>)
    requires Fits(v, |v.histories|, cap, meta)
    requires AgentsWithin(frames, |v.histories|)
    ensures r.Err? <==> exists k :: 0 <= k < |frames| && frames[k].leader == Null
    ensures r.Err? ==> r.failure == NullLeader
    ensures r.Ok? ==> Fits(r.value, |v.histories|, cap, meta)
    decreases |frames|
  {
    if frames == [] then Ok(v)
    else
      var init := frames[..|frames| - 1];
      assert forall k :: 0 <= k < |init| ==> init[k] == frames[k];
      match Run(cap, meta, v, init)
      case Err(e) => Err(e)
      case Ok(w) => Step(cap, meta, w, frames[|frames| - 1])
  }

  /** The positions agent i reported while alive, in frame order. */
  function AlivePositions(frames: seq<Frame>, i: nat): seq<Pos>
  {
    if frames == [] then []
    else
      var f := frames[|frames| - 1];
      AlivePositions(frames[..|frames| - 1], i)
        + (if i < |f.agents| && f.agents[i].alive then [f.agents[i].pos] else [])
  }

  /** Agent i is present and dead in frame f. */
  predicate DeadIn(f: Frame, i: nat)
  {
    i < |f.agents| && !f.agents[i].alive
  }

  /** Agent i's history after a run is the last cap positions it reported while alive. */
  lemma {:induction false} RunHistory(cap: nat, meta: map<TaskId, TaskMeta>, v: View, frames: seq<Frame>, i: nat)
    requires Fits(v, |v.histories|, cap, meta)
    requires AgentsWithin(frames, |v.histories|)
    requires i < |v.histories|
    requires Run(cap, meta, v, frames).Ok?
    ensures Run(cap, meta, v, frames).value.histories[i] == LastN(v.histories[i] + AlivePositions(frames, i), cap)
    decreases |frames|
  {
    if frames == [] {
      LastNWhole(v.histories[i], cap);
    } else {
      var init := frames[..|frames| - 1];
      var f := frames[|frames| - 1];
      assert AgentsWithin(init, |v.histories|) by {
        assert forall k :: 0 <= k < |init| ==> init[k] == frames[k];
      }
      RunHistory(cap, meta, v, init, i);
      var w := Run(cap, meta, v, init).value;
      var xs := v.histories[i] + AlivePositions(init, i);
      if i < |f.agents| && f.agents[i].alive {
        PushKeepsLastN(xs, f.agents[i].pos, cap);
        assert xs + [f.agents[i].pos] == v.histories[i] + AlivePositions(frames, i);
      } else {
        assert xs == v.histories[i] + AlivePositions(frames, i);
      }
    }
  }

  /** From the initial picture, a history is the last cap positions reported while alive. */
  lemma HistoryFromStart(cap: nat, meta: map<TaskId, TaskMeta>, n: nat, frames: seq<Frame>, i: nat)
    requires AgentsWithin(frames, n)
    requires i < n
    requires Run(cap, meta, Initial(n, meta), frames).Ok?
    ensures Run(cap, meta, Initial(n, meta), frames).value.histories[i] == LastN(AlivePositions(frames, i), cap)
  {
    RunHistory(cap, meta, Initial(n, meta), frames, i);
    assert Initial(n, meta).histories[i] + AlivePositions(frames, i) == AlivePositions(frames, i);
  }

  /** An agent that no frame of a run reports alive (dead or not listed) keeps its history exactly. */
  lemma {:induction false} FrozenWhileDead(cap: nat, meta: map<TaskId, TaskMeta>, v: View, frames: seq<Frame>, i: nat)
    requires Fits(v, |v.histories|, cap, meta)
    requires AgentsWithin(frames, |v.histories|)
    requires i < |v.histories|
    requires forall k :: 0 <= k < |frames| ==> !AliveIn(frames[k], i)
    requires Run(cap, meta, v, frames).Ok?
    ensures Run(cap, meta, v, frames).value.histories[i] == v.histories[i]
  {
    NoAlivePositions(frames, i);
    RunHistory(cap, meta, v, frames, i);
    LastNWhole(v.histories[i], cap);
    assert v.histories[i] + [] == v.histories[i];
  }

  /** An agent that no frame reports alive has reported no positions. */
  lemma {:induction false} NoAlivePositions(frames: seq<Frame>, i: nat)
    requires forall k :: 0 <= k < |frames| ==> !AliveIn(frames[k], i)
    ensures AlivePositions(frames, i) == []
  {
    if frames != [] {
      var init := frames[..|frames| - 1];
      assert forall k :: 0 <= k < |init| ==> init[k] == frames[k];
      NoAlivePositions(init, i);
    }
  }

  /** Once agent i is seen dead in a run, its trail stays at the dimmed opacity to the end. */
  lemma {:induction false} DeadTrailStaysDim(cap: nat, meta: map<TaskId, TaskMeta>, v: View, frames: seq<Frame>, i: nat, k: nat)
    requires Fits(v, |v.histories|, cap, meta)
    requires AgentsWithin(frames, |v.histories|)
    requires i < |v.histories|
    requires k < |frames| && DeadIn(frames[k], i)
    requires Run(cap, meta, v, frames).Ok?
    ensures Run(cap, meta, v, frames).value.trailAlpha[i] == DeadTrailAlpha
    decreases |frames|
  {
    if k < |frames| - 1 {
      var init := frames[..|frames| - 1];
      assert forall j :: 0 <= j < |init| ==> init[j] == frames[j];
      DeadTrailStaysDim(cap, meta, v, init, i, k);
    }
  }

  /** An agent never reported dead during a run keeps its trail opacity. */
  lemma {:induction false} AliveTrailKept(cap: nat, meta: map<TaskId, TaskMeta>, v: View, frames: seq<Frame>, i: nat)
    requires Fits(v, |v.histories|, cap, meta)
    requires AgentsWithin(frames, |v.histories|)
    requires i < |v.histories|
    requires forall k :: 0 <= k < |frames| ==> !DeadIn(frames[k], i)
    requires Run(cap, meta, v, frames).Ok?
    ensures Run(cap, meta, v, frames).value.trailAlpha[i] == v.trailAlpha[i]
    decreases |frames|
  {
    if frames != [] {
      var init := frames[..|frames| - 1];
      assert forall j :: 0 <= j < |init| ==> init[j] == frames[j];
      AliveTrailKept(cap, meta, v, init, i);
    }
  }

  /** Agent i is present and alive in frame f. */
  predicate AliveIn(f: Frame, i: nat)
  {
    i < |f.agents| && f.agents[i].alive
  }

  /** A trail is recoloured to match its agent exactly when it already was, or some frame reports the agent alive. */
  lemma {:induction false} TintedIffSeenAlive(cap: nat, meta: map<TaskId, TaskMeta>, v: View, frames: seq<Frame>, i: nat)
    requires Fits(v, |v.histories|, cap, meta)
    requires AgentsWithin(frames, |v.histories|)
    requires i < |v.histories|
    requires Run(cap, meta, v, frames).Ok?
    ensures Run(cap, meta, v, frames).value.trailTinted[i] <==>
              v.trailTinted[i] || exists k :: 0 <= k < |frames| && AliveIn(frames[k], i)
    decreases |frames|
  {
    if frames != [] {
      var init := frames[..|frames| - 1];
      assert forall j :: 0 <= j < |init| ==> init[j] == frames[j];
      TintedIffSeenAlive(cap, meta, v, init, i);
      if exists k :: 0 <= k < |frames| && AliveIn(frames[k], i) {
        var k :| 0 <= k < |frames| && AliveIn(frames[k], i);
        if k < |init| {
          assert AliveIn(init[k], i);
        }
      }
    }
  }

  /** A scenario task that no frame of the run reports keeps its visual. */
  lemma {:induction false} UnreportedTaskKept(cap: nat, meta: map<TaskId, TaskMeta>, v: View, frames: seq<Frame>, id: TaskId)
    requires Fits(v, |v.histories|, cap, meta)
    requires AgentsWithin(frames, |v.histories|)
    requires id in v.tasks
    requires forall k :: 0 <= k < |frames| ==> NotReported(frames[k].tasks, id)
    requires Run(cap, meta, v, frames).Ok?
    ensures Run(cap, meta, v, frames).value.tasks[id] == v.tasks[id]
    decreases |frames|
  {
    if frames != [] {
      var init := frames[..|frames| - 1];
      assert forall j :: 0 <= j < |init| ==> init[j] == frames[j];
      UnreportedTaskKept(cap, meta, v, init, id);
    }
  }

  /** From the initial picture, a task that no frame reports is still hidden at the end. */
  lemma NeverReportedHidden(cap: nat, meta: map<TaskId, TaskMeta>, n: nat, frames: seq<Frame>, id: TaskId)
    requires AgentsWithin(frames, n)
    requires id in meta
    requires forall k :: 0 <= k < |frames| ==> NotReported(frames[k].tasks, id)
    requires Run(cap, meta, Initial(n, meta), frames).Ok?
    ensures Run(cap, meta, Initial(n, meta), frames).value.tasks[id] == Hidden
  {
    UnreportedTaskKept(cap, meta, Initial(n, meta), frames, id);
  }

  /**
   * After a run, the banner, the clock and every drawn marker come from the
   * last frame alone: no leader is carried over from earlier frames.
   */
  lemma LastFrameDecides(cap: nat, meta: map<TaskId, TaskMeta>, v: View, frames: seq<Frame>, i: nat)
    requires Fits(v, |v.histories|, cap, meta)
    requires AgentsWithin(frames, |v.histories|)
    requires frames != [] && Run(cap, meta, v, frames).Ok?
    requires i < |frames[|frames| - 1].agents|
    ensures var last := frames[|frames| - 1];
            var w := Run(cap, meta, v, frames).value;
            && w.banner == Some(BannerFor(last.leader).value)
            && w.clock == Some(last.t)
            && w.markers[i] == Some(MarkerFor(last.agents[i], LeaderId(last.leader)))
  {
    var init := frames[..|frames| - 1];
    assert forall j :: 0 <= j < |init| ==> init[j] == frames[j];
  }

  /**
   * A whole run: the task table from the scenario, the trail capacity from
   * the trace's spacing, then every frame in order from the initial picture.
   */
  function Visualize(scenario: seq<ScenarioTask>, numAgents: nat, frames: seq<Frame>): (r: Result<View>)
    requires AgentsWithin(frames, numAgents)
    ensures r == Err(DivisionByZero) <==> FrameSpacing(frames) == 0.0
    ensures r == Err(NegativeCapacity) <==> TrailCapacity(frames, numAgents) == Err(NegativeCapacity)
    ensures r == Err(NullLeader) <==>
              TrailCapacity(frames, numAgents).Ok? && exists k :: 0 <= k < |frames| && frames[k].leader == Null
    ensures r.Ok? ==> Fits(r.value, numAgents, TrailCapacity(frames, numAgents).value, Metadata(scenario))
  {
    var meta := Metadata(scenario);
    match TrailCapacity(frames, numAgents)
    case Err(e) => Err(e)
    case Ok(cap) => Run(cap, meta, Initial(numAgents, meta), frames)
  }

  /** In a whole run, a history is the last positions its agent reported alive, as many as the trace's spacing allows. */
  lemma VisualizeHistory(scenario: seq<ScenarioTask>, numAgents: nat, frames: seq<Frame>, i: nat)
    requires AgentsWithin(frames, numAgents)
    requires i < numAgents
    requires Visualize(scenario, numAgents, frames).Ok?
    ensures Visualize(scenario, numAgents, frames).value.histories[i]
              == LastN(AlivePositions(frames, i), TrailCapacity(frames, numAgents).value)
  {
    HistoryFromStart(TrailCapacity(frames, numAgents).value, Metadata(scenario), numAgents, frames, i);
  }
}
