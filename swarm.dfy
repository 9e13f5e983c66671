/**
 * Values the swarm renderer reads (scenario tasks, trace frames) and the
 * visual values it hands to the plotting library.
 */
module Swarm {
  datatype Option<T> = None | Some(value: T)
  {
    function GetOr(default: T): T
    {
      match this
      case None => default
      case Some(v) => v
    }
  }

  /** The ways the renderer's code aborts a run. */
  datatype Failure =
    | DivisionByZero    // 60 / dt when the first two timestamps are equal
    | NegativeCapacity  // a bounded history with a negative maximum length
    | NullLeader        // a frame whose "leader" entry is JSON null

  datatype Result<T> = Ok(value: T) | Err(failure: Failure)

  type TaskId = int
  type AgentId = int

  datatype Pos = Pos(x: real, y: real)

  /** One entry of the scenario's task list. */
  datatype ScenarioTask = ScenarioTask(id: TaskId, x: real, y: real, t0: real, deadline: real)

  /** What the renderer keeps of a scenario task: its activation time and deadline. */
  datatype TaskMeta = TaskMeta(t0: real, deadline: real)

  datatype AgentState = AgentState(id: AgentId, pos: Pos, alive: bool)

  datatype TaskReport = TaskReport(id: TaskId, done: bool)

  /**
   * A frame's "leader" entry: missing altogether, JSON null, or an object
   * whose "id" and "term" keys may each be missing.
   */
  datatype LeaderField = Absent | Null | Given(id: Option<AgentId>, term: Option<int>)

  datatype Frame = Frame(t: real, agents: seq<AgentState>, tasks: seq<TaskReport>, leader: LeaderField)

  /** The leader banner: an active leader with its term, or an election in progress. */
  datatype Banner = Leading(id: AgentId, term: int) | ReElecting

  datatype Colour = Blue | Green | Red

  /** A task's service circle (colour and opacity) and the opacity of its label. */
  datatype TaskVisual = TaskVisual(colour: Colour, circleAlpha: real, labelAlpha: real)

  /** Marker shapes: 'o' for an ordinary agent, 'D' for the leader. */
  datatype Shape = Dot | Diamond

  datatype Marker = Marker(pos: Pos, size: nat, shape: Shape, alpha: real)
}
