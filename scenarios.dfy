/** Worked traces over a one-task, one-agent scenario. */
module Scenarios {
  import opened Swarm
  import opened TaskRules
  import opened FrameRules
  import opened Spacing
  import opened TrailBuffer

  /** One task at (5, 5), active from time 0, due at time 10. */
  const Tasks: seq<ScenarioTask> := [ScenarioTask(1, 5.0, 5.0, 0.0, 10.0)]

  function AliveAt(x: real): seq<AgentState>
  {
    [AgentState(0, Pos(x, x), true)]
  }

  /** At time 0: task pending, no leader entry, agent 0 alive at (1, 1). */
  const F0: Frame := Frame(0.0, AliveAt(1.0), [TaskReport(1, false)], Absent)
  /** At time 11: task not done, leader 0 with no term, agent 0 alive at (2, 2). */
  const F1: Frame := Frame(11.0, AliveAt(2.0), [TaskReport(1, false)], Given(Some(0), None))
  /** At time 11: task done, leader 0 in term 2, agent 0 alive at (3, 3). */
  const F2: Frame := Frame(11.0, AliveAt(3.0), [TaskReport(1, true)], Given(Some(0), Some(2)))

  /** The scenario's task table. */
  lemma ScenarioTable()
    ensures Metadata(Tasks) == map[1 := TaskMeta(0.0, 10.0)]
  {
  }

  /** A one-frame trace uses capacity 600; the task is pending and the banner re-electing. */
  lemma StartTrace()
    ensures TrailCapacity([F0], 1) == Ok(600)
    ensures Visualize(Tasks, 1, [F0]).Ok?
    ensures Visualize(Tasks, 1, [F0]).value.tasks[1] == TaskVisual(Blue, 0.15, 1.0)
    ensures Visualize(Tasks, 1, [F0]).value.banner == Some(ReElecting)
  {
    ScenarioTable();
    assert TrailWindow / FallbackSpacing == 600.0;
  }

  /** Frames 11 apart give capacity 5; not done after the deadline is missed. */
  lemma MissedTrace()
    ensures TrailCapacity([F0, F1], 1) == Ok(5)
    ensures Visualize(Tasks, 1, [F0, F1]).Ok?
    ensures Visualize(Tasks, 1, [F0, F1]).value.tasks[1] == TaskVisual(Red, 0.3, 1.0)
    ensures Visualize(Tasks, 1, [F0, F1]).value.banner == Some(Leading(0, 0))
    ensures Visualize(Tasks, 1, [F0, F1]).value.histories[0] == [Pos(1.0, 1.0), Pos(2.0, 2.0)]
  {
    ScenarioTable();
    assert 5.0 <= TrailWindow / 11.0 < 6.0;
    assert [F0, F1][..1] == [F0];
    assert [F0][..0] == [];
    assert AlivePositions([], 0) == [];
    assert AlivePositions([F0], 0) == [Pos(1.0, 1.0)];
    assert AlivePositions([F0, F1], 0) == [Pos(1.0, 1.0)] + [Pos(2.0, 2.0)];
    VisualizeHistory(Tasks, 1, [F0, F1], 0);
  }

  /** Done after the deadline is completed, not missed. */
  lemma CompletedTrace()
    ensures Visualize(Tasks, 1, [F0, F2]).Ok?
    ensures Visualize(Tasks, 1, [F0, F2]).value.tasks[1] == TaskVisual(Green, 0.3, 1.0)
  {
    ScenarioTable();
    assert 5.0 <= TrailWindow / 11.0 < 6.0;
    assert TrailCapacity([F0, F2], 1) == Ok(5);
    assert [F0, F2][..1] == [F0];
  }

  /**
   * Pending at time 0, missed at time 11 when not done, completed at time 11
   * when done. Frames 11 time units apart give trails of 5 positions.
   */
  lemma DeadlineTrace()
    ensures Visualize(Tasks, 1, [F0]).Ok? && Visualize(Tasks, 1, [F0]).value.tasks[1].colour == Blue
    ensures Visualize(Tasks, 1, [F0, F1]).Ok? && Visualize(Tasks, 1, [F0, F1]).value.tasks[1].colour == Red
    ensures Visualize(Tasks, 1, [F0, F2]).Ok? && Visualize(Tasks, 1, [F0, F2]).value.tasks[1].colour == Green
    ensures TrailCapacity([F0, F1], 1) == Ok(5)
  {
    StartTrace();
    MissedTrace();
    CompletedTrace();
  }
}
