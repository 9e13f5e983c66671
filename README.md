# Swarm visualizer: frame renderer model

This project models the core of a swarm-simulation visualizer: the per-frame
update that turns one trace frame (time, agent positions and alive flags, task
done flags, current leader and term) into the drawn state of every entity. That
state is each agent's bounded trail history, trail opacity and colour, and
marker; each task's service circle and label; the leader banner; and the clock.
It also models how the trail capacity is derived from the spacing of the first
two frames, and how the scenario's task list becomes a table keyed by task id.

Layout:

- `swarm.dfy` (module `Swarm`): the values read from the scenario and the trace, the visual values, and the three failures that abort a run.
- `spacing.dfy` (`Spacing`): the frame spacing `dt` and the trail capacity `int(60/dt)`.
- `task_rules.dfy` (`TaskRules`): the task table, the four-way task classification, and how a frame's task reports restyle circles and labels.
- `trail_buffer.dfy` (`TrailBuffer`): the bounded FIFO history behind a trail.
- `frame_rules.dfy` (`FrameRules`): the drawn picture as a value (`View`). `Step` gives the effect of one frame and `Run` the effect of a sequence of frames. `Visualize` is a whole run: it builds the task table, derives the capacity from the trace and runs every frame from the initial picture. Lemmas about whole runs sit beside them.
- `renderer.dfy` (`Renderer`): the class `FrameRenderer`, whose fields are the drawing state. Its `Update` method changes that state in place and is proved equal to `Step`. Its constructor requires the capacity it is given to be the one `Spacing.TrailCapacity` derives from the trace.
- `scenarios.dfy` (`Scenarios`): a worked trace over a one-task scenario.

Where the code behaves differently from what the program appears to intend, the model follows the code:

- The capacity is `int(60/dt)`, which truncates toward zero; it is not rounded.
- A frame whose `"leader"` is JSON `null` aborts the run. Only a missing `"leader"` entry, or one without an `"id"`, shows the re-electing banner.
- A trail is dimmed to 0.1 the first time its agent is reported dead. It is never brightened again, even if the agent comes back alive.
- A history is indexed by the agent's position in the frame's list. The leader is highlighted by comparing the agent's `id` field.
- When a task is inactive, its circle is made transparent but keeps its colour. So the drawn visual is not a pure function of the status alone; `Shows` states what the status does determine.
- A trace with fewer than two frames uses the spacing 0.1 and does not fail. A negative spacing below -60 gives capacity 0. A negative spacing in [-60, 0) makes a negative maximum length. That aborts the run (`NegativeCapacity`) as soon as a history is built, which means when there is at least one agent. Equal first timestamps abort on the division (`DivisionByZero`).

## Model

| member | source | states |
|---|---|---|
| `Spacing.Truncate` | visualize.py:27 | the result is the integer part of x, rounded toward zero, for positive and for negative x |
| `Spacing.FrameSpacing` | visualize.py:26 | fewer than two frames give the fallback 0.1; otherwise the spacing is positive iff the first two timestamps increase and zero iff they are equal |
| `Spacing.TrailFrames` | visualize.py:26-27 | the trail length aborts on division by zero exactly when the spacing is 0; otherwise it is the truncation of 60/dt |
| `Spacing.TrailCapacity` | visualize.py:26-49 | division by zero aborts exactly when the spacing is 0; a negative trail length aborts exactly when there is at least one agent; otherwise the capacity is the trail length (0 when there are no agents to use it); a positive spacing always gives a capacity |
| `Spacing.CapacityFillsWindow` | visualize.py:26-27 | with dt > 0, capacity * dt <= 60 < (capacity + 1) * dt: a full trail spans at most the 60-unit window |
| `Spacing.ShortTraceCapacity` | visualize.py:26-27 | a trace of zero or one frames uses spacing 0.1 and capacity 600, with no division by zero |
| `Spacing.NegativeSpacingCapacity` | visualize.py:27-49 | a spacing below -60 gives capacity 0; a spacing in [-60, 0) gives a negative maximum length, which aborts when there is an agent |
| `TaskRules.Metadata` | visualize.py:16 | the task table has exactly the ids of the scenario's tasks |
| `TaskRules.MetadataLastWins` | visualize.py:16 | an id shared by several scenario tasks maps to the t0 and deadline of the last one |
| `TaskRules.Classify` | visualize.py:92-109 | exactly one status: inactive iff t < t0; completed iff active and done, whatever the deadline; missed iff active, not done and past the deadline; pending iff t0 <= t <= deadline and not done |
| `TaskRules.Palette` | visualize.py:96-109 | completed is green, missed red and pending blue; completed and missed share circle opacity 0.3, and pending has 0.15; the label is fully opaque |
| `TaskRules.Restyle` | visualize.py:92-109 | the label is hidden iff the task is inactive; an inactive task's circle becomes transparent and keeps its colour; an active task gets its palette entry whatever it showed before |
| `TaskRules.ApplyReport` | visualize.py:85-109 | a report for a known task makes it show its classification; a report for an unknown id changes nothing; no other task changes |
| `TaskRules.ApplyReports` | visualize.py:85-109 | the set of tasks is unchanged, and a task that no report mentions keeps its visual |
| `TaskRules.LastReportDecides` | visualize.py:85-109 | when a frame reports a task several times, the last report decides what it shows |
| `TrailBuffer.Push` | visualize.py:68 | the history never exceeds its capacity; when not full the position is appended; when full the oldest entry is evicted and the new one appended; capacity 0 keeps nothing |
| `TrailBuffer.PushKeepsLastN` | visualize.py:68 | pushing onto the last cap positions of a sequence gives the last cap positions of the extended sequence |
| `FrameRules.Initial` | visualize.py:37-53 | before the first frame: one empty history per agent, trails at opacity 0.3 and not yet recoloured, no markers drawn, every scenario task (and no other) hidden in blue with transparent circle and label, banner and clock blank |
| `FrameRules.BannerFor` | visualize.py:57-64 | null aborts; the banner is re-electing iff the leader entry carries no id; otherwise it shows that id with the entry's term, defaulting to 0 |
| `FrameRules.LeaderId` | visualize.py:57-58 | the leader id is present iff the leader entry is an object with an id, and is then that id |
| `FrameRules.MarkerFor` | visualize.py:76-83 | the marker is at the frame position; it is a size-10 diamond iff the agent's id is the leader id, else a size-6 dot; opacity is 1.0 alive and 0.2 dead |
| `FrameRules.Record` | visualize.py:66-68 | a dead agent's history is unchanged, and every history stays within capacity |
| `FrameRules.NextHistories` | visualize.py:66-71 | every agent keeps one history, each within capacity |
| `FrameRules.NextTrailAlpha` | visualize.py:73-74 | a listed dead agent's trail opacity becomes 0.1; every other agent's is unchanged |
| `FrameRules.NextTinted` | visualize.py:67-72 | a trail is recoloured after the frame iff it already was or the frame lists its agent alive |
| `FrameRules.NextMarkers` | visualize.py:76-83 | every listed agent's marker is drawn at its frame position, as a diamond iff it is the leader; unlisted agents keep their marker |
| `FrameRules.Step` | visualize.py:55-111 | a frame aborts iff its leader entry is null; otherwise the new picture keeps the agent count, the capacity bound and the task set |
| `FrameRules.Run` | visualize.py:58-114 | a run of frames aborts iff some frame has a null leader; otherwise the picture keeps its shape |
| `FrameRules.RunHistory` | visualize.py:49-68 | after a run, an agent's history is the last cap elements of its earlier history followed by the positions it reported while alive, in order |
| `FrameRules.HistoryFromStart` | visualize.py:49-68 | from a fresh start, after n alive frames, a history is the last min(n, cap) positions, in order |
| `FrameRules.FrozenWhileDead` | visualize.py:66-74 | an agent that no frame reports alive (dead or not listed) keeps its history exactly |
| `FrameRules.DeadTrailStaysDim` | visualize.py:73-74 | once an agent is reported dead, its trail opacity is 0.1 at the end of the run, even if it is alive again later |
| `FrameRules.AliveTrailKept` | visualize.py:73-74 | an agent never reported dead during a run keeps its trail opacity |
| `FrameRules.TintedIffSeenAlive` | visualize.py:67-72 | a trail is recoloured to match its agent iff it already was or some frame of the run reports the agent alive |
| `FrameRules.UnreportedTaskKept` | visualize.py:85-87 | a scenario task that no frame reports keeps its previous visual |
| `FrameRules.NeverReportedHidden` | visualize.py:40-45 | from the initial picture, a scenario task that no frame reports is still hidden at the end |
| `FrameRules.LastFrameDecides` | visualize.py:56-83 | after a run, the banner, the clock and the markers of the listed agents come from the last frame only, with no leader carried over |
| `FrameRules.Visualize` | visualize.py:16-111 | a whole run aborts on division by zero iff the spacing is 0, on a negative maximum length iff the capacity derivation says so, and on a null leader iff the capacity is fine and some frame has one; otherwise the picture fits the derived capacity and the scenario's tasks |
| `FrameRules.VisualizeHistory` | visualize.py:26-68 | in a whole run, each history is the last positions its agent reported alive, as many as the capacity derived from the trace allows |
| `Renderer.FrameRenderer.constructor` | visualize.py:26-53 | requires the capacity derived from the trace; the drawing state starts as the initial picture, with the task table built from the scenario |
| `Renderer.FrameRenderer.Update` | visualize.py:55-111 | a frame with a null leader changes nothing and reports failure; otherwise the new drawing state is exactly `Step` of the old one |
| `Renderer.FrameRenderer.DrawAgents` | visualize.py:66-83 | each listed agent's history, trail opacity, trail colour and marker are updated; agents beyond the frame's list are untouched |
| `Renderer.FrameRenderer.DrawTasks` | visualize.py:85-109 | the task visuals become those given by applying the frame's reports in order |
| `Scenarios.ScenarioTable` | visualize.py:16 | the one-task scenario gives the table {1: (t0 0, deadline 10)} |
| `Scenarios.StartTrace` | visualize.py:26-109 | a one-frame trace at t=0 has capacity 600, shows the task pending in blue at 0.15, and a re-electing banner |
| `Scenarios.MissedTrace` | visualize.py:26-109 | frames 11 apart give capacity 5; not done at t=11 shows red at 0.3; the banner names leader 0 with term 0; the history holds both positions |
| `Scenarios.CompletedTrace` | visualize.py:92-104 | done at t=11, past the deadline 10, shows green at 0.3: completed, not missed |
| `Scenarios.DeadlineTrace` | visualize.py:26-109 | with a task active from 0 and due at 10: pending (blue) at t=0, missed (red) at t=11 when not done, completed (green) at t=11 when done; frames 11 apart give capacity 5 |

## Left out

- Reading the scenario and trace files, and detecting JSON versus line-delimited JSON (visualize.py:13-24). This is I/O. Frames and scenario tasks are parameters instead.
- Setting up the figure, axes, task patches, static task crosses, label texts and legend (visualize.py:29-53, 116-117). This is plotting-library plumbing. Only the values those objects receive are modelled, and `FrameRules.Initial` gives their starting values.
- The animation driver, the video writer, the frame interval, `fps = int(1/dt)` and the global ffmpeg path (visualize.py:10, 113-121). `FrameRules.Run` stands for the driver calling the update once per frame, in order. Without an initialisation function, the plotting library may also draw the first frame once more as the initial frame. That extra call is not modelled. It would record the first positions twice, which leaves the drawn trail the same.
- The command-line interface (visualize.py:123-130).
- Floating-point arithmetic. Timestamps, positions and opacities are exact reals.
- The text of the clock (`Time: …` with one decimal) and of the banner. The clock keeps the frame time, and the banner keeps the id and term it would print.
- The colour each agent's marker gets from the plotting library's colour cycle. `trailTinted` records only whether the trail has been recoloured to match it.
- A trail's drawn data is not a separate field. It is set to the history whenever the agent is alive, and the history changes only then, so the two are always equal.
- Renderer.FrameRenderer.Update: requires a frame to list at most `num_agents` agents. With more, the code fails part-way through a frame (an index error at visualize.py:68). That partial update is not modelled. The same bound is required by `Renderer.FrameRenderer.DrawAgents`, `FrameRules.Step`, `FrameRules.Run`, `FrameRules.Visualize` and the lemmas about runs: `RunHistory`, `HistoryFromStart`, `FrozenWhileDead`, `DeadTrailStaysDim`, `AliveTrailKept`, `TintedIffSeenAlive`, `UnreportedTaskKept`, `NeverReportedHidden`, `LastFrameDecides` and `VisualizeHistory`.
- Missing keys in a frame (`"alive"`, `"done"`, `"t"`, `"agents"`, `"tasks"`) and non-integer ids or terms abort or misbehave in the code. Here they cannot be expressed, because the frame is a typed value.
