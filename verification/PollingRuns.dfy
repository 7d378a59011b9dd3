/** What the polling service does over whole runs. */
module PollingRuns {
  import opened Bytes
  import opened WorkspacePolling

  // ---------- Publishing ----------

  /** A workspace event about the workspace selected, or one without an id while none is selected. */
  predicate AboutSelection(e: Event, selectedId: Option<string>) {
    && (e.WorkspaceDeleted? || e.WorkspaceChanged?)
    && match selectedId {
         case Some(id) => e.dataId == Id(id)
         case None => e.dataId == Missing
       }
  }

  /** The steps after which the result of a probe that is out is of no use any more. */
  predicate Interrupts(w: World, step: Step) {
    || step.Connect? || step.Shutdown?
    || (step.Receive? && (step.event.UiChanged? || AboutSelection(step.event, w.selectedId)))
  }

  predicate Undisturbed(w: World, steps: seq<Step>)
    decreases |steps|
  {
    steps == [] || (!Interrupts(w, steps[0]) && Undisturbed(Next(w, steps[0]), steps[1..]))
  }

  /** What there is to know about refresh c: its workspace, its version, and whether that is current. */
  predicate Carries(w: World, c: int, workspace: Workspace, version: int, current: bool) {
    && c < w.nextController
    && (if current then version == w.contextVersion else version < w.contextVersion)
    && (c in w.inFlight ==>
          && w.inFlight[c].workspace == workspace && w.inFlight[c].version == version
          && (current ==> !w.inFlight[c].aborted))
  }

  lemma BeginCarries(w: World, c: int, workspace: Workspace, version: int, current: bool)
    requires Carries(w, c, workspace, version, current)
    ensures Carries(Queued(w), c, workspace, version, current) && Queued(w).published == w.published
  {
  }

  lemma MoveCarries(w: World, c: int, workspace: Workspace, version: int, current: bool)
    requires Carries(w, c, workspace, version, current)
    ensures Carries(MovedOn(w), c, workspace, version, false) && MovedOn(w).published == w.published
  {
    hide Queued;
    BeginCarries(Aborted(w.(selectedId := w.desktop.ui.selectedId, contextVersion := w.contextVersion + 1)),
                 c, workspace, version, false);
  }

  lemma StepCarries(w: World, step: Step, c: int, workspace: Workspace, version: int, current: bool)
    requires Carries(w, c, workspace, version, current)
    ensures Carries(Next(w, step), c, workspace, version, current && !Interrupts(w, step))
  {
    hide Queued, MovedOn, Applied, Loaded;
    match step {
      case Connect(s) => MoveCarries(w.(desktop := Loaded(s)), c, workspace, version, current);
      case Receive(e) => MoveCarries(w.(desktop := Applied(w.desktop, e)), c, workspace, version, current);
      case Tick => BeginCarries(w, c, workspace, version, current);
      case Finish(c') =>
        if InPhase(w, c', Settling) {
          BeginCarries(Ended(w, c'), c, workspace, version, current);
        }
      case _ =>
    }
  }

  lemma {:induction false} RunCarries(w: World, steps: seq<Step>, c: int, workspace: Workspace, version: int)
    requires Carries(w, c, workspace, version, true)
    ensures Carries(Run(w, steps), c, workspace, version, Undisturbed(w, steps))
    decreases |steps|
  {
    hide Next, Interrupts, Carries;
    if steps != [] {
      StepCarries(w, steps[0], c, workspace, version, true);
      if Interrupts(w, steps[0]) {
        RunStaysStale(Next(w, steps[0]), steps[1..], c, workspace, version);
      } else {
        RunCarries(Next(w, steps[0]), steps[1..], c, workspace, version);
      }
    }
  }

  lemma {:induction false} RunStaysStale(w: World, steps: seq<Step>, c: int, workspace: Workspace, version: int)
    requires Carries(w, c, workspace, version, false)
    ensures Carries(Run(w, steps), c, workspace, version, false)
    decreases |steps|
  {
    hide Next, Interrupts, Carries;
    if steps != [] {
      StepCarries(w, steps[0], c, workspace, version, false);
      RunStaysStale(Next(w, steps[0]), steps[1..], c, workspace, version);
    }
  }

  /** The step begins refresh c. */
  predicate Begins(w: World, step: Step, c: int) { c !in w.inFlight && c in Next(w, step).inFlight }

  lemma BegunIsCurrent(w: World, step: Step, c: int)
    requires Begins(w, step, c)
    ensures c == w.nextController
    ensures var w' := Next(w, step);
            && w'.desktop.SelectedWorkspace().Some?
            && w'.inFlight[c].phase == Probing
            && Carries(w', c, w'.desktop.SelectedWorkspace().value, w'.contextVersion, true)
  {
    hide Queued, MovedOn, Aborted;
    match step {
      case Connect(s) => MovedBegins(w.(desktop := Loaded(s)), c);
      case Receive(e) => MovedBegins(w.(desktop := Applied(w.desktop, e)), c);
      case Tick => QueuedBegins(w, c);
      case Shutdown => AbortKeeps(w.(timer := false, contextVersion := w.contextVersion + 1));
      case Finish(c') =>
        if InPhase(w, c', Settling) { QueuedBegins(Ended(w, c'), c); }
      case _ =>
    }
  }

  /** What finishRefresh leaves before it looks at the queue. */
  function Ended(w: World, c: int): World {
    w.(inFlight := w.inFlight - {c}, running := false,
       controller := if w.controller == Some(c) then None else w.controller)
  }

  lemma AbortKeeps(w: World)
    ensures var w' := Aborted(w);
            && w'.inFlight.Keys == w.inFlight.Keys && w'.(inFlight := w.inFlight) == w
            && (forall c :: c in w.inFlight ==> w'.inFlight[c].(aborted := w.inFlight[c].aborted) == w.inFlight[c])
  {
  }

  /** A refresh begins where none runs and a workspace is selected. */
  lemma QueuedBegins(w: World, c: int)
    ensures var w' := Queued(w);
            && (c in w'.inFlight && c !in w.inFlight ==>
                  c == w.nextController && w'.desktop.SelectedWorkspace().Some? && InPhase(w', c, Probing)
                  && Carries(w', c, w'.desktop.SelectedWorkspace().value, w'.contextVersion, true))
            && (w.nextController !in w.inFlight ==>
                  (w.nextController in w'.inFlight <==> !w.running && w'.desktop.SelectedWorkspace().Some?))
            && w'.desktop == w.desktop && w'.published == w.published && w'.nextController >= w.nextController
            && (c in w.inFlight && c < w.nextController ==> c in w'.inFlight && w'.inFlight[c] == w.inFlight[c])
  {
  }

  lemma MovedBegins(w: World, c: int)
    ensures var w' := MovedOn(w);
            && (c in w'.inFlight && c !in w.inFlight ==>
                  c == w.nextController && w'.desktop.SelectedWorkspace().Some? && InPhase(w', c, Probing)
                  && Carries(w', c, w'.desktop.SelectedWorkspace().value, w'.contextVersion, true))
            && (w.nextController !in w.inFlight ==>
                  (w.nextController in w'.inFlight <==> !w.running && w'.desktop.SelectedWorkspace().Some?))
            && w'.desktop == w.desktop && w'.published == w.published && w'.nextController >= w.nextController
            && (c in w.inFlight && c < w.nextController ==>
                  c in w'.inFlight && w'.inFlight[c].phase == w.inFlight[c].phase)
  {
    hide Queued, Aborted, Carries;
    var v := w.(selectedId := w.desktop.ui.selectedId, contextVersion := w.contextVersion + 1);
    AbortKeeps(v);
    QueuedBegins(Aborted(v), c);
  }

  /**
   * In any run, the probe of a refresh publishes, once, the workspace that was selected when
   * the refresh began, if and only if no connection, no stop and no event that concerns the
   * selection came in between. Otherwise its result is dropped.
   */
  lemma ResolvedIsPublishedIff(before: seq<Step>, begin: Step, between: seq<Step>, c: int)
    requires var w0 := Run(INITIAL, before);
             Begins(w0, begin, c) && InPhase(Run(Next(w0, begin), between), c, Probing)
    ensures var w1 := Next(Run(INITIAL, before), begin);
            var w2 := Run(w1, between);
            && w1.desktop.SelectedWorkspace().Some?
            && Next(w2, Resolve(c)).published ==
               if Undisturbed(w1, between)
               then w2.published + [Publication(w1.desktop.SelectedWorkspace().value, w2.desktop.SelectedWorkspace())]
               else w2.published
  {
    hide Run, Undisturbed, Begins;
    var w1 := Next(Run(INITIAL, before), begin);
    BegunIsCurrent(Run(INITIAL, before), begin, c);
    hide Next;
    RunCarries(w1, between, c, w1.desktop.SelectedWorkspace().value, w1.contextVersion);
    ResolvePublishes(Run(w1, between), c, w1.desktop.SelectedWorkspace().value, w1.contextVersion,
                     Undisturbed(w1, between));
  }

  lemma ResolvePublishes(w: World, c: int, workspace: Workspace, version: int, current: bool)
    requires Carries(w, c, workspace, version, current) && InPhase(w, c, Probing)
    ensures Next(w, Resolve(c)).published ==
            if current then w.published + [Publication(workspace, w.desktop.SelectedWorkspace())] else w.published
  {
  }

  /** Nothing else publishes. */
  lemma OnlyProbesPublish(w: World, step: Step)
    requires step.Resolve? ==> !InPhase(w, step.c, Probing)
    ensures Next(w, step).published == w.published
  {
    hide Queued, MovedOn, Aborted, Carries, Applied, Loaded;
    match step {
      case Connect(s) => MovedBegins(w.(desktop := Loaded(s)), 0);
      case Receive(e) => MovedBegins(w.(desktop := Applied(w.desktop, e)), 0);
      case Tick => QueuedBegins(w, 0);
      case Shutdown => AbortKeeps(w.(timer := false, contextVersion := w.contextVersion + 1));
      case Finish(c') =>
        if InPhase(w, c', Settling) { QueuedBegins(Ended(w, c'), 0); }
      case _ =>
    }
  }

  /** A refresh that is no longer probing never probes again, so it publishes once at most. */
  lemma {:induction false} ProbesOnce(w: World, steps: seq<Step>, c: int)
    requires c < w.nextController && !InPhase(w, c, Probing)
    ensures !InPhase(Run(w, steps), c, Probing)
    decreases |steps|
  {
    if steps != [] {
      StepProbesOnce(w, steps[0], c);
      hide Next;
      ProbesOnce(Next(w, steps[0]), steps[1..], c);
    }
  }

  lemma StepProbesOnce(w: World, step: Step, c: int)
    requires c < w.nextController && !InPhase(w, c, Probing)
    ensures c < Next(w, step).nextController && !InPhase(Next(w, step), c, Probing)
  {
    hide Queued, MovedOn, Aborted, Carries;
    match step {
      case Connect(s) => MovedBegins(w.(desktop := Loaded(s)), c);
      case Receive(e) => MovedBegins(w.(desktop := Applied(w.desktop, e)), c);
      case Tick => QueuedBegins(w, c);
      case Shutdown => AbortKeeps(w.(timer := false, contextVersion := w.contextVersion + 1));
      case Finish(c') =>
        if InPhase(w, c', Settling) { QueuedBegins(Ended(w, c'), c); }
      case _ =>
    }
  }

  /** A workspace is selected exactly when the ui names one that is there, by an id that is not empty. */
  lemma SelectedIff(d: Desktop, w: Workspace)
    ensures d.SelectedWorkspace() == Some(w) <==>
            exists id :: id != "" && d.ui.selectedId == Some(id) && id in d.workspaces && d.workspaces[id] == w
  {
  }

  /** A connection with one workspace selected, whose probe is then answered. */
  lemma FirstResultIsPublished()
    ensures Run(INITIAL, [Connect(ONE_SELECTED), Resolve(0)]).published
            == [Publication(Workspace("w", 0), Some(Workspace("w", 0)))]
  {
    var w := Next(INITIAL, Connect(ONE_SELECTED));
    assert ById(ONE_SELECTED.workspaces, WorkspaceId) == map["w" := Workspace("w", 0)];
    assert [Connect(ONE_SELECTED), Resolve(0)][1..] == [Resolve(0)] && [Resolve(0)][1..] == [];
    assert Run(INITIAL, [Connect(ONE_SELECTED), Resolve(0)]) == Run(w, [Resolve(0)]) == Next(w, Resolve(0));
  }

  // ---------- Beginning ----------

  /** Asking for a refresh: connecting, events about the selection, and the timer while it is on. */
  predicate Asks(w: World, step: Step) {
    (Interrupts(w, step) && !step.Shutdown?) || (step.Tick? && w.timer)
  }

  /** A refresh begins when one is asked for and none is running, or when one ends with another queued. */
  lemma BeginsIff(w: World, step: Step)
    requires forall c :: c in w.inFlight ==> c < w.nextController
    ensures Begins(w, step, w.nextController) <==>
            && Next(w, step).desktop.SelectedWorkspace().Some?
            && ((Asks(w, step) && !w.running) || (step.Finish? && InPhase(w, step.c, Settling) && w.refreshQueued))
  {
    hide Queued, MovedOn, Aborted, Carries;
    var c := w.nextController;
    match step {
      case Connect(s) => MovedBegins(w.(desktop := Loaded(s)), c);
      case Receive(e) => MovedBegins(w.(desktop := Applied(w.desktop, e)), c);
      case Tick => QueuedBegins(w, c);
      case Shutdown => AbortKeeps(w.(timer := false, contextVersion := w.contextVersion + 1));
      case Finish(c') =>
        if InPhase(w, c', Settling) { QueuedBegins(Ended(w, c'), c); }
      case _ =>
    }
  }

  /** Asked for while one is running, a refresh is queued. */
  lemma AskedIsQueued(w: World, step: Step)
    requires w.running && Asks(w, step)
    ensures Next(w, step).refreshQueued && Next(w, step).inFlight.Keys == w.inFlight.Keys
  {
    hide Applied, Loaded;
  }

  /** What the world outside owes refresh c: an answer to its probe, one to its publication, its end. */
  function Rest(w: World, c: int): seq<Step>
    requires c in w.inFlight
  {
    match w.inFlight[c].phase
    case Probing => [Reject(c), Finish(c)]
    case Publishing => [PublishSettles(c), Finish(c)]
    case Settling => [Finish(c)]
  }

  /** A refresh can always end, and one that was queued behind it then begins. */
  lemma QueuedRefreshBegins(w: World, c: int)
    requires c in w.inFlight && (forall c' :: c' in w.inFlight ==> c' < w.nextController)
    ensures var w' := Run(w, Rest(w, c));
            && c !in w'.inFlight
            && (w.refreshQueued && w.desktop.SelectedWorkspace().Some? ==>
                  InPhase(w', w.nextController, Probing)
                  && w'.inFlight[w.nextController].workspace == w.desktop.SelectedWorkspace().value
                  && w'.inFlight[w.nextController].version == w.contextVersion)
  {
    if w.inFlight[c].phase == Settling {
      EndBegins(w, c);
    } else {
      var v := ToPhase(w, c, Settling);
      assert Rest(w, c)[1..] == [Finish(c)];
      assert Run(w, Rest(w, c)) == Run(v, [Finish(c)]);
      EndBegins(v, c);
    }
  }

  lemma EndBegins(w: World, c: int)
    requires InPhase(w, c, Settling) && (forall c' :: c' in w.inFlight ==> c' < w.nextController)
    ensures var w' := Run(w, [Finish(c)]);
            && c !in w'.inFlight
            && (w.refreshQueued && w.desktop.SelectedWorkspace().Some? ==>
                  InPhase(w', w.nextController, Probing)
                  && w'.inFlight[w.nextController].workspace == w.desktop.SelectedWorkspace().value
                  && w'.inFlight[w.nextController].version == w.contextVersion)
  {
    assert [Finish(c)][1..] == [];
    assert Run(w, [Finish(c)]) == Next(w, Finish(c));
  }

  // ---------- The timer ----------

  /** Whether the last connection or stop of a run was a connection. */
  predicate Connected(on: bool, steps: seq<Step>) {
    if steps == [] then on
    else if steps[|steps| - 1].Connect? then true
    else if steps[|steps| - 1].Shutdown? then false
    else Connected(on, steps[..|steps| - 1])
  }

  lemma {:induction false} ConnectedFirst(on: bool, steps: seq<Step>)
    requires steps != []
    ensures Connected(on, steps) == Connected(Connected(on, steps[..1]), steps[1..])
  {
    var n := |steps| - 1;
    if n > 0 {
      ConnectedFirst(on, steps[..n]);
      assert steps[..n][..1] == steps[..1] && steps[..n][1..] == steps[1..][..n - 1];
    }
  }

  lemma StepTimer(w: World, step: Step)
    ensures Next(w, step).timer == Connected(w.timer, [step])
  {
    hide Applied, Loaded;
    assert [step][..0] == [];
  }

  lemma {:induction false} TimerRunsIffConnected(w: World, steps: seq<Step>)
    ensures Run(w, steps).timer <==> Connected(w.timer, steps)
    decreases |steps|
  {
    hide Next;
    if steps != [] {
      StepTimer(w, steps[0]);
      ConnectedFirst(w.timer, steps);
      assert steps[..1] == [steps[0]];
      TimerRunsIffConnected(Next(w, steps[0]), steps[1..]);
    }
  }

  // ---------- The desktop state ----------

  function Lookup<V>(m: map<string, V>, id: string): Option<V> {
    if id in m then Some(m[id]) else None
  }

  /** The last of the values with an id, of a list. */
  lemma {:induction false} ByIdIsLast<T>(xs: seq<T>, id: T -> string, key: string)
    ensures Lookup(ById(xs, id), key).None? <==> forall i :: 0 <= i < |xs| ==> id(xs[i]) != key
    ensures forall i :: 0 <= i < |xs| && id(xs[i]) == key && (forall j :: i < j < |xs| ==> id(xs[j]) != key) ==>
              Lookup(ById(xs, id), key) == Some(xs[i])
  {
    if xs != [] {
      var n := |xs| - 1;
      ByIdIsLast(xs[..n], id, key);
      if id(xs[n]) != key {
        assert forall i :: 0 <= i < n ==> xs[..n][i] == xs[i];
      }
    }
  }

  datatype Table = Workspaces | Tiles | Terminals | CurrentLevel | Selections

  datatype Value =
    | AWorkspace(workspace: Workspace) | ATile(tile: Tile) | ATerminal(terminal: Terminal)
    | ALevel(level: Level)
    | ASelection(selectedId: Option<string>, selectedTileId: Option<string>, focusedTileId: Option<string>)

  /** What the desktop state holds in a table under an id. */
  function Held(d: Desktop, table: Table, id: string): Option<Value> {
    match table
    case Workspaces => if id in d.workspaces then Some(AWorkspace(d.workspaces[id])) else None
    case Tiles => if id in d.tiles then Some(ATile(d.tiles[id])) else None
    case Terminals => if id in d.terminals then Some(ATerminal(d.terminals[id])) else None
    case CurrentLevel => Some(ALevel(d.ui.level))
    case Selections => Some(ASelection(d.ui.selectedId, d.ui.selectedTileId, d.ui.focusedTileId))
  }

  /** What an event or a snapshot says about an entry: nothing, that it is gone, or what it is. */
  datatype Word = Silent | Gone | Now(value: Value)

  function Lists(s: Snapshot, table: Table, id: string): Word {
    match table
    case Workspaces =>
      (match Lookup(ById(s.workspaces, WorkspaceId), id) case Some(w) => Now(AWorkspace(w)) case None => Gone)
    case Tiles => (match Lookup(ById(s.tiles, TileId), id) case Some(t) => Now(ATile(t)) case None => Gone)
    case Terminals =>
      (match Lookup(ById(s.terminals, TerminalId), id) case Some(t) => Now(ATerminal(t)) case None => Gone)
    case CurrentLevel => Now(ALevel(s.ui.level))
    case Selections => Now(ASelection(s.ui.selectedId, s.ui.selectedTileId, s.ui.focusedTileId))
  }

  function Says(step: Step, table: Table, id: string): Word {
    match step
    case Connect(s) => Lists(s, table, id)
    case Receive(WorkspaceDeleted(Id(id'))) => if id' == id && table.Workspaces? then Gone else Silent
    case Receive(WorkspaceChanged(Id(id'), true, details)) =>
      if id' == id && table.Workspaces? then Now(AWorkspace(Workspace(id, details))) else Silent
    case Receive(TileRemoved(Id(id'))) => if id' == id && table.Tiles? then Gone else Silent
    case Receive(TileChanged(Id(id'), true, workspaceId, terminalId)) =>
      if id' == id && table.Tiles? then Now(ATile(Tile(id, workspaceId, terminalId))) else Silent
    case Receive(TerminalChanged(Id(id'), true, tileId)) =>
      if id' == id && table.Terminals? then Now(ATerminal(Terminal(id, tileId))) else Silent
    case Receive(UiChanged(level, a, b, c, _)) =>
      if table.Selections? then Now(ASelection(a, b, c))
      else if table.CurrentLevel? && level.Some? then Now(ALevel(level.value))
      else Silent
    case _ => Silent
  }

  function After(word: Word, before: Option<Value>): Option<Value> {
    match word
    case Silent => before
    case Gone => None
    case Now(v) => Some(v)
  }

  lemma StepSays(w: World, step: Step, table: Table, id: string)
    ensures Held(Next(w, step).desktop, table, id) == After(Says(step, table, id), Held(w.desktop, table, id))
  {
    StepDesktop(w, step);
    hide Next;
    if step.Receive? {
      hide Loaded;
      EventSays(w.desktop, step.event, table, id);
    }
  }

  lemma StepDesktop(w: World, step: Step)
    ensures Next(w, step).desktop ==
            match step { case Connect(s) => Loaded(s) case Receive(e) => Applied(w.desktop, e) case _ => w.desktop }
  {
    hide Applied, Loaded;
  }

  lemma EventSays(d: Desktop, e: Event, table: Table, id: string)
    ensures Held(Applied(d, e), table, id) == After(Says(Receive(e), table, id), Held(d, table, id))
  {
  }

  lemma {:induction false} SilenceKeeps(w: World, steps: seq<Step>, table: Table, id: string)
    requires forall i :: 0 <= i < |steps| ==> Says(steps[i], table, id).Silent?
    ensures Held(Run(w, steps).desktop, table, id) == Held(w.desktop, table, id)
    decreases |steps|
  {
    hide Next, Held, Says;
    if steps != [] {
      StepSays(w, steps[0], table, id);
      SilenceKeeps(Next(w, steps[0]), steps[1..], table, id);
    }
  }

  /** Over any run, the last word about an entry is what the desktop state holds. */
  lemma {:induction false} LastWordIsHeld(w: World, steps: seq<Step>, table: Table, id: string, i: nat)
    requires i < |steps| && !Says(steps[i], table, id).Silent?
    requires forall j :: i < j < |steps| ==> Says(steps[j], table, id).Silent?
    ensures Held(Run(w, steps).desktop, table, id) ==
            if Says(steps[i], table, id).Gone? then None else Some(Says(steps[i], table, id).value)
    decreases |steps|
  {
    hide Next, Held, Says;
    if i == 0 {
      StepSays(w, steps[0], table, id);
      SilenceKeeps(Next(w, steps[0]), steps[1..], table, id);
    } else {
      assert steps[1..][i - 1] == steps[i];
      LastWordIsHeld(Next(w, steps[0]), steps[1..], table, id, i - 1);
    }
  }
}
