/** The workspace polling service and the desktop state it watches. */
module WorkspacePolling {
  import opened Bytes

  // ---------- Desktop state ----------

  datatype Workspace = Workspace(id: string, details: int)

  datatype Tile = Tile(id: string, workspaceId: string, terminalId: string)

  datatype Terminal = Terminal(id: string, tileId: string)

  datatype Level = OverviewLevel | WorkspaceLevel | TerminalLevel

  datatype Ui = Ui(level: Level, selectedId: Option<string>, selectedTileId: Option<string>,
                   focusedTileId: Option<string>)

  datatype Desktop = Desktop(workspaces: map<string, Workspace>, tiles: map<string, Tile>,
                             terminals: map<string, Terminal>, ui: Ui) {
    /** The empty id is falsy, so it selects nothing. */
    function SelectedWorkspace(): Option<Workspace> {
      if ui.selectedId.Some? && ui.selectedId.value != "" && ui.selectedId.value in workspaces
      then Some(workspaces[ui.selectedId.value])
      else None
    }
  }

  /** The `id` of an event's data: absent, a string, or something else. */
  datatype DataId = Missing | Id(id: string) | NotAString

  /**
   * Events by what their data hold: `valid` says whether the other fields have the types
   * the state asks for, and a field of the ui that is not a string counts as none.
   */
  datatype Event =
    | UiChanged(level: Option<Level>, selectedId: Option<string>, selectedTileId: Option<string>,
                focusedTileId: Option<string>, dataId: DataId)
    | WorkspaceDeleted(dataId: DataId)
    | WorkspaceChanged(dataId: DataId, valid: bool, details: int)
    | TileRemoved(dataId: DataId)
    | TileChanged(dataId: DataId, valid: bool, workspaceId: string, terminalId: string)
    | TerminalChanged(dataId: DataId, valid: bool, tileId: string)
    | OtherEvent(dataId: DataId)  // command and opener events

  datatype Snapshot = Snapshot(workspaces: seq<Workspace>, tiles: seq<Tile>, terminals: seq<Terminal>, ui: Ui)

  /** A map of values by their id, where later ones win. */
  function ById<T>(xs: seq<T>, id: T -> string): map<string, T> {
    if xs == [] then map[] else ById(xs[..|xs| - 1], id)[id(xs[|xs| - 1]) := xs[|xs| - 1]]
  }

  function WorkspaceId(w: Workspace): string { w.id }

  function TileId(t: Tile): string { t.id }

  function TerminalId(t: Terminal): string { t.id }

  function Loaded(s: Snapshot): Desktop {
    Desktop(ById(s.workspaces, WorkspaceId), ById(s.tiles, TileId), ById(s.terminals, TerminalId), s.ui)
  }

  function Applied(d: Desktop, e: Event): Desktop {
    match e
    case UiChanged(level, selectedId, selectedTileId, focusedTileId, _) =>
      d.(ui := Ui(if level.Some? then level.value else d.ui.level, selectedId, selectedTileId, focusedTileId))
    case WorkspaceDeleted(Id(id)) => d.(workspaces := d.workspaces - {id})
    case WorkspaceChanged(Id(id), true, details) => d.(workspaces := d.workspaces[id := Workspace(id, details)])
    case TileRemoved(Id(id)) => d.(tiles := d.tiles - {id})
    case TileChanged(Id(id), true, workspaceId, terminalId) =>
      d.(tiles := d.tiles[id := Tile(id, workspaceId, terminalId)])
    case TerminalChanged(Id(id), true, tileId) => d.(terminals := d.terminals[id := Terminal(id, tileId)])
    case _ => d
  }

  // ---------- The service ----------

  datatype Phase = Probing | Publishing | Settling

  /** A refresh between its first and last await; the captured variables of the async method. */
  datatype RefreshCall = RefreshCall(workspace: Workspace, version: int, aborted: bool, phase: Phase)

  /** A call of publish, and what was selected at that moment. */
  datatype Publication = Publication(workspace: Workspace, selected: Option<Workspace>)

  /**
   * The service's fields, the refreshes in flight by controller, and two records: what has
   * been published, and for which context versions a refresh was begun.
   */
  datatype World = World(desktop: Desktop, timer: bool, controller: Option<int>, running: bool,
                         refreshQueued: bool, contextVersion: int, selectedId: Option<string>,
                         inFlight: map<int, RefreshCall>, nextController: int,
                         published: seq<Publication>, begun: set<int>)

  const INITIAL := World(Desktop(map[], map[], map[], Ui(OverviewLevel, None, None, None)), false, None, false, false, 0, None, map[], 0, [], {})

  function Aborted(w: World): World {
    if w.controller.Some? && w.controller.value in w.inFlight then
      var c := w.controller.value;
      w.(inFlight := w.inFlight[c := w.inFlight[c].(aborted := true)])
    else w
  }

  /** refresh() up to its first await. */
  function Begun(w: World): World {
    match w.desktop.SelectedWorkspace()
    case None => w
    case Some(workspace) =>
      var c := w.nextController;
      w.(controller := Some(c), running := true, refreshQueued := false, nextController := c + 1,
         inFlight := w.inFlight[c := RefreshCall(workspace, w.contextVersion, false, Probing)],
         begun := w.begun + {w.contextVersion})
  }

  function Queued(w: World): World {
    if w.running then w.(refreshQueued := true) else Begun(w)
  }

  function MovedOn(w: World): World {
    Queued(Aborted(w.(selectedId := w.desktop.ui.selectedId, contextVersion := w.contextVersion + 1)))
  }

  function Started(w: World, s: Snapshot): World {
    MovedOn(w.(desktop := Loaded(s))).(timer := true)
  }

  function Stopped(w: World): World {
    Aborted(w.(timer := false, contextVersion := w.contextVersion + 1))
      .(controller := None, running := false, refreshQueued := false)
  }

  /** `workspaceId === this.selectedWorkspaceId`, where an absent id is undefined. */
  predicate SameId(dataId: DataId, selectedId: Option<string>) {
    (dataId.Missing? && selectedId.None?) || (dataId.Id? && selectedId == Some(dataId.id))
  }

  predicate Concerns(e: Event, selectedId: Option<string>) {
    e.UiChanged? || ((e.WorkspaceDeleted? || e.WorkspaceChanged?) && SameId(e.dataId, selectedId))
  }

  /** The desktop state takes the event in, then the service does. */
  function EventHandled(w: World, e: Event): World {
    var w' := w.(desktop := Applied(w.desktop, e));
    if Concerns(e, w.selectedId) then MovedOn(w') else w'
  }

  predicate InPhase(w: World, c: int, phase: Phase) { c in w.inFlight && w.inFlight[c].phase == phase }

  function ToPhase(w: World, c: int, phase: Phase): World
    requires c in w.inFlight
  {
    w.(inFlight := w.inFlight[c := w.inFlight[c].(phase := phase)])
  }

  /** The probe of refresh c resolves: publish, unless the context has moved on. */
  function ProbeResolved(w: World, c: int): World
    requires InPhase(w, c, Probing)
  {
    var r := w.inFlight[c];
    if r.version == w.contextVersion && !r.aborted then
      ToPhase(w, c, Publishing).(published := w.published + [Publication(r.workspace, w.desktop.SelectedWorkspace())])
    else ToPhase(w, c, Settling)
  }

  /** finishRefresh. */
  function Finished(w: World, c: int): World
    requires c in w.inFlight
  {
    var w' := w.(inFlight := w.inFlight - {c}, running := false,
                 controller := if w.controller == Some(c) then None else w.controller);
    if w'.refreshQueued then Queued(w') else w'
  }

  datatype Step =
    | Connect(snapshot: Snapshot)
    | Receive(event: Event)
    | Tick
    | Shutdown
    | Resolve(c: int)         // the probe's promise is fulfilled
    | Reject(c: int)          // the probe's promise is rejected
    | PublishSettles(c: int)  // the publish promise is fulfilled or rejected
    | Finish(c: int)

  /** One step; a step that is not possible changes nothing. */
  function Next(w: World, step: Step): World {
    match step
    case Connect(s) => Started(w, s)
    case Receive(e) => EventHandled(w, e)
    case Tick => if w.timer then Queued(w) else w
    case Shutdown => Stopped(w)
    case Resolve(c) => if InPhase(w, c, Probing) then ProbeResolved(w, c) else w
    case Reject(c) => if InPhase(w, c, Probing) then ToPhase(w, c, Settling) else w
    case PublishSettles(c) => if InPhase(w, c, Publishing) then ToPhase(w, c, Settling) else w
    case Finish(c) => if InPhase(w, c, Settling) then Finished(w, c) else w
  }

  function Run(w: World, steps: seq<Step>): World
    decreases |steps|
  {
    if steps == [] then w else Run(Next(w, steps[0]), steps[1..])
  }

  // ---------- Freshness, over every run ----------

  predicate Fresh(p: Publication) { p.selected == Some(p.workspace) }

  /**
   * A refresh in flight whose version is current holds the selected workspace, and
   * everything published was selected when it was published.
   */
  ghost predicate Consistent(w: World) {
    && w.selectedId == w.desktop.ui.selectedId
    && (forall c :: c in w.inFlight ==> c < w.nextController && w.inFlight[c].version <= w.contextVersion)
    && (forall c :: c in w.inFlight && w.inFlight[c].version == w.contextVersion ==>
          w.desktop.SelectedWorkspace() == Some(w.inFlight[c].workspace))
    && (forall i :: 0 <= i < |w.published| ==> Fresh(w.published[i]))
  }

  lemma NextConsistent(w: World, step: Step)
    requires Consistent(w)
    ensures Consistent(Next(w, step))
  {
    hide Consistent, Queued, MovedOn, Stopped, EventHandled, Finished, ProbeResolved, Bounded;
    match step {
      case Connect(s) => StartConsistent(w, s);
      case Receive(e) => EventConsistent(w, e);
      case Tick => QueueConsistent(w);
      case Shutdown => StopConsistent(w);
      case Finish(c) => if InPhase(w, c, Settling) { FinishConsistent(w, c); }
      case _ => PhaseConsistent(w, step);
    }
  }

  lemma StartConsistent(w: World, s: Snapshot)
    requires Consistent(w)
    ensures Consistent(Started(w, s))
  {
    hide MovedOn;
    ContextChangedConsistent(w.(desktop := Loaded(s)));
  }

  lemma StopConsistent(w: World)
    requires Consistent(w)
    ensures Consistent(Stopped(w))
  {
  }

  lemma FinishConsistent(w: World, c: int)
    requires Consistent(w) && c in w.inFlight
    ensures Consistent(Finished(w, c))
  {
    hide Queued;
    QueueConsistent(w.(inFlight := w.inFlight - {c}, running := false,
                       controller := if w.controller == Some(c) then None else w.controller));
  }

  /** The steps that only move a refresh to its next phase. */
  lemma PhaseConsistent(w: World, step: Step)
    requires Consistent(w) && (step.Resolve? || step.Reject? || step.PublishSettles?)
    ensures Consistent(Next(w, step))
  {
    hide Consistent, ToPhase, ProbeResolved;
    match step {
      case Resolve(c) => if InPhase(w, c, Probing) { ProbeConsistent(w, c); }
      case Reject(c) => if InPhase(w, c, Probing) { ToPhaseConsistent(w, c, Settling); }
      case PublishSettles(c) => if InPhase(w, c, Publishing) { ToPhaseConsistent(w, c, Settling); }
      case _ =>
    }
  }

  lemma ToPhaseConsistent(w: World, c: int, phase: Phase)
    requires Consistent(w) && c in w.inFlight
    ensures Consistent(ToPhase(w, c, phase))
  {
  }

  /** A probe publishes in its own context only, and there it holds the selected workspace. */
  lemma ProbeConsistent(w: World, c: int)
    requires Consistent(w) && InPhase(w, c, Probing)
    ensures Consistent(ProbeResolved(w, c))
  {
    ToPhaseConsistent(w, c, Publishing);
    ToPhaseConsistent(w, c, Settling);
  }

  /** What a change of context needs: the selection may have changed under the service. */
  ghost predicate Bounded(w: World) {
    && (forall c :: c in w.inFlight ==> c < w.nextController && w.inFlight[c].version <= w.contextVersion)
    && (forall i :: 0 <= i < |w.published| ==> Fresh(w.published[i]))
  }

  lemma ContextChangedConsistent(w: World)
    requires Bounded(w)
    ensures Consistent(MovedOn(w))
  {
    hide Queued, Begun, Aborted, Consistent;
    MovedOnConsistent(w.(selectedId := w.desktop.ui.selectedId, contextVersion := w.contextVersion + 1));
    QueueConsistent(Aborted(w.(selectedId := w.desktop.ui.selectedId, contextVersion := w.contextVersion + 1)));
  }

  lemma MovedOnConsistent(w: World)
    requires w.selectedId == w.desktop.ui.selectedId && Bounded(w)
    requires forall c :: c in w.inFlight ==> w.inFlight[c].version < w.contextVersion
    ensures Consistent(Aborted(w))
  {
  }

  lemma QueueConsistent(w: World)
    requires Consistent(w)
    ensures Consistent(Queued(w))
  {
  }

  lemma EventConsistent(w: World, e: Event)
    requires Consistent(w)
    ensures Consistent(EventHandled(w, e))
  {
    if Concerns(e, w.selectedId) {
      ContextChangedConsistent(w.(desktop := Applied(w.desktop, e)));
    } else {
      assert Applied(w.desktop, e).SelectedWorkspace() == w.desktop.SelectedWorkspace();
    }
  }

  lemma {:induction false} RunConsistent(w: World, steps: seq<Step>)
    requires Consistent(w)
    ensures Consistent(Run(w, steps))
    decreases |steps|
  {
    if steps != [] {
      NextConsistent(w, steps[0]);
      RunConsistent(Next(w, steps[0]), steps[1..]);
    }
  }

  /** Whatever happens in whatever order, only the workspace selected at that moment is published. */
  lemma OnlySelectedPublished(steps: seq<Step>)
    ensures forall i :: 0 <= i < |Run(INITIAL, steps).published| ==> Fresh(Run(INITIAL, steps).published[i])
  {
    RunConsistent(INITIAL, steps);
  }

  // ---------- Single flight, over runs without stop ----------

  predicate NoStop(steps: seq<Step>) { forall i :: 0 <= i < |steps| ==> !steps[i].Shutdown? }

  ghost predicate Busy(w: World) { exists c :: c in w.inFlight }

  ghost predicate AtMostOne(w: World) { forall c, c' :: c in w.inFlight && c' in w.inFlight ==> c == c' }

  /**
   * At most one refresh is in flight, the one the abort controller belongs to, and
   * `running` says so. Once stale it is aborted and a new refresh is queued behind it.
   */
  ghost predicate SingleFlight(w: World) {
    && (w.running <==> Busy(w))
    && (forall c :: c in w.inFlight ==> w.controller == Some(c))
    && (forall c :: c in w.inFlight ==> c < w.nextController && w.inFlight[c].version <= w.contextVersion)
    && (forall c :: c in w.inFlight && w.inFlight[c].version < w.contextVersion ==>
          w.inFlight[c].aborted && w.refreshQueued)
  }

  /** The selected workspace has been probed in this context, or will be when the refresh in flight ends. */
  ghost predicate NoLostUpdate(w: World) {
    w.desktop.SelectedWorkspace().Some? ==> w.contextVersion in w.begun || (Busy(w) && w.refreshQueued)
  }

  lemma NextSingleFlight(w: World, step: Step)
    requires SingleFlight(w) && !step.Shutdown?
    ensures SingleFlight(Next(w, step))
  {
    match step {
      case Connect(s) => ContextChangedSingleFlight(w.(desktop := Loaded(s)));
      case Receive(e) => EventSingleFlight(w, e);
      case Tick => QueueSingleFlight(w);
      case Finish(c) =>
        if InPhase(w, c, Settling) {
          FinishedSingleFlight(w, c);
        }
      case _ => PhaseSingleFlight(w, step);
    }
  }

  lemma EventSingleFlight(w: World, e: Event)
    requires SingleFlight(w)
    ensures SingleFlight(EventHandled(w, e))
  {
    if Concerns(e, w.selectedId) {
      ContextChangedSingleFlight(w.(desktop := Applied(w.desktop, e)));
    }
  }

  lemma QueueSingleFlight(w: World)
    requires SingleFlight(w)
    ensures SingleFlight(Queued(w))
  {
    if !w.running {
      BeginSingleFlight(w);
    } else {
      var c :| c in w.inFlight;
      assert c in Queued(w).inFlight;
    }
  }

  lemma BeginSingleFlight(w: World)
    requires forall c :: c !in w.inFlight
    requires !w.running
    ensures SingleFlight(Begun(w)) && NoLostUpdate(Begun(w))
  {
    if w.desktop.SelectedWorkspace().Some? {
      assert w.nextController in Begun(w).inFlight;
    }
  }

  lemma ContextChangedSingleFlight(w: World)
    requires SingleFlight(w)
    ensures SingleFlight(MovedOn(w)) && NoLostUpdate(MovedOn(w))
  {
    var w' := Aborted(w.(selectedId := w.desktop.ui.selectedId, contextVersion := w.contextVersion + 1));
    if w.running {
      var c :| c in w.inFlight;
      assert c in MovedOn(w).inFlight;
    } else {
      BeginSingleFlight(w');
    }
  }

  lemma FinishedSingleFlight(w: World, c: int)
    requires SingleFlight(w) && c in w.inFlight
    ensures SingleFlight(Finished(w, c))
    ensures w.refreshQueued ==> NoLostUpdate(Finished(w, c))
  {
    var w' := w.(inFlight := w.inFlight - {c}, running := false, controller := None);
    if w.refreshQueued {
      BeginSingleFlight(w');
    }
  }

  /** The steps that only move a refresh to its next phase. */
  lemma PhaseSingleFlight(w: World, step: Step)
    requires SingleFlight(w) && (step.Resolve? || step.Reject? || step.PublishSettles?)
    ensures SingleFlight(Next(w, step)) && (NoLostUpdate(w) ==> NoLostUpdate(Next(w, step)))
  {
    var w' := Next(w, step);
    PhaseKeepsRest(w, step);
    hide Next;
    assert forall c :: c in w.inFlight <==> c in w'.inFlight;
    if Busy(w) {
      var c :| c in w.inFlight;
      assert c in w'.inFlight;
    }
  }

  lemma PhaseKeepsRest(w: World, step: Step)
    requires step.Resolve? || step.Reject? || step.PublishSettles?
    ensures RestKept(w, Next(w, step))
  {
    hide RestKept, ToPhase;
    NothingMoves(w);
    match step {
      case Resolve(c) =>
        if InPhase(w, c, Probing) {
          MovesOn(w, c, Publishing, w.published);
          MovesOn(w, c, Publishing, ProbeResolved(w, c).published);
          MovesOn(w, c, Settling, w.published);
        }
      case Reject(c) => if InPhase(w, c, Probing) { MovesOn(w, c, Settling, w.published); }
      case PublishSettles(c) => if InPhase(w, c, Publishing) { MovesOn(w, c, Settling, w.published); }
      case _ =>
    }
  }

  lemma NothingMoves(w: World)
    ensures RestKept(w, w)
  {
  }

  lemma MovesOn(w: World, c: int, phase: Phase, published: seq<Publication>)
    requires c in w.inFlight
    ensures RestKept(w, ToPhase(w, c, phase).(published := published))
    ensures ToPhase(w, c, phase).(published := w.published) == ToPhase(w, c, phase)
  {
  }

  /** All but publications and the phases of refreshes. */
  ghost predicate RestKept(w: World, w': World) {
    && w'.(inFlight := w.inFlight, published := w.published) == w
    && w'.inFlight.Keys == w.inFlight.Keys
    && forall c :: c in w.inFlight ==>
         w'.inFlight[c].version == w.inFlight[c].version && w'.inFlight[c].aborted == w.inFlight[c].aborted
  }

  lemma NextNoLostUpdate(w: World, step: Step)
    requires SingleFlight(w) && Consistent(w) && NoLostUpdate(w) && !step.Shutdown?
    ensures NoLostUpdate(Next(w, step))
  {
    match step {
      case Connect(s) => ContextChangedSingleFlight(w.(desktop := Loaded(s)));
      case Receive(e) => EventNoLostUpdate(w, e);
      case Tick =>
        if w.running {
          var c :| c in w.inFlight;
          assert w.timer ==> c in Next(w, step).inFlight;
        } else {
          BeginSingleFlight(w);
        }
      case Finish(c) => FinishNoLostUpdate(w, c);
      case _ => PhaseSingleFlight(w, step);
    }
  }

  lemma EventNoLostUpdate(w: World, e: Event)
    requires SingleFlight(w) && Consistent(w) && NoLostUpdate(w)
    ensures NoLostUpdate(EventHandled(w, e))
  {
    if Concerns(e, w.selectedId) {
      ContextChangedSingleFlight(w.(desktop := Applied(w.desktop, e)));
    } else {
      assert Applied(w.desktop, e).SelectedWorkspace() == w.desktop.SelectedWorkspace();
    }
  }

  lemma FinishNoLostUpdate(w: World, c: int)
    requires SingleFlight(w) && NoLostUpdate(w)
    ensures NoLostUpdate(Next(w, Finish(c)))
  {
    if InPhase(w, c, Settling) {
      FinishedSingleFlight(w, c);
    }
  }

  lemma {:induction false} RunSingleFlight(w: World, steps: seq<Step>)
    requires SingleFlight(w) && NoStop(steps)
    ensures SingleFlight(Run(w, steps))
    decreases |steps|
  {
    if steps != [] {
      NextSingleFlight(w, steps[0]);
      RunSingleFlight(Next(w, steps[0]), steps[1..]);
    }
  }

  lemma {:induction false} RunNoLostUpdate(w: World, steps: seq<Step>)
    requires SingleFlight(w) && Consistent(w) && NoLostUpdate(w) && NoStop(steps)
    ensures NoLostUpdate(Run(w, steps))
    decreases |steps|
  {
    if steps != [] {
      NextSingleFlight(w, steps[0]);
      NextConsistent(w, steps[0]);
      NextNoLostUpdate(w, steps[0]);
      RunNoLostUpdate(Next(w, steps[0]), steps[1..]);
    }
  }

  /**
   * Without stop: one refresh at a time, a stale one is aborted and has a successor
   * queued, and no selected workspace goes unprobed.
   */
  lemma SingleFlightWithoutStop(steps: seq<Step>)
    requires NoStop(steps)
    ensures var w := Run(INITIAL, steps);
            SingleFlight(w) && AtMostOne(w) && NoLostUpdate(w)
  {
    RunSingleFlight(INITIAL, steps);
    RunNoLostUpdate(INITIAL, steps);
  }

  /**
   * stop() declares the service idle while a refresh may still be in flight. Exactly when
   * there is one can a later run without further stops have two refreshes in flight.
   */
  lemma StopKeepsSingleFlightIffIdle(w: World)
    requires Consistent(w)
    ensures !Busy(w) <==> forall steps: seq<Step> :: NoStop(steps) ==> AtMostOne(Run(Stopped(w), steps))
  {
    if Busy(w) {
      var steps := Overlap(w);
      assert !AtMostOne(Run(Stopped(w), steps));
    } else {
      forall steps: seq<Step> | NoStop(steps)
        ensures AtMostOne(Run(Stopped(w), steps))
      {
        RunSingleFlight(Stopped(w), steps);
      }
    }
  }

  /** A desktop with one workspace, which is selected. */
  const ONE_SELECTED := Snapshot([Workspace("w", 0)], [], [], Ui(OverviewLevel, Some("w"), None, None))

  /** Reconnecting with a workspace selected starts a second refresh beside the one left over. */
  lemma Overlap(w: World) returns (steps: seq<Step>)
    requires Consistent(w) && Busy(w)
    ensures steps == [Connect(ONE_SELECTED)]
    ensures NoStop(steps) && !AtMostOne(Run(Stopped(w), steps))
  {
    var s := ONE_SELECTED;
    steps := [Connect(s)];
    var c :| c in w.inFlight;
    assert ById(s.workspaces, WorkspaceId) == map["w" := Workspace("w", 0)];
    var w1 := Started(Stopped(w), s);
    assert Run(Stopped(w), steps) == Run(w1, []) == w1;
    assert c in w1.inFlight && w.nextController in w1.inFlight;
  }

  /** Every stop in the run comes while no refresh is in flight. */
  ghost predicate StopsIdle(w: World, steps: seq<Step>)
    decreases |steps|
  {
    steps == [] || ((steps[0].Shutdown? ==> !Busy(w)) && StopsIdle(Next(w, steps[0]), steps[1..]))
  }

  /** With stops only while idle, one refresh at a time is in flight throughout the run. */
  lemma {:induction false} IdleStopsKeepSingleFlight(w: World, steps: seq<Step>)
    requires SingleFlight(w) && StopsIdle(w, steps)
    ensures SingleFlight(Run(w, steps)) && AtMostOne(Run(w, steps))
    decreases |steps|
  {
    hide Next;
    if steps != [] {
      if steps[0].Shutdown? {
        IdleStop(w);
      } else {
        NextSingleFlight(w, steps[0]);
      }
      IdleStopsKeepSingleFlight(Next(w, steps[0]), steps[1..]);
    }
  }

  lemma IdleStop(w: World)
    requires !Busy(w)
    ensures SingleFlight(Next(w, Shutdown))
  {
  }

  lemma SingleFlightWithIdleStops(steps: seq<Step>)
    requires StopsIdle(INITIAL, steps)
    ensures SingleFlight(Run(INITIAL, steps)) && AtMostOne(Run(INITIAL, steps))
  {
    IdleStopsKeepSingleFlight(INITIAL, steps);
  }

  /** A stop and a reconnection while the first probe is out: two refreshes in flight. */
  lemma ReconnectOverlaps()
    ensures var s := ONE_SELECTED;
            !AtMostOne(Run(INITIAL, [Connect(s), Shutdown, Connect(s)]))
  {
    var s := ONE_SELECTED;
    var steps := [Connect(s), Shutdown, Connect(s)];
    FirstProbe(s);
    var w := Next(INITIAL, Connect(s));
    hide Consistent, Busy, AtMostOne, Next;
    NextConsistent(INITIAL, Connect(s));
    var again := Overlap(w);
    assert steps[1..] == [Shutdown, Connect(s)] && steps[1..][1..] == again;
    assert Run(INITIAL, steps) == Run(w, steps[1..]) == Run(Next(w, Shutdown), again);
    ShutdownStops(w);
  }

  lemma FirstProbe(s: Snapshot)
    requires s == ONE_SELECTED
    ensures Consistent(INITIAL) && Busy(Next(INITIAL, Connect(s)))
  {
    assert ById(s.workspaces, WorkspaceId) == map["w" := Workspace("w", 0)];
    assert 0 in Next(INITIAL, Connect(s)).inFlight;
  }

  lemma ShutdownStops(w: World)
    ensures Next(w, Shutdown) == Stopped(w)
  {
  }

  // ---------- The classes ----------

  class DesktopState {
    var workspaces: map<string, Workspace>
    var tiles: map<string, Tile>
    var terminals: map<string, Terminal>
    var ui: Ui

    constructor ()
      ensures View() == INITIAL.desktop
    {
      workspaces, tiles, terminals := map[], map[], map[];
      ui := Ui(OverviewLevel, None, None, None);
    }

    function View(): Desktop
      reads this
    {
      Desktop(workspaces, tiles, terminals, ui)
    }

    method Load(snapshot: Snapshot)
      modifies this
      ensures View() == Loaded(snapshot)
    {
      workspaces := LoadById(snapshot.workspaces, WorkspaceId);
      tiles := LoadById(snapshot.tiles, TileId);
      terminals := LoadById(snapshot.terminals, TerminalId);
      ui := snapshot.ui;
    }

    /** A map cleared and filled again, in order. */
    method LoadById<T>(xs: seq<T>, id: T -> string) returns (m: map<string, T>)
      ensures m == ById(xs, id)
    {
      m := map[];
      for i := 0 to |xs|
        invariant m == ById(xs[..i], id)
      {
        assert xs[..i + 1][..i] == xs[..i];
        m := m[id(xs[i]) := xs[i]];
      }
      assert xs[..|xs|] == xs;
    }

    method HandleEvent(e: Event)
      modifies this
      ensures View() == Applied(old(View()), e)
    {
      match e {
        case UiChanged(level, selectedId, selectedTileId, focusedTileId, _) =>
          ui := Ui(if level.Some? then level.value else ui.level, selectedId, selectedTileId, focusedTileId);
        case WorkspaceDeleted(dataId) =>
          if dataId.Id? {
            workspaces := workspaces - {dataId.id};
          }
        case WorkspaceChanged(dataId, valid, details) =>
          if dataId.Id? && valid {
            workspaces := workspaces[dataId.id := Workspace(dataId.id, details)];
          }
        case TileRemoved(dataId) =>
          if dataId.Id? {
            tiles := tiles - {dataId.id};
          }
        case TileChanged(dataId, valid, workspaceId, terminalId) =>
          if dataId.Id? && valid {
            tiles := tiles[dataId.id := Tile(dataId.id, workspaceId, terminalId)];
          }
        case TerminalChanged(dataId, valid, tileId) =>
          if dataId.Id? && valid {
            terminals := terminals[dataId.id := Terminal(dataId.id, tileId)];
          }
        case OtherEvent(_) =>
      }
    }
  }

  class WorkspacePollingService {
    const state: DesktopState
    var timer: bool
    var abortController: Option<int>
    var running: bool
    var refreshQueued: bool
    var contextVersion: int
    var selectedWorkspaceId: Option<string>
    // the suspended calls of refresh(), and what they have done to the outside
    var inFlight: map<int, RefreshCall>
    var nextController: int
    var published: seq<Publication>
    ghost var begun: set<int>

    constructor (state: DesktopState)
      ensures this.state == state && View() == INITIAL.(desktop := state.View())
    {
      this.state := state;
      timer, abortController, running, refreshQueued := false, None, false, false;
      contextVersion, selectedWorkspaceId := 0, None;
      inFlight, nextController, published, begun := map[], 0, [], {};
    }

    ghost function View(): World
      reads this, state
    {
      World(state.View(), timer, abortController, running, refreshQueued, contextVersion, selectedWorkspaceId,
            inFlight, nextController, published, begun)
    }

    method Start(snapshot: Snapshot)
      modifies this, state
      ensures View() == Started(old(View()), snapshot)
    {
      state.Load(snapshot);
      ContextChanged();
      timer := true;
    }

    method Stop()
      modifies this
      ensures View() == Stopped(old(View()))
    {
      timer := false;
      contextVersion := contextVersion + 1;
      Abort();
      abortController := None;
      running := false;
      refreshQueued := false;
    }

    method HandleEvent(e: Event)
      modifies this
      ensures View() == if Concerns(e, old(selectedWorkspaceId)) then MovedOn(old(View())) else old(View())
    {
      if Concerns(e, selectedWorkspaceId) {
        ContextChanged();
      }
    }

    /** The event listener of index.ts: the state first, then the service. */
    method OnEvent(e: Event)
      modifies this, state
      ensures View() == EventHandled(old(View()), e)
    {
      state.HandleEvent(e);
      HandleEvent(e);
    }

    method ContextChanged()
      modifies this
      ensures View() == MovedOn(old(View()))
    {
      selectedWorkspaceId := state.ui.selectedId;
      contextVersion := contextVersion + 1;
      Abort();
      QueueRefresh();
    }

    method Abort()
      modifies this`inFlight
      ensures View() == Aborted(old(View()))
    {
      if abortController.Some? && abortController.value in inFlight {
        var c := abortController.value;
        inFlight := inFlight[c := inFlight[c].(aborted := true)];
      }
    }

    method QueueRefresh()
      modifies this
      ensures View() == Queued(old(View()))
    {
      if running {
        refreshQueued := true;
        return;
      }
      Refresh();
    }

    method Refresh()
      modifies this
      ensures View() == Begun(old(View()))
    {
      var workspace := state.View().SelectedWorkspace();
      if workspace.None? {
        return;
      }
      abortController := Some(nextController);
      running := true;
      refreshQueued := false;
      inFlight := inFlight[nextController := RefreshCall(workspace.value, contextVersion, false, Probing)];
      nextController := nextController + 1;
      begun := begun + {contextVersion};
    }

    /** probeAndPublish after its first await. */
    method OnProbeResolved(c: int)
      requires c in inFlight && inFlight[c].phase == Probing
      modifies this
      ensures View() == ProbeResolved(old(View()), c)
    {
      var r := inFlight[c];
      if r.version == contextVersion && !r.aborted {
        published := published + [Publication(r.workspace, state.View().SelectedWorkspace())];
        inFlight := inFlight[c := r.(phase := Publishing)];
      } else {
        inFlight := inFlight[c := r.(phase := Settling)];
      }
    }

    /** The probe was rejected, or the publish promise has settled. */
    method OnSettled(c: int)
      requires c in inFlight && inFlight[c].phase != Settling
      modifies this`inFlight
      ensures View() == ToPhase(old(View()), c, Settling)
    {
      inFlight := inFlight[c := inFlight[c].(phase := Settling)];
    }

    method FinishRefresh(c: int)
      requires c in inFlight
      modifies this
      ensures View() == Finished(old(View()), c)
    {
      inFlight := inFlight - {c};
      if abortController == Some(c) {
        abortController := None;
      }
      running := false;
      if refreshQueued {
        QueueRefresh();
      }
    }
  }
}
