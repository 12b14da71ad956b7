/** Reachable states in which the tray protocol does not do what its comments and decision D-110 say. */
module TrayCounterexamples {
  import opened Common
  import opened TrayLoaderSpec
  import opened TrayBridgeSpec
  import opened TrayProtocol
  import opened TrayTheorems
  import opened TrayHidden

  ghost predicate Reachable(w: World) { exists events :: Run(events) == w }

  lemma Reach(w: World, e: Event)
    requires Reachable(w)
    ensures Reachable(Apply(w, e))
  {
    var events :| Run(events) == w;
    assert (events + [e])[..|events|] == events;
    assert Run(events + [e]) == Apply(w, e);
  }

  // ---- one window meets one loader ----------------------------------------------------------------

  function Waiting(t: nat): LoaderState {
    Fresh().(acquired := true, exitAt := Some(t + STARTUP_EXIT_SECONDS * USEC_PER_SEC))
  }

  function Serving(): LoaderState {
    Fresh().(acquired := true, rows := [Row(1, 0, 0, "", false)], nextId := 2, registered := 1)
  }

  function Session(t: nat, core: LoaderState, inbox: seq<ToLoader>, watched: set<Wid>, answered: set<Wid>, win: Win): World {
    World(t, Some(Proc(0, core, inbox, watched, answered, t)), 1, map[0 := win], 1)
  }

  /** A window that tried to start a loader at `t` and then met one: everything has arrived and both sides
      agree. */
  function Greeted(t: nat): BridgeState { Attached().(loaderPresent := true, lastSpawn := t, spawns := [t]) }

  function Met(t: nat): World { Session(t, Serving(), [], {0}, {0}, Win(Greeted(t), [], Some(0), false)) }

  lemma ReachSpawned(t: nat)
    requires t > 0
    ensures var b := Attached().(lastSpawn := t, spawns := [t]);
            Reachable(World(t, None, 0, map[0 := Win(b, [], None, false)], 1))
  {
    assert Run([]) == Empty();
    Reach(Empty(), Tick(t));
    var w1 := Apply(Empty(), Tick(t));
    Reach(w1, WindowStarts);
    var w2 := Apply(w1, WindowStarts);
    Reach(w2, WindowHandles(0));
    var w3 := Apply(w2, WindowHandles(0));
    assert w2.wins == map[0 := Win(Attached(), [ToWindow.Vanished], None, false)];
    assert w2.wins[0].inbox[1..] == [] && [] + [t] == [t];
    assert OnLoaderVanished(Attached(), t) == Attached().(lastSpawn := t, spawns := [t]);
    assert w3.wins == map[0 := Win(Attached().(lastSpawn := t, spawns := [t]), [], None, false)];
  }

  lemma ReachLoader(t: nat)
    requires t > 0
    ensures var b := Attached().(lastSpawn := t, spawns := [t]);
            Reachable(Session(t, Waiting(t), [], {}, {}, Win(b, [Appeared(0)], None, false)))
  {
    ReachSpawned(t);
    var b := Attached().(lastSpawn := t, spawns := [t]);
    var w := World(t, None, 0, map[0 := Win(b, [], None, false)], 1);
    Reach(w, LoaderStarts);
    var w1 := Apply(w, LoaderStarts);
    assert w1.wins == map[0 := Win(b, [] + [Appeared(0)], None, false)];
    Reach(w1, LoaderHandles);
    var p := w1.owner.value;
    assert p.inbox[1..] == [] && [] + [Appeared(0)] == [Appeared(0)];
    assert Handle(p, t) == Proc(0, Waiting(t), [], {}, {}, t);
  }

  lemma ReachGreeting(t: nat)
    requires t > 0
    ensures Reachable(Session(t, Waiting(t), [FromWindow(0, Register("", false))], {}, {},
                              Win(Greeted(t), [], Some(0), false)))
  {
    ReachLoader(t);
    var b := Attached().(lastSpawn := t, spawns := [t]);
    var win := Win(b, [Appeared(0)], None, false);
    var w := Session(t, Waiting(t), [], {}, {}, win);
    Reach(w, WindowHandles(0));
    var w1 := Apply(w, WindowHandles(0));
    assert win.inbox[1..] == [];
    assert [] + [Register("", false)] == [Register("", false)];
    var win1 := Win(Greeted(t).(out := [Register("", false)]), [], Some(0), false);
    assert WinHandle(win, t) == win1;
    assert w1 == Session(t, Waiting(t), [], {}, {}, win1);
    Reach(w1, RouteFromWindow(0));
    assert win1.bridge.out[1..] == [];
    assert [] + [FromWindow(0, Register("", false))] == [FromWindow(0, Register("", false))];
    assert win1.(bridge := win1.bridge.(out := [])) == Win(Greeted(t), [], Some(0), false);
    assert Apply(w1, RouteFromWindow(0)).wins == map[0 := Win(Greeted(t), [], Some(0), false)];
  }

  lemma ReachAnswer(t: nat)
    requires t > 0
    ensures Reachable(Session(t, Serving().(out := [Watch(0), Reply(0, false)]), [], {}, {0},
                              Win(Greeted(t), [], Some(0), false)))
  {
    ReachGreeting(t);
    var m := FromWindow(0, Register("", false));
    var win := Win(Greeted(t), [], Some(0), false);
    var w := Session(t, Waiting(t), [m], {}, {}, win);
    Reach(w, LoaderHandles);
    var p := w.owner.value;
    assert [] + [Row(1, 0, 0, "", false)] == [Row(1, 0, 0, "", false)];
    assert [] + [Watch(0)] == [Watch(0)] && [Watch(0)] + [Reply(0, false)] == [Watch(0), Reply(0, false)];
    assert Record(Waiting(t), 0, "", false) == Serving().(out := [Watch(0)]);
    assert OnCall(Waiting(t), t, 0, Register("", false)) == Serving().(out := [Watch(0), Reply(0, false)]);
    assert p.inbox[1..] == [] && {} + {0} == {0};
    assert Handle(p, t) == Proc(0, Serving().(out := [Watch(0), Reply(0, false)]), [], {}, {0}, t);
  }

  lemma ReachMet(t: nat)
    requires t > 0
    ensures Reachable(Met(t))
  {
    ReachAnswer(t);
    var win := Win(Greeted(t), [], Some(0), false);
    var w := Session(t, Serving().(out := [Watch(0), Reply(0, false)]), [], {}, {0}, win);
    Reach(w, RouteFromLoader);
    var w1 := Apply(w, RouteFromLoader);
    assert [Watch(0), Reply(0, false)][1..] == [Reply(0, false)] && {} + {0} == {0};
    assert w1 == Session(t, Serving().(out := [Reply(0, false)]), [], {0}, {0}, win);
    Reach(w1, RouteFromLoader);
    var w2 := Apply(w1, RouteFromLoader);
    assert [Reply(0, false)][1..] == [] && [] + [RegisterReply(false)] == [RegisterReply(false)];
    assert w2.owner == Met(t).owner;
    assert w2 == Session(t, Serving(), [], {0}, {0}, win.(inbox := [RegisterReply(false)]));
    Reach(w2, WindowHandles(0));
    assert w2.wins[0].inbox[1..] == [];
    assert WinHandle(w2.wins[0], t) == win;
    assert Apply(w2, WindowHandles(0)).wins == map[0 := win];
  }

  // ---- what goes wrong ----------------------------------------------------------------------------

  /** The first frame shows a window after it has registered as hidden, and nobody tells the loader: with
      nothing under way, the row of a visible window says that it is hidden. */
  lemma FirstFrameGoesUntold()
    ensures exists w :: Reachable(w) && Quiet(w) && w.owner.Some? && 0 in w.wins
                        && w.wins[0].bridge.visible && RowOf(w.owner.value.core.rows, 0) == Some(("", false))
  {
    ReachMet(1);
    Reach(Met(1), WindowActs(0, FirstFrame));
    var w := Apply(Met(1), WindowActs(0, FirstFrame));
    assert w.wins[0].inbox == [] && w.wins[0].bridge.out == [] && w.owner == Met(1).owner;
  }

  /** So a click on the icon shows all windows although all of them are visible. */
  lemma ClickShowsVisibleWindow()
    ensures exists w :: Reachable(w) && Quiet(w) && w.owner.Some? && w.wins.Keys == {0} && w.wins[0].bridge.visible
                        && ToggleWindows(w.owner.value.core).out == [Call(0, Show)]
  {
    ReachMet(1);
    Reach(Met(1), WindowActs(0, FirstFrame));
    var w := Apply(Met(1), WindowActs(0, FirstFrame));
    assert w.wins[0].inbox == [] && w.wins[0].bridge.out == [] && w.owner == Met(1).owner;
    assert w.wins.Keys == {0};
    assert !Serving().rows[0].visible;
    ToggleCalls(Serving());
    assert CallAll(Serving().rows, Show) == [Call(0, Show)];
  }

  /** "Quit all", and then the time its timer allows without an answer of the window. */
  function QuitAndWait(w: World): World {
    Apply(Apply(w, LoaderEnv(Clicked(QUIT_ALL_ID))), Tick(5_000_000))
  }

  /** "Quit all" with a window that hangs: the timer it armed is due and fires, and the loop goes on with the
      icon up and no timer left. */
  lemma HangingWindowKeepsLoader()
    ensures exists w :: Reachable(w) && w.owner.Some? && QuitAndWait(w).owner.Some?
                        && TimerDue(QuitAndWait(w).owner.value, QuitAndWait(w).now)
                        && var p := Apply(QuitAndWait(w), LoaderTimer).owner;
                           p.Some? && !p.value.core.quitting && p.value.core.exitAt.None? && |p.value.core.rows| == 1
  {
    ReachMet(1);
    var w := Met(1);
    var w1 := Apply(w, LoaderEnv(Clicked(QUIT_ALL_ID)));
    assert w1.owner.value.core == OnQuitAll(Serving(), 1);
    assert QuitAndWait(w).owner == w1.owner;
    assert |Serving().rows| == 1;
  }

  function Hosting(): LoaderState { Serving().(watcherPresent := true, hostRegistered := true, trayAvailable := true) }

  lemma ReachTray(t: nat)
    requires t > 0
    ensures Reachable(Session(t, Hosting(), [], {0}, {0}, Win(Greeted(t).(trayAvailable := true), [], Some(0), false)))
  {
    ReachMet(t);
    Reach(Met(t), LoaderEnv(WatcherAppeared));
    var w1 := Apply(Met(t), LoaderEnv(WatcherAppeared));
    Reach(w1, LoaderEnv(HostReply(Some(true))));
    var w2 := Apply(w1, LoaderEnv(HostReply(Some(true))));
    var m, news := TrayAvailabilityChanged(true), AvailabilityChanged(true);
    assert [] + [m] == [m] && [] + [news] == [news] && [m][1..] == [] && [news][1..] == [];
    assert w2.owner.value.core == Hosting().(out := [m]);
    var win := Win(Greeted(t), [], Some(0), false);
    assert w2 == Session(t, Hosting().(out := [m]), [], {0}, {0}, win);
    Reach(w2, RouteFromLoader);
    var w3 := Apply(w2, RouteFromLoader);
    assert w3.wins == map[0 := win.(inbox := [news])];
    Reach(w3, WindowHandles(0));
    assert Apply(w3, WindowHandles(0)).wins == map[0 := Win(Greeted(t).(trayAvailable := true), [], Some(0), false)];
  }

  /** A window hides to the tray, and the loader dies within the back-off of this window's last attempt to
      start one: the window stays hidden, with no tray, nothing on its way to it, and no loader started. */
  lemma HiddenWindowIsLost()
    ensures exists w :: Reachable(w) && w.owner.None? && 0 in w.wins && Stranded(w.wins[0].bridge)
                        && w.wins[0].inbox == [] && w.wins[0].bridge.spawns == [1]
  {
    ReachTray(1);
    var win := Win(Greeted(1).(trayAvailable := true), [], Some(0), false);
    var w := Session(1, Hosting(), [], {0}, {0}, win);
    Reach(w, WindowActs(0, DoHide));
    var w1 := Apply(w, WindowActs(0, DoHide));
    Reach(w1, LoaderDies);
    var w2 := Apply(w1, LoaderDies);
    assert w1.wins[0].bridge == HideWindow(win.bridge) && w1.wins[0].inbox == [];
    assert w2.wins[0].inbox == [ToWindow.Vanished] && w2.wins[0].bridge == w1.wins[0].bridge;
    Reach(w2, WindowHandles(0));
    var w3 := Apply(w2, WindowHandles(0));
    assert w3.wins[0].inbox == [];
    assert OnLoaderVanished(w2.wins[0].bridge, 1).spawns == [1];
  }
}
