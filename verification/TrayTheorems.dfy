/** What the tray protocol guarantees over every run, and where it falls short of what its comments and
    the design record (decision D-110) promise. */
module TrayTheorems {
  import opened Common
  import opened TrayLoaderSpec
  import opened TrayBridgeSpec
  import opened TrayProtocol
  import opened TrayInvariant
  import opened TrayWindowSteps
  import Facts = TrayLoaderFacts

  // ---- availability -------------------------------------------------------------------------------

  /** Over every run, loader deaths and respawns included: a window is never led to believe in a tray the
      current loader does not have; once the loader has answered the window's `Register`, the last
      availability message on its way to the window (or the window's own flag if there is none) is the
      loader's availability; and with no loader it is false. */
  lemma AvailabilityAgrees(events: seq<Event>, x: Wid)
    requires x in Run(events).wins
    ensures var w := Run(events);
            var win := w.wins[x];
            match w.owner
            case None => !AvailAfter(win.inbox, win.bridge.trayAvailable)
            case Some(p) =>
              var last := AvailOut(x, p.core.out, AvailAfter(win.inbox, win.bridge.trayAvailable));
              && (last ==> p.core.trayAvailable)
              && (x in p.answered ==> last == p.core.trayAvailable)
  {
    RunKeepsInv(events);
  }

  /** Over every run: a window that has seen the current loader appear has registered with it; its
      `Register` is on the way if it has not been answered. */
  lemma KnownLoaderIsAsked(events: seq<Event>, x: Wid)
    requires x in Run(events).wins && Run(events).owner.Some?
    requires Run(events).wins[x].known == Some(Run(events).owner.value.gen)
    ensures var p := Run(events).owner.value;
            var win := Run(events).wins[x];
            x in p.answered || FromWindowRegister(x, p.inbox) || exists r :: r in win.bridge.out && r.Register?
  {
    RunKeepsInv(events);
    var p, win := Run(events).owner.value, Run(events).wins[x];
    RegisteredMeansSent(win.bridge.out, RegisteredFrom(x, p.inbox, x in p.answered));
    RegisteredFromMeansSent(x, p.inbox, x in p.answered);
  }

  ghost predicate FromWindowRegister(x: Wid, q: seq<ToLoader>) {
    exists m :: m in q && m.FromWindow? && m.from == x && m.req.Register?
  }

  lemma {:induction false} RegisteredMeansSent(q: seq<Request>, d: bool)
    ensures RegisteredAfter(q, d) ==> d || exists r :: r in q && r.Register?
  {
    if |q| > 0 {
      RegisteredMeansSent(q[..|q| - 1], d);
      assert q[|q| - 1] in q;
    }
  }

  lemma {:induction false} RegisteredFromMeansSent(x: Wid, q: seq<ToLoader>, d: bool)
    ensures RegisteredFrom(x, q, d) ==> d || FromWindowRegister(x, q)
  {
    if |q| > 0 {
      RegisteredFromMeansSent(x, q[..|q| - 1], d);
      assert q[|q| - 1] in q;
    }
  }

  // ---- rows ---------------------------------------------------------------------------------------

  /** Over every run: the loader holds at most one row per window, and for a window that has seen it
      appear, the last `Register` or `Update` in flight (or the row if none is) carries the window's
      workspace, and carries its visibility exactly when no first-frame show has gone untold. */
  lemma RowsAgree(events: seq<Event>, x: Wid)
    requires x in Run(events).wins && Run(events).owner.Some?
    requires Run(events).wins[x].known == Some(Run(events).owner.value.gen)
    ensures var p := Run(events).owner.value;
            var win := Run(events).wins[x];
            var last := StateAfter(win.bridge.out, StateFrom(x, p.inbox, RowOf(p.core.rows, x)));
            && UniqueSenders(p.core.rows)
            && last.Some?
            && last.value.0 == (match win.bridge.workspace case Some(text) => text case None => "")
            && (last.value.1 == win.bridge.visible <==> !win.silent)
  {
    RunKeepsInv(events);
  }

  /** Only the first-frame show goes untold. */
  lemma {:induction false} NothingElseIsSilent(events: seq<Event>, x: Wid)
    requires x in Run(events).wins
    requires forall i :: 0 <= i < |events| ==> events[i] != WindowActs(x, FirstFrame)
    ensures !Run(events).wins[x].silent
  {
    var n := |events| - 1;
    var w := Run(events[..n]);
    if x in w.wins { NothingElseIsSilent(events[..n], x); }
    StepStaysTold(w, events[n], x);
  }

  lemma StepStaysTold(w: World, e: Event, x: Wid)
    requires e != WindowActs(x, FirstFrame) && x in Apply(w, e).wins
    requires x in w.wins ==> !w.wins[x].silent
    ensures !Apply(w, e).wins[x].silent
  {}

  // ---- when everything has arrived ----------------------------------------------------------------

  ghost predicate Quiet(w: World) {
    && (w.owner.Some? ==> w.owner.value.inbox == [] && w.owner.value.core.out == [])
    && (forall x :: x in w.wins ==> w.wins[x].inbox == [] && w.wins[x].bridge.out == [])
  }

  /** Over every run: once no message is under way, every live window knows whether there is a loader;
      with one, its rows are exactly the live windows, each carrying its window's state, and every window
      has the loader's availability; with none, no window believes in a tray. */
  lemma QuietMeansAgreed(events: seq<Event>)
    requires Quiet(Run(events))
    ensures var w := Run(events);
            match w.owner
            case None => forall x :: x in w.wins ==> !w.wins[x].bridge.loaderPresent && !w.wins[x].bridge.trayAvailable
            case Some(p) =>
              && UniqueSenders(p.core.rows)
              && (forall i :: 0 <= i < |p.core.rows| ==> p.core.rows[i].sender in w.wins.Keys)
              && forall x :: x in w.wins ==>
                   var b := w.wins[x].bridge;
                   && b.loaderPresent
                   && b.trayAvailable == p.core.trayAvailable
                   && RowOf(p.core.rows, x) == Some((match b.workspace case Some(text) => text case None => "",
                                                     b.visible && !w.wins[x].silent))
  {
    RunKeepsInv(events);
    var w := Run(events);
    if w.owner.Some? {
      var p := w.owner.value;
      forall x | x in w.wins
        ensures w.wins[x].known == Some(p.gen) && x in p.answered
      {
        assert NameOk(w.owner, w.wins[x]) && AnswerOk(w.owner, x, w.wins[x]) && AgreeOk(w.owner, x, w.wins[x]);
      }
      forall x | x in w.wins ensures w.wins[x].bridge.trayAvailable == p.core.trayAvailable {
        assert AvailOk(w.owner, x, w.wins[x]);
      }
    } else {
      forall x | x in w.wins ensures !w.wins[x].bridge.loaderPresent && !w.wins[x].bridge.trayAvailable {
        assert NameOk(w.owner, w.wins[x]) && AvailOk(w.owner, x, w.wins[x]);
      }
    }
  }

  // ---- what a click on the tray reaches -----------------------------------------------------------

  /** `calls` holds one call of `wm` to each of `live`, and nothing else. */
  ghost predicate OneEach(calls: seq<FromLoader>, wm: WindowMethod, live: set<Wid>) {
    && (forall i :: 0 <= i < |calls| ==> calls[i].Call? && calls[i].wm == wm && calls[i].to in live)
    && (forall i, j :: 0 <= i < j < |calls| ==> calls[i] != calls[j])
    && (forall x :: x in live ==> Call(x, wm) in calls)
  }

  /** Over every run: once no message is under way, "show all", "hide all" and "quit all" call every live
      window exactly once, and nobody else. */
  lemma MenuReachesEveryWindow(events: seq<Event>, wm: WindowMethod)
    requires Quiet(Run(events)) && Run(events).owner.Some?
    ensures var w := Run(events);
            var id := match wm case Show => 1000 case Hide => 1001 case Quit => 1002;
            OneEach(MenuClicked(w.owner.value.core, w.now, id).out, wm, w.wins.Keys)
  {
    QuietMeansAgreed(events);
    var w := Run(events);
    CallsAreOneEach(w.owner.value.core.rows, wm, w.wins.Keys);
    MenuCalls(w.owner.value.core, w.now, wm);
  }

  lemma MenuCalls(s: LoaderState, now: nat, wm: WindowMethod)
    requires s.out == []
    ensures var id := match wm case Show => 1000 case Hide => 1001 case Quit => 1002;
            MenuClicked(s, now, id).out == CallAll(s.rows, wm)
  {
    assert [] + CallAll(s.rows, wm) == CallAll(s.rows, wm);
  }

  lemma CallsAreOneEach(rows: seq<Row>, wm: WindowMethod, live: set<Wid>)
    requires UniqueSenders(rows)
    requires forall i :: 0 <= i < |rows| ==> rows[i].sender in live
    requires forall x :: x in live ==> RowOf(rows, x).Some?
    ensures OneEach(CallAll(rows, wm), wm, live)
  {
    var calls := CallAll(rows, wm);
    forall x | x in live ensures Call(x, wm) in calls {
      assert RowOf(rows, x).Some?;
      assert calls[SenderIndex(rows, x)] == Call(x, wm);
    }
  }

  /** There are windows, all of them are visible, and none was last shown by its first frame without anyone
      telling the loader. */
  ghost predicate AllShown(wins: map<Wid, Win>) {
    wins != map[] && forall x :: x in wins ==> wins[x].bridge.visible && !wins[x].silent
  }

  /** Over every run: once no message is under way, a click on the icon hides all windows exactly when there
      are some, all of them are visible, and none of them was last shown by its first frame without anyone
      telling the loader; else it shows all. */
  lemma ToggleFollowsWindows(events: seq<Event>)
    requires Quiet(Run(events)) && Run(events).owner.Some?
    ensures var w := Run(events);
            OneEach(ToggleWindows(w.owner.value.core).out, if AllShown(w.wins) then Hide else Show, w.wins.Keys)
  {
    QuietMeansAgreed(events);
    var w := Run(events);
    var shown := map x | x in w.wins :: w.wins[x].bridge.visible && !w.wins[x].silent;
    assert shown.Keys == w.wins.Keys;
    assert w.wins != map[] <==> shown.Keys != {};
    ToggleOnRows(w.owner.value.core, shown);
  }

  lemma ToggleOnRows(s: LoaderState, shown: map<Wid, bool>)
    requires UniqueSenders(s.rows) && s.out == []
    requires forall i :: 0 <= i < |s.rows| ==> s.rows[i].sender in shown.Keys
    requires forall x :: x in shown ==> RowOf(s.rows, x).Some? && RowOf(s.rows, x).value.1 == shown[x]
    ensures OneEach(ToggleWindows(s).out, if shown.Keys != {} && forall x :: x in shown ==> shown[x] then Hide else Show,
                    shown.Keys)
  {
    HiddenRowIff(s.rows, shown);
    ToggleCalls(s);
    CallsAreOneEach(s.rows, if AnyHidden(s.rows) || |s.rows| == 0 then Show else Hide, shown.Keys);
  }

  lemma ToggleCalls(s: LoaderState)
    requires s.out == []
    ensures ToggleWindows(s).out == CallAll(s.rows, if AnyHidden(s.rows) || |s.rows| == 0 then Show else Hide)
  {
    assert [] + CallAll(s.rows, Hide) == CallAll(s.rows, Hide);
    assert [] + CallAll(s.rows, Show) == CallAll(s.rows, Show);
  }

  lemma HiddenRowIff(rows: seq<Row>, shown: map<Wid, bool>)
    requires UniqueSenders(rows)
    requires forall i :: 0 <= i < |rows| ==> rows[i].sender in shown.Keys
    requires forall x :: x in shown ==> RowOf(rows, x).Some? && RowOf(rows, x).value.1 == shown[x]
    ensures |rows| == 0 <==> shown.Keys == {}
    ensures AnyHidden(rows) <==> exists x :: x in shown && !shown[x]
  {
    forall i | 0 <= i < |rows| ensures rows[i].visible == shown[rows[i].sender] { OwnRow(rows, i); }
    SomeRow(rows, shown.Keys);
    forall x | x in shown ensures rows[SenderIndex(rows, x)].visible == shown[x] {
      assert RowOf(rows, x).Some?;
    }
  }

  lemma OwnRow(rows: seq<Row>, i: nat)
    requires UniqueSenders(rows) && i < |rows|
    ensures RowOf(rows, rows[i].sender) == Some((rows[i].workspace, rows[i].visible))
  {
    assert SenderIndex(rows, rows[i].sender) <= i;
  }

  lemma SomeRow(rows: seq<Row>, live: set<Wid>)
    requires forall i :: 0 <= i < |rows| ==> rows[i].sender in live
    requires forall x :: x in live ==> RowOf(rows, x).Some?
    ensures |rows| == 0 <==> live == {}
  {
    if |rows| > 0 { assert rows[0].sender in live; }
  }

  // ---- the loader's end ---------------------------------------------------------------------------

  /** Over every run: "the loader exits when its last window does". Once every window is gone and the
      loader has handled everything, its list is empty and its exit timer is armed, due within the startup
      time, unless its loop is ending already. */
  lemma LastWindowEndsLoader(events: seq<Event>)
    requires Run(events).owner.Some? && Run(events).wins == map[] && Quiet(Run(events))
    ensures var w := Run(events);
            var s := w.owner.value.core;
            && s.rows == []
            && (s.quitting || (s.exitAt.Some? && s.exitAt.value <= w.now + 20_000_000))
  {
    QuietMeansAgreed(events);
    RunKeepsInv(events);
    var s := Run(events).owner.value.core;
    AllIn(s.rows, {});
  }

  lemma AllIn(rows: seq<Row>, live: set<Wid>)
    ensures (forall i :: 0 <= i < |rows| ==> rows[i].sender in live) && live == {} ==> rows == []
  {
    if |rows| > 0 && rows[0].sender !in live {}
  }

  /** Over every run: the timer ends the loop only on an empty list, and no sooner than the idle time
      after the list became empty, so a window that restarts within it is not turned away. */
  lemma TimerLeavesTimeToRestart(events: seq<Event>)
    requires var w := Run(events); w.owner.Some? && TimerDue(w.owner.value, w.now)
    ensures var w := Run(events);
            var p := w.owner.value;
            var p' := Apply(w, LoaderTimer).owner.value;
            && (p'.core.quitting <==> p.core.quitting || p.core.rows == [])
            && (p'.core.quitting && !p.core.quitting ==>
                  p.emptySince + 3_000_000 <= w.now)
  {
    RunKeepsInv(events);
  }

  // ---- respawning ---------------------------------------------------------------------------------

  ghost predicate Paced(b: BridgeState, now: nat) {
    && b.lastSpawn == (if |b.spawns| == 0 then 0 else b.spawns[|b.spawns| - 1])
    && b.lastSpawn <= now
    && forall i :: 0 <= i < |b.spawns| - 1 && b.spawns[i] != 0 ==> b.spawns[i] + RESPAWN_BACKOFF <= b.spawns[i + 1]
  }

  /** The spawn record of `b'` is that of `b`, or that plus a spawn now that the back-off allows. */
  ghost predicate SpawnStep(b: BridgeState, b': BridgeState, now: nat) {
    || (b'.spawns == b.spawns && b'.lastSpawn == b.lastSpawn)
    || (b'.spawns == b.spawns + [now] && b'.lastSpawn == now
        && (b.lastSpawn == 0 || now - b.lastSpawn >= RESPAWN_BACKOFF))
  }

  lemma SpawnStepKeepsPace(b: BridgeState, b': BridgeState, now: nat, now': nat)
    requires Paced(b, now) && SpawnStep(b, b', now) && now <= now'
    ensures Paced(b', now')
  {
    if b'.spawns != b.spawns {
      forall i | 0 <= i < |b'.spawns| - 1 && b'.spawns[i] != 0
        ensures b'.spawns[i] + RESPAWN_BACKOFF <= b'.spawns[i + 1]
      {
        assert b'.spawns[i] == b.spawns[i];
      }
    }
  }

  lemma MessageSpawns(b: BridgeState, now: nat, m: ToWindow)
    ensures SpawnStep(b, OnMessage(b, now, m), now)
  {
    match m {
      case Appeared(_) =>
      case Vanished =>
      case RegisterReply(_) =>
      case AvailabilityChanged(_) =>
      case Method(wm) => OpSpawnsNothing(b, match wm case Show => DoShow case Hide => DoHide case Quit => DoQuit);
    }
  }

  lemma OpSpawnsNothing(b: BridgeState, op: WindowOp)
    ensures OnOp(b, op).spawns == b.spawns && OnOp(b, op).lastSpawn == b.lastSpawn
  {
    match op {
      case DoShow =>
      case DoHide =>
      case DoQuit =>
      case DoQuitAll =>
      case DoPulse =>
      case DoClose =>
      case FirstFrame =>
      case DoSetWorkspace(_) =>
      case DoSetLabels(_) =>
      case DoSetCloseToTray(_) =>
    }
  }

  lemma WinSpawns(w: World, e: Event, x: Wid)
    requires x in w.wins && x < w.nextWid && x in Apply(w, e).wins
    ensures SpawnStep(w.wins[x].bridge, Apply(w, e).wins[x].bridge, w.now)
  {
    var b := w.wins[x].bridge;
    if e == WindowHandles(x) {
      if |w.wins[x].inbox| > 0 { MessageSpawns(b, w.now, w.wins[x].inbox[0]); }
    } else if e.WindowActs? && e.x == x {
      OpSpawnsNothing(b, e.op);
    } else if e.RouteFromLoader? {
      if w.owner.Some? && |w.owner.value.core.out| > 0 { assert TakeFromLoader(w).wins[x].bridge == b; }
    } else {
      OthersKeepBridge(w, e, x);
    }
  }

  /** Whatever is done elsewhere, a window's bridge only has its calls taken. */
  lemma OthersKeepBridge(w: World, e: Event, x: Wid)
    requires x in w.wins && x < w.nextWid && x in Apply(w, e).wins
    requires !(e.WindowHandles? && e.x == x) && !(e.WindowActs? && e.x == x) && !e.RouteFromLoader?
    ensures var b, b' := w.wins[x].bridge, Apply(w, e).wins[x].bridge; b' == b.(out := b'.out)
  {
    if e.WindowStarts? || e.WindowDies? || e.WindowHandles? || e.WindowActs? || e.RouteFromWindow? {
      WindowSideKeepsBridge(w, e, x);
    } else {
      LoaderSideBridge(w, e, x);
    }
  }

  lemma LoaderSideBridge(w: World, e: Event, x: Wid)
    requires x in w.wins && x in Apply(w, e).wins
    requires e.Tick? || e.LoaderStarts? || e.LoaderDies? || e.LoaderHandles? || e.LoaderEnv? || e.LoaderTimer?
    ensures Apply(w, e).wins[x].bridge == w.wins[x].bridge
  {
    match e {
      case LoaderStarts => assert StartLoader(w).wins[x].bridge == w.wins[x].bridge;
      case LoaderDies => assert KillLoader(w).wins[x].bridge == w.wins[x].bridge;
      case _ =>
    }
  }

  lemma WindowSideKeepsBridge(w: World, e: Event, x: Wid)
    requires x in w.wins && x < w.nextWid && x in Apply(w, e).wins
    requires e.WindowStarts? || e.WindowDies? || (e.WindowHandles? && e.x != x) || (e.WindowActs? && e.x != x) || e.RouteFromWindow?
    ensures var b, b' := w.wins[x].bridge, Apply(w, e).wins[x].bridge; b' == b.(out := b'.out)
  {
    match e {
      case WindowStarts => assert StartWindow(w).wins[x] == w.wins[x];
      case WindowDies(y) => assert KillWindow(w, y).wins[x] == w.wins[x];
      case WindowHandles(y) => assert Apply(w, e).wins[x] == w.wins[x];
      case WindowActs(y, _) => assert Apply(w, e).wins[x] == w.wins[x];
      case RouteFromWindow(y) => if y in w.wins && |w.wins[y].bridge.out| > 0 { TakenKeepsBridge(w, y, x); }
    }
  }

  lemma TakenKeepsBridge(w: World, y: Wid, x: Wid)
    requires x in w.wins && y in w.wins && |w.wins[y].bridge.out| > 0
    ensures x in TakeFromWindow(w, y).wins
    ensures var b, b' := w.wins[x].bridge, TakeFromWindow(w, y).wins[x].bridge; b' == b.(out := b'.out)
  {}

  /** Over every run: a window starts loaders at least the back-off apart, however often the name
      vanishes. (A start at clock time 0 would read as "never".) */
  lemma {:induction false} SpawnsArePaced(events: seq<Event>, x: Wid)
    requires x in Run(events).wins
    ensures var spawns := Run(events).wins[x].bridge.spawns;
            forall i :: 0 <= i < |spawns| - 1 && spawns[i] != 0 ==> spawns[i] + 5_000_000 <= spawns[i + 1]
  {
    EveryonePaced(events);
  }

  lemma {:induction false} EveryonePaced(events: seq<Event>)
    ensures forall x :: x in Run(events).wins ==> Paced(Run(events).wins[x].bridge, Run(events).now)
  {
    if |events| > 0 {
      EveryonePaced(events[..|events| - 1]);
      RunKeepsInv(events[..|events| - 1]);
      StepKeepsPace(Run(events[..|events| - 1]), events[|events| - 1]);
    }
  }

  lemma StepKeepsPace(w: World, e: Event)
    requires Inv(w) && forall x :: x in w.wins ==> Paced(w.wins[x].bridge, w.now)
    ensures forall x :: x in Apply(w, e).wins ==> Paced(Apply(w, e).wins[x].bridge, Apply(w, e).now)
  {
    TimePasses(w, e);
    forall x | x in Apply(w, e).wins ensures Paced(Apply(w, e).wins[x].bridge, Apply(w, e).now) {
      if x in w.wins {
        WinSpawns(w, e, x);
        SpawnStepKeepsPace(w.wins[x].bridge, Apply(w, e).wins[x].bridge, w.now, Apply(w, e).now);
      } else {
        NewWindow(w, e, x);
      }
    }
  }

  lemma TimePasses(w: World, e: Event)
    ensures w.now <= Apply(w, e).now
  {}

  lemma NewWindow(w: World, e: Event, x: Wid)
    requires x !in w.wins && x in Apply(w, e).wins
    ensures Apply(w, e).wins[x].bridge == Attached()
  {}
}
