/** Windows hidden behind a tray that is gone: exactly when that happens, when nobody starts a loader for
    them, and that they then stay lost. */
module TrayHidden {
  import opened Common
  import opened TrayLoaderSpec
  import opened TrayBridgeSpec
  import opened TrayProtocol
  import opened TrayInvariant
  import opened TrayWindowSteps
  import opened TrayTheorems

  /** Hidden with nothing to bring it back. */
  predicate Stranded(b: BridgeState) { !b.visible && !b.trayAvailable }

  /** The loader is gone, or says that there is no tray. */
  predicate BadNews(m: ToWindow) {
    m.Vanished? || m == RegisterReply(false) || m == AvailabilityChanged(false)
  }

  lemma MessageStrandsIff(b: BridgeState, now: nat, m: ToWindow)
    requires !Stranded(b)
    ensures Stranded(OnMessage(b, now, m)) <==> !b.visible && BadNews(m)
  {
    MessageEffect(b, now, m);
    if m.Method? { ActsNeverStrand(b, match m.wm case Show => DoShow case Hide => DoHide case Quit => DoQuit); }
  }

  /** No act of the user or of Dart, and no call from the loader, strands a window. */
  lemma ActsNeverStrand(b: BridgeState, op: WindowOp)
    requires !Stranded(b)
    ensures !Stranded(OnOp(b, op))
  {
    OpEffect(b, op);
  }

  lemma RunStep(events: seq<Event>, e: Event)
    ensures Run(events + [e]) == Apply(Run(events), e)
  {
    assert (events + [e])[..|events|] == events;
  }

  // ---- when a window is stranded ------------------------------------------------------------------

  /** Whatever happens after whatever run, a live window that is not stranded becomes so exactly when it is
      hidden behind a tray and handles the news that the tray is gone: nothing shows it again, whatever
      decision D-110 says about windows never becoming unreachable. */
  lemma StrandedIff(events: seq<Event>, e: Event, x: Wid)
    requires x in Run(events).wins && x in Run(events + [e]).wins
    requires !Stranded(Run(events).wins[x].bridge)
    ensures var win := Run(events).wins[x];
            Stranded(Run(events + [e]).wins[x].bridge)
            <==> e == WindowHandles(x) && |win.inbox| > 0 && BadNews(win.inbox[0]) && !win.bridge.visible
  {
    RunStep(events, e);
    RunKeepsInv(events);
    StepStrandsIff(Run(events), e, x);
  }

  lemma StepStrandsIff(w: World, e: Event, x: Wid)
    requires x in w.wins && x < w.nextWid && x in Apply(w, e).wins && !Stranded(w.wins[x].bridge)
    ensures var win := w.wins[x];
            Stranded(Apply(w, e).wins[x].bridge)
            <==> e == WindowHandles(x) && |win.inbox| > 0 && BadNews(win.inbox[0]) && !win.bridge.visible
  {
    if e == WindowHandles(x) {
      if |w.wins[x].inbox| > 0 { MessageStrandsIff(w.wins[x].bridge, w.now, w.wins[x].inbox[0]); }
    } else {
      StepKeepsRest(w, e, x);
      if e.WindowActs? && e.x == x { ActsNeverStrand(w.wins[x].bridge, e.op); }
    }
  }

  /** A window that neither handles a message nor acts only has its calls taken. */
  lemma StepKeepsRest(w: World, e: Event, x: Wid)
    requires x in w.wins && x < w.nextWid && x in Apply(w, e).wins && e != WindowHandles(x)
    ensures var b, b' := w.wins[x].bridge, Apply(w, e).wins[x].bridge;
            if e.WindowActs? && e.x == x then b' == OnOp(b, e.op) else b' == b.(out := b'.out)
  {
    if e.WindowActs? && e.x == x {
    } else if e.RouteFromLoader? {
      if w.owner.Some? && |w.owner.value.core.out| > 0 { assert TakeFromLoader(w).wins[x].bridge == w.wins[x].bridge; }
    } else {
      OthersKeepBridge(w, e, x);
    }
  }

  /** Over every run: once no message is under way, a live window has no tray exactly when there is no loader
      or the loader has none. */
  lemma QuietTrayIff(events: seq<Event>, x: Wid)
    requires Quiet(Run(events)) && x in Run(events).wins
    ensures var w := Run(events);
            Stranded(w.wins[x].bridge)
            <==> !w.wins[x].bridge.visible && (w.owner.None? || !w.owner.value.core.trayAvailable)
  {
    QuietMeansAgreed(events);
  }

  // ---- when nobody starts a loader ----------------------------------------------------------------

  /** The window is quitting, or its last attempt to start a loader was less than five seconds ago. */
  predicate HeldBack(b: BridgeState, now: nat) {
    || b.quitting
    || (|b.spawns| > 0 && b.spawns[|b.spawns| - 1] != 0 && now < b.spawns[|b.spawns| - 1] + 5_000_000)
  }

  /** After every run: a live window that handles the loss of the loader has no loader and no tray, and starts
      a loader unless it is held back; so it ends hidden with no tray, no loader and none started exactly when
      it was hidden and is held back. */
  lemma LosesLoaderIff(events: seq<Event>, x: Wid)
    requires x in Run(events).wins && |Run(events).wins[x].inbox| > 0 && Run(events).wins[x].inbox[0].Vanished?
    ensures var w := Run(events);
            var b, b' := w.wins[x].bridge, Run(events + [WindowHandles(x)]).wins[x].bridge;
            && b'.visible == b.visible && !b'.loaderPresent && !b'.trayAvailable
            && b'.spawns == (if HeldBack(b, w.now) then b.spawns else b.spawns + [w.now])
            && (Stranded(b') && b'.spawns == b.spawns <==> !b.visible && HeldBack(b, w.now))
  {
    RunStep(events, WindowHandles(x));
    EveryonePaced(events);
    VanishedSpawns(Run(events).wins[x].bridge, Run(events).now);
  }

  lemma VanishedSpawns(b: BridgeState, now: nat)
    requires Paced(b, now)
    ensures var b' := OnLoaderVanished(b, now);
            b'.visible == b.visible && !b'.trayAvailable && !b'.loaderPresent
            && b'.spawns == (if HeldBack(b, now) then b.spawns else b.spawns + [now])
            && (b'.spawns == b.spawns <==> HeldBack(b, now))
  {
    assert b.spawns + [now] != b.spawns;
  }

  // ---- and then it stays lost ---------------------------------------------------------------------

  /** No loader, nothing on its way to the window, and the window stranded. */
  ghost predicate Lost(w: World, x: Wid) {
    w.owner.None? && x in w.wins && w.wins[x].inbox == [] && Stranded(w.wins[x].bridge)
  }

  /** A loader started from anywhere, or the window shown from its own side. */
  predicate Rescues(e: Event, x: Wid) {
    e == LoaderStarts || (e.WindowActs? && e.x == x && (e.op == DoShow || e.op == FirstFrame))
  }

  /** After every run: a lost window stays lost, and starts no loader itself, until somebody else starts one
      or its own side shows it. */
  lemma {:induction false} StaysLost(events: seq<Event>, more: seq<Event>, x: Wid)
    requires Lost(Run(events), x)
    requires forall i :: 0 <= i < |more| ==> !Rescues(more[i], x)
    requires x in Run(events + more).wins
    ensures Lost(Run(events + more), x) && Run(events + more).wins[x].bridge.spawns == Run(events).wins[x].bridge.spawns
  {
    if |more| == 0 {
      AppendNothing(events);
    } else {
      var n := |more| - 1;
      AppendAssoc(events, more[..n], [more[n]]);
      LastApart(more);
      RunStep(events + more[..n], more[n]);
      var w := Run(events + more[..n]);
      RunKeepsInv(events);
      StillKnown(events, more[..n], more[n], x);
      StaysLost(events, more[..n], x);
      RunKeepsInv(events + more[..n]);
      StepKeepsLost(w, more[n], x);
    }
  }

  /** A name once taken and given up is never given out again. */
  lemma {:induction false} StillKnown(events: seq<Event>, more: seq<Event>, e: Event, x: Wid)
    requires x in Run(events).wins && x in Apply(Run(events + more), e).wins
    ensures x in Run(events + more).wins
  {
    RunKeepsInv(events);
    NamesGrow(events, more);
    NoOldName(Run(events + more), e, x);
  }

  lemma {:induction false} NamesGrow(events: seq<Event>, more: seq<Event>)
    ensures Run(events).nextWid <= Run(events + more).nextWid
  {
    if |more| == 0 {
      AppendNothing(events);
    } else {
      var n := |more| - 1;
      NamesGrow(events, more[..n]);
      AppendAssoc(events, more[..n], [more[n]]);
      LastApart(more);
      RunStep(events + more[..n], more[n]);
      NamesStep(Run(events + more[..n]), more[n]);
    }
  }

  lemma NamesStep(w: World, e: Event)
    ensures w.nextWid <= Apply(w, e).nextWid
  {}

  lemma NoOldName(w: World, e: Event, x: Wid)
    requires x < w.nextWid && x in Apply(w, e).wins
    ensures x in w.wins
  {}

  lemma StepKeepsLost(w: World, e: Event, x: Wid)
    requires Lost(w, x) && x < w.nextWid && !Rescues(e, x) && x in Apply(w, e).wins
    ensures Lost(Apply(w, e), x) && Apply(w, e).wins[x].bridge.spawns == w.wins[x].bridge.spawns
  {
    NoLoaderStep(w, e, x);
    if e != WindowHandles(x) {
      StepKeepsRest(w, e, x);
      if e.WindowActs? && e.x == x {
        ActKeepsStranded(w.wins[x].bridge, e.op);
        OpSpawnsNothing(w.wins[x].bridge, e.op);
      }
    }
  }

  lemma NoLoaderStep(w: World, e: Event, x: Wid)
    requires w.owner.None? && e != LoaderStarts && x in w.wins && w.wins[x].inbox == [] && x < w.nextWid
    requires x in Apply(w, e).wins
    ensures Apply(w, e).owner.None? && Apply(w, e).wins[x].inbox == []
    ensures e == WindowHandles(x) ==> Apply(w, e) == w
  {
    match e {
      case WindowStarts => assert StartWindow(w).wins[x] == w.wins[x];
      case WindowDies(y) => assert KillWindow(w, y).wins[x] == w.wins[x];
      case _ =>
    }
  }

  lemma ActKeepsStranded(b: BridgeState, op: WindowOp)
    requires Stranded(b) && op != DoShow && op != FirstFrame
    ensures Stranded(OnOp(b, op))
  {
    match op {
      case DoHide =>
      case DoQuit =>
      case DoQuitAll =>
      case DoPulse =>
      case DoClose =>
      case DoSetWorkspace(_) =>
      case DoSetLabels(_) =>
      case DoSetCloseToTray(_) =>
    }
  }
}
