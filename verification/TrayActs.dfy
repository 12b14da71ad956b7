/** What a window does when it is called, and when its user or Dart acts on it, read off its state before and
    after: over every run, and without the functions of the model that compute it. */
module TrayActs {
  import opened Common
  import opened TrayLoaderSpec
  import opened TrayBridgeSpec
  import opened TrayProtocol
  import opened TrayInvariant
  import opened TrayWindowSteps
  import opened TrayTheorems
  import opened TrayHidden

  /** What a window tells of itself: its workspace, a missing one as the empty string, and its visibility. */
  function OwnState(b: BridgeState): Request {
    Update(match b.workspace case Some(text) => text case None => "", b.visible)
  }

  // ---- calls --------------------------------------------------------------------------------------

  /** What handling the call `wm` makes of a window: `Show` shows it, `Hide` hides it if a tray can bring it
      back, `Quit` ends it; a window that showed or hid itself tells a loader that is there, and nothing else
      changes. */
  ghost predicate Obeys(b: BridgeState, b': BridgeState, wm: WindowMethod) {
    && b'.visible == (wm == Show || (b.visible && !(wm == Hide && b.trayAvailable)))
    && b'.quitting == (b.quitting || wm == Quit)
    && b'.out == b.out + (if b.loaderPresent && (wm == Show || (wm == Hide && b.trayAvailable)) then [OwnState(b')] else [])
    && b' == b.(visible := b'.visible, quitting := b'.quitting, out := b'.out)
  }

  /** Over every run: a live window that handles a call of the loader obeys it. */
  lemma CallIsObeyed(events: seq<Event>, x: Wid)
    requires x in Run(events).wins && |Run(events).wins[x].inbox| > 0 && Run(events).wins[x].inbox[0].Method?
    ensures x in Run(events + [WindowHandles(x)]).wins
    ensures Obeys(Run(events).wins[x].bridge, Run(events + [WindowHandles(x)]).wins[x].bridge,
                  Run(events).wins[x].inbox[0].wm)
  {
    RunStep(events, WindowHandles(x));
    MethodObeyed(Run(events).wins[x].bridge, Run(events).now, Run(events).wins[x].inbox[0].wm);
  }

  lemma MethodObeyed(b: BridgeState, now: nat, wm: WindowMethod)
    ensures Obeys(b, OnMessage(b, now, Method(wm)), wm)
  {
    AppendNothing(b.out);
  }

  /** Over every run: a live window that hears of a loader registers with it and sends it its labels if it has
      any; one that hears of an availability believes it; nothing else changes. */
  lemma NewsIsTaken(events: seq<Event>, x: Wid)
    requires x in Run(events).wins && |Run(events).wins[x].inbox| > 0
    requires !Run(events).wins[x].inbox[0].Method? && !Run(events).wins[x].inbox[0].Vanished?
    ensures x in Run(events + [WindowHandles(x)]).wins
    ensures var b, b' := Run(events).wins[x].bridge, Run(events + [WindowHandles(x)]).wins[x].bridge;
            match Run(events).wins[x].inbox[0]
            case Appeared(_) =>
              b' == b.(loaderPresent := true,
                       out := b.out + [Register(OwnState(b).workspace, b.visible)]
                              + (if b.labels == map[] then [] else [SetLabels(b.labels)]))
            case RegisterReply(available) => b' == b.(trayAvailable := available)
            case AvailabilityChanged(available) => b' == b.(trayAvailable := available)
            case _ => false
  {
    RunStep(events, WindowHandles(x));
    var b := Run(events).wins[x].bridge;
    AppendNothing(b.out + [Register(OwnState(b).workspace, b.visible)]);
    assert |b.labels| == 0 <==> b.labels == map[];
  }

  // ---- acts ---------------------------------------------------------------------------------------

  /** Whether the act hides the window: only with a tray, and a close only if the user asked for that and the
      process is not ending. */
  predicate Hides(b: BridgeState, op: WindowOp) {
    b.trayAvailable && (op.DoHide? || (op.DoClose? && b.closeToTray && !b.quitting))
  }

  /** What a loader that is there is told. */
  function Tells(b: BridgeState, b': BridgeState, op: WindowOp): seq<Request> {
    if !b.loaderPresent then []
    else if op.DoShow? || op.DoSetWorkspace? || Hides(b, op) then [OwnState(b')]
    else if op.DoQuitAll? then [QuitAll]
    else if op.DoPulse? then [Pulse]
    else if op.DoSetLabels? && b'.labels != map[] then [SetLabels(b'.labels)]
    else []
  }

  ghost predicate ActsOnItself(b: BridgeState, b': BridgeState, op: WindowOp) {
    && b'.visible == (op.DoShow? || op.FirstFrame? || (b.visible && !Hides(b, op)))
    && b'.quitting == (b.quitting || op.DoQuit? || (op.DoQuitAll? && !b.loaderPresent))
    && b'.closeToTray == (if op.DoSetCloseToTray? then op.on else b.closeToTray)
    && b'.workspace == (if op.DoSetWorkspace? then op.workspace else b.workspace)
  }

  /** The labels an act sets replace those of the same key. */
  ghost predicate SetsLabels(b: BridgeState, b': BridgeState, op: WindowOp) {
    && (forall key :: key in b'.labels <==> key in b.labels || (op.DoSetLabels? && key in op.labels))
    && (forall key :: key in b'.labels ==>
          b'.labels[key] == if op.DoSetLabels? && key in op.labels then op.labels[key] else b.labels[key])
  }

  ghost predicate Acts(b: BridgeState, b': BridgeState, op: WindowOp) {
    && ActsOnItself(b, b', op) && SetsLabels(b, b', op)
    && b'.out == b.out + Tells(b, b', op)
    && b' == b.(visible := b'.visible, quitting := b'.quitting, closeToTray := b'.closeToTray,
                workspace := b'.workspace, labels := b'.labels, out := b'.out)
  }

  /** Over every run: what an act of the user or of Dart makes of a live window. */
  lemma ActIsDone(events: seq<Event>, x: Wid, op: WindowOp)
    requires x in Run(events).wins
    ensures x in Run(events + [WindowActs(x, op)]).wins
    ensures Acts(Run(events).wins[x].bridge, Run(events + [WindowActs(x, op)]).wins[x].bridge, op)
  {
    RunStep(events, WindowActs(x, op));
    OpActs(Run(events).wins[x].bridge, op);
  }

  lemma OpActs(b: BridgeState, op: WindowOp)
    ensures Acts(b, OnOp(b, op), op)
  {
    OpActsOnItself(b, op);
    OpSetsLabels(b, op);
    OpTells(b, op);
    OpKeepsRest(b, op);
  }

  lemma OpActsOnItself(b: BridgeState, op: WindowOp)
    ensures ActsOnItself(b, OnOp(b, op), op)
  {
    match op {
      case DoShow =>
      case DoHide =>
      case DoQuit =>
      case DoQuitAll =>
      case DoPulse =>
      case DoClose =>
      case FirstFrame =>
      case DoSetWorkspace(_) =>
      case DoSetLabels(_) =>
      case DoSetCloseToTray(_) =>
    }
  }

  lemma OpSetsLabels(b: BridgeState, op: WindowOp)
    ensures SetsLabels(b, OnOp(b, op), op)
  {
    if op.DoSetLabels? {
      assert OnOp(b, op).labels == b.labels + op.labels;
    } else {
      OpKeepsLabels(b, op);
    }
  }

  lemma OpKeepsLabels(b: BridgeState, op: WindowOp)
    ensures !op.DoSetLabels? ==> OnOp(b, op).labels == b.labels
  {
    match op {
      case DoShow =>
      case DoHide =>
      case DoClose =>
      case DoQuitAll =>
      case DoPulse =>
      case DoSetWorkspace(_) =>
      case _ =>
    }
  }

  lemma OpTells(b: BridgeState, op: WindowOp)
    ensures OnOp(b, op).out == b.out + Tells(b, OnOp(b, op), op)
  {
    if op.DoShow? || op.DoHide? || op.DoClose? || op.DoSetWorkspace? {
      StateTold(b, op);
    } else if op.DoSetLabels? {
      LabelsTold(b.(labels := b.labels + op.labels));
    } else {
      CallTold(b, op);
    }
  }

  lemma StateTold(b: BridgeState, op: WindowOp)
    requires op.DoShow? || op.DoHide? || op.DoClose? || op.DoSetWorkspace?
    ensures OnOp(b, op).out == b.out + Tells(b, OnOp(b, op), op)
  {
    AppendNothing(b.out);
    match op {
      case DoShow =>
      case DoHide =>
      case DoClose =>
      case DoSetWorkspace(_) =>
    }
  }

  lemma CallTold(b: BridgeState, op: WindowOp)
    requires op.DoQuit? || op.DoQuitAll? || op.DoPulse? || op.FirstFrame? || op.DoSetCloseToTray?
    ensures OnOp(b, op).out == b.out + Tells(b, OnOp(b, op), op)
  {
    AppendNothing(b.out);
  }

  lemma LabelsTold(b: BridgeState)
    ensures SendLabels(b).out == b.out + (if b.loaderPresent && b.labels != map[] then [SetLabels(b.labels)] else [])
  {
    AppendNothing(b.out);
    assert |b.labels| == 0 <==> b.labels == map[];
  }

  lemma OpKeepsRest(b: BridgeState, op: WindowOp)
    ensures var b' := OnOp(b, op);
            b' == b.(visible := b'.visible, quitting := b'.quitting, closeToTray := b'.closeToTray,
                     workspace := b'.workspace, labels := b'.labels, out := b'.out)
  {
    match op {
      case DoShow =>
      case DoHide =>
      case DoClose =>
      case DoQuitAll =>
      case DoPulse =>
      case DoSetWorkspace(_) =>
      case _ =>
    }
  }

  /** Over every run: a window that has just started is hidden, knows of no loader, no tray, no workspace and
      no label, lets a close end it, and has started no loader. */
  lemma NewWindowIsBlank(events: seq<Event>, e: Event, x: Wid)
    requires x !in Run(events).wins && x in Run(events + [e]).wins
    ensures var b := Run(events + [e]).wins[x].bridge;
            && !b.visible && !b.quitting && !b.closeToTray && !b.loaderPresent && !b.trayAvailable
            && b.workspace == None && b.labels == map[] && b.out == [] && b.spawns == []
  {
    RunStep(events, e);
    NewWindow(Run(events), e, x);
  }

  // ---- what a window has been told ----------------------------------------------------------------

  /** An act on `x` while it was alive; what is done before it starts does nothing. */
  ghost predicate Acted(events: seq<Event>, n: nat, x: Wid)
    requires n < |events|
  {
    events[n].WindowActs? && events[n].x == x && x in Run(events[..n]).wins
  }

  /** The workspace Dart set last. */
  ghost function LastWorkspace(events: seq<Event>, x: Wid): Option<string> {
    if |events| == 0 then None
    else
      var n := |events| - 1;
      if Acted(events, n, x) && events[n].op.DoSetWorkspace? then events[n].op.workspace else LastWorkspace(events[..n], x)
  }

  /** Whether a close is to hide, as Dart set it last. */
  ghost function LastChoice(events: seq<Event>, x: Wid): bool {
    if |events| == 0 then false
    else
      var n := |events| - 1;
      if Acted(events, n, x) && events[n].op.DoSetCloseToTray? then events[n].op.on else LastChoice(events[..n], x)
  }

  /** The text Dart set last for `key`. */
  ghost function LastLabel(events: seq<Event>, x: Wid, key: string): Option<string> {
    if |events| == 0 then None
    else
      var n := |events| - 1;
      if Acted(events, n, x) && events[n].op.DoSetLabels? && key in events[n].op.labels then Some(events[n].op.labels[key])
      else LastLabel(events[..n], x, key)
  }

  /** The window has quit on its own, on a call of the loader, or on "quit all" with no loader to pass it on. */
  ghost predicate ToldToQuit(events: seq<Event>, x: Wid) {
    |events| > 0 &&
    var n := |events| - 1;
    || ToldToQuit(events[..n], x)
    || (Acted(events, n, x) && events[n].op.DoQuit?)
    || (Acted(events, n, x) && events[n].op.DoQuitAll? && !Run(events[..n]).wins[x].bridge.loaderPresent)
    || (events[n] == WindowHandles(x) && x in Run(events[..n]).wins
        && var inbox := Run(events[..n]).wins[x].inbox; |inbox| > 0 && inbox[0] == Method(Quit))
  }

  ghost predicate AsTold(b: BridgeState, events: seq<Event>, x: Wid) {
    && b.workspace == LastWorkspace(events, x)
    && b.closeToTray == LastChoice(events, x)
    && (b.quitting <==> ToldToQuit(events, x))
    && forall key :: (if key in b.labels then Some(b.labels[key]) else None) == LastLabel(events, x, key)
  }

  /** Over every run: a live window has the workspace, the close setting and the label texts that Dart set
      last, whatever the loader did, and is quitting exactly when it was told to. */
  lemma {:induction false} WindowIsAsTold(events: seq<Event>, x: Wid)
    requires x in Run(events).wins
    ensures AsTold(Run(events).wins[x].bridge, events, x)
  {
    var n := |events| - 1;
    LastApart(events);
    RunKeepsInv(events[..n]);
    RunStep(events[..n], events[n]);
    if x in Run(events[..n]).wins {
      WindowIsAsTold(events[..n], x);
      ToldStep(events, n, x);
    } else {
      NewIsAsTold(events, n, x);
    }
  }

  lemma NewIsAsTold(events: seq<Event>, n: nat, x: Wid)
    requires |events| == n + 1 && Run(events) == Apply(Run(events[..n]), events[n])
    requires x !in Run(events[..n]).wins && x in Run(events).wins
    ensures AsTold(Run(events).wins[x].bridge, events, x)
  {
    NewWindow(Run(events[..n]), events[n], x);
    NewName(Run(events[..n]), events[n], x);
    NeverTold(events[..n], x);
    assert !Acted(events, n, x);
  }

  lemma NewName(w: World, e: Event, x: Wid)
    requires x !in w.wins && x in Apply(w, e).wins
    ensures x == w.nextWid
  {}

  /** Names are given out in order, so a name that is new now was never alive. */
  lemma {:induction false} NeverTold(events: seq<Event>, x: Wid)
    requires Run(events).nextWid <= x
    ensures AsTold(Attached(), events, x)
  {
    if |events| > 0 {
      var n := |events| - 1;
      NotYetAlive(events, n, x);
      NeverTold(events[..n], x);
      assert !Acted(events, n, x);
    }
  }

  lemma NotYetAlive(events: seq<Event>, n: nat, x: Wid)
    requires |events| == n + 1 && Run(events).nextWid <= x
    ensures Run(events[..n]).nextWid <= x && x !in Run(events[..n]).wins
  {
    LastApart(events);
    RunStep(events[..n], events[n]);
    NamesStep(Run(events[..n]), events[n]);
    RunKeepsInv(events[..n]);
  }

  /** The messages of the loader set nothing; only `Quit` ends the window. */
  lemma MessageSetsNothing(b: BridgeState, now: nat, m: ToWindow)
    ensures var b' := OnMessage(b, now, m);
            && b'.workspace == b.workspace && b'.closeToTray == b.closeToTray && b'.labels == b.labels
            && b'.quitting == (b.quitting || m == Method(Quit))
  {
    if m.Method? { MethodObeyed(b, now, m.wm); }
  }

  lemma ActTold(b: BridgeState, events: seq<Event>, n: nat, x: Wid)
    requires |events| == n + 1 && x in Run(events[..n]).wins && b == Run(events[..n]).wins[x].bridge
    requires events[n].WindowActs? && events[n].x == x && AsTold(b, events[..n], x)
    ensures AsTold(OnOp(b, events[n].op), events, x)
  {
    OpActsOnItself(b, events[n].op);
    OpSetsLabels(b, events[n].op);
  }

  lemma ToldStep(events: seq<Event>, n: nat, x: Wid)
    requires |events| == n + 1 && x in Run(events).wins && Run(events) == Apply(Run(events[..n]), events[n])
    requires x in Run(events[..n]).wins && x < Run(events[..n]).nextWid
    requires AsTold(Run(events[..n]).wins[x].bridge, events[..n], x)
    ensures AsTold(Run(events).wins[x].bridge, events, x)
  {
    var w, e := Run(events[..n]), events[n];
    if e == WindowHandles(x) {
      if |w.wins[x].inbox| > 0 { MessageSetsNothing(w.wins[x].bridge, w.now, w.wins[x].inbox[0]); }
    } else {
      StepKeepsRest(w, e, x);
      if e.WindowActs? && e.x == x { ActTold(w.wins[x].bridge, events, n, x); }
    }
  }
}
