/** The menu labels on their way to the loader: a second invariant of the tray protocol, over the first. */
module TrayLabels {
  import opened Common
  import opened TrayLoaderSpec
  import opened TrayBridgeSpec
  import opened TrayProtocol
  import opened TrayInvariant
  import opened TrayWindowSteps
  import opened TrayTheorems

  /** One `SetLabels` that the current loader has handled. */
  datatype Heard = Heard(from: Wid, labels: map<string, string>)

  function HeardStep(w: World, e: Event, heard: seq<Heard>): seq<Heard> {
    if e.LoaderStarts? && w.owner.None? then []
    else if e.LoaderHandles? && w.owner.Some? && |w.owner.value.inbox| > 0 then HeardOne(w.owner.value.inbox[0], heard)
    else heard
  }

  function HeardOne(m: ToLoader, heard: seq<Heard>): seq<Heard> {
    if m.FromWindow? && m.req.SetLabels? then heard + [Heard(m.from, m.req.labels)] else heard
  }

  /** Every `SetLabels` the current loader has handled, in order; a new loader has handled none. */
  function HeardBy(events: seq<Event>): seq<Heard> {
    if |events| == 0 then []
    else HeardStep(Run(events[..|events| - 1]), events[|events| - 1], HeardBy(events[..|events| - 1]))
  }

  /** What a list of label maps comes to, later ones overriding earlier ones. */
  function Overridden(heard: seq<Heard>): map<string, string> {
    if |heard| == 0 then map[] else Overridden(heard[..|heard| - 1]) + heard[|heard| - 1].labels
  }

  // ---- the last text for a key --------------------------------------------------------------------

  function TextStep(key: string, d: Option<string>, labels: map<string, string>): Option<string> {
    if key in labels then Some(labels[key]) else d
  }

  function OutTextStep(key: string, d: Option<string>, r: Request): Option<string> {
    if r.SetLabels? then TextStep(key, d, r.labels) else d
  }

  function InTextStep(x: Wid, key: string, d: Option<string>, m: ToLoader): Option<string> {
    if m.FromWindow? && m.from == x then OutTextStep(key, d, m.req) else d
  }

  function HeardTextStep(x: Wid, key: string, d: Option<string>, h: Heard): Option<string> {
    if h.from == x then TextStep(key, d, h.labels) else d
  }

  function OutText(key: string): (Option<string>, Request) -> Option<string> { (d, r) => OutTextStep(key, d, r) }

  function InText(x: Wid, key: string): (Option<string>, ToLoader) -> Option<string> {
    (d, m) => InTextStep(x, key, d, m)
  }

  function HeardText(x: Wid, key: string): (Option<string>, Heard) -> Option<string> {
    (d, h) => HeardTextStep(x, key, d, h)
  }

  /** The last text for `key` that `x` has sent to this loader: handled, delivered or still in its queue. */
  function LastText(x: Wid, key: string, heard: seq<Heard>, inbox: seq<ToLoader>, out: seq<Request>): Option<string> {
    Fold(OutText(key), Fold(InText(x, key), Fold(HeardText(x, key), None, heard), inbox), out)
  }

  ghost predicate LabelsOk(o: Option<Proc>, heard: seq<Heard>, x: Wid, win: Win) {
    o.Some? && win.known == Some(o.value.gen) ==>
      forall key :: key in win.bridge.labels ==>
        LastText(x, key, heard, o.value.inbox, win.bridge.out) == Some(win.bridge.labels[key])
  }

  ghost predicate AllLabelsOk(w: World, heard: seq<Heard>) {
    && (forall x :: x in w.wins ==> LabelsOk(w.owner, heard, x, w.wins[x]))
    && (w.owner.Some? ==> w.owner.value.core.labels == Overridden(heard))
  }

  // ---- the window's side --------------------------------------------------------------------------

  /** `b'` has the labels of `b`, and has sent none since. */
  ghost predicate SendsNoLabels(b: BridgeState, b': BridgeState) {
    && b'.labels == b.labels && b.out <= b'.out
    && forall i :: |b.out| <= i < |b'.out| ==> !b'.out[i].SetLabels?
  }

  /** The last thing `b'` has sent is all its labels, if it has any. */
  ghost predicate SendsAllLabels(b': BridgeState) {
    |b'.labels| > 0 ==> |b'.out| > 0 && b'.out[|b'.out| - 1] == SetLabels(b'.labels)
  }

  lemma {:induction false} NoLabelsInTail(key: string, d: Option<string>, q: seq<Request>)
    requires forall i :: 0 <= i < |q| ==> !q[i].SetLabels?
    ensures Fold(OutText(key), d, q) == d
  {
    if |q| > 0 { NoLabelsInTail(key, d, q[..|q| - 1]); }
  }

  lemma SameText(key: string, d: Option<string>, b: BridgeState, b': BridgeState)
    requires SendsNoLabels(b, b')
    ensures Fold(OutText(key), d, b'.out) == Fold(OutText(key), d, b.out)
  {
    var more := b'.out[|b.out|..];
    assert b'.out == b.out + more;
    FoldConcat(OutText(key), d, b.out, more);
    NoLabelsInTail(key, Fold(OutText(key), d, b.out), more);
  }

  lemma AllTexts(key: string, d: Option<string>, b': BridgeState)
    requires SendsAllLabels(b') && key in b'.labels
    ensures Fold(OutText(key), d, b'.out) == Some(b'.labels[key])
  {
    assert |b'.labels| > 0;
  }

  lemma SentKeepsLabels(o: Option<Proc>, heard: seq<Heard>, x: Wid, win: Win, win': Win)
    requires LabelsOk(o, heard, x, win) && win'.known == win.known
    requires SendsNoLabels(win.bridge, win'.bridge) || SendsAllLabels(win'.bridge)
    ensures LabelsOk(o, heard, x, win')
  {
    if o.Some? && win.known == Some(o.value.gen) {
      forall key | key in win'.bridge.labels
        ensures LastText(x, key, heard, o.value.inbox, win'.bridge.out) == Some(win'.bridge.labels[key])
      {
        var d := Fold(InText(x, key), Fold(HeardText(x, key), None, heard), o.value.inbox);
        if SendsAllLabels(win'.bridge) { AllTexts(key, d, win'.bridge); } else { SameText(key, d, win.bridge, win'.bridge); }
      }
    }
  }

  lemma OpSendsLabels(b: BridgeState, op: WindowOp)
    requires b.loaderPresent
    ensures SendsNoLabels(b, OnOp(b, op)) || SendsAllLabels(OnOp(b, op))
  {
    match op {
      case DoShow =>
      case DoHide =>
      case DoQuit =>
      case DoQuitAll =>
      case DoPulse =>
      case DoClose =>
      case FirstFrame =>
      case DoSetWorkspace(_) =>
      case DoSetLabels(_) => assert SendsAllLabels(OnOp(b, op));
      case DoSetCloseToTray(_) =>
    }
  }

  lemma MessageSendsLabels(b: BridgeState, now: nat, m: ToWindow)
    requires !m.Appeared? && !m.Vanished?
    ensures SendsNoLabels(b, OnMessage(b, now, m))
  {
    match m {
      case RegisterReply(_) =>
      case AvailabilityChanged(_) =>
      case Method(wm) =>
    }
  }

  lemma HandledLabels(o: Option<Proc>, heard: seq<Heard>, x: Wid, win: Win, now: nat)
    requires NameOk(o, win) && LabelsOk(o, heard, x, win) && |win.inbox| > 0
    ensures LabelsOk(o, heard, x, WinHandle(win, now))
  {
    var m, win' := win.inbox[0], WinHandle(win, now);
    if m.Appeared? {
      AppearedLabels(o, heard, x, win', OnLoaderAppeared(win.bridge));
    } else if !m.Vanished? {
      MessageSendsLabels(win.bridge, now, m);
      SentKeepsLabels(o, heard, x, win, win');
    }
  }

  /** A window that sees a loader sends it all its labels. */
  lemma AppearedLabels(o: Option<Proc>, heard: seq<Heard>, x: Wid, win': Win, b': BridgeState)
    requires win'.bridge == b' && SendsAllLabels(b')
    ensures LabelsOk(o, heard, x, win')
  {
    if o.Some? {
      forall key | key in b'.labels
        ensures LastText(x, key, heard, o.value.inbox, b'.out) == Some(b'.labels[key])
      {
        AllTexts(key, Fold(InText(x, key), Fold(HeardText(x, key), None, heard), o.value.inbox), b');
      }
    }
  }

  lemma ActedLabels(o: Option<Proc>, heard: seq<Heard>, x: Wid, win: Win, op: WindowOp)
    requires NameOk(o, win) && LabelsOk(o, heard, x, win)
    ensures LabelsOk(o, heard, x, WinAct(win, op))
  {
    if win.known.Some? {
      OpSendsLabels(win.bridge, op);
      SentKeepsLabels(o, heard, x, win, WinAct(win, op));
    }
  }

  // ---- the loader's side --------------------------------------------------------------------------

  /** The queue of `p'` is that of `p`, or that and a notice that a window is gone. */
  ghost predicate OnlyNotices(p: Proc, p': Proc) {
    || p'.inbox == p.inbox
    || (|p'.inbox| > 0 && p'.inbox[|p'.inbox| - 1].Gone? && p'.inbox[..|p'.inbox| - 1] == p.inbox)
  }

  lemma NoticesKeepText(p: Proc, p': Proc, x: Wid, key: string, d: Option<string>)
    requires OnlyNotices(p, p')
    ensures Fold(InText(x, key), d, p'.inbox) == Fold(InText(x, key), d, p.inbox)
  {}

  lemma SameLabels(p: Proc, p': Proc, heard: seq<Heard>, x: Wid, win: Win)
    requires LabelsOk(Some(p), heard, x, win) && p'.gen == p.gen && OnlyNotices(p, p')
    ensures LabelsOk(Some(p'), heard, x, win)
  {
    if win.known == Some(p.gen) {
      forall key | key in win.bridge.labels
        ensures LastText(x, key, heard, p'.inbox, win.bridge.out) == Some(win.bridge.labels[key])
      {
        NoticesKeepText(p, p', x, key, Fold(HeardText(x, key), None, heard));
      }
    }
  }

  /** Handling a message moves its text from the queue to what has been heard. */
  lemma HeadIsHeard(x: Wid, key: string, heard: seq<Heard>, inbox: seq<ToLoader>)
    requires |inbox| > 0
    ensures Fold(InText(x, key), Fold(HeardText(x, key), None, HeardOne(inbox[0], heard)), inbox[1..])
            == Fold(InText(x, key), Fold(HeardText(x, key), None, heard), inbox)
  {
    var d := Fold(HeardText(x, key), None, heard);
    FoldHead(InText(x, key), d, inbox);
    var m := inbox[0];
    if m.FromWindow? && m.req.SetLabels? {
      var h := Heard(m.from, m.req.labels);
      FoldSnoc(HeardText(x, key), None, heard, h);
      assert InText(x, key)(d, m) == HeardText(x, key)(d, h);
    } else {
      assert InText(x, key)(d, m) == d;
    }
  }

  lemma HandlingLabels(p: Proc, heard: seq<Heard>, x: Wid, win: Win, now: nat)
    requires LabelsOk(Some(p), heard, x, win) && |p.inbox| > 0
    ensures LabelsOk(Some(Handle(p, now)), HeardOne(p.inbox[0], heard), x, win)
  {
    if win.known == Some(p.gen) {
      forall key | key in win.bridge.labels
        ensures LastText(x, key, HeardOne(p.inbox[0], heard), p.inbox[1..], win.bridge.out) == Some(win.bridge.labels[key])
      {
        HeadIsHeard(x, key, heard, p.inbox);
      }
    }
  }

  /** The loader's labels are what it has heard. */
  lemma CoreHears(s: LoaderState, now: nat, m: ToLoader, heard: seq<Heard>)
    requires s.labels == Overridden(heard)
    ensures CoreAfter(s, now, m).labels == Overridden(HeardOne(m, heard))
  {
    if m.FromWindow? { CallHears(s, now, m.from, m.req, heard); }
  }

  lemma CallHears(s: LoaderState, now: nat, from: Wid, req: Request, heard: seq<Heard>)
    requires s.labels == Overridden(heard)
    ensures OnCall(s, now, from, req).labels == Overridden(HeardOne(FromWindow(from, req), heard))
  {
    match req {
      case Register(_, _) =>
      case Update(_, _) =>
      case SetLabels(labels) => assert (heard + [Heard(from, labels)])[..|heard|] == heard;
      case QuitAll =>
      case Pulse =>
    }
  }

  lemma EnvKeepsLabels(s: LoaderState, now: nat, e: Env)
    ensures OnEnv(s, now, e).labels == s.labels
  {
    match e {
      case WatcherAppeared =>
      case WatcherVanished =>
      case WatcherSignalled(_) =>
      case HostReply(_) =>
      case Clicked(_) =>
      case Activated =>
      case SecondaryActivated =>
      case Signalled =>
    }
  }

  /** The bus moves the window's first call to the loader's queue. */
  lemma RoutedLabels(p: Proc, heard: seq<Heard>, x: Wid, win: Win)
    requires LabelsOk(Some(p), heard, x, win) && |win.bridge.out| > 0
    ensures LabelsOk(Some(p.(inbox := p.inbox + [FromWindow(x, win.bridge.out[0])])), heard, x,
                     win.(bridge := win.bridge.(out := win.bridge.out[1..])))
  {
    var r := win.bridge.out[0];
    if win.known == Some(p.gen) {
      forall key | key in win.bridge.labels
        ensures LastText(x, key, heard, p.inbox + [FromWindow(x, r)], win.bridge.out[1..]) == Some(win.bridge.labels[key])
      {
        var d := Fold(HeardText(x, key), None, heard);
        FoldSnoc(InText(x, key), d, p.inbox, FromWindow(x, r));
        FoldHead(OutText(key), Fold(InText(x, key), d, p.inbox), win.bridge.out);
      }
    }
  }

  lemma OtherRouted(p: Proc, heard: seq<Heard>, x: Wid, win: Win, y: Wid, r: Request)
    requires LabelsOk(Some(p), heard, x, win) && y != x
    ensures LabelsOk(Some(p.(inbox := p.inbox + [FromWindow(y, r)])), heard, x, win)
  {
    if win.known == Some(p.gen) {
      forall key | key in win.bridge.labels
        ensures LastText(x, key, heard, p.inbox + [FromWindow(y, r)], win.bridge.out) == Some(win.bridge.labels[key])
      {
        FoldSnoc(InText(x, key), Fold(HeardText(x, key), None, heard), p.inbox, FromWindow(y, r));
      }
    }
  }

  // ---- every step ---------------------------------------------------------------------------------

  lemma StartKeepsLabels(w: World, heard: seq<Heard>)
    requires Inv(w) && AllLabelsOk(w, heard)
    ensures AllLabelsOk(StartLoader(w), HeardStep(w, LoaderStarts, heard))
  {
    if w.owner.None? {
      var w' := StartLoader(w);
      forall x | x in w'.wins ensures LabelsOk(w'.owner, [], x, w'.wins[x]) {
        assert WinInv(w.nextGen, w.owner, x, w.wins[x]) && w'.wins[x].known == w.wins[x].known;
      }
    }
  }

  lemma DeathKeepsLabels(w: World, heard: seq<Heard>)
    requires AllLabelsOk(w, heard)
    ensures AllLabelsOk(KillLoader(w), heard)
  {}

  lemma HandlingKeepsLabels(w: World, heard: seq<Heard>)
    requires AllLabelsOk(w, heard) && w.owner.Some? && |w.owner.value.inbox| > 0
    ensures AllLabelsOk(Apply(w, LoaderHandles), HeardStep(w, LoaderHandles, heard))
  {
    var p := w.owner.value;
    CoreHears(p.core, w.now, p.inbox[0], heard);
    forall x | x in w.wins ensures LabelsOk(Some(Handle(p, w.now)), HeardOne(p.inbox[0], heard), x, w.wins[x]) {
      HandlingLabels(p, heard, x, w.wins[x], w.now);
    }
  }

  /** A step that leaves the loader's labels, and all of its queue but notices, alone. */
  lemma QuietStepKeepsLabels(w: World, w': World, heard: seq<Heard>)
    requires AllLabelsOk(w, heard) && w.owner.Some? && w'.owner.Some?
    requires w'.wins.Keys <= w.wins.Keys
    requires forall x :: x in w'.wins ==> w'.wins[x].known == w.wins[x].known && w'.wins[x].bridge == w.wins[x].bridge
    requires w'.owner.value.gen == w.owner.value.gen && w'.owner.value.core.labels == w.owner.value.core.labels
    requires OnlyNotices(w.owner.value, w'.owner.value)
    ensures AllLabelsOk(w', heard)
  {
    forall x | x in w'.wins ensures LabelsOk(w'.owner, heard, x, w'.wins[x]) {
      assert x in w.wins && LabelsOk(w.owner, heard, x, w.wins[x]);
      SameLabels(w.owner.value, w'.owner.value, heard, x, w.wins[x]);
    }
  }

  lemma TakenWindows(w: World)
    requires w.owner.Some? && |w.owner.value.core.out| > 0
    ensures var wins' := TakeFromLoader(w).wins;
            wins'.Keys == w.wins.Keys
            && forall x :: x in wins' ==> wins'[x].known == w.wins[x].known && wins'[x].bridge == w.wins[x].bridge
  {}

  lemma TakenOwner(w: World)
    requires w.owner.Some? && |w.owner.value.core.out| > 0
    ensures var o := TakeFromLoader(w).owner;
            && o.Some? && o.value.gen == w.owner.value.gen && o.value.core.labels == w.owner.value.core.labels
            && OnlyNotices(w.owner.value, o.value)
  {
    var p := w.owner.value;
    match p.core.out[0] {
      case Reply(_, _) =>
      case TrayAvailabilityChanged(_) =>
      case Call(_, _) =>
      case Watch(name) => NoticeOnly(p.inbox, Gone(name));
    }
  }

  lemma NoticeOnly(q: seq<ToLoader>, m: ToLoader)
    ensures (q + [m])[..|q + [m]| - 1] == q
  {}

  lemma TakingKeepsLabels(w: World, heard: seq<Heard>)
    requires AllLabelsOk(w, heard) && w.owner.Some? && |w.owner.value.core.out| > 0
    ensures AllLabelsOk(TakeFromLoader(w), heard)
  {
    TakenWindows(w);
    TakenOwner(w);
    QuietStepKeepsLabels(w, TakeFromLoader(w), heard);
  }

  lemma LoaderSideKeepsLabels(w: World, e: Event, heard: seq<Heard>)
    requires Inv(w) && AllLabelsOk(w, heard)
    requires e.LoaderStarts? || e.LoaderDies? || e.LoaderHandles? || e.LoaderEnv? || e.LoaderTimer? || e.RouteFromLoader?
    ensures AllLabelsOk(Apply(w, e), HeardStep(w, e, heard))
  {
    match e {
      case LoaderStarts => StartKeepsLabels(w, heard);
      case LoaderDies => DeathKeepsLabels(w, heard);
      case LoaderHandles => if w.owner.Some? && |w.owner.value.inbox| > 0 { HandlingKeepsLabels(w, heard); }
      case LoaderEnv(env) =>
        if w.owner.Some? && EnvEnabled(w.owner.value, env) {
          EnvKeepsLabels(w.owner.value.core, w.now, env);
          QuietStepKeepsLabels(w, Apply(w, e), heard);
        }
      case LoaderTimer =>
        if w.owner.Some? && TimerDue(w.owner.value, w.now) { QuietStepKeepsLabels(w, Apply(w, e), heard); }
      case RouteFromLoader => if w.owner.Some? && |w.owner.value.core.out| > 0 { TakingKeepsLabels(w, heard); }
    }
  }

  lemma KillingKeepsLabels(w: World, y: Wid, heard: seq<Heard>)
    requires AllLabelsOk(w, heard) && y in w.wins
    ensures AllLabelsOk(KillWindow(w, y), heard)
  {
    if w.owner.Some? {
      var p := w.owner.value;
      assert (p.inbox + [Gone(y)])[..|p.inbox|] == p.inbox;
      QuietStepKeepsLabels(w, KillWindow(w, y), heard);
    }
  }

  /** One window changes, and nothing else. */
  lemma ChangedKeepsLabels(w: World, x: Wid, win': Win, heard: seq<Heard>)
    requires AllLabelsOk(w, heard) && x in w.wins && LabelsOk(w.owner, heard, x, win')
    ensures AllLabelsOk(w.(wins := w.wins[x := win']), heard)
  {}

  lemma RouteKeepsLabels(w: World, y: Wid, heard: seq<Heard>)
    requires AllLabelsOk(w, heard) && y in w.wins && |w.wins[y].bridge.out| > 0
    ensures AllLabelsOk(TakeFromWindow(w, y), heard)
  {
    var w' := TakeFromWindow(w, y);
    if w.owner.Some? {
      forall x | x in w'.wins ensures LabelsOk(w'.owner, heard, x, w'.wins[x]) {
        if x == y { RoutedLabels(w.owner.value, heard, x, w.wins[x]); }
        else { OtherRouted(w.owner.value, heard, x, w.wins[x], y, w.wins[y].bridge.out[0]); }
      }
    }
  }

  lemma MessageKeepsLabels(w: World, x: Wid, heard: seq<Heard>)
    requires Inv(w) && AllLabelsOk(w, heard) && x in w.wins && |w.wins[x].inbox| > 0
    ensures AllLabelsOk(Apply(w, WindowHandles(x)), heard)
  {
    assert WinInv(w.nextGen, w.owner, x, w.wins[x]);
    HandledLabels(w.owner, heard, x, w.wins[x], w.now);
    ChangedKeepsLabels(w, x, WinHandle(w.wins[x], w.now), heard);
  }

  lemma ActingKeepsLabels(w: World, x: Wid, op: WindowOp, heard: seq<Heard>)
    requires Inv(w) && AllLabelsOk(w, heard) && x in w.wins
    ensures AllLabelsOk(Apply(w, WindowActs(x, op)), heard)
  {
    assert WinInv(w.nextGen, w.owner, x, w.wins[x]);
    ActedLabels(w.owner, heard, x, w.wins[x], op);
    ChangedKeepsLabels(w, x, WinAct(w.wins[x], op), heard);
  }

  lemma NewKeepsLabels(w: World, heard: seq<Heard>)
    requires Inv(w) && AllLabelsOk(w, heard)
    ensures AllLabelsOk(Apply(w, WindowStarts), heard)
  {}

  lemma WindowSideKeepsLabels(w: World, e: Event, heard: seq<Heard>)
    requires Inv(w) && AllLabelsOk(w, heard)
    requires e.Tick? || e.WindowStarts? || e.WindowDies? || e.WindowHandles? || e.WindowActs? || e.RouteFromWindow?
    ensures AllLabelsOk(Apply(w, e), heard)
  {
    match e {
      case Tick(dt) => assert Apply(w, e) == w.(now := w.now + dt);
      case WindowStarts => NewKeepsLabels(w, heard);
      case WindowDies(x) => if x in w.wins { KillingKeepsLabels(w, x, heard); }
      case WindowHandles(x) => if x in w.wins && |w.wins[x].inbox| > 0 { MessageKeepsLabels(w, x, heard); }
      case WindowActs(x, op) => if x in w.wins { ActingKeepsLabels(w, x, op, heard); }
      case RouteFromWindow(x) => if x in w.wins && |w.wins[x].bridge.out| > 0 { RouteKeepsLabels(w, x, heard); }
    }
  }

  lemma {:induction false} RunKeepsLabels(events: seq<Event>)
    ensures AllLabelsOk(Run(events), HeardBy(events))
  {
    if |events| > 0 {
      var before, e := events[..|events| - 1], events[|events| - 1];
      RunKeepsLabels(before);
      RunKeepsInv(before);
      StepKeepsLabels(Run(before), e, HeardBy(before));
    }
  }

  lemma StepKeepsLabels(w: World, e: Event, heard: seq<Heard>)
    requires Inv(w) && AllLabelsOk(w, heard)
    ensures AllLabelsOk(Apply(w, e), HeardStep(w, e, heard))
  {
    if e.LoaderStarts? || e.LoaderDies? || e.LoaderHandles? || e.LoaderEnv? || e.LoaderTimer? || e.RouteFromLoader? {
      LoaderSideKeepsLabels(w, e, heard);
    } else {
      WindowSideKeepsLabels(w, e, heard);
    }
  }

  // ---- what the loader shows ----------------------------------------------------------------------

  /** Over every run, however often the loader was replaced: the loader's labels are exactly those it has
      been sent, later ones overriding earlier ones; and for every label of a window that has seen this
      loader, the last text it has sent, handled or on its way, is the window's own. */
  lemma LabelsReachLoader(events: seq<Event>, x: Wid)
    requires x in Run(events).wins && Run(events).owner.Some?
    ensures var p, win := Run(events).owner.value, Run(events).wins[x];
            && p.core.labels == Overridden(HeardBy(events))
            && (win.known == Some(p.gen) ==>
                  forall key :: key in win.bridge.labels ==>
                    LastText(x, key, HeardBy(events), p.inbox, win.bridge.out) == Some(win.bridge.labels[key]))
  {
    RunKeepsLabels(events);
  }

  /** No window but `x` has sent this loader a text for `key`. */
  ghost predicate OnlyFrom(heard: seq<Heard>, x: Wid, key: string) {
    forall i :: 0 <= i < |heard| && key in heard[i].labels ==> heard[i].from == x
  }

  /** Over every run: once no message is under way, the loader has a text for every label of every live
      window, and it is the window's own text for every key that no other window has sent it. */
  lemma QuietLabels(events: seq<Event>, x: Wid, key: string)
    requires Quiet(Run(events)) && Run(events).owner.Some? && x in Run(events).wins
    requires key in Run(events).wins[x].bridge.labels
    ensures var labels := Run(events).owner.value.core.labels;
            key in labels
            && (OnlyFrom(HeardBy(events), x, key) ==> labels[key] == Run(events).wins[x].bridge.labels[key])
  {
    RunKeepsLabels(events);
    RunKeepsInv(events);
    var w := Run(events);
    assert WinInv(w.nextGen, w.owner, x, w.wins[x]) && LabelsOk(w.owner, HeardBy(events), x, w.wins[x]);
    HeardIsShown(HeardBy(events), x, key);
  }

  lemma {:induction false} HeardIsShown(heard: seq<Heard>, x: Wid, key: string)
    ensures var text := Fold(HeardText(x, key), None, heard);
            && (text.Some? ==> key in Overridden(heard))
            && (text.Some? && OnlyFrom(heard, x, key) ==> Overridden(heard)[key] == text.value)
  {
    if |heard| > 0 {
      var n := |heard| - 1;
      HeardIsShown(heard[..n], x, key);
      assert OnlyFrom(heard, x, key) ==> OnlyFrom(heard[..n], x, key) && (key in heard[n].labels ==> heard[n].from == x);
    }
  }
}
