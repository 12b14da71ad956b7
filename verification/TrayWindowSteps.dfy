/** The window's steps keep the invariant of `TrayInvariant`, and so does every run. */
module TrayWindowSteps {
  import opened Common
  import opened TrayLoaderSpec
  import opened TrayBridgeSpec
  import opened TrayProtocol
  import opened TrayInvariant
  import Facts = TrayLoaderFacts

  // ---- windows start and die ----------------------------------------------------------------------

  lemma StartWindowKeepsInv(w: World)
    requires Inv(w)
    ensures Inv(StartWindow(w))
  {
    var w', x := StartWindow(w), w.nextWid;
    var win := w'.wins[x];
    DeliverSnoc(win.(inbox := []), win.inbox[0]);
    assert Deliver(win.(inbox := []), win.inbox[0]).inbox == win.inbox;
    assert NameOk(w.owner, win);
    assert !AvailAfter(win.inbox, false);
    if w.owner.Some? {
      var p := w.owner.value;
      AvailOutDefault(x, p.core.out, false);
      assert AvailOut(x, p.core.out, p.core.trayAvailable) == p.core.trayAvailable;
      assert x !in p.answered;
      StartedTracked(p, w.wins.Keys, x);
      assert w'.wins.Keys == w.wins.Keys + {x};
      assert Bounded(p, w'.nextWid);
    }
    assert WinInv(w.nextGen, w.owner, x, win);
  }

  lemma StartedTracked(p: Proc, live: set<Wid>, x: Wid)
    requires Tracked(p, live) && Bounded(p, x)
    ensures Tracked(p, live + {x})
  {}

  lemma KilledProcInv(p: Proc, live: set<Wid>, n: Wid, now: nat, x: Wid)
    requires ProcInv(p, live, n, now) && x < n
    ensures x in p.watched ==>
              ProcInv(p.(watched := p.watched - {x}, inbox := p.inbox + [Gone(x)]), live - {x}, n, now)
    ensures x !in p.watched ==> ProcInv(p, live - {x}, n, now)
  {
    if x in p.watched {
      var p' := p.(watched := p.watched - {x}, inbox := p.inbox + [Gone(x)]);
      assert Started(p');
      assert Gone(x) in p'.inbox;
      assert Tracked(p', live - {x});
    }
  }

  lemma KillWindowKeepsInv(w: World, x: Wid)
    requires Inv(w)
    ensures Inv(KillWindow(w, x))
  {
    if x in w.wins {
      var w' := KillWindow(w, x);
      assert w'.wins.Keys == w.wins.Keys - {x};
      if w.owner.Some? {
        var p := w.owner.value;
        KilledProcInv(p, w.wins.Keys, w.nextWid, w.now, x);
        if x in p.watched {
          forall y | y in w'.wins ensures WinInv(w.nextGen, w'.owner, y, w'.wins[y]) {
            AppendOther(w.nextGen, p, Gone(x), y, w.wins[y]);
          }
        }
      }
    }
  }

  // ---- what one step of a bridge sends ------------------------------------------------------------

  /** A step of the bridge appends at most a state message and a label message; the state message
      carries the new state; and while a loader is present every change of state is sent. */
  ghost predicate BridgeEffect(b: BridgeState, b': BridgeState, unseen: bool) {
    && b.out <= b'.out
    && (Announces(b, b') ==>
          forall d :: StateAfter(b'.out, d) == Some((Sent(b'.workspace), b'.visible)))
    && (!Announces(b, b') ==> forall d :: StateAfter(b'.out, d) == StateAfter(b.out, d))
    && (!Announces(b, b') && b'.loaderPresent && !unseen ==> b'.workspace == b.workspace && b'.visible == b.visible)
    && (forall d :: RegisteredAfter(b.out, d) ==> RegisteredAfter(b'.out, d))
  }

  lemma SendsNothing(b: BridgeState, b': BridgeState)
    requires b'.out == b.out
    requires b'.loaderPresent ==> b'.workspace == b.workspace && b'.visible == b.visible
    ensures BridgeEffect(b, b', false)
  {
    assert b'.out[|b.out|..] == [];
  }

  lemma SendsOne(b: BridgeState, b': BridgeState, r: Request)
    requires b'.out == b.out + [r]
    requires r == Register(Sent(b'.workspace), b'.visible) || r == Update(Sent(b'.workspace), b'.visible)
             || (!r.Register? && !r.Update? && b'.workspace == b.workspace && b'.visible == b.visible)
    ensures BridgeEffect(b, b', false)
    ensures r.Register? ==> forall d :: RegisteredAfter(b'.out, d)
  {
    assert b'.out[|b.out|..] == [r];
    FoldSnoc(StateStep, None, [], r);
    assert [] + [r] == [r];
    forall d ensures StateAfter(b'.out, d) == StateStep(StateAfter(b.out, d), r) {
      FoldSnoc(StateStep, d, b.out, r);
    }
    forall d ensures RegisteredAfter(b'.out, d) == RegisteredStep(RegisteredAfter(b.out, d), r) {
      FoldSnoc(RegisteredStep, d, b.out, r);
    }
  }

  lemma SendsTwo(b: BridgeState, b1: BridgeState, b': BridgeState)
    requires BridgeEffect(b, b1, false) && Announces(b, b1)
    requires b' == b1 || (exists labels :: b' == b1.(out := b1.out + [SetLabels(labels)]))
    ensures BridgeEffect(b, b', false) && Announces(b, b')
    ensures forall d :: RegisteredAfter(b1.out, d) ==> RegisteredAfter(b'.out, d)
  {
    if b' != b1 {
      var labels :| b' == b1.(out := b1.out + [SetLabels(labels)]);
      assert b'.out[|b.out|..] == b1.out[|b.out|..] + [SetLabels(labels)];
      FoldSnoc(StateStep, None, b1.out[|b.out|..], SetLabels(labels));
      forall d ensures StateAfter(b'.out, d) == StateAfter(b1.out, d) {
        FoldSnoc(StateStep, d, b1.out, SetLabels(labels));
      }
      forall d ensures RegisteredAfter(b'.out, d) == RegisteredAfter(b1.out, d) {
        FoldSnoc(RegisteredStep, d, b1.out, SetLabels(labels));
      }
    }
  }

  lemma UpdateEffect(b: BridgeState, workspace: Option<string>, visible: bool)
    ensures BridgeEffect(b, LoaderUpdate(b.(workspace := workspace, visible := visible)), false)
  {
    var b' := LoaderUpdate(b.(workspace := workspace, visible := visible));
    if b.loaderPresent { SendsOne(b, b', Update(Sent(workspace), visible)); } else { SendsNothing(b, b'); }
  }

  lemma CallEffect(b: BridgeState, labels: map<string, string>, r: Request)
    requires r.SetLabels? || r.QuitAll? || r.Pulse?
    ensures BridgeEffect(b, LoaderCall(b.(labels := labels), r), false)
  {
    var b' := LoaderCall(b.(labels := labels), r);
    if b.loaderPresent { SendsOne(b, b', r); } else { SendsNothing(b, b'); }
  }

  lemma AppearedEffect(b: BridgeState)
    ensures var b' := OnLoaderAppeared(b);
            BridgeEffect(b, b', false) && Announces(b, b') && (forall d :: RegisteredAfter(b'.out, d))
  {
    var r := Register(Sent(b.workspace), b.visible);
    var b1 := b.(loaderPresent := true, out := b.out + [r]);
    SendsOne(b, b1, r);
    FoldSnoc(StateStep, None, [], r);
    assert b1.out[|b.out|..] == [] + [r];
    SendsTwo(b, b1, OnLoaderAppeared(b));
  }

  lemma WindowCallEffect(b: BridgeState, wm: WindowMethod)
    ensures BridgeEffect(b, OnWindowCall(b, wm), false)
    ensures OnWindowCall(b, wm).loaderPresent == b.loaderPresent
    ensures OnWindowCall(b, wm).trayAvailable == b.trayAvailable
  {
    match wm {
      case Show => UpdateEffect(b, b.workspace, true);
      case Hide =>
        UpdateEffect(b, b.workspace, false);
        SendsNothing(b, b);
      case Quit => SendsNothing(b, QuitProcess(b));
    }
  }

  lemma MessageEffect(b: BridgeState, now: nat, m: ToWindow)
    ensures BridgeEffect(b, OnMessage(b, now, m), false)
    ensures OnMessage(b, now, m).loaderPresent <==> m.Appeared? || (b.loaderPresent && !m.Vanished?)
    ensures OnMessage(b, now, m).trayAvailable == AvailStep(b.trayAvailable, m)
  {
    match m {
      case Appeared(_) => AppearedEffect(b);
      case Vanished => SendsNothing(b, OnLoaderVanished(b, now));
      case RegisterReply(_) => SendsNothing(b, OnMessage(b, now, m));
      case AvailabilityChanged(_) => SendsNothing(b, OnMessage(b, now, m));
      case Method(wm) => WindowCallEffect(b, wm);
    }
  }

  lemma QuitAllEffect(b: BridgeState)
    ensures BridgeEffect(b, OnOp(b, DoQuitAll), false)
    ensures OnOp(b, DoQuitAll).loaderPresent == b.loaderPresent && OnOp(b, DoQuitAll).trayAvailable == b.trayAvailable
  {
    CallEffect(b, b.labels, QuitAll);
    SendsNothing(b, QuitProcess(b));
  }

  lemma SetLabelsEffect(b: BridgeState, labels: map<string, string>)
    ensures var b' := OnOp(b, DoSetLabels(labels));
            BridgeEffect(b, b', false) && b'.loaderPresent == b.loaderPresent && b'.trayAvailable == b.trayAvailable
  {
    CallEffect(b, b.labels + labels, SetLabels(b.labels + labels));
    SendsNothing(b, b.(labels := b.labels + labels));
  }

  lemma OpEffect(b: BridgeState, op: WindowOp)
    ensures BridgeEffect(b, OnOp(b, op), op.FirstFrame?)
    ensures OnOp(b, op).loaderPresent == b.loaderPresent && OnOp(b, op).trayAvailable == b.trayAvailable
  {
    match op {
      case DoShow => WindowCallEffect(b, Show);
      case DoHide => WindowCallEffect(b, Hide);
      case DoQuit => WindowCallEffect(b, Quit);
      case DoQuitAll => QuitAllEffect(b);
      case DoPulse => CallEffect(b, b.labels, Pulse);
      case DoClose =>
        WindowCallEffect(b, Hide);
        SendsNothing(b, b);
      case FirstFrame => assert OnOp(b, op).out[|b.out|..] == [];
      case DoSetWorkspace(workspace) => UpdateEffect(b, workspace, b.visible);
      case DoSetLabels(labels) => SetLabelsEffect(b, labels);
      case DoSetCloseToTray(on) => SendsNothing(b, OnOp(b, op));
    }
  }

  // ---- the window handles a message, acts, and the bus takes its calls ----------------------------

  lemma HandledWinInv(nextGen: Gen, o: Option<Proc>, x: Wid, win: Win, now: nat)
    requires WinInv(nextGen, o, x, win) && |win.inbox| > 0
    ensures WinInv(nextGen, o, x, WinHandle(win, now))
  {
    var m, win' := win.inbox[0], WinHandle(win, now);
    MessageEffect(win.bridge, now, m);
    if m.Appeared? { AppearedEffect(win.bridge); }
    FoldHead(NameStep, win.known, win.inbox);
    FoldHead(AvailStep, win.bridge.trayAvailable, win.inbox);
    assert NameOk(o, win');
    assert AvailOk(o, x, win');
    assert AgreeOk(o, x, win');
    assert AnswerOk(o, x, win');
  }

  lemma ActedWinInv(nextGen: Gen, o: Option<Proc>, x: Wid, win: Win, op: WindowOp)
    requires WinInv(nextGen, o, x, win)
    ensures WinInv(nextGen, o, x, WinAct(win, op))
  {
    var win' := WinAct(win, op);
    OpEffect(win.bridge, op);
    assert AgreeOk(o, x, win');
  }

  lemma TakenFromWinInv(nextGen: Gen, p: Proc, x: Wid, win: Win)
    requires WinInv(nextGen, Some(p), x, win) && |win.bridge.out| > 0
    ensures WinInv(nextGen, Some(p.(inbox := p.inbox + [FromWindow(x, win.bridge.out[0])])), x,
                   win.(bridge := win.bridge.(out := win.bridge.out[1..])))
  {
    var r, m := win.bridge.out[0], FromWindow(x, win.bridge.out[0]);
    var p' := p.(inbox := p.inbox + [m]);
    var win' := win.(bridge := win.bridge.(out := win.bridge.out[1..]));
    var row, ans := RowOf(p.core.rows, x), x in p.answered;
    FoldSnoc(StateFromStepFor(x), row, p.inbox, m);
    FoldHead(StateStep, StateFrom(x, p.inbox, row), win.bridge.out);
    assert LastSent(p', x, win') == LastSent(p, x, win);
    FoldSnoc(RegisteredFromStepFor(x), ans, p.inbox, m);
    FoldHead(RegisteredStep, RegisteredFrom(x, p.inbox, ans), win.bridge.out);
    assert RegisteredFromStep(x, RegisteredFrom(x, p.inbox, ans), m) == RegisteredStep(RegisteredFrom(x, p.inbox, ans), r);
  }

  lemma TakeFromWindowKeepsInv(w: World, x: Wid)
    requires Inv(w) && x in w.wins && |w.wins[x].bridge.out| > 0
    ensures Inv(TakeFromWindow(w, x))
  {
    var w' := TakeFromWindow(w, x);
    assert w'.wins.Keys == w.wins.Keys;
    if w.owner.Some? {
      AppendProcInv(w.owner.value, FromWindow(x, w.wins[x].bridge.out[0]), w.wins.Keys, w.nextWid, w.now);
      TakenWinsInv(w, x);
    }
  }

  lemma TakenWinsInv(w: World, x: Wid)
    requires Inv(w) && x in w.wins && |w.wins[x].bridge.out| > 0 && w.owner.Some?
    ensures var w' := TakeFromWindow(w, x); WinsInv(w'.nextGen, w'.owner, w'.wins, w'.nextWid)
  {
    var w', p := TakeFromWindow(w, x), w.owner.value;
    var m := FromWindow(x, w.wins[x].bridge.out[0]);
    forall y | y in w.wins ensures WinInv(w.nextGen, Some(p.(inbox := p.inbox + [m])), y, w'.wins[y]) {
      if y == x { TakenFromWinInv(w.nextGen, p, x, w.wins[x]); }
      else { AppendOther(w.nextGen, p, m, y, w.wins[y]); }
    }
  }

  lemma AppendProcInv(p: Proc, m: ToLoader, live: set<Wid>, n: Wid, now: nat)
    requires ProcInv(p, live, n, now) && m.FromWindow? && m.from < n
    ensures ProcInv(p.(inbox := p.inbox + [m]), live, n, now)
  {
    var p' := p.(inbox := p.inbox + [m]);
    assert Started(p');
    assert forall y :: Gone(y) in p.inbox <==> Gone(y) in p'.inbox;
  }

  // ---- every step, every run ----------------------------------------------------------------------

  lemma WinKeepsInv(w: World, x: Wid, win': Win)
    requires Inv(w) && x in w.wins && WinInv(w.nextGen, w.owner, x, win')
    ensures Inv(w.(wins := w.wins[x := win']))
  {
    assert w.wins[x := win'].Keys == w.wins.Keys;
  }

  lemma StepKeepsInv(w: World, e: Event)
    requires Inv(w)
    ensures Inv(Apply(w, e))
  {
    match e {
      case Tick(dt) =>
      case LoaderStarts => StartLoaderKeepsInv(w);
      case LoaderDies => KillLoaderKeepsInv(w);
      case LoaderHandles =>
        if w.owner.Some? && |w.owner.value.inbox| > 0 { HandleKeepsInv(w); }
      case LoaderEnv(env) =>
        if w.owner.Some? {
          var s := w.owner.value.core;
          EnvHasEffect(s, w.now, env);
          Facts.ActKeepsInv(s, w.now, Facts.FromSession(env));
          EffectKeepsInv(w, OnEnv(s, w.now, env));
        }
      case LoaderTimer =>
        if w.owner.Some? { TimerKeepsInv(w); }
      case RouteFromLoader =>
        if w.owner.Some? && |w.owner.value.core.out| > 0 { TakeFromLoaderKeepsInv(w); }
      case WindowStarts => StartWindowKeepsInv(w);
      case WindowDies(x) => KillWindowKeepsInv(w, x);
      case WindowHandles(x) =>
        if x in w.wins && |w.wins[x].inbox| > 0 {
          HandledWinInv(w.nextGen, w.owner, x, w.wins[x], w.now);
          WinKeepsInv(w, x, WinHandle(w.wins[x], w.now));
        }
      case WindowActs(x, op) =>
        if x in w.wins {
          ActedWinInv(w.nextGen, w.owner, x, w.wins[x], op);
          WinKeepsInv(w, x, WinAct(w.wins[x], op));
        }
      case RouteFromWindow(x) =>
        if x in w.wins && |w.wins[x].bridge.out| > 0 { TakeFromWindowKeepsInv(w, x); }
    }
  }

  lemma {:induction false} RunKeepsInv(events: seq<Event>)
    ensures Inv(Run(events))
  {
    if |events| > 0 {
      RunKeepsInv(events[..|events| - 1]);
      StepKeepsInv(Run(events[..|events| - 1]), events[|events| - 1]);
    }
  }
}
