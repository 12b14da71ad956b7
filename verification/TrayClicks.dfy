/** What a click on the tray, or "quit all" from a window, comes to in the end: from any state in which all
    is quiet, over any order in which the bus and the processes deliver what follows, until all is quiet
    again. */
module TrayClicks {
  import opened Common
  import opened TrayLoaderSpec
  import opened TrayBridgeSpec
  import opened TrayProtocol
  import opened TrayInvariant
  import opened TrayWindowSteps
  import opened TrayTheorems
  import opened TrayHidden
  import opened TrayActs
  import Facts = TrayLoaderFacts

  /** Messages are routed and handled, and time passes; nobody acts, starts or dies. */
  predicate Delivery(e: Event) {
    e.Tick? || e.LoaderHandles? || e.RouteFromLoader? || e.WindowHandles? || e.RouteFromWindow?
  }

  ghost predicate AllDeliveries(more: seq<Event>) { forall i :: 0 <= i < |more| ==> Delivery(more[i]) }

  /** One call of `wm` is to reach each of `targets`. */
  datatype Goal = Goal(wm: WindowMethod, targets: set<Wid>)

  /** The call has had its effect: shown, hidden if there was a tray, or quitting; and nothing else. */
  predicate Reached(was: BridgeState, b: BridgeState, wm: WindowMethod) {
    match wm
    case Show => b.visible && b.quitting == was.quitting
    case Hide => b.visible == (was.visible && !was.trayAvailable) && b.quitting == was.quitting
    case Quit => b.visible == was.visible && b.quitting
  }

  predicate Untouched(was: BridgeState, b: BridgeState) { b.visible == was.visible && b.quitting == was.quitting }

  /** Every target has been reached, and no other window touched. */
  ghost predicate AllReached(was: map<Wid, Win>, now: map<Wid, Win>, g: Goal) {
    && now.Keys == was.Keys
    && forall x :: x in now ==>
         if x in g.targets then Reached(was[x].bridge, now[x].bridge, g.wm) else Untouched(was[x].bridge, now[x].bridge)
  }

  // ---- while the messages are under way -----------------------------------------------------------

  /** Only "quit all" may still be asked of the loader, and only if all windows are to quit. */
  predicate Asked(r: Request, g: Goal, live: set<Wid>) {
    r.Update? || (r.QuitAll? && g.wm == Quit && live == g.targets)
  }

  ghost predicate WinOk(was: BridgeState, win: Win, g: Goal, x: Wid, live: set<Wid>) {
    && win.bridge.loaderPresent && win.bridge.trayAvailable == was.trayAvailable
    && (forall m :: m in win.inbox ==> m == Method(g.wm)) && (|win.inbox| > 0 ==> x in g.targets)
    && (forall r :: r in win.bridge.out ==> Asked(r, g, live))
    && (Untouched(was, win.bridge) || (x in g.targets && Reached(was, win.bridge, g.wm)))
  }

  ghost predicate ProcOk(p: Proc, g: Goal, live: set<Wid>) {
    && (forall x :: x in live ==> SenderIndex(p.core.rows, x) < |p.core.rows|)
    && (forall i :: 0 <= i < |p.core.rows| ==> p.core.rows[i].sender in live)
    && (forall m :: m in p.core.out ==> m.Call? && m.wm == g.wm && m.to in g.targets)
    && (forall m :: m in p.inbox ==> m.FromWindow? && m.from in live && Asked(m.req, g, live))
  }

  ghost predicate QuitInbox(q: seq<ToLoader>) { exists m :: m in q && m.FromWindow? && m.req.QuitAll? }

  ghost predicate QuitOut(wins: map<Wid, Win>) { exists y :: y in wins && QuitAll in wins[y].bridge.out }

  ghost predicate Pending(p: Proc, wins: map<Wid, Win>, g: Goal, x: Wid)
    requires x in wins
  {
    Call(x, g.wm) in p.core.out || |wins[x].inbox| > 0 || QuitInbox(p.inbox) || QuitOut(wins)
  }

  ghost predicate WinsOk(was: map<Wid, Win>, wins: map<Wid, Win>, g: Goal) {
    && wins.Keys == was.Keys && g.targets <= was.Keys
    && forall x :: x in wins ==> WinOk(was[x].bridge, wins[x], g, x, was.Keys)
  }

  ghost predicate NoneMissed(was: map<Wid, Win>, p: Proc, wins: map<Wid, Win>, g: Goal)
    requires wins.Keys == was.Keys && g.targets <= was.Keys
  {
    forall x :: x in g.targets ==> Pending(p, wins, g, x) || Reached(was[x].bridge, wins[x].bridge, g.wm)
  }

  ghost predicate Settling(was: map<Wid, Win>, p: Proc, wins: map<Wid, Win>, g: Goal) {
    WinsOk(was, wins, g) && ProcOk(p, g, was.Keys) && NoneMissed(was, p, wins, g)
  }

  lemma SettledIsReached(was: map<Wid, Win>, p: Proc, wins: map<Wid, Win>, g: Goal)
    requires Settling(was, p, wins, g) && p.inbox == [] && p.core.out == []
    requires forall x :: x in wins ==> wins[x].inbox == [] && wins[x].bridge.out == []
    ensures AllReached(was, wins, g)
  {
    forall x | x in wins
      ensures if x in g.targets then Reached(was[x].bridge, wins[x].bridge, g.wm)
              else Untouched(was[x].bridge, wins[x].bridge)
    {
      assert WinOk(was[x].bridge, wins[x], g, x, was.Keys);
      if x in g.targets { assert !Pending(p, wins, g, x); }
    }
  }

  // ---- the loader handles a message ---------------------------------------------------------------

  lemma UpdateKeepsRows(s: LoaderState, from: Wid, workspace: string, visible: bool, x: Wid)
    requires SenderIndex(s.rows, from) < |s.rows| && SenderIndex(s.rows, x) < |s.rows|
    ensures var s' := Record(s, from, workspace, visible);
            && s'.out == s.out && SenderIndex(s'.rows, x) < |s'.rows|
            && |s'.rows| == |s.rows| && (forall i :: 0 <= i < |s.rows| ==> s'.rows[i].sender == s.rows[i].sender)
  {
    var s' := Record(s, from, workspace, visible);
    var i := SenderIndex(s.rows, x);
    assert s'.rows[i].sender == x;
  }

  lemma EveryoneCalled(rows: seq<Row>, x: Wid, wm: WindowMethod)
    requires SenderIndex(rows, x) < |rows|
    ensures Call(x, wm) in CallAll(rows, wm)
  {
    assert CallAll(rows, wm)[SenderIndex(rows, x)] == Call(x, wm);
  }

  /** Handling anything else leaves a "quit all" in the queue. */
  lemma QuitStays(q: seq<ToLoader>)
    requires |q| > 0 && q[0].FromWindow? && !q[0].req.QuitAll?
    ensures QuitInbox(q) ==> QuitInbox(q[1..])
  {
    if QuitInbox(q) {
      var m :| m in q && m.FromWindow? && m.req.QuitAll?;
      assert q == [q[0]] + q[1..];
      assert m in q[1..];
    }
  }

  lemma UpdateSettles(was: map<Wid, Win>, p: Proc, wins: map<Wid, Win>, g: Goal, now: nat)
    requires Settling(was, p, wins, g) && |p.inbox| > 0 && p.inbox[0].FromWindow? && p.inbox[0].req.Update?
    ensures Settling(was, Handle(p, now), wins, g)
  {
    UpdateOk(p, g, was.Keys, now);
    QuitStays(p.inbox);
    StillPending(was, p, Handle(p, now), wins, g);
  }

  lemma UpdateOk(p: Proc, g: Goal, live: set<Wid>, now: nat)
    requires ProcOk(p, g, live) && |p.inbox| > 0 && p.inbox[0].FromWindow? && p.inbox[0].req.Update?
    ensures ProcOk(Handle(p, now), g, live) && Handle(p, now).core.out == p.core.out
  {
    var p' := Handle(p, now);
    var m := p.inbox[0];
    assert m in p.inbox;
    UpdateKeepsRows(p.core, m.from, m.req.workspace, m.req.visible, m.from);
    forall x | x in live ensures SenderIndex(p'.core.rows, x) < |p'.core.rows| {
      UpdateKeepsRows(p.core, m.from, m.req.workspace, m.req.visible, x);
    }
    ShorterInboxOk(p.inbox, g, live);
  }

  lemma ShorterInboxOk(q: seq<ToLoader>, g: Goal, live: set<Wid>)
    requires |q| > 0 && forall m :: m in q ==> m.FromWindow? && m.from in live && Asked(m.req, g, live)
    ensures forall m :: m in q[1..] ==> m.FromWindow? && m.from in live && Asked(m.req, g, live)
  {}

  lemma StillPending(was: map<Wid, Win>, p: Proc, p': Proc, wins: map<Wid, Win>, g: Goal)
    requires wins.Keys == was.Keys && g.targets <= was.Keys && NoneMissed(was, p, wins, g)
    requires p'.core.out == p.core.out && (QuitInbox(p.inbox) ==> QuitInbox(p'.inbox))
    ensures NoneMissed(was, p', wins, g)
  {
    forall x | x in g.targets ensures Pending(p', wins, g, x) || Reached(was[x].bridge, wins[x].bridge, g.wm) {
      assert Pending(p, wins, g, x) || Reached(was[x].bridge, wins[x].bridge, g.wm);
    }
  }

  lemma QuitAllSettles(was: map<Wid, Win>, p: Proc, wins: map<Wid, Win>, g: Goal, now: nat)
    requires Settling(was, p, wins, g) && |p.inbox| > 0 && p.inbox[0].FromWindow? && p.inbox[0].req.QuitAll?
    ensures Settling(was, Handle(p, now), wins, g)
  {
    var p' := Handle(p, now);
    QuitAllOk(p, g, was.Keys, now);
    forall x | x in g.targets ensures Pending(p', wins, g, x) { EveryoneCalled(p.core.rows, x, Quit); }
  }

  lemma QuitAllOk(p: Proc, g: Goal, live: set<Wid>, now: nat)
    requires ProcOk(p, g, live) && |p.inbox| > 0 && p.inbox[0].FromWindow? && p.inbox[0].req.QuitAll?
    ensures g == Goal(Quit, live) && ProcOk(Handle(p, now), g, live)
    ensures Handle(p, now).core.out == p.core.out + CallAll(p.core.rows, Quit)
  {
    assert p.inbox[0] in p.inbox;
    assert Handle(p, now).core.rows == p.core.rows;
    AllCalled(p.core.rows, Quit, live);
    ShorterInboxOk(p.inbox, g, live);
  }

  lemma AllCalled(rows: seq<Row>, wm: WindowMethod, live: set<Wid>)
    requires forall i :: 0 <= i < |rows| ==> rows[i].sender in live
    ensures forall m :: m in CallAll(rows, wm) ==> m.Call? && m.wm == wm && m.to in live
  {}

  // ---- the other deliveries -----------------------------------------------------------------------

  lemma DeliveredOk(was: BridgeState, win: Win, g: Goal, x: Wid, live: set<Wid>)
    requires WinOk(was, win, g, x, live) && x in g.targets
    ensures WinOk(was, Deliver(win, Method(g.wm)), g, x, live)
  {}

  lemma WinsStayOk(was: map<Wid, Win>, wins: map<Wid, Win>, g: Goal, x: Wid, win: Win)
    requires WinsOk(was, wins, g) && x in wins && WinOk(was[x].bridge, win, g, x, was.Keys)
    ensures WinsOk(was, wins[x := win], g)
  {}

  /** What was pending or done stays so if `x` is pending or done and no message to another window is lost. */
  lemma NoneMissedStep(was: map<Wid, Win>, p: Proc, p': Proc, wins: map<Wid, Win>, g: Goal, x: Wid, win: Win)
    requires wins.Keys == was.Keys && g.targets <= was.Keys && x in wins && NoneMissed(was, p, wins, g)
    requires QuitInbox(p.inbox) || QuitOut(wins) ==> QuitInbox(p'.inbox) || QuitOut(wins[x := win])
    requires forall y :: y != x && Call(y, g.wm) in p.core.out ==> Call(y, g.wm) in p'.core.out
    requires x in g.targets && (Pending(p, wins, g, x) || Reached(was[x].bridge, wins[x].bridge, g.wm)) ==>
               Pending(p', wins[x := win], g, x) || Reached(was[x].bridge, win.bridge, g.wm)
    ensures NoneMissed(was, p', wins[x := win], g)
  {
    var wins' := wins[x := win];
    forall y | y in g.targets ensures Pending(p', wins', g, y) || Reached(was[y].bridge, wins'[y].bridge, g.wm) {
      assert Pending(p, wins, g, y) || Reached(was[y].bridge, wins[y].bridge, g.wm);
    }
  }

  lemma CallSettles(was: map<Wid, Win>, p: Proc, p': Proc, wins: map<Wid, Win>, g: Goal, to: Wid)
    requires Settling(was, p, wins, g) && |p.core.out| > 0 && p.core.out[0] == Call(to, g.wm) && to in g.targets
    requires p' == p.(core := p.core.(out := p.core.out[1..]))
    ensures Settling(was, p', wins[to := Deliver(wins[to], Method(g.wm))], g)
  {
    var wins' := wins[to := Deliver(wins[to], Method(g.wm))];
    OthersStillCalled(p.core.out, to, g.wm);
    DeliveredOk(was[to].bridge, wins[to], g, to, was.Keys);
    SameQuitOut(wins, wins');
    WinsStayOk(was, wins, g, to, Deliver(wins[to], Method(g.wm)));
    NoneMissedStep(was, p, p', wins, g, to, Deliver(wins[to], Method(g.wm)));
    ShorterOutOk(p, p', g, was.Keys);
  }

  lemma OthersStillCalled(q: seq<FromLoader>, to: Wid, wm: WindowMethod)
    requires |q| > 0 && q[0] == Call(to, wm)
    ensures forall y :: y != to && Call(y, wm) in q ==> Call(y, wm) in q[1..]
  {
    assert q == [q[0]] + q[1..];
  }

  lemma ShorterOutOk(p: Proc, p': Proc, g: Goal, live: set<Wid>)
    requires ProcOk(p, g, live) && |p.core.out| > 0 && p' == p.(core := p.core.(out := p.core.out[1..]))
    ensures ProcOk(p', g, live)
  {}

  lemma SameQuitOut(wins: map<Wid, Win>, wins': map<Wid, Win>)
    requires wins'.Keys == wins.Keys
    requires forall x :: x in wins && QuitAll in wins[x].bridge.out ==> QuitAll in wins'[x].bridge.out
    ensures QuitOut(wins) ==> QuitOut(wins')
  {
    if QuitOut(wins) {
      var y :| y in wins && QuitAll in wins[y].bridge.out;
      assert y in wins' && QuitAll in wins'[y].bridge.out;
    }
  }

  lemma HandledOk(was: BridgeState, win: Win, g: Goal, x: Wid, live: set<Wid>, now: nat)
    requires WinOk(was, win, g, x, live) && |win.inbox| > 0
    ensures var win' := WinHandle(win, now);
            && WinOk(was, win', g, x, live) && Reached(was, win'.bridge, g.wm)
            && (QuitAll in win.bridge.out ==> QuitAll in win'.bridge.out)
  {
    assert win.inbox[0] in win.inbox;
    MethodObeyed(win.bridge, now, g.wm);
    var win' := WinHandle(win, now);
    forall m | m in win'.inbox ensures m in win.inbox {}
    forall r | r in win'.bridge.out ensures r in win.bridge.out || r.Update? {}
  }

  lemma HandledSettles(was: map<Wid, Win>, p: Proc, wins: map<Wid, Win>, g: Goal, x: Wid, now: nat)
    requires Settling(was, p, wins, g) && x in wins && |wins[x].inbox| > 0
    ensures Settling(was, p, wins[x := WinHandle(wins[x], now)], g)
  {
    var wins' := wins[x := WinHandle(wins[x], now)];
    HandledOk(was[x].bridge, wins[x], g, x, was.Keys, now);
    SameQuitOut(wins, wins');
    WinsStayOk(was, wins, g, x, WinHandle(wins[x], now));
    NoneMissedStep(was, p, p, wins, g, x, WinHandle(wins[x], now));
  }

  function Sending(win: Win): Win
    requires |win.bridge.out| > 0
  {
    win.(bridge := win.bridge.(out := win.bridge.out[1..]))
  }

  lemma SendingOk(was: BridgeState, win: Win, g: Goal, x: Wid, live: set<Wid>)
    requires WinOk(was, win, g, x, live) && |win.bridge.out| > 0
    ensures WinOk(was, Sending(win), g, x, live) && Asked(win.bridge.out[0], g, live)
    ensures QuitAll in win.bridge.out ==> win.bridge.out[0] == QuitAll || QuitAll in Sending(win).bridge.out
  {
    assert win.bridge.out[0] in win.bridge.out;
    assert win.bridge.out == [win.bridge.out[0]] + win.bridge.out[1..];
  }

  lemma SentSettles(was: map<Wid, Win>, p: Proc, p': Proc, wins: map<Wid, Win>, g: Goal, x: Wid)
    requires Settling(was, p, wins, g) && x in wins && |wins[x].bridge.out| > 0
    requires p' == p.(inbox := p.inbox + [FromWindow(x, wins[x].bridge.out[0])])
    ensures Settling(was, p', wins[x := Sending(wins[x])], g)
  {
    var wins' := wins[x := Sending(wins[x])];
    var r := wins[x].bridge.out[0];
    SendingOk(was[x].bridge, wins[x], g, x, was.Keys);
    QuitMoves(p.inbox, wins, x);
    WinsStayOk(was, wins, g, x, Sending(wins[x]));
    NoneMissedStep(was, p, p', wins, g, x, Sending(wins[x]));
    LongerInboxOk(p, g, was.Keys, FromWindow(x, r));
  }

  lemma LongerInboxOk(p: Proc, g: Goal, live: set<Wid>, m: ToLoader)
    requires ProcOk(p, g, live) && m.FromWindow? && m.from in live && Asked(m.req, g, live)
    ensures ProcOk(p.(inbox := p.inbox + [m]), g, live)
  {
    forall n | n in p.inbox + [m] ensures n in p.inbox || n == m {}
  }

  lemma QuitMoves(q: seq<ToLoader>, wins: map<Wid, Win>, x: Wid)
    requires x in wins && |wins[x].bridge.out| > 0
    ensures var q' := q + [FromWindow(x, wins[x].bridge.out[0])];
            QuitInbox(q) || QuitOut(wins) ==> QuitInbox(q') || QuitOut(wins[x := Sending(wins[x])])
  {
    var out := wins[x].bridge.out;
    var q', wins' := q + [FromWindow(x, out[0])], wins[x := Sending(wins[x])];
    assert out == [out[0]] + out[1..];
    if QuitInbox(q) {
      var m :| m in q && m.FromWindow? && m.req.QuitAll?;
      assert m in q';
    } else if out[0] == QuitAll {
      assert FromWindow(x, QuitAll) in q';
    } else {
      SameQuitOut(wins, wins');
    }
  }

  // ---- every delivery -----------------------------------------------------------------------------

  ghost predicate SettlingWorld(was: map<Wid, Win>, w: World, g: Goal) {
    w.owner.Some? && Settling(was, w.owner.value, w.wins, g)
  }

  lemma LoaderHandlesSettles(was: map<Wid, Win>, w: World, g: Goal)
    requires SettlingWorld(was, w, g) && |w.owner.value.inbox| > 0
    ensures SettlingWorld(was, Apply(w, LoaderHandles), g)
  {
    var p := w.owner.value;
    HandleSettles(was, p, w.wins, g, w.now);
    HandlesIs(w);
  }

  lemma HandlesIs(w: World)
    requires w.owner.Some? && |w.owner.value.inbox| > 0
    ensures Apply(w, LoaderHandles) == w.(owner := Some(Handle(w.owner.value, w.now)))
  {}

  lemma HandleSettles(was: map<Wid, Win>, p: Proc, wins: map<Wid, Win>, g: Goal, now: nat)
    requires Settling(was, p, wins, g) && |p.inbox| > 0
    ensures Settling(was, Handle(p, now), wins, g)
  {
    FirstAsked(p, g, was.Keys);
    if p.inbox[0].req.Update? {
      UpdateSettles(was, p, wins, g, now);
    } else {
      QuitAllSettles(was, p, wins, g, now);
    }
  }

  lemma FirstAsked(p: Proc, g: Goal, live: set<Wid>)
    requires ProcOk(p, g, live) && |p.inbox| > 0
    ensures p.inbox[0].FromWindow? && Asked(p.inbox[0].req, g, live)
  {
    assert p.inbox[0] in p.inbox;
  }

  lemma RouteFromLoaderSettles(was: map<Wid, Win>, w: World, g: Goal)
    requires SettlingWorld(was, w, g) && |w.owner.value.core.out| > 0
    ensures SettlingWorld(was, Apply(w, RouteFromLoader), g)
  {
    var p := w.owner.value;
    FirstCall(p, g, was.Keys);
    TakesCall(w, p.core.out[0].to, g.wm);
    CallSettles(was, p, p.(core := p.core.(out := p.core.out[1..])), w.wins, g, p.core.out[0].to);
  }

  lemma FirstCall(p: Proc, g: Goal, live: set<Wid>)
    requires ProcOk(p, g, live) && |p.core.out| > 0
    ensures p.core.out[0].Call? && p.core.out[0] == Call(p.core.out[0].to, g.wm) && p.core.out[0].to in g.targets
  {
    assert p.core.out[0] in p.core.out;
  }

  lemma TakesCall(w: World, to: Wid, wm: WindowMethod)
    requires w.owner.Some? && |w.owner.value.core.out| > 0 && w.owner.value.core.out[0] == Call(to, wm) && to in w.wins
    ensures var p := w.owner.value;
            Apply(w, RouteFromLoader)
            == w.(owner := Some(p.(core := p.core.(out := p.core.out[1..]))),
                  wins := w.wins[to := Deliver(w.wins[to], Method(wm))])
  {}

  lemma DeliverySettles(was: map<Wid, Win>, w: World, g: Goal, e: Event)
    requires SettlingWorld(was, w, g) && Delivery(e)
    ensures SettlingWorld(was, Apply(w, e), g)
  {
    NothingToTake(w);
    match e {
      case Tick(dt) => assert Apply(w, e) == w.(now := w.now + dt);
      case LoaderHandles => if |w.owner.value.inbox| > 0 { LoaderHandlesSettles(was, w, g); }
      case RouteFromLoader => if |w.owner.value.core.out| > 0 { RouteFromLoaderSettles(was, w, g); }
      case WindowHandles(x) => WindowHandlesSettles(was, w, g, x);
      case RouteFromWindow(x) => RouteFromWindowSettles(was, w, g, x);
    }
  }

  lemma NothingToTake(w: World)
    requires w.owner.Some?
    ensures |w.owner.value.inbox| == 0 ==> Apply(w, LoaderHandles) == w
    ensures |w.owner.value.core.out| == 0 ==> Apply(w, RouteFromLoader) == w
  {}

  lemma WindowHandlesSettles(was: map<Wid, Win>, w: World, g: Goal, x: Wid)
    requires SettlingWorld(was, w, g)
    ensures SettlingWorld(was, Apply(w, WindowHandles(x)), g)
  {
    WindowHandlesIs(w, x);
    if x in w.wins && |w.wins[x].inbox| > 0 { HandledSettles(was, w.owner.value, w.wins, g, x, w.now); }
  }

  lemma WindowHandlesIs(w: World, x: Wid)
    ensures Apply(w, WindowHandles(x))
            == if x in w.wins && |w.wins[x].inbox| > 0 then w.(wins := w.wins[x := WinHandle(w.wins[x], w.now)]) else w
  {}

  lemma RouteFromWindowSettles(was: map<Wid, Win>, w: World, g: Goal, x: Wid)
    requires SettlingWorld(was, w, g)
    ensures SettlingWorld(was, Apply(w, RouteFromWindow(x)), g)
  {
    RouteFromWindowIs(w, x);
    if x in w.wins && |w.wins[x].bridge.out| > 0 {
      var p := w.owner.value;
      SentSettles(was, p, p.(inbox := p.inbox + [FromWindow(x, w.wins[x].bridge.out[0])]), w.wins, g, x);
    }
  }

  lemma RouteFromWindowIs(w: World, x: Wid)
    requires w.owner.Some?
    ensures var p := w.owner.value;
            Apply(w, RouteFromWindow(x))
            == if x in w.wins && |w.wins[x].bridge.out| > 0 then
                 w.(owner := Some(p.(inbox := p.inbox + [FromWindow(x, w.wins[x].bridge.out[0])])),
                    wins := w.wins[x := Sending(w.wins[x])])
               else w
  {}

  lemma {:induction false} DeliveriesSettle(was: map<Wid, Win>, events: seq<Event>, more: seq<Event>, g: Goal)
    requires SettlingWorld(was, Run(events), g) && AllDeliveries(more)
    ensures SettlingWorld(was, Run(events + more), g)
  {
    if |more| == 0 {
      AppendNothing(events);
    } else {
      var n := |more| - 1;
      DeliveriesSettle(was, events, more[..n], g);
      AppendAssoc(events, more[..n], [more[n]]);
      LastApart(more);
      RunStep(events + more[..n], more[n]);
      DeliverySettles(was, Run(events + more[..n]), g, more[n]);
    }
  }

  lemma EventuallyReached(was: map<Wid, Win>, events: seq<Event>, more: seq<Event>, g: Goal)
    requires SettlingWorld(was, Run(events), g) && AllDeliveries(more) && Quiet(Run(events + more))
    ensures AllReached(was, Run(events + more).wins, g)
  {
    DeliveriesSettle(was, events, more, g);
    SettledIsReached(was, Run(events + more).owner.value, Run(events + more).wins, g);
  }

  // ---- how it starts ------------------------------------------------------------------------------

  /** What holds in a quiet state with a loader. */
  ghost predicate Agreed(w: World) {
    && w.owner.Some? && w.owner.value.core.acquired && Quiet(w)
    && UniqueSenders(w.owner.value.core.rows)
    && (forall i :: 0 <= i < |w.owner.value.core.rows| ==> w.owner.value.core.rows[i].sender in w.wins.Keys)
    && (forall x :: x in w.wins ==> w.wins[x].bridge.loaderPresent)
    && (forall x :: x in w.wins ==> SenderIndex(w.owner.value.core.rows, x) < |w.owner.value.core.rows|)
  }

  lemma QuietIsAgreed(events: seq<Event>)
    requires Quiet(Run(events)) && Run(events).owner.Some?
    ensures Agreed(Run(events))
  {
    QuietMeansAgreed(events);
    RunKeepsInv(events);
    var w := Run(events);
    var p := w.owner.value;
    assert Started(p);
    forall x | x in w.wins ensures SenderIndex(p.core.rows, x) < |p.core.rows| {
      assert RowOf(p.core.rows, x).Some?;
    }
  }

  lemma WinsStartOk(w: World, g: Goal)
    requires Agreed(w) && g.targets <= w.wins.Keys
    ensures WinsOk(w.wins, w.wins, g)
  {}

  /** A click makes the loader call each target, and changes nothing that matters besides. */
  lemma ClickSettles(w: World, e: Env, g: Goal)
    requires Agreed(w) && g.targets <= w.wins.Keys && !e.HostReply?
    requires var core := w.owner.value.core;
             var core' := OnEnv(core, w.now, e);
             core'.rows == core.rows && OneEach(core'.out, g.wm, g.targets)
    ensures SettlingWorld(w.wins, Apply(w, LoaderEnv(e)), g)
  {
    var p := w.owner.value;
    var p' := p.(core := OnEnv(p.core, w.now, e));
    EnvIs(w, e);
    WinsStartOk(w, g);
    CalledOk(p', g, w.wins.Keys);
    forall x | x in g.targets ensures Pending(p', w.wins, g, x) {}
  }

  lemma EnvIs(w: World, e: Env)
    requires w.owner.Some? && w.owner.value.core.acquired && !e.HostReply?
    ensures var p := w.owner.value;
            Apply(w, LoaderEnv(e)) == w.(owner := Some(p.(core := OnEnv(p.core, w.now, e))))
  {}

  lemma CalledOk(p: Proc, g: Goal, live: set<Wid>)
    requires forall x :: x in live ==> SenderIndex(p.core.rows, x) < |p.core.rows|
    requires forall i :: 0 <= i < |p.core.rows| ==> p.core.rows[i].sender in live
    requires OneEach(p.core.out, g.wm, g.targets) && p.inbox == []
    ensures ProcOk(p, g, live)
  {}

  lemma ClickReaches(events: seq<Event>, e: Env, more: seq<Event>, g: Goal)
    requires Agreed(Run(events)) && g.targets <= Run(events).wins.Keys && !e.HostReply?
    requires var core := Run(events).owner.value.core;
             var core' := OnEnv(core, Run(events).now, e);
             core'.rows == core.rows && OneEach(core'.out, g.wm, g.targets)
    requires AllDeliveries(more) && Quiet(Run(events + [LoaderEnv(e)] + more))
    ensures AllReached(Run(events).wins, Run(events + [LoaderEnv(e)] + more).wins, g)
  {
    RunStep(events, LoaderEnv(e));
    ClickSettles(Run(events), e, g);
    EventuallyReached(Run(events).wins, events + [LoaderEnv(e)], more, g);
  }

  // ---- main results -------------------------------------------------------------------------------

  /** From every quiet state with a loader: "show all" (1000) leaves every live window visible, "hide all"
      (1001) hides every one if there is a tray, and "quit all" (1002) makes every one quit, once all that
      follows has been delivered, in whatever order; nothing else about visibility and quitting changes. */
  lemma MenuClickIsObeyed(events: seq<Event>, wm: WindowMethod, more: seq<Event>)
    requires Quiet(Run(events)) && Run(events).owner.Some? && AllDeliveries(more)
    requires var id := match wm case Show => 1000 case Hide => 1001 case Quit => 1002;
             Quiet(Run(events + [LoaderEnv(Clicked(id))] + more))
    ensures var id := match wm case Show => 1000 case Hide => 1001 case Quit => 1002;
            AllReached(Run(events).wins, Run(events + [LoaderEnv(Clicked(id))] + more).wins,
                       Goal(wm, Run(events).wins.Keys))
  {
    QuietIsAgreed(events);
    MenuReachesEveryWindow(events, wm);
    var id := match wm case Show => 1000 case Hide => 1001 case Quit => 1002;
    ClickReaches(events, Clicked(id), more, Goal(wm, Run(events).wins.Keys));
  }

  /** A click on the icon hides every window if there are some, all are visible and the loader knows it; else
      it shows every one. */
  lemma IconClickIsObeyed(events: seq<Event>, more: seq<Event>)
    requires Quiet(Run(events)) && Run(events).owner.Some? && AllDeliveries(more)
    requires Quiet(Run(events + [LoaderEnv(Activated)] + more))
    ensures var wins := Run(events).wins;
            AllReached(wins, Run(events + [LoaderEnv(Activated)] + more).wins,
                       Goal(if AllShown(wins) then Hide else Show, wins.Keys))
  {
    QuietIsAgreed(events);
    IconCalls(events);
    var wins := Run(events).wins;
    ClickReaches(events, Activated, more, Goal(if AllShown(wins) then Hide else Show, wins.Keys));
  }

  lemma IconCalls(events: seq<Event>)
    requires Quiet(Run(events)) && Run(events).owner.Some?
    ensures var w := Run(events);
            var core, core' := w.owner.value.core, OnEnv(w.owner.value.core, w.now, Activated);
            core'.rows == core.rows && OneEach(core'.out, if AllShown(w.wins) then Hide else Show, w.wins.Keys)
  {
    ToggleFollowsWindows(events);
  }

  /** A secondary click on the icon shows every window. */
  lemma SecondaryClickShowsAll(events: seq<Event>, more: seq<Event>)
    requires Quiet(Run(events)) && Run(events).owner.Some? && AllDeliveries(more)
    requires Quiet(Run(events + [LoaderEnv(SecondaryActivated)] + more))
    ensures AllReached(Run(events).wins, Run(events + [LoaderEnv(SecondaryActivated)] + more).wins,
                       Goal(Show, Run(events).wins.Keys))
  {
    QuietIsAgreed(events);
    var core := Run(events).owner.value.core;
    CallsAreOneEach(core.rows, Show, Run(events).wins.Keys);
    AppendToNothing(core, Show);
    ClickReaches(events, SecondaryActivated, more, Goal(Show, Run(events).wins.Keys));
  }

  lemma AppendToNothing(s: LoaderState, wm: WindowMethod)
    requires s.out == []
    ensures s.out + CallAll(s.rows, wm) == CallAll(s.rows, wm)
  {}

  /** A click on the row of a window, if no row above it has the same id, shows that window and leaves all
      others as they are. */
  lemma RowClickShowsWindow(events: seq<Event>, i: nat, more: seq<Event>)
    requires Quiet(Run(events)) && Run(events).owner.Some? && AllDeliveries(more)
    requires i < |Run(events).owner.value.core.rows|
    requires forall j :: 0 <= j < i ==> Run(events).owner.value.core.rows[j].id != Run(events).owner.value.core.rows[i].id
    requires Quiet(Run(events + [LoaderEnv(Clicked(Run(events).owner.value.core.rows[i].id))] + more))
    ensures var row := Run(events).owner.value.core.rows[i];
            AllReached(Run(events).wins, Run(events + [LoaderEnv(Clicked(row.id))] + more).wins, Goal(Show, {row.sender}))
  {
    QuietIsAgreed(events);
    var core := Run(events).owner.value.core;
    RowIdIsLow(events, i);
    RowCalled(core, Run(events).now, i);
    ClickReaches(events, Clicked(core.rows[i].id), more, Goal(Show, {core.rows[i].sender}));
  }

  lemma RowIdIsLow(events: seq<Event>, i: nat)
    requires Run(events).owner.Some? && i < |Run(events).owner.value.core.rows|
    ensures Run(events).owner.value.core.rows[i].id < FIRST_FIXED_ID
  {
    RunKeepsInv(events);
    assert Facts.Numbered(Run(events).owner.value.core);
  }

  lemma RowCalled(s: LoaderState, now: nat, i: nat)
    requires i < |s.rows| && s.out == [] && s.rows[i].id < FIRST_FIXED_ID
    requires forall j :: 0 <= j < i ==> s.rows[j].id != s.rows[i].id
    ensures var s' := MenuClicked(s, now, s.rows[i].id);
            s'.rows == s.rows && OneEach(s'.out, Show, {s.rows[i].sender})
  {
    assert IdIndex(s.rows, s.rows[i].id) == i;
    Facts.ClickShowsFirst(s, now, s.rows[i].id);
    assert s.out + [Call(s.rows[i].sender, Show)] == [Call(s.rows[i].sender, Show)];
    assert Call(s.rows[i].sender, Show) in [Call(s.rows[i].sender, Show)];
  }

  /** "Quit all" from the menu of one window makes every live window quit, through the loader. */
  lemma QuitAllQuitsEveryone(events: seq<Event>, x: Wid, more: seq<Event>)
    requires Quiet(Run(events)) && Run(events).owner.Some? && x in Run(events).wins && AllDeliveries(more)
    requires Quiet(Run(events + [WindowActs(x, DoQuitAll)] + more))
    ensures AllReached(Run(events).wins, Run(events + [WindowActs(x, DoQuitAll)] + more).wins,
                       Goal(Quit, Run(events).wins.Keys))
  {
    QuietIsAgreed(events);
    RunStep(events, WindowActs(x, DoQuitAll));
    QuitAllStarts(Run(events), x);
    EventuallyReached(Run(events).wins, events + [WindowActs(x, DoQuitAll)], more, Goal(Quit, Run(events).wins.Keys));
  }

  lemma QuitAllStarts(w: World, x: Wid)
    requires Agreed(w) && x in w.wins
    ensures SettlingWorld(w.wins, Apply(w, WindowActs(x, DoQuitAll)), Goal(Quit, w.wins.Keys))
  {
    var g := Goal(Quit, w.wins.Keys);
    var win' := WinAct(w.wins[x], DoQuitAll);
    WinsStartOk(w, g);
    QuitAllSent(w.wins[x], g, x, w.wins.Keys);
    WinsStayOk(w.wins, w.wins, g, x, win');
    EveryonePending(w.wins, w.owner.value, g, x, win');
    ActsIs(w, x, DoQuitAll);
  }

  lemma QuitAllSent(win: Win, g: Goal, x: Wid, live: set<Wid>)
    requires WinOk(win.bridge, win, g, x, live) && win.bridge.out == [] && g == Goal(Quit, live)
    ensures var win' := WinAct(win, DoQuitAll);
            WinOk(win.bridge, win', g, x, live) && QuitAll in win'.bridge.out
  {
    OpActs(win.bridge, DoQuitAll);
    assert WinAct(win, DoQuitAll).bridge.out == [QuitAll];
  }

  lemma EveryonePending(wins: map<Wid, Win>, p: Proc, g: Goal, x: Wid, win: Win)
    requires x in wins && QuitAll in win.bridge.out && g == Goal(Quit, wins.Keys)
    ensures NoneMissed(wins, p, wins[x := win], g)
  {
    var wins' := wins[x := win];
    assert QuitOut(wins') by { assert x in wins' && QuitAll in wins'[x].bridge.out; }
    forall y | y in g.targets ensures Pending(p, wins', g, y) {}
  }

  lemma ActsIs(w: World, x: Wid, op: WindowOp)
    requires x in w.wins
    ensures Apply(w, WindowActs(x, op)) == w.(wins := w.wins[x := WinAct(w.wins[x], op)])
  {}
}
