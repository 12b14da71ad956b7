/** Deliveries run out: from every reachable state, whatever the bus and the processes do next in delivering
    what is under way, they come to a state in which all is quiet. */
module TraySettles {
  import opened Common
  import opened TrayLoaderSpec
  import opened TrayBridgeSpec
  import opened TrayProtocol
  import opened TrayInvariant
  import opened TrayWindowSteps
  import opened TrayTheorems
  import opened TrayHidden
  import opened TrayActs
  import opened TrayClicks
  import Facts = TrayLoaderFacts

  // ---- how much is under way ----------------------------------------------------------------------

  /** More than all that handling the message can set off; `n` bounds the number of windows. */
  function InWeight(m: ToWindow): nat {
    match m
    case Appeared(_) => 9
    case Method(_) => 5
    case _ => 1
  }

  function RequestWeight(r: Request, n: nat): (k: nat)
    ensures k > 0
  {
    match r
    case Register(_, _) => 6
    case Update(_, _) => 4
    case SetLabels(_) => 2
    case QuitAll => 2 + 6 * n
    case Pulse => 2
  }

  function HandledWeight(m: ToLoader, n: nat): (k: nat)
    ensures k > 0
  {
    if m.FromWindow? && RequestWeight(m.req, n) > 1 then RequestWeight(m.req, n) - 1 else 1
  }

  function OutWeight(m: FromLoader, n: nat): nat {
    match m
    case Reply(_, _) => 2
    case Watch(_) => 2
    case Call(_, _) => 6
    case TrayAvailabilityChanged(_) => n + 1
  }

  function InTotal(q: seq<ToWindow>): nat {
    if |q| == 0 then 0 else InWeight(q[0]) + InTotal(q[1..])
  }

  function RequestTotal(q: seq<Request>, n: nat): nat {
    if |q| == 0 then 0 else RequestWeight(q[0], n) + RequestTotal(q[1..], n)
  }

  function HandledTotal(q: seq<ToLoader>, n: nat): nat {
    if |q| == 0 then 0 else HandledWeight(q[0], n) + HandledTotal(q[1..], n)
  }

  function OutTotal(q: seq<FromLoader>, n: nat): nat {
    if |q| == 0 then 0 else OutWeight(q[0], n) + OutTotal(q[1..], n)
  }

  function WinWeight(win: Win, n: nat): nat { InTotal(win.inbox) + RequestTotal(win.bridge.out, n) }

  /** Over the windows named below `k`. */
  function WinsWeight(wins: map<Wid, Win>, k: nat, n: nat): nat {
    if k == 0 then 0 else WinsWeight(wins, k - 1, n) + (if k - 1 in wins then WinWeight(wins[k - 1], n) else 0)
  }

  function ProcWeight(p: Proc, n: nat): nat { HandledTotal(p.inbox, n) + OutTotal(p.core.out, n) }

  function Weight(w: World): nat {
    WinsWeight(w.wins, w.nextWid, w.nextWid) + (if w.owner.Some? then ProcWeight(w.owner.value, w.nextWid) else 0)
  }

  lemma {:induction false} InAppend(q: seq<ToWindow>, r: seq<ToWindow>)
    ensures InTotal(q + r) == InTotal(q) + InTotal(r)
  {
    if |q| == 0 {
      assert q + r == r;
    } else {
      InAppend(q[1..], r);
      assert (q + r)[1..] == q[1..] + r;
    }
  }

  lemma {:induction false} RequestAppend(q: seq<Request>, r: seq<Request>, n: nat)
    ensures RequestTotal(q + r, n) == RequestTotal(q, n) + RequestTotal(r, n)
  {
    if |q| == 0 {
      assert q + r == r;
    } else {
      RequestAppend(q[1..], r, n);
      assert (q + r)[1..] == q[1..] + r;
    }
  }

  lemma {:induction false} HandledAppend(q: seq<ToLoader>, r: seq<ToLoader>, n: nat)
    ensures HandledTotal(q + r, n) == HandledTotal(q, n) + HandledTotal(r, n)
  {
    if |q| == 0 {
      assert q + r == r;
    } else {
      HandledAppend(q[1..], r, n);
      assert (q + r)[1..] == q[1..] + r;
    }
  }

  lemma {:induction false} OutAppend(q: seq<FromLoader>, r: seq<FromLoader>, n: nat)
    ensures OutTotal(q + r, n) == OutTotal(q, n) + OutTotal(r, n)
  {
    if |q| == 0 {
      assert q + r == r;
    } else {
      OutAppend(q[1..], r, n);
      assert (q + r)[1..] == q[1..] + r;
    }
  }

  lemma {:induction false} WinsUpdate(wins: map<Wid, Win>, x: Wid, win: Win, k: nat, n: nat)
    requires x in wins
    ensures WinsWeight(wins[x := win], k, n) + (if x < k then WinWeight(wins[x], n) else 0)
            == WinsWeight(wins, k, n) + (if x < k then WinWeight(win, n) else 0)
  {
    if k > 0 { WinsUpdate(wins, x, win, k - 1, n); }
  }

  lemma {:induction false} WinsDelivered(wins: map<Wid, Win>, m: ToWindow, k: nat, n: nat)
    requires InWeight(m) == 1
    ensures WinsWeight(DeliverAll(wins, m), k, n) <= WinsWeight(wins, k, n) + k
  {
    if k > 0 {
      WinsDelivered(wins, m, k - 1, n);
      if k - 1 in wins { InAppend(wins[k - 1].inbox, [m]); }
    }
  }

  // ---- every delivery takes something away ----------------------------------------------------------

  /** At most one row per window name. */
  lemma RowsBounded(rows: seq<Row>, n: nat)
    requires UniqueSenders(rows) && forall i :: 0 <= i < |rows| ==> rows[i].sender < n
    ensures |rows| <= n
  {
    var names := set i | 0 <= i < |rows| :: rows[i].sender;
    SendersCounted(rows);
    BelowCounted(names, n);
  }

  lemma {:induction false} SendersCounted(rows: seq<Row>)
    requires UniqueSenders(rows)
    ensures |set i | 0 <= i < |rows| :: rows[i].sender| == |rows|
  {
    if |rows| > 0 {
      var n := |rows| - 1;
      SendersCounted(rows[..n]);
      var init := set i | 0 <= i < n :: rows[..n][i].sender;
      assert (set i | 0 <= i < |rows| :: rows[i].sender) == init + {rows[n].sender};
    }
  }

  lemma {:induction false} BelowCounted(names: set<nat>, n: nat)
    requires forall x :: x in names ==> x < n
    ensures |names| <= n
  {
    if n > 0 {
      BelowCounted(names - {n - 1}, n - 1);
      assert n - 1 !in names ==> names - {n - 1} == names;
    }
  }

  lemma {:induction false} CallsWeight(rows: seq<Row>, wm: WindowMethod, n: nat)
    ensures OutTotal(CallAll(rows, wm), n) == 6 * |rows|
  {
    if |rows| > 0 {
      CallsWeight(rows[1..], wm, n);
      assert CallAll(rows, wm)[1..] == CallAll(rows[1..], wm);
    }
  }

  /** What the loader sends out when it handles a message weighs less than the message. */
  lemma HandlingShrinks(s: LoaderState, now: nat, m: ToLoader, n: nat)
    requires |s.rows| <= n
    ensures OutTotal(CoreAfter(s, now, m).out, n) < OutTotal(s.out, n) + HandledWeight(m, n)
  {
    match m {
      case Acquired =>
      case Gone(_) =>
      case FromWindow(from, req) => RequestShrinks(s, now, from, req, n);
    }
  }

  lemma RequestShrinks(s: LoaderState, now: nat, from: Wid, req: Request, n: nat)
    requires |s.rows| <= n
    ensures OutTotal(OnCall(s, now, from, req).out, n) < OutTotal(s.out, n) + RequestWeight(req, n) - 1
  {
    match req {
      case Register(workspace, visible) =>
        RecordSendsLittle(s, from, workspace, visible, n);
        var s' := Record(s, from, workspace, visible);
        OutAppend(s'.out, [Reply(from, s'.trayAvailable)], n);
      case Update(workspace, visible) => RecordSendsLittle(s, from, workspace, visible, n);
      case SetLabels(_) =>
      case QuitAll =>
        OutAppend(s.out, CallAll(s.rows, Quit), n);
        CallsWeight(s.rows, Quit, n);
      case Pulse =>
    }
  }

  lemma RecordSendsLittle(s: LoaderState, from: Wid, workspace: string, visible: bool, n: nat)
    ensures OutTotal(Record(s, from, workspace, visible).out, n) <= OutTotal(s.out, n) + 2
  {
    OutAppend(s.out, [Watch(from)], n);
  }

  /** What a window sends when it handles a message weighs less than the message. */
  lemma MessageShrinks(b: BridgeState, now: nat, m: ToWindow, n: nat)
    ensures RequestTotal(OnMessage(b, now, m).out, n) < RequestTotal(b.out, n) + InWeight(m)
  {
    match m {
      case Appeared(_) => AppearedShrinks(b, n);
      case Vanished =>
      case RegisterReply(_) =>
      case AvailabilityChanged(_) =>
      case Method(wm) =>
        MethodObeyed(b, now, wm);
        RequestAppend(b.out, [OwnState(OnMessage(b, now, m))], n);
        AppendNothing(b.out);
    }
  }

  lemma AppearedShrinks(b: BridgeState, n: nat)
    ensures RequestTotal(OnLoaderAppeared(b).out, n) <= RequestTotal(b.out, n) + 8
  {
    var register := [Register(Sent(b.workspace), b.visible)];
    RequestAppend(b.out, register, n);
    RequestAppend(b.out + register, [SetLabels(b.labels)], n);
  }

  lemma WinHandleShrinks(win: Win, now: nat, n: nat)
    requires |win.inbox| > 0
    ensures WinWeight(WinHandle(win, now), n) < WinWeight(win, n)
  {
    MessageShrinks(win.bridge, now, win.inbox[0], n);
  }

  lemma LoaderHandlesShrinks(w: World)
    requires w.owner.Some? && |w.owner.value.inbox| > 0 && |w.owner.value.core.rows| <= w.nextWid
    ensures Weight(Apply(w, LoaderHandles)) < Weight(w)
  {
    var p := w.owner.value;
    HandlesIs(w);
    HandlingShrinks(p.core, w.now, p.inbox[0], w.nextWid);
  }

  lemma WindowHandlesShrinks(w: World, x: Wid)
    requires x in w.wins && x < w.nextWid && |w.wins[x].inbox| > 0
    ensures Weight(Apply(w, WindowHandles(x))) < Weight(w)
  {
    WinHandleShrinks(w.wins[x], w.now, w.nextWid);
    WinsUpdate(w.wins, x, WinHandle(w.wins[x], w.now), w.nextWid, w.nextWid);
  }

  lemma SendingShrinks(w: World, x: Wid)
    requires x in w.wins && x < w.nextWid && |w.wins[x].bridge.out| > 0
    ensures Weight(Apply(w, RouteFromWindow(x))) < Weight(w)
  {
    var n := w.nextWid;
    var r := w.wins[x].bridge.out[0];
    WinsUpdate(w.wins, x, Sending(w.wins[x]), n, n);
    if w.owner.Some? { HandledAppend(w.owner.value.inbox, [FromWindow(x, r)], n); }
  }

  lemma TakenShrinks(w: World)
    requires w.owner.Some? && |w.owner.value.core.out| > 0
    ensures Weight(TakeFromLoader(w)) < Weight(w)
  {
    var n := w.nextWid;
    var p := w.owner.value;
    match p.core.out[0] {
      case Reply(to, available) => DeliveredWeight(w.wins, to, RegisterReply(available), n);
      case TrayAvailabilityChanged(available) => WinsDelivered(w.wins, AvailabilityChanged(available), n, n);
      case Call(to, wm) => DeliveredWeight(w.wins, to, Method(wm), n);
      case Watch(name) => HandledAppend(p.inbox, [Gone(name)], n);
    }
  }

  lemma DeliveredWeight(wins: map<Wid, Win>, x: Wid, m: ToWindow, n: nat)
    ensures WinsWeight(DeliverTo(wins, x, m), n, n) <= WinsWeight(wins, n, n) + InWeight(m)
  {
    if x in wins {
      InAppend(wins[x].inbox, [m]);
      WinsUpdate(wins, x, Deliver(wins[x], m), n, n);
    }
  }

  /** After every run: a delivery of anything leaves less under way than before. */
  lemma DeliveryShrinks(events: seq<Event>, e: Event)
    requires Delivery(e) && !e.Tick? && Run(events + [e]) != Run(events)
    ensures Weight(Run(events + [e])) < Weight(Run(events))
  {
    var w := Run(events);
    RunKeepsInv(events);
    RunStep(events, e);
    match e {
      case LoaderHandles =>
        RowsBounded(w.owner.value.core.rows, w.nextWid);
        LoaderHandlesShrinks(w);
      case RouteFromLoader => TakenShrinks(w);
      case WindowHandles(x) => WindowHandlesShrinks(w, x);
      case RouteFromWindow(x) => SendingShrinks(w, x);
    }
  }

  // ---- and so all is quiet in the end ---------------------------------------------------------------

  /** As long as not all is quiet, something can be delivered. */
  lemma SomethingToDeliver(w: World) returns (e: Event)
    requires !Quiet(w)
    ensures Delivery(e) && !e.Tick? && Apply(w, e) != w
  {
    if w.owner.Some? && |w.owner.value.inbox| > 0 {
      e := LoaderHandles;
      HandlesIs(w);
    } else if w.owner.Some? && |w.owner.value.core.out| > 0 {
      e := RouteFromLoader;
    } else {
      var x :| x in w.wins && !(w.wins[x].inbox == [] && w.wins[x].bridge.out == []);
      if |w.wins[x].inbox| > 0 {
        e := WindowHandles(x);
        assert |Apply(w, e).wins[x].inbox| < |w.wins[x].inbox|;
      } else {
        e := RouteFromWindow(x);
        assert |Apply(w, e).wins[x].bridge.out| < |w.wins[x].bridge.out|;
      }
    }
  }

  lemma {:induction false} ArrivesBy(events: seq<Event>) returns (more: seq<Event>)
    ensures AllDeliveries(more) && Quiet(Run(events + more))
    decreases Weight(Run(events))
  {
    if Quiet(Run(events)) {
      AppendNothing(events);
      more := [];
    } else {
      var e := SomethingToDeliver(Run(events));
      RunStep(events, e);
      DeliveryShrinks(events, e);
      var rest := ArrivesBy(events + [e]);
      AppendAssoc(events, [e], rest);
      more := [e] + rest;
    }
  }

  /** From every reachable state, deliveries alone lead to a state in which all is quiet. */
  lemma AllArrives(events: seq<Event>)
    ensures exists more :: AllDeliveries(more) && Quiet(Run(events + more))
  {
    var more := ArrivesBy(events);
  }
}
