/** The inductive invariant of the tray protocol. */
module TrayInvariant {
  import opened Common
  import opened TrayLoaderSpec
  import opened TrayBridgeSpec
  import Facts = TrayLoaderFacts
  import opened TrayProtocol

  // ---- what holds of one window -------------------------------------------------------------------

  function OwnerGen(o: Option<Proc>): Option<Gen> {
    if o.Some? then Some(o.value.gen) else None
  }

  /** The name notices on their way to the window end in the truth about who owns the name. */
  ghost predicate NameOk(o: Option<Proc>, win: Win) {
    && NameAfter(win.inbox, win.known) == OwnerGen(o)
    && (win.bridge.loaderPresent <==> win.known.Some?)
  }

  /** The tray availability the window will have once everything sent to it has arrived. */
  function Settled(p: Proc, x: Wid, win: Win): bool {
    AvailOut(x, p.core.out, AvailAfter(win.inbox, win.bridge.trayAvailable))
  }

  ghost predicate AvailOk(o: Option<Proc>, x: Wid, win: Win) {
    match o
    case None => !AvailAfter(win.inbox, win.bridge.trayAvailable)
    case Some(p) =>
      && (Settled(p, x, win) ==> p.core.trayAvailable)
      && (x in p.answered ==> Settled(p, x, win) == p.core.trayAvailable)
  }

  /** The last `Register` or `Update` of `x` in flight to the loader, or its row if none is. */
  function LastSent(p: Proc, x: Wid, win: Win): Option<(string, bool)> {
    StateAfter(win.bridge.out, StateFrom(x, p.inbox, RowOf(p.core.rows, x)))
  }

  ghost predicate AgreeOk(o: Option<Proc>, x: Wid, win: Win) {
    o.Some? && win.known == Some(o.value.gen) ==>
      && LastSent(o.value, x, win) == Some((Sent(win.bridge.workspace), win.bridge.visible && !win.silent))
      && (win.silent ==> win.bridge.visible)
  }

  ghost predicate AnswerOk(o: Option<Proc>, x: Wid, win: Win) {
    o.Some? && win.known == Some(o.value.gen) ==>
      RegisteredAfter(win.bridge.out, RegisteredFrom(x, o.value.inbox, x in o.value.answered))
  }

  ghost predicate GenOk(nextGen: Gen, win: Win) {
    && (win.known.Some? ==> win.known.value < nextGen)
    && (forall i :: 0 <= i < |win.inbox| && win.inbox[i].Appeared? ==> win.inbox[i].gen < nextGen)
  }

  ghost predicate WinInv(nextGen: Gen, o: Option<Proc>, x: Wid, win: Win) {
    NameOk(o, win) && AvailOk(o, x, win) && AgreeOk(o, x, win) && AnswerOk(o, x, win) && GenOk(nextGen, win)
  }

  // ---- what holds of the loader -------------------------------------------------------------------

  /** Whatever availability the loader has sent last is what it has now. */
  ghost predicate OutFresh(s: LoaderState) {
    forall x: Wid :: AvailOut(x, s.out, s.trayAvailable) == s.trayAvailable
  }

  ghost predicate Started(p: Proc) {
    p.core.acquired || (|p.inbox| > 0 && p.inbox[0] == Acquired && p.core.rows == [])
  }

  /** Every row is of a live window the bus watches, or its end is on its way to the loader. */
  ghost predicate Tracked(p: Proc, live: set<Wid>) {
    && p.watched <= live
    && (forall x :: x in live ==> Gone(x) !in p.inbox)
    && (forall i :: 0 <= i < |p.core.rows| ==>
          var x := p.core.rows[i].sender;
          Watch(x) in p.core.out || (if x in live then x in p.watched else Gone(x) in p.inbox))
  }

  ghost predicate Bounded(p: Proc, n: Wid) {
    && (forall x :: x in p.answered ==> x < n)
    && (forall i :: 0 <= i < |p.core.rows| ==> p.core.rows[i].sender < n)
    && (forall i :: 0 <= i < |p.inbox| ==>
          (p.inbox[i].FromWindow? ==> p.inbox[i].from < n) && (p.inbox[i].Gone? ==> p.inbox[i].name < n))
    && (forall i :: 0 <= i < |p.core.out| && p.core.out[i].Watch? ==> p.core.out[i].name < n)
  }

  /** The timer never fires earlier than the idle time after the list became empty, nor later than the
      startup time from now. */
  ghost predicate Timed(p: Proc, now: nat) {
    && p.emptySince <= now
    && (p.core.exitAt.Some? ==> p.core.exitAt.value <= now + STARTUP_EXIT_SECONDS * USEC_PER_SEC)
    && (p.core.exitAt.Some? && p.core.rows == [] ==>
          p.emptySince + IDLE_EXIT_SECONDS * USEC_PER_SEC <= p.core.exitAt.value)
  }

  ghost predicate ProcInv(p: Proc, live: set<Wid>, n: Wid, now: nat) {
    Facts.LoaderInv(p.core) && OutFresh(p.core) && Started(p) && Tracked(p, live) && Bounded(p, n) && Timed(p, now)
  }

  ghost predicate WinsInv(nextGen: Gen, o: Option<Proc>, wins: map<Wid, Win>, n: Wid) {
    forall x :: x in wins ==> x < n && WinInv(nextGen, o, x, wins[x])
  }

  ghost predicate Inv(w: World) {
    && (w.owner.Some? ==> w.owner.value.gen < w.nextGen && ProcInv(w.owner.value, w.wins.Keys, w.nextWid, w.now))
    && WinsInv(w.nextGen, w.owner, w.wins, w.nextWid)
  }

  // ---- the loader starts and dies -----------------------------------------------------------------

  lemma DeliverSnoc(win: Win, m: ToWindow)
    ensures NameAfter(Deliver(win, m).inbox, win.known) == NameStep(NameAfter(win.inbox, win.known), m)
    ensures forall d :: AvailAfter(Deliver(win, m).inbox, d) == AvailStep(AvailAfter(win.inbox, d), m)
  {
    FoldSnoc(NameStep, win.known, win.inbox, m);
    forall d ensures AvailAfter(Deliver(win, m).inbox, d) == AvailStep(AvailAfter(win.inbox, d), m) {
      FoldSnoc(AvailStep, d, win.inbox, m);
    }
  }

  lemma FreshProcInv(gen: Gen, live: set<Wid>, n: Wid, now: nat)
    ensures ProcInv(Proc(gen, Fresh(), [Acquired], {}, {}, now), live, n, now)
  {
    assert Facts.LoaderInv(Fresh());
    assert OutFresh(Fresh());
  }

  lemma StartWinInv(nextGen: Gen, x: Wid, win: Win, now: nat)
    requires WinInv(nextGen, None, x, win)
    ensures WinInv(nextGen + 1, Some(Proc(nextGen, Fresh(), [Acquired], {}, {}, now)), x,
                   Deliver(win, Appeared(nextGen)))
  {
    DeliverSnoc(win, Appeared(nextGen));
    var win' := Deliver(win, Appeared(nextGen));
    var p := Proc(nextGen, Fresh(), [Acquired], {}, {}, now);
    assert AvailOut(x, p.core.out, AvailAfter(win'.inbox, win'.bridge.trayAvailable)) == AvailAfter(win'.inbox, win'.bridge.trayAvailable);
    assert GenOk(nextGen + 1, win');
  }

  lemma StartLoaderKeepsInv(w: World)
    requires Inv(w)
    ensures Inv(StartLoader(w))
  {
    if w.owner.None? {
      var w' := StartLoader(w);
      FreshProcInv(w.nextGen, w'.wins.Keys, w'.nextWid, w'.now);
      forall x | x in w.wins ensures WinInv(w'.nextGen, w'.owner, x, w'.wins[x]) {
        StartWinInv(w.nextGen, x, w.wins[x], w.now);
      }
    }
  }

  lemma KillWinInv(nextGen: Gen, o: Option<Proc>, x: Wid, win: Win)
    requires WinInv(nextGen, o, x, win)
    ensures WinInv(nextGen, None, x, Deliver(win, ToWindow.Vanished))
  {
    DeliverSnoc(win, ToWindow.Vanished);
  }

  lemma KillLoaderKeepsInv(w: World)
    requires Inv(w)
    ensures Inv(KillLoader(w))
  {
    if w.owner.Some? {
      var w' := KillLoader(w);
      forall x | x in w.wins ensures WinInv(w'.nextGen, w'.owner, x, w'.wins[x]) {
        KillWinInv(w.nextGen, w.owner, x, w.wins[x]);
      }
    }
  }

  // ---- the loader handles a message ---------------------------------------------------------------

  lemma RegisterAvail(s: LoaderState, now: nat, from: Wid, req: Request, x: Wid, d: bool)
    requires req.Register?
    ensures var s' := OnCall(s, now, from, req);
            && s'.trayAvailable == s.trayAvailable
            && AvailOut(x, s'.out, d) == if from == x then s.trayAvailable else AvailOut(x, s.out, d)
  {
    var r := Record(s, from, req.workspace, req.visible);
    RecordAvail(s, from, req.workspace, req.visible, x, d);
    FoldSnoc(OutStepFor(x), d, r.out, Reply(from, r.trayAvailable));
  }

  lemma RequestAvail(s: LoaderState, now: nat, from: Wid, req: Request, x: Wid, d: bool)
    requires !req.Register?
    ensures var s' := OnCall(s, now, from, req);
            s'.trayAvailable == s.trayAvailable && AvailOut(x, s'.out, d) == AvailOut(x, s.out, d)
  {
    if req.Update? {
      RecordAvail(s, from, req.workspace, req.visible, x, d);
    } else if req.QuitAll? {
      CallAllAvail(s, Quit, x, d);
    }
  }

  /** What handling `m` adds to the loader's outgoing queue, as far as `x` can tell availability from it. */
  lemma CoreAvail(s: LoaderState, now: nat, m: ToLoader, x: Wid, d: bool)
    ensures var s' := CoreAfter(s, now, m);
            && s'.trayAvailable == s.trayAvailable
            && AvailOut(x, s'.out, d) ==
               if m.FromWindow? && m.req.Register? && m.from == x then s.trayAvailable else AvailOut(x, s.out, d)
  {
    if m.FromWindow? {
      if m.req.Register? { RegisterAvail(s, now, m.from, m.req, x, d); }
      else { RequestAvail(s, now, m.from, m.req, x, d); }
    }
  }

  lemma RecordAvail(s: LoaderState, from: Wid, workspace: string, visible: bool, x: Wid, d: bool)
    ensures var r := Record(s, from, workspace, visible);
            r.trayAvailable == s.trayAvailable && AvailOut(x, r.out, d) == AvailOut(x, s.out, d)
  {
    FoldSnoc(OutStepFor(x), d, s.out, Watch(from));
  }

  lemma {:induction false} CallsAvail(q: seq<FromLoader>, r: seq<FromLoader>, x: Wid, d: bool)
    requires forall i :: 0 <= i < |r| ==> r[i].Call?
    ensures AvailOut(x, q + r, d) == AvailOut(x, q, d)
  {
    if |r| == 0 {
      assert q + r == q;
    } else {
      var n := |r| - 1;
      CallsAvail(q, r[..n], x, d);
      assert q + r == (q + r[..n]) + [r[n]];
      FoldSnoc(OutStepFor(x), d, q + r[..n], r[n]);
    }
  }

  lemma CallAllAvail(s: LoaderState, wm: WindowMethod, x: Wid, d: bool)
    ensures AvailOut(x, s.out + CallAll(s.rows, wm), d) == AvailOut(x, s.out, d)
  {
    CallsAvail(s.out, CallAll(s.rows, wm), x, d);
  }

  lemma HandleOutFresh(s: LoaderState, now: nat, m: ToLoader)
    requires OutFresh(s)
    ensures OutFresh(CoreAfter(s, now, m))
  {
    var s' := CoreAfter(s, now, m);
    forall x: Wid ensures AvailOut(x, s'.out, s'.trayAvailable) == s'.trayAvailable {
      CoreAvail(s, now, m, x, s.trayAvailable);
    }
  }

  lemma RecordRow(s: LoaderState, from: Wid, workspace: string, visible: bool, x: Wid)
    ensures RowOf(Record(s, from, workspace, visible).rows, x)
            == if x == from then Some((workspace, visible)) else RowOf(s.rows, x)
  {
    var rows' := Record(s, from, workspace, visible).rows;
    var i := SenderIndex(s.rows, from);
    assert rows'[i].sender == from && rows'[i].workspace == workspace && rows'[i].visible == visible;
    FirstOf(s.rows, rows', x, from, i);
  }

  lemma GoneRow(rows: seq<Row>, name: Wid, x: Wid)
    requires name != x
    ensures RowOf(WithoutSender(rows, name), x) == RowOf(rows, x)
  {
    Facts.WithoutSenderAt(rows, name);
    var rows' := WithoutSender(rows, name);
    var i, k, k' := SenderIndex(rows, name), SenderIndex(rows, x), SenderIndex(rows', x);
    if k < |rows| {
      assert rows'[if k < i then k else k - 1] == rows[k];
      assert k' == if k < i then k else k - 1;
    } else {
      assert k' == |rows'|;
    }
  }

  /** The row of `x` follows the last state `x` sent, and survives the end of other windows. */
  lemma RowFollows(s: LoaderState, now: nat, m: ToLoader, x: Wid)
    requires m != Gone(x)
    ensures RowOf(CoreAfter(s, now, m).rows, x) == StateFromStep(x, RowOf(s.rows, x), m)
  {
    match m {
      case FromWindow(from, req) =>
        if req.Register? || req.Update? { RecordRow(s, from, req.workspace, req.visible, x); }
        else { assert CoreAfter(s, now, m).rows == s.rows; }
      case Acquired =>
      case Gone(name) => GoneRow(s.rows, name, x);
    }
  }

  /** Writing row `i` of `from` moves nobody's first row. */
  lemma FirstOf(rows: seq<Row>, rows': seq<Row>, x: Wid, from: Wid, i: nat)
    requires i == SenderIndex(rows, from)
    requires |rows'| == if i < |rows| then |rows| else |rows| + 1
    requires forall k :: 0 <= k < |rows| && k != i ==> rows'[k] == rows[k]
    requires rows'[i].sender == from
    ensures x == from ==> SenderIndex(rows', x) == i
    ensures x != from ==> RowOf(rows', x) == RowOf(rows, x)
  {
    var k, k' := SenderIndex(rows, x), SenderIndex(rows', x);
    if x != from && k < |rows| {
      assert rows'[k] == rows[k];
    }
  }

  lemma HandleWinInv(nextGen: Gen, p: Proc, x: Wid, win: Win, now: nat)
    requires WinInv(nextGen, Some(p), x, win) && |p.inbox| > 0 && p.inbox[0] != Gone(x)
    ensures WinInv(nextGen, Some(Handle(p, now)), x, win)
  {
    var m, p' := p.inbox[0], Handle(p, now);
    CoreAvail(p.core, now, m, x, AvailAfter(win.inbox, win.bridge.trayAvailable));
    assert AvailOk(Some(p'), x, win);
    RowFollows(p.core, now, m, x);
    FoldHead(StateFromStepFor(x), RowOf(p.core.rows, x), p.inbox);
    assert LastSent(p', x, win) == LastSent(p, x, win);
    FoldHead(RegisteredFromStepFor(x), x in p.answered, p.inbox);
    assert (x in p'.answered) == RegisteredFromStep(x, x in p.answered, m);
  }

  lemma CoreKeepsLoaderInv(s: LoaderState, now: nat, m: ToLoader)
    requires Facts.LoaderInv(s)
    ensures Facts.LoaderInv(CoreAfter(s, now, m))
  {
    match m {
      case FromWindow(from, req) => Facts.ActKeepsInv(s, now, Facts.Called(from, req));
      case Acquired => Facts.ActKeepsInv(s, now, Facts.NameAcquired);
      case Gone(name) => Facts.ActKeepsInv(s, now, Facts.WindowVanished(name));
    }
  }

  /** `s'` has sent what `s` had, and since then asked to watch no name but `from`. */
  ghost predicate SendsFor(s: LoaderState, s': LoaderState, from: Wid) {
    && s.out <= s'.out
    && forall i :: |s.out| <= i < |s'.out| && s'.out[i].Watch? ==> s'.out[i].name == from
  }

  lemma RecordSends(s: LoaderState, from: Wid, workspace: string, visible: bool)
    ensures SendsFor(s, Record(s, from, workspace, visible), from)
  {
    var r := Record(s, from, workspace, visible);
    assert r.out == s.out || r.out == s.out + [Watch(from)];
  }

  lemma SendsMore(s: LoaderState, r: LoaderState, r': LoaderState, from: Wid, to: Wid, available: bool)
    requires SendsFor(s, r, from) && r'.out == r.out + [Reply(to, available)]
    ensures SendsFor(s, r', from)
  {
    assert r.out == r'.out[..|r.out|];
  }

  lemma CallSends(s: LoaderState, now: nat, from: Wid, req: Request)
    ensures SendsFor(s, OnCall(s, now, from, req), from)
  {
    match req {
      case Register(workspace, visible) =>
        RecordSends(s, from, workspace, visible);
        var r := Record(s, from, workspace, visible);
        SendsMore(s, r, OnCall(s, now, from, req), from, from, r.trayAvailable);
      case Update(workspace, visible) => RecordSends(s, from, workspace, visible);
      case SetLabels(_) =>
      case QuitAll => assert OnCall(s, now, from, req).out == s.out + CallAll(s.rows, Quit);
      case Pulse =>
    }
  }

  /** Handling a message only adds to the outgoing queue, and asks to watch only its sender. */
  lemma CoreSends(s: LoaderState, now: nat, m: ToLoader)
    ensures var s' := CoreAfter(s, now, m);
            && s.out <= s'.out
            && (forall i :: |s.out| <= i < |s'.out| && s'.out[i].Watch? ==> m.FromWindow? && s'.out[i].name == m.from)
  {
    if m.FromWindow? { CallSends(s, now, m.from, m.req); }
  }

  /** Every row after handling `m` was there before, or is the sender's and being watched from now on. */
  lemma CoreRows(s: LoaderState, now: nat, m: ToLoader)
    requires UniqueSenders(s.rows)
    ensures var s' := CoreAfter(s, now, m);
            forall i :: 0 <= i < |s'.rows| ==>
              var x := s'.rows[i].sender;
              && m != Gone(x)
              && (HasRow(s.rows, x) || (m.FromWindow? && m.from == x && Watch(x) in s'.out))
  {
    match m {
      case FromWindow(from, req) => CallRows(s, now, from, req);
      case Acquired => SameRows(s.rows);
      case Gone(name) => VanishedRows(s.rows, name);
    }
  }

  ghost predicate HasRow(rows: seq<Row>, x: Wid) {
    exists j :: 0 <= j < |rows| && rows[j].sender == x
  }

  lemma SameRows(rows: seq<Row>)
    ensures forall i :: 0 <= i < |rows| ==> HasRow(rows, rows[i].sender)
  {}

  lemma VanishedRows(rows: seq<Row>, name: Wid)
    requires UniqueSenders(rows)
    ensures var rows' := WithoutSender(rows, name);
            forall i :: 0 <= i < |rows'| ==> rows'[i].sender != name && HasRow(rows, rows'[i].sender)
  {
    Facts.WithoutSenderAt(rows, name);
    var k, rows' := SenderIndex(rows, name), WithoutSender(rows, name);
    forall i | 0 <= i < |rows'| ensures rows'[i].sender != name && HasRow(rows, rows'[i].sender) {
      assert rows'[i] == rows[if i < k then i else i + 1];
    }
  }

  lemma CallRows(s: LoaderState, now: nat, from: Wid, req: Request)
    ensures var s' := OnCall(s, now, from, req);
            forall i :: 0 <= i < |s'.rows| ==>
              var x := s'.rows[i].sender;
              HasRow(s.rows, x) || (from == x && Watch(x) in s'.out)
  {
    if req.Register? || req.Update? {
      RecordRows(s, from, req.workspace, req.visible);
    } else {
      SameRows(s.rows);
      assert OnCall(s, now, from, req).rows == s.rows;
    }
  }

  lemma RecordRows(s: LoaderState, from: Wid, workspace: string, visible: bool)
    ensures var s' := Record(s, from, workspace, visible);
            forall i :: 0 <= i < |s'.rows| ==>
              var x := s'.rows[i].sender;
              HasRow(s.rows, x) || (from == x && Watch(x) in s'.out)
  {
    var s' := Record(s, from, workspace, visible);
    forall i | 0 <= i < |s'.rows|
      ensures var x := s'.rows[i].sender;
              HasRow(s.rows, x) || (from == x && Watch(x) in s'.out)
    {
      if i < |s.rows| {
        assert s'.rows[i].sender == s.rows[i].sender;
        SameRows(s.rows);
      } else {
        assert s'.out[|s.out|] == Watch(from);
      }
    }
  }

  lemma HandleTracked(p: Proc, live: set<Wid>, now: nat)
    requires Tracked(p, live) && UniqueSenders(p.core.rows) && |p.inbox| > 0
    ensures Tracked(Handle(p, now), live)
  {
    var m, p' := p.inbox[0], Handle(p, now);
    CoreSends(p.core, now, m);
    CoreRows(p.core, now, m);
    forall i | 0 <= i < |p'.core.rows|
      ensures var x := p'.core.rows[i].sender;
              Watch(x) in p'.core.out || (if x in live then x in p'.watched else Gone(x) in p'.inbox)
    {
      var x := p'.core.rows[i].sender;
      if j :| 0 <= j < |p.core.rows| && p.core.rows[j].sender == x {
        if Watch(x) in p.core.out {
          assert Watch(x) in p'.core.out;
        } else if x !in live {
          assert Gone(x) in p.inbox && m != Gone(x);
        }
      }
    }
  }

  lemma HandleBounded(p: Proc, n: Wid, now: nat)
    requires Bounded(p, n) && UniqueSenders(p.core.rows) && |p.inbox| > 0
    ensures Bounded(Handle(p, now), n)
  {
    var m, p' := p.inbox[0], Handle(p, now);
    CoreSends(p.core, now, m);
    CoreRows(p.core, now, m);
    forall i | 0 <= i < |p'.core.out| && p'.core.out[i].Watch? ensures p'.core.out[i].name < n {
      if i < |p.core.out| { assert p'.core.out[i] == p.core.out[i]; }
    }
  }

  lemma HandleTimed(p: Proc, now: nat)
    requires Timed(p, now) && |p.inbox| > 0
    ensures Timed(Handle(p, now), now)
  {
    var m, p' := p.inbox[0], Handle(p, now);
    match m {
      case FromWindow(from, req) =>
        if req.Register? || req.Update? {
          var r := Record(p.core, from, req.workspace, req.visible);
          assert |r.rows| > 0 && (r.exitAt == p.core.exitAt || r.exitAt.None?);
        }
      case Acquired =>
      case Gone(_) =>
    }
  }

  lemma HandleProcInv(p: Proc, live: set<Wid>, n: Wid, now: nat)
    requires ProcInv(p, live, n, now) && |p.inbox| > 0
    ensures ProcInv(Handle(p, now), live, n, now)
  {
    CoreKeepsLoaderInv(p.core, now, p.inbox[0]);
    HandleOutFresh(p.core, now, p.inbox[0]);
    HandleTracked(p, live, now);
    HandleBounded(p, n, now);
    HandleTimed(p, now);
    HandleStarted(p, now);
  }

  lemma HandleStarted(p: Proc, now: nat)
    requires Started(p) && |p.inbox| > 0
    ensures Started(Handle(p, now))
  {}

  lemma HandleKeepsInv(w: World)
    requires Inv(w) && w.owner.Some? && |w.owner.value.inbox| > 0
    ensures Inv(w.(owner := Some(Handle(w.owner.value, w.now))))
  {
    HandleProcInv(w.owner.value, w.wins.Keys, w.nextWid, w.now);
    forall x | x in w.wins ensures WinInv(w.nextGen, Some(Handle(w.owner.value, w.now)), x, w.wins[x]) {
      HandleWinInv(w.nextGen, w.owner.value, x, w.wins[x], w.now);
    }
  }

  // ---- the session acts on the loader -------------------------------------------------------------

  /** What a callback or a click does to everything but the menu-independent fields. */
  ghost predicate EnvEffect(s: LoaderState, s': LoaderState, now: nat) {
    && s'.rows == s.rows && s'.acquired == s.acquired
    && s.out <= s'.out
    && (forall i :: |s.out| <= i < |s'.out| ==> !s'.out[i].Watch?)
    && (s'.exitAt == s.exitAt || s'.exitAt == Some(now + (IDLE_EXIT_SECONDS + 2) * USEC_PER_SEC))
    && (forall x: Wid, d: bool :: AvailOut(x, s'.out, d) ==
          if s'.trayAvailable != s.trayAvailable then s'.trayAvailable else AvailOut(x, s.out, d))
  }

  lemma CallAllEffect(s: LoaderState, wm: WindowMethod, now: nat)
    ensures EnvEffect(s, s.(out := s.out + CallAll(s.rows, wm)), now)
  {
    forall x: Wid, d: bool ensures AvailOut(x, s.out + CallAll(s.rows, wm), d) == AvailOut(x, s.out, d) {
      CallAllAvail(s, wm, x, d);
    }
  }

  lemma AvailEffect(s: LoaderState, s1: LoaderState, available: bool, now: nat)
    requires s1.rows == s.rows && s1.acquired == s.acquired && s1.out == s.out && s1.exitAt == s.exitAt
    requires s1.trayAvailable == s.trayAvailable
    ensures EnvEffect(s, SetTrayAvailable(s1, available), now)
  {
    forall x: Wid, d: bool
      ensures AvailOut(x, s.out + [TrayAvailabilityChanged(available)], d) == available
    {
      FoldSnoc(OutStepFor(x), d, s.out, TrayAvailabilityChanged(available));
    }
  }

  lemma ClickEffect(s: LoaderState, now: nat, id: int)
    ensures EnvEffect(s, MenuClicked(s, now, id), now)
  {
    if id == SHOW_ALL_ID {
      CallAllEffect(s, Show, now);
    } else if id == HIDE_ALL_ID {
      CallAllEffect(s, Hide, now);
    } else if id == QUIT_ALL_ID {
      CallAllEffect(s, Quit, now);
      assert MenuClicked(s, now, id) == OnQuitAll(s, now);
    } else {
      var i := IdIndex(s.rows, id);
      if i < |s.rows| {
        var call := [Call(s.rows[i].sender, Show)];
        assert MenuClicked(s, now, id) == s.(out := s.out + call);
        forall x: Wid, d: bool ensures AvailOut(x, s.out + call, d) == AvailOut(x, s.out, d) {
          CallsAvail(s.out, call, x, d);
        }
      }
    }
  }

  lemma EnvHasEffect(s: LoaderState, now: nat, e: Env)
    ensures EnvEffect(s, OnEnv(s, now, e), now)
  {
    match e {
      case WatcherAppeared =>
      case WatcherVanished => AvailEffect(s, s.(watcherPresent := false, hostRegistered := false), false, now);
      case WatcherSignalled(signal) => SignalEffect(s, now, signal);
      case HostReply(answer) =>
        var s1 := s.(asks := if s.asks > 0 then s.asks - 1 else 0, hostRegistered := answer.None? || answer.value);
        AvailEffect(s, s1, s1.watcherPresent && s1.hostRegistered, now);
      case Clicked(id) => ClickEffect(s, now, id);
      case Activated =>
        CallAllEffect(s, Show, now);
        CallAllEffect(s, Hide, now);
      case SecondaryActivated => CallAllEffect(s, Show, now);
      case Signalled =>
    }
  }

  lemma SignalEffect(s: LoaderState, now: nat, signal: WatcherSignal)
    ensures EnvEffect(s, OnWatcherSignal(s, signal), now)
  {
    match signal {
      case HostRegistered => AvailEffect(s, s.(hostRegistered := true), s.watcherPresent, now);
      case HostUnregistered =>
      case OtherSignal => AvailEffect(s, s, s.watcherPresent && s.hostRegistered, now);
    }
  }

  lemma EffectProcInv(p: Proc, core': LoaderState, live: set<Wid>, n: Wid, now: nat)
    requires ProcInv(p, live, n, now) && EnvEffect(p.core, core', now) && Facts.LoaderInv(core')
    ensures ProcInv(p.(core := core'), live, n, now)
  {
    var p' := p.(core := core');
    assert OutFresh(core') && Timed(p', now) && Started(p');
    assert forall i :: 0 <= i < |p.core.out| ==> core'.out[i] == p.core.out[i];
    forall i | 0 <= i < |core'.rows|
      ensures var x := core'.rows[i].sender;
              Watch(x) in core'.out || (if x in live then x in p'.watched else Gone(x) in p'.inbox)
    {
      var x := core'.rows[i].sender;
      if Watch(x) in p.core.out { assert Watch(x) in core'.out; }
    }
  }

  lemma EffectWinInv(nextGen: Gen, p: Proc, core': LoaderState, x: Wid, win: Win, now: nat)
    requires WinInv(nextGen, Some(p), x, win) && EnvEffect(p.core, core', now)
    ensures WinInv(nextGen, Some(p.(core := core')), x, win)
  {
    var p' := p.(core := core');
    assert LastSent(p', x, win) == LastSent(p, x, win);
    assert AvailOk(Some(p'), x, win);
  }

  lemma EffectKeepsInv(w: World, core': LoaderState)
    requires Inv(w) && w.owner.Some? && EnvEffect(w.owner.value.core, core', w.now) && Facts.LoaderInv(core')
    ensures Inv(w.(owner := Some(w.owner.value.(core := core'))))
  {
    var p := w.owner.value;
    EffectProcInv(p, core', w.wins.Keys, w.nextWid, w.now);
    forall x | x in w.wins ensures WinInv(w.nextGen, Some(p.(core := core')), x, w.wins[x]) {
      EffectWinInv(w.nextGen, p, core', x, w.wins[x], w.now);
    }
  }

  lemma TimerKeepsInv(w: World)
    requires Inv(w) && w.owner.Some?
    ensures Inv(w.(owner := Some(w.owner.value.(core := OnExitTimeout(w.owner.value.core)))))
  {
    var p := w.owner.value;
    var core' := OnExitTimeout(p.core);
    var p' := p.(core := core');
    Facts.ActKeepsInv(p.core, w.now, Facts.Fired);
    assert ProcInv(p', w.wins.Keys, w.nextWid, w.now);
    forall x | x in w.wins ensures WinInv(w.nextGen, Some(p'), x, w.wins[x]) {
      assert LastSent(p', x, w.wins[x]) == LastSent(p, x, w.wins[x]);
    }
  }

  // ---- the bus takes a message from the loader ----------------------------------------------------

  lemma {:induction false} AvailOutDefault(x: Wid, q: seq<FromLoader>, d: bool)
    ensures AvailOut(x, q, d) == d || AvailOut(x, q, !d) == AvailOut(x, q, d)
  {
    if |q| > 0 { AvailOutDefault(x, q[..|q| - 1], d); }
  }

  lemma TakenOutFresh(s: LoaderState)
    requires OutFresh(s) && |s.out| > 0
    ensures OutFresh(s.(out := s.out[1..]))
  {
    var a := s.trayAvailable;
    forall x: Wid ensures AvailOut(x, s.out[1..], a) == a {
      var b := OutStepFor(x)(a, s.out[0]);
      FoldHead(OutStepFor(x), a, s.out);
      assert AvailOut(x, s.out, a) == AvailOut(x, s.out[1..], b);
      AvailOutDefault(x, s.out[1..], b);
    }
  }

  /** A message from anyone but `x` changes nothing about what `x` has in flight. */
  lemma AppendOther(nextGen: Gen, p: Proc, m: ToLoader, x: Wid, win: Win)
    requires WinInv(nextGen, Some(p), x, win) && (m.FromWindow? ==> m.from != x)
    ensures WinInv(nextGen, Some(p.(inbox := p.inbox + [m])), x, win)
  {
    var p' := p.(inbox := p.inbox + [m]);
    FoldSnoc(StateFromStepFor(x), RowOf(p.core.rows, x), p.inbox, m);
    FoldSnoc(RegisteredFromStepFor(x), x in p.answered, p.inbox, m);
    assert LastSent(p', x, win) == LastSent(p, x, win);
  }

  /** What `x` sees of the bus taking the head of the loader's queue. */
  function Received(x: Wid, win: Win, m: FromLoader): Win {
    match m
    case Reply(to, available) => if to == x then Deliver(win, RegisterReply(available)) else win
    case TrayAvailabilityChanged(available) => Deliver(win, AvailabilityChanged(available))
    case Call(to, wm) => if to == x then Deliver(win, Method(wm)) else win
    case Watch(_) => win
  }

  lemma ReceivedStep(x: Wid, win: Win, m: FromLoader, own: bool)
    ensures AvailAfter(Received(x, win, m).inbox, own) == OutStep(x, AvailAfter(win.inbox, own), m)
    ensures NameAfter(Received(x, win, m).inbox, win.known) == NameAfter(win.inbox, win.known)
  {
    match m {
      case Reply(to, available) => DeliverSnoc(win, RegisterReply(available));
      case TrayAvailabilityChanged(available) => DeliverSnoc(win, AvailabilityChanged(available));
      case Call(to, wm) => DeliverSnoc(win, Method(wm));
      case Watch(_) =>
    }
  }

  lemma TakenSettles(p: Proc, x: Wid, win: Win)
    requires |p.core.out| > 0
    ensures Settled(p.(core := p.core.(out := p.core.out[1..])), x, Received(x, win, p.core.out[0]))
            == Settled(p, x, win)
  {
    var own := win.bridge.trayAvailable;
    FoldHead(OutStepFor(x), AvailAfter(win.inbox, own), p.core.out);
    ReceivedStep(x, win, p.core.out[0], own);
  }

  lemma TakenWinInv(nextGen: Gen, p: Proc, x: Wid, win: Win)
    requires WinInv(nextGen, Some(p), x, win) && |p.core.out| > 0
    ensures WinInv(nextGen, Some(p.(core := p.core.(out := p.core.out[1..]))), x, Received(x, win, p.core.out[0]))
  {
    var p', win' := p.(core := p.core.(out := p.core.out[1..])), Received(x, win, p.core.out[0]);
    TakenSettles(p, x, win);
    ReceivedStep(x, win, p.core.out[0], win.bridge.trayAvailable);
    assert win' == win.(inbox := win'.inbox);
    assert NameOk(Some(p'), win');
    assert AvailOk(Some(p'), x, win');
    assert LastSent(p', x, win') == LastSent(p, x, win);
  }

  lemma TakenProcInv(p: Proc, live: set<Wid>, n: Wid, now: nat)
    requires ProcInv(p, live, n, now) && |p.core.out| > 0
    ensures var p1 := p.(core := p.core.(out := p.core.out[1..]));
            ProcInv(match p.core.out[0]
                    case Watch(x) => if x in live then p1.(watched := p.watched + {x})
                                     else p1.(inbox := p.inbox + [Gone(x)])
                    case _ => p1, live, n, now)
  {
    TakenOutFresh(p.core);
    assert forall r :: r in p.core.out && r != p.core.out[0] ==> r in p.core.out[1..];
    assert Facts.LoaderInv(p.core.(out := p.core.out[1..]));
  }

  lemma TakeFromLoaderKeepsInv(w: World)
    requires Inv(w) && w.owner.Some? && |w.owner.value.core.out| > 0
    ensures Inv(TakeFromLoader(w))
  {
    var p, w' := w.owner.value, TakeFromLoader(w);
    var m := p.core.out[0];
    var p1 := p.(core := p.core.(out := p.core.out[1..]));
    TakenProcInv(p, w.wins.Keys, w.nextWid, w.now);
    assert w'.wins.Keys == w.wins.Keys;
    forall x | x in w.wins ensures WinInv(w.nextGen, w'.owner, x, w'.wins[x]) {
      TakenWinInv(w.nextGen, p, x, w.wins[x]);
      assert w'.wins[x] == Received(x, w.wins[x], m);
      if m.Watch? && m.name !in w.wins { AppendOther(w.nextGen, p1, Gone(m.name), x, w'.wins[x]); }
    }
  }
}
