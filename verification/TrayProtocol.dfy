/** The tray protocol as a whole: any number of window processes and loader processes on one message bus.
    Every connection has a queue of messages it has sent and the bus has not taken yet (`out`) and a queue
    of messages the bus has delivered and it has not handled yet (`inbox`). The bus takes one message at a
    time, and gives the loader's name to at most one process. Processes start, act, are slow and die at
    any moment. */
module TrayProtocol {
  import opened Common
  import opened TrayLoaderSpec
  import opened TrayBridgeSpec

  /** `known` (history) is the loader the window last saw appear and has not seen vanish. `silent`
      (history) says that the first-frame show made the window visible after the last `Register` or
      `Update` it sent. */
  datatype Win = Win(bridge: BridgeState, inbox: seq<ToWindow>, known: Option<Gen>, silent: bool)

  datatype ToLoader =
    | FromWindow(from: Wid, req: Request)
    | Acquired
    | Gone(name: Wid)

  /** The loader process that owns the name. `watched` are the live windows whose end the bus will report
      to it; `answered` (history) the windows whose `Register` it has answered; `emptySince` (history) the
      time at which its window list last became empty. */
  datatype Proc = Proc(gen: Gen, core: LoaderState, inbox: seq<ToLoader>, watched: set<Wid>,
                       answered: set<Wid>, emptySince: nat)

  datatype World = World(now: nat, owner: Option<Proc>, nextGen: Gen, wins: map<Wid, Win>, nextWid: Wid)

  datatype Event =
    | Tick(dt: nat)
    | LoaderStarts
    | LoaderDies
    | LoaderHandles
    | LoaderEnv(e: Env)
    | LoaderTimer
    | RouteFromLoader
    | WindowStarts
    | WindowDies(x: Wid)
    | WindowHandles(x: Wid)
    | WindowActs(x: Wid, op: WindowOp)
    | RouteFromWindow(x: Wid)

  function Empty(): World { World(0, None, 0, map[], 0) }

  // ---- steps --------------------------------------------------------------------------------------

  function Deliver(win: Win, m: ToWindow): Win { win.(inbox := win.inbox + [m]) }

  function DeliverTo(wins: map<Wid, Win>, x: Wid, m: ToWindow): map<Wid, Win> {
    if x in wins then wins[x := Deliver(wins[x], m)] else wins
  }

  function DeliverAll(wins: map<Wid, Win>, m: ToWindow): map<Wid, Win> {
    map x | x in wins :: Deliver(wins[x], m)
  }

  /** A loader that finds the name taken loses it at once and exits. */
  function StartLoader(w: World): World {
    if w.owner.Some? then w
    else w.(owner := Some(Proc(w.nextGen, Fresh(), [Acquired], {}, {}, w.now)),
            nextGen := w.nextGen + 1, wins := DeliverAll(w.wins, Appeared(w.nextGen)))
  }

  function KillLoader(w: World): World {
    if w.owner.None? then w else w.(owner := None, wins := DeliverAll(w.wins, Vanished))
  }

  function CoreAfter(s: LoaderState, now: nat, m: ToLoader): LoaderState {
    match m
    case FromWindow(from, req) => OnCall(s, now, from, req)
    case Acquired => OnNameAcquired(s, now)
    case Gone(name) => OnWindowVanished(s, now, name)
  }

  function Handle(p: Proc, now: nat): Proc
    requires |p.inbox| > 0
  {
    var m := p.inbox[0];
    var core' := CoreAfter(p.core, now, m);
    p.(core := core', inbox := p.inbox[1..],
       watched := if m.Gone? then p.watched - {m.name} else p.watched,
       answered := if m.FromWindow? && m.req.Register? then p.answered + {m.from} else p.answered,
       emptySince := if |p.core.rows| > 0 && |core'.rows| == 0 then now else p.emptySince)
  }

  /** Watcher callbacks and clicks arrive only once the tray is up, and answers only to questions. */
  predicate EnvEnabled(p: Proc, e: Env) {
    p.core.acquired && (e.HostReply? ==> p.core.asks > 0)
  }

  predicate TimerDue(p: Proc, now: nat) {
    p.core.exitAt.Some? && p.core.exitAt.value <= now
  }

  function TakeFromLoader(w: World): World
    requires w.owner.Some? && |w.owner.value.core.out| > 0
  {
    var p := w.owner.value;
    var p' := p.(core := p.core.(out := p.core.out[1..]));
    match p.core.out[0]
    case Reply(to, available) => w.(owner := Some(p'), wins := DeliverTo(w.wins, to, RegisterReply(available)))
    case TrayAvailabilityChanged(available) =>
      w.(owner := Some(p'), wins := DeliverAll(w.wins, AvailabilityChanged(available)))
    case Call(to, wm) => w.(owner := Some(p'), wins := DeliverTo(w.wins, to, Method(wm)))
    case Watch(name) =>
      if name in w.wins then w.(owner := Some(p'.(watched := p.watched + {name})))
      else w.(owner := Some(p'.(inbox := p.inbox + [Gone(name)])))
  }

  function StartWindow(w: World): World {
    var first := if w.owner.Some? then Appeared(w.owner.value.gen) else Vanished;
    w.(wins := w.wins[w.nextWid := Win(Attached(), [first], None, false)], nextWid := w.nextWid + 1)
  }

  function KillWindow(w: World, x: Wid): World {
    if x !in w.wins then w
    else
      var w' := w.(wins := w.wins - {x});
      if w.owner.None? || x !in w.owner.value.watched then w'
      else
        var p := w.owner.value;
        w'.(owner := Some(p.(watched := p.watched - {x}, inbox := p.inbox + [Gone(x)])))
  }

  /** Whether the step from `b` to `b'` sent the window's state to the loader. */
  predicate Announces(b: BridgeState, b': BridgeState) {
    |b.out| <= |b'.out| && StateAfter(b'.out[|b.out|..], None).Some?
  }

  function Known(known: Option<Gen>, m: ToWindow): Option<Gen> {
    match m
    case Appeared(gen) => Some(gen)
    case Vanished => None
    case _ => known
  }

  function WinHandle(win: Win, now: nat): Win
    requires |win.inbox| > 0
  {
    var m := win.inbox[0];
    var b' := OnMessage(win.bridge, now, m);
    Win(b', win.inbox[1..], Known(win.known, m), win.silent && !Announces(win.bridge, b'))
  }

  function WinAct(win: Win, op: WindowOp): Win {
    var b' := OnOp(win.bridge, op);
    win.(bridge := b',
         silent := if op.FirstFrame? then win.silent || !win.bridge.visible
                   else win.silent && !Announces(win.bridge, b'))
  }

  /** The bus hands a call to whoever owns the loader's name, or fails it. */
  function TakeFromWindow(w: World, x: Wid): World
    requires x in w.wins && |w.wins[x].bridge.out| > 0
  {
    var win := w.wins[x];
    var b := win.bridge;
    var w' := w.(wins := w.wins[x := win.(bridge := b.(out := b.out[1..]))]);
    if w.owner.None? then w'
    else
      var p := w.owner.value;
      w'.(owner := Some(p.(inbox := p.inbox + [FromWindow(x, b.out[0])])))
  }

  /** One step of the world; an event that cannot happen changes nothing. */
  function Apply(w: World, e: Event): World {
    match e
    case Tick(dt) => w.(now := w.now + dt)
    case LoaderStarts => StartLoader(w)
    case LoaderDies => KillLoader(w)
    case LoaderHandles =>
      if w.owner.Some? && |w.owner.value.inbox| > 0 then w.(owner := Some(Handle(w.owner.value, w.now))) else w
    case LoaderEnv(e) =>
      if w.owner.Some? && EnvEnabled(w.owner.value, e) then
        w.(owner := Some(w.owner.value.(core := OnEnv(w.owner.value.core, w.now, e))))
      else w
    case LoaderTimer =>
      if w.owner.Some? && TimerDue(w.owner.value, w.now) then
        w.(owner := Some(w.owner.value.(core := OnExitTimeout(w.owner.value.core))))
      else w
    case RouteFromLoader =>
      if w.owner.Some? && |w.owner.value.core.out| > 0 then TakeFromLoader(w) else w
    case WindowStarts => StartWindow(w)
    case WindowDies(x) => KillWindow(w, x)
    case WindowHandles(x) =>
      if x in w.wins && |w.wins[x].inbox| > 0 then w.(wins := w.wins[x := WinHandle(w.wins[x], w.now)]) else w
    case WindowActs(x, op) =>
      if x in w.wins then w.(wins := w.wins[x := WinAct(w.wins[x], op)]) else w
    case RouteFromWindow(x) =>
      if x in w.wins && |w.wins[x].bridge.out| > 0 then TakeFromWindow(w, x) else w
  }

  function Run(events: seq<Event>): World {
    if |events| == 0 then Empty()
    else Apply(Run(events[..|events| - 1]), events[|events| - 1])
  }

  // ---- the last message in a queue ----------------------------------------------------------------

  /** The value a queue leads to, one message at a time. */
  function Fold<S, M>(step: (S, M) -> S, start: S, q: seq<M>): S {
    if |q| == 0 then start else step(Fold(step, start, q[..|q| - 1]), q[|q| - 1])
  }

  function NameStep(d: Option<Gen>, m: ToWindow): Option<Gen> { Known(d, m) }

  /** Which loader the window will believe in once it has handled its queue. */
  function NameAfter(q: seq<ToWindow>, known: Option<Gen>): Option<Gen> { Fold(NameStep, known, q) }

  function AvailStep(d: bool, m: ToWindow): bool {
    match m
    case RegisterReply(available) => available
    case AvailabilityChanged(available) => available
    case Vanished => false
    case _ => d
  }

  /** The last availability message of the queue, or the window's own flag if there is none. */
  function AvailAfter(q: seq<ToWindow>, own: bool): bool { Fold(AvailStep, own, q) }

  function OutStep(x: Wid, d: bool, m: FromLoader): bool {
    match m
    case Reply(to, available) => if to == x then available else d
    case TrayAvailabilityChanged(available) => available
    case _ => d
  }

  /** The same for messages to `x` the loader has sent and the bus has not taken. */
  function AvailOut(x: Wid, q: seq<FromLoader>, d: bool): bool { Fold(OutStepFor(x), d, q) }

  function OutStepFor(x: Wid): (bool, FromLoader) -> bool { (d, m) => OutStep(x, d, m) }

  function StateStep(d: Option<(string, bool)>, r: Request): Option<(string, bool)> {
    match r
    case Register(workspace, visible) => Some((workspace, visible))
    case Update(workspace, visible) => Some((workspace, visible))
    case _ => d
  }

  /** The state carried by the last `Register` or `Update` of the queue. */
  function StateAfter(q: seq<Request>, d: Option<(string, bool)>): Option<(string, bool)> { Fold(StateStep, d, q) }

  function StateFromStep(x: Wid, d: Option<(string, bool)>, m: ToLoader): Option<(string, bool)> {
    if m.FromWindow? && m.from == x then StateStep(d, m.req) else d
  }

  function StateFrom(x: Wid, q: seq<ToLoader>, d: Option<(string, bool)>): Option<(string, bool)> {
    Fold(StateFromStepFor(x), d, q)
  }

  function StateFromStepFor(x: Wid): (Option<(string, bool)>, ToLoader) -> Option<(string, bool)> {
    (d, m) => StateFromStep(x, d, m)
  }

  function RegisteredStep(d: bool, r: Request): bool { d || r.Register? }

  function RegisteredAfter(q: seq<Request>, d: bool): bool { Fold(RegisteredStep, d, q) }

  function RegisteredFromStep(x: Wid, d: bool, m: ToLoader): bool {
    d || (m.FromWindow? && m.from == x && m.req.Register?)
  }

  function RegisteredFrom(x: Wid, q: seq<ToLoader>, d: bool): bool {
    Fold(RegisteredFromStepFor(x), d, q)
  }

  function RegisteredFromStepFor(x: Wid): (bool, ToLoader) -> bool { (d, m) => RegisteredFromStep(x, d, m) }

  lemma {:induction false} FoldHead<S, M>(step: (S, M) -> S, start: S, q: seq<M>)
    requires |q| > 0
    ensures Fold(step, start, q) == Fold(step, step(start, q[0]), q[1..])
  {
    var n := |q| - 1;
    if n > 0 {
      FoldHead(step, start, q[..n]);
      assert q[1..][..n - 1] == q[..n][1..];
    }
  }

  lemma FoldSnoc<S, M>(step: (S, M) -> S, start: S, q: seq<M>, m: M)
    ensures Fold(step, start, q + [m]) == step(Fold(step, start, q), m)
  {
    assert (q + [m])[..|q|] == q;
  }

  lemma {:induction false} FoldConcat<S, M>(step: (S, M) -> S, start: S, q: seq<M>, r: seq<M>)
    ensures Fold(step, start, q + r) == Fold(step, Fold(step, start, q), r)
  {
    if |r| == 0 {
      assert q + r == q;
    } else {
      FoldConcat(step, start, q, r[..|r| - 1]);
      assert (q + r)[..|q + r| - 1] == q + r[..|r| - 1];
    }
  }
}
