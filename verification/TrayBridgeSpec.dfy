/** The window side of the tray protocol (`linux/runner/clide_tray_bridge.cc`) as a state machine on
    values: one function per callback. */
module TrayBridgeSpec {
  import opened Common
  import opened TrayLoaderSpec

  /** A loader process; the bus never has two owners of the loader's name at once. */
  type Gen = nat

  /** What the bus delivers to a window: the loader's name gaining and losing its owner, the answer to
      `Register`, the availability signal, and calls of the Window interface. */
  datatype ToWindow =
    | Appeared(gen: Gen)
    | Vanished
    | RegisterReply(available: bool)
    | AvailabilityChanged(available: bool)
    | Method(wm: WindowMethod)

  const RESPAWN_BACKOFF := 5 * USEC_PER_SEC

  /** `visible` is the GTK widget's visibility, `lastSpawn` 0 means never, `out` holds the calls handed
      to the connection, and `spawns` (history) the times at which a loader was started. */
  datatype BridgeState = BridgeState(
    closeToTray: bool, trayAvailable: bool, loaderPresent: bool, quitting: bool,
    workspace: Option<string>, visible: bool, labels: map<string, string>,
    lastSpawn: nat, out: seq<Request>, spawns: seq<nat>)

  function Attached(): BridgeState {
    BridgeState(false, false, false, false, None, false, map[], 0, [], [])
  }

  /** The workspace as it goes over the wire: a null pointer is sent as the empty string. */
  function Sent(workspace: Option<string>): string {
    if workspace.Some? then workspace.value else ""
  }

  function LoaderCall(b: BridgeState, req: Request): BridgeState {
    if b.loaderPresent then b.(out := b.out + [req]) else b
  }

  function LoaderUpdate(b: BridgeState): BridgeState {
    LoaderCall(b, Update(Sent(b.workspace), b.visible))
  }

  function SendLabels(b: BridgeState): BridgeState {
    if |b.labels| == 0 then b else LoaderCall(b, SetLabels(b.labels))
  }

  function SpawnLoader(b: BridgeState, now: nat): BridgeState {
    if b.lastSpawn != 0 && now - b.lastSpawn < RESPAWN_BACKOFF then b
    else b.(lastSpawn := now, spawns := b.spawns + [now])
  }

  function OnLoaderAppeared(b: BridgeState): BridgeState {
    SendLabels(b.(loaderPresent := true, out := b.out + [Register(Sent(b.workspace), b.visible)]))
  }

  function OnLoaderVanished(b: BridgeState, now: nat): BridgeState {
    var b' := b.(loaderPresent := false, trayAvailable := false);
    if b.quitting then b' else SpawnLoader(b', now)
  }

  function ShowWindow(b: BridgeState): BridgeState { LoaderUpdate(b.(visible := true)) }

  /** Refused unless something can bring the window back. */
  function HideWindow(b: BridgeState): BridgeState {
    if b.trayAvailable then LoaderUpdate(b.(visible := false)) else b
  }

  function QuitProcess(b: BridgeState): BridgeState { b.(quitting := true) }

  function QuitEveryWindow(b: BridgeState): BridgeState {
    if b.loaderPresent then LoaderCall(b, QuitAll) else QuitProcess(b)
  }

  predicate HidesOnClose(b: BridgeState) {
    !b.quitting && b.closeToTray && b.trayAvailable
  }

  function OnDeleteEvent(b: BridgeState): BridgeState {
    if HidesOnClose(b) then HideWindow(b) else b
  }

  function OnWindowCall(b: BridgeState, wm: WindowMethod): BridgeState {
    match wm
    case Show => ShowWindow(b)
    case Hide => HideWindow(b)
    case Quit => QuitProcess(b)
  }

  function SetWorkspace(b: BridgeState, workspace: Option<string>): BridgeState {
    LoaderUpdate(b.(workspace := workspace))
  }

  function MergeLabels(b: BridgeState, sent: map<string, string>): BridgeState {
    SendLabels(b.(labels := b.labels + sent))
  }

  function OnMessage(b: BridgeState, now: nat, m: ToWindow): BridgeState {
    match m
    case Appeared(_) => OnLoaderAppeared(b)
    case Vanished => OnLoaderVanished(b, now)
    case RegisterReply(available) => b.(trayAvailable := available)
    case AvailabilityChanged(available) => b.(trayAvailable := available)
    case Method(wm) => OnWindowCall(b, wm)
  }

  /** What the Dart side, the user or GTK can do to a window. `FirstFrame` is the show of
      `linux/runner/clide_app.cc`, which goes past the bridge. */
  datatype WindowOp =
    | DoShow | DoHide | DoQuit | DoQuitAll | DoPulse | DoClose | FirstFrame
    | DoSetWorkspace(workspace: Option<string>) | DoSetLabels(labels: map<string, string>)
    | DoSetCloseToTray(on: bool)

  function OnOp(b: BridgeState, op: WindowOp): BridgeState {
    match op
    case DoShow => ShowWindow(b)
    case DoHide => HideWindow(b)
    case DoQuit => QuitProcess(b)
    case DoQuitAll => QuitEveryWindow(b)
    case DoPulse => LoaderCall(b, Pulse)
    case DoClose => OnDeleteEvent(b)
    case FirstFrame => b.(visible := true)
    case DoSetWorkspace(workspace) => SetWorkspace(b, workspace)
    case DoSetLabels(labels) => MergeLabels(b, labels)
    case DoSetCloseToTray(on) => b.(closeToTray := on)
  }
}

/** The same callbacks in the source's form: one mutable bridge, updated in place. */
module TrayBridge {
  import opened Common
  import opened TrayLoaderSpec
  import opened TrayBridgeSpec

  class Bridge {
    var closeToTray: bool
    var trayAvailable: bool
    var loaderPresent: bool
    var quitting: bool
    var workspace: Option<string>
    var visible: bool
    var labels: map<string, string>
    var lastSpawn: nat
    var out: seq<Request>
    var spawns: seq<nat>

    function State(): BridgeState
      reads this
    {
      BridgeState(closeToTray, trayAvailable, loaderPresent, quitting, workspace, visible, labels, lastSpawn,
                  out, spawns)
    }

    constructor ()
      ensures State() == Attached()
    {
      closeToTray, trayAvailable, loaderPresent, quitting := false, false, false, false;
      workspace, visible, labels := None, false, map[];
      lastSpawn, out, spawns := 0, [], [];
    }

    /** Returns whether Dart is told, which happens exactly on a change. */
    method SetTrayAvailable(available: bool) returns (told: bool)
      modifies this`trayAvailable
      ensures State() == old(State()).(trayAvailable := available)
      ensures told <==> old(trayAvailable) != available
    {
      if available == trayAvailable { return false; }
      trayAvailable := available;
      return true;
    }

    method CallLoader(req: Request)
      modifies this`out
      ensures State() == LoaderCall(old(State()), req)
    {
      if !loaderPresent { return; }
      out := out + [req];
    }

    method UpdateLoader()
      modifies this`out
      ensures State() == LoaderUpdate(old(State()))
    {
      CallLoader(Update(Sent(workspace), visible));
    }

    method SetLoaderLabels()
      modifies this`out
      ensures State() == SendLabels(old(State()))
    {
      if |labels| == 0 { return; }
      CallLoader(SetLabels(labels));
    }

    /** `reply` is `None` when the call failed. */
    method OnRegisterReply(reply: Option<bool>)
      modifies this`trayAvailable
      ensures reply.None? ==> State() == old(State())
      ensures reply.Some? ==> State() == old(State()).(trayAvailable := reply.value)
    {
      if reply.None? { return; }
      var _ := SetTrayAvailable(reply.value);
    }

    method Spawn(now: nat)
      modifies this`lastSpawn, this`spawns
      ensures State() == SpawnLoader(old(State()), now)
    {
      if lastSpawn != 0 && now - lastSpawn < RESPAWN_BACKOFF { return; }
      lastSpawn := now;
      spawns := spawns + [now];
    }

    method LoaderAppears()
      modifies this`loaderPresent, this`out
      ensures State() == OnLoaderAppeared(old(State()))
    {
      loaderPresent := true;
      out := out + [Register(Sent(workspace), visible)];
      SetLoaderLabels();
    }

    method LoaderVanishes(now: nat)
      modifies this`loaderPresent, this`trayAvailable, this`lastSpawn, this`spawns
      ensures State() == OnLoaderVanished(old(State()), now)
    {
      loaderPresent := false;
      var _ := SetTrayAvailable(false);
      if !quitting { Spawn(now); }
    }

    method ShowNow()
      modifies this`visible, this`out
      ensures State() == ShowWindow(old(State()))
    {
      visible := true;
      UpdateLoader();
    }

    method HideNow() returns (hidden: bool)
      modifies this`visible, this`out
      ensures State() == HideWindow(old(State()))
      ensures hidden <==> old(trayAvailable)
    {
      if !trayAvailable { return false; }
      visible := false;
      UpdateLoader();
      return true;
    }

    method Quit()
      modifies this`quitting
      ensures State() == QuitProcess(old(State()))
    {
      quitting := true;
    }

    method QuitAllWindows()
      modifies this`out, this`quitting
      ensures State() == QuitEveryWindow(old(State()))
    {
      if loaderPresent { CallLoader(QuitAll); } else { Quit(); }
    }

    /** Returns true when the close was handled by hiding; otherwise GTK destroys the window. */
    method DeleteEvent() returns (handled: bool)
      modifies this`visible, this`out
      ensures State() == OnDeleteEvent(old(State()))
      ensures handled <==> old(!quitting && closeToTray && trayAvailable)
    {
      if !quitting && closeToTray {
        var hidden := HideNow();
        if hidden { return true; }
      }
      return false;
    }

    method WindowCall(wm: WindowMethod)
      modifies this`visible, this`out, this`quitting
      ensures State() == OnWindowCall(old(State()), wm)
    {
      match wm {
        case Show => ShowNow();
        case Hide => var _ := HideNow();
        case Quit => Quit();
      }
    }

    method ChangeWorkspace(sent: Option<string>)
      modifies this`workspace, this`out
      ensures State() == SetWorkspace(old(State()), sent)
    {
      workspace := sent;
      UpdateLoader();
    }

    method ChangeLabels(sent: map<string, string>)
      modifies this`labels, this`out
      ensures State() == MergeLabels(old(State()), sent)
    {
      labels := labels + sent;
      SetLoaderLabels();
    }
  }
}
