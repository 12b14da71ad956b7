/** The tray loader of `linux/runner/clide_loader.cc` as a state machine on values: one function per
    handler. `TrayLoader` proves the imperative handlers against these functions, and `TrayProtocol`
    runs them inside the whole session. */
module TrayLoaderSpec {
  import opened Common

  /** A window's unique bus name. The bus never gives the same unique name out twice. */
  type Wid = nat

  datatype WindowMethod = Show | Hide | Quit

  /** What a window process asks of the loader. */
  datatype Request =
    | Register(workspace: string, visible: bool)
    | Update(workspace: string, visible: bool)
    | SetLabels(labels: map<string, string>)
    | QuitAll
    | Pulse

  /** What the loader hands to its connection, in order. `Watch` is the bus watch on a window's name. */
  datatype FromLoader =
    | Reply(to: Wid, available: bool)
    | TrayAvailabilityChanged(available: bool)
    | Call(to: Wid, wm: WindowMethod)
    | Watch(name: Wid)

  /** One registered window. `ordinal` is history: how many rows this loader created before this one. */
  datatype Row = Row(id: int, ordinal: nat, sender: Wid, workspace: string, visible: bool)

  const FIRST_FIXED_ID := 1000
  const SHOW_ALL_ID := 1000
  const HIDE_ALL_ID := 1001
  const QUIT_ALL_ID := 1002
  const SEPARATOR_A_ID := 2000
  const SEPARATOR_B_ID := 2001

  const USEC_PER_SEC := 1_000_000
  const IDLE_EXIT_SECONDS := 3
  const STARTUP_EXIT_SECONDS := 20

  /** Times are microseconds. `exitAt` is the deadline of the armed exit timer, `asks` counts the unanswered questions to the
      status notifier watcher, `registered` (history) the rows ever created, and `out` the messages
      handed to the connection and not yet taken by the bus. */
  datatype LoaderState = LoaderState(
    rows: seq<Row>, nextId: int, registered: nat, labels: map<string, string>,
    watcherPresent: bool, hostRegistered: bool, asks: nat, trayAvailable: bool,
    exitAt: Option<nat>, acquired: bool, quitting: bool, out: seq<FromLoader>)

  function Fresh(): LoaderState {
    LoaderState([], 1, 0, map[], false, false, 0, false, None, false, false, [])
  }

  // ---- rows ---------------------------------------------------------------------------------------

  /** Position of the first row of `sender`, or the number of rows if it has none. */
  function SenderIndex(rows: seq<Row>, sender: Wid): (i: nat)
    ensures i <= |rows|
    ensures i < |rows| ==> rows[i].sender == sender
    ensures forall k :: 0 <= k < i ==> rows[k].sender != sender
  {
    if |rows| == 0 then 0
    else if rows[0].sender == sender then 0
    else 1 + SenderIndex(rows[1..], sender)
  }

  /** Position of the first row with menu id `id`, or the number of rows if there is none. */
  function IdIndex(rows: seq<Row>, id: int): (i: nat)
    ensures i <= |rows|
    ensures i < |rows| ==> rows[i].id == id
    ensures forall k :: 0 <= k < i ==> rows[k].id != id
  {
    if |rows| == 0 then 0
    else if rows[0].id == id then 0
    else 1 + IdIndex(rows[1..], id)
  }

  /** What the loader has on record for `sender`. */
  function RowOf(rows: seq<Row>, sender: Wid): Option<(string, bool)> {
    var i := SenderIndex(rows, sender);
    if i < |rows| then Some((rows[i].workspace, rows[i].visible)) else None
  }

  ghost predicate UniqueSenders(rows: seq<Row>) {
    forall i, j :: 0 <= i < j < |rows| ==> rows[i].sender != rows[j].sender
  }

  function WithoutSender(rows: seq<Row>, name: Wid): seq<Row> {
    var i := SenderIndex(rows, name);
    if i < |rows| then rows[..i] + rows[i + 1..] else rows
  }

  // ---- lifetime -----------------------------------------------------------------------------------

  function ScheduleExit(s: LoaderState, now: nat, seconds: nat): LoaderState {
    s.(exitAt := Some(now + seconds * USEC_PER_SEC))
  }

  function CancelExit(s: LoaderState): LoaderState {
    s.(exitAt := None)
  }

  function OnExitTimeout(s: LoaderState): LoaderState {
    s.(exitAt := None, quitting := s.quitting || |s.rows| == 0)
  }

  function OnNameAcquired(s: LoaderState, now: nat): LoaderState {
    ScheduleExit(s.(acquired := true), now, STARTUP_EXIT_SECONDS)
  }

  function OnQuitSignal(s: LoaderState): LoaderState {
    s.(quitting := true)
  }

  // ---- menu ---------------------------------------------------------------------------------------

  function RowIds(rows: seq<Row>): seq<int> {
    seq(|rows|, i requires 0 <= i < |rows| => rows[i].id)
  }

  function MenuIds(rows: seq<Row>): seq<int> {
    RowIds(rows) + (if |rows| > 0 then [SEPARATOR_A_ID] else [])
    + [SHOW_ALL_ID, HIDE_ALL_ID, SEPARATOR_B_ID, QUIT_ALL_ID]
  }

  /** One call of `wm` to every row, in row order. */
  function CallAll(rows: seq<Row>, wm: WindowMethod): seq<FromLoader> {
    seq(|rows|, i requires 0 <= i < |rows| => Call(rows[i].sender, wm))
  }

  function ShowAll(s: LoaderState): LoaderState { s.(out := s.out + CallAll(s.rows, Show)) }

  function HideAll(s: LoaderState): LoaderState { s.(out := s.out + CallAll(s.rows, Hide)) }

  function OnQuitAll(s: LoaderState, now: nat): LoaderState {
    ScheduleExit(s.(out := s.out + CallAll(s.rows, Quit)), now, IDLE_EXIT_SECONDS + 2)
  }

  function MenuClicked(s: LoaderState, now: nat, id: int): LoaderState {
    if id == SHOW_ALL_ID then ShowAll(s)
    else if id == HIDE_ALL_ID then HideAll(s)
    else if id == QUIT_ALL_ID then OnQuitAll(s, now)
    else
      var i := IdIndex(s.rows, id);
      if i < |s.rows| then s.(out := s.out + [Call(s.rows[i].sender, Show)]) else s
  }

  predicate AnyHidden(rows: seq<Row>) {
    exists i :: 0 <= i < |rows| && !rows[i].visible
  }

  function ToggleWindows(s: LoaderState): LoaderState {
    if AnyHidden(s.rows) || |s.rows| == 0 then ShowAll(s) else HideAll(s)
  }

  // ---- tray availability --------------------------------------------------------------------------

  function SetTrayAvailable(s: LoaderState, available: bool): LoaderState {
    if available == s.trayAvailable then s
    else s.(trayAvailable := available, out := s.out + [TrayAvailabilityChanged(available)])
  }

  function Refresh(s: LoaderState): LoaderState {
    SetTrayAvailable(s, s.watcherPresent && s.hostRegistered)
  }

  /** The watcher answered (`None`: the call failed or the answer was no boolean). */
  function OnHostReply(s: LoaderState, answer: Option<bool>): LoaderState {
    Refresh(s.(asks := if s.asks > 0 then s.asks - 1 else 0,
               hostRegistered := answer.None? || answer.value))
  }

  /** The signals of the watcher. After `HostUnregistered` another host may remain, so the watcher is asked
      again; every other signal ends in a refresh. */
  datatype WatcherSignal = HostRegistered | HostUnregistered | OtherSignal

  function OnWatcherSignal(s: LoaderState, signal: WatcherSignal): LoaderState {
    match signal
    case HostRegistered => Refresh(s.(hostRegistered := true))
    case HostUnregistered => s.(asks := s.asks + 1)
    case OtherSignal => Refresh(s)
  }

  function OnWatcherAppeared(s: LoaderState): LoaderState {
    s.(watcherPresent := true, asks := s.asks + 1)
  }

  function OnWatcherVanished(s: LoaderState): LoaderState {
    Refresh(s.(watcherPresent := false, hostRegistered := false))
  }

  // ---- the loader's own interface -----------------------------------------------------------------

  function OnWindowVanished(s: LoaderState, now: nat, name: Wid): LoaderState {
    var s' := s.(rows := WithoutSender(s.rows, name));
    if |s'.rows| == 0 then ScheduleExit(s', now, IDLE_EXIT_SECONDS) else s'
  }

  function NextId(id: int): int {
    if id + 1 >= FIRST_FIXED_ID then 1 else id + 1
  }

  /** `Register` and `Update` up to the reply: an unknown sender gets a new row either way. */
  function Record(s: LoaderState, from: Wid, workspace: string, visible: bool): LoaderState {
    var i := SenderIndex(s.rows, from);
    if i < |s.rows| then
      s.(rows := s.rows[i := s.rows[i].(workspace := workspace, visible := visible)])
    else
      CancelExit(s.(rows := s.rows + [Row(s.nextId, s.registered, from, workspace, visible)],
                    nextId := NextId(s.nextId), registered := s.registered + 1,
                    out := s.out + [Watch(from)]))
  }

  function OnCall(s: LoaderState, now: nat, from: Wid, req: Request): LoaderState {
    match req
    case Register(workspace, visible) =>
      var s' := Record(s, from, workspace, visible);
      s'.(out := s'.out + [Reply(from, s'.trayAvailable)])
    case Update(workspace, visible) => Record(s, from, workspace, visible)
    case SetLabels(labels) => s.(labels := s.labels + labels)
    case QuitAll => OnQuitAll(s, now)
    case Pulse => s
  }

  /** Everything the session can do to a loader besides messages from windows. */
  datatype Env =
    | WatcherAppeared | WatcherVanished | WatcherSignalled(signal: WatcherSignal) | HostReply(answer: Option<bool>)
    | Clicked(id: int) | Activated | SecondaryActivated | Signalled

  function OnEnv(s: LoaderState, now: nat, e: Env): LoaderState {
    match e
    case WatcherAppeared => OnWatcherAppeared(s)
    case WatcherVanished => OnWatcherVanished(s)
    case WatcherSignalled(signal) => OnWatcherSignal(s, signal)
    case HostReply(answer) => OnHostReply(s, answer)
    case Clicked(id) => MenuClicked(s, now, id)
    case Activated => ToggleWindows(s)
    case SecondaryActivated => ShowAll(s)
    case Signalled => OnQuitSignal(s)
  }
}
