/** The handlers of `linux/runner/clide_loader.cc` in the form the source has: one mutable loader whose
    fields every handler updates, with the source's loops over the window array. Each method is proved to
    take the loader's state where the function of the same name in `TrayLoaderSpec` says. */
module TrayLoader {
  import opened Common
  import opened TrayLoaderSpec

  class Loader {
    var rows: seq<Row>
    var nextId: int
    var registered: nat
    var labels: map<string, string>
    var watcherPresent: bool
    var hostRegistered: bool
    var asks: nat
    var trayAvailable: bool
    var exitAt: Option<nat>
    var acquired: bool
    var quitting: bool
    var out: seq<FromLoader>

    function State(): LoaderState
      reads this
    {
      LoaderState(rows, nextId, registered, labels, watcherPresent, hostRegistered, asks, trayAvailable,
                  exitAt, acquired, quitting, out)
    }

    constructor ()
      ensures State() == Fresh()
    {
      rows, nextId, registered, labels := [], 1, 0, map[];
      watcherPresent, hostRegistered, asks, trayAvailable := false, false, 0, false;
      exitAt, acquired, quitting, out := None, false, false, [];
    }

    // ---- small helpers ----------------------------------------------------------------------------

    /** `window_by_sender`: the first row of `sender`; -1 stands for the null pointer. */
    method WindowBySender(sender: Wid) returns (i: int)
      ensures i == -1 ==> forall k :: 0 <= k < |rows| ==> rows[k].sender != sender
      ensures i != -1 ==> 0 <= i < |rows| && rows[i].sender == sender
      ensures i != -1 ==> forall k :: 0 <= k < i ==> rows[k].sender != sender
    {
      var k := 0;
      while k < |rows|
        invariant 0 <= k <= |rows|
        invariant forall m :: 0 <= m < k ==> rows[m].sender != sender
      {
        if rows[k].sender == sender { return k; }
        k := k + 1;
      }
      return -1;
    }

    /** `window_by_id`: the first row with menu id `id`; -1 stands for the null pointer. */
    method WindowById(id: int) returns (i: int)
      ensures i == -1 ==> forall k :: 0 <= k < |rows| ==> rows[k].id != id
      ensures i != -1 ==> 0 <= i < |rows| && rows[i].id == id
      ensures i != -1 ==> forall k :: 0 <= k < i ==> rows[k].id != id
    {
      var k := 0;
      while k < |rows|
        invariant 0 <= k <= |rows|
        invariant forall m :: 0 <= m < k ==> rows[m].id != id
      {
        if rows[k].id == id { return k; }
        k := k + 1;
      }
      return -1;
    }

    method CallWindow(i: int, wm: WindowMethod)
      requires 0 <= i < |rows|
      modifies this`out
      ensures out == old(out) + [Call(rows[i].sender, wm)]
    {
      out := out + [Call(rows[i].sender, wm)];
    }

    /** The loop shared by `show_all`, `hide_all` and `quit_all`. */
    method CallEach(wm: WindowMethod)
      modifies this`out
      ensures out == old(out) + CallAll(rows, wm)
    {
      var i := 0;
      while i < |rows|
        invariant 0 <= i <= |rows|
        invariant out == old(out) + CallAll(rows, wm)[..i]
      {
        CallWindow(i, wm);
        assert CallAll(rows, wm)[..i + 1] == CallAll(rows, wm)[..i] + [Call(rows[i].sender, wm)];
        i := i + 1;
      }
      assert CallAll(rows, wm)[..i] == CallAll(rows, wm);
    }

    // ---- lifetime ---------------------------------------------------------------------------------

    method ScheduleExit(now: nat, seconds: nat)
      modifies this`exitAt
      ensures State() == TrayLoaderSpec.ScheduleExit(old(State()), now, seconds)
    {
      if exitAt.Some? { exitAt := None; }
      exitAt := Some(now + seconds * USEC_PER_SEC);
    }

    method CancelExit()
      modifies this`exitAt
      ensures State() == TrayLoaderSpec.CancelExit(old(State()))
    {
      if exitAt.None? { return; }
      exitAt := None;
    }

    method OnExitTimeout()
      modifies this`exitAt, this`quitting
      ensures State() == TrayLoaderSpec.OnExitTimeout(old(State()))
    {
      exitAt := None;
      if |rows| == 0 { quitting := true; }
    }

    method OnNameAcquired(now: nat)
      modifies this`acquired, this`exitAt
      ensures State() == TrayLoaderSpec.OnNameAcquired(old(State()), now)
    {
      acquired := true;
      ScheduleExit(now, STARTUP_EXIT_SECONDS);
    }

    // ---- menu -------------------------------------------------------------------------------------

    method BuildMenuIds() returns (ids: seq<int>)
      ensures ids == MenuIds(rows)
    {
      ids := [];
      var i := 0;
      while i < |rows|
        invariant 0 <= i <= |rows|
        invariant ids == RowIds(rows)[..i]
      {
        ids := ids + [rows[i].id];
        i := i + 1;
      }
      assert RowIds(rows)[..i] == RowIds(rows);
      if |rows| > 0 { ids := ids + [SEPARATOR_A_ID]; }
      ids := ids + [SHOW_ALL_ID, HIDE_ALL_ID, SEPARATOR_B_ID, QUIT_ALL_ID];
    }

    method QuitAllWindows(now: nat)
      modifies this`out, this`exitAt
      ensures State() == OnQuitAll(old(State()), now)
    {
      CallEach(Quit);
      ScheduleExit(now, IDLE_EXIT_SECONDS + 2);
    }

    method OnMenuClicked(now: nat, id: int)
      modifies this`out, this`exitAt
      ensures State() == MenuClicked(old(State()), now, id)
    {
      if id == SHOW_ALL_ID {
        CallEach(Show);
      } else if id == HIDE_ALL_ID {
        CallEach(Hide);
      } else if id == QUIT_ALL_ID {
        QuitAllWindows(now);
      } else {
        var i := WindowById(id);
        if i != -1 { CallWindow(i, Show); }
      }
    }

    method OnActivate()
      modifies this`out
      ensures State() == ToggleWindows(old(State()))
    {
      var anyHidden := false;
      var i := 0;
      while i < |rows|
        invariant 0 <= i <= |rows|
        invariant anyHidden <==> exists k :: 0 <= k < i && !rows[k].visible
      {
        if !rows[i].visible { anyHidden := true; }
        i := i + 1;
      }
      if anyHidden || |rows| == 0 { CallEach(Show); } else { CallEach(Hide); }
    }

    // ---- tray availability ------------------------------------------------------------------------

    method UpdateTrayAvailable(available: bool)
      modifies this`trayAvailable, this`out
      ensures State() == SetTrayAvailable(old(State()), available)
    {
      if available == trayAvailable { return; }
      trayAvailable := available;
      out := out + [TrayAvailabilityChanged(available)];
    }

    method OnHostRegisteredReply(answer: Option<bool>)
      modifies this`asks, this`hostRegistered, this`trayAvailable, this`out
      ensures State() == OnHostReply(old(State()), answer)
    {
      if asks > 0 { asks := asks - 1; }
      hostRegistered := true;
      if answer.Some? { hostRegistered := answer.value; }
      UpdateTrayAvailable(watcherPresent && hostRegistered);
    }

    method RegisterWithWatcher()
      modifies this`asks
      ensures State() == OnWatcherSignal(old(State()), HostUnregistered)
    {
      asks := asks + 1;
    }

    method OnWatcherSignalled(signal: WatcherSignal)
      modifies this`asks, this`hostRegistered, this`trayAvailable, this`out
      ensures State() == OnWatcherSignal(old(State()), signal)
    {
      if signal.HostRegistered? {
        hostRegistered := true;
      } else if signal.HostUnregistered? {
        RegisterWithWatcher();
        return;
      }
      UpdateTrayAvailable(watcherPresent && hostRegistered);
    }

    method OnWatcherAppears()
      modifies this`watcherPresent, this`asks
      ensures State() == OnWatcherAppeared(old(State()))
    {
      watcherPresent := true;
      RegisterWithWatcher();
    }

    method OnWatcherVanishes()
      modifies this`watcherPresent, this`hostRegistered, this`trayAvailable, this`out
      ensures State() == OnWatcherVanished(old(State()))
    {
      watcherPresent := false;
      hostRegistered := false;
      UpdateTrayAvailable(watcherPresent && hostRegistered);
    }

    // ---- the loader's own interface ---------------------------------------------------------------

    method OnWindowVanishes(now: nat, name: Wid)
      modifies this`rows, this`exitAt
      ensures State() == OnWindowVanished(old(State()), now, name)
    {
      var i := 0;
      while i < |rows|
        invariant 0 <= i <= |rows|
        invariant rows == old(rows)
        invariant forall k :: 0 <= k < i ==> rows[k].sender != name
      {
        if rows[i].sender == name {
          rows := rows[..i] + rows[i + 1..];
          break;
        }
        i := i + 1;
      }
      if |rows| == 0 { ScheduleExit(now, IDLE_EXIT_SECONDS); }
    }

    method OnRegisterOrUpdate(from: Wid, workspace: string, visible: bool)
      modifies this`rows, this`nextId, this`registered, this`exitAt, this`out
      ensures State() == Record(old(State()), from, workspace, visible)
    {
      var i := WindowBySender(from);
      if i == -1 {
        var row := Row(nextId, registered, from, workspace, visible);
        nextId := nextId + 1;
        if nextId >= FIRST_FIXED_ID { nextId := 1; }
        registered := registered + 1;
        out := out + [Watch(from)];
        rows := rows + [row];
        CancelExit();
      } else {
        rows := rows[i := rows[i].(workspace := workspace, visible := visible)];
      }
    }

    method OnLoaderCall(now: nat, from: Wid, req: Request)
      modifies this
      ensures State() == OnCall(old(State()), now, from, req)
    {
      match req {
        case Register(workspace, visible) =>
          OnRegisterOrUpdate(from, workspace, visible);
          out := out + [Reply(from, trayAvailable)];
        case Update(workspace, visible) => OnRegisterOrUpdate(from, workspace, visible);
        case SetLabels(sent) => labels := labels + sent;
        case QuitAll => QuitAllWindows(now);
        case Pulse =>
      }
    }
  }
}
