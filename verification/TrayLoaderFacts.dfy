/** What holds of one loader over any sequence of calls, bus notices, watcher callbacks, clicks and timer
    firings, in any order and at any times. */
module TrayLoaderFacts {
  import opened Common
  import opened TrayLoaderSpec

  /** One thing happening to a running loader. */
  datatype Action =
    | Called(from: Wid, req: Request)
    | WindowVanished(name: Wid)
    | Fired
    | NameAcquired
    | FromSession(e: Env)

  function Act(s: LoaderState, now: nat, a: Action): LoaderState {
    match a
    case Called(from, req) => OnCall(s, now, from, req)
    case WindowVanished(name) => OnWindowVanished(s, now, name)
    case Fired => OnExitTimeout(s)
    case NameAcquired => OnNameAcquired(s, now)
    case FromSession(e) => OnEnv(s, now, e)
  }

  function Run(actions: seq<(nat, Action)>): LoaderState {
    if |actions| == 0 then Fresh()
    else
      var (now, a) := actions[|actions| - 1];
      Act(Run(actions[..|actions| - 1]), now, a)
  }

  // ---- the invariant ------------------------------------------------------------------------------

  /** Menu ids follow from registration order, which is also the order of the rows. */
  ghost predicate Numbered(s: LoaderState) {
    && s.nextId == s.registered % 999 + 1
    && (forall i :: 0 <= i < |s.rows| ==>
          s.rows[i].id == s.rows[i].ordinal % 999 + 1 && s.rows[i].ordinal < s.registered)
    && (forall i, j :: 0 <= i < j < |s.rows| ==> s.rows[i].ordinal < s.rows[j].ordinal)
  }

  /** An empty window list is always on its way out: the timer is armed or the loop is ending. */
  ghost predicate Leaving(s: LoaderState) {
    s.acquired && |s.rows| == 0 ==> s.exitAt.Some? || s.quitting
  }

  /** The advertised availability is never too good, and when it lags an answer is still due. */
  ghost predicate Honest(s: LoaderState) {
    && (s.trayAvailable ==> s.watcherPresent && s.hostRegistered)
    && (s.watcherPresent && s.hostRegistered && !s.trayAvailable ==> s.asks > 0)
  }

  ghost predicate LoaderInv(s: LoaderState) {
    UniqueSenders(s.rows) && Numbered(s) && Leaving(s) && Honest(s)
  }

  lemma RecordKeepsInv(s: LoaderState, from: Wid, workspace: string, visible: bool)
    requires LoaderInv(s)
    ensures LoaderInv(Record(s, from, workspace, visible))
  {
    var s' := Record(s, from, workspace, visible);
    var i := SenderIndex(s.rows, from);
    if i == |s.rows| {
      assert s'.rows[..|s.rows|] == s.rows;
      assert s'.nextId == s'.registered % 999 + 1;
    }
  }

  lemma WithoutSenderAt(rows: seq<Row>, name: Wid)
    ensures var i, rows' := SenderIndex(rows, name), WithoutSender(rows, name);
            && |rows'| == (if i < |rows| then |rows| - 1 else |rows|)
            && (forall k :: 0 <= k < |rows'| ==> rows'[k] == rows[if k < i then k else k + 1])
  {
    var i := SenderIndex(rows, name);
    if i < |rows| { DroppedAt(rows, i); }
  }

  lemma DroppedAt(rows: seq<Row>, i: nat)
    requires i < |rows|
    ensures var rows' := rows[..i] + rows[i + 1..];
            |rows'| == |rows| - 1 && forall k :: 0 <= k < |rows'| ==> rows'[k] == rows[if k < i then k else k + 1]
  {}

  lemma RemovalKeepsUnique(rows: seq<Row>, name: Wid)
    requires UniqueSenders(rows)
    ensures UniqueSenders(WithoutSender(rows, name))
  {
    WithoutSenderAt(rows, name);
  }

  lemma RemovalKeepsNumbered(s: LoaderState, name: Wid)
    requires Numbered(s)
    ensures Numbered(s.(rows := WithoutSender(s.rows, name)))
  {
    WithoutSenderAt(s.rows, name);
  }

  lemma VanishKeepsInv(s: LoaderState, now: nat, name: Wid)
    requires LoaderInv(s)
    ensures LoaderInv(OnWindowVanished(s, now, name))
  {
    var s' := OnWindowVanished(s, now, name);
    RemovalKeepsUnique(s.rows, name);
    RemovalKeepsNumbered(s, name);
    assert Numbered(s') && Leaving(s') && Honest(s');
  }

  /** A step that leaves the window list alone keeps what the invariant says about the list. */
  lemma FrameKeepsInv(s: LoaderState, s': LoaderState)
    requires LoaderInv(s)
    requires s'.rows == s.rows && s'.nextId == s.nextId && s'.registered == s.registered
    requires Leaving(s') && Honest(s')
    ensures LoaderInv(s')
  {}

  lemma CallKeepsInv(s: LoaderState, now: nat, from: Wid, req: Request)
    requires LoaderInv(s)
    ensures LoaderInv(OnCall(s, now, from, req))
  {
    var s' := OnCall(s, now, from, req);
    match req {
      case Register(workspace, visible) =>
        RecordKeepsInv(s, from, workspace, visible);
        FrameKeepsInv(Record(s, from, workspace, visible), s');
      case Update(workspace, visible) => RecordKeepsInv(s, from, workspace, visible);
      case SetLabels(_) => FrameKeepsInv(s, s');
      case QuitAll => FrameKeepsInv(s, s');
      case Pulse =>
    }
  }

  lemma ClickLeavesList(s: LoaderState, now: nat, id: int)
    requires Leaving(s) && Honest(s)
    ensures var s' := MenuClicked(s, now, id);
            && s'.rows == s.rows && s'.nextId == s.nextId && s'.registered == s.registered
            && Leaving(s') && Honest(s')
  {
    if id == SHOW_ALL_ID {
    } else if id == HIDE_ALL_ID {
    } else if id == QUIT_ALL_ID {
      assert MenuClicked(s, now, id) == OnQuitAll(s, now);
    } else {
      var i := IdIndex(s.rows, id);
      assert i < |s.rows| ==> MenuClicked(s, now, id) == s.(out := s.out + [Call(s.rows[i].sender, Show)]);
    }
  }

  lemma EnvLeavesList(s: LoaderState, now: nat, e: Env)
    requires Leaving(s) && Honest(s)
    ensures var s' := OnEnv(s, now, e);
            && s'.rows == s.rows && s'.nextId == s.nextId && s'.registered == s.registered
            && Leaving(s') && Honest(s')
  {
    match e {
      case WatcherAppeared =>
      case WatcherVanished => VanishHonest(s);
      case WatcherSignalled(signal) => SignalHonest(s, signal);
      case HostReply(answer) => ReplyHonest(s, answer);
      case Clicked(id) => ClickLeavesList(s, now, id);
      case Activated => ToggleLeavesList(s);
      case SecondaryActivated =>
      case Signalled =>
    }
  }

  lemma ToggleLeavesList(s: LoaderState)
    ensures ToggleWindows(s) == s.(out := ToggleWindows(s).out)
  {}

  lemma VanishHonest(s: LoaderState)
    requires Leaving(s)
    ensures var s' := OnWatcherVanished(s);
            && s'.rows == s.rows && s'.nextId == s.nextId && s'.registered == s.registered
            && Leaving(s') && Honest(s')
  {
    RefreshHonest(s.(watcherPresent := false, hostRegistered := false));
  }

  lemma SignalHonest(s: LoaderState, signal: WatcherSignal)
    requires Leaving(s) && Honest(s)
    ensures var s' := OnWatcherSignal(s, signal);
            && s'.rows == s.rows && s'.nextId == s.nextId && s'.registered == s.registered
            && Leaving(s') && Honest(s')
  {
    RefreshHonest(s.(hostRegistered := true));
    RefreshHonest(s);
  }

  /** A refresh makes the advertised availability right, and changes nothing else but what is sent. */
  lemma RefreshHonest(s: LoaderState)
    ensures var s' := Refresh(s);
            s'.trayAvailable == (s.watcherPresent && s.hostRegistered)
            && s' == s.(trayAvailable := s'.trayAvailable, out := s'.out)
  {}

  lemma ReplyHonest(s: LoaderState, answer: Option<bool>)
    requires Leaving(s)
    ensures var s' := OnHostReply(s, answer);
            && s'.rows == s.rows && s'.nextId == s.nextId && s'.registered == s.registered
            && Leaving(s') && Honest(s')
  {
    RefreshHonest(s.(asks := if s.asks > 0 then s.asks - 1 else 0, hostRegistered := answer.None? || answer.value));
  }

  lemma ActKeepsInv(s: LoaderState, now: nat, a: Action)
    requires LoaderInv(s)
    ensures LoaderInv(Act(s, now, a))
  {
    match a {
      case Called(from, req) => CallKeepsInv(s, now, from, req);
      case WindowVanished(name) => VanishKeepsInv(s, now, name);
      case Fired => FrameKeepsInv(s, OnExitTimeout(s));
      case NameAcquired => FrameKeepsInv(s, OnNameAcquired(s, now));
      case FromSession(e) =>
        EnvLeavesList(s, now, e);
        FrameKeepsInv(s, OnEnv(s, now, e));
    }
  }

  lemma {:induction false} RunKeepsInv(actions: seq<(nat, Action)>)
    ensures LoaderInv(Run(actions))
  {
    if |actions| > 0 {
      var (now, a) := actions[|actions| - 1];
      RunKeepsInv(actions[..|actions| - 1]);
      ActKeepsInv(Run(actions[..|actions| - 1]), now, a);
    }
  }

  // ---- lifetime -----------------------------------------------------------------------------------

  /** Over every run: an empty list of an acquired loader has an armed timer or an ending loop. */
  lemma EmptyListIsLeaving(actions: seq<(nat, Action)>)
    ensures var s := Run(actions); s.acquired && |s.rows| == 0 ==> s.exitAt.Some? || s.quitting
  {
    RunKeepsInv(actions);
  }

  /** What ends the loop: a signal, or the timer firing on an empty list. */
  predicate EndsLoop(s: LoaderState, a: Action) {
    a == FromSession(Signalled) || (a == Fired && |s.rows| == 0)
  }

  ghost predicate EndedAt(actions: seq<(nat, Action)>, k: nat) {
    k < |actions| && EndsLoop(Run(actions[..k]), actions[k].1)
  }

  /** Over every run: the loop is ending exactly when some signal came, or the timer fired at a moment when
      the list was empty; nothing that `quit_all` or the menu does ends it, and nothing revives it. */
  lemma EndingIff(actions: seq<(nat, Action)>)
    ensures Run(actions).quitting <==> exists k: nat :: EndedAt(actions, k)
  {
    EndingUpTo(actions, |actions|);
    assert actions[..|actions|] == actions;
    assert forall k: nat :: EndedAt(actions, k) ==> k < |actions|;
  }

  lemma {:induction false} EndingUpTo(actions: seq<(nat, Action)>, n: nat)
    requires n <= |actions|
    ensures Run(actions[..n]).quitting <==> exists k: nat :: k < n && EndedAt(actions, k)
  {
    if n > 0 {
      EndingUpTo(actions, n - 1);
      RunAt(actions, n);
      QuittingStep(Run(actions[..n - 1]), actions[n - 1].0, actions[n - 1].1);
      LastEnds(actions, n);
      assert forall k: nat :: k < n && EndedAt(actions, k) ==> k < n - 1 || k == n - 1;
    }
  }

  lemma LastEnds(actions: seq<(nat, Action)>, n: nat)
    requires 0 < n <= |actions|
    ensures EndedAt(actions, n - 1) <==> EndsLoop(Run(actions[..n - 1]), actions[n - 1].1)
  {}

  lemma RunAt(actions: seq<(nat, Action)>, n: nat)
    requires 0 < n <= |actions|
    ensures Run(actions[..n]) == Act(Run(actions[..n - 1]), actions[n - 1].0, actions[n - 1].1)
  {
    assert actions[..n][..n - 1] == actions[..n - 1];
  }

  lemma QuittingStep(s: LoaderState, now: nat, a: Action)
    ensures Act(s, now, a).quitting <==> s.quitting || EndsLoop(s, a)
  {
    match a {
      case Called(from, req) => CallKeepsLoop(s, now, from, req);
      case WindowVanished(_) =>
      case Fired =>
      case NameAcquired =>
      case FromSession(e) => EnvKeepsLoop(s, now, e);
    }
  }

  lemma CallKeepsLoop(s: LoaderState, now: nat, from: Wid, req: Request)
    ensures OnCall(s, now, from, req).quitting == s.quitting
  {
    match req {
      case Register(_, _) =>
      case Update(_, _) =>
      case SetLabels(_) =>
      case QuitAll =>
      case Pulse =>
    }
  }

  lemma EnvKeepsLoop(s: LoaderState, now: nat, e: Env)
    ensures OnEnv(s, now, e).quitting == (s.quitting || e.Signalled?)
  {
    match e {
      case WatcherAppeared =>
      case WatcherVanished =>
      case WatcherSignalled(_) =>
      case HostReply(_) =>
      case Clicked(_) =>
      case Activated =>
      case SecondaryActivated =>
      case Signalled =>
    }
  }

  // ---- menu ids -----------------------------------------------------------------------------------

  ghost predicate Distinct(q: seq<int>) {
    forall i, j :: 0 <= i < j < |q| ==> q[i] != q[j]
  }

  /** Two live rows clash when they were registered a multiple of 999 apart. */
  ghost predicate Clash(rows: seq<Row>, i: nat, j: nat)
    requires i < |rows| && j < |rows|
  {
    (rows[j].ordinal - rows[i].ordinal) % 999 == 0
  }

  lemma SameIdIffClash(s: LoaderState, i: nat, j: nat)
    requires Numbered(s) && i < |s.rows| && j < |s.rows|
    ensures s.rows[i].id == s.rows[j].id <==> Clash(s.rows, i, j)
  {
    var a, b := s.rows[i].ordinal, s.rows[j].ordinal;
    assert a == 999 * (a / 999) + a % 999 && b == 999 * (b / 999) + b % 999;
  }

  lemma LayoutDistinctIff(s: LoaderState)
    requires Numbered(s)
    ensures Distinct(MenuIds(s.rows)) <==> Distinct(RowIds(s.rows))
  {
    var own := RowIds(s.rows);
    var fixed := MenuIds(s.rows)[|own|..];
    OwnFirst(s.rows);
    FixedApart(s.rows, fixed);
    DistinctParts(own, fixed);
  }

  lemma OwnFirst(rows: seq<Row>)
    ensures var own, ids := RowIds(rows), MenuIds(rows);
            |own| == |rows| && |own| <= |ids| && ids == own + ids[|own|..]
            && ids[|own|..] == (if |rows| > 0 then [SEPARATOR_A_ID] else [])
                               + [SHOW_ALL_ID, HIDE_ALL_ID, SEPARATOR_B_ID, QUIT_ALL_ID]
  {
    var own := RowIds(rows);
    AppendAssoc(own, if |rows| > 0 then [SEPARATOR_A_ID] else [],
                [SHOW_ALL_ID, HIDE_ALL_ID, SEPARATOR_B_ID, QUIT_ALL_ID]);
  }

  lemma FixedApart(rows: seq<Row>, fixed: seq<int>)
    requires fixed == (if |rows| > 0 then [SEPARATOR_A_ID] else [])
                      + [SHOW_ALL_ID, HIDE_ALL_ID, SEPARATOR_B_ID, QUIT_ALL_ID]
    ensures Distinct(fixed) && forall k :: 0 <= k < |fixed| ==> fixed[k] >= FIRST_FIXED_ID
  {}

  lemma DistinctParts(own: seq<int>, fixed: seq<int>)
    requires Distinct(fixed)
    requires forall i :: 0 <= i < |own| ==> own[i] < FIRST_FIXED_ID
    requires forall k :: 0 <= k < |fixed| ==> fixed[k] >= FIRST_FIXED_ID
    ensures Distinct(own + fixed) <==> Distinct(own)
  {
    var ids := own + fixed;
    if Distinct(ids) {
      forall i, j | 0 <= i < j < |own| ensures own[i] != own[j] { assert ids[i] == own[i] && ids[j] == own[j]; }
    }
    forall i, j | Distinct(own) && 0 <= i < j < |ids| ensures ids[i] != ids[j] {
      assert ids[i] == if i < |own| then own[i] else fixed[i - |own|];
      assert ids[j] == if j < |own| then own[j] else fixed[j - |own|];
    }
  }

  /** Over every run: the k-th row gets id k mod 999 + 1, window ids never meet the fixed ids, and the
      ids of the layout are all different exactly when no two live rows clash. */
  lemma MenuIdsDistinctIff(actions: seq<(nat, Action)>)
    ensures var s := Run(actions);
            && (forall i :: 0 <= i < |s.rows| ==>
                  s.rows[i].id == s.rows[i].ordinal % 999 + 1 && 1 <= s.rows[i].id < FIRST_FIXED_ID)
            && (Distinct(MenuIds(s.rows)) <==>
                forall i, j :: 0 <= i < j < |s.rows| ==> !Clash(s.rows, i, j))
  {
    RunKeepsInv(actions);
    LayoutDistinctIff(Run(actions));
    OwnIdsDistinctIff(Run(actions));
  }

  lemma OwnIdsDistinctIff(s: LoaderState)
    requires Numbered(s)
    ensures Distinct(RowIds(s.rows)) <==> forall i, j :: 0 <= i < j < |s.rows| ==> !Clash(s.rows, i, j)
  {
    var own := RowIds(s.rows);
    forall i, j | 0 <= i < j < |s.rows| ensures own[i] == own[j] <==> Clash(s.rows, i, j) {
      SameIdIffClash(s, i, j);
    }
  }

  lemma ClickShowsFirst(s: LoaderState, now: nat, id: int)
    requires IdIndex(s.rows, id) < |s.rows| && id < FIRST_FIXED_ID
    ensures MenuClicked(s, now, id) == s.(out := s.out + [Call(s.rows[IdIndex(s.rows, id)].sender, Show)])
  {}

  lemma FirstWithId(s: LoaderState, i: nat)
    requires Numbered(s) && i < |s.rows|
    ensures IdIndex(s.rows, s.rows[i].id) == i <==> forall j :: 0 <= j < i ==> !Clash(s.rows, j, i)
    ensures IdIndex(s.rows, s.rows[i].id) <= i
  {
    var k := IdIndex(s.rows, s.rows[i].id);
    forall j | 0 <= j < i ensures s.rows[j].id == s.rows[i].id <==> Clash(s.rows, j, i) {
      SameIdIffClash(s, j, i);
    }
  }

  /** Over every run: clicking the row of window i sends Show to that window and to no other exactly
      when no earlier live row clashes with it. */
  lemma ClickReachesItsWindowIff(actions: seq<(nat, Action)>, now: nat, i: nat)
    requires i < |Run(actions).rows|
    ensures var s := Run(actions);
            MenuClicked(s, now, s.rows[i].id).out == s.out + [Call(s.rows[i].sender, Show)]
            <==> (forall j :: 0 <= j < i ==> !Clash(s.rows, j, i))
  {
    RunKeepsInv(actions);
    var s := Run(actions);
    FirstWithId(s, i);
    ClickShowsFirst(s, now, s.rows[i].id);
    var k := IdIndex(s.rows, s.rows[i].id);
    var clicked, wanted := s.out + [Call(s.rows[k].sender, Show)], s.out + [Call(s.rows[i].sender, Show)];
    assert clicked[|s.out|] == Call(s.rows[k].sender, Show) && wanted[|s.out|] == Call(s.rows[i].sender, Show);
  }

  /** While fewer than 999 rows have been created since the oldest live one, no two rows clash. */
  lemma ClashNeedsManyRows(actions: seq<(nat, Action)>, i: nat, j: nat)
    requires i < j < |Run(actions).rows|
    requires Clash(Run(actions).rows, i, j)
    ensures Run(actions).registered > Run(actions).rows[0].ordinal + 999
  {
    RunKeepsInv(actions);
    ClashIsFar(Run(actions), i, j);
  }

  lemma ClashIsFar(s: LoaderState, i: nat, j: nat)
    requires LoaderInv(s) && i < j < |s.rows| && Clash(s.rows, i, j)
    ensures s.registered > s.rows[0].ordinal + 999
  {
    assert s.rows[j].ordinal - s.rows[i].ordinal >= 999;
    assert s.rows[0].ordinal <= s.rows[i].ordinal;
  }

  // ---- a clash is reached ---------------------------------------------------------------------------

  /** Window `w` registers and is gone again. */
  function Visit(w: Wid): seq<(nat, Action)> {
    [(0, Called(w, Register("", true))), (0, WindowVanished(w))]
  }

  /** Window 0 registers and stays; windows 1 to n come and go one after the other. */
  function Visits(n: nat): seq<(nat, Action)> {
    if n == 0 then [(0, Called(0, Register("", true)))] else Visits(n - 1) + Visit(n)
  }

  /** One row of window 0, `n` others gone, nothing else that the menu depends on. */
  ghost predicate Alone(s: LoaderState, n: nat) {
    s.rows == [Row(1, 0, 0, "", true)] && s.registered == n + 1 && s.nextId == (n + 1) % 999 + 1
  }

  lemma VisitLeavesAlone(s: LoaderState, n: nat)
    requires Alone(s, n)
    ensures Alone(OnWindowVanished(OnCall(s, 0, n + 1, Register("", true)), 0, n + 1), n + 1)
  {
    var row := Row(s.nextId, s.registered, n + 1, "", true);
    var s1 := OnCall(s, 0, n + 1, Register("", true));
    assert s1.rows == s.rows + [row];
    assert SenderIndex(s1.rows, n + 1) == 1;
    assert s1.rows[..1] + s1.rows[2..] == s.rows;
  }

  lemma {:induction false} VisitsLeaveAlone(n: nat)
    ensures Alone(Run(Visits(n)), n)
  {
    if n == 0 {
      FirstVisit();
    } else {
      VisitsLeaveAlone(n - 1);
      VisitStep(Visits(n - 1), n - 1, n);
    }
  }

  lemma VisitStep(before: seq<(nat, Action)>, m: nat, n: nat)
    requires m + 1 == n && Alone(Run(before), m)
    ensures Alone(Run(before + Visit(n)), n)
  {
    RunVisit(before, n);
    VisitLeavesAlone(Run(before), m);
  }

  lemma FirstVisit()
    ensures Alone(Run(Visits(0)), 0)
  {
    RunAppend([], (0, Called(0, Register("", true))));
    assert [] + [(0 as nat, Called(0, Register("", true)))] == Visits(0);
    assert [] + [Row(1, 0, 0, "", true)] == [Row(1, 0, 0, "", true)];
  }

  lemma RunVisit(before: seq<(nat, Action)>, w: Wid)
    ensures Run(before + Visit(w)) == OnWindowVanished(OnCall(Run(before), 0, w, Register("", true)), 0, w)
  {
    var come, go := Visit(w)[0], Visit(w)[1];
    RunAppend(before, come);
    RunAppend(before + [come], go);
    assert before + [come] + [go] == before + Visit(w);
  }

  /** The clash is real: after window 0 and 998 others that are gone, one more window gets the id of
      window 0, and a click on its row shows window 0. */
  lemma ClashIsReached()
    ensures var s := Run(Visits(998) + [(0, Called(999, Register("", true)))]);
            && |s.rows| == 2 && s.rows[0].id == s.rows[1].id && s.rows[1].sender == 999
            && !Distinct(MenuIds(s.rows))
            && MenuClicked(s, 0, s.rows[1].id).out == s.out + [Call(0, Show)]
  {
    VisitsLeaveAlone(998);
    RunAppend(Visits(998), (0, Called(999, Register("", true))));
    SameIdAgain(Run(Visits(998)));
  }

  lemma SameIdAgain(s: LoaderState)
    requires Alone(s, 998)
    ensures var s' := OnCall(s, 0, 999, Register("", true));
            && |s'.rows| == 2 && s'.rows[0].id == s'.rows[1].id && s'.rows[1].sender == 999
            && !Distinct(MenuIds(s'.rows))
            && MenuClicked(s', 0, s'.rows[1].id).out == s'.out + [Call(0, Show)]
  {
    var s' := OnCall(s, 0, 999, Register("", true));
    assert s.nextId == 1;
    assert s'.rows == s.rows + [Row(1, s.registered, 999, "", true)];
    assert MenuIds(s'.rows)[0] == 1 && MenuIds(s'.rows)[1] == 1;
    assert IdIndex(s'.rows, 1) == 0;
  }

  // ---- availability -------------------------------------------------------------------------------

  /** Over every run: what the loader advertises is what the watcher state says, unless a question to
      the watcher is still unanswered; it never advertises a tray that is not there. */
  lemma AvailabilityLagsOnlyWhileAsking(actions: seq<(nat, Action)>)
    ensures var s := Run(actions);
            && (s.trayAvailable ==> s.watcherPresent && s.hostRegistered)
            && (s.asks == 0 ==> (s.trayAvailable <==> s.watcherPresent && s.hostRegistered))
  {
    RunKeepsInv(actions);
  }

  /** Watcher and host are on record, and no tray is advertised. */
  predicate Lag(s: LoaderState) { s.watcherPresent && s.hostRegistered && !s.trayAvailable }

  /** The watcher comes back to a loader that still has a host on record from a failed question. */
  predicate StartsLag(s: LoaderState, a: Action) {
    a == FromSession(WatcherAppeared) && s.hostRegistered && !s.trayAvailable
  }

  /** Every callback that refreshes the availability, whatever it says. */
  predicate EndsLag(a: Action) {
    a.FromSession? && (a.e.HostReply? || a.e.WatcherVanished? || (a.e.WatcherSignalled? && !a.e.signal.HostUnregistered?))
  }

  lemma LagStep(s: LoaderState, now: nat, a: Action)
    requires Honest(s)
    ensures Lag(Act(s, now, a)) <==> StartsLag(s, a) || (Lag(s) && !EndsLag(a))
  {
    match a {
      case Called(from, req) => CallKeepsTray(s, now, from, req);
      case WindowVanished(_) =>
      case Fired =>
      case NameAcquired =>
      case FromSession(e) => EnvLag(s, now, e);
    }
  }

  lemma CallKeepsTray(s: LoaderState, now: nat, from: Wid, req: Request)
    ensures var s' := OnCall(s, now, from, req);
            s'.watcherPresent == s.watcherPresent && s'.hostRegistered == s.hostRegistered
            && s'.trayAvailable == s.trayAvailable
  {
    match req {
      case Register(_, _) =>
      case Update(_, _) =>
      case SetLabels(_) =>
      case QuitAll =>
      case Pulse =>
    }
  }

  lemma EnvLag(s: LoaderState, now: nat, e: Env)
    requires Honest(s)
    ensures Lag(OnEnv(s, now, e)) <==> StartsLag(s, FromSession(e)) || (Lag(s) && !EndsLag(FromSession(e)))
  {
    match e {
      case WatcherAppeared =>
      case WatcherVanished =>
      case WatcherSignalled(_) =>
      case HostReply(_) =>
      case Clicked(_) =>
      case Activated =>
      case SecondaryActivated =>
      case Signalled =>
    }
  }

  /** Step `k` of the run starts a lag. */
  ghost predicate LagBegins(actions: seq<(nat, Action)>, k: nat) {
    k < |actions| && StartsLag(Run(actions[..k]), actions[k].1)
  }

  /** A lag that began at `k` has not ended before `n`. */
  ghost predicate LagSince(actions: seq<(nat, Action)>, k: nat, n: nat)
    requires n <= |actions|
  {
    k < n && LagBegins(actions, k) && forall j :: k < j < n ==> !EndsLag(actions[j].1)
  }

  /** Some lag of the run has not ended before `n`. */
  ghost predicate LagUnderWay(actions: seq<(nat, Action)>, n: nat)
    requires n <= |actions|
  {
    exists k: nat :: LagSince(actions, k, n)
  }

  /** Over every run: the advertised availability lags exactly when at some moment the watcher came back to
      a loader with a host on record and no tray advertised, and since then no answer, no departure of the
      watcher and no other signal than a host leaving has come. */
  lemma LagIff(actions: seq<(nat, Action)>)
    ensures Lag(Run(actions)) <==> LagUnderWay(actions, |actions|)
  {
    LagUpTo(actions, |actions|);
    assert actions[..|actions|] == actions;
  }

  lemma {:induction false} LagUpTo(actions: seq<(nat, Action)>, n: nat)
    requires n <= |actions|
    ensures Lag(Run(actions[..n])) <==> LagUnderWay(actions, n)
  {
    if n == 0 {
      assert actions[..0] == [];
    } else {
      LagUpTo(actions, n - 1);
      LagActStep(actions, n - 1);
      LagSinceStep(actions, n - 1, n);
    }
  }

  lemma LagActStep(actions: seq<(nat, Action)>, m: nat)
    requires m < |actions|
    ensures Lag(Run(actions[..m + 1])) <==> LagBegins(actions, m) || (Lag(Run(actions[..m])) && !EndsLag(actions[m].1))
  {
    RunKeepsInv(actions[..m]);
    RunAt(actions, m + 1);
    LagStep(Run(actions[..m]), actions[m].0, actions[m].1);
  }

  lemma LagSinceStep(actions: seq<(nat, Action)>, m: nat, n: nat)
    requires m + 1 == n <= |actions|
    ensures LagUnderWay(actions, n)
            <==> LagBegins(actions, m) || (!EndsLag(actions[m].1) && LagUnderWay(actions, m))
  {
    if LagUnderWay(actions, n) { LagGoesBack(actions, m, n); }
    if LagUnderWay(actions, m) && !EndsLag(actions[m].1) { LagGoesOn(actions, m, n); }
    if LagBegins(actions, m) { assert LagSince(actions, m, n); }
  }

  lemma LagGoesBack(actions: seq<(nat, Action)>, m: nat, n: nat)
    requires m + 1 == n <= |actions| && LagUnderWay(actions, n)
    ensures LagBegins(actions, m) || (!EndsLag(actions[m].1) && LagUnderWay(actions, m))
  {
    var k: nat :| LagSince(actions, k, n);
    if k < m { assert LagSince(actions, k, m); }
  }

  lemma LagGoesOn(actions: seq<(nat, Action)>, m: nat, n: nat)
    requires m + 1 == n <= |actions| && LagUnderWay(actions, m) && !EndsLag(actions[m].1)
    ensures LagUnderWay(actions, n)
  {
    var k: nat :| LagSince(actions, k, m);
    LagSinceLonger(actions, k, m, n);
  }

  lemma LagSinceLonger(actions: seq<(nat, Action)>, k: nat, m: nat, n: nat)
    requires m + 1 == n <= |actions| && LagSince(actions, k, m) && !EndsLag(actions[m].1)
    ensures LagSince(actions, k, n)
  {
    assert LagBegins(actions, k);
    forall j | k < j < n ensures !EndsLag(actions[j].1) { assert j < m || j == m; }
  }

  /** The lag is real: a watcher that leaves before it answers and then returns finds the failed call
      recorded as "host registered", and nobody is told until one of the callbacks that end the lag. */
  lemma AvailabilityCanLag()
    ensures var s := Run([(0, FromSession(WatcherAppeared)), (0, FromSession(WatcherVanished)),
                          (0, FromSession(HostReply(None))), (0, FromSession(WatcherAppeared))]);
            s.watcherPresent && s.hostRegistered && !s.trayAvailable
  {
    var a1, a2 := (0 as nat, FromSession(WatcherAppeared)), (0 as nat, FromSession(WatcherVanished));
    var a3 := (0 as nat, FromSession(HostReply(None)));
    RunAppend([], a1);
    RunAppend([a1], a2);
    RunAppend([a1, a2], a3);
    RunAppend([a1, a2, a3], a1);
    assert [] + [a1] == [a1] && [a1] + [a2] == [a1, a2] && [a1, a2] + [a3] == [a1, a2, a3];
    assert [a1, a2, a3] + [a1] == [a1, a2, a3, a1];
  }

  lemma RunAppend(actions: seq<(nat, Action)>, last: (nat, Action))
    ensures Run(actions + [last]) == Act(Run(actions), last.0, last.1)
  {
    assert (actions + [last])[..|actions|] == actions;
  }
}
