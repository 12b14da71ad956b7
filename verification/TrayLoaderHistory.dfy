/** The state of one loader read off what has happened to it: for every list of actions, what it has on record
    is decided by the actions alone. Times are microseconds. */
module TrayLoaderHistory {
  import opened Common
  import opened TrayLoaderSpec
  import opened TrayLoaderFacts

  // ---- the last word ------------------------------------------------------------------------------

  /** Some action says so, and none after it says otherwise. */
  ghost predicate LastWord(actions: seq<(nat, Action)>, says: Action -> bool, ends: Action -> bool) {
    exists k :: 0 <= k < |actions| && says(actions[k].1) && forall j :: k < j < |actions| ==> !ends(actions[j].1)
  }

  lemma LastWordStep(actions: seq<(nat, Action)>, says: Action -> bool, ends: Action -> bool)
    requires |actions| > 0
    ensures var n := |actions| - 1;
            LastWord(actions, says, ends)
            <==> says(actions[n].1) || (!ends(actions[n].1) && LastWord(actions[..n], says, ends))
  {
    var n := |actions| - 1;
    if LastWord(actions, says, ends) && !says(actions[n].1) { WordBefore(actions, says, ends); }
    if !ends(actions[n].1) && LastWord(actions[..n], says, ends) { WordStays(actions, says, ends); }
    if says(actions[n].1) { assert actions[n] == actions[|actions| - 1]; }
  }

  lemma WordBefore(actions: seq<(nat, Action)>, says: Action -> bool, ends: Action -> bool)
    requires |actions| > 0 && LastWord(actions, says, ends) && !says(actions[|actions| - 1].1)
    ensures !ends(actions[|actions| - 1].1) && LastWord(actions[..|actions| - 1], says, ends)
  {
    var n := |actions| - 1;
    var k :| 0 <= k < |actions| && says(actions[k].1) && forall j :: k < j < |actions| ==> !ends(actions[j].1);
    assert says(actions[..n][k].1);
    assert !ends(actions[n].1);
  }

  lemma WordStays(actions: seq<(nat, Action)>, says: Action -> bool, ends: Action -> bool)
    requires |actions| > 0 && LastWord(actions[..|actions| - 1], says, ends) && !ends(actions[|actions| - 1].1)
    ensures LastWord(actions, says, ends)
  {
    var n := |actions| - 1;
    var k :| 0 <= k < n && says(actions[..n][k].1) && forall j :: k < j < n ==> !ends(actions[..n][j].1);
    assert says(actions[k].1);
    forall j | k < j < |actions| ensures !ends(actions[j].1) { assert j < n ==> actions[..n][j] == actions[j]; }
  }

  // ---- watcher and host ---------------------------------------------------------------------------

  /** A host, as far as the loader can know: the watcher said so, could not say, or announced one. */
  predicate SaysHost(a: Action) {
    match a
    case FromSession(HostReply(None)) => true
    case FromSession(HostReply(Some(yes))) => yes
    case FromSession(WatcherSignalled(HostRegistered)) => true
    case _ => false
  }

  /** The watcher said that there is none, or went away. */
  predicate EndsHost(a: Action) {
    match a
    case FromSession(HostReply(Some(yes))) => !yes
    case FromSession(WatcherVanished) => true
    case _ => false
  }

  predicate SaysWatcher(a: Action) { a == FromSession(WatcherAppeared) }

  predicate EndsWatcher(a: Action) { a == FromSession(WatcherVanished) }

  ghost predicate HostByLastWord(actions: seq<(nat, Action)>) { LastWord(actions, SaysHost, EndsHost) }

  ghost predicate WatcherByLastWord(actions: seq<(nat, Action)>) { LastWord(actions, SaysWatcher, EndsWatcher) }

  /** Questions without an answer yet: one when the watcher appears and one when a host leaves. */
  function Unanswered(actions: seq<(nat, Action)>): nat {
    if |actions| == 0 then 0
    else
      var n := |actions| - 1;
      var before := Unanswered(actions[..n]);
      match actions[n].1
      case FromSession(WatcherAppeared) => before + 1
      case FromSession(WatcherSignalled(HostUnregistered)) => before + 1
      case FromSession(HostReply(_)) => if before > 0 then before - 1 else 0
      case _ => before
  }

  lemma WatcherStep(s: LoaderState, now: nat, a: Action)
    ensures var s' := Act(s, now, a);
            && (s'.hostRegistered <==> SaysHost(a) || (!EndsHost(a) && s.hostRegistered))
            && (s'.watcherPresent <==> SaysWatcher(a) || (!EndsWatcher(a) && s.watcherPresent))
  {
    match a {
      case Called(from, req) => CallKeepsTray(s, now, from, req);
      case WindowVanished(_) =>
      case Fired =>
      case NameAcquired =>
      case FromSession(e) => EnvWatcher(s, now, e);
    }
  }

  lemma EnvWatcher(s: LoaderState, now: nat, e: Env)
    ensures var s', a := OnEnv(s, now, e), FromSession(e);
            && (s'.hostRegistered <==> SaysHost(a) || (!EndsHost(a) && s.hostRegistered))
            && (s'.watcherPresent <==> SaysWatcher(a) || (!EndsWatcher(a) && s.watcherPresent))
  {
    match e {
      case WatcherAppeared =>
      case WatcherVanished =>
      case WatcherSignalled(_) =>
      case HostReply(_) =>
      case Clicked(_) =>
      case Activated =>
      case SecondaryActivated =>
      case Signalled =>
    }
  }

  lemma AsksStep(actions: seq<(nat, Action)>, s: LoaderState)
    requires |actions| > 0 && s.asks == Unanswered(actions[..|actions| - 1])
    ensures Act(s, actions[|actions| - 1].0, actions[|actions| - 1].1).asks == Unanswered(actions)
  {
    var (now, a) := actions[|actions| - 1];
    match a {
      case Called(from, req) => CallKeepsAsks(s, now, from, req);
      case WindowVanished(_) =>
      case Fired =>
      case NameAcquired =>
      case FromSession(e) => EnvAsks(s, now, e);
    }
  }

  lemma CallKeepsAsks(s: LoaderState, now: nat, from: Wid, req: Request)
    ensures OnCall(s, now, from, req).asks == s.asks
  {
    match req {
      case Register(_, _) =>
      case Update(_, _) =>
      case SetLabels(_) =>
      case QuitAll =>
      case Pulse =>
    }
  }

  lemma EnvAsks(s: LoaderState, now: nat, e: Env)
    ensures OnEnv(s, now, e).asks
            == match e
               case WatcherAppeared => s.asks + 1
               case WatcherSignalled(HostUnregistered) => s.asks + 1
               case HostReply(_) => if s.asks > 0 then s.asks - 1 else 0
               case _ => s.asks
  {
    match e {
      case WatcherAppeared =>
      case WatcherVanished =>
      case WatcherSignalled(_) =>
      case HostReply(_) =>
      case Clicked(_) =>
      case Activated =>
      case SecondaryActivated =>
      case Signalled =>
    }
  }

  /** Over every run: a host is on record exactly when the last word on it was a failed answer, a "yes" or the
      signal of a host; the watcher is there exactly when it appeared last; and the open questions are those
      that were asked and not answered. */
  lemma {:induction false} WatcherIsLastWord(actions: seq<(nat, Action)>)
    ensures var s := Run(actions);
            && (s.hostRegistered <==> HostByLastWord(actions))
            && (s.watcherPresent <==> WatcherByLastWord(actions))
            && s.asks == Unanswered(actions)
  {
    if |actions| > 0 {
      var n := |actions| - 1;
      WatcherIsLastWord(actions[..n]);
      LastWordStep(actions, SaysHost, EndsHost);
      LastWordStep(actions, SaysWatcher, EndsWatcher);
      WatcherStep(Run(actions[..n]), actions[n].0, actions[n].1);
      AsksStep(actions, Run(actions[..n]));
    }
  }

  /** Over every run: a tray is advertised exactly when by the last word there are a watcher and a host, unless
      a lag is under way; so with no question open it is advertised exactly when there are both. */
  lemma TrayIsLastWord(actions: seq<(nat, Action)>)
    ensures var both := HostByLastWord(actions) && WatcherByLastWord(actions);
            && (Run(actions).trayAvailable <==> both && !LagUnderWay(actions, |actions|))
            && (Unanswered(actions) == 0 ==> (Run(actions).trayAvailable <==> both))
  {
    WatcherIsLastWord(actions);
    AvailabilityLagsOnlyWhileAsking(actions);
    LagIff(actions);
  }

  // ---- the list of windows ------------------------------------------------------------------------

  /** What a window says of itself with `Register` or `Update`. */
  datatype Word = Word(from: Wid, workspace: string, visible: bool)

  function WordOf(a: Action): Option<Word> {
    match a
    case Called(from, Register(workspace, visible)) => Some(Word(from, workspace, visible))
    case Called(from, Update(workspace, visible)) => Some(Word(from, workspace, visible))
    case _ => None
  }

  /** Those who have spoken and have not gone since, in the order of their first word. */
  function Listed(actions: seq<(nat, Action)>): seq<Wid> {
    if |actions| == 0 then []
    else
      var n := |actions| - 1;
      ListedAfter(Listed(actions[..n]), actions[n].1)
  }

  function ListedAfter(listed: seq<Wid>, a: Action): seq<Wid> {
    match WordOf(a)
    case Some(word) => if word.from in listed then listed else listed + [word.from]
    case None => if a.WindowVanished? then Dropping(listed, a.name) else listed
  }

  function Dropping(names: seq<Wid>, name: Wid): seq<Wid> {
    if |names| == 0 then []
    else (if names[0] == name then [] else [names[0]]) + Dropping(names[1..], name)
  }

  /** What `x` said last of itself. */
  function LastSaid(actions: seq<(nat, Action)>, x: Wid): Option<(string, bool)> {
    if |actions| == 0 then None
    else
      var n := |actions| - 1;
      SaidAfter(LastSaid(actions[..n], x), actions[n].1, x)
  }

  function SaidAfter(said: Option<(string, bool)>, a: Action, x: Wid): Option<(string, bool)> {
    match WordOf(a)
    case Some(word) => if word.from == x then Some((word.workspace, word.visible)) else said
    case None => said
  }

  function Senders(rows: seq<Row>): seq<Wid> {
    seq(|rows|, i requires 0 <= i < |rows| => rows[i].sender)
  }

  function Said(actions: seq<(nat, Action)>): Wid -> Option<(string, bool)> { (x: Wid) => LastSaid(actions, x) }

  lemma {:induction false} NotThere(names: seq<Wid>, name: Wid)
    requires name !in names
    ensures Dropping(names, name) == names
  {
    if |names| > 0 { NotThere(names[1..], name); }
  }

  lemma {:induction false} DroppedOnce(names: seq<Wid>, i: nat)
    requires i < |names| && forall k :: 0 <= k < |names| && k != i ==> names[k] != names[i]
    ensures Dropping(names, names[i]) == names[..i] + names[i + 1..]
  {
    if i == 0 {
      NotThere(names[1..], names[0]);
      assert names[..0] + names[1..] == names[1..];
    } else {
      DroppedOnce(names[1..], i - 1);
      assert names[1..][..i - 1] == names[1..i] && names[1..][i..] == names[i + 1..];
      assert [names[0]] + (names[1..i] + names[i + 1..]) == names[..i] + names[i + 1..];
    }
  }

  lemma VanishedSenders(rows: seq<Row>, name: Wid)
    requires UniqueSenders(rows)
    ensures Senders(WithoutSender(rows, name)) == Dropping(Senders(rows), name)
  {
    var i := SenderIndex(rows, name);
    SendersAre(rows);
    if i < |rows| {
      SendersWithout(rows, i);
      DroppedOnce(Senders(rows), i);
    } else {
      NotThere(Senders(rows), name);
    }
  }

  lemma SendersWithout(rows: seq<Row>, i: nat)
    requires i < |rows|
    ensures Senders(rows[..i] + rows[i + 1..]) == Senders(rows)[..i] + Senders(rows)[i + 1..]
  {
    DroppedAt(rows, i);
  }

  lemma RecordSenders(s: LoaderState, from: Wid, workspace: string, visible: bool)
    ensures var rows := Record(s, from, workspace, visible).rows;
            Senders(rows) == if from in Senders(s.rows) then Senders(s.rows) else Senders(s.rows) + [from]
  {
    var i := SenderIndex(s.rows, from);
    if i < |s.rows| {
      assert Senders(s.rows)[i] == from;
    }
  }

  /** Only what a window says and that it goes changes the list. */
  lemma OthersKeepRows(s: LoaderState, now: nat, a: Action)
    requires WordOf(a) == None && !a.WindowVanished?
    ensures Act(s, now, a).rows == s.rows
  {
    match a {
      case Called(_, req) => assert req.SetLabels? || req.QuitAll? || req.Pulse?;
      case Fired =>
      case NameAcquired =>
      case FromSession(e) => EnvKeepsRows(s, now, e);
    }
  }

  lemma EnvKeepsRows(s: LoaderState, now: nat, e: Env)
    ensures OnEnv(s, now, e).rows == s.rows
  {
    match e {
      case WatcherAppeared =>
      case WatcherVanished =>
      case WatcherSignalled(_) =>
      case HostReply(_) =>
      case Clicked(_) =>
      case Activated =>
      case SecondaryActivated =>
      case Signalled =>
    }
  }

  lemma SpeakingRows(s: LoaderState, now: nat, a: Action, word: Word)
    requires WordOf(a) == Some(word)
    ensures Act(s, now, a).rows == Record(s, word.from, word.workspace, word.visible).rows
  {}

  /** Every row holds what `said` says its window said last. */
  ghost predicate Holds(rows: seq<Row>, said: Wid -> Option<(string, bool)>) {
    forall i :: 0 <= i < |rows| ==> said(rows[i].sender) == Some((rows[i].workspace, rows[i].visible))
  }

  lemma RecordHolds(s: LoaderState, word: Word, said: Wid -> Option<(string, bool)>, said': Wid -> Option<(string, bool)>)
    requires UniqueSenders(s.rows) && Holds(s.rows, said)
    requires forall x :: said'(x) == if x == word.from then Some((word.workspace, word.visible)) else said(x)
    ensures Holds(Record(s, word.from, word.workspace, word.visible).rows, said')
  {
    var i := SenderIndex(s.rows, word.from);
    var rows := Record(s, word.from, word.workspace, word.visible).rows;
    forall k | 0 <= k < |rows| ensures said'(rows[k].sender) == Some((rows[k].workspace, rows[k].visible)) {
      if k != i { assert rows[k] == s.rows[k]; }
    }
  }

  /** Over every run: the rows are the windows that have spoken and not gone, in the order of their first word,
      each with what it said last. */
  lemma {:induction false} RowsAreHistory(actions: seq<(nat, Action)>)
    ensures Senders(Run(actions).rows) == Listed(actions)
    ensures forall i :: 0 <= i < |Run(actions).rows| ==>
              var row := Run(actions).rows[i]; LastSaid(actions, row.sender) == Some((row.workspace, row.visible))
  {
    if |actions| > 0 {
      var n := |actions| - 1;
      RowsAreHistory(actions[..n]);
      RunKeepsInv(actions[..n]);
      RowsStep(Run(actions[..n]), actions[n].0, actions[n].1, Said(actions[..n]), Said(actions));
      assert Holds(Run(actions).rows, Said(actions));
    }
  }

  lemma RowsStep(s: LoaderState, now: nat, a: Action, said: Wid -> Option<(string, bool)>,
                 said': Wid -> Option<(string, bool)>)
    requires UniqueSenders(s.rows) && Holds(s.rows, said)
    requires forall x :: said'(x) == SaidAfter(said(x), a, x)
    ensures Senders(Act(s, now, a).rows) == ListedAfter(Senders(s.rows), a) && Holds(Act(s, now, a).rows, said')
  {
    match WordOf(a) {
      case Some(word) =>
        SpeakingRows(s, now, a, word);
        RecordSenders(s, word.from, word.workspace, word.visible);
        RecordHolds(s, word, said, said');
      case None =>
        if a.WindowVanished? {
          VanishedSenders(s.rows, a.name);
          WithoutSenderAt(s.rows, a.name);
        } else {
          OthersKeepRows(s, now, a);
        }
    }
  }

  // ---- the exit timer -----------------------------------------------------------------------------

  /** When the timer is due after an action: twenty seconds after the name is acquired, three after a window
      goes and leaves the list empty, five after "quit all"; never once it has fired, or a new window has
      come. */
  function DueAfter(due: Option<nat>, listed: seq<Wid>, now: nat, a: Action): Option<nat> {
    match a
    case NameAcquired => Some(now + 20_000_000)
    case WindowVanished(name) => if Dropping(listed, name) == [] then Some(now + 3_000_000) else due
    case Called(_, QuitAll) => Some(now + 5_000_000)
    case FromSession(Clicked(id)) => if id == 1002 then Some(now + 5_000_000) else due
    case Fired => None
    case Called(from, Register(_, _)) => if from in listed then due else None
    case Called(from, Update(_, _)) => if from in listed then due else None
    case _ => due
  }

  /** The deadline of the exit timer, read off the actions. */
  function Due(actions: seq<(nat, Action)>): Option<nat> {
    if |actions| == 0 then None
    else
      var n := |actions| - 1;
      DueAfter(Due(actions[..n]), Listed(actions[..n]), actions[n].0, actions[n].1)
  }

  lemma {:induction false} TimerIsHistory(actions: seq<(nat, Action)>)
    ensures Run(actions).exitAt == Due(actions)
  {
    if |actions| > 0 {
      var n := |actions| - 1;
      TimerIsHistory(actions[..n]);
      RowsAreHistory(actions[..n]);
      RunKeepsInv(actions[..n]);
      TimerStep(Run(actions[..n]), actions[n].0, actions[n].1);
    }
  }

  lemma TimerStep(s: LoaderState, now: nat, a: Action)
    requires UniqueSenders(s.rows)
    ensures Act(s, now, a).exitAt == DueAfter(s.exitAt, Senders(s.rows), now, a)
  {
    match a {
      case Called(from, req) => CallTimer(s, now, from, req);
      case WindowVanished(name) =>
        VanishedSenders(s.rows, name);
        assert |Senders(WithoutSender(s.rows, name))| == |WithoutSender(s.rows, name)|;
      case Fired =>
      case NameAcquired =>
      case FromSession(e) => EnvTimer(s, now, e);
    }
  }

  lemma CallTimer(s: LoaderState, now: nat, from: Wid, req: Request)
    ensures OnCall(s, now, from, req).exitAt
            == if req.QuitAll? then Some(now + 5_000_000)
               else if (req.Register? || req.Update?) && from !in Senders(s.rows) then None
               else s.exitAt
  {
    var i := SenderIndex(s.rows, from);
    assert i < |s.rows| ==> Senders(s.rows)[i] == from;
    match req {
      case Register(_, _) =>
      case Update(_, _) =>
      case SetLabels(_) =>
      case QuitAll =>
      case Pulse =>
    }
  }

  lemma EnvTimer(s: LoaderState, now: nat, e: Env)
    ensures OnEnv(s, now, e).exitAt == if e == Clicked(1002) then Some(now + 5_000_000) else s.exitAt
  {
    match e {
      case WatcherAppeared =>
      case WatcherVanished =>
      case WatcherSignalled(_) =>
      case HostReply(_) =>
      case Clicked(id) =>
      case Activated =>
      case SecondaryActivated =>
      case Signalled =>
    }
  }

  // ---- the menu -----------------------------------------------------------------------------------

  /** Over every run: the menu has the windows in the order of their first word, a separator if there are any,
      "show all", "hide all", another separator, and "quit all". */
  lemma MenuIsHistory(actions: seq<(nat, Action)>)
    ensures var rows, ids := Run(actions).rows, MenuIds(Run(actions).rows);
            && |rows| == |Listed(actions)| <= |ids|
            && (forall i :: 0 <= i < |rows| ==> rows[i].sender == Listed(actions)[i] && ids[i] == rows[i].id)
            && ids[|rows|..] == (if |rows| > 0 then [2000] else []) + [1000, 1001, 2001, 1002]
  {
    RowsAreHistory(actions);
    var rows := Run(actions).rows;
    OwnFirst(rows);
    SendersAre(rows);
  }

  lemma SendersAre(rows: seq<Row>)
    ensures |Senders(rows)| == |rows| && forall i :: 0 <= i < |rows| ==> Senders(rows)[i] == rows[i].sender
  {}

  // ---- what is sent -------------------------------------------------------------------------------

  function Calls(listed: seq<Wid>, wm: WindowMethod): seq<FromLoader> {
    seq(|listed|, i requires 0 <= i < |listed| => Call(listed[i], wm))
  }

  /** Every listed window said last that it is visible, and there are some. */
  ghost predicate AllSaidVisible(actions: seq<(nat, Action)>) {
    Listed(actions) != [] && forall x :: x in Listed(actions) ==> LastSaid(actions, x).Some? && LastSaid(actions, x).value.1
  }

  /** What the loader sends on an action that follows `actions`; `was` and `now` are its availability before
      and after, and a row is clicked by an id below the fixed ones. */
  ghost function SentOn(actions: seq<(nat, Action)>, was: bool, now: bool, a: Action): seq<FromLoader> {
    var listed := Listed(actions);
    match a
    case Called(from, Register(_, _)) => (if from in listed then [] else [Watch(from)]) + [Reply(from, was)]
    case Called(from, Update(_, _)) => if from in listed then [] else [Watch(from)]
    case Called(_, QuitAll) => Calls(listed, Quit)
    case FromSession(Clicked(id)) =>
      if id == 1000 then Calls(listed, Show)
      else if id == 1001 then Calls(listed, Hide)
      else if id == 1002 then Calls(listed, Quit)
      else
        var rows := Run(actions).rows;
        if IdIndex(rows, id) < |rows| then [Call(rows[IdIndex(rows, id)].sender, Show)] else []
    case FromSession(Activated) => Calls(listed, if AllSaidVisible(actions) then Hide else Show)
    case FromSession(SecondaryActivated) => Calls(listed, Show)
    case _ => if was == now then [] else [TrayAvailabilityChanged(now)]
  }

  /** Over every run: what the loader sends on each action: a watch for a new window, an answer to every
      `Register`, a call to every listed window on a click, and its availability on a change and on nothing
      else. */
  lemma SendsAreHistory(actions: seq<(nat, Action)>, now: nat, a: Action)
    ensures var s, s' := Run(actions), Run(actions + [(now, a)]);
            s'.out == s.out + SentOn(actions, s.trayAvailable, s'.trayAvailable, a)
  {
    RunAppend(actions, (now, a));
    RowsAreHistory(actions);
    var s := Run(actions);
    AppendNothing(s.out);
    match a {
      case Called(from, req) => CallSends(s, now, from, req);
      case WindowVanished(_) =>
      case Fired =>
      case NameAcquired =>
      case FromSession(e) =>
        if e == Activated {
          ToggleSends(actions);
        } else {
          EnvSends(s, now, e);
        }
    }
  }

  lemma CallsAre(rows: seq<Row>, wm: WindowMethod)
    ensures Calls(Senders(rows), wm) == CallAll(rows, wm)
  {}

  lemma CallSends(s: LoaderState, now: nat, from: Wid, req: Request)
    ensures var watch := if from in Senders(s.rows) then [] else [Watch(from)];
            OnCall(s, now, from, req).out == s.out + match req
                                                     case Register(_, _) => watch + [Reply(from, s.trayAvailable)]
                                                     case Update(_, _) => watch
                                                     case QuitAll => Calls(Senders(s.rows), Quit)
                                                     case _ => []
  {
    AppendNothing(s.out);
    CallsAre(s.rows, Quit);
    var i := SenderIndex(s.rows, from);
    assert i < |s.rows| ==> Senders(s.rows)[i] == from;
  }

  lemma EnvSends(s: LoaderState, now: nat, e: Env)
    requires e != Activated
    ensures var s' := OnEnv(s, now, e);
            s'.out == s.out + match e
                              case Clicked(id) => ClickSent(s, id)
                              case SecondaryActivated => Calls(Senders(s.rows), Show)
                              case _ => if s.trayAvailable == s'.trayAvailable then []
                                        else [TrayAvailabilityChanged(s'.trayAvailable)]
  {
    AppendNothing(s.out);
    CallsAre(s.rows, Show);
    match e {
      case WatcherAppeared =>
      case WatcherVanished =>
      case WatcherSignalled(_) =>
      case HostReply(_) =>
      case Clicked(id) => ClickSends(s, now, id);
      case SecondaryActivated =>
      case Signalled =>
    }
  }

  function ClickSent(s: LoaderState, id: int): seq<FromLoader> {
    if id == 1000 then Calls(Senders(s.rows), Show)
    else if id == 1001 then Calls(Senders(s.rows), Hide)
    else if id == 1002 then Calls(Senders(s.rows), Quit)
    else if IdIndex(s.rows, id) < |s.rows| then [Call(s.rows[IdIndex(s.rows, id)].sender, Show)]
    else []
  }

  lemma ClickSends(s: LoaderState, now: nat, id: int)
    ensures MenuClicked(s, now, id).out == s.out + ClickSent(s, id)
  {
    AppendNothing(s.out);
    CallsAre(s.rows, Show);
    CallsAre(s.rows, Hide);
    CallsAre(s.rows, Quit);
  }

  lemma ToggleSends(actions: seq<(nat, Action)>)
    ensures var s := Run(actions);
            ToggleWindows(s).out == s.out + Calls(Listed(actions), if AllSaidVisible(actions) then Hide else Show)
  {
    var s := Run(actions);
    RowsAreHistory(actions);
    CallsAre(s.rows, Show);
    CallsAre(s.rows, Hide);
    VisibleIff(actions);
  }

  lemma VisibleIff(actions: seq<(nat, Action)>)
    ensures AllSaidVisible(actions) <==> !(AnyHidden(Run(actions).rows) || |Run(actions).rows| == 0)
  {
    var rows := Run(actions).rows;
    RowsAreHistory(actions);
    SendersAre(rows);
    forall i | 0 <= i < |rows| ensures rows[i].sender in Listed(actions) { assert Listed(actions)[i] == rows[i].sender; }
    forall x | x in Listed(actions) ensures exists i :: 0 <= i < |rows| && rows[i].sender == x {
      var i :| 0 <= i < |rows| && Listed(actions)[i] == x;
      assert rows[i].sender == x;
    }
  }
}
