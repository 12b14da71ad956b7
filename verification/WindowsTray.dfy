/** The Windows tray loader of `windows/runner/clide_tray.cpp`: the NUL-separated payloads, the label map,
    the menu, and the idle count that ends the loader. Window handles are not reused in this model. */
module WindowsTray {
  import opened Common
  import opened Text

  type Hwnd = nat

  datatype Window = Window(hwnd: Hwnd, visible: bool, workspace: string)

  datatype Command = Show | Hide | Quit | Availability(available: bool)

  datatype Posted = Posted(to: Hwnd, command: Command)

  const MENU_SHOW_ALL := 1000
  const MENU_HIDE_ALL := 1001
  const MENU_QUIT_ALL := 1002
  const MENU_WINDOW_BASE := 1
  const IDLE_EXIT_TICKS := 3
  const STARTUP_EXIT_TICKS := 20

  // ---- payloads -----------------------------------------------------------------------------------

  /** The pieces ended by NUL, and what is left over if anything is. */
  function SplitNul(data: string): seq<string> {
    var parts := Split(data, '\0');
    if parts[|parts| - 1] == "" then parts[..|parts| - 1] else parts
  }

  /** The pieces of a text with `c` at the end, from the pieces of the text. */
  function Stretched(parts: seq<string>, c: char, sep: char): seq<string>
    requires |parts| > 0
  {
    if c == sep then parts + [""] else parts[..|parts| - 1] + [parts[|parts| - 1] + [c]]
  }

  lemma {:induction false} SplitSnoc(s: string, c: char, sep: char)
    ensures Split(s + [c], sep) == Stretched(Split(s, sep), c, sep)
  {
    if |s| == 0 {
      SplitCons(c, "", sep);
      assert [c] + "" == [c] == s + [c] == "" + [c];
      assert [""][1..] == [] && [""][..0] == [];
    } else {
      SplitSnoc(s[1..], c, sep);
      SplitCons(s[0], s[1..] + [c], sep);
      assert s + [c] == [s[0]] + (s[1..] + [c]);
      Extended(s[0], c, sep, Split(s[1..], sep));
    }
  }

  /** The pieces of a text with `c` in front, from the pieces of the text. */
  function Fronted(c: char, sep: char, rest: seq<string>): seq<string>
    requires |rest| > 0
  {
    if c == sep then [""] + rest else [[c] + rest[0]] + rest[1..]
  }

  lemma SplitCons(c: char, rest: string, sep: char)
    ensures Split([c] + rest, sep) == Fronted(c, sep, Split(rest, sep))
  {
    assert ([c] + rest)[1..] == rest;
  }

  lemma Extended(first: char, c: char, sep: char, rest: seq<string>)
    requires |rest| > 0
    ensures Fronted(first, sep, Stretched(rest, c, sep)) == Stretched(Fronted(first, sep, rest), c, sep)
  {
    if |rest| == 1 { assert [first] + (rest[0] + [c]) == ([first] + rest[0]) + [c]; }
  }

  method SplitNulLoop(data: string) returns (parts: seq<string>)
    ensures parts == SplitNul(data)
  {
    parts := [];
    var cur := "";
    for i := 0 to |data|
      invariant Split(data[..i], '\0') == parts + [cur]
    {
      SplitSnoc(data[..i], data[i], '\0');
      assert data[..i + 1] == data[..i] + [data[i]];
      if data[i] == '\0' {
        parts := parts + [cur];
        cur := "";
      } else {
        cur := cur + [data[i]];
      }
    }
    assert data[..|data|] == data;
    if cur != "" { parts := parts + [cur]; }
  }

  function RegisterPayload(visible: bool, workspace: string): string {
    (if visible then "1" else "0") + ['\0'] + workspace
  }

  function ReadRegister(payload: string): (bool, string) {
    var parts := SplitNul(payload);
    (|parts| > 0 && parts[0] == "1", if |parts| > 1 then parts[1] else "")
  }

  /** The loader reads what a window registered exactly when the workspace holds no NUL. */
  lemma RegisterReadsIff(visible: bool, workspace: string)
    ensures RegisterPayload(visible, workspace) == [if visible then '1' else '0', '\0'] + workspace
    ensures ReadRegister(RegisterPayload(visible, workspace)) == (visible, workspace) <==> '\0' !in workspace
  {
    SplitPiece(if visible then "1" else "0", workspace, '\0');
    if '\0' !in workspace { SplitWhole(workspace, '\0'); }
  }

  function LabelsPayload(pairs: seq<(string, string)>): string {
    if |pairs| == 0 then ""
    else
      var (k, v) := pairs[|pairs| - 1];
      LabelsPayload(pairs[..|pairs| - 1]) + k + ['\0'] + v + ['\0']
  }

  /** The loop of `SendLabels`. */
  method BuildLabels(pairs: seq<(string, string)>) returns (payload: string)
    ensures payload == LabelsPayload(pairs)
  {
    payload := "";
    for i := 0 to |pairs|
      invariant payload == LabelsPayload(pairs[..i])
    {
      assert pairs[..i + 1][..i] == pairs[..i];
      var (k, v) := pairs[i];
      payload := payload + k;
      payload := payload + ['\0'];
      payload := payload + v;
      payload := payload + ['\0'];
    }
    assert pairs[..|pairs|] == pairs;
  }

  /** Parts two by two; an odd one at the end is dropped. */
  function PairUp(parts: seq<string>): seq<(string, string)> {
    if |parts| < 2 then [] else [(parts[0], parts[1])] + PairUp(parts[2..])
  }

  function Flat(pairs: seq<(string, string)>): seq<string> {
    if |pairs| == 0 then [] else Flat(pairs[..|pairs| - 1]) + [pairs[|pairs| - 1].0, pairs[|pairs| - 1].1]
  }

  ghost predicate NulFree(pairs: seq<(string, string)>) {
    forall i :: 0 <= i < |pairs| ==> '\0' !in pairs[i].0 && '\0' !in pairs[i].1
  }

  function Grow(parts: seq<string>, k: string): seq<string>
    requires |parts| > 0
  {
    parts[..|parts| - 1] + [parts[|parts| - 1] + k]
  }

  lemma GrowMore(parts: seq<string>, k: string, c: char)
    requires |parts| > 0 && c != '\0'
    ensures Stretched(Grow(parts, k), c, '\0') == Grow(parts, k + [c])
  {
    var last := parts[|parts| - 1];
    assert (last + k) + [c] == last + (k + [c]);
  }

  /** A NUL-free text at the end goes to the last piece. */
  lemma {:induction false} SplitGrows(front: string, k: string)
    requires '\0' !in k
    ensures Split(front + k, '\0') == Grow(Split(front, '\0'), k)
  {
    if |k| == 0 {
      GrowNothing(Split(front, '\0'));
      AppendNothing(front);
    } else {
      var n := |k| - 1;
      SplitGrows(front, k[..n]);
      LastApart(k);
      AppendAssoc(front, k[..n], [k[n]]);
      SplitSnoc(front + k[..n], k[n], '\0');
      GrowLast(Split(front, '\0'), k[..n], k[n], k);
    }
  }

  lemma GrowNothing(parts: seq<string>)
    requires |parts| > 0
    ensures Grow(parts, "") == parts
  {
    assert parts[|parts| - 1] + "" == parts[|parts| - 1];
  }

  lemma GrowLast(parts: seq<string>, init: string, c: char, k: string)
    requires |parts| > 0 && c != '\0' && k == init + [c]
    ensures Stretched(Grow(parts, init), c, '\0') == Grow(parts, k)
  {
    GrowMore(parts, init, c);
  }

  lemma SplitEnded(front: string, k: string)
    requires '\0' !in k
    ensures Split(front + k + ['\0'], '\0') == Grow(Split(front, '\0'), k) + [""]
  {
    SplitGrows(front, k);
    SplitSnoc(front + k, '\0', '\0');
  }

  lemma {:induction false} SplitLabels(pairs: seq<(string, string)>)
    requires NulFree(pairs)
    ensures Split(LabelsPayload(pairs), '\0') == Flat(pairs) + [""]
  {
    if |pairs| > 0 {
      var n := |pairs| - 1;
      SplitLabels(pairs[..n]);
      SplitPair(LabelsPayload(pairs[..n]), Flat(pairs[..n]), pairs[n].0, pairs[n].1);
    }
  }

  lemma SplitPair(front: string, flat: seq<string>, k: string, v: string)
    requires Split(front, '\0') == flat + [""] && '\0' !in k && '\0' !in v
    ensures Split(front + k + ['\0'] + v + ['\0'], '\0') == flat + [k, v] + [""]
  {
    var mid := front + k + ['\0'];
    EndedPiece(front, flat, k);
    EndedPiece(mid, flat + [k], v);
    assert flat + [k] + [v] == flat + [k, v];
  }

  lemma EndedPiece(front: string, flat: seq<string>, k: string)
    requires Split(front, '\0') == flat + [""] && '\0' !in k
    ensures Split(front + k + ['\0'], '\0') == flat + [k] + [""]
  {
    SplitEnded(front, k);
    GrowEmpty(flat, k);
  }

  lemma GrowEmpty(flat: seq<string>, k: string)
    ensures Grow(flat + [""], k) == flat + [k]
  {
    assert (flat + [""])[..|flat|] == flat && "" + k == k;
  }

  lemma {:induction false} PairUpFlat(pairs: seq<(string, string)>)
    ensures |Flat(pairs)| == 2 * |pairs| && PairUp(Flat(pairs)) == pairs
  {
    FlatHead(pairs);
    if |pairs| > 0 {
      PairUpFlat(pairs[1..]);
      assert Flat(pairs)[2..] == Flat(pairs[1..]);
      assert pairs == [(pairs[0].0, pairs[0].1)] + pairs[1..];
    }
  }

  lemma {:induction false} FlatHead(pairs: seq<(string, string)>)
    ensures |pairs| > 0 ==> Flat(pairs) == [pairs[0].0, pairs[0].1] + Flat(pairs[1..])
  {
    if |pairs| > 1 {
      var n := |pairs| - 1;
      FlatHead(pairs[..n]);
      assert pairs[..n][1..] == pairs[1..][..n - 1];
    }
  }

  lemma {:induction false} PairsHoldNoNul(parts: seq<string>)
    requires forall i :: 0 <= i < |parts| ==> '\0' !in parts[i]
    ensures NulFree(PairUp(parts))
  {
    if |parts| >= 2 { PairsHoldNoNul(parts[2..]); }
  }

  /** The loader reads exactly the labels that were sent, in order, when and only when they hold no NUL;
      empty keys and values included. */
  lemma LabelsReadIff(pairs: seq<(string, string)>)
    ensures PairUp(SplitNul(LabelsPayload(pairs))) == pairs <==> NulFree(pairs)
  {
    var payload := LabelsPayload(pairs);
    PairsHoldNoNul(SplitNul(payload));
    if NulFree(pairs) {
      SplitLabels(pairs);
      PairUpFlat(pairs);
      assert (Flat(pairs) + [""])[..|Flat(pairs)|] == Flat(pairs);
    }
  }

  function Override(labels: map<string, string>, pairs: seq<(string, string)>): map<string, string> {
    if |pairs| == 0 then labels
    else Override(labels, pairs[..|pairs| - 1])[pairs[|pairs| - 1].0 := pairs[|pairs| - 1].1]
  }

  /** `pairs` lists the entries of `m`, in any order. */
  ghost predicate Lists(pairs: seq<(string, string)>, m: map<string, string>) {
    && (forall i, j :: 0 <= i < j < |pairs| ==> pairs[i].0 != pairs[j].0)
    && (forall i :: 0 <= i < |pairs| ==> pairs[i].0 in m && m[pairs[i].0] == pairs[i].1)
    && (forall k :: k in m ==> exists i :: 0 <= i < |pairs| && pairs[i].0 == k)
  }

  lemma {:induction false} OverrideAt(labels: map<string, string>, pairs: seq<(string, string)>, k: string)
    requires forall i, j :: 0 <= i < j < |pairs| ==> pairs[i].0 != pairs[j].0
    ensures (forall i :: 0 <= i < |pairs| ==> pairs[i].0 != k) ==>
              (k in Override(labels, pairs) <==> k in labels) && (k in labels ==> Override(labels, pairs)[k] == labels[k])
    ensures forall i :: 0 <= i < |pairs| && pairs[i].0 == k ==> k in Override(labels, pairs) && Override(labels, pairs)[k] == pairs[i].1
  {
    if |pairs| > 0 { OverrideAt(labels, pairs[..|pairs| - 1], k); }
  }

  lemma LabelsAdded(labels: map<string, string>, pairs: seq<(string, string)>, sent: map<string, string>)
    requires NulFree(pairs) && Lists(pairs, sent)
    ensures Override(labels, PairUp(SplitNul(LabelsPayload(pairs)))) == labels + sent
  {
    LabelsReadIff(pairs);
    var after := Override(labels, pairs);
    forall k ensures (k in after <==> k in labels + sent) && (k in after ==> after[k] == (labels + sent)[k]) {
      OverrideAt(labels, pairs, k);
      if k in sent { var i :| 0 <= i < |pairs| && pairs[i].0 == k; }
    }
    assert after == labels + sent;
  }

  // ---- the loader ---------------------------------------------------------------------------------

  datatype State = State(windows: seq<Window>, labels: map<string, string>, emptyTicks: nat, everRegistered: bool,
                         iconAdded: bool)

  function HwndIndex(windows: seq<Window>, hwnd: Hwnd): (i: nat)
    ensures i <= |windows|
    ensures i < |windows| ==> windows[i].hwnd == hwnd
    ensures forall k :: 0 <= k < i ==> windows[k].hwnd != hwnd
  {
    if |windows| == 0 || windows[0].hwnd == hwnd then 0 else 1 + HwndIndex(windows[1..], hwnd)
  }

  /** The windows that are still there. */
  function Pruned(windows: seq<Window>, live: set<Hwnd>): seq<Window> {
    if |windows| == 0 then []
    else Pruned(windows[..|windows| - 1], live)
         + (if windows[|windows| - 1].hwnd in live then [windows[|windows| - 1]] else [])
  }

  /** A tick keeps exactly the live windows, with all that is on record for them. */
  lemma {:induction false} PrunedIff(windows: seq<Window>, live: set<Hwnd>, w: Window)
    ensures w in Pruned(windows, live) <==> w in windows && w.hwnd in live
  {
    if |windows| > 0 {
      LastApart(windows);
      PrunedIff(windows[..|windows| - 1], live, w);
    }
  }

  function OnRegister(s: State, sender: Hwnd, payload: string): State {
    var (visible, workspace) := ReadRegister(payload);
    var i := HwndIndex(s.windows, sender);
    if i < |s.windows| then s.(windows := s.windows[i := Window(sender, visible, workspace)])
    else s.(windows := s.windows + [Window(sender, visible, workspace)], everRegistered := true, emptyTicks := 0)
  }

  function OnLabels(s: State, payload: string): State {
    s.(labels := Override(s.labels, PairUp(SplitNul(payload))))
  }

  function OnIdleTick(s: State, live: set<Hwnd>): State {
    var windows := Pruned(s.windows, live);
    s.(windows := windows, emptyTicks := if |windows| == 0 then s.emptyTicks + 1 else 0)
  }

  /** Whether an idle tick ends the loader. */
  predicate Ends(s: State) {
    s.emptyTicks >= if s.everRegistered then IDLE_EXIT_TICKS else STARTUP_EXIT_TICKS
  }

  function PostAll(windows: seq<Window>, command: Command): seq<Posted> {
    seq(|windows|, i requires 0 <= i < |windows| => Posted(windows[i].hwnd, command))
  }

  /** The loader's labels become its old ones overridden by the sent ones, and nothing else changes. */
  lemma LabelsOverride(s: State, pairs: seq<(string, string)>, sent: map<string, string>)
    requires NulFree(pairs) && Lists(pairs, sent)
    ensures OnLabels(s, LabelsPayload(pairs)) == s.(labels := s.labels + sent)
  {
    LabelsAdded(s.labels, pairs, sent);
  }

  /** What a window registered is on record for it, at its old place or at the end; a new one starts the idle
      count anew; the other windows stay as they are. */
  lemma RegisterRecords(s: State, sender: Hwnd, visible: bool, workspace: string)
    requires '\0' !in workspace
    ensures var s' := OnRegister(s, sender, RegisterPayload(visible, workspace));
            var i := HwndIndex(s.windows, sender);
            var known := i < |s.windows|;
            && |s'.windows| == (if known then |s.windows| else |s.windows| + 1)
            && s'.windows[i] == Window(sender, visible, workspace)
            && (forall k :: 0 <= k < |s.windows| && k != i ==> s'.windows[k] == s.windows[k])
            && s'.labels == s.labels && s'.iconAdded == s.iconAdded
            && s'.everRegistered == (s.everRegistered || !known)
            && s'.emptyTicks == (if known then s.emptyTicks else 0)
  {
    RegisterReadsIff(visible, workspace);
  }

  /** What `ShowMenu` posts once the menu has returned `cmd`. */
  function Clicked(windows: seq<Window>, cmd: nat): seq<Posted> {
    if cmd == MENU_SHOW_ALL then PostAll(windows, Show)
    else if cmd == MENU_HIDE_ALL then PostAll(windows, Hide)
    else if cmd == MENU_QUIT_ALL then PostAll(windows, Quit)
    else if MENU_WINDOW_BASE <= cmd < MENU_WINDOW_BASE + |windows| then [Posted(windows[cmd - MENU_WINDOW_BASE].hwnd, Show)]
    else []
  }

  /** What a click on the menu posts: entry 1000 shows every window, 1001 hides and 1002 quits every one, once
      each and in order; a row's number shows its window; no other number posts anything. */
  lemma ClickPosts(windows: seq<Window>, cmd: nat)
    ensures cmd == 1000 ==> OneToEach(windows, Clicked(windows, cmd), Show)
    ensures cmd == 1001 ==> OneToEach(windows, Clicked(windows, cmd), Hide)
    ensures cmd == 1002 ==> OneToEach(windows, Clicked(windows, cmd), Quit)
    ensures cmd !in {1000, 1001, 1002} ==>
              Clicked(windows, cmd) == if 1 <= cmd <= |windows| then [Posted(windows[cmd - 1].hwnd, Show)] else []
  {}

  ghost predicate OneToEach(windows: seq<Window>, posts: seq<Posted>, command: Command) {
    |posts| == |windows| && forall i :: 0 <= i < |windows| ==> posts[i].to == windows[i].hwnd && posts[i].command == command
  }

  class Loader {
    var windows: seq<Window>
    var labels: map<string, string>
    var emptyTicks: nat
    var everRegistered: bool
    var iconAdded: bool
    var posted: seq<Posted>

    function Abstract(): State
      reads this
    {
      State(windows, labels, emptyTicks, everRegistered, iconAdded)
    }

    method Register(sender: Hwnd, payload: string)
      modifies this
      ensures Abstract() == OnRegister(old(Abstract()), sender, payload)
      ensures posted == old(posted) + [Posted(sender, Availability(iconAdded))]
    {
      var parts := SplitNulLoop(payload);
      var visible := |parts| > 0 && parts[0] == "1";
      var workspace := if |parts| > 1 then parts[1] else "";
      var i := 0;
      while i < |windows| && windows[i].hwnd != sender
        invariant 0 <= i <= |windows|
        invariant forall k :: 0 <= k < i ==> windows[k].hwnd != sender
      {
        i := i + 1;
      }
      assert i == HwndIndex(windows, sender);
      if i == |windows| {
        windows := windows + [Window(sender, visible, workspace)];
        everRegistered := true;
        emptyTicks := 0;
      } else {
        windows := windows[i := Window(sender, visible, workspace)];
      }
      posted := posted + [Posted(sender, Availability(iconAdded))];
    }

    method TakeLabels(payload: string)
      modifies this
      ensures Abstract() == OnLabels(old(Abstract()), payload) && posted == old(posted)
    {
      var parts := SplitNulLoop(payload);
      var i := 0;
      ghost var before := labels;
      PairsSoFar(parts, 0);
      assert Override(before, []) == before;
      while i + 1 < |parts|
        invariant 0 <= i <= |parts| && i % 2 == 0
        invariant i / 2 <= |PairUp(parts)| && |PairUp(parts)| == |parts| / 2
        invariant labels == Override(before, PairUp(parts)[..i / 2])
        invariant windows == old(windows) && emptyTicks == old(emptyTicks) && everRegistered == old(everRegistered)
        invariant iconAdded == old(iconAdded) && posted == old(posted)
      {
        PairsSoFar(parts, i / 2);
        assert PairUp(parts)[..i / 2 + 1][..i / 2] == PairUp(parts)[..i / 2];
        labels := labels[parts[i] := parts[i + 1]];
        i := i + 2;
      }
      assert PairUp(parts)[..|parts| / 2] == PairUp(parts);
    }

    method IdleTick(live: set<Hwnd>) returns (ends: bool)
      modifies this
      ensures Abstract() == OnIdleTick(old(Abstract()), live) && posted == old(posted)
      ensures ends == Ends(Abstract())
    {
      windows := PruneLoop(windows, live);
      emptyTicks := if |windows| == 0 then emptyTicks + 1 else 0;
      ends := emptyTicks >= if everRegistered then IDLE_EXIT_TICKS else STARTUP_EXIT_TICKS;
    }

    method PostToAll(command: Command)
      modifies this`posted
      ensures posted == old(posted) + PostAll(windows, command)
    {
      for i := 0 to |windows|
        invariant posted == old(posted) + PostAll(windows, command)[..i]
      {
        posted := posted + [Posted(windows[i].hwnd, command)];
      }
    }

    /** A click on the icon: shows every window if one is hidden or there is none, else hides every one. */
    method ToggleAll()
      modifies this`posted
      ensures old(posted) <= posted
      ensures OneToEach(windows, posted[|old(posted)|..],
                        if |windows| > 0 && forall i :: 0 <= i < |windows| ==> windows[i].visible then Hide else Show)
    {
      var anyHidden := |windows| == 0;
      for i := 0 to |windows|
        invariant anyHidden <==> |windows| == 0 || exists k :: 0 <= k < i && !windows[k].visible
      {
        anyHidden := anyHidden || !windows[i].visible;
      }
      if anyHidden { PostToAll(Show); } else { PostToAll(Hide); }
    }

    method ClickMenu(cmd: nat)
      modifies this
      ensures Abstract() == old(Abstract()) && posted == old(posted) + Clicked(windows, cmd)
    {
      if cmd == MENU_SHOW_ALL {
        PostToAll(Show);
      } else if cmd == MENU_HIDE_ALL {
        PostToAll(Hide);
      } else if cmd == MENU_QUIT_ALL {
        PostToAll(Quit);
      } else if MENU_WINDOW_BASE <= cmd < MENU_WINDOW_BASE + |windows| {
        posted := posted + [Posted(windows[cmd - MENU_WINDOW_BASE].hwnd, Show)];
      }
    }
  }

  method PruneLoop(windows: seq<Window>, live: set<Hwnd>) returns (kept: seq<Window>)
    ensures kept == Pruned(windows, live)
  {
    kept := [];
    for i := 0 to |windows|
      invariant kept == Pruned(windows[..i], live)
    {
      assert windows[..i + 1][..i] == windows[..i];
      if windows[i].hwnd in live { kept := kept + [windows[i]]; }
    }
    assert windows[..|windows|] == windows;
  }

  lemma {:induction false} PairsSoFar(parts: seq<string>, k: nat)
    ensures |PairUp(parts)| == |parts| / 2
    ensures k < |parts| / 2 ==> PairUp(parts)[k] == (parts[2 * k], parts[2 * k + 1])
  {
    if |parts| >= 2 { PairsSoFar(parts[2..], if k > 0 then k - 1 else 0); }
  }

  // ---- the loader's end ---------------------------------------------------------------------------

  /** The loader after `n` ticks at which the same windows are alive and nobody registers. */
  function AfterTicks(s: State, live: set<Hwnd>, n: nat): State {
    if n == 0 then s else OnIdleTick(AfterTicks(s, live, n - 1), live)
  }

  lemma PrunedSnoc(windows: seq<Window>, live: set<Hwnd>, w: Window)
    ensures Pruned(windows + [w], live) == Pruned(windows, live) + (if w.hwnd in live then [w] else [])
  {
    assert (windows + [w])[..|windows|] == windows;
  }

  lemma {:induction false} NothingToPrune(windows: seq<Window>, live: set<Hwnd>)
    ensures Pruned(windows, live) == [] <==> forall i :: 0 <= i < |windows| ==> windows[i].hwnd !in live
    ensures Pruned(Pruned(windows, live), live) == Pruned(windows, live)
  {
    if |windows| > 0 {
      var n := |windows| - 1;
      NothingToPrune(windows[..n], live);
      LastApart(windows);
      var kept := Pruned(windows[..n], live);
      PrunedSnoc(kept, live, windows[n]);
      AppendNothing(kept);
    }
  }

  lemma {:induction false} TicksCount(s: State, live: set<Hwnd>, n: nat)
    requires n > 0
    ensures var s' := AfterTicks(s, live, n);
            && s'.windows == Pruned(s.windows, live) && s'.everRegistered == s.everRegistered
            && s'.emptyTicks == if |s'.windows| == 0 then s.emptyTicks + n else 0
  {
    if n > 1 {
      TicksCount(s, live, n - 1);
      NothingToPrune(s.windows, live);
    }
  }

  /** While nobody registers, the n-th tick ends the loader exactly when none of its windows is alive and the
      count has come to the limit: no live window is left without a loader, and an empty loader ends. */
  lemma IdleEndsIff(s: State, live: set<Hwnd>, n: nat)
    requires n > 0
    ensures Ends(AfterTicks(s, live, n))
            <==> && (forall i :: 0 <= i < |s.windows| ==> s.windows[i].hwnd !in live)
                 && s.emptyTicks + n >= if s.everRegistered then 3 else 20
  {
    TicksCount(s, live, n);
    NothingToPrune(s.windows, live);
  }

  // ---- clicking a row -----------------------------------------------------------------------------

  /** What can reach the loader while its menu is open; `Died` is a window's end, noticed at a tick. */
  datatype Event = Registers(sender: Hwnd, payload: string) | Ticks | Died(hwnd: Hwnd)

  datatype Session = Session(loader: State, live: set<Hwnd>)

  function Apply(w: Session, e: Event): Session {
    match e
    case Registers(sender, payload) =>
      if sender in w.live then w.(loader := OnRegister(w.loader, sender, payload)) else w
    case Ticks => w.(loader := OnIdleTick(w.loader, w.live))
    case Died(hwnd) => w.(live := w.live - {hwnd})
  }

  function Run(w: Session, events: seq<Event>): Session {
    if |events| == 0 then w else Apply(Run(w, events[..|events| - 1]), events[|events| - 1])
  }

  function Hwnds(windows: seq<Window>): seq<Hwnd> {
    seq(|windows|, i requires 0 <= i < |windows| => windows[i].hwnd)
  }

  /** The rows whose windows the loader still has, in order. */
  function Remaining(rows: seq<Hwnd>, windows: seq<Hwnd>): (q: seq<Hwnd>)
    ensures |q| <= |rows|
    ensures |q| == |rows| <==> forall k :: 0 <= k < |rows| ==> rows[k] in windows
  {
    if |rows| == 0 then []
    else
      var n := |rows| - 1;
      assert rows == rows[..n] + [rows[n]];
      Remaining(rows[..n], windows) + (if rows[n] in windows then [rows[n]] else [])
  }

  ghost predicate DistinctHwnds(q: seq<Hwnd>) { forall i, j :: 0 <= i < j < |q| ==> q[i] != q[j] }

  /** The menu showed `rows`; since then rows have only been pruned, and windows added at the end. */
  ghost predicate Grown(rows: seq<Hwnd>, w: Session) {
    var now := Hwnds(w.loader.windows);
    && Remaining(rows, now) <= now && DistinctHwnds(now)
    && forall h :: h in rows && h !in now ==> h !in w.live
  }

  lemma {:induction false} RemainingMore(rows: seq<Hwnd>, now: seq<Hwnd>, hwnd: Hwnd)
    requires hwnd !in rows
    ensures Remaining(rows, now + [hwnd]) == Remaining(rows, now)
  {
    if |rows| > 0 {
      var n := |rows| - 1;
      assert rows[n] in rows;
      RemainingMore(rows[..n], now, hwnd);
    }
  }

  lemma {:induction false} PrunedHwnds(windows: seq<Window>, live: set<Hwnd>)
    ensures Hwnds(Pruned(windows, live)) == Live(Hwnds(windows), live)
  {
    if |windows| > 0 {
      var n := |windows| - 1;
      PrunedHwnds(windows[..n], live);
      assert Hwnds(windows)[..n] == Hwnds(windows[..n]);
      assert Hwnds(windows) == Hwnds(windows[..n]) + [windows[n].hwnd];
      var kept := Pruned(windows[..n], live);
      assert Hwnds(kept + [windows[n]]) == Hwnds(kept) + [windows[n].hwnd];
    }
  }

  function Live(q: seq<Hwnd>, live: set<Hwnd>): (r: seq<Hwnd>)
    ensures forall h :: h in r <==> h in q && h in live
    ensures DistinctHwnds(q) ==> DistinctHwnds(r)
  {
    if |q| == 0 then []
    else
      var n := |q| - 1;
      assert q == q[..n] + [q[n]];
      Live(q[..n], live) + (if q[n] in live then [q[n]] else [])
  }

  lemma {:induction false} LivePrefix(p: seq<Hwnd>, q: seq<Hwnd>, live: set<Hwnd>)
    requires p <= q
    ensures Live(p, live) <= Live(q, live)
  {
    if p != q {
      LivePrefix(p, q[..|q| - 1], live);
    }
  }

  lemma {:induction false} RemainingLive(rows: seq<Hwnd>, now: seq<Hwnd>, later: seq<Hwnd>, live: set<Hwnd>)
    requires forall h :: h in later <==> h in now && h in live
    ensures Remaining(rows, later) == Live(Remaining(rows, now), live)
  {
    if |rows| > 0 {
      var n := |rows| - 1;
      RemainingLive(rows[..n], now, later, live);
      RemainingSnoc(rows, now);
      RemainingSnoc(rows, later);
      if rows[n] in now { LiveSnoc(Remaining(rows[..n], now), rows[n], live); }
    }
  }

  lemma RemainingSnoc(rows: seq<Hwnd>, windows: seq<Hwnd>)
    requires |rows| > 0
    ensures var n := |rows| - 1;
            Remaining(rows, windows)
            == if rows[n] in windows then Remaining(rows[..n], windows) + [rows[n]] else Remaining(rows[..n], windows)
  {
    AppendNothing(Remaining(rows[..|rows| - 1], windows));
  }

  lemma LiveSnoc(q: seq<Hwnd>, h: Hwnd, live: set<Hwnd>)
    ensures Live(q + [h], live) == if h in live then Live(q, live) + [h] else Live(q, live)
  {
    assert (q + [h])[..|q|] == q;
    AppendNothing(Live(q, live));
  }

  lemma TickGrows(rows: seq<Hwnd>, w: Session)
    requires Grown(rows, w)
    ensures Grown(rows, Apply(w, Ticks))
  {
    var now := Hwnds(w.loader.windows);
    var later := Hwnds(Pruned(w.loader.windows, w.live));
    PrunedHwnds(w.loader.windows, w.live);
    RemainingLive(rows, now, later, w.live);
    LivePrefix(Remaining(rows, now), now, w.live);
  }

  lemma RegisterGrows(rows: seq<Hwnd>, w: Session, sender: Hwnd, payload: string)
    requires Grown(rows, w)
    ensures Grown(rows, Apply(w, Registers(sender, payload)))
  {
    var now := Hwnds(w.loader.windows);
    var later := Hwnds(Apply(w, Registers(sender, payload)).loader.windows);
    if sender in w.live {
      var i := HwndIndex(w.loader.windows, sender);
      if i < |w.loader.windows| {
        assert later == now;
      } else {
        assert sender !in now && later == now + [sender];
        RemainingMore(rows, now, sender);
      }
    }
  }

  lemma {:induction false} RunGrows(rows: seq<Hwnd>, w: Session, events: seq<Event>)
    requires Hwnds(w.loader.windows) == rows && DistinctHwnds(rows)
    ensures Grown(rows, Run(w, events))
  {
    if |events| == 0 {
      AllRemain(rows);
    } else {
      var n := |events| - 1;
      RunGrows(rows, w, events[..n]);
      match events[n] {
        case Registers(sender, payload) => RegisterGrows(rows, Run(w, events[..n]), sender, payload);
        case Ticks => TickGrows(rows, Run(w, events[..n]));
        case Died(_) =>
      }
    }
  }

  lemma AllRemain(rows: seq<Hwnd>)
    ensures Remaining(rows, rows) == rows
  {
    RemainingWhole(rows, rows);
  }

  lemma {:induction false} RemainingWhole(rows: seq<Hwnd>, windows: seq<Hwnd>)
    requires forall h :: h in rows ==> h in windows
    ensures Remaining(rows, windows) == rows
  {
    if |rows| > 0 {
      var n := |rows| - 1;
      assert rows[n] in rows && rows == rows[..n] + [rows[n]];
      RemainingWhole(rows[..n], windows);
    }
  }

  /** A row that remains stands after as many as remain before it. */
  lemma {:induction false} RowPlace(rows: seq<Hwnd>, windows: seq<Hwnd>, i: nat)
    requires i < |rows| && rows[i] in windows
    ensures var place := |Remaining(rows[..i], windows)|;
            place < |Remaining(rows, windows)| && Remaining(rows, windows)[place] == rows[i]
  {
    var n := |rows| - 1;
    if i < n {
      RowPlace(rows[..n], windows, i);
      assert rows[..n][..i] == rows[..i];
    }
  }

  /** What the menu shows once it is open: the rows are the live windows, in order. While it is open the
      loader goes on handling messages, so a row shows its own window and nothing else exactly when no row
      up to it has been pruned and its number is not that of a fixed entry (or it is the number of "show
      all" and the row's window is the only one left). */
  lemma ClickShowsItsWindowIff(w: Session, events: seq<Event>, i: nat)
    requires DistinctHwnds(Hwnds(w.loader.windows)) && i < |w.loader.windows|
    ensures var rows := Hwnds(w.loader.windows);
            var later := Run(w, events).loader.windows;
            var cmd := 1 + i;
            Clicked(later, cmd) == [Posted(rows[i], Show)]
            <==> || (cmd !in {1000, 1001, 1002} && forall k :: 0 <= k <= i ==> rows[k] in Hwnds(later))
                 || (cmd == 1000 && Hwnds(later) == [rows[i]])
  {
    var rows, later := Hwnds(w.loader.windows), Run(w, events).loader.windows;
    var now := Hwnds(later);
    RunGrows(rows, w, events);
    var cmd := MENU_WINDOW_BASE + i;
    if cmd in {MENU_SHOW_ALL, MENU_HIDE_ALL, MENU_QUIT_ALL} {
      FixedEntry(later, cmd, rows[i]);
    } else {
      RowAt(rows, now, i);
      assert i < |now| ==> now[i] == later[i].hwnd;
    }
  }

  lemma FixedEntry(later: seq<Window>, cmd: nat, row: Hwnd)
    requires cmd in {MENU_SHOW_ALL, MENU_HIDE_ALL, MENU_QUIT_ALL}
    ensures Clicked(later, cmd) == [Posted(row, Show)] <==> cmd == MENU_SHOW_ALL && Hwnds(later) == [row]
  {
    var clicked := Clicked(later, cmd);
    assert |clicked| == |later|;
    if |later| == 1 { assert clicked[0].to == later[0].hwnd == Hwnds(later)[0]; }
  }

  lemma RowAt(rows: seq<Hwnd>, now: seq<Hwnd>, i: nat)
    requires Remaining(rows, now) <= now && DistinctHwnds(now) && i < |rows|
    ensures (i < |now| && now[i] == rows[i]) <==> forall k :: 0 <= k <= i ==> rows[k] in now
  {
    var place := |Remaining(rows[..i], now)|;
    if rows[i] in now {
      RowPlace(rows, now, i);
      assert now[place] == rows[i];
      assert place == i <==> forall k :: 0 <= k < i ==> rows[..i][k] in now;
      assert forall k :: 0 <= k < i ==> rows[..i][k] == rows[k];
    }
  }

  /** The first of two windows ends while the menu is open: a click on its row shows the other one. */
  lemma ClickShowsOtherWindow()
    ensures var one, two := Window(1, true, ""), Window(2, true, "");
            var w := Session(State([one, two], map[], 0, true, true), {1, 2});
            Clicked(Run(w, [Died(1), Ticks]).loader.windows, 1) == [Posted(2, Show)]
  {
    var one, two := Window(1, true, ""), Window(2, true, "");
    var w := Session(State([one, two], map[], 0, true, true), {1, 2});
    assert [Died(1), Ticks][..1] == [Died(1)] && [Died(1)][..0] == [];
    assert Run(w, [Died(1)]) == Apply(w, Died(1));
    assert [one, two][..1] == [one] && [one][..0] == [];
    assert {1, 2} - {1} == {2};
    assert Pruned([one], {2}) == [];
    assert Pruned([one, two], {2}) == [] + [two] == [two];
  }

  /** The row of the 1000th window has the number of "show all". */
  lemma ThousandthRowShowsAll()
    ensures var windows := seq(1000, i requires 0 <= i => Window(i, true, ""));
            Clicked(windows, 1000) == PostAll(windows, Show) && |PostAll(windows, Show)| == 1000
  {}
}
