/** The tab index of `legacy/clide/widgets/panels/workspace.py`: the registry of open tabs, the panes, and
    the index from files to tabs. Python dictionaries keep insertion order, so the registry is a list of
    tabs with distinct ids. */
module Workspace {
  import opened Common
  import opened Text

  type Path = string

  datatype TabType = Editor | Terminal | Diff

  datatype Tab = Tab(id: string, kind: TabType, filePath: Option<Path>, isProposal: bool, diffPath: Option<string>)

  /** `Path.resolve` as the file system stands at one call. */
  type Resolve = Path -> Path

  /** `given` (history) lists every id ever handed out. */
  datatype State = State(counter: nat, registry: seq<Tab>, panes: map<string, TabType>,
                         fileToTab: map<Path, string>, visible: bool, given: seq<string>)

  function Empty(): State { State(0, [], map[], map[], false, []) }

  // ---- tab ids ------------------------------------------------------------------------------------

  function TypeValue(kind: TabType): string {
    match kind
    case Editor => "editor"
    case Terminal => "terminal"
    case Diff => "diff"
  }

  function TabId(kind: TabType, n: nat): string { "ws-" + TypeValue(kind) + ['-'] + Dec(n) }

  function TrailingDigits(s: string): (r: string)
    ensures AllDigits(r)
  {
    if |s| > 0 && IsDigit(s[|s| - 1]) then TrailingDigits(s[..|s| - 1]) + [s[|s| - 1]] else ""
  }

  /** The number an id was made from. */
  function Number(id: string): nat { DecValue(TrailingDigits(id)) }

  lemma {:induction false} TrailingOf(front: string, digits: string)
    requires AllDigits(digits) && (|front| > 0 ==> !IsDigit(front[|front| - 1]))
    ensures TrailingDigits(front + digits) == digits
  {
    if |digits| == 0 {
      assert front + digits == front;
    } else {
      var n := |digits| - 1;
      TrailingOf(front, digits[..n]);
      assert (front + digits)[..|front + digits| - 1] == front + digits[..n];
    }
  }

  lemma NumberOfId(kind: TabType, n: nat)
    ensures Number(TabId(kind, n)) == n
  {
    TrailingOf("ws-" + TypeValue(kind) + ['-'], Dec(n));
    DecValueDec(n);
  }

  // ---- operations ---------------------------------------------------------------------------------

  function Index(registry: seq<Tab>, id: string): (i: nat)
    ensures i <= |registry|
    ensures i < |registry| ==> registry[i].id == id
    ensures forall k :: 0 <= k < i ==> registry[k].id != id
  {
    if |registry| == 0 || registry[0].id == id then 0 else 1 + Index(registry[1..], id)
  }

  predicate Open(s: State, id: string) { Index(s.registry, id) < |s.registry| }

  function AddTab(s: State, kind: TabType, filePath: Option<Path>, isProposal: bool, diffPath: Option<string>,
                  resolve: Resolve): State {
    var id := TabId(kind, s.counter + 1);
    State(s.counter + 1, s.registry + [Tab(id, kind, filePath, isProposal, diffPath)], s.panes[id := kind],
          if filePath.Some? then s.fileToTab[resolve(filePath.value) := id] else s.fileToTab,
          s.visible, s.given + [id])
  }

  function Without(registry: seq<Tab>, i: nat): seq<Tab>
    requires i < |registry|
  {
    registry[..i] + registry[i + 1..]
  }

  function RemoveTab(s: State, id: string, resolve: Resolve): State {
    var i := Index(s.registry, id);
    if i == |s.registry| then s
    else
      var path := s.registry[i].filePath;
      var registry := Without(s.registry, i);
      State(s.counter, registry, s.panes - {id},
            if path.Some? then s.fileToTab - {resolve(path.value)} else s.fileToTab,
            s.visible && |registry| > 0, s.given)
  }

  function OpenFile(s: State, path: Path, resolve: Resolve): (State, string) {
    var shown := s.(visible := true);
    var resolved := resolve(path);
    if resolved in s.fileToTab then (shown, s.fileToTab[resolved])
    else (AddTab(shown, Editor, Some(resolved), false, None, resolve), TabId(Editor, s.counter + 1))
  }

  function ShowDiff(s: State, path: string, isProposal: bool, resolve: Resolve): State {
    AddTab(s.(visible := true), Diff, None, isProposal, Some(path), resolve)
  }

  function NewTerminal(s: State, resolve: Resolve): State {
    AddTab(s.(visible := true), Terminal, None, false, None, resolve)
  }

  function FirstTerminal(registry: seq<Tab>): (i: nat)
    ensures i <= |registry|
    ensures i < |registry| ==> registry[i].kind == Terminal
    ensures forall k :: 0 <= k < i ==> registry[k].kind != Terminal
  {
    if |registry| == 0 || registry[0].kind == Terminal then 0 else 1 + FirstTerminal(registry[1..])
  }

  function ShowTerminal(s: State, resolve: Resolve): State {
    if FirstTerminal(s.registry) < |s.registry| then s.(visible := true) else NewTerminal(s, resolve)
  }

  /** The ids of the diff tabs that show no proposal. */
  function PlainDiffs(registry: seq<Tab>): seq<string> {
    if |registry| == 0 then []
    else
      var t := registry[|registry| - 1];
      PlainDiffs(registry[..|registry| - 1]) + (if t.kind == Diff && !t.isProposal then [t.id] else [])
  }

  function RemoveAll(s: State, ids: seq<string>, resolve: Resolve): State {
    if |ids| == 0 then s else RemoveTab(RemoveAll(s, ids[..|ids| - 1], resolve), ids[|ids| - 1], resolve)
  }

  function ClearDiff(s: State, resolve: Resolve): State { RemoveAll(s, PlainDiffs(s.registry), resolve) }

  function FirstDiffOf(registry: seq<Tab>, path: string): (i: nat)
    ensures i <= |registry|
    ensures i < |registry| ==> registry[i].kind == Diff && registry[i].diffPath == Some(path)
    ensures forall k :: 0 <= k < i ==> !(registry[k].kind == Diff && registry[k].diffPath == Some(path))
  {
    if |registry| == 0 || (registry[0].kind == Diff && registry[0].diffPath == Some(path)) then 0
    else 1 + FirstDiffOf(registry[1..], path)
  }

  /** Accepting or rejecting a diff closes its first tab. */
  function DiffDecided(s: State, path: string, resolve: Resolve): State {
    var i := FirstDiffOf(s.registry, path);
    if i < |s.registry| then RemoveTab(s, s.registry[i].id, resolve) else s
  }

  class WorkspacePanel {
    var counter: nat
    var registry: seq<Tab>
    var panes: map<string, TabType>
    var fileToTab: map<Path, string>
    var visible: bool
    ghost var given: seq<string>

    ghost function Abstract(): State
      reads this
    {
      State(counter, registry, panes, fileToTab, visible, given)
    }

    constructor ()
      ensures Abstract() == Empty()
    {
      counter, registry, panes, fileToTab, visible, given := 0, [], map[], map[], false, [];
    }

    method Add(kind: TabType, filePath: Option<Path>, isProposal: bool, diffPath: Option<string>, resolve: Resolve)
      returns (id: string)
      modifies this
      ensures Abstract() == AddTab(old(Abstract()), kind, filePath, isProposal, diffPath, resolve)
      ensures id == TabId(kind, counter)
    {
      counter := counter + 1;
      id := TabId(kind, counter);
      registry := registry + [Tab(id, kind, filePath, isProposal, diffPath)];
      panes := panes[id := kind];
      if filePath.Some? { fileToTab := fileToTab[resolve(filePath.value) := id]; }
      given := given + [id];
    }

    method Remove(id: string, resolve: Resolve)
      modifies this
      ensures Abstract() == RemoveTab(old(Abstract()), id, resolve)
    {
      var i := Index(registry, id);
      if i == |registry| { return; }
      var info := registry[i];
      registry := registry[..i] + registry[i + 1..];
      panes := panes - {id};
      if info.filePath.Some? {
        var resolved := resolve(info.filePath.value);
        if resolved in fileToTab { fileToTab := fileToTab - {resolved}; }
      }
      assert fileToTab == RemoveTab(old(Abstract()), id, resolve).fileToTab;
      if |registry| == 0 { visible := false; }
    }

    method OpenPath(path: Path, resolve: Resolve) returns (id: string)
      modifies this
      ensures (Abstract(), id) == OpenFile(old(Abstract()), path, resolve)
    {
      visible := true;
      var resolved := resolve(path);
      if resolved in fileToTab {
        id := fileToTab[resolved];
      } else {
        id := Add(Editor, Some(resolved), false, None, resolve);
      }
    }

    method ShowFirstTerminal(resolve: Resolve) returns (id: string)
      modifies this
      ensures Abstract() == ShowTerminal(old(Abstract()), resolve)
      ensures exists i :: 0 <= i < |registry| && registry[i].id == id && registry[i].kind == Terminal
    {
      visible := true;
      for i := 0 to |registry|
        invariant Abstract() == old(Abstract()).(visible := true)
        invariant forall k :: 0 <= k < i ==> registry[k].kind != Terminal
      {
        if registry[i].kind == Terminal { return registry[i].id; }
      }
      id := Add(Terminal, None, false, None, resolve);
      assert registry[|registry| - 1].id == id;
    }

    method ClearPlainDiffs(resolve: Resolve)
      modifies this
      ensures Abstract() == ClearDiff(old(Abstract()), resolve)
    {
      var ids := PlainDiffs(registry);
      for i := 0 to |ids|
        invariant Abstract() == RemoveAll(old(Abstract()), ids[..i], resolve)
      {
        assert ids[..i + 1][..i] == ids[..i];
        Remove(ids[i], resolve);
      }
      assert ids[..|ids|] == ids;
    }

    method CloseDiffOf(path: string, resolve: Resolve)
      modifies this
      ensures Abstract() == DiffDecided(old(Abstract()), path, resolve)
    {
      for i := 0 to |registry|
        invariant Abstract() == old(Abstract())
        invariant forall k :: 0 <= k < i ==> !(registry[k].kind == Diff && registry[k].diffPath == Some(path))
      {
        if registry[i].kind == Diff && registry[i].diffPath == Some(path) {
          assert i == FirstDiffOf(registry, path);
          Remove(registry[i].id, resolve);
          return;
        }
      }
    }
  }

  // ---- what every run keeps -----------------------------------------------------------------------

  ghost predicate DistinctIds(registry: seq<Tab>) {
    forall i, j :: 0 <= i < j < |registry| ==> registry[i].id != registry[j].id
  }

  ghost predicate HasId(registry: seq<Tab>, id: string) {
    exists i :: 0 <= i < |registry| && registry[i].id == id
  }

  /** Registry and panes hold the same tabs. */
  ghost predicate PanesMatch(s: State) {
    && (forall id :: id in s.panes <==> HasId(s.registry, id))
    && (forall i :: 0 <= i < |s.registry| ==> s.registry[i].id in s.panes && s.panes[s.registry[i].id] == s.registry[i].kind)
  }

  /** Ids are handed out once, with ever higher numbers. */
  ghost predicate IdsFresh(s: State) {
    && (forall i, j :: 0 <= i < j < |s.given| ==> s.given[i] != s.given[j])
    && (forall i :: 0 <= i < |s.given| ==> Number(s.given[i]) <= s.counter)
    && (forall i :: 0 <= i < |s.registry| ==> s.registry[i].id in s.given)
  }

  ghost predicate DiffsHaveNoFile(registry: seq<Tab>) {
    forall i :: 0 <= i < |registry| && registry[i].kind == Diff ==> registry[i].filePath.None?
  }

  /** What does not depend on the file system. */
  ghost predicate TabsInv(s: State) {
    DistinctIds(s.registry) && PanesMatch(s) && IdsFresh(s) && DiffsHaveNoFile(s.registry)
  }

  /** The open tab that shows `path` has id `id`. */
  ghost predicate Shows(registry: seq<Tab>, path: Path, id: string) {
    exists i :: 0 <= i < |registry| && registry[i].id == id && registry[i].filePath == Some(path)
  }

  /** The file index is exactly the inverse of the registry's file paths. */
  ghost predicate IndexIsInverse(s: State) {
    forall path, id :: (path in s.fileToTab && s.fileToTab[path] == id) <==> Shows(s.registry, path, id)
  }

  // ---- adding a tab -------------------------------------------------------------------------------

  lemma NextIdIsNew(s: State, kind: TabType)
    requires IdsFresh(s)
    ensures TabId(kind, s.counter + 1) !in s.given
    ensures Number(TabId(kind, s.counter + 1)) == s.counter + 1
    ensures forall i :: 0 <= i < |s.registry| ==> s.registry[i].id != TabId(kind, s.counter + 1)
  {
    NumberOfId(kind, s.counter + 1);
  }

  lemma AddKeepsPanes(s: State, t: Tab)
    requires PanesMatch(s) && !HasId(s.registry, t.id)
    ensures PanesMatch(s.(registry := s.registry + [t], panes := s.panes[t.id := t.kind]))
  {
    var registry := s.registry + [t];
    forall id ensures HasId(registry, id) <==> HasId(s.registry, id) || id == t.id {
      if HasId(s.registry, id) {
        var i :| 0 <= i < |s.registry| && s.registry[i].id == id;
        assert registry[i].id == id;
      }
      assert registry[|s.registry|] == t;
    }
    forall i | 0 <= i < |s.registry| ensures registry[i].id in s.panes && registry[i].id != t.id {
      assert HasId(s.registry, s.registry[i].id);
    }
  }

  lemma AddKeepsDistinct(registry: seq<Tab>, t: Tab)
    requires DistinctIds(registry) && forall i :: 0 <= i < |registry| ==> registry[i].id != t.id
    ensures DistinctIds(registry + [t])
  {}

  lemma GivenOnce(s: State, id: string)
    requires IdsFresh(s) && id !in s.given && Number(id) == s.counter + 1
    ensures var given := s.given + [id];
            && (forall i, j :: 0 <= i < j < |given| ==> given[i] != given[j])
            && (forall i :: 0 <= i < |given| ==> Number(given[i]) <= s.counter + 1)
            && id in given && forall i :: 0 <= i < |s.registry| ==> s.registry[i].id in given
  {
    assert (s.given + [id])[|s.given|] == id;
  }

  lemma TabAdded(s: State, t: Tab, fileToTab: map<Path, string>)
    requires TabsInv(s) && t.id !in s.given && Number(t.id) == s.counter + 1 && (t.kind == Diff ==> t.filePath.None?)
    ensures TabsInv(State(s.counter + 1, s.registry + [t], s.panes[t.id := t.kind], fileToTab, s.visible, s.given + [t.id]))
  {
    assert !HasId(s.registry, t.id);
    AddKeepsPanes(s, t);
    AddKeepsDistinct(s.registry, t);
    GivenOnce(s, t.id);
    NewIsGiven(s, t);
  }

  lemma NewIsGiven(s: State, t: Tab)
    requires IdsFresh(s) && DiffsHaveNoFile(s.registry) && (t.kind == Diff ==> t.filePath.None?)
    ensures forall i :: 0 <= i < |s.registry| + 1 ==> (s.registry + [t])[i].id in s.given + [t.id]
    ensures DiffsHaveNoFile(s.registry + [t])
  {
    assert (s.given + [t.id])[|s.given|] == t.id;
  }

  lemma AddKeepsTabs(s: State, kind: TabType, filePath: Option<Path>, isProposal: bool, diffPath: Option<string>,
                     resolve: Resolve)
    requires TabsInv(s) && (kind == Diff ==> filePath.None?)
    ensures TabsInv(AddTab(s, kind, filePath, isProposal, diffPath, resolve))
  {
    NextIdIsNew(s, kind);
    TabAdded(s, Tab(TabId(kind, s.counter + 1), kind, filePath, isProposal, diffPath),
             AddTab(s, kind, filePath, isProposal, diffPath, resolve).fileToTab);
  }

  lemma ShowsAdded(registry: seq<Tab>, t: Tab, path: Path, id: string)
    ensures Shows(registry + [t], path, id) <==> Shows(registry, path, id) || (t.id == id && t.filePath == Some(path))
  {
    var more := registry + [t];
    if Shows(registry, path, id) {
      var i :| 0 <= i < |registry| && registry[i].id == id && registry[i].filePath == Some(path);
      assert more[i] == registry[i];
    }
    assert more[|registry|] == t;
  }

  /** A tab for a file that is not open keeps the file index right exactly when it has no file, or its path
      resolves to itself. */
  lemma AddKeepsIndexIff(s: State, kind: TabType, filePath: Option<Path>, isProposal: bool, diffPath: Option<string>,
                         resolve: Resolve)
    requires TabsInv(s) && IndexIsInverse(s) && (filePath.Some? ==> filePath.value !in s.fileToTab)
    ensures IndexIsInverse(AddTab(s, kind, filePath, isProposal, diffPath, resolve))
            <==> filePath.Some? ==> resolve(filePath.value) == filePath.value
  {
    var s' := AddTab(s, kind, filePath, isProposal, diffPath, resolve);
    var t := Tab(TabId(kind, s.counter + 1), kind, filePath, isProposal, diffPath);
    NextIdIsNew(s, kind);
    forall path, id
      ensures Shows(s'.registry, path, id) <==>
                (path in s.fileToTab && s.fileToTab[path] == id) || (t.id == id && filePath == Some(path))
    {
      ShowsAdded(s.registry, t, path, id);
    }
    if filePath.Some? {
      if resolve(filePath.value) != filePath.value {
        assert Shows(s'.registry, filePath.value, t.id) && filePath.value !in s'.fileToTab;
      } else {
        forall path, id ensures (path in s'.fileToTab && s'.fileToTab[path] == id) <==> Shows(s'.registry, path, id) {}
      }
    }
  }

  // ---- closing a tab ------------------------------------------------------------------------------

  lemma WithoutAt(registry: seq<Tab>, i: nat)
    requires i < |registry|
    ensures |Without(registry, i)| == |registry| - 1
    ensures forall k :: 0 <= k < |registry| - 1 ==> Without(registry, i)[k] == registry[if k < i then k else k + 1]
  {}

  lemma StaysIn(registry: seq<Tab>, i: nat, k: nat)
    requires i < |registry| && k < |registry| && k != i
    ensures Without(registry, i)[if k < i then k else k - 1] == registry[k]
  {}

  lemma IdsWithout(registry: seq<Tab>, i: nat, id: string)
    requires i < |registry| && DistinctIds(registry)
    ensures HasId(Without(registry, i), id) <==> HasId(registry, id) && id != registry[i].id
  {
    WithoutAt(registry, i);
    var rest := Without(registry, i);
    if HasId(rest, id) {
      var k :| 0 <= k < |rest| && rest[k].id == id;
      assert registry[if k < i then k else k + 1].id == id;
    }
    if HasId(registry, id) && id != registry[i].id {
      var k :| 0 <= k < |registry| && registry[k].id == id;
      StaysIn(registry, i, k);
    }
  }

  lemma ShowsWithout(registry: seq<Tab>, i: nat, path: Path, id: string)
    requires i < |registry| && DistinctIds(registry)
    ensures Shows(Without(registry, i), path, id) <==> Shows(registry, path, id) && id != registry[i].id
  {
    WithoutAt(registry, i);
    var rest := Without(registry, i);
    if Shows(rest, path, id) {
      var k :| 0 <= k < |rest| && rest[k].id == id && rest[k].filePath == Some(path);
      assert registry[if k < i then k else k + 1] == rest[k];
    }
    if Shows(registry, path, id) && id != registry[i].id {
      var k :| 0 <= k < |registry| && registry[k].id == id && registry[k].filePath == Some(path);
      StaysIn(registry, i, k);
    }
  }

  /** Closing a tab keeps the file index right exactly when the tab has no file, or its path still resolves
      to itself: a path that a new symbolic link redirects leaves its entry behind. */
  lemma RemoveKeepsIndexIff(s: State, id: string, resolve: Resolve)
    requires TabsInv(s) && IndexIsInverse(s) && Open(s, id)
    ensures var path := s.registry[Index(s.registry, id)].filePath;
            IndexIsInverse(RemoveTab(s, id, resolve)) <==> path.Some? ==> resolve(path.value) == path.value
  {
    var i := Index(s.registry, id);
    var file := s.registry[i].filePath;
    var s' := RemoveTab(s, id, resolve);
    forall path, other
      ensures Shows(s'.registry, path, other) <==> path in s.fileToTab && s.fileToTab[path] == other && other != id
    {
      assert Shows(s.registry, path, other) <==> path in s.fileToTab && s.fileToTab[path] == other;
      ShowsWithout(s.registry, i, path, other);
    }
    if file.Some? {
      assert Shows(s.registry, file.value, id);
      if resolve(file.value) != file.value {
        assert file.value in s'.fileToTab && !Shows(s'.registry, file.value, id);
      } else {
        OnlyFileOf(s, id, i);
      }
    } else {
      OnlyFileOf(s, id, i);
    }
  }

  /** No path but its own leads to a tab. */
  lemma OnlyFileOf(s: State, id: string, i: nat)
    requires TabsInv(s) && IndexIsInverse(s) && i < |s.registry| && s.registry[i].id == id
    ensures forall path :: path in s.fileToTab && s.fileToTab[path] == id ==> s.registry[i].filePath == Some(path)
  {
    forall path | path in s.fileToTab && s.fileToTab[path] == id ensures s.registry[i].filePath == Some(path) {
      assert Shows(s.registry, path, id);
      var k :| 0 <= k < |s.registry| && s.registry[k].id == id && s.registry[k].filePath == Some(path);
    }
  }

  lemma RemoveKeepsTabs(s: State, id: string, resolve: Resolve)
    requires TabsInv(s)
    ensures var s' := RemoveTab(s, id, resolve);
            TabsInv(s') && forall t :: t in s'.registry ==> t in s.registry
  {
    if Open(s, id) {
      RemovePanes(s, id, resolve);
      RemoveRest(s, id, resolve);
    }
  }

  lemma RemoveRest(s: State, id: string, resolve: Resolve)
    requires TabsInv(s) && Open(s, id)
    ensures var s' := RemoveTab(s, id, resolve);
            DistinctIds(s'.registry) && IdsFresh(s') && DiffsHaveNoFile(s'.registry)
            && forall t :: t in s'.registry ==> t in s.registry
  {
    WithoutAt(s.registry, Index(s.registry, id));
  }

  lemma RemovePanes(s: State, id: string, resolve: Resolve)
    requires TabsInv(s) && Open(s, id)
    ensures PanesMatch(RemoveTab(s, id, resolve))
  {
    var i := Index(s.registry, id);
    var s' := RemoveTab(s, id, resolve);
    WithoutAt(s.registry, i);
    forall other ensures other in s'.panes <==> HasId(s'.registry, other) {
      IdsWithout(s.registry, i, other);
    }
    forall k | 0 <= k < |s'.registry|
      ensures s'.registry[k].id in s'.panes && s'.panes[s'.registry[k].id] == s'.registry[k].kind
    {
      assert HasId(s'.registry, s'.registry[k].id);
    }
  }

  /** No tab of these ids has a file. */
  ghost predicate NoFiles(registry: seq<Tab>, ids: seq<string>) {
    forall t :: t in registry && t.id in ids ==> t.filePath.None?
  }

  lemma {:induction false} RemoveAllKeeps(s: State, ids: seq<string>, resolve: Resolve)
    requires TabsInv(s)
    ensures var s' := RemoveAll(s, ids, resolve);
            && TabsInv(s') && (forall t :: t in s'.registry ==> t in s.registry)
            && (IndexIsInverse(s) && NoFiles(s.registry, ids) ==> IndexIsInverse(s'))
  {
    if |ids| > 0 {
      var n := |ids| - 1;
      RemoveAllKeeps(s, ids[..n], resolve);
      var s1 := RemoveAll(s, ids[..n], resolve);
      RemoveKeepsTabs(s1, ids[n], resolve);
      if IndexIsInverse(s) && NoFiles(s.registry, ids) {
        assert NoFiles(s.registry, ids[..n]);
        RemoveFileless(s1, ids[n], resolve, s.registry, ids);
      }
    }
  }

  lemma RemoveFileless(s: State, id: string, resolve: Resolve, all: seq<Tab>, ids: seq<string>)
    requires TabsInv(s) && IndexIsInverse(s) && NoFiles(all, ids) && id in ids
    requires forall t :: t in s.registry ==> t in all
    ensures IndexIsInverse(RemoveTab(s, id, resolve))
  {
    if Open(s, id) {
      assert s.registry[Index(s.registry, id)] in all;
      RemoveKeepsIndexIff(s, id, resolve);
    }
  }

  lemma {:induction false} PlainDiffsAreDiffs(registry: seq<Tab>, id: string)
    requires id in PlainDiffs(registry)
    ensures exists t :: t in registry && t.id == id && t.kind == Diff
  {
    var n := |registry| - 1;
    assert registry[n] in registry;
    if id in PlainDiffs(registry[..n]) { PlainDiffsAreDiffs(registry[..n], id); }
  }

  lemma PlainDiffsHaveNoFile(registry: seq<Tab>)
    requires DistinctIds(registry) && DiffsHaveNoFile(registry)
    ensures NoFiles(registry, PlainDiffs(registry))
  {
    forall t | t in registry && t.id in PlainDiffs(registry) ensures t.filePath.None? {
      PlainDiffsAreDiffs(registry, t.id);
      var u :| u in registry && u.id == t.id && u.kind == Diff;
      var i, j :| 0 <= i < |registry| && registry[i] == t && 0 <= j < |registry| && registry[j] == u;
      assert i == j;
    }
  }

  // ---- runs ---------------------------------------------------------------------------------------

  datatype Op =
    | Opens(path: Path)
    | Shown(diff: string, isProposal: bool)
    | ShowsTerminal
    | AddsTerminal
    | Closes(id: string)
    | ClearsDiffs
    | Decides(diff: string)

  /** An operation, and the file system at that moment. */
  datatype Step = Step(op: Op, resolve: Resolve)

  function Apply(s: State, step: Step): State {
    match step.op
    case Opens(path) => OpenFile(s, path, step.resolve).0
    case Shown(diff, isProposal) => ShowDiff(s, diff, isProposal, step.resolve)
    case ShowsTerminal => ShowTerminal(s, step.resolve)
    case AddsTerminal => NewTerminal(s, step.resolve)
    case Closes(id) => RemoveTab(s, id, step.resolve)
    case ClearsDiffs => ClearDiff(s, step.resolve)
    case Decides(diff) => DiffDecided(s, diff, step.resolve)
  }

  function Run(steps: seq<Step>): State {
    if |steps| == 0 then Empty() else Apply(Run(steps[..|steps| - 1]), steps[|steps| - 1])
  }

  lemma OpenKeepsTabs(s: State, path: Path, resolve: Resolve)
    requires TabsInv(s)
    ensures TabsInv(OpenFile(s, path, resolve).0)
  {
    var shown := s.(visible := true);
    if resolve(path) !in s.fileToTab { AddKeepsTabs(shown, Editor, Some(resolve(path)), false, None, resolve); }
  }

  lemma TerminalKeepsTabs(s: State, resolve: Resolve)
    requires TabsInv(s)
    ensures TabsInv(NewTerminal(s, resolve)) && TabsInv(ShowTerminal(s, resolve))
  {
    AddKeepsTabs(s.(visible := true), Terminal, None, false, None, resolve);
  }

  lemma StepKeepsTabs(s: State, step: Step)
    requires TabsInv(s)
    ensures TabsInv(Apply(s, step))
  {
    var r := step.resolve;
    match step.op {
      case Opens(path) => OpenKeepsTabs(s, path, r);
      case Shown(diff, isProposal) => AddKeepsTabs(s.(visible := true), Diff, None, isProposal, Some(diff), r);
      case ShowsTerminal => TerminalKeepsTabs(s, r);
      case AddsTerminal => TerminalKeepsTabs(s, r);
      case Closes(id) => RemoveKeepsTabs(s, id, r);
      case ClearsDiffs => RemoveAllKeeps(s, PlainDiffs(s.registry), r);
      case Decides(diff) => DecideKeepsTabs(s, diff, r);
    }
  }

  lemma DecideKeepsTabs(s: State, diff: string, resolve: Resolve)
    requires TabsInv(s)
    ensures TabsInv(DiffDecided(s, diff, resolve))
  {
    var i := FirstDiffOf(s.registry, diff);
    if i < |s.registry| { RemoveKeepsTabs(s, s.registry[i].id, resolve); }
  }

  /** Over every run, whatever the file system does: registry and panes have the same keys, the open tabs
      have distinct ids, and no tab id is ever handed out twice. */
  lemma {:induction false} RunKeepsTabs(steps: seq<Step>)
    ensures TabsInv(Run(steps))
  {
    if |steps| > 0 {
      RunKeepsTabs(steps[..|steps| - 1]);
      StepKeepsTabs(Run(steps[..|steps| - 1]), steps[|steps| - 1]);
    }
  }

  // ---- the file index over runs -------------------------------------------------------------------

  /** A path that is opened anew resolves to a path that resolves to itself, and so does the path of the tab
      that is closed by its id; nothing is asked of any other tab or operation. */
  ghost predicate Settled(s: State, step: Step) {
    match step.op
    case Opens(path) =>
      step.resolve(path) in s.fileToTab || step.resolve(step.resolve(path)) == step.resolve(path)
    case Closes(id) =>
      Open(s, id) ==>
        var path := s.registry[Index(s.registry, id)].filePath;
        path.Some? ==> step.resolve(path.value) == path.value
    case _ => true
  }

  lemma OpenKeepsIndexIff(s: State, path: Path, resolve: Resolve)
    requires TabsInv(s) && IndexIsInverse(s)
    ensures IndexIsInverse(OpenFile(s, path, resolve).0)
            <==> resolve(path) in s.fileToTab || resolve(resolve(path)) == resolve(path)
  {
    var shown := s.(visible := true);
    assert TabsInv(shown) && IndexIsInverse(shown);
    if resolve(path) !in s.fileToTab { AddKeepsIndexIff(shown, Editor, Some(resolve(path)), false, None, resolve); }
  }

  lemma AddFilelessKeepsIndex(s: State, kind: TabType, isProposal: bool, diffPath: Option<string>, resolve: Resolve)
    requires TabsInv(s) && IndexIsInverse(s)
    ensures IndexIsInverse(s.(visible := true))
    ensures IndexIsInverse(AddTab(s.(visible := true), kind, None, isProposal, diffPath, resolve))
  {
    var shown := s.(visible := true);
    assert TabsInv(shown) && IndexIsInverse(shown);
    AddKeepsIndexIff(shown, kind, None, isProposal, diffPath, resolve);
  }

  lemma DecideKeepsIndex(s: State, diff: string, resolve: Resolve)
    requires TabsInv(s) && IndexIsInverse(s)
    ensures IndexIsInverse(DiffDecided(s, diff, resolve))
  {
    var i := FirstDiffOf(s.registry, diff);
    if i < |s.registry| {
      assert Index(s.registry, s.registry[i].id) == i;
      RemoveKeepsIndexIff(s, s.registry[i].id, resolve);
    }
  }

  /** Any operation keeps the file index right exactly when the paths it opens or closes are settled. */
  lemma StepKeepsIndexIff(s: State, step: Step)
    requires TabsInv(s) && IndexIsInverse(s)
    ensures IndexIsInverse(Apply(s, step)) <==> Settled(s, step)
  {
    var r := step.resolve;
    match step.op {
      case Opens(path) => OpenKeepsIndexIff(s, path, r);
      case Shown(diff, isProposal) => AddFilelessKeepsIndex(s, Diff, isProposal, Some(diff), r);
      case ShowsTerminal => AddFilelessKeepsIndex(s, Terminal, false, None, r);
      case AddsTerminal => AddFilelessKeepsIndex(s, Terminal, false, None, r);
      case Closes(id) => if Open(s, id) { RemoveKeepsIndexIff(s, id, r); }
      case ClearsDiffs =>
        PlainDiffsHaveNoFile(s.registry);
        RemoveAllKeeps(s, PlainDiffs(s.registry), r);
      case Decides(diff) => DecideKeepsIndex(s, diff, r);
    }
  }

  /** Every step of the run opened and closed settled paths. */
  ghost predicate AllSettled(steps: seq<Step>) {
    forall k :: 0 <= k < |steps| ==> Settled(Run(steps[..k]), steps[k])
  }

  ghost predicate IndexRight(steps: seq<Step>, k: nat)
    requires k <= |steps|
  {
    IndexIsInverse(Run(steps[..k]))
  }

  /** Over every run: the file index is the inverse of the registry's file paths after every step exactly
      when every step opened and closed settled paths. */
  lemma RunKeepsIndexIff(steps: seq<Step>)
    ensures (forall k :: 0 <= k <= |steps| ==> IndexRight(steps, k)) <==> AllSettled(steps)
  {
    assert IndexRight(steps, 0);
    if AllSettled(steps) {
      forall k | 0 <= k <= |steps| ensures IndexRight(steps, k) { IndexUpTo(steps, k); }
    }
    if forall k :: 0 <= k <= |steps| ==> IndexRight(steps, k) {
      forall k | 0 <= k < |steps| ensures Settled(Run(steps[..k]), steps[k]) {
        assert IndexRight(steps, k) && IndexRight(steps, k + 1);
        IndexNext(steps, k, k + 1);
      }
    }
  }

  lemma RunNext(steps: seq<Step>, k: nat)
    requires k < |steps|
    ensures Run(steps[..k + 1]) == Apply(Run(steps[..k]), steps[k])
  {
    assert steps[..k + 1][..k] == steps[..k];
  }

  lemma IndexNext(steps: seq<Step>, k: nat, n: nat)
    requires k < |steps| && n == k + 1 && IndexRight(steps, k)
    ensures IndexRight(steps, n) <==> Settled(Run(steps[..k]), steps[k])
  {
    RunKeepsTabs(steps[..k]);
    StepKeepsIndexIff(Run(steps[..k]), steps[k]);
    RunNext(steps, k);
  }

  lemma {:induction false} IndexUpTo(steps: seq<Step>, n: nat)
    requires n <= |steps| && AllSettled(steps)
    ensures IndexRight(steps, n)
  {
    if n > 0 {
      IndexUpTo(steps, n - 1);
      IndexNext(steps, n - 1, n);
    }
  }

  /** Over every run of settled openings and closings: a file has one tab. Opening a path whose file is open
      already returns that tab and adds none, and no other tab has the file. */
  lemma OneTabPerFile(steps: seq<Step>, path: Path, resolve: Resolve)
    requires AllSettled(steps)
    ensures var s := Run(steps);
            var (s', id) := OpenFile(s, path, resolve);
            && (resolve(path) in s.fileToTab ==> s'.registry == s.registry && Shows(s.registry, resolve(path), id))
            && forall i, j :: 0 <= i < j < |s.registry| && s.registry[i].filePath.Some? ==>
                 s.registry[i].filePath != s.registry[j].filePath
  {
    IndexUpTo(steps, |steps|);
    assert steps[..|steps|] == steps && IndexRight(steps, |steps|);
    RunKeepsTabs(steps);
    OneTabEach(Run(steps));
  }

  lemma OneTabEach(s: State)
    requires TabsInv(s) && IndexIsInverse(s)
    ensures forall i, j :: 0 <= i < j < |s.registry| && s.registry[i].filePath.Some? ==>
              s.registry[i].filePath != s.registry[j].filePath
  {
    forall i, j | 0 <= i < j < |s.registry| && s.registry[i].filePath.Some?
      ensures s.registry[i].filePath != s.registry[j].filePath
    {
      if s.registry[i].filePath == s.registry[j].filePath {
        var p := s.registry[i].filePath.value;
        assert Shows(s.registry, p, s.registry[i].id) && Shows(s.registry, p, s.registry[j].id);
      }
    }
  }

  /** A directory that turns into a symbolic link while a file in it is open: after the tab is closed,
      opening the file returns the closed tab's id, and no tab opens. */
  lemma ClosedTabReturned(resolve: Resolve, moved: Resolve)
    requires resolve("/a/f") == "/a/f" && moved("/a/f") == "/b/f"
    ensures var (s, id) := OpenFile(Empty(), "/a/f", resolve);
            var closed := RemoveTab(s, id, moved);
            var (again, id') := OpenFile(closed, "/a/f", resolve);
            id' == id && again.registry == []
  {
    var (s, id) := OpenFile(Empty(), "/a/f", resolve);
    assert s.registry == [Tab(id, Editor, Some("/a/f"), false, None)];
    assert Index(s.registry, id) == 0;
    assert "/b/f"[1] != "/a/f"[1];
    assert s.fileToTab == map["/a/f" := id];
  }

  // ---- which tabs each operation leaves --------------------------------------------------------------

  /** The tabs that are to stay, in their order. */
  function Keeping(registry: seq<Tab>, keep: Tab -> bool): seq<Tab> {
    if |registry| == 0 then []
    else
      var n := |registry| - 1;
      Keeping(registry[..n], keep) + (if keep(registry[n]) then [registry[n]] else [])
  }

  lemma {:induction false} KeepingAll(registry: seq<Tab>, keep: Tab -> bool)
    requires forall t :: t in registry ==> keep(t)
    ensures Keeping(registry, keep) == registry
  {
    if |registry| > 0 {
      var n := |registry| - 1;
      assert registry == registry[..n] + [registry[n]];
      KeepingAll(registry[..n], keep);
    }
  }

  lemma {:induction false} KeepingConcat(p: seq<Tab>, q: seq<Tab>, keep: Tab -> bool)
    ensures Keeping(p + q, keep) == Keeping(p, keep) + Keeping(q, keep)
  {
    if |q| == 0 {
      assert p + q == p;
    } else {
      var n := |q| - 1;
      KeepingConcat(p, q[..n], keep);
      assert (p + q)[..|p + q| - 1] == p + q[..n];
    }
  }

  lemma {:induction false} KeepingTwice(registry: seq<Tab>, first: Tab -> bool, then_: Tab -> bool, both: Tab -> bool)
    requires forall t :: t in registry ==> (both(t) <==> first(t) && then_(t))
    ensures Keeping(Keeping(registry, first), then_) == Keeping(registry, both)
  {
    if |registry| > 0 {
      var n := |registry| - 1;
      assert registry == registry[..n] + [registry[n]];
      KeepingTwice(registry[..n], first, then_, both);
      KeepingConcat(Keeping(registry[..n], first), if first(registry[n]) then [registry[n]] else [], then_);
      KeepingOne(registry[n], then_);
    }
  }

  lemma KeepingOne(t: Tab, keep: Tab -> bool)
    ensures Keeping([t], keep) == if keep(t) then [t] else []
  {
    assert [t][..0] == [];
  }

  function IdIsNot(id: string): Tab -> bool { (t: Tab) => t.id != id }

  function IdNotIn(ids: seq<string>): Tab -> bool { (t: Tab) => t.id !in ids }

  lemma KeepingBefore(p: seq<Tab>, t: Tab, front: seq<Tab>, keep: Tab -> bool)
    requires front == p + [t] && !keep(t) && forall u :: u in p ==> keep(u)
    ensures Keeping(front, keep) == p
  {
    assert front[..|front| - 1] == p;
    KeepingAll(p, keep);
    AppendNothing(p);
  }

  lemma KeepingAllBut(p: seq<Tab>, t: Tab, q: seq<Tab>, keep: Tab -> bool)
    requires !keep(t) && (forall u :: u in p ==> keep(u)) && (forall u :: u in q ==> keep(u))
    ensures Keeping(p + [t] + q, keep) == p + q
  {
    var front := p + [t];
    KeepingBefore(p, t, front, keep);
    KeepingConcat(front, q, keep);
    KeepingAll(q, keep);
  }

  lemma RemoveIsKeeping(s: State, id: string, resolve: Resolve)
    requires DistinctIds(s.registry)
    ensures RemoveTab(s, id, resolve).registry == Keeping(s.registry, IdIsNot(id))
  {
    var i := Index(s.registry, id);
    if i == |s.registry| {
      KeepingAll(s.registry, IdIsNot(id));
    } else {
      AroundTab(s.registry, i);
      KeepingAllBut(s.registry[..i], s.registry[i], s.registry[i + 1..], IdIsNot(id));
    }
  }

  lemma AroundTab(registry: seq<Tab>, i: nat)
    requires i < |registry| && DistinctIds(registry)
    ensures registry == registry[..i] + [registry[i]] + registry[i + 1..]
    ensures forall t :: t in registry[..i] ==> t.id != registry[i].id
    ensures forall t :: t in registry[i + 1..] ==> t.id != registry[i].id
  {}

  lemma {:induction false} RemoveAllIsKeeping(s: State, ids: seq<string>, resolve: Resolve)
    requires TabsInv(s)
    ensures RemoveAll(s, ids, resolve).registry == Keeping(s.registry, IdNotIn(ids))
  {
    if |ids| == 0 {
      KeepingAll(s.registry, IdNotIn(ids));
    } else {
      var n := |ids| - 1;
      RemoveAllIsKeeping(s, ids[..n], resolve);
      RemoveAllKeeps(s, ids[..n], resolve);
      RemoveOneMore(s.registry, RemoveAll(s, ids[..n], resolve), ids, resolve);
    }
  }

  lemma RemoveOneMore(registry: seq<Tab>, s: State, ids: seq<string>, resolve: Resolve)
    requires |ids| > 0 && DistinctIds(s.registry)
    requires s.registry == Keeping(registry, IdNotIn(ids[..|ids| - 1]))
    ensures RemoveTab(s, ids[|ids| - 1], resolve).registry == Keeping(registry, IdNotIn(ids))
  {
    var n := |ids| - 1;
    LastApart(ids);
    RemoveIsKeeping(s, ids[n], resolve);
    KeepingTwice(registry, IdNotIn(ids[..n]), IdIsNot(ids[n]), IdNotIn(ids));
  }

  /** A diff tab that shows no proposal. */
  predicate PlainDiff(t: Tab) { t.kind == Diff && !t.isProposal }

  predicate NotPlainDiff(t: Tab) { !PlainDiff(t) }

  predicate Any(t: Tab) { true }

  lemma {:induction false} PlainDiffsIff(registry: seq<Tab>, id: string)
    ensures id in PlainDiffs(registry) <==> exists t :: t in registry && t.id == id && PlainDiff(t)
  {
    if |registry| > 0 {
      var n := |registry| - 1;
      assert registry == registry[..n] + [registry[n]];
      PlainDiffsIff(registry[..n], id);
    }
  }

  lemma SameTab(registry: seq<Tab>, t: Tab, u: Tab)
    requires DistinctIds(registry) && t in registry && u in registry && t.id == u.id
    ensures t == u
  {
    var i, j :| 0 <= i < |registry| && registry[i] == t && 0 <= j < |registry| && registry[j] == u;
  }

  lemma ClearIsKeeping(s: State, resolve: Resolve)
    requires TabsInv(s)
    ensures ClearDiff(s, resolve).registry == Keeping(s.registry, NotPlainDiff)
  {
    var ids := PlainDiffs(s.registry);
    RemoveAllIsKeeping(s, ids, resolve);
    forall t | t in s.registry ensures t.id !in ids <==> NotPlainDiff(t) {
      PlainDiffsIff(s.registry, t.id);
      if t.id in ids {
        var u :| u in s.registry && u.id == t.id && PlainDiff(u);
        SameTab(s.registry, t, u);
      }
    }
    KeepingAll(s.registry, Any);
    KeepingTwice(s.registry, Any, IdNotIn(ids), NotPlainDiff);
  }

  /** Exactly the first tab of `registry` that satisfies `which`, if any, is not in `left`. */
  ghost predicate FirstGone(registry: seq<Tab>, left: seq<Tab>, which: Tab -> bool) {
    || (left == registry && forall t :: t in registry ==> !which(t))
    || exists i :: 0 <= i < |registry| && which(registry[i]) && left == registry[..i] + registry[i + 1..]
                   && forall k :: 0 <= k < i ==> !which(registry[k])
  }

  function ShowsDiff(path: string): Tab -> bool { (t: Tab) => t.kind == Diff && t.diffPath == Some(path) }

  lemma DecideTakesFirst(s: State, diff: string, resolve: Resolve)
    requires DistinctIds(s.registry)
    ensures FirstGone(s.registry, DiffDecided(s, diff, resolve).registry, ShowsDiff(diff))
  {
    var i := FirstDiffOf(s.registry, diff);
    if i < |s.registry| {
      assert Index(s.registry, s.registry[i].id) == i;
      assert DiffDecided(s, diff, resolve).registry == s.registry[..i] + s.registry[i + 1..];
    }
  }

  /** What an operation makes of the open tabs: a new one is the last, with its id by counting, and only the
      tabs that are meant go. */
  ghost predicate Leaves(s: State, registry: seq<Tab>, step: Step) {
    match step.op
    case Opens(path) =>
      registry == s.registry + if step.resolve(path) in s.fileToTab then []
                               else [Tab("ws-editor-" + Dec(s.counter + 1), Editor, Some(step.resolve(path)), false, None)]
    case Shown(diff, isProposal) =>
      registry == s.registry + [Tab("ws-diff-" + Dec(s.counter + 1), Diff, None, isProposal, Some(diff))]
    case AddsTerminal => registry == s.registry + [Tab("ws-terminal-" + Dec(s.counter + 1), Terminal, None, false, None)]
    case ShowsTerminal =>
      registry == s.registry + if exists t :: t in s.registry && t.kind == Terminal then []
                               else [Tab("ws-terminal-" + Dec(s.counter + 1), Terminal, None, false, None)]
    case Closes(id) => registry == Keeping(s.registry, IdIsNot(id))
    case ClearsDiffs => registry == Keeping(s.registry, NotPlainDiff)
    case Decides(diff) => FirstGone(s.registry, registry, ShowsDiff(diff))
  }

  lemma IdTexts(n: nat)
    ensures TabId(Editor, n) == "ws-editor-" + Dec(n)
    ensures TabId(Terminal, n) == "ws-terminal-" + Dec(n)
    ensures TabId(Diff, n) == "ws-diff-" + Dec(n)
  {
    assert "ws-" + "editor" + ['-'] == "ws-editor-";
    assert "ws-" + "terminal" + ['-'] == "ws-terminal-";
    assert "ws-" + "diff" + ['-'] == "ws-diff-";
  }

  /** After every run: what the next operation makes of the open tabs. */
  lemma StepLeaves(steps: seq<Step>, step: Step)
    ensures Leaves(Run(steps), Run(steps + [step]).registry, step)
  {
    var s := Run(steps);
    RunKeepsTabs(steps);
    assert (steps + [step])[..|steps|] == steps;
    match step.op {
      case Closes(id) => RemoveIsKeeping(s, id, step.resolve);
      case ClearsDiffs => ClearIsKeeping(s, step.resolve);
      case Decides(diff) => DecideTakesFirst(s, diff, step.resolve);
      case _ => NewTabLeaves(s, step);
    }
  }

  lemma NewTabLeaves(s: State, step: Step)
    requires !step.op.Closes? && !step.op.ClearsDiffs? && !step.op.Decides?
    ensures Leaves(s, Apply(s, step).registry, step)
  {
    IdTexts(s.counter + 1);
    AppendNothing(s.registry);
    match step.op {
      case Opens(_) =>
      case Shown(_, _) =>
      case AddsTerminal =>
      case ShowsTerminal => SomeTerminal(s.registry);
    }
  }

  lemma SomeTerminal(registry: seq<Tab>)
    ensures FirstTerminal(registry) < |registry| <==> exists t :: t in registry && t.kind == Terminal
  {
    if FirstTerminal(registry) < |registry| { assert registry[FirstTerminal(registry)] in registry; }
  }

  // ---- when the panel is shown -----------------------------------------------------------------------

  predicate ShownWithTabs(s: State) { |s.registry| > 0 ==> s.visible }

  predicate HiddenWithout(s: State) { s.visible ==> |s.registry| > 0 }

  lemma RemoveShown(s: State, id: string, resolve: Resolve)
    ensures var s' := RemoveTab(s, id, resolve);
            (ShownWithTabs(s) ==> ShownWithTabs(s')) && (HiddenWithout(s) ==> HiddenWithout(s'))
  {}

  lemma {:induction false} RemoveAllShown(s: State, ids: seq<string>, resolve: Resolve)
    ensures var s' := RemoveAll(s, ids, resolve);
            (ShownWithTabs(s) ==> ShownWithTabs(s')) && (HiddenWithout(s) ==> HiddenWithout(s'))
  {
    if |ids| > 0 {
      RemoveAllShown(s, ids[..|ids| - 1], resolve);
      RemoveShown(RemoveAll(s, ids[..|ids| - 1], resolve), ids[|ids| - 1], resolve);
    }
  }

  lemma StepShown(s: State, step: Step)
    ensures ShownWithTabs(s) ==> ShownWithTabs(Apply(s, step))
    ensures HiddenWithout(s) && (step.op.Opens? ==> IndexIsInverse(s)) ==> HiddenWithout(Apply(s, step))
  {
    var r := step.resolve;
    match step.op {
      case Opens(path) =>
        if IndexIsInverse(s) && r(path) in s.fileToTab { assert Shows(s.registry, r(path), s.fileToTab[r(path)]); }
      case Shown(_, _) =>
      case ShowsTerminal =>
      case AddsTerminal =>
      case Closes(id) => RemoveShown(s, id, r);
      case ClearsDiffs => RemoveAllShown(s, PlainDiffs(s.registry), r);
      case Decides(diff) =>
        var i := FirstDiffOf(s.registry, diff);
        if i < |s.registry| { RemoveShown(s, s.registry[i].id, r); }
    }
  }

  lemma {:induction false} AlwaysShown(steps: seq<Step>)
    ensures ShownWithTabs(Run(steps))
  {
    if |steps| > 0 {
      AlwaysShown(steps[..|steps| - 1]);
      StepShown(Run(steps[..|steps| - 1]), steps[|steps| - 1]);
    }
  }

  lemma {:induction false} HiddenUpTo(steps: seq<Step>, n: nat)
    requires n <= |steps| && AllSettled(steps)
    ensures HiddenWithout(Run(steps[..n]))
  {
    if n == 0 {
      assert steps[..0] == [];
    } else {
      HiddenUpTo(steps, n - 1);
      HiddenNext(steps, n - 1);
    }
  }

  lemma HiddenNext(steps: seq<Step>, k: nat)
    requires k < |steps| && AllSettled(steps) && HiddenWithout(Run(steps[..k]))
    ensures HiddenWithout(Run(steps[..k + 1]))
  {
    IndexUpTo(steps, k);
    assert IndexIsInverse(Run(steps[..k]));
    RunNext(steps, k);
    HiddenAfter(Run(steps[..k]), steps[k]);
  }

  lemma HiddenAfter(s: State, step: Step)
    requires HiddenWithout(s) && IndexIsInverse(s)
    ensures HiddenWithout(Apply(s, step))
  {
    StepShown(s, step);
  }

  /** Over every run: the panel is shown while it has tabs; and if every opening and closing was settled, it is
      shown exactly while it has some. */
  lemma ShownIffTabs(steps: seq<Step>)
    ensures |Run(steps).registry| > 0 ==> Run(steps).visible
    ensures AllSettled(steps) ==> (Run(steps).visible <==> |Run(steps).registry| > 0)
  {
    AlwaysShown(steps);
    if AllSettled(steps) {
      HiddenUpTo(steps, |steps|);
      assert steps[..|steps|] == steps;
    }
  }
}
