/** Decoding the output of `git status --porcelain -z`, `get_status` of
    `legacy/clide/services/git_service.py`, and where it mistakes the old path of a rename for an entry. */
module GitStatus {
  import opened Common
  import opened Text

  datatype Status = Added | Modified | Deleted | Renamed | Copied | Untracked | Ignored | Unmerged

  datatype Change = Change(path: string, status: Status, staged: bool)

  datatype Lists = Lists(staged: seq<Change>, unstaged: seq<Change>, untracked: seq<string>)

  function ParseStatus(c: char): Status {
    match c
    case 'A' => Added
    case 'M' => Modified
    case 'D' => Deleted
    case 'R' => Renamed
    case 'C' => Copied
    case '?' => Untracked
    case '!' => Ignored
    case 'U' => Unmerged
    case _ => Modified
  }

  // ---- decoding -----------------------------------------------------------------------------------

  function Step(l: Lists, entry: string): Lists {
    if |entry| < 3 then l
    else if entry[0] == '?' then
      Lists(l.staged, l.unstaged + [Change(entry[3..], Untracked, false)], l.untracked + [entry[3..]])
    else
      Lists(if entry[0] != ' ' then l.staged + [Change(entry[3..], ParseStatus(entry[0]), true)] else l.staged,
            if entry[1] != ' ' then l.unstaged + [Change(entry[3..], ParseStatus(entry[1]), false)] else l.unstaged,
            l.untracked)
  }

  function Steps(entries: seq<string>): Lists {
    if |entries| == 0 then Lists([], [], []) else Step(Steps(entries[..|entries| - 1]), entries[|entries| - 1])
  }

  function Decode(stdout: string): Lists { Steps(Split(stdout, '\0')) }

  method GetStatus(stdout: string) returns (staged: seq<Change>, unstaged: seq<Change>, untracked: seq<string>)
    ensures Lists(staged, unstaged, untracked) == Decode(stdout)
  {
    staged, unstaged, untracked := [], [], [];
    var entries := Split(stdout, '\0');
    for i := 0 to |entries|
      invariant Lists(staged, unstaged, untracked) == Steps(entries[..i])
    {
      assert entries[..i + 1][..i] == entries[..i];
      var entry := entries[i];
      if |entry| < 3 { continue; }
      var path := entry[3..];
      if entry[0] == '?' {
        untracked := untracked + [path];
        unstaged := unstaged + [Change(path, Untracked, false)];
      } else {
        if entry[0] != ' ' { staged := staged + [Change(path, ParseStatus(entry[0]), true)]; }
        if entry[1] != ' ' { unstaged := unstaged + [Change(path, ParseStatus(entry[1]), false)]; }
      }
    }
    assert entries[..|entries|] == entries;
  }

  // ---- what git prints and means ------------------------------------------------------------------

  /** One entry: the state of the index and of the work tree, the path, and for a rename or a copy the
      path it came from. */
  datatype Entry = Entry(index: char, tree: char, path: string, from: Option<string>)

  function PrintEntry(e: Entry): string { [e.index, e.tree, ' '] + e.path }

  function Pieces(es: seq<Entry>): seq<string> {
    if |es| == 0 then []
    else
      var e := es[|es| - 1];
      Pieces(es[..|es| - 1]) + ([PrintEntry(e)] + (if e.from.Some? then [e.from.value] else []))
  }

  /** Every entry, and the old path after it if it has one, is ended by a NUL. */
  function Print(es: seq<Entry>): string { Join(Pieces(es) + [""], '\0') }

  predicate FromGit(e: Entry) {
    && e.index != '\0' && e.tree != '\0' && '\0' !in e.path
    && (e.from.Some? ==> '\0' !in e.from.value)
  }

  /** The entries whose index differs from HEAD. */
  function StagedIn(es: seq<Entry>): seq<Change> {
    if |es| == 0 then []
    else
      var e := es[|es| - 1];
      StagedIn(es[..|es| - 1])
      + (if e.index != ' ' && e.index != '?' then [Change(e.path, ParseStatus(e.index), true)] else [])
  }

  /** The entries whose work tree differs from the index, untracked ones included. */
  function UnstagedIn(es: seq<Entry>): seq<Change> {
    if |es| == 0 then []
    else
      var e := es[|es| - 1];
      UnstagedIn(es[..|es| - 1])
      + (if e.index == '?' then [Change(e.path, Untracked, false)]
         else if e.tree != ' ' then [Change(e.path, ParseStatus(e.tree), false)]
         else [])
  }

  function UntrackedIn(es: seq<Entry>): seq<string> {
    if |es| == 0 then []
    else UntrackedIn(es[..|es| - 1]) + (if es[|es| - 1].index == '?' then [es[|es| - 1].path] else [])
  }

  function Meaning(es: seq<Entry>): Lists { Lists(StagedIn(es), UnstagedIn(es), UntrackedIn(es)) }

  /** An old path that the decoder passes over: too short for an entry, or two blanks in front. */
  predicate PassedOver(path: string) { |path| < 3 || (path[0] == ' ' && path[1] == ' ') }

  predicate Harmless(es: seq<Entry>) {
    forall i :: 0 <= i < |es| && es[i].from.Some? ==> PassedOver(es[i].from.value)
  }

  // ---- when the decoder is right ------------------------------------------------------------------

  function Size(l: Lists): nat { |l.staged| + |l.unstaged| + |l.untracked| }

  lemma OldPathStep(l: Lists, path: string)
    ensures PassedOver(path) ==> Step(l, path) == l
    ensures !PassedOver(path) ==> Size(Step(l, path)) > Size(l)
  {}

  lemma EntryStep(es: seq<Entry>)
    requires |es| > 0
    ensures Step(Meaning(es[..|es| - 1]), PrintEntry(es[|es| - 1])) == Meaning(es)
  {
    var e, l := es[|es| - 1], Meaning(es[..|es| - 1]);
    var entry := PrintEntry(e);
    assert entry[0] == e.index && entry[1] == e.tree && entry[3..] == e.path;
    assert l.staged + [] == l.staged && l.unstaged + [] == l.unstaged && l.untracked + [] == l.untracked;
  }

  lemma StepsSnoc(entries: seq<string>, entry: string)
    ensures Steps(entries + [entry]) == Step(Steps(entries), entry)
  {
    assert (entries + [entry])[..|entries|] == entries;
  }

  lemma StepGrows(l: Lists, m: Lists, entry: string)
    requires Size(l) > Size(m)
    ensures Size(Step(l, entry)) > Size(Step(m, entry))
  {}

  lemma {:induction false} StepsMean(es: seq<Entry>)
    ensures Harmless(es) ==> Steps(Pieces(es)) == Meaning(es)
    ensures !Harmless(es) ==> Size(Steps(Pieces(es))) > Size(Meaning(es))
  {
    if |es| > 0 {
      var n := |es| - 1;
      var e := es[n];
      StepsMean(es[..n]);
      assert Harmless(es) <==> Harmless(es[..n]) && (e.from.Some? ==> PassedOver(e.from.value)) by {
        assert es == es[..n] + [e];
      }
      EntryStep(es);
      StepsSnoc(Pieces(es[..n]), PrintEntry(e));
      var l := Steps(Pieces(es[..n]) + [PrintEntry(e)]);
      if !Harmless(es[..n]) { StepGrows(Steps(Pieces(es[..n])), Meaning(es[..n]), PrintEntry(e)); }
      if e.from.Some? {
        StepsSnoc(Pieces(es[..n]) + [PrintEntry(e)], e.from.value);
        OldPathStep(l, e.from.value);
        assert Pieces(es) == Pieces(es[..n]) + [PrintEntry(e)] + [e.from.value];
      } else {
        assert Pieces(es) == Pieces(es[..n]) + [PrintEntry(e)];
      }
    }
  }

  lemma {:induction false} PiecesFit(es: seq<Entry>)
    requires forall e :: e in es ==> FromGit(e)
    ensures forall i :: 0 <= i < |Pieces(es)| ==> '\0' !in Pieces(es)[i]
  {
    if |es| > 0 {
      PiecesFit(es[..|es| - 1]);
      assert es[|es| - 1] in es;
    }
  }

  /** Decoding undoes printing, entry by entry and in order, exactly when every rename's old path is
      passed over; any other old path is shown as a change of a file that is none. */
  lemma DecodeUndoesPrintIff(es: seq<Entry>)
    requires forall e :: e in es ==> FromGit(e)
    ensures Decode(Print(es)) == Meaning(es) <==> Harmless(es)
  {
    PiecesFit(es);
    SplitJoin(Pieces(es) + [""], '\0');
    StepsSnoc(Pieces(es), "");
    StepsMean(es);
  }

  /** What each letter of git means, in the index and in the work tree. */
  lemma LettersRead(path: string, c: char)
    requires '\0' !in path && c in "AMDRCU!T"
    ensures var table := map['A' := Added, 'M' := Modified, 'D' := Deleted, 'R' := Renamed, 'C' := Copied,
                             'U' := Unmerged, '!' := Ignored, 'T' := Modified];
            && Decode(Print([Entry(c, ' ', path, None)])) == Lists([Change(path, table[c], true)], [], [])
            && Decode(Print([Entry(' ', c, path, None)])) == Lists([], [Change(path, table[c], false)], [])
    ensures Decode(Print([Entry('?', '?', path, None)])) == Lists([], [Change(path, Untracked, false)], [path])
  {
    LetterOf(c);
    OneEntry(Entry(c, ' ', path, None));
    OneEntry(Entry(' ', c, path, None));
    OneEntry(Entry('?', '?', path, None));
  }

  lemma LetterOf(c: char)
    requires c in "AMDRCU!T"
    ensures c !in " ?\0"
    ensures ParseStatus(c) == map['A' := Added, 'M' := Modified, 'D' := Deleted, 'R' := Renamed, 'C' := Copied,
                                  'U' := Unmerged, '!' := Ignored, 'T' := Modified][c]
  {}

  lemma OneEntry(e: Entry)
    requires FromGit(e) && e.from.None?
    ensures Decode(Print([e])) == Meaning([e])
    ensures StagedIn([e]) == (if e.index != ' ' && e.index != '?' then [Change(e.path, ParseStatus(e.index), true)] else [])
    ensures UnstagedIn([e]) == (if e.index == '?' then [Change(e.path, Untracked, false)]
                                else if e.tree != ' ' then [Change(e.path, ParseStatus(e.tree), false)]
                                else [])
    ensures UntrackedIn([e]) == (if e.index == '?' then [e.path] else [])
  {
    assert [e][..0] == [];
    DecodeUndoesPrintIff([e]);
  }

  /** Staging the rename of `src/a.py` also shows a staged and an unstaged change of `/a.py`. */
  lemma RenameShowsOldPath()
    ensures var e := Entry('R', ' ', "b.py", Some("src/a.py"));
            && Meaning([e]) == Lists([Change("b.py", Renamed, true)], [], [])
            && Decode(Print([e])) == Lists([Change("b.py", Renamed, true), Change("/a.py", Modified, true)],
                                           [Change("/a.py", Modified, false)], [])
  {
    var e := Entry('R', ' ', "b.py", Some("src/a.py"));
    assert [e][..0] == [];
    assert Pieces([e]) == [PrintEntry(e), "src/a.py"];
    PiecesFit([e]);
    SplitJoin(Pieces([e]) + [""], '\0');
    RenamePieces(e, PrintEntry(e), "src/a.py");
  }

  lemma RenamePieces(e: Entry, entry: string, path: string)
    requires e == Entry('R', ' ', "b.py", Some("src/a.py")) && entry == PrintEntry(e) && path == "src/a.py"
    ensures Steps([entry, path] + [""])
            == Lists([Change("b.py", Renamed, true), Change("/a.py", Modified, true)], [Change("/a.py", Modified, false)], [])
  {
    assert entry[0] == 'R' && entry[1] == ' ' && entry[3..] == "b.py";
    assert path[0] == 's' && path[1] == 'r' && path[3..] == "/a.py";
    assert [entry, path] == ([] + [entry]) + [path];
    StepsSnoc([], entry);
    StepsSnoc([entry], path);
    StepsSnoc([entry, path], "");
  }
}
