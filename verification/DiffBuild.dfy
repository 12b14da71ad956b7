/** Building a diff from two texts, `_create_diff_from_content` of `legacy/clide/controllers/diff.py`.
    `SequenceMatcher` is taken at its contract: its opcodes partition both line lists, in order. */
module DiffBuild {
  import opened Common
  import opened Text
  import opened DiffParse

  // ---- lines and opcodes --------------------------------------------------------------------------

  /** The line boundaries of `str.splitlines`, `\r\n` counting as one. */
  predicate Breaks(c: char) {
    || c == '\n' || c == '\r' || c == '\U{000B}' || c == '\U{000C}' || '\U{001C}' <= c <= '\U{001E}'
    || c == '\U{0085}' || c == '\U{2028}' || c == '\U{2029}'
  }

  /** The same by code point. */
  lemma BreakCodes(c: char)
    ensures Breaks(c) <==> c as int in {10, 11, 12, 13, 28, 29, 30, 0x85, 0x2028, 0x2029}
  {}

  /** Length of the first line, its boundary included. */
  function FirstLine(s: string): (n: nat)
    requires |s| > 0
    ensures 0 < n <= |s|
  {
    if s[0] == '\r' && |s| > 1 && s[1] == '\n' then 2
    else if Breaks(s[0]) || |s| == 1 then 1
    else 1 + FirstLine(s[1..])
  }

  /** `splitlines(keepends=True)`. */
  function SplitLines(s: string): seq<string>
    decreases |s|
  {
    if |s| == 0 then [] else [s[..FirstLine(s)]] + SplitLines(s[FirstLine(s)..])
  }

  /** `rstrip("\n")`. */
  function Chomp(s: string): string {
    if |s| > 0 && s[|s| - 1] == '\n' then Chomp(s[..|s| - 1]) else s
  }

  function ChompAll(lines: seq<string>): seq<string> {
    seq(|lines|, i requires 0 <= i < |lines| => Chomp(lines[i]))
  }

  datatype Tag = Equal | Delete | Insert | Replace

  datatype Op = Op(tag: Tag, i1: nat, i2: nat, j1: nat, j2: nat)

  /** The contract of `get_opcodes`: consecutive blocks from (0, 0) to (i, j), equal ones matching. */
  ghost predicate Covers(ops: seq<Op>, a: seq<string>, b: seq<string>, i: nat, j: nat) {
    if |ops| == 0 then i == 0 && j == 0
    else
      var op := ops[|ops| - 1];
      && op.i1 <= op.i2 == i <= |a| && op.j1 <= op.j2 == j <= |b|
      && (op.tag == Equal ==> a[op.i1..op.i2] == b[op.j1..op.j2])
      && (op.tag == Delete ==> op.j1 == op.j2)
      && (op.tag == Insert ==> op.i1 == op.i2)
      && Covers(ops[..|ops| - 1], a, b, op.i1, op.j1)
  }

  ghost predicate Opcodes(ops: seq<Op>, a: seq<string>, b: seq<string>) {
    Covers(ops, a, b, |a|, |b|)
  }

  // ---- building -----------------------------------------------------------------------------------

  /** The lines built so far, and the next number on each side. */
  datatype Builder = Builder(lines: seq<DiffLine>, oldNum: int, newNum: int)

  function Add(s: Builder, change: Change, line: string): Builder {
    match change
    case Context =>
      Builder(s.lines + [DiffLine(Context, Chomp(line), Some(s.oldNum), Some(s.newNum))], s.oldNum + 1, s.newNum + 1)
    case Removed => Builder(s.lines + [DiffLine(Removed, Chomp(line), Some(s.oldNum), None)], s.oldNum + 1, s.newNum)
    case Added => Builder(s.lines + [DiffLine(Added, Chomp(line), None, Some(s.newNum))], s.oldNum, s.newNum + 1)
  }

  function AddAll(s: Builder, change: Change, lines: seq<string>): Builder {
    if |lines| == 0 then s
    else Add(AddAll(s, change, lines[..|lines| - 1]), change, lines[|lines| - 1])
  }

  predicate InRange(op: Op, a: seq<string>, b: seq<string>) {
    op.i1 <= op.i2 <= |a| && op.j1 <= op.j2 <= |b|
  }

  function AddOp(s: Builder, op: Op, a: seq<string>, b: seq<string>): Builder
    requires InRange(op, a, b)
  {
    match op.tag
    case Equal => AddAll(s, Context, a[op.i1..op.i2])
    case Delete => AddAll(s, Removed, a[op.i1..op.i2])
    case Insert => AddAll(s, Added, b[op.j1..op.j2])
    case Replace => AddAll(AddAll(s, Removed, a[op.i1..op.i2]), Added, b[op.j1..op.j2])
  }

  function AddOps(s: Builder, ops: seq<Op>, a: seq<string>, b: seq<string>): Builder
    requires forall k :: 0 <= k < |ops| ==> InRange(ops[k], a, b)
  {
    if |ops| == 0 then s else AddOp(AddOps(s, ops[..|ops| - 1], a, b), ops[|ops| - 1], a, b)
  }

  const HEADER := "@@ -1 +1 @@"

  function CreateDiff(a: seq<string>, b: seq<string>, ops: seq<Op>): Hunk
    requires forall k :: 0 <= k < |ops| ==> InRange(ops[k], a, b)
  {
    Hunk(HEADER, Nums(1, |a|, 1, |b|), AddOps(Builder([], 1, 1), ops, a, b).lines)
  }

  lemma {:induction false} CoversInRange(ops: seq<Op>, a: seq<string>, b: seq<string>, i: nat, j: nat)
    requires Covers(ops, a, b, i, j)
    ensures forall k :: 0 <= k < |ops| ==> InRange(ops[k], a, b)
  {
    if |ops| > 0 {
      var op := ops[|ops| - 1];
      CoversInRange(ops[..|ops| - 1], a, b, op.i1, op.j1);
    }
  }

  /** One of the line loops. */
  method AddLoop(lines: seq<DiffLine>, oldNum: int, newNum: int, change: Change, block: seq<string>)
    returns (lines': seq<DiffLine>, oldNum': int, newNum': int)
    ensures Builder(lines', oldNum', newNum') == AddAll(Builder(lines, oldNum, newNum), change, block)
  {
    lines', oldNum', newNum' := lines, oldNum, newNum;
    for k := 0 to |block|
      invariant Builder(lines', oldNum', newNum') == AddAll(Builder(lines, oldNum, newNum), change, block[..k])
    {
      assert block[..k + 1][..k] == block[..k];
      var text := Chomp(block[k]);
      match change {
        case Context => lines' := lines' + [DiffLine(Context, text, Some(oldNum'), Some(newNum'))];
        case Removed => lines' := lines' + [DiffLine(Removed, text, Some(oldNum'), None)];
        case Added => lines' := lines' + [DiffLine(Added, text, None, Some(newNum'))];
      }
      if change != Added { oldNum' := oldNum' + 1; }
      if change != Removed { newNum' := newNum' + 1; }
    }
    assert block[..|block|] == block;
  }

  method CreateDiffFromContent(before: string, after: string, ops: seq<Op>) returns (hunk: Hunk)
    requires Opcodes(ops, SplitLines(before), SplitLines(after))
    ensures forall k :: 0 <= k < |ops| ==> InRange(ops[k], SplitLines(before), SplitLines(after))
    ensures hunk == CreateDiff(SplitLines(before), SplitLines(after), ops)
  {
    var a, b := SplitLines(before), SplitLines(after);
    CoversInRange(ops, a, b, |a|, |b|);
    var lines: seq<DiffLine> := [];
    var oldNum, newNum := 1, 1;
    for k := 0 to |ops|
      invariant Builder(lines, oldNum, newNum) == AddOps(Builder([], 1, 1), ops[..k], a, b)
    {
      assert ops[..k + 1][..k] == ops[..k];
      var op := ops[k];
      assert InRange(op, a, b);
      match op.tag {
        case Equal => lines, oldNum, newNum := AddLoop(lines, oldNum, newNum, Context, a[op.i1..op.i2]);
        case Delete => lines, oldNum, newNum := AddLoop(lines, oldNum, newNum, Removed, a[op.i1..op.i2]);
        case Insert => lines, oldNum, newNum := AddLoop(lines, oldNum, newNum, Added, b[op.j1..op.j2]);
        case Replace =>
          lines, oldNum, newNum := AddLoop(lines, oldNum, newNum, Removed, a[op.i1..op.i2]);
          lines, oldNum, newNum := AddLoop(lines, oldNum, newNum, Added, b[op.j1..op.j2]);
      }
    }
    assert ops[..|ops|] == ops;
    hunk := Hunk(HEADER, Nums(1, |a|, 1, |b|), lines);
  }

  // ---- what a diff says ---------------------------------------------------------------------------

  function Contents(lines: seq<DiffLine>): seq<string> {
    seq(|lines|, k requires 0 <= k < |lines| => lines[k].content)
  }

  /** Applying a diff to a list of lines: context and removed lines must be there, context and added lines
      come out. */
  function Patch(lines: seq<DiffLine>, text: seq<string>): Option<seq<string>> {
    if |lines| == 0 then (if |text| == 0 then Some([]) else None)
    else
      var l := lines[|lines| - 1];
      var n := |text| - 1;
      if OnOldSide(l) && (|text| == 0 || text[n] != l.content) then None
      else
        var rest := Patch(lines[..|lines| - 1], if OnOldSide(l) then text[..n] else text);
        if rest.None? then None else Some(rest.value + (if OnNewSide(l) then [l.content] else []))
  }

  /** The same with the sides exchanged. */
  function Reversed(lines: seq<DiffLine>): seq<DiffLine> {
    seq(|lines|, k requires 0 <= k < |lines| =>
      var l := lines[k];
      match l.change
      case Added => DiffLine(Removed, l.content, l.newNum, l.oldNum)
      case Removed => DiffLine(Added, l.content, l.newNum, l.oldNum)
      case Context => DiffLine(Context, l.content, l.newNum, l.oldNum))
  }

  /** The builder has taken the lines `a` of the old text and `b` of the new one. */
  ghost predicate Built(s: Builder, a: seq<string>, b: seq<string>) {
    && Contents(OldSide(s.lines)) == ChompAll(a) && Contents(NewSide(s.lines)) == ChompAll(b)
    && s.oldNum == 1 + |a| && s.newNum == 1 + |b|
    && RunsOn(s.lines, Nums(1, 0, 1, 0))
  }

  lemma AddBuilds(s: Builder, change: Change, line: string, a: seq<string>, b: seq<string>)
    requires Built(s, a, b)
    ensures Built(Add(s, change, line), if change == Added then a else a + [line], if change == Removed then b else b + [line])
  {
    AddNumbers(s, change, line, a, b);
    AppendRunsOn(s.lines, Nums(1, 0, 1, 0), change, Chomp(line));
    SidesSnoc(s.lines, Numbered(Nums(1, 0, 1, 0), s.lines, change, Chomp(line)));
    ChompSnoc(a, line);
    ChompSnoc(b, line);
  }

  /** The counters of the builder number a line as counting would. */
  lemma AddNumbers(s: Builder, change: Change, line: string, a: seq<string>, b: seq<string>)
    requires Built(s, a, b)
    ensures Add(s, change, line).lines == s.lines + [Numbered(Nums(1, 0, 1, 0), s.lines, change, Chomp(line))]
  {
    assert |OldSide(s.lines)| == |Contents(OldSide(s.lines))| == |a|;
    assert |NewSide(s.lines)| == |Contents(NewSide(s.lines))| == |b|;
  }

  lemma ChompSnoc(a: seq<string>, line: string)
    ensures ChompAll(a + [line]) == ChompAll(a) + [Chomp(line)]
  {}

  lemma SidesSnoc(lines: seq<DiffLine>, l: DiffLine)
    ensures Contents(OldSide(lines + [l])) == Contents(OldSide(lines)) + (if OnOldSide(l) then [l.content] else [])
    ensures Contents(NewSide(lines + [l])) == Contents(NewSide(lines)) + (if OnNewSide(l) then [l.content] else [])
  {
    assert (lines + [l])[..|lines|] == lines;
  }

  lemma {:induction false} AddAllBuilds(s: Builder, change: Change, block: seq<string>, a: seq<string>, b: seq<string>)
    requires Built(s, a, b)
    ensures Built(AddAll(s, change, block), if change == Added then a else a + block, if change == Removed then b else b + block)
  {
    if |block| == 0 {
      AppendNothing(a);
      AppendNothing(b);
    } else {
      var n := |block| - 1;
      AddAllBuilds(s, change, block[..n], a, b);
      var a', b' := if change == Added then a else a + block[..n], if change == Removed then b else b + block[..n];
      AddBuilds(AddAll(s, change, block[..n]), change, block[n], a', b');
      LastOfBlock(a, block);
      LastOfBlock(b, block);
    }
  }

  lemma LastOfBlock(a: seq<string>, block: seq<string>)
    requires |block| > 0
    ensures a + block == (a + block[..|block| - 1]) + [block[|block| - 1]]
  {}

  lemma AddOpBuilds(s: Builder, op: Op, a: seq<string>, b: seq<string>)
    requires InRange(op, a, b) && Built(s, a[..op.i1], b[..op.j1])
    requires op.tag == Equal ==> a[op.i1..op.i2] == b[op.j1..op.j2]
    requires op.tag == Delete ==> op.j1 == op.j2
    requires op.tag == Insert ==> op.i1 == op.i2
    ensures Built(AddOp(s, op, a, b), a[..op.i2], b[..op.j2])
  {
    var gone, come := a[op.i1..op.i2], b[op.j1..op.j2];
    assert a[..op.i1] + gone == a[..op.i2] && b[..op.j1] + come == b[..op.j2];
    match op.tag {
      case Equal => AddAllBuilds(s, Context, gone, a[..op.i1], b[..op.j1]);
      case Delete => AddAllBuilds(s, Removed, gone, a[..op.i1], b[..op.j1]);
      case Insert => AddAllBuilds(s, Added, come, a[..op.i1], b[..op.j1]);
      case Replace =>
        AddAllBuilds(s, Removed, gone, a[..op.i1], b[..op.j1]);
        AddAllBuilds(AddAll(s, Removed, gone), Added, come, a[..op.i2], b[..op.j1]);
    }
  }

  lemma {:induction false} AddOpsBuilds(ops: seq<Op>, a: seq<string>, b: seq<string>, i: nat, j: nat)
    requires Covers(ops, a, b, i, j)
    requires forall k :: 0 <= k < |ops| ==> InRange(ops[k], a, b)
    ensures i <= |a| && j <= |b| && Built(AddOps(Builder([], 1, 1), ops, a, b), a[..i], b[..j])
  {
    if |ops| == 0 {
      assert ChompAll(a[..0]) == [] && ChompAll(b[..0]) == [];
      assert Contents([]) == [];
    } else {
      var n := |ops| - 1;
      AddOpsBuilds(ops[..n], a, b, ops[n].i1, ops[n].j1);
      assert InRange(ops[n], a, b);
      AddOpBuilds(AddOps(Builder([], 1, 1), ops[..n], a, b), ops[n], a, b);
    }
  }

  /** For any opcodes that partition both texts: the lines of the diff that are not added are exactly the
      old lines, numbered 1 to n, and those that are not removed exactly the new lines, numbered 1 to m; and
      the hunk says n and m. */
  lemma DiffHoldsBothTexts(a: seq<string>, b: seq<string>, ops: seq<Op>)
    requires Opcodes(ops, a, b)
    ensures forall k :: 0 <= k < |ops| ==> InRange(ops[k], a, b)
    ensures var lines := CreateDiff(a, b, ops).lines;
            && Contents(OldSide(lines)) == ChompAll(a)
            && Contents(NewSide(lines)) == ChompAll(b)
            && RunsOn(lines, CreateDiff(a, b, ops).nums)
            && CreateDiff(a, b, ops).nums == Nums(1, |OldSide(lines)|, 1, |NewSide(lines)|)
  {
    CoversInRange(ops, a, b, |a|, |b|);
    AddOpsBuilds(ops, a, b, |a|, |b|);
    assert a[..|a|] == a && b[..|b|] == b;
    var lines := CreateDiff(a, b, ops).lines;
    assert |Contents(OldSide(lines))| == |OldSide(lines)| && |Contents(NewSide(lines))| == |NewSide(lines)|;
  }

  // ---- block by block -------------------------------------------------------------------------------

  function Repeat(change: Change, n: nat): seq<Change> { seq(n, _ => change) }

  /** A block that is equal is context; in every other block what is removed comes before what is added. */
  function KindsOf(ops: seq<Op>): seq<Change>
    requires forall k :: 0 <= k < |ops| ==> ops[k].i1 <= ops[k].i2 && ops[k].j1 <= ops[k].j2
  {
    if |ops| == 0 then []
    else
      var op := ops[|ops| - 1];
      KindsOf(ops[..|ops| - 1])
      + if op.tag == Equal then Repeat(Context, op.i2 - op.i1)
        else Repeat(Removed, op.i2 - op.i1) + Repeat(Added, op.j2 - op.j1)
  }

  function Kinds(lines: seq<DiffLine>): seq<Change> {
    seq(|lines|, k requires 0 <= k < |lines| => lines[k].change)
  }

  lemma {:induction false} AddAllKinds(s: Builder, change: Change, block: seq<string>)
    ensures Kinds(AddAll(s, change, block).lines) == Kinds(s.lines) + Repeat(change, |block|)
  {
    if |block| == 0 {
      AppendNothing(Kinds(s.lines));
    } else {
      var n := |block| - 1;
      AddAllKinds(s, change, block[..n]);
      assert Kinds(AddAll(s, change, block).lines) == Kinds(AddAll(s, change, block[..n]).lines) + [change];
      assert Repeat(change, n + 1) == Repeat(change, n) + [change];
    }
  }

  lemma AddOpKinds(s: Builder, op: Op, a: seq<string>, b: seq<string>)
    requires InRange(op, a, b)
    requires (op.tag == Delete ==> op.j1 == op.j2) && (op.tag == Insert ==> op.i1 == op.i2)
    ensures Kinds(AddOp(s, op, a, b).lines)
            == Kinds(s.lines) + if op.tag == Equal then Repeat(Context, op.i2 - op.i1)
                                else Repeat(Removed, op.i2 - op.i1) + Repeat(Added, op.j2 - op.j1)
  {
    var gone, come := a[op.i1..op.i2], b[op.j1..op.j2];
    match op.tag {
      case Equal => AddAllKinds(s, Context, gone);
      case Delete => AddAllKinds(s, Removed, gone);
      case Insert => AddAllKinds(s, Added, come);
      case Replace =>
        AddAllKinds(s, Removed, gone);
        AddAllKinds(AddAll(s, Removed, gone), Added, come);
        AppendAssoc(Kinds(s.lines), Repeat(Removed, |gone|), Repeat(Added, |come|));
    }
  }

  lemma {:induction false} AddOpsKinds(ops: seq<Op>, a: seq<string>, b: seq<string>, i: nat, j: nat)
    requires Covers(ops, a, b, i, j) && forall k :: 0 <= k < |ops| ==> InRange(ops[k], a, b)
    ensures Kinds(AddOps(Builder([], 1, 1), ops, a, b).lines) == KindsOf(ops)
  {
    if |ops| > 0 {
      var n := |ops| - 1;
      AddOpsKinds(ops[..n], a, b, ops[n].i1, ops[n].j1);
      assert InRange(ops[n], a, b);
      AddOpKinds(AddOps(Builder([], 1, 1), ops[..n], a, b), ops[n], a, b);
    }
  }

  /** For any opcodes: the diff goes block by block, context for an equal block, and for every other block the
      lines it removes and then those it adds. */
  lemma BlocksInOrder(a: seq<string>, b: seq<string>, ops: seq<Op>)
    requires Opcodes(ops, a, b)
    ensures forall k :: 0 <= k < |ops| ==> InRange(ops[k], a, b)
    ensures Kinds(CreateDiff(a, b, ops).lines) == KindsOf(ops)
  {
    CoversInRange(ops, a, b, |a|, |b|);
    AddOpsKinds(ops, a, b, |a|, |b|);
  }

  // ---- applying it ----------------------------------------------------------------------------------

  /** A diff applies to exactly one text, its old side, and turns it into its new side. */
  lemma {:induction false} PatchIff(lines: seq<DiffLine>, text: seq<string>)
    ensures Patch(lines, text)
            == if text == Contents(OldSide(lines)) then Some(Contents(NewSide(lines))) else None
  {
    if |lines| == 0 {
      assert Contents([]) == [];
    } else {
      var n := |lines| - 1;
      var l := lines[n];
      assert lines == lines[..n] + [l];
      SidesSnoc(lines[..n], l);
      var rest := Contents(OldSide(lines[..n]));
      if OnOldSide(l) {
        if |text| > 0 && text[|text| - 1] == l.content {
          PatchIff(lines[..n], text[..|text| - 1]);
          assert text == text[..|text| - 1] + [l.content];
          assert text == rest + [l.content] <==> text[..|text| - 1] == rest by {
            assert (rest + [l.content])[..|rest|] == rest;
          }
        } else {
          assert (rest + [l.content])[|rest|] == l.content;
        }
      } else {
        PatchIff(lines[..n], text);
      }
    }
  }

  lemma {:induction false} ReversedSides(lines: seq<DiffLine>)
    ensures Contents(OldSide(Reversed(lines))) == Contents(NewSide(lines))
    ensures Contents(NewSide(Reversed(lines))) == Contents(OldSide(lines))
  {
    if |lines| > 0 {
      var n := |lines| - 1;
      ReversedSides(lines[..n]);
      assert lines == lines[..n] + [lines[n]];
      assert Reversed(lines) == Reversed(lines[..n]) + [Reversed(lines)[n]];
      SidesSnoc(lines[..n], lines[n]);
      SidesSnoc(Reversed(lines[..n]), Reversed(lines)[n]);
    }
  }

  /** Applying the built diff to the old text gives the new one, applying it backwards to the new text
      gives the old one, and it applies to nothing else. */
  lemma PatchGivesNew(before: string, after: string, ops: seq<Op>, text: seq<string>)
    requires Opcodes(ops, SplitLines(before), SplitLines(after))
    ensures forall k :: 0 <= k < |ops| ==> InRange(ops[k], SplitLines(before), SplitLines(after))
    ensures var a, b := ChompAll(SplitLines(before)), ChompAll(SplitLines(after));
            var lines := CreateDiff(SplitLines(before), SplitLines(after), ops).lines;
            && Patch(lines, text) == (if text == a then Some(b) else None)
            && Patch(Reversed(lines), text) == (if text == b then Some(a) else None)
  {
    DiffHoldsBothTexts(SplitLines(before), SplitLines(after), ops);
    var lines := CreateDiff(SplitLines(before), SplitLines(after), ops).lines;
    PatchIff(lines, text);
    PatchIff(Reversed(lines), text);
    ReversedSides(lines);
  }

  /** The fixed header says one line on each side, which is right exactly when both texts have one. */
  lemma HeaderIsRightIff(a: seq<string>, b: seq<string>, ops: seq<Op>)
    requires Opcodes(ops, a, b)
    ensures forall k :: 0 <= k < |ops| ==> InRange(ops[k], a, b)
    ensures CreateDiff(a, b, ops).header == "@@ -1 +1 @@"
    ensures ReadHeader(CreateDiff(a, b, ops).header) == Some(CreateDiff(a, b, ops).nums) <==> |a| == 1 && |b| == 1
  {
    CoversInRange(ops, a, b, |a|, |b|);
    OneLineHeader();
  }

  /** Two equal texts of two lines get a header that speaks of one. */
  lemma HeaderIsWrong()
    ensures var a := ["x\n", "y\n"];
            var ops := [Op(Equal, 0, 2, 0, 2)];
            && Opcodes(ops, a, a) && InRange(ops[0], a, a)
            && ReadHeader(CreateDiff(a, a, ops).header) == Some(Nums(1, 1, 1, 1))
            && CreateDiff(a, a, ops).nums == Nums(1, 2, 1, 2)
  {
    var a := ["x\n", "y\n"];
    var ops := [Op(Equal, 0, 2, 0, 2)];
    assert ops[..0] == [] && Covers(ops[..0], a, a, 0, 0);
    assert Opcodes(ops, a, a);
    OneLineHeader();
  }

  // ---- nothing is lost by splitting ------------------------------------------------------------------

  function Flatten(lines: seq<string>): string {
    if |lines| == 0 then "" else lines[0] + Flatten(lines[1..])
  }

  /** No line boundary before the end. */
  ghost predicate OneLine(line: string) {
    forall k :: 0 <= k < |line| - 1 && Breaks(line[k]) ==> k == |line| - 2 && line[k] == '\r' && line[k + 1] == '\n'
  }

  lemma {:induction false} FirstLineEnds(s: string)
    requires |s| > 0
    ensures OneLine(s[..FirstLine(s)])
    ensures FirstLine(s) < |s| ==> Breaks(s[FirstLine(s) - 1])
  {
    if !(s[0] == '\r' && |s| > 1 && s[1] == '\n') && !Breaks(s[0]) && |s| > 1 {
      FirstLineEnds(s[1..]);
      var line, rest := s[..FirstLine(s)], s[1..][..FirstLine(s[1..])];
      forall k | 0 <= k < |line| - 1 && Breaks(line[k])
        ensures k == |line| - 2 && line[k] == '\r' && line[k + 1] == '\n'
      {
        assert k > 0 && rest[k - 1] == line[k] && rest[k] == line[k + 1];
      }
    }
  }

  /** Lines that end at their line boundary, and all but the last do. */
  ghost predicate LineList(lines: seq<string>) {
    && (forall i :: 0 <= i < |lines| ==> |lines[i]| > 0 && OneLine(lines[i]))
    && (forall i :: 0 <= i < |lines| - 1 ==> Breaks(lines[i][|lines[i]| - 1]))
  }

  lemma LineListCons(line: string, rest: seq<string>)
    requires LineList(rest) && |line| > 0 && OneLine(line)
    requires |rest| > 0 ==> Breaks(line[|line| - 1])
    ensures LineList([line] + rest)
  {}

  /** Splitting into lines loses nothing and splits exactly at the line boundaries. */
  lemma {:induction false} SplitLinesKeeps(s: string)
    ensures Flatten(SplitLines(s)) == s && LineList(SplitLines(s))
    decreases |s|
  {
    if |s| > 0 {
      var n := FirstLine(s);
      SplitLinesKeeps(s[n..]);
      FirstLineThenRest(s, SplitLines(s[n..]));
    }
  }

  lemma FirstLineThenRest(s: string, rest: seq<string>)
    requires |s| > 0 && Flatten(rest) == s[FirstLine(s)..] && LineList(rest)
    ensures Flatten([s[..FirstLine(s)]] + rest) == s && LineList([s[..FirstLine(s)]] + rest)
  {
    var n := FirstLine(s);
    FirstLineEnds(s);
    FlattenCons(s[..n], rest);
    assert s == s[..n] + s[n..];
    assert |rest| > 0 ==> |rest[0]| > 0;
    LineListCons(s[..n], rest);
  }

  lemma FlattenCons(line: string, rest: seq<string>)
    ensures Flatten([line] + rest) == line + Flatten(rest)
  {
    assert ([line] + rest)[1..] == rest;
  }

  /** `rstrip` takes exactly the newline that ends a line, if one does. */
  lemma ChompTakesOne(line: string)
    requires |line| > 0 && OneLine(line)
    ensures line == if line[|line| - 1] == '\n' then Chomp(line) + "\n" else Chomp(line)
    ensures |Chomp(line)| > 0 ==> Chomp(line)[|Chomp(line)| - 1] != '\n'
  {
    var n := |line| - 1;
    if line[n] == '\n' {
      ChompNothing(line[..n]);
      LastApart(line);
    }
  }

  lemma ChompNothing(s: string)
    requires |s| > 0 ==> s[|s| - 1] != '\n'
    ensures Chomp(s) == s
  {}
}
