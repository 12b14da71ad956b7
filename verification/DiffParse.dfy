/** Reading unified diffs, `_parse_diff` of `legacy/clide/controllers/diff.py`. */
module DiffParse {
  import opened Common
  import opened Text

  datatype Change = Added | Removed | Context

  datatype DiffLine = DiffLine(change: Change, content: string, oldNum: Option<int>, newNum: Option<int>)

  datatype Nums = Nums(oldStart: int, oldCount: int, newStart: int, newCount: int)

  datatype Hunk = Hunk(header: string, nums: Nums, lines: seq<DiffLine>)

  // ---- hunk headers -------------------------------------------------------------------------------

  function DigitRun(s: string): (n: nat)
    ensures n <= |s| && AllDigits(s[..n])
    ensures n < |s| ==> !IsDigit(s[n])
  {
    if |s| > 0 && IsDigit(s[0]) then 1 + DigitRun(s[1..]) else 0
  }

  /** `(\d+),?(\d*)` at the front of `s`: start, count (1 if absent), and what follows. */
  function ReadRange(s: string): Option<(int, int, string)> {
    var d := DigitRun(s);
    if d == 0 then None
    else
      var t := if d < |s| && s[d] == ',' then s[d + 1..] else s[d..];
      var e := DigitRun(t);
      Some((DecValue(s[..d]), if e == 0 then 1 else DecValue(t[..e]), t[e..]))
  }

  /** The match of `@@ -(\d+),?(\d*) \+(\d+),?(\d*) @@` at the front of `line`. */
  function ReadHeader(line: string): Option<Nums> {
    if !("@@ -" <= line) then None
    else
      var before := ReadRange(line[4..]);
      if before.None? || !(" +" <= before.value.2) then None
      else
        var after := ReadRange(before.value.2[2..]);
        if after.None? || !(" @@" <= after.value.2) then None
        else Some(Nums(before.value.0, before.value.1, after.value.0, after.value.1))
  }

  // ---- reading ------------------------------------------------------------------------------------

  predicate OnOldSide(l: DiffLine) { l.change != Added }
  predicate OnNewSide(l: DiffLine) { l.change != Removed }

  function OldSide(lines: seq<DiffLine>): seq<DiffLine> {
    if |lines| == 0 then []
    else OldSide(lines[..|lines| - 1]) + (if OnOldSide(lines[|lines| - 1]) then [lines[|lines| - 1]] else [])
  }

  function NewSide(lines: seq<DiffLine>): seq<DiffLine> {
    if |lines| == 0 then []
    else NewSide(lines[..|lines| - 1]) + (if OnNewSide(lines[|lines| - 1]) then [lines[|lines| - 1]] else [])
  }

  /** The hunks saved so far and the open one. */
  datatype Reader = Reader(hunks: seq<Hunk>, lines: seq<DiffLine>, header: string, nums: Nums)

  function Start(): Reader { Reader([], [], "", Nums(0, 0, 0, 0)) }

  function Save(r: Reader): seq<Hunk> {
    if |r.lines| > 0 then r.hunks + [Hunk(r.header, r.nums, r.lines)] else r.hunks
  }

  /** The line at the end of the open hunk; its numbers are counted from the start of the hunk. */
  function Numbered(nums: Nums, before: seq<DiffLine>, change: Change, content: string): DiffLine {
    var oldNum := nums.oldStart + |OldSide(before)|;
    var newNum := nums.newStart + |NewSide(before)|;
    match change
    case Added => DiffLine(Added, content, None, Some(newNum))
    case Removed => DiffLine(Removed, content, Some(oldNum), None)
    case Context => DiffLine(Context, content, Some(oldNum), Some(newNum))
  }

  function Append(r: Reader, change: Change, content: string): Reader {
    r.(lines := r.lines + [Numbered(r.nums, r.lines, change, content)])
  }

  function LineStep(r: Reader, line: string): Reader {
    if "@@" <= line then
      var match' := ReadHeader(line);
      Reader(Save(r), [], line, if match'.Some? then match'.value else r.nums)
    else if "+" <= line && !("+++" <= line) then Append(r, Added, line[1..])
    else if "-" <= line && !("---" <= line) then Append(r, Removed, line[1..])
    else if " " <= line then Append(r, Context, line[1..])
    else r
  }

  function Steps(r: Reader, lines: seq<string>): Reader {
    if |lines| == 0 then r else LineStep(Steps(r, lines[..|lines| - 1]), lines[|lines| - 1])
  }

  function ParseDiff(text: string): seq<Hunk> { Save(Steps(Start(), Split(text, '\n'))) }

  /** `len([ln for ln in lines if ln.change_type != ADDED])`, or `REMOVED` for the new side. */
  method Recount(lines: seq<DiffLine>, oldSide: bool) returns (n: nat)
    ensures n == if oldSide then |OldSide(lines)| else |NewSide(lines)|
  {
    n := 0;
    for i := 0 to |lines|
      invariant n == if oldSide then |OldSide(lines[..i])| else |NewSide(lines[..i])|
    {
      assert lines[..i + 1][..i] == lines[..i];
      if lines[i].change != (if oldSide then Added else Removed) { n := n + 1; }
    }
    assert lines[..|lines|] == lines;
  }

  /** The body of the line loop. */
  method ReadLine(hunks: seq<Hunk>, current: seq<DiffLine>, header: string, nums: Nums, line: string)
    returns (hunks': seq<Hunk>, current': seq<DiffLine>, header': string, nums': Nums)
    ensures Reader(hunks', current', header', nums') == LineStep(Reader(hunks, current, header, nums), line)
  {
    hunks', current', header', nums' := hunks, current, header, nums;
    if "@@" <= line {
      if |current| > 0 {
        hunks' := hunks + [Hunk(header, nums, current)];
        current' := [];
      }
      header' := line;
      var found := ReadHeader(line);
      if found.Some? { nums' := found.value; }
    } else if "+" <= line && !("+++" <= line) {
      var n := Recount(current, false);
      current' := current + [DiffLine(Added, line[1..], None, Some(nums.newStart + n))];
    } else if "-" <= line && !("---" <= line) {
      var n := Recount(current, true);
      current' := current + [DiffLine(Removed, line[1..], Some(nums.oldStart + n), None)];
    } else if " " <= line {
      var n := Recount(current, true);
      var m := Recount(current, false);
      current' := current + [DiffLine(Context, line[1..], Some(nums.oldStart + n), Some(nums.newStart + m))];
    }
  }

  method ParseDiffLoop(text: string) returns (hunks: seq<Hunk>)
    ensures hunks == ParseDiff(text)
  {
    hunks := [];
    var current: seq<DiffLine> := [];
    var header := "";
    var nums := Nums(0, 0, 0, 0);
    var lines := Split(text, '\n');
    for i := 0 to |lines|
      invariant Steps(Start(), lines[..i]) == Reader(hunks, current, header, nums)
    {
      assert lines[..i + 1][..i] == lines[..i];
      hunks, current, header, nums := ReadLine(hunks, current, header, nums, lines[i]);
    }
    assert lines[..|lines|] == lines;
    if |current| > 0 { hunks := hunks + [Hunk(header, nums, current)]; }
  }

  // ---- numbering, for every text ------------------------------------------------------------------

  /** The i-th line of each side is numbered from that side's start, and no line has a number on a side it
      is not on. */
  ghost predicate RunsOn(lines: seq<DiffLine>, nums: Nums) {
    && (forall i :: 0 <= i < |OldSide(lines)| ==> OldSide(lines)[i].oldNum == Some(nums.oldStart + i))
    && (forall i :: 0 <= i < |NewSide(lines)| ==> NewSide(lines)[i].newNum == Some(nums.newStart + i))
    && (forall k :: 0 <= k < |lines| ==> (lines[k].oldNum.Some? <==> OnOldSide(lines[k])))
    && (forall k :: 0 <= k < |lines| ==> (lines[k].newNum.Some? <==> OnNewSide(lines[k])))
  }

  lemma AppendRunsOn(lines: seq<DiffLine>, nums: Nums, change: Change, content: string)
    requires RunsOn(lines, nums)
    ensures RunsOn(lines + [Numbered(nums, lines, change, content)], nums)
  {
    var l := Numbered(nums, lines, change, content);
    assert (lines + [l])[..|lines|] == lines;
    assert OldSide(lines + [l]) == OldSide(lines) + (if OnOldSide(l) then [l] else []);
    assert NewSide(lines + [l]) == NewSide(lines) + (if OnNewSide(l) then [l] else []);
  }

  ghost predicate AllRunOn(r: Reader) {
    && RunsOn(r.lines, r.nums)
    && forall h :: h in r.hunks ==> RunsOn(h.lines, h.nums) && |h.lines| > 0
  }

  lemma StepRunsOn(r: Reader, line: string)
    requires AllRunOn(r)
    ensures AllRunOn(LineStep(r, line))
  {
    if "@@" <= line {
    } else if "+" <= line && !("+++" <= line) {
      AppendRunsOn(r.lines, r.nums, Added, line[1..]);
    } else if "-" <= line && !("---" <= line) {
      AppendRunsOn(r.lines, r.nums, Removed, line[1..]);
    } else if " " <= line {
      AppendRunsOn(r.lines, r.nums, Context, line[1..]);
    }
  }

  lemma {:induction false} StepsRunOn(r: Reader, lines: seq<string>)
    requires AllRunOn(r)
    ensures AllRunOn(Steps(r, lines))
  {
    if |lines| > 0 {
      StepsRunOn(r, lines[..|lines| - 1]);
      StepRunsOn(Steps(r, lines[..|lines| - 1]), lines[|lines| - 1]);
    }
  }

  /** Whatever the text: counting the hunk again for every line numbers the lines of each side
      consecutively from the hunk's start. */
  lemma NumbersRunOn(text: string)
    ensures forall h :: h in ParseDiff(text) ==> RunsOn(h.lines, h.nums) && |h.lines| > 0
  {
    StepsRunOn(Start(), Split(text, '\n'));
  }

  // ---- reading what was printed -------------------------------------------------------------------

  function Sign(change: Change): char {
    match change
    case Added => '+'
    case Removed => '-'
    case Context => ' '
  }

  function PrintLine(l: DiffLine): string { [Sign(l.change)] + l.content }

  function PrintLines(lines: seq<DiffLine>): seq<string> {
    if |lines| == 0 then [] else PrintLines(lines[..|lines| - 1]) + [PrintLine(lines[|lines| - 1])]
  }

  function PrintHunks(hs: seq<Hunk>): seq<string> {
    if |hs| == 0 then []
    else
      var h := hs[|hs| - 1];
      PrintHunks(hs[..|hs| - 1]) + ([h.header] + PrintLines(h.lines))
  }

  /** A line that is neither a hunk header nor a line of a hunk, such as the file headers before the first
      hunk or `\ No newline at end of file`. */
  predicate Noise(line: string) {
    && !("@@" <= line) && !(" " <= line)
    && ("+" <= line ==> "+++" <= line) && ("-" <= line ==> "---" <= line)
  }

  /** A unified diff: the lines before the hunks, the hunks, and a newline at the end. */
  function PrintDiff(pre: seq<string>, hs: seq<Hunk>): string {
    Join(pre + PrintHunks(hs) + [""], '\n')
  }

  /** A hunk that a unified diff can hold: the header says its numbers and its lines are numbered by it. */
  ghost predicate Proper(h: Hunk) {
    && "@@" <= h.header && '\n' !in h.header && ReadHeader(h.header) == Some(h.nums)
    && (forall k :: 0 <= k < |h.lines| ==> '\n' !in h.lines[k].content)
    && RunsOn(h.lines, h.nums)
  }

  /** The two kinds of lines that look like file headers once printed are passed over. */
  predicate Kept(l: DiffLine) {
    !(l.change == Added && "++" <= l.content) && !(l.change == Removed && "--" <= l.content)
  }

  function KeptLines(lines: seq<DiffLine>): (q: seq<DiffLine>)
    ensures |q| <= |lines|
    ensures |q| == |lines| <==> forall k :: 0 <= k < |lines| ==> Kept(lines[k])
    ensures |q| == |lines| ==> q == lines
  {
    if |lines| == 0 then []
    else
      var n := |lines| - 1;
      KeptLines(lines[..n]) + (if Kept(lines[n]) then [lines[n]] else [])
  }

  /** The same lines, numbered by counting. */
  function Renumber(nums: Nums, lines: seq<DiffLine>): (q: seq<DiffLine>)
    ensures |q| == |lines|
  {
    if |lines| == 0 then []
    else
      var n := |lines| - 1;
      var q := Renumber(nums, lines[..n]);
      q + [Numbered(nums, q, lines[n].change, lines[n].content)]
  }

  /** What reading makes of printed hunks. */
  function Survivors(hs: seq<Hunk>): seq<Hunk> {
    if |hs| == 0 then []
    else
      var h := hs[|hs| - 1];
      var kept := KeptLines(h.lines);
      Survivors(hs[..|hs| - 1]) + (if |kept| > 0 then [Hunk(h.header, h.nums, Renumber(h.nums, kept))] else [])
  }

  lemma ReadPrintedLine(r: Reader, l: DiffLine)
    ensures LineStep(r, PrintLine(l)) == if Kept(l) then Append(r, l.change, l.content) else r
  {
    var line := PrintLine(l);
    assert line[0] == Sign(l.change) && line[1..] == l.content;
    assert "+++" <= line <==> line[0] == '+' && "++" <= line[1..];
    assert "---" <= line <==> line[0] == '-' && "--" <= line[1..];
  }

  lemma {:induction false} ReadPrintedLines(r: Reader, lines: seq<DiffLine>)
    requires r.lines == []
    ensures Steps(r, PrintLines(lines)) == r.(lines := Renumber(r.nums, KeptLines(lines)))
  {
    if |lines| > 0 {
      var n := |lines| - 1;
      ReadPrintedLines(r, lines[..n]);
      LastPrinted(r, lines);
      ReadLastLine(r, lines);
    }
  }

  lemma LastPrinted(r: Reader, lines: seq<DiffLine>)
    requires |lines| > 0
    ensures var n := |lines| - 1;
            Steps(r, PrintLines(lines)) == LineStep(Steps(r, PrintLines(lines[..n])), PrintLine(lines[n]))
  {
    var n := |lines| - 1;
    StepsSnoc(r, PrintLines(lines[..n]), PrintLine(lines[n]));
  }

  lemma ReadLastLine(r: Reader, lines: seq<DiffLine>)
    requires |lines| > 0
    ensures var n := |lines| - 1;
            LineStep(r.(lines := Renumber(r.nums, KeptLines(lines[..n]))), PrintLine(lines[n]))
            == r.(lines := Renumber(r.nums, KeptLines(lines)))
  {
    var n := |lines| - 1;
    ReadPrintedLine(r.(lines := Renumber(r.nums, KeptLines(lines[..n]))), lines[n]);
    KeptSnoc(r.nums, lines);
  }

  lemma KeptSnoc(nums: Nums, lines: seq<DiffLine>)
    requires |lines| > 0
    ensures var n := |lines| - 1;
            var before := Renumber(nums, KeptLines(lines[..n]));
            Renumber(nums, KeptLines(lines))
            == if Kept(lines[n]) then before + [Numbered(nums, before, lines[n].change, lines[n].content)] else before
  {
    var n := |lines| - 1;
    var kept := KeptLines(lines[..n]);
    assert (kept + [lines[n]])[..|kept|] == kept;
    assert kept + [] == kept;
  }

  lemma StepsSnoc(r: Reader, lines: seq<string>, line: string)
    ensures Steps(r, lines + [line]) == LineStep(Steps(r, lines), line)
  {
    assert (lines + [line])[..|lines|] == lines;
  }

  lemma {:induction false} StepsConcat(r: Reader, p: seq<string>, q: seq<string>)
    ensures Steps(r, p + q) == Steps(Steps(r, p), q)
  {
    if |q| == 0 {
      assert p + q == p;
    } else {
      var n := |q| - 1;
      StepsConcat(r, p, q[..n]);
      assert (p + q)[..|p + q| - 1] == p + q[..n];
      assert (p + q)[|p + q| - 1] == q[n];
    }
  }

  /** Noise changes nothing, wherever it stands. */
  lemma NoiseIgnored(r: Reader, p: seq<string>, noise: seq<string>, q: seq<string>)
    requires forall i :: 0 <= i < |noise| ==> Noise(noise[i])
    ensures Steps(r, p + noise + q) == Steps(r, p + q)
  {
    OnlyNoise(Steps(r, p), noise);
    StepsConcat(r, p, noise);
    StepsConcat(r, p + noise, q);
    StepsConcat(r, p, q);
  }

  lemma {:induction false} OnlyNoise(r: Reader, noise: seq<string>)
    requires forall i :: 0 <= i < |noise| ==> Noise(noise[i])
    ensures Steps(r, noise) == r
  {
    if |noise| > 0 { OnlyNoise(r, noise[..|noise| - 1]); }
  }

  lemma ReadPrintedHunk(r: Reader, h: Hunk)
    requires Proper(h)
    ensures Steps(r, [h.header] + PrintLines(h.lines))
            == Reader(Save(r), Renumber(h.nums, KeptLines(h.lines)), h.header, h.nums)
  {
    StepsConcat(r, [h.header], PrintLines(h.lines));
    assert [h.header][..0] == [];
    assert Steps(r, [h.header]) == LineStep(r, h.header);
    ReadPrintedLines(Reader(Save(r), [], h.header, h.nums), h.lines);
  }

  lemma {:induction false} ReadPrintedHunks(hs: seq<Hunk>)
    requires forall i :: 0 <= i < |hs| ==> Proper(hs[i])
    ensures Save(Steps(Start(), PrintHunks(hs))) == Survivors(hs)
  {
    if |hs| > 0 {
      var n := |hs| - 1;
      ReadPrintedHunks(hs[..n]);
      var r := Steps(Start(), PrintHunks(hs[..n]));
      ReadPrintedHunk(r, hs[n]);
      StepsConcat(Start(), PrintHunks(hs[..n]), [hs[n].header] + PrintLines(hs[n].lines));
      assert Save(r) + [] == Save(r);
    }
  }

  lemma {:induction false} LinesFit(lines: seq<DiffLine>)
    requires forall k :: 0 <= k < |lines| ==> '\n' !in lines[k].content
    ensures forall i :: 0 <= i < |PrintLines(lines)| ==> '\n' !in PrintLines(lines)[i]
  {
    if |lines| > 0 { LinesFit(lines[..|lines| - 1]); }
  }

  lemma {:induction false} HunksFit(hs: seq<Hunk>)
    requires forall i :: 0 <= i < |hs| ==> Proper(hs[i])
    ensures forall i :: 0 <= i < |PrintHunks(hs)| ==> '\n' !in PrintHunks(hs)[i]
  {
    if |hs| > 0 {
      HunksFit(hs[..|hs| - 1]);
      LinesFit(hs[|hs| - 1].lines);
    }
  }

  /** Reading a printed diff gives exactly the hunks that keep a line, each with the kept lines numbered
      by counting. */
  lemma ReadingPrinted(pre: seq<string>, hs: seq<Hunk>)
    requires forall i :: 0 <= i < |pre| ==> Noise(pre[i]) && '\n' !in pre[i]
    requires forall i :: 0 <= i < |hs| ==> Proper(hs[i])
    ensures ParseDiff(PrintDiff(pre, hs)) == Survivors(hs)
  {
    HunksFit(hs);
    ReadBetween(pre, PrintHunks(hs), [""]);
    ReadPrintedHunks(hs);
  }

  lemma ReadBetween(pre: seq<string>, body: seq<string>, post: seq<string>)
    requires |post| > 0
    requires forall i :: 0 <= i < |pre| ==> Noise(pre[i]) && '\n' !in pre[i]
    requires forall i :: 0 <= i < |body| ==> '\n' !in body[i]
    requires forall i :: 0 <= i < |post| ==> Noise(post[i]) && '\n' !in post[i]
    ensures ParseDiff(Join(pre + body + post, '\n')) == Save(Steps(Start(), body))
  {
    LinesOf(pre, body, post);
    BetweenNoise(pre, body, post);
  }

  lemma LinesOf(pre: seq<string>, body: seq<string>, post: seq<string>)
    requires |post| > 0
    requires forall i :: 0 <= i < |pre| ==> '\n' !in pre[i]
    requires forall i :: 0 <= i < |body| ==> '\n' !in body[i]
    requires forall i :: 0 <= i < |post| ==> '\n' !in post[i]
    ensures Split(Join(pre + body + post, '\n'), '\n') == pre + body + post
  {
    SplitJoin(pre + body + post, '\n');
  }

  lemma BetweenNoise(pre: seq<string>, body: seq<string>, post: seq<string>)
    requires forall i :: 0 <= i < |pre| ==> Noise(pre[i])
    requires forall i :: 0 <= i < |post| ==> Noise(post[i])
    ensures Steps(Start(), pre + body + post) == Steps(Start(), body)
  {
    StepsConcat(Start(), pre + body, post);
    StepsConcat(Start(), pre, body);
    OnlyNoise(Start(), pre);
    OnlyNoise(Steps(Start(), body), post);
  }

  // ---- when nothing is lost -----------------------------------------------------------------------

  lemma {:induction false} RenumberKeeps(nums: Nums, lines: seq<DiffLine>)
    requires RunsOn(lines, nums)
    ensures Renumber(nums, lines) == lines
  {
    if |lines| > 0 {
      var n := |lines| - 1;
      PrefixRunsOn(lines, nums);
      RenumberKeeps(nums, lines[..n]);
      LastNumbered(lines, nums);
      assert lines == lines[..n] + [lines[n]];
    }
  }

  lemma PrefixRunsOn(lines: seq<DiffLine>, nums: Nums)
    requires RunsOn(lines, nums) && |lines| > 0
    ensures RunsOn(lines[..|lines| - 1], nums)
  {
    var p := lines[..|lines| - 1];
    assert forall i :: 0 <= i < |OldSide(p)| ==> OldSide(p)[i] == OldSide(lines)[i];
    assert forall i :: 0 <= i < |NewSide(p)| ==> NewSide(p)[i] == NewSide(lines)[i];
  }

  lemma LastNumbered(lines: seq<DiffLine>, nums: Nums)
    requires RunsOn(lines, nums) && |lines| > 0
    ensures var n := |lines| - 1; lines[n] == Numbered(nums, lines[..n], lines[n].change, lines[n].content)
  {
    var n := |lines| - 1;
    var l := lines[n];
    if OnOldSide(l) { assert OldSide(lines)[|OldSide(lines[..n])|] == l; }
    if OnNewSide(l) { assert NewSide(lines)[|NewSide(lines[..n])|] == l; }
  }

  predicate Whole(h: Hunk) {
    |h.lines| > 0 && forall k :: 0 <= k < |h.lines| ==> Kept(h.lines[k])
  }

  predicate AllWhole(hs: seq<Hunk>) {
    |hs| > 0 ==> AllWhole(hs[..|hs| - 1]) && Whole(hs[|hs| - 1])
  }

  lemma {:induction false} AllWholeIff(hs: seq<Hunk>)
    ensures AllWhole(hs) <==> forall i :: 0 <= i < |hs| ==> Whole(hs[i])
  {
    if |hs| > 0 {
      AllWholeIff(hs[..|hs| - 1]);
      assert forall i :: 0 <= i < |hs| - 1 ==> hs[..|hs| - 1][i] == hs[i];
    }
  }

  lemma {:induction false} SurvivorsSame(hs: seq<Hunk>)
    requires forall i :: 0 <= i < |hs| ==> Proper(hs[i])
    ensures |Survivors(hs)| <= |hs|
    ensures Survivors(hs) == hs <==> AllWhole(hs)
  {
    if |hs| > 0 {
      var n := |hs| - 1;
      SurvivorsSame(hs[..n]);
      LastSurvivor(Survivors(hs[..n]), hs);
    }
  }

  lemma LastSurvivor(before: seq<Hunk>, hs: seq<Hunk>)
    requires |hs| > 0 && |before| < |hs| && RunsOn(hs[|hs| - 1].lines, hs[|hs| - 1].nums)
    ensures var n := |hs| - 1;
            var kept := KeptLines(hs[n].lines);
            var more := if |kept| > 0 then [Hunk(hs[n].header, hs[n].nums, Renumber(hs[n].nums, kept))] else [];
            && |before + more| <= |hs|
            && (before + more == hs <==> before == hs[..n] && Whole(hs[n]))
  {
    var n := |hs| - 1;
    var h := hs[n];
    var kept := KeptLines(h.lines);
    RenumberKeeps(h.nums, h.lines);
    assert hs == hs[..n] + [h];
    if |kept| > 0 {
      var last := Hunk(h.header, h.nums, Renumber(h.nums, kept));
      if before + [last] == hs {
        assert (before + [last])[n] == h && (before + [last])[..n] == before;
        assert |kept| == |h.lines|;
      }
    }
  }

  /** Reading undoes printing exactly when no hunk is empty, no removed line starts with `--` and no added
      line with `++`. */
  lemma ParseUndoesPrintIff(pre: seq<string>, hs: seq<Hunk>)
    requires forall i :: 0 <= i < |pre| ==> Noise(pre[i]) && '\n' !in pre[i]
    requires forall i :: 0 <= i < |hs| ==> Proper(hs[i])
    ensures ParseDiff(PrintDiff(pre, hs)) == hs <==> forall i :: 0 <= i < |hs| ==> Whole(hs[i])
  {
    ReadingPrinted(pre, hs);
    SurvivorsSame(hs);
    AllWholeIff(hs);
  }

  // ---- headers as git prints them -----------------------------------------------------------------

  /** `start,count`, with the count left out when it is 1. */
  function RangeText(start: nat, count: nat): string {
    if count == 1 then Dec(start) else Dec(start) + ("," + Dec(count))
  }

  /** `@@ -a,b +c,d @@`, then the rest of the line. */
  function HeaderText(oldStart: nat, oldCount: nat, newStart: nat, newCount: nat, rest: string): string {
    "@@ -" + (RangeText(oldStart, oldCount) + (" +" + (RangeText(newStart, newCount) + (" @@" + rest))))
  }

  lemma {:induction false} DigitRunOf(digits: string, rest: string)
    requires AllDigits(digits) && (|rest| > 0 ==> !IsDigit(rest[0]))
    ensures DigitRun(digits + rest) == |digits|
  {
    if |digits| == 0 {
      assert digits + rest == rest;
    } else {
      assert (digits + rest)[1..] == digits[1..] + rest;
      DigitRunOf(digits[1..], rest);
    }
  }

  lemma ReadRangeText(start: nat, count: nat, rest: string)
    requires |rest| > 0 && !IsDigit(rest[0]) && rest[0] != ','
    ensures ReadRange(RangeText(start, count) + rest) == Some((start, count, rest))
  {
    DecValueDec(start);
    DecValueDec(count);
    if count == 1 {
      ReadStart(Dec(start), rest);
    } else {
      ReadStartAndCount(Dec(start), Dec(count), rest);
      assert Dec(start) + ("," + Dec(count)) + rest == Dec(start) + ("," + (Dec(count) + rest));
    }
  }

  lemma ReadStart(start: string, rest: string)
    requires AllDigits(start) && |start| > 0 && |rest| > 0 && !IsDigit(rest[0]) && rest[0] != ','
    ensures ReadRange(start + rest) == Some((DecValue(start), 1, rest))
  {
    var s := start + rest;
    DigitRunOf(start, rest);
    assert s[..|start|] == start && s[|start|..] == rest && rest[0..] == rest;
  }

  lemma ReadStartAndCount(start: string, count: string, rest: string)
    requires AllDigits(start) && |start| > 0 && AllDigits(count) && |count| > 0
    requires |rest| > 0 && !IsDigit(rest[0])
    ensures ReadRange(start + ("," + (count + rest))) == Some((DecValue(start), DecValue(count), rest))
  {
    var tail := count + rest;
    var s := start + ("," + tail);
    DigitRunOf(start, "," + tail);
    DigitRunOf(count, rest);
    assert s[..|start|] == start && s[|start| + 1..] == tail;
    assert tail[..|count|] == count && tail[|count|..] == rest;
  }

  /** Headers as git prints them say what was printed. */
  lemma ReadHeaderText(oldStart: nat, oldCount: nat, newStart: nat, newCount: nat, rest: string)
    ensures ReadHeader(HeaderText(oldStart, oldCount, newStart, newCount, rest))
            == Some(Nums(oldStart, oldCount, newStart, newCount))
  {
    var tail := " @@" + rest;
    var middle := " +" + (RangeText(newStart, newCount) + tail);
    ReadRangeText(oldStart, oldCount, middle);
    ReadRangeText(newStart, newCount, tail);
    var line := HeaderText(oldStart, oldCount, newStart, newCount, rest);
    assert line[4..] == RangeText(oldStart, oldCount) + middle;
    assert middle[2..] == RangeText(newStart, newCount) + tail;
  }

  /** The shortest header git prints. */
  lemma OneLineHeader()
    ensures ReadHeader("@@ -1 +1 @@") == Some(Nums(1, 1, 1, 1))
  {
    ReadHeaderText(1, 1, 1, 1, "");
    OneByOne(Dec(1));
  }

  lemma OneByOne(one: string)
    requires one == "1"
    ensures "@@ -" + (one + (" +" + (one + (" @@" + "")))) == "@@ -1 +1 @@"
  {}

  /** A hunk of two lines that replaces `gone` by `come`. */
  function Replacing(header: string, gone: string, come: string): Hunk {
    Hunk(header, Nums(1, 1, 1, 1), BothLines(gone, come))
  }

  function BothLines(gone: string, come: string): seq<DiffLine> {
    [DiffLine(Removed, gone, Some(1), None), DiffLine(Added, come, None, Some(1))]
  }

  /** Replacing the line `--` by `++` is read as no change at all. */
  lemma DoubledSignsAreLost(header: string, gone: string, come: string)
    requires header == "@@ -1 +1 @@" && gone == "--" && come == "++"
    ensures ParseDiff(PrintDiff([], [Replacing(header, gone, come)])) == []
  {
    OneLineHeader();
    OneLineText(header);
    NeitherKept(gone, come);
    ReplacingProper(header, gone, come);
    NothingSurvives(Replacing(header, gone, come));
  }

  lemma OneLineText(header: string)
    requires header == "@@ -1 +1 @@"
    ensures "@@" <= header && '\n' !in header
  {
    assert header[0] == '@' && header[1] == '@';
  }

  lemma NeitherKept(gone: string, come: string)
    requires gone == "--" && come == "++"
    ensures '\n' !in gone && '\n' !in come
    ensures !Kept(BothLines(gone, come)[0]) && !Kept(BothLines(gone, come)[1])
  {}

  lemma ReplacingProper(header: string, gone: string, come: string)
    requires "@@" <= header && '\n' !in header && ReadHeader(header) == Some(Nums(1, 1, 1, 1))
    requires '\n' !in gone && '\n' !in come
    ensures Proper(Replacing(header, gone, come))
  {
    ReplacingRunsOn(BothLines(gone, come));
  }

  lemma ReplacingRunsOn(lines: seq<DiffLine>)
    requires |lines| == 2 && lines[0].change == Removed && lines[1].change == Added
    requires lines[0].oldNum == Some(1) && lines[0].newNum == None
    requires lines[1].oldNum == None && lines[1].newNum == Some(1)
    ensures RunsOn(lines, Nums(1, 1, 1, 1))
  {
    TwoSides(lines[0], lines[1]);
    assert lines == [lines[0], lines[1]];
  }

  lemma TwoSides(lost: DiffLine, extra: DiffLine)
    requires lost.change == Removed && extra.change == Added
    ensures OldSide([lost, extra]) == [lost] && NewSide([lost, extra]) == [extra]
  {
    assert [lost, extra][..1] == [lost] && [lost][..0] == [];
    assert OldSide([lost]) == [lost] && NewSide([lost]) == [];
  }

  lemma NothingSurvives(h: Hunk)
    requires Proper(h) && |h.lines| == 2 && !Kept(h.lines[0]) && !Kept(h.lines[1])
    ensures ParseDiff(PrintDiff([], [h])) == []
  {
    assert h.lines[..1][..0] == [] && h.lines[..1][0] == h.lines[0];
    assert KeptLines(h.lines[..1]) == [] && KeptLines(h.lines) == [];
    ReadingPrinted([], [h]);
    assert [h][..0] == [];
  }

  // ---- headers that are none --------------------------------------------------------------------------

  /** A comma without a count behind it is passed over. */
  lemma LooseRange(start: nat, rest: string)
    requires |rest| > 0 && !IsDigit(rest[0])
    ensures ReadRange(Dec(start) + ("," + rest)) == Some((start, 1, rest))
  {
    var s := Dec(start) + ("," + rest);
    DigitRunOf(Dec(start), "," + rest);
    DigitRunOf("", rest);
    assert "" + rest == rest;
    assert s[..|Dec(start)|] == Dec(start) && s[|Dec(start)| + 1..] == rest && rest[0..] == rest;
    DecValueDec(start);
  }

  /** Lines before any header make a hunk without one, numbered from 0. */
  lemma HeaderlessLine(content: string)
    requires '\n' !in content
    ensures ParseDiff(" " + content) == [Hunk("", Nums(0, 0, 0, 0), [DiffLine(Context, content, Some(0), Some(0))])]
  {
    var line := " " + content;
    SplitJoin([line], '\n');
    var none: seq<string> := [];
    assert [line][..0] == none && Join([line], '\n') == line;
    ContextStep(Start(), content);
    assert Steps(Start(), [line]) == LineStep(Start(), line);
  }

  /** A header that cannot be read opens a hunk with the numbers of the last one that could. */
  lemma UnreadableHeader(header: string, bad: string, x: string, y: string)
    requires "@@" <= header && "@@" <= bad && '\n' !in header && '\n' !in bad && '\n' !in x && '\n' !in y
    requires ReadHeader(header).Some? && ReadHeader(bad).None?
    ensures var nums := ReadHeader(header).value;
            ParseDiff(Join([header, " " + x, bad, " " + y], '\n'))
            == [Hunk(header, nums, [DiffLine(Context, x, Some(nums.oldStart), Some(nums.newStart))]),
                Hunk(bad, nums, [DiffLine(Context, y, Some(nums.oldStart), Some(nums.newStart))])]
  {
    var nums := ReadHeader(header).value;
    var lines := [header, " " + x, bad, " " + y];
    SplitJoin(lines, '\n');
    FourSteps(header, " " + x, bad, " " + y);
    ContextStep(Reader([], [], header, nums), x);
    BadHeaderStep(header, bad, nums, [DiffLine(Context, x, Some(nums.oldStart), Some(nums.newStart))]);
    var h := Hunk(header, nums, [DiffLine(Context, x, Some(nums.oldStart), Some(nums.newStart))]);
    ContextStep(Reader([h], [], bad, nums), y);
  }

  lemma BadHeaderStep(header: string, bad: string, nums: Nums, lines: seq<DiffLine>)
    requires "@@" <= bad && ReadHeader(bad).None? && |lines| > 0
    ensures LineStep(Reader([], lines, header, nums), bad) == Reader([Hunk(header, nums, lines)], [], bad, nums)
  {
    assert [] + [Hunk(header, nums, lines)] == [Hunk(header, nums, lines)];
  }

  lemma FourSteps(a: string, b: string, c: string, d: string)
    ensures Steps(Start(), [a, b, c, d]) == LineStep(LineStep(LineStep(LineStep(Start(), a), b), c), d)
  {
    StepsSnoc(Start(), [a, b, c], d);
    StepsSnoc(Start(), [a, b], c);
    StepsSnoc(Start(), [a], b);
    StepsSnoc(Start(), [], a);
    var none: seq<string> := [];
    assert [a, b, c] + [d] == [a, b, c, d] && [a, b] + [c] == [a, b, c] && [a] + [b] == [a, b] && none + [a] == [a];
  }

  lemma ContextStep(r: Reader, content: string)
    requires r.lines == []
    ensures LineStep(r, " " + content)
            == r.(lines := [DiffLine(Context, content, Some(r.nums.oldStart), Some(r.nums.newStart))])
  {
    var line := " " + content;
    assert line[0] == ' ' && line[1..] == content;
    assert [] + [Numbered(r.nums, [], Context, content)] == [Numbered(r.nums, [], Context, content)];
  }
}
