/** What a merged coverage file says about its inputs: every line's count is the highest in any input, the
    files come in first-seen order, and the sums that `ci/coverage_gate.sh` forms count every line once. */
module LcovGate {
  import opened Common
  import opened Text
  import opened Lcov
  import opened LcovLaws

  // ---- what the inputs say, read off their lines alone ---------------------------------------------

  /** One `DA` line inside a record. */
  datatype Entry = Entry(sf: string, num: int, hits: int)

  /** The record open after `lines`. */
  function Opened(lines: seq<string>): Option<string> {
    if |lines| == 0 then None else OpenedBy(Opened(lines[..|lines| - 1]), lines[|lines| - 1])
  }

  function OpenedBy(cur: Option<string>, line: string): Option<string> {
    if "SF:" <= line then Some(line[3..]) else if line == "end_of_record" then None else cur
  }

  /** What `line` adds inside the record of `cur`. */
  function EntryOf(cur: Option<string>, line: string): seq<Entry> {
    if "DA:" <= line && cur.Some? && ParseDa(line[3..]).Some?
    then [Entry(cur.value, ParseDa(line[3..]).value.0, ParseDa(line[3..]).value.1)]
    else []
  }

  function Entries(lines: seq<string>): seq<Entry> {
    if |lines| == 0 then []
    else
      var n := |lines| - 1;
      Entries(lines[..n]) + EntryOf(Opened(lines[..n]), lines[n])
  }

  /** The names on the `SF` lines, in order. */
  function Names(lines: seq<string>): seq<string> {
    if |lines| == 0 then []
    else
      var n := |lines| - 1;
      Names(lines[..n]) + (if "SF:" <= lines[n] then [lines[n][3..]] else [])
  }

  function AllEntries(texts: seq<string>): seq<Entry> {
    if |texts| == 0 then []
    else AllEntries(texts[..|texts| - 1]) + Entries(Lines(texts[|texts| - 1]))
  }

  function AllNames(texts: seq<string>): seq<string> {
    if |texts| == 0 then []
    else AllNames(texts[..|texts| - 1]) + Names(Lines(texts[|texts| - 1]))
  }

  /** Each name where it is seen first. */
  function FirstSeen(names: seq<string>): (q: seq<string>)
    ensures forall x :: x in q <==> x in names
    ensures Distinct(q)
  {
    if |names| == 0 then []
    else
      var n := |names| - 1;
      var q := FirstSeen(names[..n]);
      assert names == names[..n] + [names[n]];
      if names[n] in q then q else q + [names[n]]
  }

  ghost predicate Mentions(es: seq<Entry>, sf: string, num: int, hits: int) {
    Entry(sf, num, hits) in es
  }

  /** The highest count of a line, and at least 0; `None` if no entry is about it. */
  function Best(es: seq<Entry>, sf: string, num: int): (b: Option<int>)
    ensures b.Some? <==> exists h :: Mentions(es, sf, num, h)
    ensures b.Some? ==> forall h :: Mentions(es, sf, num, h) ==> h <= b.value
    ensures b.Some? ==> b.value == 0 || (b.value > 0 && Mentions(es, sf, num, b.value))
  {
    if |es| == 0 then None
    else
      var n := |es| - 1;
      var b := Best(es[..n], sf, num);
      assert es == es[..n] + [es[n]];
      assert forall h :: Mentions(es, sf, num, h) <==> Mentions(es[..n], sf, num, h) || es[n] == Entry(sf, num, h);
      if es[n].sf != sf || es[n].num != num then b
      else
        assert Mentions(es, sf, num, es[n].hits);
        Some(Max(if b.Some? then b.value else 0, es[n].hits))
  }

  // ---- the table agrees ----------------------------------------------------------------------------

  function CountOf(t: Table, sf: string, num: int): Option<int> {
    if sf in t.files && num in t.files[sf] then Some(t.files[sf][num]) else None
  }

  ghost predicate Agrees(t: Table, es: seq<Entry>, names: seq<string>) {
    && t.order == FirstSeen(names)
    && (forall sf :: sf in t.files <==> sf in names)
    && forall sf, num :: CountOf(t, sf, num) == Best(es, sf, num)
  }

  lemma OpenAgrees(t: Table, es: seq<Entry>, names: seq<string>, sf: string)
    requires Agrees(t, es, names)
    ensures Agrees(Open(t, sf), es, names + [sf])
  {
    assert (names + [sf])[..|names|] == names;
    var t' := Open(t, sf);
    forall f, num ensures CountOf(t', f, num) == Best(es, f, num) {
      assert CountOf(t', f, num) == CountOf(t, f, num);
    }
  }

  lemma CountAgrees(t: Table, es: seq<Entry>, names: seq<string>, e: Entry)
    requires Agrees(t, es, names) && e.sf in t.files
    ensures Agrees(Count(t, e.sf, e.num, e.hits), es + [e], names)
  {
    assert (es + [e])[..|es|] == es;
    var t' := Count(t, e.sf, e.num, e.hits);
    assert t'.order == t.order && t'.files.Keys == t.files.Keys;
    forall f, num ensures CountOf(t', f, num) == Best(es + [e], f, num) {
      var before := CountOf(t, f, num);
      assert before == Best(es, f, num);
      assert CountOf(t', f, num) == if f == e.sf && num == e.num then
          Some(Max(if before.Some? then before.value else 0, e.hits)) else before;
    }
  }

  lemma {:induction false} StepsAgree(t: Table, lines: seq<string>, es: seq<Entry>, names: seq<string>)
    requires Agrees(t, es, names)
    requires Steps(State(t, None), lines).Some?
    ensures var s := Steps(State(t, None), lines).value;
            s.cur == Opened(lines) && Agrees(s.table, es + Entries(lines), names + Names(lines))
  {
    if |lines| == 0 {
      AppendNothing(es);
      AppendNothing(names);
    } else {
      var n := |lines| - 1;
      StepsAgree(t, lines[..n], es, names);
      LineAgrees(Steps(State(t, None), lines[..n]).value, lines[n], es + Entries(lines[..n]), names + Names(lines[..n]));
      AppendAssoc(es, Entries(lines[..n]), EntryOf(Opened(lines[..n]), lines[n]));
      NamesSnoc(lines, names);
      OpenedAfterLine(Steps(State(t, None), lines[..n]).value, lines[n]);
    }
  }

  lemma OpenedAfterLine(s: State, line: string)
    requires Consistent(s) && LineStep(s, line).Some?
    ensures LineStep(s, line).value.cur == OpenedBy(s.cur, line)
  {
    if "DA:" <= line { assert line[0] == 'D'; }
    if line == "end_of_record" { assert line[0] == 'e'; }
  }

  lemma NamesSnoc(lines: seq<string>, names: seq<string>)
    requires |lines| > 0
    ensures var n := |lines| - 1;
            names + Names(lines) == if "SF:" <= lines[n] then (names + Names(lines[..n])) + [lines[n][3..]]
                                    else names + Names(lines[..n])
  {
    var n := |lines| - 1;
    assert Names(lines[..n]) + [] == Names(lines[..n]);
  }

  lemma LineAgrees(s: State, line: string, es: seq<Entry>, names: seq<string>)
    requires Consistent(s) && Agrees(s.table, es, names) && LineStep(s, line).Some?
    ensures Agrees(LineStep(s, line).value.table, es + EntryOf(s.cur, line),
                   if "SF:" <= line then names + [line[3..]] else names)
  {
    assert es + [] == es;
    if "SF:" <= line {
      assert line[0] == 'S';
      OpenAgrees(s.table, es, names, line[3..]);
    } else if "DA:" <= line && s.cur.Some? {
      var da := ParseDa(line[3..]).value;
      CountAgrees(s.table, es, names, Entry(s.cur.value, da.0, da.1));
    }
  }

  lemma {:induction false} AllAgree(texts: seq<string>)
    requires AbsorbAll(EmptyTable(), texts).Some?
    ensures Agrees(AbsorbAll(EmptyTable(), texts).value, AllEntries(texts), AllNames(texts))
  {
    if |texts| > 0 {
      var n := |texts| - 1;
      AllAgree(texts[..n]);
      StepsAgree(AbsorbAll(EmptyTable(), texts[..n]).value, Lines(texts[n]), AllEntries(texts[..n]), AllNames(texts[..n]));
    }
  }

  /** The merged file, read again: its records are the inputs' files in first-seen order, and every line
      of every input carries its highest count. */
  lemma MergedSaysTheHighest(texts: seq<string>)
    requires Merge(texts).Some?
    ensures var out := Lines(Merge(texts).value);
            && Names(out) == FirstSeen(AllNames(texts))
            && forall sf, num :: Best(Entries(out), sf, num) == Best(AllEntries(texts), sf, num)
  {
    MergedNames(texts);
    MergedCounts(texts);
  }

  lemma MergedNames(texts: seq<string>)
    requires Merge(texts).Some?
    ensures Names(Lines(Merge(texts).value)) == FirstSeen(AllNames(texts))
  {
    AllAgree(texts);
    AllKeepProper(EmptyTable(), texts);
    NamesPrinted(AbsorbAll(EmptyTable(), texts).value);
  }

  lemma MergedCounts(texts: seq<string>)
    requires Merge(texts).Some?
    ensures var out := Lines(Merge(texts).value);
            forall sf, num :: Best(Entries(out), sf, num) == Best(AllEntries(texts), sf, num)
  {
    var out := Merge(texts).value;
    AllAgree(texts);
    MergedReadsBack(texts);
    AllAgree([out]);
    OneFile(out);
    SameBest(AbsorbAll(EmptyTable(), texts).value, AllEntries(texts), AllNames(texts), Entries(Lines(out)), Names(Lines(out)));
  }

  lemma OneFile(text: string)
    ensures AllEntries([text]) == Entries(Lines(text)) && AllNames([text]) == Names(Lines(text))
  {
    assert [text][..0] == [];
    assert [] + Entries(Lines(text)) == Entries(Lines(text)) && [] + Names(Lines(text)) == Names(Lines(text));
  }

  lemma SameBest(t: Table, es: seq<Entry>, names: seq<string>, es': seq<Entry>, names': seq<string>)
    requires Agrees(t, es, names) && Agrees(t, es', names')
    ensures forall sf, num :: Best(es', sf, num) == Best(es, sf, num)
  {
    forall sf, num ensures Best(es', sf, num) == Best(es, sf, num) {
      assert CountOf(t, sf, num) == Best(es', sf, num);
    }
  }

  lemma NamesPrinted(t: Table)
    requires Proper(t) && Ordered(t)
    ensures Names(Lines(Print(t))) == t.order
  {
    OutLinesClean(t, t.order);
    PrintedLines(OutLines(t, t.order));
    NamesOut(t, t.order);
    if |t.order| == 0 {
      assert Names([""]) == Names([""][..0]) + [];
    } else {
      OutLinesSome(t, t.order);
    }
  }

  lemma {:induction false} NamesConcat(p: seq<string>, q: seq<string>)
    ensures Names(p + q) == Names(p) + Names(q)
  {
    if |q| == 0 {
      assert p + q == p;
    } else {
      var n := |q| - 1;
      NamesConcat(p, q[..n]);
      assert (p + q)[..|p + q| - 1] == p + q[..n];
      assert (p + q)[|p + q| - 1] == q[n];
    }
  }

  lemma {:induction false} NoNames(lines: seq<string>)
    requires forall i :: 0 <= i < |lines| ==> |lines[i]| > 0 && lines[i][0] != 'S'
    ensures Names(lines) == []
  {
    if |lines| > 0 { NoNames(lines[..|lines| - 1]); }
  }

  lemma OtherLines(da: map<int, int>, nums: seq<int>, lf: nat, lh: nat)
    requires forall i :: 0 <= i < |nums| ==> nums[i] in da
    ensures forall i :: 0 <= i < |nums| ==> |DaLines(da, nums)[i]| > 0 && DaLines(da, nums)[i][0] == 'D'
    ensures ("LF:" + Dec(lf))[0] == 'L' && ("LH:" + Dec(lh))[0] == 'L' && "end_of_record"[0] == 'e'
  {
    forall i | 0 <= i < |nums| ensures |DaLines(da, nums)[i]| > 0 && DaLines(da, nums)[i][0] == 'D' {
      DaLineRead(da, nums[i]);
    }
  }

  lemma NamesRecord(sf: string, da: map<int, int>)
    ensures Names(Record(sf, da)) == [sf]
  {
    var nums := Sorted(da.Keys);
    var first, lf, lh, end := Framing(State(EmptyTable(), None), sf, |da|, |Hits(da)|);
    OtherLines(da, nums, |da|, |Hits(da)|);
    NamesFirst(first, sf);
    NamesParts(first, sf, DaLines(da, nums), [lf, lh, end]);
  }

  lemma NamesParts(first: string, sf: string, lines: seq<string>, last: seq<string>)
    requires Names([first]) == [sf]
    requires forall i :: 0 <= i < |lines| ==> |lines[i]| > 0 && lines[i][0] != 'S'
    requires forall i :: 0 <= i < |last| ==> |last[i]| > 0 && last[i][0] != 'S'
    ensures Names([first] + lines + last) == [sf]
  {
    NoNames(lines);
    NoNames(last);
    NamesConcat([first] + lines, last);
    NamesConcat([first], lines);
  }

  lemma NamesFirst(first: string, sf: string)
    requires first == "SF:" + sf
    ensures Names([first]) == [sf]
  {
    assert first[3..] == sf;
    assert [first][..0] == [];
  }

  lemma {:induction false} NamesOut(t: Table, order: seq<string>)
    requires forall i :: 0 <= i < |order| ==> order[i] in t.files
    ensures Names(OutLines(t, order)) == order
  {
    if |order| > 0 {
      var n := |order| - 1;
      NamesOut(t, order[..n]);
      NamesRecord(order[n], t.files[order[n]]);
      NamesConcat(OutLines(t, order[..n]), Record(order[n], t.files[order[n]]));
      LastApart(order);
    }
  }

  // ---- the gate --------------------------------------------------------------------------------------

  function LeadingDigits(s: string): (r: string)
    ensures AllDigits(r)
  {
    if |s| > 0 && IsDigit(s[0]) then [s[0]] + LeadingDigits(s[1..]) else ""
  }

  /** awk's number of the second `:`-field; the gate only meets plain digits there. */
  function SecondField(line: string): nat {
    var fields := Split(line, ':');
    if |fields| < 2 then 0 else DecValue(LeadingDigits(fields[1]))
  }

  /** The gate's sum over the lines that start with `tag`. */
  function GateSum(tag: string, lines: seq<string>): nat {
    if |lines| == 0 then 0
    else
      var n := |lines| - 1;
      GateSum(tag, lines[..n]) + (if tag <= lines[n] then SecondField(lines[n]) else 0)
  }

  lemma {:induction false} GateConcat(tag: string, p: seq<string>, q: seq<string>)
    ensures GateSum(tag, p + q) == GateSum(tag, p) + GateSum(tag, q)
  {
    if |q| == 0 {
      assert p + q == p;
    } else {
      var n := |q| - 1;
      GateConcat(tag, p, q[..n]);
      assert (p + q)[..|p + q| - 1] == p + q[..n];
      assert (p + q)[|p + q| - 1] == q[n];
    }
  }

  lemma {:induction false} GateSkips(tag: string, lines: seq<string>)
    requires |tag| > 0
    requires forall i :: 0 <= i < |lines| ==> |lines[i]| > 0 && lines[i][0] != tag[0]
    ensures GateSum(tag, lines) == 0
  {
    if |lines| > 0 { GateSkips(tag, lines[..|lines| - 1]); }
  }

  lemma {:induction false} LeadingAll(s: string)
    requires AllDigits(s)
    ensures LeadingDigits(s) == s
  {
    if |s| > 0 { LeadingAll(s[1..]); }
  }

  lemma SecondFieldOf(name: string, line: string, n: nat)
    requires ':' !in name && line == name + [':'] + Dec(n)
    ensures SecondField(line) == n
  {
    IntTextChars(n);
    forall c | c in Dec(n) ensures c != ':' {
      var i :| 0 <= i < |Dec(n)| && Dec(n)[i] == c;
    }
    SplitPiece(name, Dec(n), ':');
    SplitWhole(Dec(n), ':');
    LeadingAll(Dec(n));
    DecValueDec(n);
  }

  /** The tag of the sum, and the lines of a file that it counts. */
  function TagOf(hit: bool): string { if hit then "LH:" else "LF:" }

  function Chosen(hit: bool, da: map<int, int>): set<int> { if hit then Hits(da) else da.Keys }

  lemma GateThree(hit: bool, lf: nat, lh: nat, a: string, b: string, c: string)
    requires a == "LF:" + Dec(lf) && b == "LH:" + Dec(lh) && c == "end_of_record"
    ensures GateSum(TagOf(hit), [a, b, c]) == if hit then lh else lf
  {
    assert a == "LF" + [':'] + Dec(lf) && b == "LH" + [':'] + Dec(lh);
    SecondFieldOf("LF", a, lf);
    SecondFieldOf("LH", b, lh);
    assert a[0] == 'L' && a[1] == 'F' && b[0] == 'L' && b[1] == 'H' && c[0] == 'e';
    assert a[..3] == "LF:" && b[..3] == "LH:";
    GateStep(TagOf(hit), a, b, c);
  }

  lemma GateStep(tag: string, a: string, b: string, c: string)
    ensures GateSum(tag, [a, b, c]) == (if tag <= a then SecondField(a) else 0)
                                       + (if tag <= b then SecondField(b) else 0)
                                       + (if tag <= c then SecondField(c) else 0)
  {
    assert [a, b, c][..2] == [a, b] && [a, b][..1] == [a] && [a][..0] == [];
    assert GateSum(tag, [a]) == if tag <= a then SecondField(a) else 0;
    assert GateSum(tag, [a, b]) == GateSum(tag, [a]) + if tag <= b then SecondField(b) else 0;
  }

  lemma GateRecord(hit: bool, sf: string, da: map<int, int>)
    ensures GateSum(TagOf(hit), Record(sf, da)) == |Chosen(hit, da)|
  {
    var nums := Sorted(da.Keys);
    var first, lf, lh, end := Framing(State(EmptyTable(), None), sf, |da|, |Hits(da)|);
    OtherLines(da, nums, |da|, |Hits(da)|);
    GateThree(hit, |da|, |Hits(da)|, lf, lh, end);
    assert first[0] == 'S';
    GateParts(TagOf(hit), first, DaLines(da, nums), [lf, lh, end]);
    assert |da| == |da.Keys|;
  }

  lemma GateParts(tag: string, first: string, lines: seq<string>, last: seq<string>)
    requires |tag| > 0 && tag[0] == 'L' && |first| > 0 && first[0] == 'S'
    requires forall i :: 0 <= i < |lines| ==> |lines[i]| > 0 && lines[i][0] == 'D'
    ensures GateSum(tag, [first] + lines + last) == GateSum(tag, last)
  {
    GateSkips(tag, lines);
    GateSkips(tag, [first]);
    GateConcat(tag, [first] + lines, last);
    GateConcat(tag, [first], lines);
  }

  function PairsWith(sf: string, nums: set<int>): set<(string, int)> {
    set num | num in nums :: (sf, num)
  }

  lemma {:induction false} PairsWithSize(sf: string, nums: set<int>)
    ensures |PairsWith(sf, nums)| == |nums|
    decreases |nums|
  {
    if |nums| == 0 {
      assert PairsWith(sf, nums) == {};
    } else {
      var num := Min(nums);
      PairsWithSize(sf, nums - {num});
      assert PairsWith(sf, nums) == PairsWith(sf, nums - {num}) + {(sf, num)};
    }
  }

  function TablePairs(hit: bool, t: Table, order: seq<string>): set<(string, int)> {
    set i, num | 0 <= i < |order| && num in Chosen(hit, DaOf(t, order[i])) :: (order[i], num)
  }

  lemma {:induction false} GateOut(hit: bool, t: Table, order: seq<string>)
    requires Distinct(order) && forall i :: 0 <= i < |order| ==> order[i] in t.files
    ensures GateSum(TagOf(hit), OutLines(t, order)) == |TablePairs(hit, t, order)|
  {
    if |order| == 0 {
      assert TablePairs(hit, t, order) == {};
    } else {
      var n := |order| - 1;
      GateOut(hit, t, order[..n]);
      GateRecord(hit, order[n], t.files[order[n]]);
      GateConcat(TagOf(hit), OutLines(t, order[..n]), Record(order[n], t.files[order[n]]));
      PairsWithSize(order[n], Chosen(hit, t.files[order[n]]));
      TablePairsSnoc(hit, t, order);
    }
  }

  lemma TablePairsSnoc(hit: bool, t: Table, order: seq<string>)
    requires |order| > 0 && Distinct(order) && order[|order| - 1] in t.files
    ensures var n := |order| - 1;
            |TablePairs(hit, t, order)|
            == |TablePairs(hit, t, order[..n])| + |PairsWith(order[n], Chosen(hit, t.files[order[n]]))|
  {
    var n := |order| - 1;
    var fewer, more := TablePairs(hit, t, order[..n]), PairsWith(order[n], Chosen(hit, t.files[order[n]]));
    forall p | p in TablePairs(hit, t, order) ensures p in fewer + more {
      var i, num :| 0 <= i < |order| && num in Chosen(hit, DaOf(t, order[i])) && p == (order[i], num);
      if i < n { assert order[..n][i] == order[i]; }
    }
    forall p | p in fewer + more ensures p in TablePairs(hit, t, order) {
      if p in fewer {
        var i, num :| 0 <= i < n && num in Chosen(hit, DaOf(t, order[..n][i])) && p == (order[..n][i], num);
        assert order[..n][i] == order[i];
      } else {
        assert DaOf(t, order[n]) == t.files[order[n]];
      }
    }
    assert TablePairs(hit, t, order) == fewer + more;
    assert fewer !! more;
  }

  /** The lines of the inputs, as pairs of file and line; with `hit`, those that some input hit. */
  function Pairs(hit: bool, es: seq<Entry>): set<(string, int)> {
    set i | 0 <= i < |es| && (hit ==> es[i].hits > 0) :: (es[i].sf, es[i].num)
  }

  lemma PairsAreBest(hit: bool, es: seq<Entry>, sf: string, num: int)
    ensures (sf, num) in Pairs(hit, es) <==> Best(es, sf, num).Some? && (hit ==> Best(es, sf, num).value > 0)
  {
    var b := Best(es, sf, num);
    if (sf, num) in Pairs(hit, es) {
      var i :| 0 <= i < |es| && (hit ==> es[i].hits > 0) && (sf, num) == (es[i].sf, es[i].num);
      assert es[i] in es && Mentions(es, sf, num, es[i].hits);
    }
    if b.Some? && (hit ==> b.value > 0) {
      var h := if hit then b.value else (var h :| Mentions(es, sf, num, h); h);
      assert Mentions(es, sf, num, h);
      var i :| 0 <= i < |es| && es[i] == Entry(sf, num, h);
      assert (es[i].sf, es[i].num) in Pairs(hit, es);
    }
  }

  /** The gate never double-counts: over the merged file its `LF` sum is the number of distinct lines in
      all inputs, and its `LH` sum the number of those that at least one input hit. */
  lemma GateCountsOnce(texts: seq<string>, hit: bool)
    requires Merge(texts).Some?
    ensures GateSum(TagOf(hit), Lines(Merge(texts).value)) == |Pairs(hit, AllEntries(texts))|
  {
    var t := AbsorbAll(EmptyTable(), texts).value;
    AllKeepProper(EmptyTable(), texts);
    AllAgree(texts);
    GateOut(hit, t, t.order);
    SamePairs(hit, t, AllEntries(texts), AllNames(texts));
    OutLinesClean(t, t.order);
    PrintedLines(OutLines(t, t.order));
    if |t.order| == 0 {
      assert GateSum(TagOf(hit), [""]) == GateSum(TagOf(hit), [""][..0]);
    } else {
      OutLinesSome(t, t.order);
    }
  }

  lemma SamePairs(hit: bool, t: Table, es: seq<Entry>, names: seq<string>)
    requires Proper(t) && Agrees(t, es, names)
    ensures TablePairs(hit, t, t.order) == Pairs(hit, es)
  {
    forall sf, num ensures (sf, num) in TablePairs(hit, t, t.order) <==> (sf, num) in Pairs(hit, es) {
      PairsAreBest(hit, es, sf, num);
      assert CountOf(t, sf, num) == Best(es, sf, num);
      if CountOf(t, sf, num).Some? {
        assert sf in t.order;
        var i :| 0 <= i < |t.order| && t.order[i] == sf;
        assert num in Chosen(hit, DaOf(t, t.order[i])) <==> (hit ==> t.files[sf][num] > 0);
      }
    }
    assert forall p :: p in TablePairs(hit, t, t.order) <==> (p.0, p.1) in Pairs(hit, es);
  }
}
