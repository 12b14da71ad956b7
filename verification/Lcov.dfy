/** The coverage merge of `ci/merge_lcov.py`: parse any number of lcov files into one table, keep the
    highest hit count of every line, and print the table. */
module Lcov {
  import opened Common
  import opened Text

  /** `files` and `order` of the script: hit counts by source file and line, files in first-seen order. */
  datatype Table = Table(files: map<string, map<int, int>>, order: seq<string>)

  /** The table and the source file of the open record. */
  datatype State = State(table: Table, cur: Option<string>)

  // ---- reading ------------------------------------------------------------------------------------

  /** Universal newlines: `\r\n` and `\r` are read as `\n`. */
  function Normalise(s: string): string {
    if |s| == 0 then ""
    else if s[0] != '\r' then [s[0]] + Normalise(s[1..])
    else ['\n'] + Normalise(if |s| > 1 && s[1] == '\n' then s[2..] else s[1..])
  }

  /** The lines of a text file, without their newlines. */
  function Lines(text: string): seq<string> {
    var parts := Split(Normalise(text), '\n');
    if parts[|parts| - 1] == "" then parts[..|parts| - 1] else parts
  }

  /** Decimal digits, with single underscores between them. */
  predicate IsNumeral(s: string) {
    && |s| > 0 && IsDigit(s[0]) && IsDigit(s[|s| - 1])
    && (forall i :: 0 <= i < |s| ==> IsDigit(s[i]) || s[i] == '_')
    && (forall i :: 0 <= i < |s| - 1 ==> IsDigit(s[i]) || IsDigit(s[i + 1]))
  }

  function DigitsOnly(s: string): (r: string)
    ensures AllDigits(r)
  {
    if |s| == 0 then ""
    else DigitsOnly(s[..|s| - 1]) + (if IsDigit(s[|s| - 1]) then [s[|s| - 1]] else "")
  }

  /** Python's `int()` on a string, `None` for a `ValueError`. */
  function PyInt(s: string): Option<int> {
    var t := StripRight(StripLeft(s));
    var body := if |t| > 0 && (t[0] == '-' || t[0] == '+') then t[1..] else t;
    if !IsNumeral(body) then None
    else
      var n: int := DecValue(DigitsOnly(body));
      Some(if t[0] == '-' then -n else n)
  }

  function CommaAt(s: string): (i: nat)
    ensures i <= |s|
    ensures i < |s| ==> s[i] == ','
    ensures ',' !in s[..i]
  {
    if |s| == 0 || s[0] == ',' then 0 else 1 + CommaAt(s[1..])
  }

  /** The two numbers of a `DA` line after its tag. */
  function ParseDa(s: string): Option<(int, int)> {
    var i := CommaAt(s);
    var num := PyInt(s[..i]);
    var hits := PyInt(if i < |s| then s[i + 1..] else "");
    if num.Some? && hits.Some? then Some((num.value, hits.value)) else None
  }

  function Max(a: int, b: int): int { if a >= b then a else b }

  function Get(da: map<int, int>, num: int): int { if num in da then da[num] else 0 }

  function Open(t: Table, sf: string): Table {
    if sf in t.files then t else Table(t.files[sf := map[]], t.order + [sf])
  }

  function Count(t: Table, sf: string, num: int, hits: int): Table
    requires sf in t.files
  {
    var da := t.files[sf];
    t.(files := t.files[sf := da[num := Max(Get(da, num), hits)]])
  }

  ghost predicate Consistent(s: State) {
    s.cur.Some? ==> s.cur.value in s.table.files
  }

  /** One line of a file; `None` when a number does not parse. */
  function LineStep(s: State, line: string): (r: Option<State>)
    requires Consistent(s)
    ensures r.Some? ==> Consistent(r.value)
  {
    if "SF:" <= line then Some(State(Open(s.table, line[3..]), Some(line[3..])))
    else if "DA:" <= line && s.cur.Some? then
      var da := ParseDa(line[3..]);
      if da.None? then None
      else Some(s.(table := Count(s.table, s.cur.value, da.value.0, da.value.1)))
    else if line == "end_of_record" then Some(s.(cur := None))
    else Some(s)
  }

  function Steps(s: State, lines: seq<string>): (r: Option<State>)
    requires Consistent(s)
    ensures r.Some? ==> Consistent(r.value)
  {
    if |lines| == 0 then Some(s)
    else
      var r := Steps(s, lines[..|lines| - 1]);
      if r.None? then None else LineStep(r.value, lines[|lines| - 1])
  }

  /** One file read into the table; every file starts outside a record. */
  function Absorb(t: Table, text: string): Option<Table> {
    var r := Steps(State(t, None), Lines(text));
    if r.None? then None else Some(r.value.table)
  }

  function EmptyTable(): Table { Table(map[], []) }

  function AbsorbAll(t: Table, texts: seq<string>): Option<Table> {
    if |texts| == 0 then Some(t)
    else
      var r := AbsorbAll(t, texts[..|texts| - 1]);
      if r.None? then None else Absorb(r.value, texts[|texts| - 1])
  }

  // ---- printing -----------------------------------------------------------------------------------

  lemma {:induction false} MinExists(s: set<int>)
    requires |s| > 0
    ensures exists m :: m in s && forall x :: x in s ==> m <= x
    decreases |s|
  {
    assert (forall x :: x !in s) ==> s == {};
    var e :| e in s;
    var rest := s - {e};
    if |rest| == 0 {
      assert forall x :: x in s ==> x == e || x in rest;
    } else {
      MinExists(rest);
      var m :| m in rest && forall x :: x in rest ==> m <= x;
      LeastOf(s, rest, e, m);
    }
  }

  lemma LeastOf(s: set<int>, rest: set<int>, e: int, m: int)
    requires s == rest + {e} && m in rest && forall x :: x in rest ==> m <= x
    ensures exists least :: least in s && forall x :: x in s ==> least <= x
  {
    var least := if m <= e then m else e;
    assert least in s && forall x :: x in s ==> least <= x;
  }

  function Min(s: set<int>): (m: int)
    requires |s| > 0
    ensures m in s && forall x :: x in s ==> m <= x
  {
    MinExists(s);
    var m :| m in s && forall x :: x in s ==> m <= x;
    m
  }

  /** `sorted` of a set of line numbers. */
  function Sorted(s: set<int>): (q: seq<int>)
    ensures forall x :: x in q <==> x in s
    ensures forall i, j :: 0 <= i < j < |q| ==> q[i] < q[j]
    ensures |q| == |s|
    decreases |s|
  {
    if |s| == 0 then [] else [Min(s)] + Sorted(s - {Min(s)})
  }

  function Hits(da: map<int, int>): set<int> { set num | num in da && da[num] > 0 }

  function DaLine(da: map<int, int>, num: int): string
    requires num in da
  {
    "DA:" + IntText(num) + "," + IntText(da[num])
  }

  function DaLines(da: map<int, int>, nums: seq<int>): seq<string>
    requires forall i :: 0 <= i < |nums| ==> nums[i] in da
  {
    seq(|nums|, i requires 0 <= i < |nums| => DaLine(da, nums[i]))
  }

  function Record(sf: string, da: map<int, int>): seq<string> {
    ["SF:" + sf] + DaLines(da, Sorted(da.Keys))
    + ["LF:" + Dec(|da|), "LH:" + Dec(|Hits(da)|), "end_of_record"]
  }

  ghost predicate Ordered(t: Table) {
    forall i :: 0 <= i < |t.order| ==> t.order[i] in t.files
  }

  function OutLines(t: Table, order: seq<string>): seq<string>
    requires forall i :: 0 <= i < |order| ==> order[i] in t.files
  {
    if |order| == 0 then []
    else
      var n := |order| - 1;
      OutLines(t, order[..n]) + Record(order[n], t.files[order[n]])
  }

  function Print(t: Table): string
    requires Ordered(t)
  {
    Join(OutLines(t, t.order), '\n') + "\n"
  }

  // ---- the script ---------------------------------------------------------------------------------

  lemma LineKeepsOrdered(s: State, line: string)
    requires Consistent(s) && Ordered(s.table)
    ensures LineStep(s, line).Some? ==> Ordered(LineStep(s, line).value.table)
  {}

  lemma {:induction false} StepsKeepOrdered(s: State, lines: seq<string>)
    requires Consistent(s) && Ordered(s.table)
    ensures Steps(s, lines).Some? ==> Ordered(Steps(s, lines).value.table)
  {
    if |lines| > 0 {
      StepsKeepOrdered(s, lines[..|lines| - 1]);
      var r := Steps(s, lines[..|lines| - 1]);
      if r.Some? { LineKeepsOrdered(r.value, lines[|lines| - 1]); }
    }
  }

  lemma {:induction false} AllKeepOrdered(texts: seq<string>)
    ensures AbsorbAll(EmptyTable(), texts).Some? ==> Ordered(AbsorbAll(EmptyTable(), texts).value)
  {
    if |texts| > 0 {
      AllKeepOrdered(texts[..|texts| - 1]);
      var r := AbsorbAll(EmptyTable(), texts[..|texts| - 1]);
      if r.Some? { StepsKeepOrdered(State(r.value, None), Lines(texts[|texts| - 1])); }
    }
  }

  /** The output of the script on the given files, `None` if it fails. */
  function Merge(texts: seq<string>): Option<string> {
    AllKeepOrdered(texts);
    var r := AbsorbAll(EmptyTable(), texts);
    if r.None? then None else Some(Print(r.value))
  }

  /** The body of the line loop; `ok` is false when a number does not parse. */
  method ReadLine(files: map<string, map<int, int>>, order: seq<string>, cur: Option<string>, line: string)
    returns (files': map<string, map<int, int>>, order': seq<string>, cur': Option<string>, ok: bool)
    requires Consistent(State(Table(files, order), cur))
    ensures LineStep(State(Table(files, order), cur), line)
            == if ok then Some(State(Table(files', order'), cur')) else None
  {
    files', order', cur', ok := files, order, cur, true;
    if "SF:" <= line {
      cur' := Some(line[3..]);
      if cur'.value !in files' {
        files' := files'[cur'.value := map[]];
        order' := order' + [cur'.value];
      }
    } else if "DA:" <= line && cur'.Some? {
      var da := ParseDa(line[3..]);
      if da.None? {
        ok := false;
      } else {
        var (num, hits) := da.value;
        var da0 := files'[cur'.value];
        files' := files'[cur'.value := da0[num := Max(Get(da0, num), hits)]];
      }
    } else if line == "end_of_record" {
      cur' := None;
    }
  }

  /** One file, with its line loop. */
  method ReadFile(files: map<string, map<int, int>>, order: seq<string>, text: string)
    returns (files': map<string, map<int, int>>, order': seq<string>, ok: bool)
    ensures Absorb(Table(files, order), text) == if ok then Some(Table(files', order')) else None
  {
    files', order', ok := files, order, true;
    var cur: Option<string> := None;
    var lines := Lines(text);
    ghost var start := State(Table(files, order), None);
    for j := 0 to |lines|
      invariant ok && Steps(start, lines[..j]) == Some(State(Table(files', order'), cur))
    {
      OneMore(start, lines, j);
      files', order', cur, ok := ReadLine(files', order', cur, lines[j]);
      if !ok {
        FailsForGood(start, lines, j + 1);
        return;
      }
    }
    assert lines[..|lines|] == lines;
  }

  /** The loop over the sorted line numbers. */
  method PrintCounts(da: map<int, int>, nums: seq<int>) returns (lines: seq<string>)
    requires forall i :: 0 <= i < |nums| ==> nums[i] in da
    ensures lines == DaLines(da, nums)
  {
    lines := [];
    for i := 0 to |nums|
      invariant lines == DaLines(da, nums)[..i]
    {
      lines := lines + [DaLine(da, nums[i])];
    }
  }

  /** The lines of one record, appended one by one. */
  method PrintRecord(out: seq<string>, sf: string, da: map<int, int>) returns (out': seq<string>)
    ensures out' == out + Record(sf, da)
  {
    var lines := PrintCounts(da, Sorted(da.Keys));
    out' := out + (["SF:" + sf] + lines + ["LF:" + Dec(|da|), "LH:" + Dec(|Hits(da)|), "end_of_record"]);
  }

  /** The printing loop. */
  method PrintTable(files: map<string, map<int, int>>, order: seq<string>) returns (text: string)
    requires Ordered(Table(files, order))
    ensures text == Print(Table(files, order))
  {
    var out: seq<string> := [];
    for i := 0 to |order|
      invariant out == OutLines(Table(files, order), order[..i])
    {
      assert order[..i + 1][..i] == order[..i];
      out := PrintRecord(out, order[i], files[order[i]]);
    }
    assert order[..|order|] == order;
    text := Join(out, '\n') + "\n";
  }

  /** The whole script. */
  method MergeFiles(texts: seq<string>) returns (out: Option<string>)
    ensures out == Merge(texts)
  {
    var files: map<string, map<int, int>> := map[];
    var order: seq<string> := [];
    for i := 0 to |texts|
      invariant AbsorbAll(EmptyTable(), texts[..i]) == Some(Table(files, order))
    {
      assert texts[..i + 1][..i] == texts[..i];
      var ok: bool;
      files, order, ok := ReadFile(files, order, texts[i]);
      if !ok {
        AbsorbFails(texts, i);
        return None;
      }
    }
    assert texts[..|texts|] == texts;
    AllKeepOrdered(texts);
    var text := PrintTable(files, order);
    out := Some(text);
  }

  lemma OneMore(s: State, lines: seq<string>, j: nat)
    requires Consistent(s) && j < |lines| && Steps(s, lines[..j]).Some?
    ensures Steps(s, lines[..j + 1]) == LineStep(Steps(s, lines[..j]).value, lines[j])
  {
    assert lines[..j + 1][..j] == lines[..j];
  }

  lemma {:induction false} FailsForGood(s: State, lines: seq<string>, k: nat)
    requires Consistent(s) && k <= |lines| && Steps(s, lines[..k]).None?
    ensures Steps(s, lines).None?
    decreases |lines| - k
  {
    if k < |lines| {
      assert lines[..k + 1][..k] == lines[..k];
      FailsForGood(s, lines, k + 1);
    } else {
      assert lines[..k] == lines;
    }
  }

  lemma {:induction false} AbsorbFails(texts: seq<string>, i: nat)
    requires i < |texts| && AbsorbAll(EmptyTable(), texts[..i]).Some?
    requires Absorb(AbsorbAll(EmptyTable(), texts[..i]).value, texts[i]).None?
    ensures AbsorbAll(EmptyTable(), texts).None?
  {
    assert texts[..i + 1][..i] == texts[..i];
    AbsorbFailsOn(texts, i + 1);
  }

  lemma {:induction false} AbsorbFailsOn(texts: seq<string>, k: nat)
    requires k <= |texts| && AbsorbAll(EmptyTable(), texts[..k]).None?
    ensures AbsorbAll(EmptyTable(), texts).None?
    decreases |texts| - k
  {
    if k < |texts| {
      assert texts[..k + 1][..k] == texts[..k];
      AbsorbFailsOn(texts, k + 1);
    } else {
      assert texts[..k] == texts;
    }
  }

  // ---- texts in detail ------------------------------------------------------------------------------

  lemma SortedPair(m: int, n: int)
    requires m < n
    ensures Sorted({m, n}) == [m, n]
  {
    var q := Sorted({m, n});
    assert m in q && n in q && q[0] in q && q[1] in q;
  }

  /** The text of a table with one file and two lines, to the byte. */
  lemma RecordText(sf: string, m: int, n: int, h: int, k: int)
    requires m < n
    ensures var t := Table(map[sf := map[m := h, n := k]], [sf]);
            Ordered(t)
            && Print(t) == Join(["SF:" + sf, "DA:" + IntText(m) + "," + IntText(h), "DA:" + IntText(n) + "," + IntText(k),
                                 "LF:2", "LH:" + (if h > 0 && k > 0 then "2" else if h > 0 || k > 0 then "1" else "0"),
                                 "end_of_record"], '\n') + "\n"
  {
    var da := map[m := h, n := k];
    var t := Table(map[sf := da], [sf]);
    assert da.Keys == {m, n} && |da| == 2;
    SortedPair(m, n);
    HitsOfPair(m, n, h, k);
    assert [sf][..0] == [];
    assert OutLines(t, [sf]) == Record(sf, da);
    PairLines(sf, m, n, h, k);
    assert "LF:" + "2" == "LF:2";
  }

  lemma PairLines(sf: string, m: int, n: int, h: int, k: int)
    requires m < n && Sorted(map[m := h, n := k].Keys) == [m, n]
    ensures var da := map[m := h, n := k];
            Record(sf, da) == ["SF:" + sf, "DA:" + IntText(m) + "," + IntText(h), "DA:" + IntText(n) + "," + IntText(k),
                               "LF:" + Dec(|da|), "LH:" + Dec(|Hits(da)|), "end_of_record"]
  {
    var da := map[m := h, n := k];
    assert DaLines(da, [m, n]) == [DaLine(da, m), DaLine(da, n)];
  }

  lemma HitsOfPair(m: int, n: int, h: int, k: int)
    requires m < n
    ensures Dec(|map[m := h, n := k]|) == "2"
    ensures Dec(|Hits(map[m := h, n := k])|) == (if h > 0 && k > 0 then "2" else if h > 0 || k > 0 then "1" else "0")
  {
    var hits := Hits(map[m := h, n := k]);
    assert map[m := h, n := k].Keys == {m, n};
    assert hits == (if h > 0 then {m} else {}) + (if k > 0 then {n} else {});
  }

  lemma {:induction false} PlainFront(a: string, rest: string)
    requires '\r' !in a
    ensures Normalise(a + rest) == a + Normalise(rest)
  {
    if |a| == 0 {
      assert a + rest == rest;
    } else {
      PlainFront(a[1..], rest);
      assert (a + rest)[1..] == a[1..] + rest;
    }
  }

  lemma OneNewline(both: string, one: string, b: string)
    requires both == "\r\n" + b && one == "\r" + b
    ensures Normalise(both) == "\n" + Normalise(b)
    ensures (|b| > 0 ==> b[0] != '\n') ==> Normalise(one) == "\n" + Normalise(b)
  {
    assert both[2..] == b && one[1..] == b;
  }

  /** `\r\n` and a `\r` alone are read as one newline, and everything else as it is. */
  lemma Newlines(a: string, b: string)
    requires '\r' !in a
    ensures Normalise(a) == a
    ensures Normalise(a + ("\r\n" + b)) == a + ("\n" + Normalise(b))
    ensures (|b| > 0 ==> b[0] != '\n') ==> Normalise(a + ("\r" + b)) == a + ("\n" + Normalise(b))
  {
    OneNewline("\r\n" + b, "\r" + b, b);
    PlainFront(a, "\r\n" + b);
    PlainFront(a, "\r" + b);
    PlainFront(a, "");
    assert a + "" == a;
  }
}
