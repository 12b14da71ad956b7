/** Merging coverage files is associative and idempotent byte for byte: reading a file is the join with
    the table the file denotes, and reading a printed table gives that table back. */
module LcovLaws {
  import opened Common
  import opened Text
  import opened Lcov

  // ---- tables the script can hold -----------------------------------------------------------------

  /** A name that can be read from a line of a text file. */
  predicate Clean(s: string) { '\n' !in s && '\r' !in s }

  ghost predicate Distinct(order: seq<string>) {
    forall i, j :: 0 <= i < j < |order| ==> order[i] != order[j]
  }

  ghost predicate Counted(t: Table) {
    forall sf, num :: sf in t.files && num in t.files[sf] ==> t.files[sf][num] >= 0
  }

  ghost predicate Proper(t: Table) {
    && Distinct(t.order)
    && (forall sf :: sf in t.order <==> sf in t.files)
    && (forall sf :: sf in t.files ==> Clean(sf))
    && Counted(t)
  }

  lemma {:induction false} NormaliseClean(s: string)
    ensures '\r' !in Normalise(s)
    decreases |s|
  {
    if |s| > 0 {
      NormaliseClean(s[1..]);
      if s[0] == '\r' && |s| > 1 && s[1] == '\n' { NormaliseClean(s[2..]); }
    }
  }

  lemma {:induction false} SplitClean(s: string, c: char, d: char)
    requires d !in s
    ensures forall i :: 0 <= i < |Split(s, c)| ==> d !in Split(s, c)[i]
  {
    if |s| > 0 { SplitClean(s[1..], c, d); }
  }

  lemma LinesClean(text: string)
    ensures forall i :: 0 <= i < |Lines(text)| ==> Clean(Lines(text)[i])
  {
    NormaliseClean(text);
    SplitClean(Normalise(text), '\n', '\r');
  }

  lemma OpenKeepsProper(t: Table, sf: string)
    requires Proper(t) && Clean(sf)
    ensures Proper(Open(t, sf))
  {
    var t' := Open(t, sf);
    assert forall f :: f in t'.order <==> f in t.order || f == sf;
    assert forall f :: f in t'.files <==> f in t.files || f == sf;
  }

  lemma CountKeepsProper(t: Table, sf: string, num: int, hits: int)
    requires Proper(t) && sf in t.files
    ensures Proper(Count(t, sf, num, hits))
  {
    var t' := Count(t, sf, num, hits);
    assert forall f :: f in t'.files <==> f in t.files;
    assert t'.order == t.order;
    forall f, n | f in t'.files && n in t'.files[f] ensures t'.files[f][n] >= 0 {
      if f != sf { assert t'.files[f] == t.files[f]; }
    }
  }

  lemma LineKeepsProper(s: State, line: string)
    requires Consistent(s) && Proper(s.table) && Clean(line)
    ensures LineStep(s, line).Some? ==> Proper(LineStep(s, line).value.table)
  {
    if "SF:" <= line {
      assert forall c :: c in line[3..] ==> c in line;
      OpenKeepsProper(s.table, line[3..]);
    } else if "DA:" <= line && s.cur.Some? {
      var da := ParseDa(line[3..]);
      if da.Some? { CountKeepsProper(s.table, s.cur.value, da.value.0, da.value.1); }
    }
  }

  lemma {:induction false} StepsKeepProper(s: State, lines: seq<string>)
    requires Consistent(s) && Proper(s.table)
    requires forall i :: 0 <= i < |lines| ==> Clean(lines[i])
    ensures Steps(s, lines).Some? ==> Proper(Steps(s, lines).value.table)
  {
    if |lines| > 0 {
      StepsKeepProper(s, lines[..|lines| - 1]);
      var r := Steps(s, lines[..|lines| - 1]);
      if r.Some? { LineKeepsProper(r.value, lines[|lines| - 1]); }
    }
  }

  lemma AbsorbKeepsProper(t: Table, text: string)
    requires Proper(t)
    ensures Absorb(t, text).Some? ==> Proper(Absorb(t, text).value)
  {
    LinesClean(text);
    StepsKeepProper(State(t, None), Lines(text));
  }

  lemma {:induction false} AllKeepProper(t: Table, texts: seq<string>)
    requires Proper(t)
    ensures AbsorbAll(t, texts).Some? ==> Proper(AbsorbAll(t, texts).value)
  {
    if |texts| > 0 {
      AllKeepProper(t, texts[..|texts| - 1]);
      var r := AbsorbAll(t, texts[..|texts| - 1]);
      if r.Some? { AbsorbKeepsProper(r.value, texts[|texts| - 1]); }
    }
  }

  // ---- joining tables -----------------------------------------------------------------------------

  function JoinDa(a: map<int, int>, b: map<int, int>): map<int, int> {
    a + map num | num in b :: Max(Get(a, num), b[num])
  }

  function DaOf(t: Table, sf: string): map<int, int> {
    if sf in t.files then t.files[sf] else map[]
  }

  function Without(order: seq<string>, seen: set<string>): seq<string> {
    if |order| == 0 then []
    else
      var n := |order| - 1;
      Without(order[..n], seen) + (if order[n] in seen then [] else [order[n]])
  }

  /** `a` first, then what `b` adds: the higher count of every line, and the new files after the known. */
  function JoinTables(a: Table, b: Table): Table {
    Table(a.files + map sf | sf in b.files :: JoinDa(DaOf(a, sf), b.files[sf]),
          a.order + Without(b.order, a.files.Keys))
  }

  lemma WithoutSnoc(order: seq<string>, sf: string, seen: set<string>)
    ensures Without(order + [sf], seen) == Without(order, seen) + (if sf in seen then [] else [sf])
  {
    assert (order + [sf])[..|order|] == order;
  }

  lemma JoinOf(a: Table, b: Table, sf: string)
    ensures sf in JoinTables(a, b).files <==> sf in a.files || sf in b.files
    ensures DaOf(JoinTables(a, b), sf) == JoinDa(DaOf(a, sf), DaOf(b, sf))
  {
    JoinEmptyDa(DaOf(a, sf));
  }

  lemma JoinEmptyDa(a: map<int, int>)
    ensures JoinDa(a, map[]) == a
    ensures (forall num :: num in a ==> a[num] >= 0) ==> JoinDa(map[], a) == a
  {
    assert JoinDa(a, map[]) == a;
    if forall num :: num in a ==> a[num] >= 0 {
      assert forall num :: num in a ==> JoinDa(map[], a)[num] == a[num];
      assert JoinDa(map[], a) == a;
    }
  }

  /** Tables that agree name by name are equal. */
  lemma SameTable(l: Table, r: Table)
    requires l.order == r.order
    requires forall sf :: (sf in l.files <==> sf in r.files) && DaOf(l, sf) == DaOf(r, sf)
    ensures l == r
  {
    assert forall sf :: sf in l.files ==> l.files[sf] == DaOf(l, sf) && r.files[sf] == DaOf(r, sf);
    assert l.files == r.files;
  }

  lemma JoinOpen(a: Table, t: Table, sf: string)
    ensures JoinTables(a, Open(t, sf)) == Open(JoinTables(a, t), sf)
  {
    var l, r := JoinTables(a, Open(t, sf)), Open(JoinTables(a, t), sf);
    JoinOpenOrder(a, t, sf);
    forall f ensures (f in l.files <==> f in r.files) && DaOf(l, f) == DaOf(r, f) {
      JoinOf(a, Open(t, sf), f);
      JoinOf(a, t, f);
      OpenAt(t, sf, f);
      OpenAt(JoinTables(a, t), sf, f);
    }
    SameTable(l, r);
  }

  lemma JoinOpenOrder(a: Table, t: Table, sf: string)
    ensures JoinTables(a, Open(t, sf)).order == Open(JoinTables(a, t), sf).order
  {
    WithoutSnoc(t.order, sf, a.files.Keys);
    JoinOf(a, t, sf);
    var mine := Without(t.order, a.files.Keys);
    assert a.order + (mine + [sf]) == (a.order + mine) + [sf];
    assert mine + [] == mine;
  }

  lemma OpenAt(t: Table, sf: string, f: string)
    ensures f in Open(t, sf).files <==> f in t.files || f == sf
    ensures DaOf(Open(t, sf), f) == DaOf(t, f)
  {}

  lemma JoinCountDa(a: map<int, int>, b: map<int, int>, num: int, hits: int)
    requires forall n :: n in a ==> a[n] >= 0
    ensures var j := JoinDa(a, b);
            JoinDa(a, b[num := Max(Get(b, num), hits)]) == j[num := Max(Get(j, num), hits)]
  {
    var j, b' := JoinDa(a, b), b[num := Max(Get(b, num), hits)];
    var l, r := JoinDa(a, b'), j[num := Max(Get(j, num), hits)];
    assert forall n :: n in l <==> n in a || n in b';
    assert forall n :: n in l ==> l[n] == r[n];
  }

  lemma JoinCount(a: Table, t: Table, sf: string, num: int, hits: int)
    requires sf in t.files && Counted(a)
    ensures sf in JoinTables(a, t).files
    ensures JoinTables(a, Count(t, sf, num, hits)) == Count(JoinTables(a, t), sf, num, hits)
  {
    JoinOf(a, t, sf);
    var l, r := JoinTables(a, Count(t, sf, num, hits)), Count(JoinTables(a, t), sf, num, hits);
    JoinCountDa(DaOf(a, sf), DaOf(t, sf), num, hits);
    forall f ensures (f in l.files <==> f in r.files) && DaOf(l, f) == DaOf(r, f) {
      JoinOf(a, Count(t, sf, num, hits), f);
      JoinOf(a, t, f);
      CountAt(t, sf, num, hits, f);
      CountAt(JoinTables(a, t), sf, num, hits, f);
    }
    SameTable(l, r);
  }

  lemma CountAt(t: Table, sf: string, num: int, hits: int, f: string)
    requires sf in t.files
    ensures f in Count(t, sf, num, hits).files <==> f in t.files
    ensures DaOf(Count(t, sf, num, hits), f)
            == if f == sf then DaOf(t, f)[num := Max(Get(DaOf(t, f), num), hits)] else DaOf(t, f)
  {}

  function Under(a: Table, r: Option<State>): Option<State> {
    if r.None? then None else Some(State(JoinTables(a, r.value.table), r.value.cur))
  }

  lemma JoinLine(a: Table, s: State, line: string)
    requires Counted(a) && Consistent(s)
    ensures LineStep(State(JoinTables(a, s.table), s.cur), line) == Under(a, LineStep(s, line))
  {
    if "SF:" <= line {
      JoinOpen(a, s.table, line[3..]);
    } else if "DA:" <= line && s.cur.Some? {
      var da := ParseDa(line[3..]);
      if da.Some? { JoinCount(a, s.table, s.cur.value, da.value.0, da.value.1); }
    }
  }

  lemma {:induction false} JoinSteps(a: Table, s: State, lines: seq<string>)
    requires Counted(a) && Consistent(s)
    ensures Steps(State(JoinTables(a, s.table), s.cur), lines) == Under(a, Steps(s, lines))
  {
    if |lines| > 0 {
      JoinSteps(a, s, lines[..|lines| - 1]);
      var r := Steps(s, lines[..|lines| - 1]);
      if r.Some? { JoinLine(a, r.value, lines[|lines| - 1]); }
    }
  }

  lemma JoinEmpty(a: Table)
    requires Proper(a)
    ensures JoinTables(a, EmptyTable()) == a && JoinTables(EmptyTable(), a) == a
  {
    WithoutNothing(a.order);
    assert EmptyTable().files.Keys == {} && Without([], a.files.Keys) == [];
    assert a.order + [] == a.order && [] + a.order == a.order;
    forall f ensures (f in JoinTables(a, EmptyTable()).files <==> f in a.files)
                     && DaOf(JoinTables(a, EmptyTable()), f) == DaOf(a, f)
                     && (f in JoinTables(EmptyTable(), a).files <==> f in a.files)
                     && DaOf(JoinTables(EmptyTable(), a), f) == DaOf(a, f) {
      JoinOf(a, EmptyTable(), f);
      JoinOf(EmptyTable(), a, f);
      JoinEmptyDa(DaOf(a, f));
    }
    SameTable(JoinTables(a, EmptyTable()), a);
    SameTable(JoinTables(EmptyTable(), a), a);
  }

  lemma {:induction false} WithoutNothing(order: seq<string>)
    ensures Without(order, {}) == order
  {
    if |order| > 0 { WithoutNothing(order[..|order| - 1]); }
  }

  /** Reading a file is the join with what the file alone gives; whether it can be read at all does not
      depend on the table. */
  lemma AbsorbIsJoin(a: Table, text: string)
    requires Proper(a)
    ensures var alone := Absorb(EmptyTable(), text);
            Absorb(a, text) == if alone.None? then None else Some(JoinTables(a, alone.value))
  {
    JoinEmpty(a);
    JoinSteps(a, State(EmptyTable(), None), Lines(text));
  }

  lemma JoinDaAssoc(a: map<int, int>, b: map<int, int>, c: map<int, int>)
    requires forall num :: num in a ==> a[num] >= 0
    requires forall num :: num in b ==> b[num] >= 0
    ensures JoinDa(JoinDa(a, b), c) == JoinDa(a, JoinDa(b, c))
  {
    var l, r := JoinDa(JoinDa(a, b), c), JoinDa(a, JoinDa(b, c));
    forall num ensures (num in l <==> num in r) && (num in l ==> l[num] == r[num]) {
      JoinDaAssocAt(a, b, c, num);
    }
  }

  lemma JoinDaAssocAt(a: map<int, int>, b: map<int, int>, c: map<int, int>, num: int)
    requires num in a ==> a[num] >= 0
    requires num in b ==> b[num] >= 0
    ensures var l, r := JoinDa(JoinDa(a, b), c), JoinDa(a, JoinDa(b, c));
            (num in l <==> num in r) && (num in l ==> l[num] == r[num])
  {
    JoinDaAt(a, b, num);
    JoinDaAt(b, c, num);
    JoinDaAt(JoinDa(a, b), c, num);
    JoinDaAt(a, JoinDa(b, c), num);
  }

  lemma JoinDaAt(a: map<int, int>, b: map<int, int>, num: int)
    ensures num in JoinDa(a, b) <==> num in a || num in b
    ensures num in a && num !in b ==> JoinDa(a, b)[num] == a[num]
    ensures num in b ==> JoinDa(a, b)[num] == Max(Get(a, num), b[num])
  {}

  lemma {:induction false} WithoutTwice(order: seq<string>, a: set<string>, b: set<string>)
    ensures Without(Without(order, a), b) == Without(order, a + b)
  {
    if |order| > 0 {
      var n := |order| - 1;
      WithoutTwice(order[..n], a, b);
      WithoutSnoc(Without(order[..n], a), order[n], b);
      assert Without(order[..n], a) + [] == Without(order[..n], a);
    }
  }

  lemma {:induction false} WithoutConcat(p: seq<string>, q: seq<string>, seen: set<string>)
    ensures Without(p + q, seen) == Without(p, seen) + Without(q, seen)
  {
    if |q| == 0 {
      assert p + q == p;
    } else {
      var n := |q| - 1;
      WithoutConcat(p, q[..n], seen);
      assert p + q == (p + q[..n]) + [q[n]];
      WithoutSnoc(p + q[..n], q[n], seen);
    }
  }

  lemma JoinAssoc(a: Table, b: Table, c: Table)
    requires Counted(a) && Counted(b)
    ensures JoinTables(JoinTables(a, b), c) == JoinTables(a, JoinTables(b, c))
  {
    var ab, bc := JoinTables(a, b), JoinTables(b, c);
    var l, r := JoinTables(ab, c), JoinTables(a, bc);
    JoinOrderAssoc(a, b, c);
    forall f ensures (f in l.files <==> f in r.files) && DaOf(l, f) == DaOf(r, f) {
      JoinOf(a, b, f);
      JoinOf(b, c, f);
      JoinOf(ab, c, f);
      JoinOf(a, bc, f);
      JoinDaAssoc(DaOf(a, f), DaOf(b, f), DaOf(c, f));
    }
    SameTable(l, r);
  }

  lemma JoinKeys(a: Table, b: Table)
    ensures JoinTables(a, b).files.Keys == b.files.Keys + a.files.Keys
  {}

  lemma JoinOrderAssoc(a: Table, b: Table, c: Table)
    ensures JoinTables(JoinTables(a, b), c).order == JoinTables(a, JoinTables(b, c)).order
  {
    JoinKeys(a, b);
    OrderAssoc(a.order, b.order, c.order, a.files.Keys, b.files.Keys);
  }

  lemma OrderAssoc(a: seq<string>, b: seq<string>, c: seq<string>, ka: set<string>, kb: set<string>)
    ensures (a + Without(b, ka)) + Without(c, kb + ka) == a + Without(b + Without(c, kb), ka)
  {
    WithoutConcat(b, Without(c, kb), ka);
    WithoutTwice(c, kb, ka);
    var wb, wc := Without(b, ka), Without(c, kb + ka);
    assert (a + wb) + wc == a + (wb + wc);
  }

  // ---- reading what was printed -------------------------------------------------------------------

  lemma DigitsOnlySnoc(s: string, c: char)
    ensures DigitsOnly(s + [c]) == DigitsOnly(s) + (if IsDigit(c) then [c] else "")
  {
    assert (s + [c])[..|s|] == s;
  }

  lemma {:induction false} DigitsOnlyAll(s: string)
    requires AllDigits(s)
    ensures DigitsOnly(s) == s
  {
    if |s| > 0 {
      var n := |s| - 1;
      DigitsOnlyAll(s[..n]);
      LastApart(s);
      DigitsOnlySnoc(s[..n], s[n]);
    }
  }

  lemma DigitsAreNumeral(s: string)
    requires AllDigits(s) && |s| > 0
    ensures IsNumeral(s) && DigitsOnly(s) == s && s[0] != '-' && s[0] != '+'
    ensures !IsSpace(s[0]) && !IsSpace(s[|s| - 1])
  {
    DigitsOnlyAll(s);
    DigitIsPlain(s[0]);
    DigitIsPlain(s[|s| - 1]);
  }

  lemma DigitIsPlain(c: char)
    requires IsDigit(c)
    ensures !IsSpace(c) && c != '-' && c != '+'
  {}

  /** `int()` undoes `str()`. */
  lemma PyIntOfText(n: int)
    ensures PyInt(IntText(n)) == Some(n)
  {
    var body := Dec(if n < 0 then -n else n);
    DigitsAreNumeral(body);
    DecValueDec(if n < 0 then -n else n);
    if n < 0 {
      assert IntText(n)[0] == '-' && IntText(n)[1..] == body;
      PyIntNegative(IntText(n), body);
    } else {
      PyIntPlain(body);
    }
  }

  lemma PyIntPlain(body: string)
    requires AllDigits(body) && |body| > 0
    ensures PyInt(body) == Some(DecValue(body))
  {
    DigitsAreNumeral(body);
    assert StripLeft(body) == body && StripRight(body) == body;
  }

  /** White space in front of a number is ignored. */
  lemma PaddedNumber(c: char, s: string)
    requires IsSpace(c)
    ensures PyInt([c] + s) == PyInt(s)
  {
    assert ([c] + s)[1..] == s;
  }

  /** A plus in front is read. */
  lemma PyIntPlus(t: string, body: string)
    requires AllDigits(body) && |body| > 0
    requires |t| > 0 && t[0] == '+' && t[1..] == body
    ensures PyInt(t) == Some(DecValue(body))
  {
    DigitsAreNumeral(body);
    assert t[|t| - 1] == body[|body| - 1];
    assert StripLeft(t) == t && StripRight(t) == t;
  }

  lemma {:induction false} DigitsOnlyConcat(s: string, t: string)
    ensures DigitsOnly(s + t) == DigitsOnly(s) + DigitsOnly(t)
  {
    if |t| == 0 {
      assert s + t == s;
    } else {
      var n := |t| - 1;
      DigitsOnlyConcat(s, t[..n]);
      DigitsOnlySnoc(t[..n], t[n]);
      DigitsOnlySnoc(s + t[..n], t[n]);
      LastApart(t);
      AppendAssoc(s, t[..n], [t[n]]);
      AppendAssoc(DigitsOnly(s), DigitsOnly(t[..n]), if IsDigit(t[n]) then [t[n]] else "");
    }
  }

  /** A text of digits and underscores that starts and ends with a digit stands for its digits, unless two
      underscores are next to each other. */
  lemma Underscored(a: string, bars: string, b: string)
    requires AllDigits(a) && AllDigits(b) && |a| > 0 && |b| > 0 && (forall i :: 0 <= i < |bars| ==> bars[i] == '_')
    ensures PyInt(a + bars + b) == if |bars| <= 1 then Some(DecValue(a + b)) else None
  {
    var s := a + bars + b;
    DigitsAreNumeral(a);
    DigitsAreNumeral(b);
    assert s[0] == a[0] && s[|s| - 1] == b[|b| - 1];
    assert StripLeft(s) == s && StripRight(s) == s;
    BarsBetween(a, bars, b);
  }

  lemma BarsBetween(a: string, bars: string, b: string)
    requires AllDigits(a) && AllDigits(b) && |a| > 0 && |b| > 0 && (forall i :: 0 <= i < |bars| ==> bars[i] == '_')
    ensures DigitsOnly(a + bars + b) == a + b
    ensures IsNumeral(a + bars + b) <==> |bars| <= 1
  {
    DigitsOnlyConcat(a + bars, b);
    DigitsOnlyConcat(a, bars);
    DigitsOnlyAll(a);
    DigitsOnlyAll(b);
    NoDigits(bars);
    assert a + "" == a;
    NumeralIff(a + bars + b, |a|, |bars|);
  }

  lemma NumeralIff(s: string, n: nat, k: nat)
    requires 0 < n && n + k < |s|
    requires forall i :: 0 <= i < |s| ==> if n <= i < n + k then s[i] == '_' else IsDigit(s[i])
    ensures IsNumeral(s) <==> k <= 1
  {
    if k > 1 { assert !IsDigit(s[n]) && !IsDigit(s[n + 1]); }
  }

  lemma {:induction false} NoDigits(bars: string)
    requires forall i :: 0 <= i < |bars| ==> bars[i] == '_'
    ensures DigitsOnly(bars) == ""
  {
    if |bars| > 0 { NoDigits(bars[..|bars| - 1]); }
  }

  lemma PyIntNegative(t: string, body: string)
    requires AllDigits(body) && |body| > 0
    requires |t| > 0 && t[0] == '-' && t[1..] == body
    ensures PyInt(t) == Some(0 - DecValue(body))
  {
    DigitsAreNumeral(body);
    assert t[|t| - 1] == body[|body| - 1];
    assert StripLeft(t) == t && StripRight(t) == t;
  }

  lemma IntTextChars(n: int)
    ensures ',' !in IntText(n) && Clean(IntText(n))
  {
    var body := Dec(if n < 0 then -n else n);
    forall c | c in body ensures IsDigit(c) {
      var i :| 0 <= i < |body| && body[i] == c;
    }
  }

  lemma {:induction false} CommaAfter(p: string, rest: string)
    requires ',' !in p
    ensures CommaAt(p + "," + rest) == |p|
  {
    var s := p + "," + rest;
    if |p| > 0 {
      CommaAfter(p[1..], rest);
      assert s[1..] == p[1..] + "," + rest;
    }
  }

  lemma ParseDaOfText(num: int, hits: int)
    ensures ParseDa(IntText(num) + "," + IntText(hits)) == Some((num, hits))
  {
    IntTextChars(num);
    CommaAfter(IntText(num), IntText(hits));
    var s := IntText(num) + "," + IntText(hits);
    assert s[..|IntText(num)|] == IntText(num);
    assert s[|IntText(num)| + 1..] == IntText(hits);
    PyIntOfText(num);
    PyIntOfText(hits);
  }

  lemma DaLineRead(da: map<int, int>, num: int)
    requires num in da
    ensures var line := DaLine(da, num);
            && "DA:" <= line && !("SF:" <= line)
            && ParseDa(line[3..]) == Some((num, da[num]))
            && Clean(line)
  {
    IntTextChars(num);
    IntTextChars(da[num]);
    ParseDaOfText(num, da[num]);
    TaggedDa(IntText(num), IntText(da[num]));
  }

  lemma TaggedDa(num: string, hits: string)
    requires Clean(num) && Clean(hits)
    ensures var line := "DA:" + num + "," + hits;
            "DA:" <= line && !("SF:" <= line) && line[3..] == num + "," + hits && Clean(line)
  {
    var line := "DA:" + num + "," + hits;
    assert line[0] == 'D';
  }

  /** `line` counts `hits` for line `num`, whatever record is open. */
  ghost predicate Counts(line: string, num: int, hits: int) {
    forall s: State :: Consistent(s) && s.cur.Some? ==>
      LineStep(s, line) == Some(State(Count(s.table, s.cur.value, num, hits), s.cur))
  }

  ghost predicate AllClean(lines: seq<string>) {
    forall i :: 0 <= i < |lines| ==> Clean(lines[i])
  }

  lemma DaLineCounts(da: map<int, int>, num: int)
    requires num in da
    ensures Counts(DaLine(da, num), num, da[num])
  {
    DaLineRead(da, num);
  }

  lemma DaLinesCount(da: map<int, int>, nums: seq<int>)
    requires forall i :: 0 <= i < |nums| ==> nums[i] in da
    ensures forall i :: 0 <= i < |nums| ==> Counts(DaLines(da, nums)[i], nums[i], da[nums[i]])
  {
    forall i | 0 <= i < |nums| ensures Counts(DaLines(da, nums)[i], nums[i], da[nums[i]]) {
      DaLineCounts(da, nums[i]);
    }
  }

  lemma SfLineOpens(s: State, sf: string)
    requires Consistent(s)
    ensures LineStep(s, "SF:" + sf) == Some(State(Open(s.table, sf), Some(sf)))
    ensures Clean(sf) ==> Clean("SF:" + sf)
  {
    assert ("SF:" + sf)[3..] == sf;
  }

  /** `t` with the file `sf` opened and only the lines `nums` of `da` counted. */
  function Partial(t: Table, sf: string, da: map<int, int>, nums: seq<int>): Table {
    Table(t.files[sf := map num | num in da && num in nums :: da[num]], t.order + [sf])
  }

  lemma PrefixSnoc<T>(a: seq<T>, b: seq<T>, k: nat)
    requires 0 < k <= |b|
    ensures a + b[..k] == (a + b[..k - 1]) + [b[k - 1]]
  {}

  ghost predicate CountsAll(lines: seq<string>, nums: seq<int>, da: map<int, int>) {
    && |lines| == |nums|
    && (forall i :: 0 <= i < |nums| ==> nums[i] in da && Counts(lines[i], nums[i], da[nums[i]]))
    && (forall i, j :: 0 <= i < j < |nums| ==> nums[i] < nums[j])
    && (forall num :: num in da ==> da[num] >= 0)
  }

  lemma {:induction false} ReadDaLines(s: State, sf: string, first: string, da: map<int, int>, nums: seq<int>,
                                       lines: seq<string>, k: nat)
    requires Consistent(s) && sf !in s.table.files && CountsAll(lines, nums, da) && k <= |nums|
    requires Steps(s, [first]) == Some(State(Open(s.table, sf), Some(sf)))
    ensures Steps(s, [first] + lines[..k]) == Some(State(Partial(s.table, sf, da, nums[..k]), Some(sf)))
  {
    if k == 0 {
      assert [first] + lines[..0] == [first];
      PartialNone(s.table, sf, da, nums);
    } else {
      ReadDaLines(s, sf, first, da, nums, lines, k - 1);
      ReadDaLine(s, sf, da, nums, lines, [first] + lines[..k - 1], k);
      PrefixSnoc([first], lines, k);
    }
  }

  lemma ReadDaLine(s: State, sf: string, da: map<int, int>, nums: seq<int>, lines: seq<string>,
                   before: seq<string>, k: nat)
    requires Consistent(s) && sf !in s.table.files && CountsAll(lines, nums, da) && 0 < k <= |nums|
    requires Steps(s, before) == Some(State(Partial(s.table, sf, da, nums[..k - 1]), Some(sf)))
    ensures Steps(s, before + [lines[k - 1]]) == Some(State(Partial(s.table, sf, da, nums[..k]), Some(sf)))
  {
    var num := nums[k - 1];
    CountStep(State(Partial(s.table, sf, da, nums[..k - 1]), Some(sf)), lines[k - 1], num, da[num]);
    PartialCount(s.table, sf, da, nums, k);
    StepsSnoc(s, before, lines[k - 1]);
  }

  lemma PartialNone(t: Table, sf: string, da: map<int, int>, nums: seq<int>)
    requires sf !in t.files
    ensures Partial(t, sf, da, nums[..0]) == Open(t, sf)
  {
    assert Partial(t, sf, da, nums[..0]).files == Open(t, sf).files;
  }

  lemma CountStep(s: State, line: string, num: int, hits: int)
    requires Consistent(s) && s.cur.Some? && Counts(line, num, hits)
    ensures LineStep(s, line) == Some(State(Count(s.table, s.cur.value, num, hits), s.cur))
  {}

  lemma StepsOne(s: State, line: string)
    requires Consistent(s)
    ensures Steps(s, [line]) == LineStep(s, line)
  {
    assert [line][..0] == [];
  }

  lemma StepsSnoc(s: State, lines: seq<string>, line: string)
    requires Consistent(s) && Steps(s, lines).Some?
    ensures Steps(s, lines + [line]) == LineStep(Steps(s, lines).value, line)
  {
    assert (lines + [line])[..|lines|] == lines;
  }

  lemma PartialCount(t: Table, sf: string, da: map<int, int>, nums: seq<int>, k: nat)
    requires sf !in t.files && 0 < k <= |nums|
    requires forall i :: 0 <= i < |nums| ==> nums[i] in da
    requires forall i, j :: 0 <= i < j < |nums| ==> nums[i] < nums[j]
    requires forall num :: num in da ==> da[num] >= 0
    ensures Count(Partial(t, sf, da, nums[..k - 1]), sf, nums[k - 1], da[nums[k - 1]]) == Partial(t, sf, da, nums[..k])
  {
    var last, head := nums[k - 1], nums[..k - 1];
    assert nums[..k] == head + [last];
    assert last !in head;
    ShownSnoc(da, head, last);
    var p := Partial(t, sf, da, head);
    assert Max(Get(p.files[sf], last), da[last]) == da[last];
    assert p.files[sf := p.files[sf][last := da[last]]] == t.files[sf := p.files[sf][last := da[last]]];
  }

  lemma ShownSnoc(da: map<int, int>, head: seq<int>, last: int)
    requires last in da
    ensures var shown := map num | num in da && num in head :: da[num];
            shown[last := da[last]] == map num | num in da && num in head + [last] :: da[num]
  {
    var before := map num | num in da && num in head :: da[num];
    var after := map num | num in da && num in head + [last] :: da[num];
    assert forall num :: num in head + [last] <==> num in head || num == last;
    assert before[last := da[last]] == after;
  }

  lemma TagLines(s: State, lf: nat, lh: nat)
    requires Consistent(s)
    ensures LineStep(s, "LF:" + Dec(lf)) == Some(s) && LineStep(s, "LH:" + Dec(lh)) == Some(s)
    ensures LineStep(s, "end_of_record") == Some(s.(cur := None))
    ensures Clean("LF:" + Dec(lf)) && Clean("LH:" + Dec(lh)) && Clean("end_of_record")
  {
    assert ("LF:" + Dec(lf))[0] == 'L' && ("LH:" + Dec(lh))[0] == 'L';
    IntTextChars(lf);
    IntTextChars(lh);
  }

  lemma {:induction false} StepsConcat(s: State, p: seq<string>, q: seq<string>)
    requires Consistent(s)
    ensures Steps(s, p + q) == if Steps(s, p).None? then None else Steps(Steps(s, p).value, q)
  {
    if |q| == 0 {
      assert p + q == p;
    } else {
      StepsConcat(s, p, q[..|q| - 1]);
      assert (p + q)[..|p + q| - 1] == p + q[..|q| - 1];
    }
  }

  lemma StepsThree(s: State, a: string, b: string, c: string)
    requires Consistent(s)
    requires LineStep(s, a) == Some(s) && LineStep(s, b) == Some(s)
    ensures Steps(s, [a, b, c]) == LineStep(s, c)
  {
    StepsOne(s, a);
    StepsSnoc(s, [a], b);
    assert [a] + [b] == [a, b];
    StepsSnoc(s, [a, b], c);
    assert [a, b] + [c] == [a, b, c];
  }

  /** The lines around the counts of a record, and what they do. */
  lemma Framing(s: State, sf: string, lf: nat, lh: nat)
    returns (first: string, lfLine: string, lhLine: string, end: string)
    requires Consistent(s)
    ensures first == "SF:" + sf && lfLine == "LF:" + Dec(lf) && lhLine == "LH:" + Dec(lh) && end == "end_of_record"
    ensures Steps(s, [first]) == Some(State(Open(s.table, sf), Some(sf)))
    ensures Closes([lfLine, lhLine, end])
  {
    first, lfLine, lhLine, end := "SF:" + sf, "LF:" + Dec(lf), "LH:" + Dec(lh), "end_of_record";
    SfLineOpens(s, sf);
    StepsOne(s, first);
    forall s': State | Consistent(s') ensures Steps(s', [lfLine, lhLine, end]) == Some(s'.(cur := None)) {
      TagLines(s', lf, lh);
      StepsThree(s', lfLine, lhLine, end);
    }
  }

  ghost predicate Closes(lines: seq<string>) {
    forall s: State :: Consistent(s) ==> Steps(s, lines) == Some(s.(cur := None))
  }

  lemma ReadRecord(s: State, sf: string, da: map<int, int>)
    requires Consistent(s) && sf !in s.table.files
    requires forall num :: num in da ==> da[num] >= 0
    ensures Steps(s, Record(sf, da)) == Some(State(Table(s.table.files[sf := da], s.table.order + [sf]), None))
  {
    var nums := Sorted(da.Keys);
    DaLinesCount(da, nums);
    var first, lf, lh, end := Framing(s, sf, |da|, |Hits(da)|);
    ReadFramed(s, sf, first, da, nums, DaLines(da, nums), [lf, lh, end]);
  }

  lemma ReadFramed(s: State, sf: string, first: string, da: map<int, int>, nums: seq<int>, lines: seq<string>,
                   last: seq<string>)
    requires Consistent(s) && sf !in s.table.files && CountsAll(lines, nums, da)
    requires forall num :: num in da ==> num in nums
    requires Steps(s, [first]) == Some(State(Open(s.table, sf), Some(sf)))
    requires Closes(last)
    ensures Steps(s, [first] + lines + last) == Some(State(Table(s.table.files[sf := da], s.table.order + [sf]), None))
  {
    ReadDaLines(s, sf, first, da, nums, lines, |nums|);
    WholePrefix(lines);
    PartialAll(s.table, sf, da, nums);
    StepsConcat(s, [first] + lines, last);
  }

  lemma WholePrefix<T>(q: seq<T>)
    ensures q[..|q|] == q
  {}

  lemma PartialAll(t: Table, sf: string, da: map<int, int>, nums: seq<int>)
    requires forall num :: num in da ==> num in nums
    ensures Partial(t, sf, da, nums[..|nums|]) == Table(t.files[sf := da], t.order + [sf])
  {
    assert nums[..|nums|] == nums;
    var shown := map num | num in da && num in nums :: da[num];
    assert forall num :: num in da ==> num in shown;
    assert shown == da;
  }

  function Taken(t: Table, order: seq<string>): Table {
    Table(map sf | sf in t.files && sf in order :: t.files[sf], order)
  }

  lemma {:induction false} ReadOutLines(t: Table, n: nat)
    requires Proper(t) && n <= |t.order|
    ensures Steps(State(EmptyTable(), None), OutLines(t, t.order[..n])) == Some(State(Taken(t, t.order[..n]), None))
  {
    if n == 0 {
      assert Taken(t, []) == EmptyTable();
    } else {
      ReadOutLines(t, n - 1);
      var sf := t.order[n - 1];
      ReadRecord(State(Taken(t, t.order[..n - 1]), None), sf, t.files[sf]);
      StepsConcat(State(EmptyTable(), None), OutLines(t, t.order[..n - 1]), Record(sf, t.files[sf]));
      TakenSnoc(t, n);
      OutLinesSnoc(t, n);
    }
  }

  lemma OutLinesSnoc(t: Table, n: nat)
    requires Proper(t) && 0 < n <= |t.order|
    ensures OutLines(t, t.order[..n]) == OutLines(t, t.order[..n - 1]) + Record(t.order[n - 1], t.files[t.order[n - 1]])
  {
    assert t.order[..n][..n - 1] == t.order[..n - 1];
  }

  lemma TakenSnoc(t: Table, n: nat)
    requires Proper(t) && 0 < n <= |t.order|
    ensures var sf := t.order[n - 1];
            var before := Taken(t, t.order[..n - 1]);
            sf !in before.files && Taken(t, t.order[..n]) == Table(before.files[sf := t.files[sf]], before.order + [sf])
  {
    var sf, before := t.order[n - 1], Taken(t, t.order[..n - 1]);
    assert t.order[..n] == t.order[..n - 1] + [sf];
    assert before.files[sf := t.files[sf]] == Taken(t, t.order[..n]).files;
  }

  lemma RecordClean(sf: string, da: map<int, int>)
    requires Clean(sf)
    ensures AllClean(Record(sf, da))
  {
    var nums := Sorted(da.Keys);
    SfLineOpens(State(EmptyTable(), None), sf);
    forall i | 0 <= i < |nums| ensures Clean(DaLines(da, nums)[i]) { DaLineRead(da, nums[i]); }
    TagLines(State(EmptyTable(), None), |da|, |Hits(da)|);
    CleanParts("SF:" + sf, DaLines(da, nums), "LF:" + Dec(|da|), "LH:" + Dec(|Hits(da)|), "end_of_record");
  }

  lemma CleanParts(first: string, lines: seq<string>, lf: string, lh: string, end: string)
    requires Clean(first) && AllClean(lines) && Clean(lf) && Clean(lh) && Clean(end)
    ensures AllClean([first] + lines + [lf, lh, end])
  {}

  lemma {:induction false} OutLinesClean(t: Table, order: seq<string>)
    requires Proper(t)
    requires forall i :: 0 <= i < |order| ==> order[i] in t.files
    ensures AllClean(OutLines(t, order))
  {
    if |order| > 0 {
      var n := |order| - 1;
      OutLinesClean(t, order[..n]);
      RecordClean(order[n], t.files[order[n]]);
    }
  }

  lemma {:induction false} NormaliseNothing(s: string)
    requires '\r' !in s
    ensures Normalise(s) == s
  {
    if |s| > 0 { NormaliseNothing(s[1..]); }
  }

  lemma {:induction false} JoinClean(parts: seq<string>)
    requires forall i :: 0 <= i < |parts| ==> Clean(parts[i])
    ensures '\r' !in Join(parts, '\n')
  {
    if |parts| > 1 { JoinClean(parts[1..]); }
  }

  lemma {:induction false} JoinEnd(parts: seq<string>)
    requires |parts| > 0
    ensures Join(parts, '\n') + "\n" == Join(parts + [""], '\n')
  {
    if |parts| == 1 {
      assert (parts + [""])[1..] == [""];
    } else {
      JoinEnd(parts[1..]);
      assert (parts + [""])[1..] == parts[1..] + [""];
    }
  }

  /** The lines of a printed list of lines; printing none at all writes one empty line. */
  lemma PrintedLines(parts: seq<string>)
    requires AllClean(parts)
    ensures Lines(Join(parts, '\n') + "\n") == if |parts| == 0 then [""] else parts
  {
    var text := Join(parts, '\n') + "\n";
    JoinClean(parts);
    NormaliseNothing(text);
    if |parts| == 0 {
      LoneNewline(text);
    } else {
      JoinEnd(parts);
      SplitJoin(parts + [""], '\n');
    }
  }

  lemma LoneNewline(text: string)
    requires text == ['\n']
    ensures Split(text, '\n') == ["", ""]
  {
    assert text[1..] == "";
  }

  /** Reading a printed table gives it back. */
  lemma ReadPrinted(t: Table)
    requires Proper(t) && Ordered(t)
    ensures Absorb(EmptyTable(), Print(t)) == Some(t)
  {
    var out := OutLines(t, t.order);
    OutLinesClean(t, t.order);
    PrintedLines(out);
    TakenAll(t);
    ReadOutLines(t, |t.order|);
    assert t.order[..|t.order|] == t.order;
    if |t.order| == 0 {
      BlankLine(t);
    } else {
      OutLinesSome(t, t.order);
    }
  }

  lemma TakenAll(t: Table)
    requires Proper(t)
    ensures Taken(t, t.order) == t
  {
    assert Taken(t, t.order).files == t.files;
  }

  lemma BlankLine(t: Table)
    ensures Steps(State(t, None), [""]) == Some(State(t, None))
  {
    StepsOne(State(t, None), "");
  }

  lemma OutLinesSome(t: Table, order: seq<string>)
    requires |order| > 0 && forall i :: 0 <= i < |order| ==> order[i] in t.files
    ensures |OutLines(t, order)| > 0
  {
    assert |Record(order[|order| - 1], t.files[order[|order| - 1]])| > 0;
  }

  // ---- the laws -----------------------------------------------------------------------------------

  lemma {:induction false} AbsorbAllConcat(t: Table, xs: seq<string>, ys: seq<string>)
    ensures AbsorbAll(t, xs + ys)
            == if AbsorbAll(t, xs).None? then None else AbsorbAll(AbsorbAll(t, xs).value, ys)
  {
    if |ys| == 0 {
      assert xs + ys == xs;
    } else {
      AbsorbAllConcat(t, xs, ys[..|ys| - 1]);
      assert (xs + ys)[..|xs + ys| - 1] == xs + ys[..|ys| - 1];
    }
  }

  /** Reading several files is the join with what they alone give. */
  lemma {:induction false} AbsorbAllIsJoin(a: Table, xs: seq<string>)
    requires Proper(a)
    ensures var alone := AbsorbAll(EmptyTable(), xs);
            AbsorbAll(a, xs) == if alone.None? then None else Some(JoinTables(a, alone.value))
  {
    if |xs| == 0 {
      JoinEmpty(a);
    } else {
      var n := |xs| - 1;
      AbsorbAllIsJoin(a, xs[..n]);
      AllKeepProper(EmptyTable(), xs[..n]);
      AllKeepProper(a, xs[..n]);
      var alone := AbsorbAll(EmptyTable(), xs[..n]);
      if alone.Some? {
        AbsorbIsJoin(alone.value, xs[n]);
        AbsorbIsJoin(JoinTables(a, alone.value), xs[n]);
        AbsorbKeepsProper(EmptyTable(), xs[n]);
        var last := Absorb(EmptyTable(), xs[n]);
        if last.Some? { JoinAssoc(a, alone.value, last.value); }
      }
    }
  }

  /** A merged file stands for the files it was merged from, wherever it is used: replacing any run of
      inputs by their merge changes no byte of the output, and no success into a failure or back. */
  lemma MergeAssociative(pre: seq<string>, xs: seq<string>, post: seq<string>)
    ensures Merge(xs).None? ==> Merge(pre + xs + post).None?
    ensures Merge(xs).Some? ==> Merge(pre + [Merge(xs).value] + post) == Merge(pre + xs + post)
  {
    var e := EmptyTable();
    AllKeepProper(e, pre);
    AbsorbAllConcat(e, pre + xs, post);
    AbsorbAllConcat(e, pre, xs);
    if Merge(xs).Some? {
      MergedReadsBack(xs);
      var m := Merge(xs).value;
      AbsorbAllConcat(e, pre + [m], post);
      AbsorbAllConcat(e, pre, [m]);
    }
    var before := AbsorbAll(e, pre);
    if before.Some? {
      AbsorbAllIsJoin(before.value, xs);
      if Merge(xs).Some? { AbsorbAllIsJoin(before.value, [Merge(xs).value]); }
    }
  }

  lemma MergedReadsBack(xs: seq<string>)
    requires Merge(xs).Some?
    ensures AbsorbAll(EmptyTable(), [Merge(xs).value]) == AbsorbAll(EmptyTable(), xs)
  {
    AllKeepProper(EmptyTable(), xs);
    ReadPrinted(AbsorbAll(EmptyTable(), xs).value);
    assert [Merge(xs).value][..0] == [];
  }

  /** Merging a merged file changes no byte. */
  lemma MergeIdempotent(xs: seq<string>)
    requires Merge(xs).Some?
    ensures Merge([Merge(xs).value]) == Merge(xs)
  {
    MergeAssociative([], xs, []);
    Alone(xs);
    Alone([Merge(xs).value]);
  }

  lemma Alone(xs: seq<string>)
    ensures [] + xs + [] == xs
  {
  }
}
