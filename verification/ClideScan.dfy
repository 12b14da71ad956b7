/** `json_value` of `native/clide-cli/clide.c`: the scanner that picks one member out of a response line
    without parsing it. A buffer is its C string, without the terminating NUL. */
module ClideScan {
  import opened Common
  import opened Json

  // ---- the scanner --------------------------------------------------------------------------------

  /** How many characters the value loop walks over, from nesting depth `depth` and inside a string or
      not, before it stops at the end of `s` or at a `,`, `}` or `]` of its own level. */
  function Walk(s: string, depth: nat, inStr: bool): (n: nat)
    ensures n <= |s|
  {
    if |s| == 0 then 0
    else if inStr then
      if s[0] == '\\' && |s| > 1 then 2 + Walk(s[2..], depth, true)
      else 1 + Walk(s[1..], depth, s[0] != '\"')
    else if s[0] == '\"' then 1 + Walk(s[1..], depth, true)
    else if s[0] == '{' || s[0] == '[' then 1 + Walk(s[1..], depth + 1, false)
    else if s[0] == '}' || s[0] == ']' then
      if depth == 0 then 0 else 1 + Walk(s[1..], depth - 1, false)
    else if s[0] == ',' && depth == 0 then 0
    else 1 + Walk(s[1..], depth, false)
  }

  predicate IsBlank(c: char) { c == ' ' || c == '\t' }

  /** The first position from `from` on that holds no blank. */
  function Skip(buf: string, from: nat): (p: nat)
    requires from <= |buf|
    ensures from <= p <= |buf|
    ensures forall i :: from <= i < p ==> IsBlank(buf[i])
    ensures p < |buf| ==> !IsBlank(buf[p])
    decreases |buf| - from
  {
    if from < |buf| && IsBlank(buf[from]) then Skip(buf, from + 1) else from
  }

  predicate At(s: string, needle: string, i: nat) { i + |needle| <= |s| && s[i..i + |needle|] == needle }

  /** The first occurrence of `needle`, as `strstr` finds it. */
  function Find(s: string, needle: string, from: nat): (r: Option<nat>)
    requires from <= |s|
    ensures r.Some? ==> from <= r.value && At(s, needle, r.value)
    ensures r.Some? ==> forall i :: from <= i < r.value ==> !At(s, needle, i)
    ensures r.None? ==> forall i: nat :: from <= i ==> !At(s, needle, i)
    decreases |s| - from
  {
    if At(s, needle, from) then Some(from)
    else if from == |s| then None
    else Find(s, needle, from + 1)
  }

  const NEEDLE_SIZE := 128

  /** The quoted key, cut to what fits the scanner's own buffer. */
  function Needle(key: string): string {
    var quoted := "\"" + key + "\"";
    if |quoted| < NEEDLE_SIZE then quoted else quoted[..NEEDLE_SIZE - 1]
  }

  /** Where the value of the needle found at `at` starts, if a colon follows it. */
  function ValueStart(buf: string, at: nat, size: nat): (r: Option<nat>)
    requires at + size <= |buf|
    ensures r.Some? ==> at + size < r.value <= |buf|
    ensures r.Some? ==> forall i :: at + size <= i < r.value ==> IsBlank(buf[i]) || buf[i] == ':'
  {
    var colon := Skip(buf, at + size);
    if colon < |buf| && buf[colon] == ':' then Some(Skip(buf, colon + 1)) else None
  }

  /** Start and length of the value after the first occurrence of the needle, or `None` when there is none
      or no colon follows it. */
  function ScanFor(buf: string, needle: string): Option<(nat, nat)> {
    match Find(buf, needle, 0)
    case None => None
    case Some(at) =>
      match ValueStart(buf, at, |needle|)
      case None => None
      case Some(start) => Some((start, Walk(buf[start..], 0, false)))
  }

  function JsonValue(buf: string, key: string): Option<(nat, nat)> { ScanFor(buf, Needle(key)) }

  /** `strstr`; `|buf| + 1` stands for the null pointer. */
  method FindNeedle(buf: string, needle: string) returns (p: nat)
    ensures Find(buf, needle, 0) == if p <= |buf| then Some(p) else None
  {
    p := 0;
    while p <= |buf| && !At(buf, needle, p)
      invariant p <= |buf| + 1
      invariant p <= |buf| ==> Find(buf, needle, 0) == Find(buf, needle, p)
      invariant p > |buf| ==> Find(buf, needle, 0) == None
    {
      p := p + 1;
    }
  }

  method SkipBlanks(buf: string, from: nat) returns (p: nat)
    requires from <= |buf|
    ensures p == Skip(buf, from)
  {
    p := from;
    while p < |buf| && IsBlank(buf[p])
      invariant from <= p <= |buf|
      invariant Skip(buf, from) == Skip(buf, p)
    {
      p := p + 1;
    }
  }

  /** The loop over the value. */
  method WalkValueLoop(buf: string, start: nat) returns (p: nat)
    requires start <= |buf|
    ensures p == start + Walk(buf[start..], 0, false)
  {
    p := start;
    var depth: nat := 0;
    var inStr := false;
    while p < |buf|
      invariant start <= p <= |buf|
      invariant start + Walk(buf[start..], 0, false) == p + Walk(buf[p..], depth, inStr)
      decreases |buf| - p
    {
      ghost var s := buf[p..];
      assert s[0] == buf[p] && s[1..] == buf[p + 1..];
      if inStr {
        if buf[p] == '\\' && p + 1 < |buf| {
          assert s[2..] == buf[p + 2..];
          p := p + 2;
          continue;
        }
        if buf[p] == '\"' { inStr := false; }
      } else {
        if buf[p] == '\"' { inStr := true; }
        else if buf[p] == '{' || buf[p] == '[' { depth := depth + 1; }
        else if buf[p] == '}' || buf[p] == ']' {
          if depth == 0 { return; }
          depth := depth - 1;
        } else if buf[p] == ',' && depth == 0 { return; }
      }
      p := p + 1;
    }
  }

  method FindJsonValue(buf: string, key: string) returns (found: bool, start: nat, len: nat)
    ensures JsonValue(buf, key) == if found then Some((start, len)) else None
  {
    var needle := Needle(key);
    var at := FindNeedle(buf, needle);
    if at > |buf| { return false, 0, 0; }
    var p := SkipBlanks(buf, at + |needle|);
    if p == |buf| || buf[p] != ':' { return false, 0, 0; }
    start := SkipBlanks(buf, p + 1);
    p := WalkValueLoop(buf, start);
    return true, start, p - start;
  }

  // ---- the walk over a well-formed value ----------------------------------------------------------

  predicate Quiet(c: char) { c !in "\"{}[]," }

  lemma {:induction false} WalkQuiet(s: string, rest: string, depth: nat)
    requires forall i :: 0 <= i < |s| ==> Quiet(s[i])
    ensures Walk(s + rest, depth, false) == |s| + Walk(rest, depth, false)
  {
    if |s| == 0 {
      assert s + rest == rest;
    } else {
      assert (s + rest)[1..] == s[1..] + rest;
      WalkQuiet(s[1..], rest, depth);
    }
  }

  lemma WalkItem(item: Item, more: string, depth: nat)
    requires GoodItem(item)
    ensures Walk(ItemText(item) + more, depth, true) == |ItemText(item)| + Walk(more, depth, true)
  {
    var s := ItemText(item) + more;
    match item {
      case Plain(c) => assert s[1..] == more;
      case Short(c) => assert s[2..] == more;
      case Hex(digits) =>
        assert s[2..] == digits + more;
        WalkHex(digits, more, depth);
    }
  }

  /** Escapes never hide or fake the end of a string. */
  lemma {:induction false} WalkItems(items: seq<Item>, rest: string, depth: nat)
    requires GoodItems(items)
    ensures Walk(PutItems(items, "\"" + rest), depth, true)
            == |PutItems(items, "\"" + rest)| - |rest| + Walk(rest, depth, false)
  {
    if |items| == 0 {
      assert ("\"" + rest)[1..] == rest;
    } else {
      WalkItems(items[1..], rest, depth);
      WalkItem(items[0], PutItems(items[1..], "\"" + rest), depth);
    }
  }

  lemma {:induction false} WalkHex(digits: string, more: string, depth: nat)
    requires forall i :: 0 <= i < |digits| ==> IsHex(digits[i])
    ensures Walk(digits + more, depth, true) == |digits| + Walk(more, depth, true)
  {
    if |digits| == 0 {
      assert digits + more == more;
    } else {
      assert (digits + more)[1..] == digits[1..] + more;
      WalkHex(digits[1..], more, depth);
    }
  }

  lemma WalkStr(items: seq<Item>, rest: string, depth: nat)
    requires GoodItems(items)
    ensures var s := PutStr(items, rest);
            Walk(s, depth, false) == |s| - |rest| + Walk(rest, depth, false)
  {
    assert PutStr(items, rest)[1..] == PutItems(items, "\"" + rest);
    WalkItems(items, rest, depth);
  }

  /** From any depth the walk crosses a whole value and is back at that depth after it. */
  lemma {:induction false} WalkValue(v: Val, rest: string, depth: nat)
    requires Good(v)
    ensures var s := Put(v, rest);
            Walk(s, depth, false) == |s| - |rest| + Walk(rest, depth, false)
    decreases v, 2
  {
    match v {
      case Lit(text) => WalkQuiet(text, rest, depth);
      case Num(_, _, _, _) => WalkNum(v, rest, depth);
      case Str(items) => WalkStr(items, rest, depth);
      case Arr(_) => WalkArr(v, rest, depth);
      case Obj(_) => WalkObj(v, rest, depth);
    }
  }

  lemma {:induction false} WalkArr(v: Val, rest: string, depth: nat)
    requires v.Arr? && Good(v)
    ensures var s := Put(v, rest);
            Walk(s, depth, false) == |s| - |rest| + Walk(rest, depth, false)
    decreases v, 1
  {
    assert Put(v, rest)[1..] == PutElems(v.elems, "]" + rest) && ("]" + rest)[1..] == rest;
    WalkElems(v.elems, "]" + rest, depth + 1);
  }

  lemma {:induction false} WalkObj(v: Val, rest: string, depth: nat)
    requires v.Obj? && Good(v)
    ensures var s := Put(v, rest);
            Walk(s, depth, false) == |s| - |rest| + Walk(rest, depth, false)
    decreases v, 1
  {
    assert Put(v, rest)[1..] == PutMembers(v.members, "}" + rest) && ("}" + rest)[1..] == rest;
    WalkMembers(v.members, "}" + rest, depth + 1);
  }

  lemma QuietNumber(whole: string, frac: string, exp: string)
    requires GoodWhole(whole) && GoodFraction(frac) && GoodExponent(exp)
    ensures forall c :: c in whole ==> Quiet(c)
    ensures forall c :: c in frac ==> Quiet(c)
    ensures forall c :: c in exp ==> Quiet(c)
  {
    if frac != "" { assert frac == [frac[0]] + frac[1..]; }
    if exp != "" {
      assert exp == [exp[0]] + exp[1..];
      if !Digits(exp[1..]) { assert exp == [exp[0], exp[1]] + exp[2..]; }
    }
  }

  lemma WalkNum(v: Val, rest: string, depth: nat)
    requires v.Num? && Good(v)
    ensures Walk(Put(v, rest), depth, false) == |Put(v, rest)| - |rest| + Walk(rest, depth, false)
  {
    QuietNumber(v.whole, v.frac, v.exp);
    var r3 := v.exp + rest;
    var r2 := v.frac + r3;
    var r1 := v.whole + r2;
    WalkQuiet(v.exp, rest, depth);
    WalkQuiet(v.frac, r3, depth);
    WalkQuiet(v.whole, r2, depth);
    WalkQuiet("-", r1, depth);
  }

  lemma {:induction false} WalkElems(elems: seq<Val>, rest: string, depth: nat)
    requires GoodElems(elems) && depth > 0
    ensures var s := PutElems(elems, rest);
            Walk(s, depth, false) == |s| - |rest| + Walk(rest, depth, false)
    decreases elems, 1
  {
    if |elems| == 1 {
      WalkValue(elems[0], rest, depth);
    } else if |elems| > 1 {
      var more := PutElems(elems[1..], rest);
      WalkValue(elems[0], "," + more, depth);
      WalkElems(elems[1..], rest, depth);
      assert ("," + more)[1..] == more;
    }
  }

  lemma {:induction false} WalkMember(m: Member, rest: string, depth: nat)
    requires GoodItems(m.key) && Good(m.value)
    ensures var s := PutMember(m, rest);
            Walk(s, depth, false) == |s| - |rest| + Walk(rest, depth, false)
    decreases m, 1
  {
    var after := ":" + Put(m.value, rest);
    WalkStr(m.key, after, depth);
    WalkValue(m.value, rest, depth);
    assert after[1..] == Put(m.value, rest);
  }

  lemma {:induction false} WalkMembers(members: seq<Member>, rest: string, depth: nat)
    requires GoodMembers(members) && depth > 0
    ensures var s := PutMembers(members, rest);
            Walk(s, depth, false) == |s| - |rest| + Walk(rest, depth, false)
    decreases members, 2
  {
    if |members| == 1 {
      WalkMember(members[0], rest, depth);
    } else if |members| > 1 {
      var more := PutMembers(members[1..], rest);
      WalkMember(members[0], "," + more, depth);
      WalkMembers(members[1..], rest, depth);
      assert ("," + more)[1..] == more;
    }
  }

  /** The scan of a well-formed value, at any nesting and with any escapes, stops exactly at its end when a
      separator or the end of the buffer follows. */
  lemma WalkStopsAtEnd(v: Val, rest: string)
    requires Good(v) && (|rest| == 0 || rest[0] in ",}]")
    ensures Walk(Text(v) + rest, 0, false) == |Text(v)|
  {
    TextThen(v, rest);
    WalkValue(v, rest, 0);
  }

  lemma TextThen(v: Val, rest: string)
    ensures Text(v) + rest == Put(v, rest)
  {
    PutAppend(v, "", rest);
    assert "" + rest == rest;
  }

  // ---- picking a member ---------------------------------------------------------------------------

  predicate AllBlank(s: string) { forall i :: 0 <= i < |s| ==> IsBlank(s[i]) }

  /** The characters between the needle and the value of a member. */
  function Gap(b1: string, b2: string): string { b1 + [':'] + b2 }

  /** A member of a response, with the blanks the scanner allows around its colon. */
  function MemberAt(pre: string, key: string, b1: string, b2: string, v: Val, rest: string): string {
    Assembled(pre, "\"" + key + "\"", b1, b2, Text(v), rest)
  }

  function Assembled(pre: string, needle: string, b1: string, b2: string, text: string, rest: string): string {
    pre + needle + Gap(b1, b2) + text + rest
  }

  lemma SkipStops(buf: string, from: nat, p: nat)
    requires from <= p < |buf| && !IsBlank(buf[p])
    requires forall i :: from <= i < p ==> IsBlank(buf[i])
    ensures Skip(buf, from) == p
  {}

  lemma ValueStartsAt(buf: string, at: nat, size: nat, b1: string, b2: string, tail: string)
    requires at + size <= |buf| && buf[at + size..] == Gap(b1, b2) + tail
    requires AllBlank(b1) && AllBlank(b2) && |tail| > 0 && !IsBlank(tail[0])
    ensures ValueStart(buf, at, size) == Some(at + size + |b1| + 1 + |b2|)
  {
    var p := at + size;
    var after := buf[p..];
    var colon := p + |b1|;
    assert forall i :: p <= i < |buf| ==> buf[i] == after[i - p];
    assert forall i :: 0 <= i < |b1| ==> after[i] == b1[i];
    assert forall i :: 0 <= i < |b2| ==> after[|b1| + 1 + i] == b2[i];
    assert after[|b1|] == ':' && after[|b1| + 1 + |b2|] == tail[0];
    SkipStops(buf, p, colon);
    SkipStops(buf, colon + 1, colon + 1 + |b2|);
  }

  /** A value found through an earlier needle cannot start where this member's value starts: the closing
      quote of the later needle would have to be a blank or a colon. */
  lemma EarlierNeedleStartsEarlier(buf: string, needle: string, at: nat, start: nat)
    requires Quoted(needle) && At(buf, needle, at) && at + |needle| <= start
    ensures ScanFor(buf, needle).Some? && ScanFor(buf, needle).value.0 == start ==> Find(buf, needle, 0) == Some(at)
  {
    var found := Find(buf, needle, 0);
    var i := at + |needle| - 1;
    assert buf[i] == buf[at..at + |needle|][|needle| - 1] == '\"';
    assert found.Some? && found.value <= at;
  }

  /** The scanner returns exactly the text of this member's value if and only if the quoted key occurs here
      first: an earlier occurrence, as a string value or in a nested object, hides the member. */
  lemma JsonValueExactIff(pre: string, key: string, b1: string, b2: string, v: Val, rest: string)
    requires Good(v) && (|rest| == 0 || rest[0] in ",}]")
    requires |key| + 2 < 128 && forall c :: c in b1 || c in b2 ==> c == ' ' || c == '\t'
    ensures var buf := MemberAt(pre, key, b1, b2, v, rest);
            var quoted := "\"" + key + "\"";
            var start := |pre| + |quoted| + |b1| + 1 + |b2|;
            && buf[start..start + |Text(v)|] == Text(v)
            && (JsonValue(buf, key) == Some((start, |Text(v)|)) <==> Find(buf, quoted, 0) == Some(|pre|))
  {
    OnlyBlanks(b1);
    OnlyBlanks(b2);
    KeyFoundIff(pre, key, b1, b2, v, rest);
  }

  lemma OnlyBlanks(s: string)
    ensures (forall c :: c in s ==> c == ' ' || c == '\t') ==> AllBlank(s)
  {
    assert forall i :: 0 <= i < |s| ==> s[i] in s;
  }

  lemma KeyFoundIff(pre: string, key: string, b1: string, b2: string, v: Val, rest: string)
    requires Good(v) && (|rest| == 0 || rest[0] in ",}]")
    requires |key| + 2 < NEEDLE_SIZE && AllBlank(b1) && AllBlank(b2)
    ensures Needle(key) == "\"" + key + "\""
    ensures FoundExactly(MemberAt(pre, key, b1, b2, v, rest), Needle(key), |pre|,
                         |pre| + |Needle(key)| + |b1| + 1 + |b2|, Text(v))
  {
    ValueIsScanned(v, rest);
    TextFoundIff(pre, key, b1, b2, Text(v), rest);
  }

  lemma TextFoundIff(pre: string, key: string, b1: string, b2: string, text: string, rest: string)
    requires |key| + 2 < NEEDLE_SIZE && AllBlank(b1) && AllBlank(b2) && Scanned(text, rest)
    ensures FoundExactly(Assembled(pre, Needle(key), b1, b2, text, rest), Needle(key), |pre|,
                         |pre| + |Needle(key)| + |b1| + 1 + |b2|, text)
  {
    NeedleQuoted(key);
    MemberFoundIff(pre, Needle(key), b1, b2, text, rest);
  }

  /** Once at the start of `text`, the scanner takes it and nothing of `rest`. */
  ghost predicate Scanned(text: string, rest: string) {
    |text + rest| > 0 && !IsBlank((text + rest)[0]) && Walk(text + rest, 0, false) == |text|
  }

  lemma ValueIsScanned(v: Val, rest: string)
    requires Good(v) && (|rest| == 0 || rest[0] in ",}]")
    ensures Scanned(Text(v), rest)
  {
    TextStart(v, rest);
    WalkStopsAtEnd(v, rest);
  }

  ghost predicate Quoted(needle: string) { |needle| > 0 && needle[|needle| - 1] == '\"' }

  lemma NeedleQuoted(key: string)
    requires |key| + 2 < NEEDLE_SIZE
    ensures Quoted(Needle(key))
  {}

  /** The needle stands at `at`, and its value `text`, followed by `rest`, at `start`. */
  ghost predicate LaidOut(buf: string, needle: string, at: nat, start: nat, text: string, rest: string) {
    At(buf, needle, at) && ValueStart(buf, at, |needle|) == Some(start) && buf[start..] == text + rest
  }

  ghost predicate FoundExactly(buf: string, needle: string, at: nat, start: nat, text: string) {
    && start + |text| <= |buf| && buf[start..start + |text|] == text
    && (ScanFor(buf, needle) == Some((start, |text|)) <==> Find(buf, needle, 0) == Some(at))
  }

  lemma MemberFoundIff(pre: string, needle: string, b1: string, b2: string, text: string, rest: string)
    requires AllBlank(b1) && AllBlank(b2) && Quoted(needle) && Scanned(text, rest)
    ensures FoundExactly(Assembled(pre, needle, b1, b2, text, rest), needle, |pre|, |pre| + |needle| + |b1| + 1 + |b2|, text)
  {
    var buf := Layout(pre, needle, b1, b2, text, rest);
    ExactAfterNeedle(buf, needle, |pre|, |pre| + |needle| + |b1| + 1 + |b2|, text, rest);
  }

  lemma ExactAfterNeedle(buf: string, needle: string, at: nat, start: nat, text: string, rest: string)
    requires LaidOut(buf, needle, at, start, text, rest) && Quoted(needle) && Scanned(text, rest)
    ensures FoundExactly(buf, needle, at, start, text)
  {
    EarlierNeedleStartsEarlier(buf, needle, at, start);
    assert buf[start..start + |text|] == buf[start..][..|text|];
  }

  lemma TextStart(v: Val, rest: string)
    requires Good(v)
    ensures |Text(v) + rest| > 0 && !IsBlank((Text(v) + rest)[0])
  {
    TextThen(v, rest);
    FirstChar(v, rest);
  }

  lemma Layout(pre: string, needle: string, b1: string, b2: string, text: string, rest: string) returns (buf: string)
    requires AllBlank(b1) && AllBlank(b2) && Scanned(text, rest)
    ensures buf == Assembled(pre, needle, b1, b2, text, rest)
    ensures LaidOut(buf, needle, |pre|, |pre| + |needle| + |b1| + 1 + |b2|, text, rest)
  {
    buf := pre + needle + Gap(b1, b2) + text + rest;
    Slices(pre, needle, Gap(b1, b2), text, rest);
    ValueStartsAt(buf, |pre|, |needle|, b1, b2, text + rest);
  }

  lemma Slices(pre: string, needle: string, gap: string, text: string, rest: string)
    ensures var buf := pre + needle + gap + text + rest;
            var start := |pre| + |needle| + |gap|;
            && At(buf, needle, |pre|)
            && buf[|pre| + |needle|..] == gap + (text + rest)
            && buf[start..] == text + rest
  {}

  lemma AtChars(s: string, needle: string, i: nat, j: nat)
    requires At(s, needle, i) && j < |needle|
    ensures s[i + j] == needle[j]
  {
    assert s[i..i + |needle|][j] == s[i + j];
  }

  lemma OkIsHidden(buf: string, needle: string)
    requires needle == "\"ok\"" && buf == "{\"id\":\"ok\",\"ok\":true}"
    ensures Find(buf, needle, 0) == Some(6) && Skip(buf, 10) == 10
  {
    assert buf[6..10] == needle;
    assert At(buf, needle, 6);
    var found := Find(buf, needle, 0);
    AtChars(buf, needle, found.value, 0);
    AtChars(buf, needle, found.value, 1);
  }

  /** A response in which the key is also the value of an earlier member: `ok` is then not found. */
  lemma EarlierValueHides()
    ensures JsonValue("{\"id\":\"ok\",\"ok\":true}", "ok") == None
  {
    assert Needle("ok") == "\"ok\"";
    OkIsHidden("{\"id\":\"ok\",\"ok\":true}", "\"ok\"");
  }

  /** A key of 126 characters does not fit the needle with its closing quote, and its member is not found. */
  lemma LongKeyIsNotFound(key: string)
    requires |key| == 126
    ensures JsonValue("\"" + key + "\":1", key) == None
  {
    var buf := "\"" + key + "\":1";
    assert Needle(key) == ("\"" + key + "\"")[..127];
    assert buf[0..127] == Needle(key);
    assert At(buf, Needle(key), 0);
    assert buf[127] == '\"';
  }

  /** Only blanks and tabs are passed over before a value, and none is taken off its end. */
  lemma NewlineIsTaken(line: string, blank: string)
    requires line == "\"k\":\n1" && blank == "\"k\":1 }"
    ensures JsonValue(line, "k") == Some((4, 2))
    ensures JsonValue(blank, "k") == Some((4, 2))
  {
    KeyFirst(line);
    KeyFirst(blank);
    assert line[4..] == "\n1" && blank[4..] == "1 }";
    WalkTwo(line[4..]);
    WalkTwo(blank[4..]);
  }

  lemma KeyFirst(buf: string)
    requires "\"k\":" <= buf
    ensures Needle("k") == "\"k\"" && Find(buf, "\"k\"", 0) == Some(0) && |buf| > 3 && buf[3] == ':'
  {
    assert buf[..4] == "\"k\":" && buf[3] == buf[..4][3];
    assert buf[0..3] == "\"k\"";
    assert At(buf, "\"k\"", 0);
  }

  lemma WalkTwo(s: string)
    requires s == "\n1" || s == "1 }"
    ensures Walk(s, 0, false) == 2
  {
    assert s[1..][0] == s[1];
    assert Walk(s[1..], 0, false) == 1 + Walk(s[1..][1..], 0, false);
    assert s[1..][1..] == s[2..];
    if |s| > 2 { assert s[2..][0] == '}'; }
  }
}
