/** JSON texts without insignificant white space (RFC 8259): the grammar as trees with their text, a parser
    that undoes it, and the meaning of string literals. A text is a string of bytes, one byte a character. */
module Json {
  import opened Common

  /** One character of a string literal (section 7): itself, a two-character escape or a `\u` escape. */
  datatype Item = Plain(c: char) | Short(c: char) | Hex(digits: string)

  datatype Val =
    | Lit(text: string)
    | Num(neg: bool, whole: string, frac: string, exp: string)
    | Str(items: seq<Item>)
    | Arr(elems: seq<Val>)
    | Obj(members: seq<Member>)

  datatype Member = Member(key: seq<Item>, value: Val)

  // ---- grammar ------------------------------------------------------------------------------------

  predicate IsHex(c: char) { '0' <= c <= '9' || 'a' <= c <= 'f' || 'A' <= c <= 'F' }

  predicate IsShort(c: char) { c in "\"\\/bfnrt" }

  predicate GoodItem(item: Item) {
    match item
    case Plain(c) => c >= ' ' && c != '\"' && c != '\\'
    case Short(c) => IsShort(c)
    case Hex(digits) => |digits| == 4 && forall i :: 0 <= i < 4 ==> IsHex(digits[i])
  }

  predicate GoodItems(items: seq<Item>) { forall i :: 0 <= i < |items| ==> GoodItem(items[i]) }

  predicate IsDigit(c: char) { '0' <= c <= '9' }

  predicate Digits(s: string) { |s| > 0 && forall i :: 0 <= i < |s| ==> IsDigit(s[i]) }

  /** The parts of a number (section 6): no leading zeros, a fraction with its point, an exponent with its
      letter and sign. */
  predicate GoodWhole(s: string) { Digits(s) && (s[0] == '0' ==> |s| == 1) }

  predicate GoodFraction(s: string) { s == "" || (s[0] == '.' && Digits(s[1..])) }

  predicate GoodExponent(s: string) {
    s == "" || (s[0] in "eE" && |s| > 1 && (Digits(s[1..]) || (s[1] in "+-" && Digits(s[2..]))))
  }

  predicate Good(v: Val) {
    match v
    case Lit(text) => text == "null" || text == "true" || text == "false"
    case Num(_, whole, frac, exp) => GoodWhole(whole) && GoodFraction(frac) && GoodExponent(exp)
    case Str(items) => GoodItems(items)
    case Arr(elems) => GoodElems(elems)
    case Obj(members) => GoodMembers(members)
  }

  predicate GoodElems(elems: seq<Val>) {
    |elems| > 0 ==> Good(elems[0]) && GoodElems(elems[1..])
  }

  predicate GoodMembers(members: seq<Member>) {
    |members| > 0 ==> GoodItems(members[0].key) && Good(members[0].value) && GoodMembers(members[1..])
  }

  // ---- text: `Put(v, rest)` is the text of `v` with `rest` after it -------------------------------

  function ItemText(item: Item): string {
    match item
    case Plain(c) => [c]
    case Short(c) => ['\\', c]
    case Hex(digits) => "\\u" + digits
  }

  function PutItems(items: seq<Item>, rest: string): string {
    if |items| == 0 then rest else ItemText(items[0]) + PutItems(items[1..], rest)
  }

  function PutStr(items: seq<Item>, rest: string): string { "\"" + PutItems(items, "\"" + rest) }

  function Put(v: Val, rest: string): string {
    match v
    case Lit(text) => text + rest
    case Num(neg, whole, frac, exp) =>
      var digits := whole + (frac + (exp + rest));
      if neg then "-" + digits else digits
    case Str(items) => PutStr(items, rest)
    case Arr(elems) => "[" + PutElems(elems, "]" + rest)
    case Obj(members) => "{" + PutMembers(members, "}" + rest)
  }

  function PutElems(elems: seq<Val>, rest: string): string {
    if |elems| == 0 then rest
    else if |elems| == 1 then Put(elems[0], rest)
    else Put(elems[0], "," + PutElems(elems[1..], rest))
  }

  function PutMember(m: Member, rest: string): string { PutStr(m.key, ":" + Put(m.value, rest)) }

  function PutMembers(members: seq<Member>, rest: string): string {
    if |members| == 0 then rest
    else if |members| == 1 then PutMember(members[0], rest)
    else PutMember(members[0], "," + PutMembers(members[1..], rest))
  }

  function Text(v: Val): string { Put(v, "") }

  lemma {:induction false} PutItemsAppend(items: seq<Item>, a: string, b: string)
    ensures PutItems(items, a) + b == PutItems(items, a + b)
  {
    if |items| > 0 {
      PutItemsAppend(items[1..], a, b);
      assert PutItems(items, a) + b == ItemText(items[0]) + (PutItems(items[1..], a) + b);
    }
  }

  lemma PutStrAppend(items: seq<Item>, a: string, b: string)
    ensures PutStr(items, a) + b == PutStr(items, a + b)
  {
    PutItemsAppend(items, "\"" + a, b);
    assert ("\"" + a) + b == "\"" + (a + b);
    assert PutStr(items, a) + b == "\"" + (PutItems(items, "\"" + a) + b);
  }

  /** `Put(v, rest)` really is the text of `v` and then `rest`. */
  lemma {:induction false} PutAppend(v: Val, a: string, b: string)
    ensures Put(v, a) + b == Put(v, a + b)
    decreases v, 0
  {
    match v {
      case Lit(text) => assert (text + a) + b == text + (a + b);
      case Num(neg, whole, frac, exp) =>
        assert (exp + a) + b == exp + (a + b);
        assert (frac + (exp + a)) + b == frac + (exp + (a + b));
        assert (whole + (frac + (exp + a))) + b == whole + (frac + (exp + (a + b)));
        assert neg ==> Put(v, a) + b == "-" + (whole + (frac + (exp + a)) + b);
      case Str(items) => PutStrAppend(items, a, b);
      case Arr(elems) =>
        PutElemsAppend(elems, "]" + a, b);
        assert ("]" + a) + b == "]" + (a + b);
        assert Put(v, a) + b == "[" + (PutElems(elems, "]" + a) + b);
      case Obj(members) =>
        PutMembersAppend(members, "}" + a, b);
        assert ("}" + a) + b == "}" + (a + b);
        assert Put(v, a) + b == "{" + (PutMembers(members, "}" + a) + b);
    }
  }

  lemma {:induction false} PutElemsAppend(elems: seq<Val>, a: string, b: string)
    ensures PutElems(elems, a) + b == PutElems(elems, a + b)
    decreases elems, 1
  {
    if |elems| == 1 {
      PutAppend(elems[0], a, b);
    } else if |elems| > 1 {
      var more := PutElems(elems[1..], a);
      PutElemsAppend(elems[1..], a, b);
      PutAppend(elems[0], "," + more, b);
      assert ("," + more) + b == "," + (more + b);
    }
  }

  lemma {:induction false} PutMemberAppend(m: Member, a: string, b: string)
    ensures PutMember(m, a) + b == PutMember(m, a + b)
    decreases m, 1
  {
    PutAppend(m.value, a, b);
    PutStrAppend(m.key, ":" + Put(m.value, a), b);
    assert (":" + Put(m.value, a)) + b == ":" + (Put(m.value, a) + b);
  }

  lemma {:induction false} PutMembersAppend(members: seq<Member>, a: string, b: string)
    ensures PutMembers(members, a) + b == PutMembers(members, a + b)
    decreases members, 2
  {
    if |members| == 1 {
      PutMemberAppend(members[0], a, b);
    } else if |members| > 1 {
      var more := PutMembers(members[1..], a);
      PutMembersAppend(members[1..], a, b);
      PutMemberAppend(members[0], "," + more, b);
      assert ("," + more) + b == "," + (more + b);
    }
  }

  // ---- parser -------------------------------------------------------------------------------------

  /** The items up to the closing quote, and what follows the quote. */
  function ParseItems(s: string): (r: Option<(seq<Item>, string)>)
    ensures r.Some? ==> |r.value.1| < |s|
  {
    if |s| == 0 || s[0] < ' ' then None
    else if s[0] == '\"' then Some(([], s[1..]))
    else if s[0] != '\\' then AddItem(Plain(s[0]), ParseItems(s[1..]))
    else if |s| < 2 then None
    else if s[1] == 'u' then
      if |s| >= 6 && GoodItem(Hex(s[2..6])) then AddItem(Hex(s[2..6]), ParseItems(s[6..])) else None
    else if IsShort(s[1]) then AddItem(Short(s[1]), ParseItems(s[2..]))
    else None
  }

  function AddItem(item: Item, r: Option<(seq<Item>, string)>): Option<(seq<Item>, string)> {
    match r
    case None => None
    case Some((items, rest)) => Some(([item] + items, rest))
  }

  function DigitRun(s: string): (k: nat)
    ensures k <= |s|
    ensures forall i :: 0 <= i < k ==> IsDigit(s[i])
    ensures k < |s| ==> !IsDigit(s[k])
  {
    if |s| > 0 && IsDigit(s[0]) then 1 + DigitRun(s[1..]) else 0
  }

  function FractionRun(s: string): (k: nat)
    ensures k <= |s|
  {
    if |s| > 0 && s[0] == '.' then 1 + DigitRun(s[1..]) else 0
  }

  function ExponentRun(s: string): (k: nat)
    ensures k <= |s|
  {
    if |s| > 0 && s[0] in "eE" then
      if |s| > 1 && s[1] in "+-" then 2 + DigitRun(s[2..]) else 1 + DigitRun(s[1..])
    else 0
  }

  /** Number `neg`, its sign being read already. */
  function ParseUnsigned(neg: bool, s: string): (r: Option<(Val, string)>)
    ensures r.Some? ==> |r.value.1| < |s|
  {
    var k := DigitRun(s);
    var s2 := s[k..];
    var f := FractionRun(s2);
    var s3 := s2[f..];
    var e := ExponentRun(s3);
    if GoodWhole(s[..k]) && GoodFraction(s2[..f]) && GoodExponent(s3[..e]) then
      Some((Num(neg, s[..k], s2[..f], s3[..e]), s3[e..]))
    else None
  }

  function ParseNum(s: string): (r: Option<(Val, string)>)
    ensures r.Some? ==> |r.value.1| < |s|
  {
    if |s| > 0 && s[0] == '-' then ParseUnsigned(true, s[1..]) else ParseUnsigned(false, s)
  }

  /** One of the three words, or a number. */
  function ParseScalar(s: string): (r: Option<(Val, string)>)
    ensures r.Some? ==> |r.value.1| < |s|
  {
    if "null" <= s then Some((Lit("null"), s[4..]))
    else if "true" <= s then Some((Lit("true"), s[4..]))
    else if "false" <= s then Some((Lit("false"), s[5..]))
    else ParseNum(s)
  }

  function ParseVal(s: string): (r: Option<(Val, string)>)
    ensures r.Some? ==> |r.value.1| < |s|
    decreases |s|, 1
  {
    if |s| == 0 then None
    else if s[0] == '\"' then
      match ParseItems(s[1..])
      case None => None
      case Some((items, rest)) => Some((Str(items), rest))
    else if s[0] == '[' then
      if |s| > 1 && s[1] == ']' then Some((Arr([]), s[2..]))
      else
        match ParseElems(s[1..])
        case None => None
        case Some((elems, rest)) => Some((Arr(elems), rest))
    else if s[0] == '{' then
      if |s| > 1 && s[1] == '}' then Some((Obj([]), s[2..]))
      else
        match ParseMembers(s[1..])
        case None => None
        case Some((members, rest)) => Some((Obj(members), rest))
    else ParseScalar(s)
  }

  /** One or more elements and the closing bracket. */
  function ParseElems(s: string): (r: Option<(seq<Val>, string)>)
    ensures r.Some? ==> |r.value.1| < |s|
    decreases |s|, 2
  {
    match ParseVal(s)
    case None => None
    case Some((v, rest)) =>
      if |rest| > 0 && rest[0] == ']' then Some(([v], rest[1..]))
      else if |rest| > 0 && rest[0] == ',' then
        match ParseElems(rest[1..])
        case None => None
        case Some((vs, rest')) => Some(([v] + vs, rest'))
      else None
  }

  function ParseMember(s: string): (r: Option<(Member, string)>)
    ensures r.Some? ==> |r.value.1| < |s|
    decreases |s|, 2
  {
    if |s| == 0 || s[0] != '\"' then None
    else
      match ParseItems(s[1..])
      case None => None
      case Some((key, rest)) =>
        if |rest| == 0 || rest[0] != ':' then None
        else
          match ParseVal(rest[1..])
          case None => None
          case Some((v, rest')) => Some((Member(key, v), rest'))
  }

  /** One or more members and the closing brace. */
  function ParseMembers(s: string): (r: Option<(seq<Member>, string)>)
    ensures r.Some? ==> |r.value.1| < |s|
    decreases |s|, 3
  {
    match ParseMember(s)
    case None => None
    case Some((m, rest)) =>
      if |rest| > 0 && rest[0] == '}' then Some(([m], rest[1..]))
      else if |rest| > 0 && rest[0] == ',' then
        match ParseMembers(rest[1..])
        case None => None
        case Some((ms, rest')) => Some(([m] + ms, rest'))
      else None
  }

  // ---- the parser undoes the text -----------------------------------------------------------------

  lemma {:induction false} ParsePutItems(items: seq<Item>, rest: string)
    requires GoodItems(items)
    ensures ParseItems(PutItems(items, "\"" + rest)) == Some((items, rest))
  {
    var s := PutItems(items, "\"" + rest);
    if |items| > 0 {
      var item, more := items[0], PutItems(items[1..], "\"" + rest);
      ParsePutItems(items[1..], rest);
      assert s[|ItemText(item)|..] == more;
      assert items == [item] + items[1..];
      if item.Hex? { assert s[2..6] == item.digits; }
    }
  }

  lemma {:induction false} DigitRunText(digits: string, rest: string)
    requires forall i :: 0 <= i < |digits| ==> IsDigit(digits[i])
    requires |rest| > 0 ==> !IsDigit(rest[0])
    ensures DigitRun(digits + rest) == |digits|
  {
    if |digits| == 0 {
      assert digits + rest == rest;
    } else {
      assert (digits + rest)[1..] == digits[1..] + rest;
      DigitRunText(digits[1..], rest);
    }
  }

  predicate EndsNumber(rest: string) {
    |rest| > 0 ==> !IsDigit(rest[0]) && rest[0] !in ".eE"
  }

  lemma Cut(a: string, b: string)
    ensures (a + b)[..|a|] == a && (a + b)[|a|..] == b
  {}

  lemma FractionRunText(frac: string, rest: string)
    requires GoodFraction(frac) && (|rest| > 0 ==> !IsDigit(rest[0]) && rest[0] != '.')
    ensures FractionRun(frac + rest) == |frac|
  {
    if frac != "" {
      assert (frac + rest)[1..] == frac[1..] + rest;
      DigitRunText(frac[1..], rest);
    } else {
      assert frac + rest == rest;
    }
  }

  lemma ExponentRunText(exp: string, rest: string)
    requires GoodExponent(exp) && EndsNumber(rest)
    ensures ExponentRun(exp + rest) == |exp|
  {
    if exp != "" {
      var s := exp + rest;
      if exp[1] in "+-" {
        assert !IsDigit(exp[1..][0]);
        assert s[2..] == exp[2..] + rest;
        DigitRunText(exp[2..], rest);
      } else {
        assert s[1..] == exp[1..] + rest;
        DigitRunText(exp[1..], rest);
      }
    } else {
      assert exp + rest == rest;
    }
  }

  lemma ParseUnsignedText(neg: bool, whole: string, frac: string, exp: string, rest: string)
    requires GoodWhole(whole) && GoodFraction(frac) && GoodExponent(exp) && EndsNumber(rest)
    ensures ParseUnsigned(neg, whole + (frac + (exp + rest))) == Some((Num(neg, whole, frac, exp), rest))
  {
    var s3 := exp + rest;
    var s2 := frac + s3;
    DigitRunText(whole, s2);
    Cut(whole, s2);
    FractionRunText(frac, s3);
    Cut(frac, s3);
    ExponentRunText(exp, rest);
    Cut(exp, rest);
  }

  lemma ParsePutNum(v: Val, rest: string)
    requires v.Num? && Good(v) && EndsNumber(rest)
    ensures ParseNum(Put(v, rest)) == Some((v, rest))
  {
    var digits := v.whole + (v.frac + (v.exp + rest));
    assert IsDigit(digits[0]) by { assert digits[0] == v.whole[0]; }
    ParseUnsignedText(v.neg, v.whole, v.frac, v.exp, rest);
    assert ("-" + digits)[1..] == digits;
  }

  /** The first character of a value tells its kind. */
  lemma FirstChar(v: Val, rest: string)
    requires Good(v)
    ensures |Put(v, rest)| > 0
    ensures var c := Put(v, rest)[0];
            && (v.Str? <==> c == '\"') && (v.Arr? <==> c == '[') && (v.Obj? <==> c == '{')
            && (v.Num? <==> IsDigit(c) || c == '-') && (v.Lit? <==> c in "ntf")
  {
    if v.Num? { assert IsDigit(v.whole[0]); }
  }

  /** What may follow a value without running into it. */
  predicate Delimited(rest: string) { |rest| == 0 || rest[0] in ",]}\n" }

  /** The parser undoes the text of every value. */
  lemma {:induction false} ParsePut(v: Val, rest: string)
    requires Good(v) && Delimited(rest)
    ensures ParseVal(Put(v, rest)) == Some((v, rest))
    decreases v, 3
  {
    match v {
      case Lit(text) =>
        FirstChar(v, rest);
        Cut(text, rest);
      case Num(_, _, _, _) => ParsePutNumber(v, rest);
      case Str(items) =>
        FirstChar(v, rest);
        ParsePutItems(items, rest);
      case Arr(_) => ParsePutArr(v, rest);
      case Obj(_) => ParsePutObj(v, rest);
    }
  }

  lemma ParsePutNumber(v: Val, rest: string)
    requires v.Num? && Good(v) && Delimited(rest)
    ensures ParseVal(Put(v, rest)) == Some((v, rest))
  {
    FirstChar(v, rest);
    ParsePutNum(v, rest);
    NumberParse(Put(v, rest));
  }

  lemma NumberParse(s: string)
    requires |s| > 0 && (IsDigit(s[0]) || s[0] == '-')
    ensures ParseVal(s) == ParseNum(s)
  {
    ScalarNumber(s);
  }

  lemma ScalarNumber(s: string)
    requires |s| > 0 && (IsDigit(s[0]) || s[0] == '-')
    ensures ParseScalar(s) == ParseNum(s)
  {
    NoWord(s, "null");
    NoWord(s, "true");
    NoWord(s, "false");
  }

  lemma NoWord(s: string, word: string)
    requires |s| > 0 && |word| > 0 && word[0] != s[0]
    ensures !(word <= s)
  {}

  lemma {:induction false} ParsePutArr(v: Val, rest: string)
    requires v.Arr? && Good(v)
    ensures ParseVal(Put(v, rest)) == Some((v, rest))
    decreases v, 2
  {
    var s, elems := Put(v, rest), v.elems;
    FirstChar(v, rest);
    assert s[1..] == PutElems(elems, "]" + rest);
    if |elems| == 0 {
      assert s[2..] == rest;
    } else {
      ParsePutElems(elems, rest);
      assert s[1] == PutElems(elems, "]" + rest)[0];
      FirstChar(elems[0], if |elems| == 1 then "]" + rest else "," + PutElems(elems[1..], "]" + rest));
    }
  }

  lemma {:induction false} ParsePutObj(v: Val, rest: string)
    requires v.Obj? && Good(v)
    ensures ParseVal(Put(v, rest)) == Some((v, rest))
    decreases v, 2
  {
    var s, members := Put(v, rest), v.members;
    FirstChar(v, rest);
    assert s[1..] == PutMembers(members, "}" + rest);
    if |members| == 0 {
      assert s[2..] == rest;
    } else {
      ParsePutMembers(members, rest);
      assert s[1] == '\"';
    }
  }

  lemma {:induction false} ParsePutElems(elems: seq<Val>, rest: string)
    requires |elems| > 0 && GoodElems(elems)
    ensures ParseElems(PutElems(elems, "]" + rest)) == Some((elems, rest))
    decreases elems, 1
  {
    if |elems| == 1 {
      ParsePut(elems[0], "]" + rest);
      assert ("]" + rest)[1..] == rest && elems == [elems[0]];
    } else {
      var more := PutElems(elems[1..], "]" + rest);
      ParsePut(elems[0], "," + more);
      ParsePutElems(elems[1..], rest);
      assert ("," + more)[1..] == more && elems == [elems[0]] + elems[1..];
    }
  }

  lemma {:induction false} ParsePutMember(m: Member, rest: string)
    requires GoodItems(m.key) && Good(m.value) && Delimited(rest)
    ensures ParseMember(PutMember(m, rest)) == Some((m, rest))
    decreases m, 0
  {
    var after := ":" + Put(m.value, rest);
    ParsePutItems(m.key, after);
    ParsePut(m.value, rest);
    assert PutMember(m, rest)[1..] == PutItems(m.key, "\"" + after);
    assert after[1..] == Put(m.value, rest);
  }

  lemma {:induction false} ParsePutMembers(members: seq<Member>, rest: string)
    requires |members| > 0 && GoodMembers(members)
    ensures ParseMembers(PutMembers(members, "}" + rest)) == Some((members, rest))
    decreases members, 1
  {
    if |members| == 1 {
      ParsePutMember(members[0], "}" + rest);
      assert ("}" + rest)[1..] == rest && members == [members[0]];
    } else {
      var more := PutMembers(members[1..], "}" + rest);
      ParsePutMember(members[0], "," + more);
      ParsePutMembers(members[1..], rest);
      assert ("," + more)[1..] == more && members == [members[0]] + members[1..];
    }
  }

  // ---- what a string literal means (section 7) ----------------------------------------------------

  function HexDigitValue(c: char): nat
    requires IsHex(c)
  {
    if IsDigit(c) then (c - '0') as nat
    else if 'a' <= c <= 'f' then (c - 'a') as nat + 10
    else (c - 'A') as nat + 10
  }

  function HexValue(digits: string): nat
    requires forall i :: 0 <= i < |digits| ==> IsHex(digits[i])
  {
    if |digits| == 0 then 0 else HexValue(digits[..|digits| - 1]) * 16 + HexDigitValue(digits[|digits| - 1])
  }

  /** The bytes of a code point of the basic plane in UTF-8 (section 3 of RFC 3629); surrogates have none. */
  function Utf8(n: nat): Option<string> {
    if n < 0x80 then Some([n as char])
    else if n < 0x800 then Some([(0xC0 + n / 64) as char, (0x80 + n % 64) as char])
    else if 0xD800 <= n < 0xE000 || n >= 0x10000 then None
    else Some([(0xE0 + n / 4096) as char, (0x80 + n / 64 % 64) as char, (0x80 + n % 64) as char])
  }

  function ItemMeaning(item: Item): Option<string>
    requires GoodItem(item)
  {
    match item
    case Plain(c) => Some([c])
    case Hex(digits) => Utf8(HexValue(digits))
    case Short(c) =>
      Some([match c
            case 'b' => '\U{0008}' case 'f' => '\U{000C}' case 'n' => '\n' case 'r' => '\r' case 't' => '\t'
            case _ => c])
  }

  /** The bytes a literal stands for, if it stands for any. */
  function Meaning(items: seq<Item>): Option<string>
    requires GoodItems(items)
  {
    if |items| == 0 then Some("")
    else
      match (ItemMeaning(items[0]), Meaning(items[1..]))
      case (Some(first), Some(rest)) => Some(first + rest)
      case _ => None
  }
}
