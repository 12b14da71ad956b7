/** The request writer of `native/clide-cli/clide.c`: `json_escape` and `build_request`, which print JSON
    into bounded character buffers. Strings are C strings of bytes: no NUL inside. */
module ClideRequest {
  import opened Common
  import opened Json
  import Num = Text

  predicate CString(s: string) { '\0' !in s }

  // ---- json_escape --------------------------------------------------------------------------------

  function HexDigit(n: nat): (c: char)
    requires n < 16
    ensures IsHex(c) && HexDigitValue(c) == n
  {
    if n < 10 then '0' + n as char else 'a' + (n - 10) as char
  }

  /** What the switch emits for one byte. */
  function Escape(c: char): string {
    if c == '\"' then "\\\""
    else if c == '\\' then "\\\\"
    else if c == '\U{0008}' then "\\b"
    else if c == '\U{000C}' then "\\f"
    else if c == '\n' then "\\n"
    else if c == '\r' then "\\r"
    else if c == '\t' then "\\t"
    else if c < ' ' then "\\u00" + [HexDigit(c as nat / 16), HexDigit(c as nat % 16)]
    else [c]
  }

  /** The size of each escape: two characters where JSON has a short one, six for the other control bytes. */
  lemma EscapeSizes(c: char)
    ensures |Escape(c)| == if c in "\"\\\U{0008}\U{000C}\n\r\t" then 2 else if c as int < 0x20 then 6 else 1
  {}

  function Escaped(s: string): string {
    if |s| == 0 then "" else Escaped(s[..|s| - 1]) + Escape(s[|s| - 1])
  }

  /** The literal up to and without its closing quote. */
  function Opened(s: string): string { "\"" + Escaped(s) }

  /** How many bytes of `s` the loop emits when it starts at index `j` of a buffer of `size`. */
  function Kept(s: string, j: nat, size: nat): (k: nat)
    ensures k <= |s|
  {
    if |s| == 0 || j + 8 >= size then 0 else 1 + Kept(s[1..], j + |Escape(s[0])|, size)
  }

  /** The part of `s` that reaches the buffer. */
  function Fitting(s: string, size: nat): string { s[..Kept(s, 1, size)] }

  function Literal(s: string, size: nat): string {
    var body := Opened(Fitting(s, size));
    if |body| + 1 < size then body + "\"" else body
  }

  method JsonEscape(s: string, out: array<char>, size: nat)
    requires CString(s) && 2 <= size <= out.Length
    modifies out
    ensures |Literal(s, size)| < size
    ensures out[..|Literal(s, size)|] == Literal(s, size) && out[|Literal(s, size)|] == '\0'
    ensures forall i :: size <= i < out.Length ==> out[i] == old(out[i])
  {
    var j := EscapeLoop(s, out, size);
    ghost var body := out[..j];
    if j + 1 < size {
      out[j] := '\"';
      j := j + 1;
      assert out[..j] == body + "\"";
    }
    out[j] := '\0';
    assert out[..j] == Literal(s, size);
  }

  /** The opening quote and the loop; `j` is the index where it ends. */
  method EscapeLoop(s: string, out: array<char>, size: nat) returns (j: nat)
    requires 2 <= size <= out.Length
    modifies out
    ensures 1 <= j < size && out[..j] == Opened(Fitting(s, size))
    ensures forall i :: size <= i < out.Length ==> out[i] == old(out[i])
  {
    j := 1;
    out[0] := '\"';
    var i := 0;
    assert out[..1] == Opened(s[..0]);
    while i < |s|
      invariant 0 <= i <= Kept(s, 1, size) && 1 <= j < size
      invariant out[..j] == Opened(s[..i])
      invariant forall k :: size <= k < out.Length ==> out[k] == old(out[k])
    {
      ghost var before := out[..j];
      RoomIff(s, i, size);
      if j + 8 >= size { break; }
      var j' := EmitEscape(s[i], out, j, size);
      OpenedGrows(s, i, before, out[j..j'], out[..j']);
      j, i := j', i + 1;
    }
  }

  /** The loop goes on exactly while there is room for the longest escape. */
  lemma RoomIff(s: string, i: nat, size: nat)
    requires i < |s|
    ensures i < Kept(s, 1, size) <==> |Opened(s[..i])| + 8 < size
  {
    KeptIff(s, 1, size, i);
  }

  lemma OpenedGrows(s: string, i: nat, before: string, piece: string, after: string)
    requires i < |s| && before == Opened(s[..i]) && piece == Escape(s[i])
    requires |before| <= |after| && after[..|before|] == before && after[|before|..] == piece
    ensures after == Opened(s[..i + 1])
  {
    assert s[..i + 1][..i] == s[..i];
    assert after == before + piece;
  }

  /** The switch: writes one escape at `j`, and for a control character also the NUL of its `snprintf`. */
  method EmitEscape(c: char, out: array<char>, j: nat, size: nat) returns (j': nat)
    requires j + 8 < size <= out.Length
    modifies out
    ensures j' == j + |Escape(c)| && j' + 2 < size
    ensures out[j..j'] == Escape(c)
    ensures out[..j] == old(out[..j])
    ensures forall k :: size <= k < out.Length ==> out[k] == old(out[k])
  {
    if c == '\"' {
      j' := EmitPair(out, j, '\"');
    } else if c == '\\' {
      j' := EmitPair(out, j, '\\');
    } else if c == '\U{0008}' {
      j' := EmitPair(out, j, 'b');
    } else if c == '\U{000C}' {
      j' := EmitPair(out, j, 'f');
    } else if c == '\n' {
      j' := EmitPair(out, j, 'n');
    } else if c == '\r' {
      j' := EmitPair(out, j, 'r');
    } else if c == '\t' {
      j' := EmitPair(out, j, 't');
    } else if c < ' ' {
      j' := Print(out, j, size, "\\u00" + [HexDigit(c as nat / 16), HexDigit(c as nat % 16)]);
      assert out[j..j'] == out[..j'][j..];
      assert out[..j] == out[..j'][..j];
    } else {
      out[j] := c;
      j' := j + 1;
    }
  }

  method EmitPair(out: array<char>, j: nat, c: char) returns (j': nat)
    requires j + 2 < out.Length
    modifies out
    ensures j' == j + 2 && out[j..j'] == ['\\', c]
    ensures forall k :: 0 <= k < out.Length && k != j && k != j + 1 ==> out[k] == old(out[k])
  {
    out[j] := '\\';
    out[j + 1] := c;
    j' := j + 2;
  }

  /** `snprintf(out + n, size - n, "%s", text)`: as much of `text` as fits, and always a NUL. Returns the
      position the whole text would have reached. */
  method Print(out: array<char>, n: nat, size: nat, text: string) returns (n': nat)
    requires n < size <= out.Length
    modifies out
    ensures n' == n + |text|
    ensures n' < size ==> out[..n'] == old(out[..n]) + text && out[n'] == '\0'
    ensures forall k :: size <= k < out.Length ==> out[k] == old(out[k])
  {
    var i := 0;
    while i < |text| && n + i + 1 < size
      invariant 0 <= i <= |text| && n + i < size
      invariant out[..n] == old(out[..n])
      invariant out[n..n + i] == text[..i]
      invariant forall k :: size <= k < out.Length ==> out[k] == old(out[k])
    {
      out[n + i] := text[i];
      assert out[n..n + i + 1] == out[n..n + i] + [text[i]];
      i := i + 1;
    }
    out[n + i] := '\0';
    assert out[..n + i] == out[..n] + out[n..n + i];
    return n + |text|;
  }

  // ---- what the literal means ---------------------------------------------------------------------

  function ItemOf(c: char): (item: Item)
    ensures GoodItem(item)
  {
    if c == '\"' then Short('\"')
    else if c == '\\' then Short('\\')
    else if c == '\U{0008}' then Short('b')
    else if c == '\U{000C}' then Short('f')
    else if c == '\n' then Short('n')
    else if c == '\r' then Short('r')
    else if c == '\t' then Short('t')
    else if c < ' ' then Hex("00" + [HexDigit(c as nat / 16), HexDigit(c as nat % 16)])
    else Plain(c)
  }

  function ItemsOf(s: string): (items: seq<Item>)
    ensures GoodItems(items)
  { seq(|s|, i requires 0 <= i < |s| => ItemOf(s[i])) }

  lemma HexValueOf(a: char, b: char)
    requires IsHex(a) && IsHex(b)
    ensures HexValue(['0', '0', a, b]) == HexDigitValue(a) * 16 + HexDigitValue(b)
  {
    var d := ['0', '0', a, b];
    assert d[..3] == ['0', '0', a] && ['0', '0', a][..2] == ['0', '0'] && ['0', '0'][..1] == ['0'] && ['0'][..0] == [];
    assert HexValue(['0']) == 0;
    assert HexValue(['0', '0']) == 0;
    assert HexValue(['0', '0', a]) == HexDigitValue(a);
  }

  lemma EscapeIsItem(c: char)
    ensures Escape(c) == ItemText(ItemOf(c))
    ensures ItemMeaning(ItemOf(c)) == Some([c])
  {
    if ItemOf(c).Hex? {
      var n := c as nat;
      HexValueOf(HexDigit(n / 16), HexDigit(n % 16));
      assert ItemOf(c).digits == ['0', '0', HexDigit(n / 16), HexDigit(n % 16)];
    }
  }

  lemma Assoc(a: string, b: string, c: string)
    ensures (a + b) + c == a + (b + c)
  {}

  lemma ItemsSnoc(s: string)
    requires |s| > 0
    ensures ItemsOf(s) == ItemsOf(s[..|s| - 1]) + [ItemOf(s[|s| - 1])]
  {}

  lemma {:induction false} EscapedIsItems(s: string, rest: string)
    ensures Escaped(s) + rest == PutItems(ItemsOf(s), rest)
  {
    if |s| == 0 {
      assert "" + rest == rest;
    } else {
      var init, last := s[..|s| - 1], s[|s| - 1];
      EscapeIsItem(last);
      EscapedIsItems(init, Escape(last) + rest);
      Assoc(Escaped(init), Escape(last), rest);
      ItemsSnoc(s);
      PutItemsSnoc(ItemsOf(init), ItemOf(last), rest);
    }
  }

  lemma {:induction false} PutItemsSnoc(items: seq<Item>, last: Item, rest: string)
    ensures PutItems(items + [last], rest) == PutItems(items, ItemText(last) + rest)
  {
    if |items| == 0 {
      assert items + [last] == [last] && [last][1..] == [];
    } else {
      assert (items + [last])[1..] == items[1..] + [last];
      PutItemsSnoc(items[1..], last, rest);
    }
  }

  lemma {:induction false} MeaningOfItems(s: string)
    ensures Meaning(ItemsOf(s)) == Some(s)
  {
    if |s| > 0 {
      EscapeIsItem(s[0]);
      MeaningOfItems(s[1..]);
      assert ItemsOf(s)[1..] == ItemsOf(s[1..]);
      assert [s[0]] + s[1..] == s;
    }
  }

  // ---- when nothing is lost -----------------------------------------------------------------------

  /** The loop reaches byte `k` exactly when the escapes of the `k` bytes before it leave room. */
  lemma {:induction false} KeptIff(s: string, j: nat, size: nat, k: nat)
    requires k < |s|
    ensures k < Kept(s, j, size) <==> j + |Escaped(s[..k])| + 8 < size
  {
    if k == 0 {
      assert s[..0] == "";
    } else {
      EscapedHead(s[..k]);
      assert s[..k][1..] == s[1..][..k - 1];
      KeptIff(s[1..], j + |Escape(s[0])|, size, k - 1);
    }
  }

  lemma {:induction false} EscapedHead(s: string)
    requires |s| > 0
    ensures Escaped(s) == Escape(s[0]) + Escaped(s[1..])
  {
    var n := |s| - 1;
    if n == 0 {
      assert s[..0] == "" && s[1..] == "";
    } else {
      EscapedHead(s[..n]);
      assert s[..n][1..] == s[1..][..n - 1];
      assert s[1..][n - 1] == s[n] && s[..n][0] == s[0];
      Assoc(Escape(s[0]), Escaped(s[1..][..n - 1]), Escape(s[n]));
    }
  }

  lemma EscapedSize(s: string, size: nat)
    ensures 1 + |Escaped(Fitting(s, size))| + 2 < size || Fitting(s, size) == ""
  {
    var k := Kept(s, 1, size);
    if k > 0 {
      KeptIff(s, 1, size, k - 1);
      assert s[..k][..k - 1] == s[..k - 1];
    }
  }

  lemma LiteralIsClosed(s: string, size: nat)
    requires size >= 3
    ensures Literal(s, size) == Opened(Fitting(s, size)) + "\""
  {
    EscapedSize(s, size);
    assert Escaped("") == "";
  }

  lemma ClosedIsPut(s: string, rest: string)
    ensures Opened(s) + "\"" + rest == PutStr(ItemsOf(s), rest)
  {
    EscapedIsItems(s, "\"" + rest);
    assert Opened(s) + "\"" + rest == "\"" + (Escaped(s) + ("\"" + rest));
  }

  /** The literal is always closed, and decodes to the prefix of the input that was kept. */
  lemma LiteralDecodes(s: string, size: nat, rest: string)
    requires size >= 3
    ensures Fitting(s, size) <= s
    ensures Literal(s, size) + rest == PutStr(ItemsOf(Fitting(s, size)), rest)
    ensures Meaning(ItemsOf(Fitting(s, size))) == Some(Fitting(s, size))
  {
    LiteralIsClosed(s, size);
    ClosedIsPut(Fitting(s, size), rest);
    MeaningOfItems(Fitting(s, size));
  }

  /** Nothing is lost exactly when everything before the last byte leaves room for one more escape. */
  lemma LiteralCompleteIff(s: string, size: nat)
    ensures Fitting(s, size) == s <==> |s| == 0 || 9 + |Escaped(s[..|s| - 1])| < size
  {
    if |s| > 0 {
      KeptIff(s, 1, size, |s| - 1);
      assert Kept(s, 1, size) == |s| ==> s[..|s|] == s;
    }
  }

  /** The parser reads the literal back, whatever follows it. */
  lemma LiteralParses(s: string, size: nat, rest: string)
    requires size >= 3
    ensures ParseVal(Literal(s, size) + rest) == Some((Str(ItemsOf(Fitting(s, size))), rest))
  {
    LiteralDecodes(s, size, rest);
    var items := ItemsOf(Fitting(s, size));
    ParsePutItems(items, rest);
    assert PutStr(items, rest)[1..] == PutItems(items, "\"" + rest);
  }

  // ---- build_request ------------------------------------------------------------------------------

  const ARG_SIZE := 4096
  const STDIN_SIZE := 40000

  /** The arguments that travel: `--stdin` only asks for the payload. */
  function Travelling(args: seq<string>): seq<string> {
    if |args| == 0 then []
    else Travelling(args[..|args| - 1]) + (if args[|args| - 1] == "--stdin" then [] else [args[|args| - 1]])
  }

  /** The literals of the arguments, separated by commas. */
  function ArgTexts(args: seq<string>): string {
    if |args| == 0 then ""
    else
      var n := |args| - 1;
      ArgTexts(args[..n]) + (if n == 0 then "" else ",") + Literal(args[n], ARG_SIZE)
  }

  function Head(pid: int): string {
    "{\"type\":\"request\",\"v\":1,\"id\":\"c" + Num.IntText(pid) + "\",\"cmd\":\"_argv\",\"args\":{\"argv\":["
  }

  function StdinText(payload: Option<string>): string {
    if payload.Some? && payload.value != "" then ",\"stdin\":" + Literal(payload.value, STDIN_SIZE) else ""
  }

  function Envelope(args: seq<string>, pid: int, payload: Option<string>): string {
    Head(pid) + ArgTexts(Travelling(args)) + "]" + StdinText(payload) + "}}\n"
  }

  lemma TravellingSnoc(args: seq<string>, i: nat)
    requires i < |args|
    ensures args[i] == "--stdin" ==> Travelling(args[..i + 1]) == Travelling(args[..i])
    ensures args[i] != "--stdin" ==> Travelling(args[..i + 1]) == Travelling(args[..i]) + [args[i]]
  {
    assert args[..i + 1][..i] == args[..i];
    assert Travelling(args[..i]) + [] == Travelling(args[..i]);
  }

  lemma ArgTextsSnoc(kept: seq<string>, arg: string)
    ensures ArgTexts(kept + [arg]) == ArgTexts(kept) + ((if kept == [] then "" else ",") + Literal(arg, ARG_SIZE))
  {
    assert (kept + [arg])[..|kept|] == kept;
  }

  lemma {:induction false} ArgTextsGrow(args: seq<string>, i: nat)
    requires i <= |args|
    ensures |ArgTexts(Travelling(args[..i]))| <= |ArgTexts(Travelling(args))|
    decreases |args| - i
  {
    if i < |args| {
      ArgTextsGrow(args, i + 1);
      TravellingSnoc(args, i);
      if args[i] != "--stdin" { ArgTextsSnoc(Travelling(args[..i]), args[i]); }
    } else {
      assert args[..i] == args;
    }
  }

  /** What `%s` prints of a buffer. */
  function CStr(a: seq<char>): string {
    if |a| == 0 || a[0] == '\0' then "" else [a[0]] + CStr(a[1..])
  }

  lemma {:induction false} CStrOf(text: string, a: seq<char>)
    requires CString(text) && |text| < |a| && a[..|text|] == text && a[|text|] == '\0'
    ensures CStr(a) == text
  {
    if |text| > 0 {
      assert a[0] == text[0] && text[0] in text;
      assert a[1..][..|text| - 1] == text[1..];
      CStrOf(text[1..], a[1..]);
      assert [text[0]] + text[1..] == text;
    }
  }

  lemma EscapeIsCString(c: char)
    ensures CString(Escape(c))
  {
    if c < ' ' { assert Escape(c) == "\\u00" + [HexDigit(c as nat / 16), HexDigit(c as nat % 16)] || |Escape(c)| == 2; }
  }

  lemma {:induction false} EscapedIsCString(s: string)
    ensures CString(Escaped(s))
  {
    if |s| > 0 {
      EscapedIsCString(s[..|s| - 1]);
      EscapeIsCString(s[|s| - 1]);
    }
  }

  lemma LiteralIsCString(s: string, size: nat)
    ensures CString(Literal(s, size))
  {
    EscapedIsCString(Fitting(s, size));
  }

  /** Escapes `s` into a buffer of its own, and gives what is printed of it. */
  method EscapedCopy(s: string, size: nat) returns (text: string)
    requires CString(s) && size >= 2
    ensures text == Literal(s, size)
  {
    var esc := new char[size];
    JsonEscape(s, esc, size);
    LiteralIsCString(s, size);
    assert esc[..][..|Literal(s, size)|] == Literal(s, size);
    CStrOf(Literal(s, size), esc[..]);
    text := CStr(esc[..]);
  }

  /** The text of one more argument. */
  function ArgText(arg: string, first: bool): string { (if first then "" else ",") + Literal(arg, ARG_SIZE) }

  lemma SoFarGrows(head: string, args: seq<string>, i: nat, first: bool)
    requires i < |args| && (first <==> Travelling(args[..i]) == [])
    ensures args[i] == "--stdin" ==> Travelling(args[..i + 1]) == Travelling(args[..i])
    ensures args[i] != "--stdin" ==> Travelling(args[..i + 1]) != []
    ensures args[i] != "--stdin" ==> (head + ArgTexts(Travelling(args[..i]))) + ArgText(args[i], first)
                                     == head + ArgTexts(Travelling(args[..i + 1]))
    ensures |ArgTexts(Travelling(args[..i + 1]))| <= |ArgTexts(Travelling(args))|
  {
    TravellingSnoc(args, i);
    ArgTextsGrow(args, i + 1);
    ArgTextsSnoc(Travelling(args[..i]), args[i]);
    Assoc(head, ArgTexts(Travelling(args[..i])), ArgText(args[i], first));
  }

  /** The head and the argument loop; on overflow `n` is where the text so far would have ended. */
  method PrintArgs(args: seq<string>, head: string, out: array<char>, size: nat) returns (n: nat)
    requires 0 < size <= out.Length
    requires forall i :: 0 <= i < |args| ==> CString(args[i])
    modifies out
    ensures n < size ==> out[..n] == head + ArgTexts(Travelling(args))
    ensures n >= size ==> |head| + |ArgTexts(Travelling(args))| >= size
  {
    n := Print(out, 0, size, head);
    if n >= size { return; }
    assert Travelling(args[..0]) == [] && head + "" == head;
    var first := true;
    var i := 0;
    while i < |args|
      invariant 0 <= i <= |args| && n < size
      invariant out[..n] == head + ArgTexts(Travelling(args[..i]))
      invariant first <==> Travelling(args[..i]) == []
    {
      SoFarGrows(head, args, i, first);
      if args[i] != "--stdin" {
        var esc := EscapedCopy(args[i], ARG_SIZE);
        n := Print(out, n, size, (if first then "" else ",") + esc);
        if n >= size { return; }
        first := false;
      }
      i := i + 1;
    }
    assert args[..i] == args;
  }

  /** Returns 0 with the whole envelope and its NUL in the buffer, or -1 exactly when it does not fit. */
  method BuildRequest(args: seq<string>, pid: int, out: array<char>, size: nat, payload: Option<string>)
    returns (code: int)
    requires 0 < size <= out.Length
    requires forall i :: 0 <= i < |args| ==> CString(args[i])
    requires payload.Some? ==> CString(payload.value)
    modifies out
    ensures code == if |Envelope(args, pid, payload)| < size then 0 else -1
    ensures code == 0 ==> var e := Envelope(args, pid, payload); out[..|e|] == e && out[|e|] == '\0'
  {
    var n: nat := PrintArgs(args, Head(pid), out, size);
    if n >= size { return -1; }
    n := Print(out, n, size, "]");
    if n >= size { return -1; }
    ghost var soFar := Head(pid) + ArgTexts(Travelling(args)) + "]";
    assert out[..n] == soFar && soFar + "" == soFar;
    if payload.Some? && payload.value != "" {
      var esc := EscapedCopy(payload.value, STDIN_SIZE);
      n := Print(out, n, size, ",\"stdin\":" + esc);
      if n >= size { return -1; }
    }
    assert out[..n] == soFar + StdinText(payload);
    n := Print(out, n, size, "}}\n");
    return if n >= size then -1 else 0;
  }
}
