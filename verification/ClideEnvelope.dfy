/** What the request line of the C client says to a JSON reader. */
module ClideEnvelope {
  import opened Common
  import opened Json
  import opened ClideRequest
  import Num = Text

  // ---- reading a request back ---------------------------------------------------------------------

  /** The value of the first member whose name means `name`. */
  function Field(members: seq<Member>, name: string): Option<Val> {
    if |members| == 0 then None
    else if GoodItems(members[0].key) && Meaning(members[0].key) == Some(name) then Some(members[0].value)
    else Field(members[1..], name)
  }

  function StringOf(v: Val): Option<string> {
    if v.Str? && GoodItems(v.items) then Meaning(v.items) else None
  }

  function StringsOf(elems: seq<Val>): Option<seq<string>> {
    if |elems| == 0 then Some([])
    else
      match (StringOf(elems[0]), StringsOf(elems[1..]))
      case (Some(first), Some(rest)) => Some([first] + rest)
      case _ => None
  }

  /** The `args` object of a request line, if the line is one object and a newline. */
  function ArgsOf(line: string): Option<seq<Member>> {
    var r := ParseVal(line);
    if r.None? || r.value.1 != "\n" || !r.value.0.Obj? then None
    else
      var args := Field(r.value.0.members, "args");
      if args.Some? && args.value.Obj? then Some(args.value.members) else None
  }

  /** The argument vector a reader of the line gets. */
  function DecodeArgv(line: string): Option<seq<string>> {
    var args := ArgsOf(line);
    if args.None? then None
    else
      var argv := Field(args.value, "argv");
      if argv.Some? && argv.value.Arr? then StringsOf(argv.value.elems) else None
  }

  /** The payload a reader of the line gets; the inner `None` is a request without payload. */
  function DecodeStdin(line: string): Option<Option<string>> {
    var args := ArgsOf(line);
    if args.None? then None
    else
      var payload := Field(args.value, "stdin");
      if payload.None? then Some(None)
      else if StringOf(payload.value).Some? then Some(StringOf(payload.value))
      else None
  }

  // ---- the tree of a request ----------------------------------------------------------------------

  /** What is left of each travelling argument after the escape buffer. */
  function Cut(texts: seq<string>): seq<string> {
    seq(|texts|, i requires 0 <= i < |texts| => Fitting(texts[i], ARG_SIZE))
  }

  function Strs(texts: seq<string>): seq<Val> {
    seq(|texts|, i requires 0 <= i < |texts| => Str(ItemsOf(texts[i])))
  }

  function ArgsMembers(args: seq<string>, payload: Option<string>): seq<Member> {
    [Member(ItemsOf("argv"), Arr(Strs(Cut(Travelling(args)))))]
    + if payload.Some? && payload.value != "" then
        [Member(ItemsOf("stdin"), Str(ItemsOf(Fitting(payload.value, STDIN_SIZE))))]
      else []
  }

  function RequestMembers(args: seq<string>, pid: int, payload: Option<string>): seq<Member> {
    [Member(ItemsOf("type"), Str(ItemsOf("request"))),
     Member(ItemsOf("v"), Json.Num(false, "1", "", "")),
     Member(ItemsOf("id"), Str(ItemsOf("c" + Num.IntText(pid)))),
     Member(ItemsOf("cmd"), Str(ItemsOf("_argv"))),
     Member(ItemsOf("args"), Obj(ArgsMembers(args, payload)))]
  }

  lemma {:induction false} GoodStrs(elems: seq<Val>)
    requires forall i :: 0 <= i < |elems| ==> elems[i].Str? && GoodItems(elems[i].items)
    ensures GoodElems(elems)
  {
    if |elems| > 0 { GoodStrs(elems[1..]); }
  }

  lemma GoodArgs(args: seq<string>, payload: Option<string>)
    ensures GoodMembers(ArgsMembers(args, payload))
  {
    GoodStrs(Strs(Cut(Travelling(args))));
    var ms := ArgsMembers(args, payload);
    if |ms| == 2 { assert ms[1..][1..] == []; } else { assert ms[1..] == []; }
  }

  lemma GoodRequest(args: seq<string>, pid: int, payload: Option<string>)
    ensures GoodMembers(RequestMembers(args, pid, payload))
  {
    GoodArgs(args, payload);
    var ms := RequestMembers(args, pid, payload);
    assert ms[1..][0] == ms[1] && ms[1..][1..] == ms[2..] && ms[2..][0] == ms[2] && ms[2..][1..] == ms[3..];
    assert ms[3..][0] == ms[3] && ms[3..][1..] == ms[4..] && ms[4..][0] == ms[4] && ms[4..][1..] == [];
    assert Good(ms[4].value);
    assert GoodMembers(ms[4..]);
    assert GoodMembers(ms[3..]);
    assert GoodMembers(ms[2..]);
    assert GoodMembers(ms[1..]);
  }

  // ---- its text -----------------------------------------------------------------------------------

  predicate PlainText(s: string) { forall i :: 0 <= i < |s| ==> s[i] >= ' ' && s[i] != '\"' && s[i] != '\\' }

  lemma {:induction false} PlainEscaped(s: string)
    requires PlainText(s)
    ensures Escaped(s) == s
  {
    if |s| > 0 {
      var n := |s| - 1;
      PlainEscaped(s[..n]);
      PlainEscape(s[n]);
      LastApart(s);
    }
  }

  lemma PlainEscape(c: char)
    requires PlainText([c])
    ensures Escape(c) == [c]
  {
    assert [c][0] == c;
  }

  lemma PutPlain(s: string, rest: string)
    requires PlainText(s)
    ensures PutStr(ItemsOf(s), rest) == "\"" + s + "\"" + rest
  {
    PlainEscaped(s);
    ClosedIsPut(s, rest);
  }

  /** Two pieces of constant text are one. */
  lemma Merge(a: string, b: string, ab: string, rest: string)
    requires ab == a + b
    ensures a + (b + rest) == ab + rest
  {}

  lemma NamedMember(name: string, v: Val, rest: string)
    requires PlainText(name)
    ensures PutMember(Member(ItemsOf(name), v), rest) == "\"" + name + "\":" + Put(v, rest)
  {
    PutPlain(name, ":" + Put(v, rest));
    Merge("\"", ":", "\":", Put(v, rest));
    Assoc("\"" + name, "\"", ":" + Put(v, rest));
    Assoc("\"" + name, "\":", Put(v, rest));
  }

  lemma NamedMemberAs(name: string, v: Val, rest: string, head: string)
    requires PlainText(name) && head == "\"" + name + "\":"
    ensures PutMember(Member(ItemsOf(name), v), rest) == head + Put(v, rest)
  {
    NamedMember(name, v, rest);
  }

  lemma PutMembersCons(m: Member, ms: seq<Member>, rest: string)
    requires |ms| > 0
    ensures PutMembers([m] + ms, rest) == PutMember(m, "," + PutMembers(ms, rest))
  {
    assert ([m] + ms)[1..] == ms;
  }

  lemma {:induction false} PutElemsSnoc(elems: seq<Val>, last: Val, rest: string)
    ensures PutElems(elems + [last], rest)
            == if |elems| == 0 then Put(last, rest) else PutElems(elems, "," + Put(last, rest))
  {
    if |elems| == 0 {
      assert elems + [last] == [last];
    } else {
      assert (elems + [last])[1..] == elems[1..] + [last];
      PutElemsSnoc(elems[1..], last, rest);
    }
  }

  lemma StrsSnoc(kept: seq<string>)
    requires |kept| > 0
    ensures Strs(Cut(kept))
            == Strs(Cut(kept[..|kept| - 1])) + [Str(ItemsOf(Fitting(kept[|kept| - 1], ARG_SIZE)))]
  {}

  lemma LiteralPut(s: string, size: nat, rest: string)
    requires size >= 3
    ensures Literal(s, size) + rest == Put(Str(ItemsOf(Fitting(s, size))), rest)
  {
    LiteralDecodes(s, size, rest);
  }

  lemma {:induction false} ArgTextsArePut(kept: seq<string>, rest: string)
    ensures ArgTexts(kept) + rest == PutElems(Strs(Cut(kept)), rest)
  {
    if |kept| == 0 {
      assert "" + rest == rest;
    } else {
      var init, last := kept[..|kept| - 1], kept[|kept| - 1];
      var lit := Literal(last, ARG_SIZE);
      StrsSnoc(kept);
      PutElemsSnoc(Strs(Cut(init)), Str(ItemsOf(Fitting(last, ARG_SIZE))), rest);
      LiteralPut(last, ARG_SIZE, rest);
      if |init| == 0 {
        assert ArgTexts(init) + "" + lit == lit;
      } else {
        ArgTextsArePut(init, "," + (lit + rest));
        Assoc(ArgTexts(init), ",", lit);
        Assoc(ArgTexts(init), "," + lit, rest);
        Assoc(",", lit, rest);
      }
    }
  }

  // ---- the members of `args` ----------------------------------------------------------------------

  lemma StdinMember(payload: string, rest: string)
    ensures PutMember(Member(ItemsOf("stdin"), Str(ItemsOf(Fitting(payload, STDIN_SIZE)))), rest)
            == "\"stdin\":" + (Literal(payload, STDIN_SIZE) + rest)
  {
    LiteralPut(payload, STDIN_SIZE, rest);
    NamedMemberAs("stdin", Str(ItemsOf(Fitting(payload, STDIN_SIZE))), rest, "\"stdin\":");
  }

  lemma ArgvMember(kept: seq<string>, rest: string)
    ensures PutMember(Member(ItemsOf("argv"), Arr(Strs(Cut(kept)))), rest)
            == "\"argv\":[" + (ArgTexts(kept) + ("]" + rest))
  {
    ArgvMemberAs(kept, rest, "argv", "\"argv\":", "\"argv\":[");
  }

  lemma ArgvMemberAs(kept: seq<string>, rest: string, name: string, head: string, both: string)
    requires PlainText(name) && head == "\"" + name + "\":" && both == head + "["
    ensures PutMember(Member(ItemsOf(name), Arr(Strs(Cut(kept)))), rest) == both + (ArgTexts(kept) + ("]" + rest))
  {
    ArgTextsArePut(kept, "]" + rest);
    NamedMemberAs(name, Arr(Strs(Cut(kept))), rest, head);
    Merge(head, "[", both, ArgTexts(kept) + ("]" + rest));
  }

  lemma MoreMembers(payload: string, rest: string)
    ensures ",\"stdin\":" + Literal(payload, STDIN_SIZE) + rest
            == "," + PutMember(Member(ItemsOf("stdin"), Str(ItemsOf(Fitting(payload, STDIN_SIZE)))), rest)
  {
    StdinMember(payload, rest);
    var lit := Literal(payload, STDIN_SIZE);
    Merge(",", "\"stdin\":", ",\"stdin\":", lit + rest);
    Assoc(",\"stdin\":", lit, rest);
  }

  lemma ArgsText(args: seq<string>, payload: Option<string>, rest: string)
    ensures PutMembers(ArgsMembers(args, payload), rest)
            == "\"argv\":[" + (ArgTexts(Travelling(args)) + ("]" + (StdinText(payload) + rest)))
  {
    var kept := Travelling(args);
    var argv := Member(ItemsOf("argv"), Arr(Strs(Cut(kept))));
    ArgvMember(kept, StdinText(payload) + rest);
    if payload.Some? && payload.value != "" {
      var more := Member(ItemsOf("stdin"), Str(ItemsOf(Fitting(payload.value, STDIN_SIZE))));
      MoreMembers(payload.value, rest);
      PutMembersCons(argv, [more], rest);
      assert ArgsMembers(args, payload) == [argv] + [more];
    } else {
      assert ArgsMembers(args, payload) == [argv];
      assert StdinText(payload) + rest == rest;
    }
  }

  // ---- the members of the request -----------------------------------------------------------------

  lemma PlainInt(n: int)
    ensures PlainText("c" + Num.IntText(n))
  {
    var s := Num.IntText(n);
    assert forall i :: 0 <= i < |s| ==> s[i] == '-' || Num.IsDigit(s[i]);
  }

  lemma PutConstant(name: string, value: string, rest: string)
    requires PlainText(name) && PlainText(value)
    ensures PutMember(Member(ItemsOf(name), Str(ItemsOf(value))), rest)
            == ("\"" + name + "\":") + (("\"" + value + "\"") + rest)
  {
    NamedMember(name, Str(ItemsOf(value)), rest);
    PutPlain(value, rest);
  }

  lemma VersionMember(rest: string)
    ensures PutMember(Member(ItemsOf("v"), Json.Num(false, "1", "", "")), "," + rest) == "\"v\":1," + rest
  {
    var one := Json.Num(false, "1", "", "");
    NamedMember("v", one, "," + rest);
    assert "" + ("," + rest) == "," + rest;
    assert "\"" + "v" + "\":" == "\"v\":";
    Merge("1", ",", "1,", rest);
    Merge("\"v\":", "1,", "\"v\":1,", rest);
  }

  /** A member with constant texts, written as one constant. */
  lemma PutConstantAs(name: string, value: string, rest: string, head: string, tail: string, both: string)
    requires PlainText(name) && PlainText(value)
    requires head == "\"" + name + "\":" && tail == "\"" + value + "\"," && both == head + tail
    ensures PutMember(Member(ItemsOf(name), Str(ItemsOf(value))), "," + rest) == both + rest
  {
    PutConstant(name, value, "," + rest);
    Merge("\"" + value + "\"", ",", tail, rest);
    Merge(head, tail, both, rest);
  }

  lemma TypeMember(rest: string)
    ensures PutMember(Member(ItemsOf("type"), Str(ItemsOf("request"))), "," + rest) == "\"type\":\"request\"," + rest
  {
    PutConstantAs("type", "request", rest, "\"type\":", "\"request\",", "\"type\":\"request\",");
  }

  lemma IdMember(pid: int, rest: string)
    ensures PutMember(Member(ItemsOf("id"), Str(ItemsOf("c" + Num.IntText(pid)))), "," + rest)
            == "\"id\":\"c" + (Num.IntText(pid) + ("\"," + rest))
  {
    var n := Num.IntText(pid);
    PlainInt(pid);
    PutConstant("id", "c" + n, "," + rest);
    assert "\"" + "id" + "\":" == "\"id\":";
    assert "\"" + ("c" + n) + "\"" == "\"c" + (n + "\"");
    Assoc("\"c", n + "\"", "," + rest);
    Assoc(n, "\"", "," + rest);
    Merge("\"", ",", "\",", rest);
    Merge("\"id\":", "\"c", "\"id\":\"c", n + ("\"," + rest));
  }

  lemma CommandMember(rest: string)
    ensures PutMember(Member(ItemsOf("cmd"), Str(ItemsOf("_argv"))), "," + rest) == "\"cmd\":\"_argv\"," + rest
  {
    PutConstantAs("cmd", "_argv", rest, "\"cmd\":", "\"_argv\",", "\"cmd\":\"_argv\",");
  }

  lemma ArgsMember(members: seq<Member>, rest: string)
    ensures PutMember(Member(ItemsOf("args"), Obj(members)), rest)
            == "\"args\":{" + PutMembers(members, "}" + rest)
  {
    NamedMember("args", Obj(members), rest);
    assert "\"" + "args" + "\":" == "\"args\":";
    Merge("\"args\":", "{", "\"args\":{", PutMembers(members, "}" + rest));
  }

  lemma MembersText(args: seq<string>, pid: int, payload: Option<string>, rest: string)
    ensures PutMembers(RequestMembers(args, pid, payload), rest)
            == "\"type\":\"request\"," + ("\"v\":1," + ("\"id\":\"c" + (Num.IntText(pid) + ("\"," +
               ("\"cmd\":\"_argv\"," + ("\"args\":{" + PutMembers(ArgsMembers(args, payload), "}" + rest)))))))
  {
    var ms := RequestMembers(args, pid, payload);
    assert ms == [ms[0]] + ms[1..] && ms[1..] == [ms[1]] + ms[2..] && ms[2..] == [ms[2]] + ms[3..];
    assert ms[3..] == [ms[3]] + ms[4..] && ms[4..] == [ms[4]];
    PutMembersCons(ms[0], ms[1..], rest);
    PutMembersCons(ms[1], ms[2..], rest);
    PutMembersCons(ms[2], ms[3..], rest);
    PutMembersCons(ms[3], ms[4..], rest);
    ArgsMember(ArgsMembers(args, payload), rest);
    CommandMember(PutMember(ms[4], rest));
    IdMember(pid, PutMember(ms[3], "," + PutMember(ms[4], rest)));
    VersionMember(PutMembers(ms[2..], rest));
    TypeMember(PutMembers(ms[1..], rest));
  }

  /** The head of the envelope, piece by piece. */
  lemma HeadPieces(pid: int, rest: string)
    ensures Head(pid) + rest
            == "{" + ("\"type\":\"request\"," + ("\"v\":1," + ("\"id\":\"c" + (Num.IntText(pid) + ("\"," +
               ("\"cmd\":\"_argv\"," + ("\"args\":{" + ("\"argv\":[" + rest))))))))
  {
    var n := Num.IntText(pid);
    var tail := "\",\"cmd\":\"_argv\",\"args\":{\"argv\":[";
    var front := "{\"type\":\"request\",\"v\":1,\"id\":\"c";
    HeadTail(rest);
    Merge("\"v\":1,", "\"id\":\"c", "\"v\":1,\"id\":\"c", n + (tail + rest));
    Merge("\"type\":\"request\",", "\"v\":1,\"id\":\"c", "\"type\":\"request\",\"v\":1,\"id\":\"c", n + (tail + rest));
    Merge("{", "\"type\":\"request\",\"v\":1,\"id\":\"c", front, n + (tail + rest));
    Assoc(front + n, tail, rest);
    Assoc(front, n, tail + rest);
  }

  lemma HeadTail(rest: string)
    ensures "\"," + ("\"cmd\":\"_argv\"," + ("\"args\":{" + ("\"argv\":[" + rest)))
            == "\",\"cmd\":\"_argv\",\"args\":{\"argv\":[" + rest
  {
    Merge("\"args\":{", "\"argv\":[", "\"args\":{\"argv\":[", rest);
    Merge("\"cmd\":\"_argv\",", "\"args\":{\"argv\":[", "\"cmd\":\"_argv\",\"args\":{\"argv\":[", rest);
    Merge("\",", "\"cmd\":\"_argv\",\"args\":{\"argv\":[", "\",\"cmd\":\"_argv\",\"args\":{\"argv\":[", rest);
  }

  /** The envelope is the text of the request tree and a newline. */
  lemma EnvelopeIsText(args: seq<string>, pid: int, payload: Option<string>)
    ensures Good(Obj(RequestMembers(args, pid, payload)))
    ensures Envelope(args, pid, payload) == Put(Obj(RequestMembers(args, pid, payload)), "\n")
  {
    GoodRequest(args, pid, payload);
    EnvelopePieces(args, pid, payload);
  }

  lemma EnvelopePieces(args: seq<string>, pid: int, payload: Option<string>)
    ensures Envelope(args, pid, payload) == Put(Obj(RequestMembers(args, pid, payload)), "\n")
  {
    var argv, sin := ArgTexts(Travelling(args)), StdinText(payload);
    MembersText(args, pid, payload, "}" + "\n");
    assert "}" + ("}" + "\n") == "}}\n";
    ArgsText(args, payload, "}}\n");
    HeadPieces(pid, argv + ("]" + (sin + "}}\n")));
    Assoc(Head(pid), argv, "]" + (sin + "}}\n"));
    Assoc(Head(pid) + argv, "]", sin + "}}\n");
    Assoc(Head(pid) + argv + "]", sin, "}}\n");
  }

  // ---- the request read back ----------------------------------------------------------------------

  lemma FieldStep(name: string, v: Val, ms: seq<Member>, wanted: string)
    ensures Field([Member(ItemsOf(name), v)] + ms, wanted) == if name == wanted then Some(v) else Field(ms, wanted)
  {
    MeaningOfItems(name);
    assert ([Member(ItemsOf(name), v)] + ms)[1..] == ms;
  }

  lemma ArgsFound(args: seq<string>, pid: int, payload: Option<string>)
    ensures ArgsOf(Envelope(args, pid, payload)) == Some(ArgsMembers(args, payload))
  {
    var ms := RequestMembers(args, pid, payload);
    EnvelopeIsText(args, pid, payload);
    ParsePut(Obj(ms), "\n");
    ArgsAmongMembers(args, pid, payload);
  }

  lemma ArgsAmongMembers(args: seq<string>, pid: int, payload: Option<string>)
    ensures Field(RequestMembers(args, pid, payload), "args") == Some(Obj(ArgsMembers(args, payload)))
  {
    var ms := RequestMembers(args, pid, payload);
    assert ms == [ms[0]] + ms[1..] && ms[1..] == [ms[1]] + ms[2..] && ms[2..] == [ms[2]] + ms[3..];
    assert ms[3..] == [ms[3]] + ms[4..] && ms[4..] == [ms[4]] + [];
    FieldStep("type", ms[0].value, ms[1..], "args");
    FieldStep("v", ms[1].value, ms[2..], "args");
    FieldStep("id", ms[2].value, ms[3..], "args");
    FieldStep("cmd", ms[3].value, ms[4..], "args");
    FieldStep("args", ms[4].value, [], "args");
  }

  lemma {:induction false} StringsBack(texts: seq<string>)
    ensures StringsOf(Strs(texts)) == Some(texts)
  {
    if |texts| > 0 {
      StringsBack(texts[1..]);
      MeaningOfItems(texts[0]);
      assert Strs(texts)[1..] == Strs(texts[1..]);
      assert [texts[0]] + texts[1..] == texts;
    }
  }

  /** A reader of the request line gets the arguments in order, without any `--stdin`, each cut to what its
      escape buffer held, and the payload, cut likewise, if there was one. */
  lemma RequestDecodes(args: seq<string>, pid: int, payload: Option<string>)
    ensures var line := Envelope(args, pid, payload);
            && DecodeArgv(line) == Some(Cut(Travelling(args)))
            && DecodeStdin(line) == Some(if payload.Some? && payload.value != "" then
                                           Some(Fitting(payload.value, 40000))
                                         else None)
  {
    ArgsFound(args, pid, payload);
    StringsBack(Cut(Travelling(args)));
    var argv := Arr(Strs(Cut(Travelling(args))));
    if payload.Some? && payload.value != "" {
      BothFields(argv, Fitting(payload.value, STDIN_SIZE));
    } else {
      FieldStep("argv", argv, [], "argv");
      FieldStep("argv", argv, [], "stdin");
    }
  }

  lemma BothFields(argv: Val, text: string)
    ensures var members := [Member(ItemsOf("argv"), argv)] + [Member(ItemsOf("stdin"), Str(ItemsOf(text)))];
            Field(members, "argv") == Some(argv) && Field(members, "stdin") == Some(Str(ItemsOf(text)))
            && Meaning(ItemsOf(text)) == Some(text)
  {
    var more := Str(ItemsOf(text));
    FieldStep("argv", argv, [Member(ItemsOf("stdin"), more)], "argv");
    FieldStep("argv", argv, [Member(ItemsOf("stdin"), more)], "stdin");
    FieldStep("stdin", more, [], "stdin");
    assert [Member(ItemsOf("stdin"), more)] == [Member(ItemsOf("stdin"), more)] + [];
    MeaningOfItems(text);
  }

  predicate Fits(s: string, size: nat) { |s| == 0 || 9 + |Escaped(s[..|s| - 1])| < size }

  /** What is kept of a text is the longest prefix that fits. */
  lemma LongestPrefixKept(s: string, size: nat)
    ensures var kept := Fitting(s, size);
            && kept <= s && Fits(kept, size)
            && forall k :: |kept| < k <= |s| ==> !Fits(s[..k], size)
  {
    var kept := Fitting(s, size);
    KeptFits(s, size, |kept|);
    forall k | |kept| < k <= |s| ensures !Fits(s[..k], size) { KeptFits(s, size, k); }
  }

  lemma KeptFits(s: string, size: nat, k: nat)
    requires k <= |s|
    ensures Fits(s[..k], size) <==> k <= |Fitting(s, size)|
  {
    if k > 0 {
      KeptIff(s, 1, size, k - 1);
      assert s[..k][..k - 1] == s[..k - 1];
    }
  }

  /** The rest of a request line: its type, its version, its id with the process number, and its command. */
  lemma RequestIsTagged(args: seq<string>, pid: int, payload: Option<string>)
    ensures var r := ParseVal(Envelope(args, pid, payload));
            && r.Some? && r.value.1 == "\n" && r.value.0.Obj? && |r.value.0.members| == 5
            && Field(r.value.0.members, "type") == Some(Str(ItemsOf("request")))
            && Field(r.value.0.members, "v") == Some(Json.Num(false, "1", "", ""))
            && Field(r.value.0.members, "id") == Some(Str(ItemsOf("c" + Num.IntText(pid))))
            && Field(r.value.0.members, "cmd") == Some(Str(ItemsOf("_argv")))
  {
    var ms := RequestMembers(args, pid, payload);
    EnvelopeIsText(args, pid, payload);
    ParsePut(Obj(ms), "\n");
    TagsAmongMembers(ms[0].value, ms[1].value, ms[2].value, ms[3].value, ms[4].value);
  }

  lemma TagsAmongMembers(kind: Val, version: Val, id: Val, cmd: Val, args: Val)
    ensures var ms := [Member(ItemsOf("type"), kind), Member(ItemsOf("v"), version), Member(ItemsOf("id"), id),
                       Member(ItemsOf("cmd"), cmd), Member(ItemsOf("args"), args)];
            && Field(ms, "type") == Some(kind) && Field(ms, "v") == Some(version)
            && Field(ms, "id") == Some(id) && Field(ms, "cmd") == Some(cmd)
  {
    var ms := [Member(ItemsOf("type"), kind), Member(ItemsOf("v"), version), Member(ItemsOf("id"), id),
               Member(ItemsOf("cmd"), cmd), Member(ItemsOf("args"), args)];
    assert ms == [ms[0]] + ms[1..] && ms[1..] == [ms[1]] + ms[2..] && ms[2..] == [ms[2]] + ms[3..] && ms[3..] == [ms[3]] + ms[4..];
    FieldStep("type", kind, ms[1..], "type");
    FieldStep("type", kind, ms[1..], "v");
    FieldStep("v", version, ms[2..], "v");
    FieldStep("type", kind, ms[1..], "id");
    FieldStep("v", version, ms[2..], "id");
    FieldStep("id", id, ms[3..], "id");
    FieldStep("type", kind, ms[1..], "cmd");
    FieldStep("v", version, ms[2..], "cmd");
    FieldStep("id", id, ms[3..], "cmd");
    FieldStep("cmd", cmd, ms[4..], "cmd");
  }

  /** Every `--stdin` is left out, wherever it stands, and nothing else. */
  lemma {:induction false} TravellingDropsFlags(before: seq<string>, after: seq<string>)
    ensures Travelling(before + ["--stdin"] + after) == Travelling(before) + Travelling(after)
    ensures "--stdin" !in before ==> Travelling(before) == before
  {
    if "--stdin" !in before { NoFlagNoLoss(before); }
    TravellingConcat(before + ["--stdin"], after);
    TravellingSnoc(before + ["--stdin"], |before|);
    assert (before + ["--stdin"])[..|before| + 1] == before + ["--stdin"] && (before + ["--stdin"])[..|before|] == before;
  }

  lemma {:induction false} TravellingConcat(a: seq<string>, b: seq<string>)
    ensures Travelling(a + b) == Travelling(a) + Travelling(b)
  {
    if |b| == 0 {
      assert a + b == a;
    } else {
      var n := |b| - 1;
      TravellingConcat(a, b[..n]);
      assert (a + b)[..|a + b| - 1] == a + b[..n];
    }
  }

  lemma {:induction false} NoFlagNoLoss(args: seq<string>)
    requires "--stdin" !in args
    ensures Travelling(args) == args
  {
    if |args| > 0 {
      LastApart(args);
      NoFlagNoLoss(args[..|args| - 1]);
    }
  }

  /** The arguments come through whole exactly when each of them fits its escape buffer. */
  lemma ArgvCompleteIff(args: seq<string>, pid: int, payload: Option<string>)
    ensures DecodeArgv(Envelope(args, pid, payload)) == Some(Travelling(args))
            <==> forall i :: 0 <= i < |Travelling(args)| ==> Fits(Travelling(args)[i], 4096)
  {
    RequestDecodes(args, pid, payload);
    var kept := Travelling(args);
    forall i | 0 <= i < |kept| ensures Cut(kept)[i] == kept[i] <==> Fits(kept[i], ARG_SIZE) {
      LiteralCompleteIff(kept[i], ARG_SIZE);
    }
    if forall i :: 0 <= i < |kept| ==> Fits(kept[i], ARG_SIZE) { assert Cut(kept) == kept; }
  }

  // ---- one line -----------------------------------------------------------------------------------

  predicate Printable(s: string) { forall i :: 0 <= i < |s| ==> s[i] >= ' ' }

  lemma {:induction false} EscapedPrintable(s: string)
    ensures Printable(Escaped(s))
  {
    if |s| > 0 {
      EscapedPrintable(s[..|s| - 1]);
      assert Printable(Escape(s[|s| - 1]));
    }
  }

  lemma LiteralPrintable(s: string, size: nat)
    ensures Printable(Literal(s, size))
  {
    EscapedPrintable(Fitting(s, size));
  }

  lemma {:induction false} ArgTextsPrintable(kept: seq<string>)
    ensures Printable(ArgTexts(kept))
  {
    if |kept| > 0 {
      ArgTextsPrintable(kept[..|kept| - 1]);
      LiteralPrintable(kept[|kept| - 1], ARG_SIZE);
    }
  }

  lemma Joined(a: string, b: string)
    requires Printable(a) && Printable(b)
    ensures Printable(a + b)
  {}

  lemma HeadPrintable(pid: int)
    ensures Printable(Head(pid))
  {
    var n := Num.IntText(pid);
    var front := "{\"type\":\"request\",\"v\":1,\"id\":\"c";
    assert Printable(n) by {
      PlainInt(pid);
      assert forall i :: 0 <= i < |n| ==> n[i] == ("c" + n)[i + 1];
    }
    Joined(front, n);
    Joined(front + n, "\",\"cmd\":\"_argv\",\"args\":{\"argv\":[");
  }

  lemma StdinPrintable(payload: Option<string>)
    ensures Printable(StdinText(payload))
  {
    if payload.Some? { LiteralPrintable(payload.value, STDIN_SIZE); }
  }

  /** The request has exactly one newline, its last byte: no argument or payload can end the line early. */
  lemma EnvelopeIsOneLine(args: seq<string>, pid: int, payload: Option<string>)
    ensures var line := Envelope(args, pid, payload);
            |line| > 0 && line[|line| - 1] == '\n' && Printable(line[..|line| - 1])
  {
    var head, argv, sin := Head(pid), ArgTexts(Travelling(args)), StdinText(payload);
    HeadPrintable(pid);
    ArgTextsPrintable(Travelling(args));
    StdinPrintable(payload);
    Joined(head, argv);
    Joined(head + argv, "]");
    Joined(head + argv + "]", sin);
    Joined(head + argv + "]" + sin, "}}");
    OneNewline(head + argv + "]" + sin);
  }

  lemma OneNewline(front: string)
    requires Printable(front)
    ensures var line := front + "}}\n"; line[|line| - 1] == '\n' && Printable(line[..|line| - 1])
  {
    assert (front + "}}\n")[..|front| + 2] == front + "}}";
  }

  /** An argument of 4088 plain bytes arrives without its last one, and the request is sent all the same. */
  lemma LongArgumentIsCut(pid: int)
    ensures var arg: string := seq(4088, _ => 'a');
            DecodeArgv(Envelope([arg], pid, None)) == Some([arg[..4087]])
  {
    var arg: string := seq(4088, _ => 'a');
    assert [arg][..0] == [];
    NotTheFlag(arg);
    assert Travelling([arg]) == [arg];
    RequestDecodes([arg], pid, None);
    PlainEscaped(arg[..4087]);
    PlainEscaped(arg[..4086]);
    KeptIff(arg, 1, ARG_SIZE, 4087);
    KeptIff(arg, 1, ARG_SIZE, 4086);
    assert Fitting(arg, ARG_SIZE) == arg[..4087];
    assert Cut([arg]) == [arg[..4087]];
  }

  lemma NotTheFlag(arg: string)
    requires |arg| > 0 && arg[0] == 'a'
    ensures arg != "--stdin"
  {}
}
