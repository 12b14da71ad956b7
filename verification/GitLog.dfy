/** Decoding the output of `git log`, `get_log` of `legacy/clide/services/git_service.py`. */
module GitLog {
  import opened Common
  import opened Text

  datatype Commit = Commit(hash: string, shortHash: string, message: string, author: string, date: string,
                           isMerge: bool, parents: seq<string>, refs: seq<string>)

  // ---- decoding -----------------------------------------------------------------------------------

  /** Length of the first run of non-space characters. */
  function WordLength(s: string): (n: nat)
    ensures n <= |s|
    ensures forall i :: 0 <= i < n ==> !IsSpace(s[i])
    ensures n < |s| ==> IsSpace(s[n])
  {
    if |s| == 0 || IsSpace(s[0]) then 0 else 1 + WordLength(s[1..])
  }

  /** `str.split()`. */
  function Words(s: string): seq<string>
    decreases |s|
  {
    if |s| == 0 then []
    else if IsSpace(s[0]) then Words(s[1..])
    else [s[..WordLength(s)]] + Words(s[WordLength(s)..])
  }

  function StripAll(parts: seq<string>): seq<string> {
    seq(|parts|, i requires 0 <= i < |parts| => Strip(parts[i]))
  }

  function DecodeParts(parts: seq<string>): Commit
    requires |parts| >= 7
  {
    var parents := if |parts[5]| > 0 then Words(parts[5]) else [];
    var refs := if |parts[6]| > 0 then StripAll(Split(parts[6], ',')) else [];
    Commit(parts[0], parts[1], parts[2], parts[3], parts[4], |parents| > 1, parents, refs)
  }

  function DecodeLine(line: string): seq<Commit> {
    if |line| == 0 then []
    else
      var parts := Split(line, '|');
      if |parts| >= 7 then [DecodeParts(parts)] else []
  }

  function DecodeLines(lines: seq<string>): seq<Commit> {
    if |lines| == 0 then [] else DecodeLines(lines[..|lines| - 1]) + DecodeLine(lines[|lines| - 1])
  }

  function DecodeLog(stdout: string): seq<Commit> { DecodeLines(Split(Strip(stdout), '\n')) }

  method GetLog(stdout: string) returns (commits: seq<Commit>)
    ensures commits == DecodeLog(stdout)
  {
    commits := [];
    var lines := Split(Strip(stdout), '\n');
    for i := 0 to |lines|
      invariant commits == DecodeLines(lines[..i])
    {
      assert lines[..i + 1][..i] == lines[..i];
      if |lines[i]| == 0 { continue; }
      var parts := Split(lines[i], '|');
      if |parts| >= 7 {
        var parents := if |parts[5]| > 0 then Words(parts[5]) else [];
        var refs := if |parts[6]| > 0 then StripAll(Split(parts[6], ',')) else [];
        commits := commits
          + [Commit(parts[0], parts[1], parts[2], parts[3], parts[4], |parents| > 1, parents, refs)];
      }
    }
    assert lines[..|lines|] == lines;
  }

  // ---- printing, `%H|%h|%s|%an|%ar|%P|%D` ---------------------------------------------------------

  /** `%D` puts a comma and a space between refs. */
  function RefsText(refs: seq<string>): string {
    if |refs| == 0 then ""
    else if |refs| == 1 then refs[0]
    else refs[0] + ([','] + ([' '] + RefsText(refs[1..])))
  }

  function Fields(c: Commit): seq<string> {
    [c.hash, c.shortHash, c.message, c.author, c.date, Join(c.parents, ' '), RefsText(c.refs)]
  }

  function PrintCommit(c: Commit): string { Join(Fields(c), '|') }

  function PrintCommits(cs: seq<Commit>): seq<string> {
    seq(|cs|, i requires 0 <= i < |cs| => PrintCommit(cs[i]))
  }

  /** One line for every commit, each ended by a newline. */
  function PrintLog(cs: seq<Commit>): string { Join(PrintCommits(cs) + [""], '\n') }

  predicate IsWord(s: string) { |s| > 0 && forall c :: c in s ==> !IsSpace(c) }

  /** A ref name: not blank at either end, and without a comma. */
  predicate IsRef(s: string) { |s| > 0 && !IsSpace(s[0]) && !IsSpace(s[|s| - 1]) && ',' !in s }

  /** What git prints: hashes are words, refs have no comma, no field spans lines, and a merge is a commit
      with two or more parents. */
  ghost predicate FromGit(c: Commit) {
    && IsWord(c.hash) && '\n' !in c.shortHash && '\n' !in c.message && '\n' !in c.author && '\n' !in c.date
    && (forall p :: p in c.parents ==> IsWord(p))
    && (forall r :: r in c.refs ==> IsRef(r) && '\n' !in r)
    && (c.isMerge <==> |c.parents| >= 2)
  }

  /** No field holds the separator. */
  ghost predicate NoBar(c: Commit) {
    && '|' !in c.hash && '|' !in c.shortHash && '|' !in c.message && '|' !in c.author && '|' !in c.date
    && (forall p :: p in c.parents ==> '|' !in p)
    && (forall r :: r in c.refs ==> '|' !in r)
  }

  // ---- fields -------------------------------------------------------------------------------------

  lemma {:induction false} WordLengthOf(word: string, rest: string)
    requires forall c :: c in word ==> !IsSpace(c)
    requires |rest| > 0 ==> IsSpace(rest[0])
    ensures WordLength(word + rest) == |word|
  {
    if |word| == 0 {
      assert word + rest == rest;
    } else {
      assert (word + rest)[1..] == word[1..] + rest;
      WordLengthOf(word[1..], rest);
    }
  }

  lemma FirstWord(word: string, rest: string)
    requires IsWord(word) && (|rest| > 0 ==> rest[0] == ' ')
    ensures Words(word + rest) == [word] + (if |rest| > 0 then Words(rest[1..]) else [])
  {
    WordLengthOf(word, rest);
    assert word[0] in word;
    assert (word + rest)[..|word|] == word && (word + rest)[|word|..] == rest;
  }

  /** `split` undoes joining words by blanks. */
  lemma {:induction false} WordsOfJoin(words: seq<string>)
    requires forall w :: w in words ==> IsWord(w)
    ensures Words(Join(words, ' ')) == words
  {
    if |words| == 1 {
      assert words[0] in words;
      FirstWord(words[0], "");
      assert words[0] + "" == words[0];
    } else if |words| > 1 {
      assert words[0] in words;
      var rest := [' '] + Join(words[1..], ' ');
      FirstWord(words[0], rest);
      assert Join(words, ' ') == words[0] + rest && rest[1..] == Join(words[1..], ' ');
      WordsOfJoin(words[1..]);
    }
  }

  lemma {:induction false} JoinAvoids(parts: seq<string>, c: char, d: char)
    requires c != d
    ensures d in Join(parts, c) <==> exists p :: p in parts && d in p
  {
    if |parts| == 1 {
      assert parts[0] in parts;
    } else if |parts| > 1 {
      JoinAvoids(parts[1..], c, d);
      assert parts == [parts[0]] + parts[1..];
      assert parts[0] in parts;
    }
  }

  lemma StripNothing(s: string)
    requires |s| > 0 && !IsSpace(s[0]) && !IsSpace(s[|s| - 1])
    ensures Strip(s) == s && Strip([' '] + s) == s
  {
    assert ([' '] + s)[1..] == s;
    assert StripLeft([' '] + s) == StripLeft(s) == s;
  }

  /** The comma-separated pieces of the printed refs: all but the first with a blank in front. */
  function RefPieces(refs: seq<string>): seq<string> {
    seq(|refs|, i requires 0 <= i < |refs| => if i == 0 then refs[0] else [' '] + refs[i])
  }

  lemma {:induction false} SplitRefs(refs: seq<string>)
    requires |refs| > 0 && forall r :: r in refs ==> IsRef(r)
    ensures Split(RefsText(refs), ',') == RefPieces(refs)
    ensures RefsText(refs) != ""
  {
    assert refs[0] in refs;
    if |refs| == 1 {
      SplitWhole(refs[0], ',');
    } else {
      SplitRefs(refs[1..]);
      var rest := RefsText(refs[1..]);
      SplitPiece(refs[0], [' '] + rest, ',');
      assert refs[0] + ([','] + ([' '] + rest)) == refs[0] + [','] + ([' '] + rest);
      SplitBlank(rest);
      RefPiecesCons(refs);
    }
  }

  lemma SplitBlank(rest: string)
    ensures Split([' '] + rest, ',') == [[' '] + Split(rest, ',')[0]] + Split(rest, ',')[1..]
  {
    assert ([' '] + rest)[1..] == rest;
  }

  lemma RefPiecesCons(refs: seq<string>)
    requires |refs| > 1
    ensures var tail := RefPieces(refs[1..]);
            RefPieces(refs) == [refs[0]] + ([[' '] + tail[0]] + tail[1..])
  {}

  lemma RefsRead(refs: seq<string>)
    requires |refs| > 0 && forall r :: r in refs ==> IsRef(r)
    ensures StripAll(Split(RefsText(refs), ',')) == refs
  {
    SplitRefs(refs);
    PiecesStripped(refs);
  }

  lemma PiecesStripped(refs: seq<string>)
    requires forall r :: r in refs ==> IsRef(r)
    ensures StripAll(RefPieces(refs)) == refs
  {
    forall i | 0 <= i < |refs| ensures Strip(RefPieces(refs)[i]) == refs[i] {
      assert refs[i] in refs;
      StripNothing(refs[i]);
    }
  }

  lemma {:induction false} RefsTextHolds(refs: seq<string>, d: char)
    requires d != ',' && d != ' '
    ensures d in RefsText(refs) <==> exists r :: r in refs && d in r
  {
    if |refs| == 1 {
      assert refs[0] in refs;
    } else if |refs| > 1 {
      RefsTextHolds(refs[1..], d);
      assert refs == [refs[0]] + refs[1..];
      assert refs[0] in refs;
    }
  }

  /** A field holds the separator exactly when the commit does. */
  lemma BarInFields(c: Commit)
    ensures NoBar(c) <==> forall i :: 0 <= i < 7 ==> '|' !in Fields(c)[i]
  {
    var f := Fields(c);
    JoinAvoids(c.parents, ' ', '|');
    RefsTextHolds(c.refs, '|');
    assert f[0] == c.hash && f[1] == c.shortHash && f[2] == c.message && f[3] == c.author && f[4] == c.date;
    assert f[5] == Join(c.parents, ' ') && f[6] == RefsText(c.refs);
  }

  lemma ParentsRead(parents: seq<string>)
    requires forall p :: p in parents ==> IsWord(p)
    ensures (if |Join(parents, ' ')| > 0 then Words(Join(parents, ' ')) else []) == parents
  {
    WordsOfJoin(parents);
  }

  lemma RefsOrNone(refs: seq<string>)
    requires forall r :: r in refs ==> IsRef(r)
    ensures (if |RefsText(refs)| > 0 then StripAll(Split(RefsText(refs), ',')) else []) == refs
  {
    if |refs| > 0 {
      SplitRefs(refs);
      RefsRead(refs);
    }
  }

  lemma DecodeFields(c: Commit)
    requires FromGit(c)
    ensures DecodeParts(Fields(c)) == c
  {
    ParentsRead(c.parents);
    RefsOrNone(c.refs);
  }

  lemma DecodePrinted(c: Commit)
    requires FromGit(c) && NoBar(c)
    ensures DecodeLine(PrintCommit(c)) == [c]
  {
    BarInFields(c);
    SplitJoin(Fields(c), '|');
    DecodeFields(c);
    PrintedEnds(c);
  }

  /** A printed commit starts with its hash, and ends with its refs or the bar before them. */
  lemma PrintedEnds(c: Commit)
    requires FromGit(c)
    ensures var line := PrintCommit(c);
            |line| > 0 && !IsSpace(line[0]) && !IsSpace(line[|line| - 1]) && '\n' !in line
  {
    var f := Fields(c);
    var line := PrintCommit(c);
    assert line == c.hash + ['|'] + Join(f[1..], '|');
    assert c.hash[0] in c.hash;
    FieldsOneLine(c);
    JoinAvoids(f, '|', '\n');
    JoinLast(f, '|');
    RefsLast(c.refs);
    if |c.refs| > 0 { SplitRefs(c.refs); }
  }

  lemma FieldsOneLine(c: Commit)
    requires FromGit(c)
    ensures forall f :: f in Fields(c) ==> '\n' !in f
  {
    JoinAvoids(c.parents, ' ', '\n');
    RefsTextHolds(c.refs, '\n');
    assert IsSpace('\n');
    assert '\n' !in c.hash;
  }

  lemma {:induction false} JoinLast(parts: seq<string>, c: char)
    requires |parts| > 1
    ensures var t := Join(parts, c);
            var last := parts[|parts| - 1];
            |t| > 0 && t[|t| - 1] == if |last| > 0 then last[|last| - 1] else c
  {
    if |parts| == 2 {
      assert parts[1..] == [parts[1]];
    } else {
      JoinLast(parts[1..], c);
    }
  }

  lemma {:induction false} RefsLast(refs: seq<string>)
    requires forall r :: r in refs ==> IsRef(r)
    ensures var t := RefsText(refs); |t| > 0 ==> !IsSpace(t[|t| - 1])
  {
    if |refs| == 1 {
      assert refs[0] in refs;
    } else if |refs| > 1 {
      RefsLast(refs[1..]);
      SplitRefs(refs[1..]);
    }
  }

  // ---- the whole log ------------------------------------------------------------------------------

  lemma StripEnd(text: string)
    requires |text| > 0 && !IsSpace(text[0]) && !IsSpace(text[|text| - 1])
    ensures Strip(text + ['\n']) == text
  {
    var t := text + ['\n'];
    assert StripLeft(t) == t;
    assert t[..|t| - 1] == text;
    assert StripRight(t) == StripRight(text) == text;
  }

  lemma {:induction false} JoinFirst(parts: seq<string>, c: char)
    requires |parts| > 0 && |parts[0]| > 0
    ensures |Join(parts, c)| > 0 && Join(parts, c)[0] == parts[0][0]
  {}

  lemma {:induction false} JoinSnoc(parts: seq<string>, c: char)
    requires |parts| > 0
    ensures Join(parts + [""], c) == Join(parts, c) + [c]
  {
    if |parts| == 1 {
      assert (parts + [""])[1..] == [""];
    } else {
      JoinSnoc(parts[1..], c);
      assert (parts + [""])[1..] == parts[1..] + [""];
    }
  }

  lemma LogLines(cs: seq<Commit>)
    requires forall c :: c in cs ==> FromGit(c)
    ensures Split(Strip(PrintLog(cs)), '\n') == if |cs| == 0 then [""] else PrintCommits(cs)
  {
    var lines := PrintCommits(cs);
    forall i | 0 <= i < |lines|
      ensures |lines[i]| > 0 && !IsSpace(lines[i][0]) && !IsSpace(lines[i][|lines[i]| - 1]) && '\n' !in lines[i]
    {
      assert cs[i] in cs;
      PrintedEnds(cs[i]);
    }
    if |cs| == 0 {
      assert PrintLog(cs) == "";
    } else {
      JoinSnoc(lines, '\n');
      JoinFirst(lines, '\n');
      if |lines| > 1 { JoinLast(lines, '\n'); }
      StripEnd(Join(lines, '\n'));
      SplitJoin(lines, '\n');
    }
  }

  lemma {:induction false} DecodeAll(cs: seq<Commit>)
    requires forall c :: c in cs ==> FromGit(c) && NoBar(c)
    ensures DecodeLines(PrintCommits(cs)) == cs
  {
    if |cs| > 0 {
      var n := |cs| - 1;
      assert cs == cs[..n] + [cs[n]];
      DecodeAll(cs[..n]);
      assert PrintCommits(cs)[..n] == PrintCommits(cs[..n]);
      assert cs[n] in cs;
      DecodePrinted(cs[n]);
    }
  }

  lemma {:induction false} WordsHold(s: string, d: char)
    requires d !in s
    ensures forall w :: w in Words(s) ==> d !in w
    decreases |s|
  {
    if |s| > 0 {
      if IsSpace(s[0]) { WordsHold(s[1..], d); } else { WordsHold(s[WordLength(s)..], d); }
    }
  }

  lemma {:induction false} StripHolds(s: string, d: char)
    requires d !in s
    ensures d !in StripRight(s) && d !in StripLeft(s)
  {
    if |s| > 0 {
      StripHolds(s[1..], d);
      StripHolds(s[..|s| - 1], d);
    }
  }

  lemma PiecesHold(s: string, c: char, d: char)
    requires d !in s
    ensures forall r :: r in StripAll(Split(s, c)) ==> d !in r
  {
    SplitHolds(s, c, d);
    forall i | 0 <= i < |Split(s, c)| ensures d !in StripAll(Split(s, c))[i] {
      StripHolds(Split(s, c)[i], d);
      StripHolds(StripLeft(Split(s, c)[i]), d);
    }
  }

  lemma {:induction false} SplitHolds(s: string, c: char, d: char)
    requires d !in s
    ensures forall i :: 0 <= i < |Split(s, c)| ==> d !in Split(s, c)[i]
  {
    if |s| > 0 { SplitHolds(s[1..], c, d); }
  }

  lemma DecodedHasNoBar(line: string)
    ensures forall c :: c in DecodeLine(line) ==> NoBar(c)
  {
    var parts := Split(line, '|');
    if |line| > 0 && |parts| >= 7 {
      WordsHold(parts[5], '|');
      PiecesHold(parts[6], ',', '|');
    }
  }

  lemma {:induction false} AllDecodedHaveNoBar(lines: seq<string>)
    ensures forall c :: c in DecodeLines(lines) ==> NoBar(c)
  {
    if |lines| > 0 {
      AllDecodedHaveNoBar(lines[..|lines| - 1]);
      DecodedHasNoBar(lines[|lines| - 1]);
    }
  }

  /** The decoder undoes the printing of any log git can print exactly when no field of any commit holds
      a `|`: hashes, subject, author, date, every parent and ref in order, and the merge flag. */
  lemma DecodeUndoesPrintIff(cs: seq<Commit>)
    requires forall c :: c in cs ==> FromGit(c)
    ensures DecodeLog(PrintLog(cs)) == cs <==> forall c :: c in cs ==> NoBar(c)
  {
    LogLines(cs);
    AllDecodedHaveNoBar(Split(Strip(PrintLog(cs)), '\n'));
    if forall c :: c in cs ==> NoBar(c) {
      DecodeAll(cs);
      if |cs| == 0 { assert DecodeLines([""]) == DecodeLines([""][..0]) + []; }
    }
  }

  // ---- what a separator in the subject does -------------------------------------------------------

  lemma {:induction false} JoinTwo(pre: seq<string>, p: string, q: string, post: seq<string>)
    ensures Join(pre + [p + (['|'] + q)] + post, '|') == Join(pre + [p, q] + post, '|')
  {
    if |pre| == 0 {
      JoinTwoHere(p, q, post);
      assert [] + [p + (['|'] + q)] + post == [p + (['|'] + q)] + post && [] + [p, q] + post == [p, q] + post;
    } else {
      JoinTwo(pre[1..], p, q, post);
      JoinHead(pre[0], pre[1..] + [p + (['|'] + q)] + post);
      JoinHead(pre[0], pre[1..] + [p, q] + post);
      assert pre + [p + (['|'] + q)] + post == [pre[0]] + (pre[1..] + [p + (['|'] + q)] + post);
      assert pre + [p, q] + post == [pre[0]] + (pre[1..] + [p, q] + post);
    }
  }

  lemma JoinHead(first: string, rest: seq<string>)
    requires |rest| > 0
    ensures Join([first] + rest, '|') == first + ['|'] + Join(rest, '|')
  {
    assert ([first] + rest)[1..] == rest;
  }

  lemma JoinTwoHere(p: string, q: string, post: seq<string>)
    ensures Join([p + (['|'] + q)] + post, '|') == Join([p, q] + post, '|')
  {
    JoinHead(p, [q] + post);
    assert [p, q] + post == [p] + ([q] + post);
    if |post| == 0 {
      assert [q] + post == [q] && [p + (['|'] + q)] + post == [p + (['|'] + q)];
      assert p + (['|'] + q) == p + ['|'] + q;
    } else {
      JoinHead(q, post);
      JoinHead(p + (['|'] + q), post);
      assert (p + (['|'] + q)) + ['|'] + Join(post, '|') == p + ['|'] + (q + ['|'] + Join(post, '|'));
    }
  }

  /** One separator in the subject shifts every later field by one: the subject is cut there, its rest
      becomes the author, the author the date, the words of the date the parents, and the parents the refs. */
  lemma SubjectBarShifts(c: Commit, p: string, q: string)
    requires FromGit(c) && c.message == p + (['|'] + q) && '|' !in p && '|' !in q && NoBar(c.(message := p))
    ensures var parents := if |c.date| > 0 then Words(c.date) else [];
            var was := Join(c.parents, ' ');
            DecodeLine(PrintCommit(c)) == [Commit(c.hash, c.shortHash, p, q, c.author, |parents| > 1, parents,
                                                  if |was| > 0 then StripAll(Split(was, ',')) else [])]
  {
    var was, refs := Join(c.parents, ' '), RefsText(c.refs);
    JoinTwo([c.hash, c.shortHash], p, q, [c.author, c.date, was, refs]);
    var parts := [c.hash, c.shortHash] + [p, q] + [c.author, c.date, was, refs];
    assert Fields(c) == [c.hash, c.shortHash] + [p + (['|'] + q)] + [c.author, c.date, was, refs];
    BarInFields(c.(message := p));
    assert was == Fields(c.(message := p))[5] && refs == Fields(c.(message := p))[6];
    SplitJoin(parts, '|');
    PrintedEnds(c);
  }

  lemma OneLine(line: string)
    ensures DecodeLines([line]) == DecodeLine(line)
  {
    assert [line][..0] == [];
    assert [] + DecodeLine(line) == DecodeLine(line);
  }

  lemma OneCommit(c: Commit)
    requires FromGit(c)
    ensures DecodeLog(PrintLog([c])) == DecodeLine(PrintCommit(c))
  {
    LogLines([c]);
    assert PrintCommits([c]) == [PrintCommit(c)];
    OneLine(PrintCommit(c));
  }

  lemma OneWord(word: string)
    requires IsWord(word)
    ensures Words(word) == [word]
  {
    FirstWord(word, "");
    assert word + "" == word;
  }

  /** A commit by `n` with the subject `a|b`, dated `d`, is shown as one by `b` with the parent `d`. */
  lemma BarIsMisread(h: string, subject: string, a: string, b: string, n: string, d: string)
    requires h == "h" && a == "a" && b == "b" && n == "n" && d == "d" && subject == "a|b"
    ensures FromGit(Commit(h, h, subject, n, d, false, [], []))
    ensures DecodeLog(PrintLog([Commit(h, h, subject, n, d, false, [], [])])) == [Commit(h, h, a, b, n, false, [d], [])]
  {
    assert subject == a + (['|'] + b);
    MisreadAt(h, subject, a, b, n, d);
  }

  lemma MisreadAt(h: string, subject: string, a: string, b: string, n: string, d: string)
    requires subject == a + (['|'] + b) && IsWord(h) && IsWord(d)
    requires forall t :: t in [h, a, b, n, d] ==> '|' !in t && '\n' !in t
    ensures FromGit(Commit(h, h, subject, n, d, false, [], []))
    ensures DecodeLog(PrintLog([Commit(h, h, subject, n, d, false, [], [])])) == [Commit(h, h, a, b, n, false, [d], [])]
  {
    var c := Commit(h, h, subject, n, d, false, [], []);
    assert h in [h, a, b, n, d] && a in [h, a, b, n, d] && b in [h, a, b, n, d] && n in [h, a, b, n, d] && d in [h, a, b, n, d];
    OneCommit(c);
    SubjectBarShifts(c, a, b);
    OneWord(d);
  }
}
