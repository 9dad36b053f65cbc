/** The parser of sh.c: tokens, the recursive descent over a cursor, and nulterminate. A text
    is the buffer up to its NUL; a parse result holds positions in the buffer, as argv and
    eargv do. */
module Shell {

  const MAXARGS := 10

  predicate IsSpace(c: char) {
    c == ' ' || c == '\t' || c == '\r' || c == '\n' || c == '\U{0B}'
  }

  predicate IsSymbol(c: char) {
    c == '<' || c == '|' || c == '>' || c == '&' || c == ';' || c == '(' || c == ')'
  }

  predicate IsWordChar(c: char) {
    !IsSpace(c) && !IsSymbol(c)
  }

  /** Where a word begins and ends. */
  datatype Span = Span(q: nat, eq: nat)

  datatype Mode = Input | Output

  datatype Cmd<W> =
    | Exec(argv: seq<W>)
    | Redir(cmd: Cmd<W>, file: W, mode: Mode)
    | Pipe(left: Cmd<W>, right: Cmd<W>)
    | List(left: Cmd<W>, right: Cmd<W>)
    | Back(cmd: Cmd<W>)

  // ---- tokens ----

  function SkipSpace(t: string, i: nat): (j: nat)
    requires i <= |t|
    ensures i <= j <= |t|
    decreases |t| - i
  {
    if i < |t| && IsSpace(t[i]) then SkipSpace(t, i + 1) else i
  }

  function WordEnd(t: string, i: nat): (j: nat)
    requires i <= |t|
    ensures i <= j <= |t| && (i < |t| && IsWordChar(t[i]) ==> i < j)
    decreases |t| - i
  {
    if i < |t| && IsWordChar(t[i]) then WordEnd(t, i + 1) else i
  }

  lemma {:induction false} SkipTwice(t: string, i: nat)
    requires i <= |t|
    ensures SkipSpace(t, SkipSpace(t, i)) == SkipSpace(t, i)
    decreases |t| - i
  {
    if i < |t| && IsSpace(t[i]) {
      SkipTwice(t, i + 1);
    }
  }

  /** After the skip there is the end or something that is no space. */
  lemma {:induction false} Skipped(t: string, i: nat)
    requires i <= |t|
    ensures SkipSpace(t, i) < |t| ==> !IsSpace(t[SkipSpace(t, i)])
    decreases |t| - i
  {
    if i < |t| && IsSpace(t[i]) {
      Skipped(t, i + 1);
    }
  }

  /** WordEnd finds the end of the run of word characters. */
  lemma {:induction false} WordEndIs(t: string, i: nat, j: nat)
    requires i <= j <= |t| && (forall k :: i <= k < j ==> IsWordChar(t[k])) && (j < |t| ==> !IsWordChar(t[j]))
    ensures WordEnd(t, i) == j
    decreases |t| - i
  {
    if i < j {
      WordEndIs(t, i + 1, j);
    }
  }

  lemma {:induction false} WordRun(t: string, i: nat)
    requires i <= |t|
    ensures forall k :: i <= k < WordEnd(t, i) ==> IsWordChar(t[k])
    ensures WordEnd(t, i) < |t| ==> !IsWordChar(t[WordEnd(t, i)])
    decreases |t| - i
  {
    if i < |t| && IsWordChar(t[i]) {
      WordRun(t, i + 1);
    }
  }

  datatype Kind = End | Symbol(c: char) | Append | Word

  datatype Token = Token(kind: Kind, q: nat, eq: nat, next: nat)

  /** gettoken: the token, where it is, and the cursor after it. */
  function GetToken(t: string, i: nat): (r: Token)
    requires i <= |t|
    ensures i <= r.q <= r.eq <= r.next <= |t| && (!r.kind.End? ==> i < r.next)
  {
    var s := SkipSpace(t, i);
    if s == |t| then Token(End, s, s, s)
    else if t[s] == '>' then
      var e := if s + 1 < |t| && t[s + 1] == '>' then s + 2 else s + 1;
      Token(if e == s + 2 then Append else Symbol('>'), s, e, SkipSpace(t, e))
    else if IsSymbol(t[s]) then Token(Symbol(t[s]), s, s + 1, SkipSpace(t, s + 1))
    else
      Skipped(t, i);
      Token(Word, s, WordEnd(t, s), SkipSpace(t, WordEnd(t, s)))
  }

  lemma TokenIsWord(t: string, i: nat)
    requires i <= |t| && GetToken(t, i).kind.Word?
    ensures IsWord(t, Span(GetToken(t, i).q, GetToken(t, i).eq))
  {
    Skipped(t, i);
    WordRun(t, SkipSpace(t, i));
  }

  /** A maximal run of word characters, not empty. */
  predicate IsWord(t: string, w: Span) {
    && w.q < w.eq <= |t| && (forall k :: w.q <= k < w.eq ==> IsWordChar(t[k]))
    && (w.eq < |t| ==> !IsWordChar(t[w.eq]))
  }

  /** peek: is the next character one of toks? */
  predicate Peek(t: string, i: nat, toks: string)
    requires i <= |t|
  {
    var s := SkipSpace(t, i);
    s < |t| && t[s] in toks
  }

  // ---- the parser ----

  datatype Result<T> = Ok(value: T, pos: nat) | Fail(msg: string)

  function Wrap<W>(c: Cmd<W>, ws: seq<(W, Mode)>): Cmd<W> {
    if ws == [] then c else Redir(Wrap(c, ws[..|ws| - 1]), ws[|ws| - 1].0, ws[|ws| - 1].1)
  }

  /** parseredirs: the redirections found from i on, after those in ws. ">>" means what ">" does. */
  function ParseRedirs(t: string, ws: seq<(Span, Mode)>, i: nat): (r: Result<seq<(Span, Mode)>>)
    requires i <= |t|
    ensures r.Ok? ==> i <= r.pos <= |t|
    decreases |t| - i, 1
  {
    RedirsAt(t, ws, SkipSpace(t, i))
  }

  function RedirsAt(t: string, ws: seq<(Span, Mode)>, i: nat): (r: Result<seq<(Span, Mode)>>)
    requires i <= |t|
    ensures r.Ok? ==> i <= r.pos <= |t|
    decreases |t| - i, 0
  {
    if !Peek(t, i, "<>") then Ok(ws, i) else
    var op := GetToken(t, i);
    var w := GetToken(t, op.next);
    if !w.kind.Word? then Fail("missing file for redirection") else
    ParseRedirs(t, ws + [(Span(w.q, w.eq), if op.kind == Symbol('<') then Input else Output)], w.next)
  }

  function ParseLine(t: string, i: nat): (r: Result<Cmd<Span>>)
    requires i <= |t|
    ensures r.Ok? ==> i <= r.pos <= |t|
    decreases |t| - i, 6
  {
    var head := ParsePipe(t, i);
    if head.Fail? then head else
    var h := ParseBacks(t, head.value, head.pos);
    if !Peek(t, h.pos, ";") then Ok(h.value, SkipSpace(t, h.pos)) else
    var rest := ParseLine(t, GetToken(t, h.pos).next);
    if rest.Fail? then rest else Ok(List(h.value, rest.value), rest.pos)
  }

  /** parseline's loop over "&". */
  function ParseBacks(t: string, c: Cmd<Span>, i: nat): (r: Result<Cmd<Span>>)
    requires i <= |t|
    ensures r.Ok? && i <= r.pos <= |t|
    decreases |t| - i, 0
  {
    if !Peek(t, i, "&") then Ok(c, SkipSpace(t, i)) else ParseBacks(t, Back(c), GetToken(t, i).next)
  }

  function ParsePipe(t: string, i: nat): (r: Result<Cmd<Span>>)
    requires i <= |t|
    ensures r.Ok? ==> i <= r.pos <= |t|
    decreases |t| - i, 5
  {
    var head := ParseExec(t, i);
    if head.Fail? then head
    else if !Peek(t, head.pos, "|") then Ok(head.value, SkipSpace(t, head.pos)) else
    var rest := ParsePipe(t, GetToken(t, head.pos).next);
    if rest.Fail? then rest else Ok(Pipe(head.value, rest.value), rest.pos)
  }

  function ParseBlock(t: string, i: nat): (r: Result<Cmd<Span>>)
    requires i <= |t|
    ensures r.Ok? ==> i <= r.pos <= |t|
    decreases |t| - i, 2
  {
    if !Peek(t, i, "(") then Fail("parseblock") else
    CloseBlock(t, ParseLine(t, GetToken(t, i).next))
  }

  /** parseblock after the line within. */
  function CloseBlock(t: string, body: Result<Cmd<Span>>): (r: Result<Cmd<Span>>)
    requires body.Ok? ==> body.pos <= |t|
    ensures r.Ok? ==> body.Ok? && body.pos <= r.pos <= |t|
  {
    if body.Fail? then body
    else if !Peek(t, body.pos, ")") then Fail("syntax - missing )")
    else
      var ws := ParseRedirs(t, [], GetToken(t, body.pos).next);
      if ws.Fail? then Fail(ws.msg) else Ok(Wrap(body.value, ws.value), ws.pos)
  }

  function ParseExec(t: string, i: nat): (r: Result<Cmd<Span>>)
    requires i <= |t|
    ensures r.Ok? ==> i <= r.pos <= |t|
    decreases |t| - i, 4
  {
    ExecAt(t, SkipSpace(t, i))
  }

  function ExecAt(t: string, i: nat): (r: Result<Cmd<Span>>)
    requires i <= |t|
    ensures r.Ok? ==> i <= r.pos <= |t|
    decreases |t| - i, 3
  {
    if Peek(t, i, "(") then ParseBlock(t, i) else
    var ws := ParseRedirs(t, [], i);
    if ws.Fail? then Fail(ws.msg) else ParseArgs(t, [], ws.value, ws.pos)
  }

  /** parseexec's loop over the words of a command and the redirections between them. */
  function ParseArgs(t: string, argv: seq<Span>, ws: seq<(Span, Mode)>, i: nat): (r: Result<Cmd<Span>>)
    requires i <= |t|
    ensures r.Ok? ==> i <= r.pos <= |t|
    decreases |t| - i, 1
  {
    ArgsAt(t, argv, ws, SkipSpace(t, i))
  }

  function ArgsAt(t: string, argv: seq<Span>, ws: seq<(Span, Mode)>, i: nat): (r: Result<Cmd<Span>>)
    requires i <= |t|
    ensures r.Ok? ==> i <= r.pos <= |t|
    decreases |t| - i, 0
  {
    if Peek(t, i, "|)&;") then Ok(Wrap(Exec(argv), ws), i) else
    var w := GetToken(t, i);
    if w.kind.End? then Ok(Wrap(Exec(argv), ws), w.next)
    else if !w.kind.Word? then Fail("syntax")
    else if |argv| + 1 >= MAXARGS then Fail("too many args")
    else
      var more := ParseRedirs(t, ws, w.next);
      if more.Fail? then Fail(more.msg) else ParseArgs(t, argv + [Span(w.q, w.eq)], more.value, more.pos)
  }

  /** parsecmd up to nulterminate: for every text either a command or one of the messages. */
  function ParseCmd(t: string): (r: Result<Cmd<Span>>)
    ensures r.Ok? ==> r.pos == |t|
  {
    var r := ParseLine(t, 0);
    if r.Fail? then r
    else if SkipSpace(t, r.pos) != |t| then Fail("syntax")
    else Ok(r.value, |t|)
  }

  // ---- printing ----

  function Text(t: string, w: Span): string {
    if w.q <= w.eq <= |t| then t[w.q..w.eq] else ""
  }

  function ViewWords(t: string, argv: seq<Span>): (r: seq<string>)
    ensures |r| == |argv|
  {
    seq(|argv|, k requires 0 <= k < |argv| => Text(t, argv[k]))
  }

  /** The command with its words in place of their positions. */
  function View(t: string, c: Cmd<Span>): Cmd<string> {
    match c
    case Exec(argv) => Exec(ViewWords(t, argv))
    case Redir(d, file, mode) => Redir(View(t, d), Text(t, file), mode)
    case Pipe(l, r) => Pipe(View(t, l), View(t, r))
    case List(l, r) => List(View(t, l), View(t, r))
    case Back(d) => Back(View(t, d))
  }

  function Size<W>(c: Cmd<W>): nat {
    match c
    case Exec(_) => 1
    case Redir(d, _, _) => 1 + Size(d)
    case Pipe(l, r) => 1 + Size(l) + Size(r)
    case List(l, r) => 1 + Size(l) + Size(r)
    case Back(d) => 1 + Size(d)
  }

  /** A command is what is left without its outer redirections, wrapped in them. */
  function Core<W>(c: Cmd<W>): (r: Cmd<W>)
    ensures !r.Redir? && Size(r) <= Size(c) && (c.Redir? ==> Size(r) < Size(c)) && (!c.Redir? ==> r == c)
  {
    if c.Redir? then Core(c.cmd) else c
  }

  function Wraps<W>(c: Cmd<W>): seq<(W, Mode)> {
    if c.Redir? then Wraps(c.cmd) + [(c.file, c.mode)] else []
  }

  lemma {:induction false} Unwrapped<W>(c: Cmd<W>)
    ensures Wrap(Core(c), Wraps(c)) == c
  {
    if c.Redir? {
      Unwrapped(c.cmd);
      assert Wraps(c)[..|Wraps(c)| - 1] == Wraps(c.cmd);
    }
  }

  function PrintWords(ws: seq<string>): string {
    if ws == [] then "" else " " + ws[0] + PrintWords(ws[1..])
  }

  function PrintRedirs(ws: seq<(string, Mode)>): string {
    if ws == [] then "" else (if ws[0].1.Input? then "<" else ">") + ws[0].0 + PrintRedirs(ws[1..])
  }

  /** What stands where the grammar wants a simple command; all else goes in parentheses. */
  function PrintExec(c: Cmd<string>): string
    decreases Size(c), if c.List? || c.Back? then 2 else if c.Pipe? then 4 else 1
  {
    (if Core(c).Exec? then PrintWords(Core(c).argv) else "(" + PrintLine(Core(c)) + ")") + PrintRedirs(Wraps(c))
  }

  function PrintPipe(c: Cmd<string>): string
    decreases Size(c), if c.List? || c.Back? then 3 else if c.Pipe? then 1 else 2
  {
    if c.Pipe? then PrintExec(c.left) + ("|" + PrintPipe(c.right)) else PrintExec(c)
  }

  function PrintBack(c: Cmd<string>): string
    decreases Size(c), if c.List? then 4 else if c.Back? then 0 else if c.Pipe? then 2 else 3
  {
    if c.Back? then PrintBack(c.cmd) + "&" else PrintPipe(c)
  }

  function PrintLine(c: Cmd<string>): string
    decreases Size(c), if c.List? then 1 else if c.Back? then 1 else if c.Pipe? then 3 else 4
  {
    if c.List? then PrintBack(c.left) + (";" + PrintLine(c.right)) else PrintBack(c)
  }

  predicate GoodWord(w: string) {
    w != "" && forall k :: 0 <= k < |w| ==> IsWordChar(w[k]) && w[k] != '\0'
  }

  /** Every command tree whose words the shell can write, with no more words than argv holds. */
  predicate Good(c: Cmd<string>) {
    match c
    case Exec(argv) => |argv| < MAXARGS && forall k :: 0 <= k < |argv| ==> GoodWord(argv[k])
    case Redir(d, file, _) => Good(d) && GoodWord(file)
    case Pipe(l, r) => Good(l) && Good(r)
    case List(l, r) => Good(l) && Good(r)
    case Back(d) => Good(d)
  }

  // ---- reading back what was printed ----

  /** x stands at position i of t. */
  predicate Here(t: string, i: nat, x: string) {
    i + |x| <= |t| && t[i..i + |x|] == x
  }

  lemma HereSplit(t: string, i: nat, a: string, b: string)
    requires Here(t, i, a + b)
    ensures Here(t, i, a) && Here(t, i + |a|, b)
  {
    assert t[i..i + |a|] == (a + b)[..|a|] == a;
    assert t[i + |a|..i + |a| + |b|] == t[i..i + |a + b|][|a|..] == b;
  }

  /** The text at j cannot go on with the construct before it. */
  predicate Stop(t: string, j: nat, toks: string) {
    j <= |t| && (j < |t| ==> t[j] in toks)
  }

  lemma WordHere(t: string, i: nat, w: string)
    requires Here(t, i, w) && GoodWord(w) && (i + |w| < |t| ==> !IsWordChar(t[i + |w|]))
    ensures GetToken(t, i) == Token(Word, i, i + |w|, SkipSpace(t, i + |w|)) && t[i..i + |w|] == w
    ensures IsWordChar(t[i])
  {
    assert forall k :: 0 <= k < |w| ==> t[i + k] == w[k];
    assert t[i] == w[0];
    assert forall k :: i <= k < i + |w| ==> IsWordChar(t[k]) by {
      forall k | i <= k < i + |w|
        ensures IsWordChar(t[k])
      {
        assert t[k] == w[k - i];
      }
    }
    WordEndIs(t, i, i + |w|);
  }

  function ViewRedirs(t: string, ws: seq<(Span, Mode)>): (r: seq<(string, Mode)>)
    ensures |r| == |ws|
  {
    seq(|ws|, k requires 0 <= k < |ws| => (Text(t, ws[k].0), ws[k].1))
  }

  lemma NoRedirs(t: string, rs: seq<(string, Mode)>)
    ensures ViewRedirs(t, []) + rs == rs
  {
  }

  lemma {:induction false} WrapView(t: string, c: Cmd<Span>, ws: seq<(Span, Mode)>)
    ensures View(t, Wrap(c, ws)) == Wrap(View(t, c), ViewRedirs(t, ws))
  {
    if ws != [] {
      WrapView(t, c, ws[..|ws| - 1]);
      assert ViewRedirs(t, ws)[..|ws| - 1] == ViewRedirs(t, ws[..|ws| - 1]);
    }
  }

  predicate GoodRedirs(ws: seq<(string, Mode)>) {
    forall k :: 0 <= k < |ws| ==> GoodWord(ws[k].0)
  }

  /** What may follow a command in a printed line. */
  const ENDS := "|&;)"

  lemma RedirsSkip(t: string, ws: seq<(Span, Mode)>, i: nat)
    requires i <= |t|
    ensures ParseRedirs(t, ws, SkipSpace(t, i)) == ParseRedirs(t, ws, i)
  {
    SkipTwice(t, i);
  }

  /** A printed redirection is read as one: the file's word ends before the next token. */
  lemma OneRedir(t: string, i: nat, w: (string, Mode))
    requires GoodWord(w.0) && Here(t, i, (if w.1.Input? then "<" else ">") + w.0)
    requires i + 1 + |w.0| < |t| ==> !IsWordChar(t[i + 1 + |w.0|])
    ensures Peek(t, i, "<>") && GetToken(t, i).kind == Symbol(if w.1.Input? then '<' else '>')
    ensures GetToken(t, i).next == i + 1
    ensures GetToken(t, i + 1) == Token(Word, i + 1, i + 1 + |w.0|, SkipSpace(t, i + 1 + |w.0|))
    ensures Text(t, Span(i + 1, i + 1 + |w.0|)) == w.0
  {
    var sym := if w.1.Input? then "<" else ">";
    HereSplit(t, i, sym, w.0);
    assert t[i] == t[i..i + 1][0] == sym[0];
    WordHere(t, i + 1, w.0);
  }

  lemma RedirStep(t: string, acc: seq<(Span, Mode)>, i: nat, w: (string, Mode), e: nat) returns (more: seq<(Span, Mode)>)
    requires GoodWord(w.0) && Here(t, i, (if w.1.Input? then "<" else ">") + w.0)
    requires e == i + 1 + |w.0| && (e < |t| ==> !IsWordChar(t[e]))
    ensures ViewRedirs(t, more) == ViewRedirs(t, acc) + [w] && e <= |t|
    ensures ParseRedirs(t, acc, i) == ParseRedirs(t, more, e)
  {
    OneRedir(t, i, w);
    more := acc + [(Span(i + 1, e), w.1)];
    assert SkipSpace(t, i) == i;
    assert ParseRedirs(t, acc, i) == RedirsAt(t, acc, i) == ParseRedirs(t, more, SkipSpace(t, e));
    RedirsSkip(t, more, e);
  }

  lemma PrintRedirsFirst(ws: seq<(string, Mode)>) returns (one: string, rest: string)
    requires ws != []
    ensures PrintRedirs(ws) == one + rest && rest == PrintRedirs(ws[1..])
    ensures one == (if ws[0].1.Input? then "<" else ">") + ws[0].0 && |one| == 1 + |ws[0].0|
  {
    one, rest := (if ws[0].1.Input? then "<" else ">") + ws[0].0, PrintRedirs(ws[1..]);
  }

  lemma RedirsNone(t: string, acc: seq<(Span, Mode)>, i: nat)
    requires i <= |t| && !Peek(t, i, "<>")
    ensures ParseRedirs(t, acc, i) == Ok(acc, SkipSpace(t, i))
  {
    SkipTwice(t, i);
  }

  lemma RedirsDone(t: string, acc: seq<(Span, Mode)>, i: nat)
    requires i <= |t| && Stop(t, i, ENDS)
    ensures ParseRedirs(t, acc, i) == Ok(acc, i)
  {
    RedirsNone(t, acc, i);
  }

  lemma Reassociate<T>(a: seq<T>, b: seq<T>)
    ensures b != [] ==> a + [b[0]] + b[1..] == a + b
  {
  }

  lemma {:induction false} RedirsHere(t: string, acc: seq<(Span, Mode)>, i: nat, ws: seq<(string, Mode)>, j: nat)
    returns (found: seq<(Span, Mode)>)
    requires Here(t, i, PrintRedirs(ws)) && GoodRedirs(ws) && j == i + |PrintRedirs(ws)| && Stop(t, j, ENDS)
    ensures ParseRedirs(t, acc, i) == Ok(found, j) && ViewRedirs(t, found) == ViewRedirs(t, acc) + ws
    decreases |ws|
  {
    if ws == [] {
      found := acc;
      RedirsDone(t, acc, i);
    } else {
      var one, rest := PrintRedirsFirst(ws);
      HereSplit(t, i, one, rest);
      var e := i + |one|;
      NextEnds(t, e, ws[1..]);
      var more := RedirStep(t, acc, i, ws[0], e);
      found := RedirsHere(t, more, e, ws[1..], j);
      Reassociate(ViewRedirs(t, acc), ws);
    }
  }

  /** Redirections, or what follows them, do not start with a word character or space. */
  lemma NextEnds(t: string, i: nat, ws: seq<(string, Mode)>)
    requires Here(t, i, PrintRedirs(ws)) && Stop(t, i + |PrintRedirs(ws)|, ENDS)
    ensures i < |t| ==> IsSymbol(t[i]) && t[i] != '('
  {
    if ws != [] {
      assert t[i] == t[i..i + |PrintRedirs(ws)|][0];
    }
  }

  lemma RedirsOnly(t: string, i: nat, rs: seq<(string, Mode)>, j: nat) returns (found: seq<(Span, Mode)>)
    requires Here(t, i, PrintRedirs(rs)) && GoodRedirs(rs) && j == i + |PrintRedirs(rs)| && Stop(t, j, ENDS)
    ensures ParseRedirs(t, [], i) == Ok(found, j) && ViewRedirs(t, found) == rs
  {
    found := RedirsHere(t, [], i, rs, j);
    NoRedirs(t, rs);
  }

  // ---- words ----

  lemma ArgsDone(t: string, argv: seq<Span>, ws: seq<(Span, Mode)>, i: nat)
    requires Stop(t, i, ENDS)
    ensures ParseArgs(t, argv, ws, i) == Ok(Wrap(Exec(argv), ws), i)
  {
  }

  /** One more word, and no redirection before the next. */
  lemma ArgStep(t: string, argv: seq<Span>, i: nat, w: string, e: nat) returns (more: seq<Span>)
    requires GoodWord(w) && Here(t, i, " " + w) && |argv| + 1 < MAXARGS
    requires e == i + 1 + |w| && (e < |t| ==> !IsWordChar(t[e]))
    ensures ViewWords(t, more) == ViewWords(t, argv) + [w] && e <= |t|
    ensures ParseArgs(t, argv, [], i) ==
      var ws := ParseRedirs(t, [], e);
      if ws.Fail? then Fail(ws.msg) else ParseArgs(t, more, ws.value, ws.pos)
  {
    ArgToken(t, i, w, e);
    more := argv + [Span(i + 1, e)];
    RedirsSkip(t, [], e);
  }

  lemma ArgToken(t: string, i: nat, w: string, e: nat)
    requires GoodWord(w) && Here(t, i, " " + w) && e == i + 1 + |w| && (e < |t| ==> !IsWordChar(t[e]))
    ensures e <= |t| && SkipSpace(t, i) == i + 1 && GetToken(t, i + 1) == Token(Word, i + 1, e, SkipSpace(t, e))
    ensures !Peek(t, i + 1, "|)&;") && Text(t, Span(i + 1, e)) == w
  {
    HereSplit(t, i, " ", w);
    assert t[i] == t[i..i + 1][0] == ' ';
    WordHere(t, i + 1, w);
  }

  lemma PrintWordsFirst(ws: seq<string>, rs: string) returns (one: string, rest: string)
    requires ws != []
    ensures PrintWords(ws) + rs == one + rest && rest == PrintWords(ws[1..]) + rs
    ensures one == " " + ws[0] && |one| == 1 + |ws[0]|
  {
    one, rest := " " + ws[0], PrintWords(ws[1..]) + rs;
    assert PrintWords(ws) == one + PrintWords(ws[1..]);
  }

  /** Where a word comes next there is a space, then the word. */
  lemma NextWord(t: string, i: nat, ws: seq<string>, rs: string)
    requires ws != [] && GoodWord(ws[0]) && Here(t, i, PrintWords(ws) + rs)
    ensures i + 1 < |t| && t[i] == ' ' && IsWordChar(t[i + 1]) && SkipSpace(t, i) == i + 1
  {
    var one, rest := PrintWordsFirst(ws, rs);
    var all := one + rest;
    assert t[i] == t[i..i + |all|][0] == ' ';
    assert t[i + 1] == t[i..i + |all|][1] == ws[0][0];
  }

  /** The last word, then the redirections. */
  lemma LastArg(t: string, argv: seq<Span>, i: nat, w: string, rs: seq<(string, Mode)>, j: nat) returns (c: Cmd<Span>)
    requires GoodWord(w) && GoodRedirs(rs) && |argv| + 1 < MAXARGS
    requires Here(t, i, " " + w) && Here(t, i + 1 + |w|, PrintRedirs(rs))
    requires j == i + 1 + |w| + |PrintRedirs(rs)| && Stop(t, j, ENDS)
    ensures ParseArgs(t, argv, [], i) == Ok(c, j) && View(t, c) == Wrap(Exec(ViewWords(t, argv) + [w]), rs)
  {
    var e := i + 1 + |w|;
    NextEnds(t, e, rs);
    var more := ArgStep(t, argv, i, w, e);
    var found := RedirsOnly(t, e, rs, j);
    ArgsDone(t, more, found, j);
    c := Wrap(Exec(more), found);
    WrapView(t, Exec(more), found);
  }

  lemma MoreArgs(t: string, argv: seq<Span>, i: nat, w: string, e: nat) returns (more: seq<Span>)
    requires GoodWord(w) && Here(t, i, " " + w) && |argv| + 1 < MAXARGS
    requires e == i + 1 + |w| && e + 1 < |t| && t[e] == ' ' && IsWordChar(t[e + 1]) && SkipSpace(t, e) == e + 1
    ensures ViewWords(t, more) == ViewWords(t, argv) + [w]
    ensures ParseArgs(t, argv, [], i) == ParseArgs(t, more, [], e)
  {
    more := ArgStep(t, argv, i, w, e);
    RedirsNone(t, [], e);
    SkipTwice(t, e);
  }

  lemma {:induction false} ArgsHere(t: string, argv: seq<Span>, i: nat, ws: seq<string>, rs: seq<(string, Mode)>, j: nat)
    returns (c: Cmd<Span>)
    requires ws != [] && (forall k :: 0 <= k < |ws| ==> GoodWord(ws[k])) && GoodRedirs(rs)
    requires |argv| + |ws| < MAXARGS
    requires Here(t, i, PrintWords(ws) + PrintRedirs(rs)) && j == i + |PrintWords(ws)| + |PrintRedirs(rs)| && Stop(t, j, ENDS)
    ensures ParseArgs(t, argv, [], i) == Ok(c, j) && View(t, c) == Wrap(Exec(ViewWords(t, argv) + ws), rs)
    decreases |ws|
  {
    var one, rest := PrintWordsFirst(ws, PrintRedirs(rs));
    HereSplit(t, i, one, rest);
    var e := i + |one|;
    if |ws| == 1 {
      assert PrintWords(ws[1..]) + PrintRedirs(rs) == PrintRedirs(rs);
      c := LastArg(t, argv, i, ws[0], rs, j);
      assert [ws[0]] == ws;
    } else {
      NextWord(t, e, ws[1..], PrintRedirs(rs));
      var more := MoreArgs(t, argv, i, ws[0], e);
      c := ArgsHere(t, more, e, ws[1..], rs, j);
      Reassociate(ViewWords(t, argv), ws);
    }
  }

  // ---- commands ----

  lemma {:induction false} GoodParts(c: Cmd<string>)
    requires Good(c)
    ensures Good(Core(c)) && GoodRedirs(Wraps(c))
  {
    if c.Redir? {
      GoodParts(c.cmd);
    }
  }

  /** A printed simple command. */
  lemma SimpleHere(t: string, i: nat, c: Cmd<string>, j: nat) returns (r: Cmd<Span>)
    requires Good(c) && Core(c).Exec? && Here(t, i, PrintExec(c)) && j == i + |PrintExec(c)| && Stop(t, j, ENDS)
    ensures ParseExec(t, i) == Ok(r, j) && View(t, r) == c
  {
    GoodParts(c);
    Unwrapped(c);
    var ws, rs := Core(c).argv, Wraps(c);
    if ws == [] {
      assert PrintExec(c) == PrintRedirs(rs);
      r := NoWords(t, i, rs, j);
    } else {
      NextWord(t, i, ws, PrintRedirs(rs));
      r := ArgsHere(t, [], i, ws, rs, j);
      assert ViewWords(t, []) + ws == ws;
      SomeWords(t, i);
    }
  }

  lemma NoWords(t: string, i: nat, rs: seq<(string, Mode)>, j: nat) returns (r: Cmd<Span>)
    requires GoodRedirs(rs) && Here(t, i, PrintRedirs(rs)) && j == i + |PrintRedirs(rs)| && Stop(t, j, ENDS)
    ensures ParseExec(t, i) == Ok(r, j) && View(t, r) == Wrap(Exec([]), rs)
  {
    NextEnds(t, i, rs);
    NotABlock(t, i);
    var found := RedirsOnly(t, i, rs, j);
    ArgsDone(t, [], found, j);
    r := Wrap(Exec([]), found);
    WrapView(t, Exec([]), found);
    assert ViewWords(t, []) == [];
  }

  lemma NotABlock(t: string, i: nat)
    requires i <= |t| && (i < |t| ==> IsSymbol(t[i]) && t[i] != '(')
    ensures ParseExec(t, i) ==
      var ws := ParseRedirs(t, [], i);
      if ws.Fail? then Fail(ws.msg) else ParseArgs(t, [], ws.value, ws.pos)
  {
    assert SkipSpace(t, i) == i;
  }

  lemma SomeWords(t: string, i: nat)
    requires i + 1 < |t| && t[i] == ' ' && IsWordChar(t[i + 1]) && SkipSpace(t, i) == i + 1
    ensures ParseExec(t, i) == ParseArgs(t, [], [], i)
  {
    SkipTwice(t, i);
    RedirsNone(t, [], i + 1);
  }

  // One step of the parser at a symbol.

  lemma PipeSkip(t: string, i: nat)
    requires i <= |t|
    ensures ParsePipe(t, SkipSpace(t, i)) == ParsePipe(t, i)
  {
    SkipTwice(t, i);
  }

  lemma LineSkip(t: string, i: nat)
    requires i <= |t|
    ensures ParseLine(t, SkipSpace(t, i)) == ParseLine(t, i)
  {
    PipeSkip(t, i);
  }

  lemma SymbolAt(t: string, i: nat, c: char)
    requires i < |t| && t[i] == c && IsSymbol(c) && c != '>'
    ensures GetToken(t, i) == Token(Symbol(c), i, i + 1, SkipSpace(t, i + 1)) && SkipSpace(t, i) == i
  {
  }

  lemma OpenStep(t: string, i: nat)
    requires i < |t| && t[i] == '('
    ensures ParseBlock(t, i) == CloseBlock(t, ParseLine(t, i + 1))
  {
    SymbolAt(t, i, '(');
    LineSkip(t, i + 1);
  }

  lemma ExecIsBlock(t: string, i: nat)
    requires i < |t| && t[i] == '('
    ensures ParseExec(t, i) == ParseBlock(t, i)
  {
    SymbolAt(t, i, '(');
  }

  lemma CloseStep(t: string, k: nat, body: Cmd<Span>, ws: seq<(Span, Mode)>, j: nat)
    requires k < |t| && t[k] == ')' && ParseRedirs(t, [], k + 1) == Ok(ws, j)
    ensures CloseBlock(t, Ok(body, k)) == Ok(Wrap(body, ws), j)
  {
    SymbolAt(t, k, ')');
    RedirsSkip(t, [], k + 1);
  }

  lemma BlockStep(t: string, i: nat, k: nat, body: Cmd<Span>, ws: seq<(Span, Mode)>, j: nat)
    requires i < |t| && t[i] == '(' && ParseLine(t, i + 1) == Ok(body, k) && k < |t| && t[k] == ')'
    requires ParseRedirs(t, [], k + 1) == Ok(ws, j)
    ensures ParseExec(t, i) == Ok(Wrap(body, ws), j)
  {
    ExecIsBlock(t, i);
    OpenStep(t, i);
    CloseStep(t, k, body, ws, j);
  }

  lemma PipeStep(t: string, i: nat, k: nat, l: Cmd<Span>, r: Cmd<Span>, j: nat)
    requires i <= |t| && ParseExec(t, i) == Ok(l, k) && k < |t| && t[k] == '|' && ParsePipe(t, k + 1) == Ok(r, j)
    ensures ParsePipe(t, i) == Ok(Pipe(l, r), j)
  {
    SymbolAt(t, k, '|');
    PipeSkip(t, k + 1);
  }

  lemma PipeEnd(t: string, i: nat, k: nat, l: Cmd<Span>)
    requires i <= |t| && ParseExec(t, i) == Ok(l, k) && Stop(t, k, "&;)")
    ensures ParsePipe(t, i) == Ok(l, k)
  {
  }

  lemma BacksSkip(t: string, c: Cmd<Span>, i: nat)
    requires i <= |t|
    ensures ParseBacks(t, c, SkipSpace(t, i)) == ParseBacks(t, c, i)
  {
    SkipTwice(t, i);
  }

  lemma BackStep(t: string, c: Cmd<Span>, i: nat)
    requires i < |t| && t[i] == '&'
    ensures ParseBacks(t, c, i) == ParseBacks(t, Back(c), i + 1)
  {
    SymbolAt(t, i, '&');
    BacksSkip(t, Back(c), i + 1);
  }

  lemma BackEnd(t: string, c: Cmd<Span>, i: nat)
    requires Stop(t, i, ";)")
    ensures ParseBacks(t, c, i) == Ok(c, i)
  {
  }

  /** The first part of a line: everything up to ";" or the end. */
  function ParseHead(t: string, i: nat): (r: Result<Cmd<Span>>)
    requires i <= |t|
    ensures r.Ok? ==> i <= r.pos <= |t|
  {
    var head := ParsePipe(t, i);
    if head.Fail? then head else ParseBacks(t, head.value, head.pos)
  }

  lemma LineStep(t: string, i: nat, k: nat, l: Cmd<Span>, r: Cmd<Span>, j: nat)
    requires i <= |t| && ParseHead(t, i) == Ok(l, k) && k < |t| && t[k] == ';' && ParseLine(t, k + 1) == Ok(r, j)
    ensures ParseLine(t, i) == Ok(List(l, r), j)
  {
    SymbolAt(t, k, ';');
    LineSkip(t, k + 1);
  }

  lemma LineEnd(t: string, i: nat, k: nat, l: Cmd<Span>)
    requires i <= |t| && ParseHead(t, i) == Ok(l, k) && Stop(t, k, ")")
    ensures ParseLine(t, i) == Ok(l, k)
  {
  }

  lemma SplitAt(t: string, i: nat, left: string, c: char, right: string) returns (k: nat)
    requires Here(t, i, left + ([c] + right))
    ensures k == i + |left| && k < |t| && t[k] == c && Here(t, i, left) && Here(t, k + 1, right)
    ensures |left + ([c] + right)| == |left| + 1 + |right|
  {
    HereSplit(t, i, left, [c] + right);
    k := i + |left|;
    HereSplit(t, k, [c], right);
    assert t[k] == t[k..k + 1][0] == c;
  }

  lemma SplitLast(t: string, i: nat, left: string, c: char) returns (k: nat)
    requires Here(t, i, left + [c])
    ensures k == i + |left| && k < |t| && t[k] == c && Here(t, i, left) && |left + [c]| == |left| + 1
  {
    assert left + [c] == left + ([c] + "");
    k := SplitAt(t, i, left, c, "");
  }

  // Every printed command is read back, by induction over its tree.

  lemma {:induction false} ExecHere(t: string, i: nat, c: Cmd<string>, j: nat) returns (r: Cmd<Span>)
    requires Good(c) && Here(t, i, PrintExec(c)) && j == i + |PrintExec(c)| && Stop(t, j, ENDS)
    ensures ParseExec(t, i) == Ok(r, j) && View(t, r) == c
    decreases Size(c), if c.List? || c.Back? then 2 else if c.Pipe? then 4 else 1
  {
    if Core(c).Exec? {
      r := SimpleHere(t, i, c, j);
    } else {
      GoodParts(c);
      var k := BlockSplit(t, i, PrintLine(Core(c)), PrintRedirs(Wraps(c)));
      var body := LineHere(t, i + 1, Core(c), k);
      r := BlockHere(t, i, k, body, c, j);
    }
  }

  lemma BlockHere(t: string, i: nat, k: nat, body: Cmd<Span>, c: Cmd<string>, j: nat) returns (r: Cmd<Span>)
    requires i < |t| && t[i] == '(' && ParseLine(t, i + 1) == Ok(body, k) && k < |t| && t[k] == ')'
    requires Good(c) && View(t, body) == Core(c)
    requires Here(t, k + 1, PrintRedirs(Wraps(c))) && j == k + 1 + |PrintRedirs(Wraps(c))| && Stop(t, j, ENDS)
    ensures ParseExec(t, i) == Ok(r, j) && View(t, r) == c
  {
    GoodParts(c);
    Unwrapped(c);
    var found := RedirsOnly(t, k + 1, Wraps(c), j);
    BlockStep(t, i, k, body, found, j);
    WrapView(t, body, found);
    r := Wrap(body, found);
  }

  lemma BlockSplit(t: string, i: nat, line: string, rs: string) returns (k: nat)
    requires Here(t, i, ("(" + line + ")") + rs)
    ensures k == i + 1 + |line| && k < |t| && t[i] == '(' && t[k] == ')'
    ensures Here(t, i + 1, line) && Here(t, k + 1, rs) && |("(" + line + ")") + rs| == 2 + |line| + |rs|
  {
    assert ("(" + line + ")") + rs == "(" + (line + (")" + rs));
    HereSplit(t, i, "(", line + (")" + rs));
    HereSplit(t, i + 1, line, ")" + rs);
    k := i + 1 + |line|;
    HereSplit(t, k, ")", rs);
    assert t[i] == t[i..i + 1][0] == '(' && t[k] == t[k..k + 1][0] == ')';
  }

  lemma {:induction false} PipeHere(t: string, i: nat, c: Cmd<string>, j: nat) returns (r: Cmd<Span>)
    requires Good(c) && Here(t, i, PrintPipe(c)) && j == i + |PrintPipe(c)| && Stop(t, j, "&;)")
    ensures ParsePipe(t, i) == Ok(r, j) && View(t, r) == c
    decreases Size(c), if c.List? || c.Back? then 3 else if c.Pipe? then 1 else 2
  {
    if c.Pipe? {
      var k := SplitAt(t, i, PrintExec(c.left), '|', PrintPipe(c.right));
      var l := ExecHere(t, i, c.left, k);
      var m := PipeHere(t, k + 1, c.right, j);
      PipeStep(t, i, k, l, m, j);
      r := Pipe(l, m);
    } else {
      r := ExecHere(t, i, c, j);
      PipeEnd(t, i, j, r);
    }
  }

  lemma {:induction false} BackHere(t: string, i: nat, c: Cmd<string>, j: nat) returns (r: Cmd<Span>)
    requires Good(c) && Here(t, i, PrintBack(c)) && j == i + |PrintBack(c)| && Stop(t, j, "&;)")
    ensures View(t, r) == c && ParseHead(t, i) == ParseBacks(t, r, j)
    decreases Size(c), if c.List? then 4 else if c.Back? then 0 else if c.Pipe? then 2 else 3
  {
    if c.Back? {
      var k := SplitLast(t, i, PrintBack(c.cmd), '&');
      var d := BackHere(t, i, c.cmd, k);
      BackStep(t, d, k);
      r := Back(d);
    } else {
      r := PipeHere(t, i, c, j);
      HeadIs(t, i, r, j);
    }
  }

  lemma HeadIs(t: string, i: nat, c: Cmd<Span>, j: nat)
    requires i <= |t| && ParsePipe(t, i) == Ok(c, j)
    ensures ParseHead(t, i) == ParseBacks(t, c, j)
  {
  }

  lemma {:induction false} LineHere(t: string, i: nat, c: Cmd<string>, j: nat) returns (r: Cmd<Span>)
    requires Good(c) && Here(t, i, PrintLine(c)) && j == i + |PrintLine(c)| && Stop(t, j, ")")
    ensures ParseLine(t, i) == Ok(r, j) && View(t, r) == c
    decreases Size(c), if c.List? then 1 else if c.Back? then 1 else if c.Pipe? then 3 else 4
  {
    if c.List? {
      var k := SplitAt(t, i, PrintBack(c.left), ';', PrintLine(c.right));
      var l := BackHere(t, i, c.left, k);
      BackEnd(t, l, k);
      var m := LineHere(t, k + 1, c.right, j);
      LineStep(t, i, k, l, m, j);
      r := List(l, m);
    } else {
      r := BackHere(t, i, c, j);
      BackEnd(t, r, j);
      LineEnd(t, i, j, r);
    }
  }

  /** Round trip: every command tree, printed and parsed, is found again. */
  lemma ParsePrinted(c: Cmd<string>)
    requires Good(c)
    ensures var t := PrintLine(c); ParseCmd(t).Ok? && View(t, ParseCmd(t).value) == c
  {
    var t := PrintLine(c);
    assert t[0..|t|] == t;
    var r := LineHere(t, 0, c, |t|);
  }

  // ---- the words of a parse ----

  predicate WordsIn(t: string, c: Cmd<Span>) {
    match c
    case Exec(argv) => |argv| < MAXARGS && forall k :: 0 <= k < |argv| ==> IsWord(t, argv[k])
    case Redir(d, file, _) => WordsIn(t, d) && IsWord(t, file)
    case Pipe(l, r) => WordsIn(t, l) && WordsIn(t, r)
    case List(l, r) => WordsIn(t, l) && WordsIn(t, r)
    case Back(d) => WordsIn(t, d)
  }

  predicate RedirsIn(t: string, ws: seq<(Span, Mode)>) {
    forall k :: 0 <= k < |ws| ==> IsWord(t, ws[k].0)
  }

  lemma {:induction false} WrapWords(t: string, c: Cmd<Span>, ws: seq<(Span, Mode)>)
    requires WordsIn(t, c) && RedirsIn(t, ws)
    ensures WordsIn(t, Wrap(c, ws))
  {
    if ws != [] {
      WrapWords(t, c, ws[..|ws| - 1]);
    }
  }

  lemma {:induction false} RedirsWords(t: string, ws: seq<(Span, Mode)>, i: nat)
    requires i <= |t| && RedirsIn(t, ws)
    ensures ParseRedirs(t, ws, i).Ok? ==> RedirsIn(t, ParseRedirs(t, ws, i).value)
    decreases |t| - i
  {
    var s := SkipSpace(t, i);
    if Peek(t, s, "<>") {
      var op := GetToken(t, s);
      var w := GetToken(t, op.next);
      if w.kind.Word? {
        TokenIsWord(t, op.next);
        RedirsWords(t, ws + [(Span(w.q, w.eq), if op.kind == Symbol('<') then Input else Output)], w.next);
      }
    }
  }

  lemma {:induction false} ArgsWords(t: string, argv: seq<Span>, ws: seq<(Span, Mode)>, i: nat)
    requires i <= |t| && RedirsIn(t, ws) && WordsIn(t, Exec(argv))
    ensures ParseArgs(t, argv, ws, i).Ok? ==> WordsIn(t, ParseArgs(t, argv, ws, i).value)
    decreases |t| - i
  {
    var s := SkipSpace(t, i);
    WrapWords(t, Exec(argv), ws);
    if !Peek(t, s, "|)&;") {
      var w := GetToken(t, s);
      if w.kind.Word? && |argv| + 1 < MAXARGS {
        TokenIsWord(t, s);
        RedirsWords(t, ws, w.next);
        var more := ParseRedirs(t, ws, w.next);
        if more.Ok? {
          ArgsWords(t, argv + [Span(w.q, w.eq)], more.value, more.pos);
        }
      }
    }
  }

  lemma {:induction false} LineWords(t: string, i: nat)
    requires i <= |t|
    ensures ParseLine(t, i).Ok? ==> WordsIn(t, ParseLine(t, i).value)
    decreases |t| - i, 6
  {
    PipeWords(t, i);
    var head := ParsePipe(t, i);
    if head.Ok? {
      BacksWords(t, head.value, head.pos);
      var h := ParseBacks(t, head.value, head.pos);
      if Peek(t, h.pos, ";") {
        LineWords(t, GetToken(t, h.pos).next);
      }
    }
  }

  lemma {:induction false} BacksWords(t: string, c: Cmd<Span>, i: nat)
    requires i <= |t| && WordsIn(t, c)
    ensures WordsIn(t, ParseBacks(t, c, i).value)
    decreases |t| - i
  {
    if Peek(t, i, "&") {
      BacksWords(t, Back(c), GetToken(t, i).next);
    }
  }

  lemma {:induction false} PipeWords(t: string, i: nat)
    requires i <= |t|
    ensures ParsePipe(t, i).Ok? ==> WordsIn(t, ParsePipe(t, i).value)
    decreases |t| - i, 5
  {
    ExecWords(t, i);
    var head := ParseExec(t, i);
    if head.Ok? && Peek(t, head.pos, "|") {
      PipeWords(t, GetToken(t, head.pos).next);
    }
  }

  lemma {:induction false} ExecWords(t: string, i: nat)
    requires i <= |t|
    ensures ParseExec(t, i).Ok? ==> WordsIn(t, ParseExec(t, i).value)
    decreases |t| - i, 4
  {
    var s := SkipSpace(t, i);
    if Peek(t, s, "(") {
      BlockWords(t, s);
    } else {
      RedirsWords(t, [], s);
      var ws := ParseRedirs(t, [], s);
      if ws.Ok? {
        ArgsWords(t, [], ws.value, ws.pos);
      }
    }
  }

  lemma {:induction false} BlockWords(t: string, i: nat)
    requires i <= |t|
    ensures ParseBlock(t, i).Ok? ==> WordsIn(t, ParseBlock(t, i).value)
    decreases |t| - i, 2
  {
    if Peek(t, i, "(") {
      LineWords(t, GetToken(t, i).next);
      var body := ParseLine(t, GetToken(t, i).next);
      if body.Ok? && Peek(t, body.pos, ")") {
        RedirsWords(t, [], GetToken(t, body.pos).next);
        var ws := ParseRedirs(t, [], GetToken(t, body.pos).next);
        if ws.Ok? {
          WrapWords(t, body.value, ws.value);
        }
      }
    }
  }

  /** Every argument and file of a parsed command is a whole word of the text, and no command
      has more than nine. */
  lemma ParsedWords(t: string)
    requires ParseCmd(t).Ok?
    ensures WordsIn(t, ParseCmd(t).value)
  {
    LineWords(t, 0);
  }

  lemma {:induction false} ViewGood(t: string, c: Cmd<Span>)
    requires WordsIn(t, c) && '\0' !in t
    ensures Good(View(t, c))
  {
    match c
    case Exec(argv) =>
      forall k | 0 <= k < |argv|
        ensures GoodWord(ViewWords(t, argv)[k])
      {
        TextGood(t, argv[k]);
      }
    case Redir(d, file, _) =>
      ViewGood(t, d);
      TextGood(t, file);
    case Pipe(l, r) =>
      ViewGood(t, l);
      ViewGood(t, r);
    case List(l, r) =>
      ViewGood(t, l);
      ViewGood(t, r);
    case Back(d) => ViewGood(t, d);
  }

  lemma TextGood(t: string, w: Span)
    requires IsWord(t, w) && '\0' !in t
    ensures GoodWord(Text(t, w))
  {
    forall k | 0 <= k < |Text(t, w)|
      ensures IsWordChar(Text(t, w)[k]) && Text(t, w)[k] != '\0'
    {
      assert Text(t, w)[k] == t[w.q + k];
    }
  }

  /** Printing is a normal form: whatever text was parsed, its printed command parses to it. */
  lemma NormalForm(t: string)
    requires ParseCmd(t).Ok? && '\0' !in t
    ensures var c := View(t, ParseCmd(t).value); var u := PrintLine(c);
      ParseCmd(u).Ok? && View(u, ParseCmd(u).value) == c
  {
    ParsedWords(t);
    ViewGood(t, ParseCmd(t).value);
    ParsePrinted(View(t, ParseCmd(t).value));
  }

  // ---- nulterminate ----

  /** The positions that nulterminate writes to. */
  function Ends(c: Cmd<Span>): set<nat> {
    match c
    case Exec(argv) => set k | 0 <= k < |argv| :: argv[k].eq
    case Redir(d, file, _) => Ends(d) + {file.eq}
    case Pipe(l, r) => Ends(l) + Ends(r)
    case List(l, r) => Ends(l) + Ends(r)
    case Back(d) => Ends(d)
  }

  function Spans(c: Cmd<Span>): set<Span> {
    match c
    case Exec(argv) => set k | 0 <= k < |argv| :: argv[k]
    case Redir(d, file, _) => Spans(d) + {file}
    case Pipe(l, r) => Spans(l) + Spans(r)
    case List(l, r) => Spans(l) + Spans(r)
    case Back(d) => Spans(d)
  }

  ghost predicate ZeroedAt(buf: seq<char>, was: seq<char>, at: set<nat>) {
    |buf| == |was| && forall k: nat :: k < |was| ==> buf[k] == if k in at then '\0' else was[k]
  }

  /** The NUL-terminated string at q is w. */
  predicate CString(buf: seq<char>, q: nat, w: string) {
    q + |w| < |buf| && buf[q..q + |w|] == w && '\0' !in w && buf[q + |w|] == '\0'
  }

  lemma {:induction false} SpansAre(t: string, c: Cmd<Span>)
    requires WordsIn(t, c)
    ensures forall w :: w in Spans(c) ==> IsWord(t, w) && w.eq in Ends(c)
    ensures forall e :: e in Ends(c) ==> e <= |t| && (e < |t| ==> !IsWordChar(t[e]))
  {
    match c
    case Exec(argv) =>
    case Redir(d, file, _) => SpansAre(t, d);
    case Pipe(l, r) =>
      SpansAre(t, l);
      SpansAre(t, r);
    case List(l, r) =>
      SpansAre(t, l);
      SpansAre(t, r);
    case Back(d) => SpansAre(t, d);
  }

  /** With the NULs written, every argument and file name of the command is the string that its
      token was: no NUL falls into another word. */
  lemma WordsSurvive(t: string, buf: seq<char>, w: Span)
    requires ParseCmd(t).Ok? && '\0' !in t && w in Spans(ParseCmd(t).value)
    requires ZeroedAt(buf, t + ['\0'], Ends(ParseCmd(t).value))
    ensures CString(buf, w.q, Text(t, w))
  {
    var c := ParseCmd(t).value;
    ParsedWords(t);
    SpansAre(t, c);
    forall k | w.q <= k < w.eq
      ensures buf[k] == t[k]
    {
      assert IsWordChar(t[k]);
    }
    assert buf[w.q..w.eq] == t[w.q..w.eq];
  }

  /** Writes a NUL after every word of c. */
  method NulTerminate(buf: array<char>, c: Cmd<Span>)
    requires forall e :: e in Ends(c) ==> e < buf.Length
    modifies buf
    ensures ZeroedAt(buf[..], old(buf[..]), Ends(c))
    decreases c
  {
    match c
    case Exec(argv) =>
      var i := 0;
      while i < |argv|
        invariant 0 <= i <= |argv|
        invariant ZeroedAt(buf[..], old(buf[..]), EndsBelow(argv, i))
      {
        EndsNext(argv, i);
        assert argv[i].eq in Ends(c);
        buf[argv[i].eq] := '\0';
        i := i + 1;
      }
      assert EndsBelow(argv, |argv|) == Ends(c);
    case Redir(d, file, _) =>
      assert Ends(c) == Ends(d) + {file.eq} && file.eq in Ends(c);
      NulTerminate(buf, d);
      buf[file.eq] := '\0';
    case Pipe(l, r) =>
      assert Ends(c) == Ends(l) + Ends(r);
      NulTerminate(buf, l);
      NulTerminate(buf, r);
    case List(l, r) =>
      assert Ends(c) == Ends(l) + Ends(r);
      NulTerminate(buf, l);
      NulTerminate(buf, r);
    case Back(d) =>
      assert Ends(c) == Ends(d);
      NulTerminate(buf, d);
  }

  ghost function EndsBelow(argv: seq<Span>, n: nat): set<nat>
    requires n <= |argv|
  {
    set k | 0 <= k < n :: argv[k].eq
  }

  lemma EndsNext(argv: seq<Span>, n: nat)
    requires n < |argv|
    ensures EndsBelow(argv, n + 1) == EndsBelow(argv, n) + {argv[n].eq}
  {
  }

  // ---- the parser as the source runs it: a cursor and loops ----

  class Parser {
    const t: string
    var ps: nat

    constructor (text: string)
      ensures t == text && ps == 0
    {
      t, ps := text, 0;
    }

    method Skip()
      requires ps <= |t|
      modifies this
      ensures ps == SkipSpace(t, old(ps)) <= |t|
    {
      while ps < |t| && IsSpace(t[ps])
        invariant old(ps) <= ps <= |t| && SkipSpace(t, ps) == SkipSpace(t, old(ps))
      {
        ps := ps + 1;
      }
    }

    method Looks(toks: string) returns (found: bool)
      requires ps <= |t|
      modifies this
      ensures ps == SkipSpace(t, old(ps)) <= |t| && found == Peek(t, old(ps), toks)
    {
      Skip();
      found := ps < |t| && t[ps] in toks;
    }

    method Take() returns (kind: Kind, q: nat, eq: nat)
      requires ps <= |t|
      modifies this
      ensures ps <= |t| && GetToken(t, old(ps)) == Token(kind, q, eq, ps)
    {
      Skip();
      q := ps;
      if ps == |t| {
        kind := End;
      } else if t[ps] == '>' {
        ps := ps + 1;
        kind := Symbol('>');
        if ps < |t| && t[ps] == '>' {
          kind := Append;
          ps := ps + 1;
        }
      } else if IsSymbol(t[ps]) {
        kind := Symbol(t[ps]);
        ps := ps + 1;
      } else {
        kind := Word;
        while ps < |t| && !IsSpace(t[ps]) && !IsSymbol(t[ps])
          invariant q <= ps <= |t| && WordEnd(t, ps) == WordEnd(t, q)
        {
          ps := ps + 1;
        }
      }
      eq := ps;
      Skip();
    }

    method Redirs(before: seq<(Span, Mode)>) returns (r: Result<seq<(Span, Mode)>>)
      requires ps <= |t|
      modifies this
      ensures ps <= |t| && r == ParseRedirs(t, before, old(ps)) && (r.Ok? ==> r.pos == ps)
    {
      var ws := before;
      SkipTwice(t, ps);
      var more := Looks("<>");
      while more
        invariant ps <= |t| && ParseRedirs(t, before, old(ps)) == ParseRedirs(t, ws, ps)
        invariant ps == SkipSpace(t, ps) && more == Peek(t, ps, "<>")
        decreases |t| - ps
      {
        var op, q0, eq0 := Take();
        var kind, q, eq := Take();
        if !kind.Word? {
          return Fail("missing file for redirection");
        }
        ws := ws + [(Span(q, eq), if op == Symbol('<') then Input else Output)];
        RedirsSkip(t, ws, ps);
        SkipTwice(t, ps);
        more := Looks("<>");
      }
      r := Ok(ws, ps);
    }

    method ExecArgs(before: seq<(Span, Mode)>) returns (r: Result<Cmd<Span>>)
      requires ps <= |t|
      modifies this
      ensures ps <= |t| && r == ParseArgs(t, [], before, old(ps)) && (r.Ok? ==> r.pos == ps)
    {
      var argv: seq<Span>, ws := [], before;
      SkipTwice(t, ps);
      var stop := Looks("|)&;");
      while !stop
        invariant ps <= |t| && ParseArgs(t, [], before, old(ps)) == ParseArgs(t, argv, ws, ps)
        invariant ps == SkipSpace(t, ps) && stop == Peek(t, ps, "|)&;")
        decreases |t| - ps
      {
        var kind, q, eq := Take();
        if kind.End? {
          break;
        }
        if !kind.Word? {
          return Fail("syntax");
        }
        if |argv| + 1 >= MAXARGS {
          return Fail("too many args");
        }
        var more := Redirs(ws);
        if more.Fail? {
          return Fail(more.msg);
        }
        argv, ws := argv + [Span(q, eq)], more.value;
        ArgsSkip(t, argv, ws, ps);
        SkipTwice(t, ps);
        stop := Looks("|)&;");
      }
      r := Ok(Wrap(Exec(argv), ws), ps);
    }

    method Simple() returns (r: Result<Cmd<Span>>)
      requires ps <= |t|
      modifies this
      ensures ps <= |t| && r == ParseExec(t, old(ps)) && (r.Ok? ==> r.pos == ps)
      decreases |t| - ps, 3
    {
      SkipTwice(t, ps);
      var paren := Looks("(");
      if paren {
        r := Block();
        return;
      }
      var ws := Redirs([]);
      if ws.Fail? {
        return Fail(ws.msg);
      }
      r := ExecArgs(ws.value);
    }

    method Block() returns (r: Result<Cmd<Span>>)
      requires ps <= |t|
      modifies this
      ensures ps <= |t| && r == ParseBlock(t, old(ps)) && (r.Ok? ==> r.pos == ps)
      decreases |t| - ps, 2
    {
      GetTokenSkip(t, ps);
      var open := Looks("(");
      if !open {
        return Fail("parseblock");
      }
      var kind, q, eq := Take();
      var body := Line();
      if body.Fail? {
        return body;
      }
      GetTokenSkip(t, ps);
      var close := Looks(")");
      if !close {
        return Fail("syntax - missing )");
      }
      var kind2, q2, eq2 := Take();
      var ws := Redirs([]);
      if ws.Fail? {
        return Fail(ws.msg);
      }
      r := Ok(Wrap(body.value, ws.value), ws.pos);
    }

    method Pipes() returns (r: Result<Cmd<Span>>)
      requires ps <= |t|
      modifies this
      ensures ps <= |t| && r == ParsePipe(t, old(ps)) && (r.Ok? ==> r.pos == ps)
      decreases |t| - ps, 4
    {
      var head := Simple();
      if head.Fail? {
        return head;
      }
      GetTokenSkip(t, ps);
      var bar := Looks("|");
      if !bar {
        return Ok(head.value, ps);
      }
      var kind, q, eq := Take();
      var rest := Pipes();
      if rest.Fail? {
        return rest;
      }
      r := Ok(Pipe(head.value, rest.value), rest.pos);
    }

    method Backs(c: Cmd<Span>) returns (r: Cmd<Span>)
      requires ps <= |t|
      modifies this
      ensures old(ps) <= ps <= |t| && ParseBacks(t, c, old(ps)) == Ok(r, ps)
    {
      r := c;
      SkipTwice(t, ps);
      BacksSkip(t, r, ps);
      var more := Looks("&");
      while more
        invariant old(ps) <= ps <= |t| && ParseBacks(t, c, old(ps)) == ParseBacks(t, r, ps)
        invariant ps == SkipSpace(t, ps) && more == Peek(t, ps, "&")
        decreases |t| - ps
      {
        var kind, q, eq := Take();
        r := Back(r);
        SkipTwice(t, ps);
        BacksSkip(t, r, ps);
        more := Looks("&");
      }
    }

    method Line() returns (r: Result<Cmd<Span>>)
      requires ps <= |t|
      modifies this
      ensures ps <= |t| && r == ParseLine(t, old(ps)) && (r.Ok? ==> r.pos == ps)
      decreases |t| - ps, 5
    {
      var head := Pipes();
      if head.Fail? {
        return head;
      }
      var c := Backs(head.value);
      GetTokenSkip(t, ps);
      var semi := Looks(";");
      if !semi {
        return Ok(c, ps);
      }
      var kind, q, eq := Take();
      var rest := Line();
      if rest.Fail? {
        return rest;
      }
      r := Ok(List(c, rest.value), rest.pos);
    }

    /** parsecmd up to nulterminate. */
    method Command() returns (r: Result<Cmd<Span>>)
      requires ps == 0
      modifies this
      ensures r == ParseCmd(t)
    {
      var line := Line();
      if line.Fail? {
        return line;
      }
      Skip();
      if ps != |t| {
        return Fail("syntax");
      }
      r := Ok(line.value, ps);
    }
  }

  lemma GetTokenSkip(t: string, i: nat)
    requires i <= |t|
    ensures GetToken(t, SkipSpace(t, i)) == GetToken(t, i)
  {
    SkipTwice(t, i);
  }

  lemma ArgsSkip(t: string, argv: seq<Span>, ws: seq<(Span, Mode)>, i: nat)
    requires i <= |t|
    ensures ParseArgs(t, argv, ws, SkipSpace(t, i)) == ParseArgs(t, argv, ws, i)
  {
    SkipTwice(t, i);
  }
}
