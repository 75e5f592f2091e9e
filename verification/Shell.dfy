/** The shell's command-line parser (user/sh.c): tokens in the line buffer, the grammar, and
    the NULs written behind the words. */
module Shell {
  import opened CStrings

  const MAXARGS := 10

  // ----- tokens

  predicate IsSpace(c: char) {
    c == ' ' || c == '\t' || c == '\r' || c == '\n' || c as int == 11
  }

  predicate IsSymbol(c: char) {
    c == '<' || c == '|' || c == '>' || c == '&' || c == ';' || c == '(' || c == ')'
  }

  predicate IsPlain(c: char) {
    !IsSpace(c) && !IsSymbol(c) && c != NUL
  }

  /** A symbol, with `+` for `>>`, or a word. */
  datatype Token<W> = Symbol(c: char) | Word(w: W)

  /** Where a word is in the line: from `q` up to `eq`. */
  datatype Span = Span(q: nat, eq: nat)

  function SkipSpace(buf: CString, s: nat): (r: nat)
    requires s <= |buf|
    ensures s <= r <= |buf| && (r < |buf| ==> !IsSpace(buf[r])) && forall i | s <= i < r :: IsSpace(buf[i])
    decreases |buf| - s
  {
    if s < |buf| && IsSpace(buf[s]) then SkipSpace(buf, s + 1) else s
  }

  function WordEnd(buf: CString, s: nat): (r: nat)
    requires s <= |buf|
    ensures s <= r <= |buf| && (r < |buf| ==> !IsPlain(buf[r])) && forall i | s <= i < r :: IsPlain(buf[i])
    ensures s < |buf| && IsPlain(buf[s]) ==> s < r
    decreases |buf| - s
  {
    if s < |buf| && IsPlain(buf[s]) then WordEnd(buf, s + 1) else s
  }

  /** The token that begins at `q`, and where it ends. */
  function TokenAt(buf: CString, q: nat): (r: (Token<Span>, nat))
    requires q < |buf| && !IsSpace(buf[q])
    ensures q < r.1 <= |buf|
  {
    assert buf[q] in buf;
    if buf[q] == '>' && q + 1 < |buf| && buf[q + 1] == '>' then (Symbol('+'), q + 2)
    else if IsSymbol(buf[q]) then (Symbol(buf[q]), q + 1)
    else (Word(Span(q, WordEnd(buf, q))), WordEnd(buf, q))
  }

  /** The tokens of the line from `s` on. */
  function Lex(buf: CString, s: nat): (ts: seq<Token<Span>>)
    requires s <= |buf|
    decreases |buf| - s
  {
    var q := SkipSpace(buf, s);
    if q == |buf| then [] else [TokenAt(buf, q).0] + Lex(buf, TokenAt(buf, q).1)
  }

  lemma LexSkip(buf: CString, s: nat)
    requires s <= |buf|
    ensures Lex(buf, SkipSpace(buf, s)) == Lex(buf, s)
  {
    assert SkipSpace(buf, SkipSpace(buf, s)) == SkipSpace(buf, s);
  }

  lemma LexAt(buf: CString, s: nat, q: nat)
    requires s <= |buf| && q == SkipSpace(buf, s)
    ensures Lex(buf, s) == if q == |buf| then [] else [TokenAt(buf, q).0] + Lex(buf, TokenAt(buf, q).1)
  {
  }

  /** The loop over whitespace. */
  method Skip(buf: CString, s: nat) returns (r: nat)
    requires s <= |buf|
    ensures r == SkipSpace(buf, s)
  {
    r := s;
    while r < |buf| && IsSpace(buf[r])
      invariant s <= r <= |buf| && SkipSpace(buf, r) == SkipSpace(buf, s)
    {
      r := r + 1;
    }
  }

  method GetToken(buf: CString, s: nat) returns (kind: char, q: nat, eq: nat, r: nat)
    requires s <= |buf|
    ensures s <= q <= eq <= r <= |buf|
    ensures kind == NUL <==> Lex(buf, s) == []
    ensures kind == NUL ==> Lex(buf, r) == []
    ensures kind != NUL ==>
      Lex(buf, s) == [if kind == 'a' then Word(Span(q, eq)) else Symbol(kind)] + Lex(buf, r)
    ensures kind != NUL && kind != 'a' ==> IsSymbol(kind) || kind == '+'
    ensures SkipSpace(buf, r) == r
  {
    hide Lex, SkipSpace;
    r := Skip(buf, s);
    LexAt(buf, s, r);
    LexSkip(buf, s);
    q, kind := r, CharAt(buf, r);
    if kind == NUL {
    } else if kind == '>' {
      r := r + 1;
      if CharAt(buf, r) == '>' {
        kind := '+';
        r := r + 1;
      }
    } else if IsSymbol(kind) {
      r := r + 1;
    } else {
      kind := 'a';
      while r < |buf| && !IsSpace(buf[r]) && !IsSymbol(buf[r])
        invariant q <= r <= |buf| && WordEnd(buf, r) == WordEnd(buf, q)
      {
        assert buf[r] in buf;
        r := r + 1;
      }
    }
    eq := r;
    LexSkip(buf, eq);
    r := Skip(buf, r);
  }

  /** The first character of a token. */
  predicate Starts(t: Token<Span>, toks: string) {
    t.Symbol? && (if t.c == '+' then '>' else t.c) in toks
  }

  method Peek(buf: CString, s: nat, toks: string) returns (found: bool, r: nat)
    requires s <= |buf| && forall c <- toks :: IsSymbol(c)
    ensures s <= r <= |buf| && Lex(buf, r) == Lex(buf, s)
    ensures found <==> Lex(buf, s) != [] && Starts(Lex(buf, s)[0], toks)
    ensures SkipSpace(buf, r) == r
  {
    r := Skip(buf, s);
    LexSkip(buf, s);
    found := CharAt(buf, r) != NUL && CharAt(buf, r) in toks;
  }

  // ----- commands and their grammar

  /** O_RDONLY on descriptor 0, or O_WRONLY|O_CREATE on descriptor 1. */
  datatype Mode = Input | Output

  datatype Cmd<W> =
    | Exec(argv: seq<W>)
    | Redir(cmd: Cmd<W>, file: W, mode: Mode)
    | Pipe(left: Cmd<W>, right: Cmd<W>)
    | List(left: Cmd<W>, right: Cmd<W>)
    | Back(cmd: Cmd<W>)

  datatype Error = MissingFile | MissingParen | BadSyntax | TooManyArgs

  datatype Parsed<W> = Ok(cmd: Cmd<W>, rest: seq<Token<W>>) | Err(error: Error)

  datatype Target<W> = Target(file: W, mode: Mode)
  datatype Targets<W> = Found(list: seq<Target<W>>, rest: seq<Token<W>>) | NoFile

  predicate Next<W>(ts: seq<Token<W>>, cs: string) {
    ts != [] && ts[0].Symbol? && ts[0].c in cs
  }

  /** The first redirection met is the innermost. */
  function Wrap<W>(cmd: Cmd<W>, targets: seq<Target<W>>): (r: Cmd<W>) {
    if targets == [] then cmd
    else Redir(Wrap(cmd, targets[..|targets| - 1]), targets[|targets| - 1].file, targets[|targets| - 1].mode)
  }

  function Redirs<W>(ts: seq<Token<W>>): (r: Targets<W>)
    ensures r.Found? ==> |r.rest| <= |ts|
  {
    if !Next(ts, "<>+") then Found([], ts)
    else if |ts| < 2 || !ts[1].Word? then NoFile
    else
      var more := Redirs(ts[2..]);
      if more.NoFile? then NoFile
      else Found([Target(ts[1].w, if ts[0].c == '<' then Input else Output)] + more.list, more.rest)
  }

  /** Each target stands for a symbol and the file behind it: input for `<`, output for `>` and
      for `>>`. */
  ghost predicate Paired<W>(ts: seq<Token<W>>, targets: seq<Target<W>>) {
    && 2 * |targets| <= |ts|
    && forall i | 0 <= i < |targets| ::
         && ts[2 * i].Symbol? && ts[2 * i + 1] == Word(targets[i].file)
         && match ts[2 * i].c
            case '<' => targets[i].mode == Input
            case '>' => targets[i].mode == Output
            case '+' => targets[i].mode == Output
            case _ => false
  }

  lemma {:induction false} RedirsPaired<W>(ts: seq<Token<W>>)
    ensures var r := Redirs(ts);
            r.Found? ==> Paired(ts, r.list) && r.rest == ts[2 * |r.list|..] && !Next(r.rest, "<>+")
  {
    var r := Redirs(ts);
    if r.Found? && Next(ts, "<>+") {
      RedirsPaired(ts[2..]);
      var more := Redirs(ts[2..]);
      assert r.rest == ts[2..][2 * |more.list|..] == ts[2 * |r.list|..];
      forall i | 0 <= i < |r.list|
        ensures ts[2 * i].Symbol? && ts[2 * i + 1] == Word(r.list[i].file)
        ensures ts[2 * i].c in "<>+" && (r.list[i].mode == Input <==> ts[2 * i].c == '<')
      {
        if i > 0 {
          assert r.list[i] == more.list[i - 1];
          assert ts[2 * i] == ts[2..][2 * (i - 1)] && ts[2 * i + 1] == ts[2..][2 * (i - 1) + 1];
        }
      }
    }
  }

  function Line<W>(ts: seq<Token<W>>): (r: Parsed<W>)
    ensures r.Ok? ==> |r.rest| <= |ts|
    decreases |ts|, 4
  {
    var p := Pipeline(ts);
    if p.Err? then p
    else
      var b := Backs(p.cmd, p.rest);
      if !Next(b.rest, ";") then b
      else
        var r := Line(b.rest[1..]);
        if r.Err? then r else Ok(List(b.cmd, r.cmd), r.rest)
  }

  function Backs<W>(cmd: Cmd<W>, ts: seq<Token<W>>): (r: Parsed<W>)
    ensures r.Ok? && |r.rest| <= |ts|
    decreases |ts|
  {
    if Next(ts, "&") then Backs(Back(cmd), ts[1..]) else Ok(cmd, ts)
  }

  function Pipeline<W>(ts: seq<Token<W>>): (r: Parsed<W>)
    ensures r.Ok? ==> |r.rest| <= |ts|
    decreases |ts|, 3
  {
    var e := Executable(ts);
    if e.Err? || !Next(e.rest, "|") then e
    else
      var r := Pipeline(e.rest[1..]);
      if r.Err? then r else Ok(Pipe(e.cmd, r.cmd), r.rest)
  }

  function Executable<W>(ts: seq<Token<W>>): (r: Parsed<W>)
    ensures r.Ok? ==> |r.rest| <= |ts|
    decreases |ts|, 2
  {
    if Next(ts, "(") then Block(ts)
    else
      var d := Redirs(ts);
      if d.NoFile? then Err(MissingFile) else Args([], d.list, d.rest)
  }

  function Args<W>(argv: seq<W>, targets: seq<Target<W>>, ts: seq<Token<W>>): (r: Parsed<W>)
    ensures r.Ok? ==> |r.rest| <= |ts|
    decreases |ts|, 0
  {
    if ts == [] || Next(ts, "|)&;") then Ok(Wrap(Exec(argv), targets), ts)
    else if !ts[0].Word? then Err(BadSyntax)
    else if |argv| + 1 >= MAXARGS then Err(TooManyArgs)
    else
      var d := Redirs(ts[1..]);
      if d.NoFile? then Err(MissingFile) else Args(argv + [ts[0].w], targets + d.list, d.rest)
  }

  function Block<W>(ts: seq<Token<W>>): (r: Parsed<W>)
    requires Next(ts, "(")
    ensures r.Ok? ==> |r.rest| <= |ts|
    decreases |ts|, 1
  {
    var p := Line(ts[1..]);
    if p.Err? then p
    else if !Next(p.rest, ")") then Err(MissingParen)
    else
      var d := Redirs(p.rest[1..]);
      if d.NoFile? then Err(MissingFile) else Ok(Wrap(p.cmd, d.list), d.rest)
  }

  // ----- the parser

  datatype Outcome = Done(cmd: Cmd<Span>) | Panic(error: Error)

  /** What the parser did at the cursor, in terms of the tokens there. */
  ghost predicate Follows(buf: CString, p: Parsed<Span>, r: Outcome, s: nat)
    requires s <= |buf|
  {
    match p
    case Ok(cmd, rest) => r == Done(cmd) && Lex(buf, s) == rest
    case Err(e) => r == Panic(e)
  }

  method ParseLine(buf: CString, s: nat) returns (r: Outcome, t: nat)
    requires s <= |buf|
    ensures t <= |buf| && Follows(buf, Line(Lex(buf, s)), r, t)
    decreases |Lex(buf, s)|, 4
  {
    hide Lex, Pipeline;
    r, t := ParsePipe(buf, s);
    if r.Panic? {
      return;
    }
    ghost var first, rest := r.cmd, Lex(buf, t);
    var cmd := r.cmd;
    while true
      invariant t <= |buf| && |Lex(buf, t)| <= |rest| && Backs(cmd, Lex(buf, t)) == Backs(first, rest)
      decreases |Lex(buf, t)|
    {
      var amp: bool;
      amp, t := Peek(buf, t, "&");
      if !amp {
        break;
      }
      var _, _, _, u := GetToken(buf, t);
      t := u;
      cmd := Back(cmd);
    }
    var semi: bool;
    semi, t := Peek(buf, t, ";");
    if semi {
      var _, _, _, u := GetToken(buf, t);
      r, t := ParseLine(buf, u);
      if r.Panic? {
        return;
      }
      cmd := List(cmd, r.cmd);
    }
    r := Done(cmd);
  }

  method ParsePipe(buf: CString, s: nat) returns (r: Outcome, t: nat)
    requires s <= |buf|
    ensures t <= |buf| && Follows(buf, Pipeline(Lex(buf, s)), r, t)
    decreases |Lex(buf, s)|, 3
  {
    hide Lex, Executable;
    r, t := ParseExec(buf, s);
    if r.Panic? {
      return;
    }
    var cmd := r.cmd;
    var bar: bool;
    bar, t := Peek(buf, t, "|");
    if bar {
      var _, _, _, u := GetToken(buf, t);
      r, t := ParsePipe(buf, u);
      if r.Panic? {
        return;
      }
      cmd := Pipe(cmd, r.cmd);
    }
    r := Done(cmd);
  }

  /** parseredirs: the redirections found at the cursor; the caller wraps its command in them. */
  method ParseRedirs(buf: CString, s: nat) returns (ok: bool, targets: seq<Target<Span>>, t: nat)
    requires s <= |buf|
    ensures t <= |buf|
    ensures Redirs(Lex(buf, s)) == if ok then Found(targets, Lex(buf, t)) else NoFile
    ensures ok ==> Paired(Lex(buf, s), targets) && Lex(buf, t) == Lex(buf, s)[2 * |targets|..]
  {
    hide Lex;
    RedirsPaired(Lex(buf, s));
    targets, t := [], s;
    while true
      invariant t <= |buf|
      invariant var more := Redirs(Lex(buf, t));
                Redirs(Lex(buf, s)) == if more.NoFile? then NoFile else Found(targets + more.list, more.rest)
      decreases |Lex(buf, t)|
    {
      var arrow: bool;
      arrow, t := Peek(buf, t, "<>");
      if !arrow {
        break;
      }
      ghost var ts := Lex(buf, t);
      var tok, _, _, u := GetToken(buf, t);
      var kind, q, eq, v := GetToken(buf, u);
      if kind != 'a' {
        return false, [], t;
      }
      assert ts[2..] == Lex(buf, v);
      var target := Target(Span(q, eq), if tok == '<' then Input else Output);
      assert forall more: seq<Target<Span>> :: targets + ([target] + more) == targets + [target] + more;
      targets := targets + [target];
      t := v;
    }
    ok := true;
  }

  method ParseBlock(buf: CString, s: nat) returns (r: Outcome, t: nat)
    requires s <= |buf| && Next(Lex(buf, s), "(")
    ensures t <= |buf| && Follows(buf, Block(Lex(buf, s)), r, t)
    decreases |Lex(buf, s)|, 1
  {
    hide Lex, Line, Redirs;
    var _, _, _, u := GetToken(buf, s);
    r, t := ParseLine(buf, u);
    if r.Panic? {
      return;
    }
    var cmd := r.cmd;
    var close: bool;
    close, t := Peek(buf, t, ")");
    if !close {
      return Panic(MissingParen), t;
    }
    var _, _, _, after := GetToken(buf, t);
    var ok, targets, v := ParseRedirs(buf, after);
    if !ok {
      return Panic(MissingFile), v;
    }
    r, t := Done(Wrap(cmd, targets)), v;
  }

  method ParseExec(buf: CString, s: nat) returns (r: Outcome, t: nat)
    requires s <= |buf|
    ensures t <= |buf| && Follows(buf, Executable(Lex(buf, s)), r, t)
    decreases |Lex(buf, s)|, 2
  {
    hide Lex, Redirs, Block;
    var open: bool;
    open, t := Peek(buf, s, "(");
    if open {
      r, t := ParseBlock(buf, t);
      return;
    }
    var argv: seq<Span> := [];
    var ok, targets, u := ParseRedirs(buf, t);
    if !ok {
      return Panic(MissingFile), u;
    }
    t := u;
    while true
      invariant t <= |buf| && Args(argv, targets, Lex(buf, t)) == Executable(Lex(buf, s))
      decreases |Lex(buf, t)|
    {
      var stop: bool;
      stop, t := Peek(buf, t, "|)&;");
      if stop {
        break;
      }
      var tok, q, eq, v := GetToken(buf, t);
      if tok == NUL {
        break;
      }
      if tok != 'a' {
        return Panic(BadSyntax), v;
      }
      if |argv| + 1 >= MAXARGS {
        return Panic(TooManyArgs), v;
      }
      argv := argv + [Span(q, eq)];
      var more: seq<Target<Span>>;
      ok, more, u := ParseRedirs(buf, v);
      if !ok {
        return Panic(MissingFile), u;
      }
      targets, t := targets + more, u;
    }
    r := Done(Wrap(Exec(argv), targets));
  }

  // ----- no word is lost

  ghost function Words<W>(ts: seq<Token<W>>): (b: multiset<W>) {
    if ts == [] then multiset{} else (if ts[0].Word? then multiset{ts[0].w} else multiset{}) + Words(ts[1..])
  }

  ghost function Files<W>(targets: seq<Target<W>>): (b: multiset<W>) {
    if targets == [] then multiset{} else multiset{targets[0].file} + Files(targets[1..])
  }

  /** The words in a command: arguments and file names. */
  ghost function Bag<W>(cmd: Cmd<W>): (b: multiset<W>) {
    match cmd
    case Exec(argv) => multiset(argv)
    case Redir(c, file, _) => Bag(c) + multiset{file}
    case Pipe(l, r) => Bag(l) + Bag(r)
    case List(l, r) => Bag(l) + Bag(r)
    case Back(c) => Bag(c)
  }

  /** argv always has room for the terminating null. */
  predicate ArgsFit<W>(cmd: Cmd<W>) {
    match cmd
    case Exec(argv) => |argv| < MAXARGS
    case Redir(c, _, _) => ArgsFit(c)
    case Pipe(l, r) => ArgsFit(l) && ArgsFit(r)
    case List(l, r) => ArgsFit(l) && ArgsFit(r)
    case Back(c) => ArgsFit(c)
  }

  /** Every word before the rest is in the command once. */
  ghost predicate Accounts<W>(ts: seq<Token<W>>, r: Parsed<W>) {
    r.Ok? ==> Bag(r.cmd) + Words(r.rest) == Words(ts) && ArgsFit(r.cmd)
  }

  lemma {:induction false} FilesAppend<W>(a: seq<Target<W>>, b: seq<Target<W>>)
    ensures Files(a + b) == Files(a) + Files(b)
  {
    if a == [] {
      assert a + b == b;
    } else {
      assert (a + b)[1..] == a[1..] + b;
      FilesAppend(a[1..], b);
    }
  }

  lemma {:induction false} WrapBag<W>(cmd: Cmd<W>, targets: seq<Target<W>>)
    ensures Bag(Wrap(cmd, targets)) == Bag(cmd) + Files(targets) && (ArgsFit(Wrap(cmd, targets)) <==> ArgsFit(cmd))
  {
    hide Files;
    if targets == [] {
      NoFiles(targets);
    } else {
      WrapBag(cmd, targets[..|targets| - 1]);
      FilesLast(targets);
    }
  }

  lemma NoFiles<W>(targets: seq<Target<W>>)
    requires targets == []
    ensures Files(targets) == multiset{}
  {
  }

  lemma FilesLast<W>(targets: seq<Target<W>>)
    requires targets != []
    ensures Files(targets) == Files(targets[..|targets| - 1]) + multiset{targets[|targets| - 1].file}
  {
    var init, last := targets[..|targets| - 1], targets[|targets| - 1];
    assert targets == init + [last];
    FilesAppend(init, [last]);
  }

  lemma {:induction false} RedirsWords<W>(ts: seq<Token<W>>)
    ensures Redirs(ts).Found? ==> Files(Redirs(ts).list) + Words(Redirs(ts).rest) == Words(ts)
  {
    if Redirs(ts).Found? && Next(ts, "<>+") {
      RedirsWords(ts[2..]);
      FirstTwo(ts);
      assert Redirs(ts).list[1..] == Redirs(ts[2..]).list;
    }
  }

  lemma FirstTwo<W>(ts: seq<Token<W>>)
    requires |ts| >= 2 && ts[0].Symbol? && ts[1].Word?
    ensures Words(ts) == multiset{ts[1].w} + Words(ts[2..])
  {
    assert ts[1..][1..] == ts[2..];
  }

  lemma {:induction false} LineWords<W>(ts: seq<Token<W>>)
    ensures Accounts(ts, Line(ts))
    decreases |ts|, 4
  {
    hide Pipeline;
    PipelineWords(ts);
    var p := Pipeline(ts);
    if p.Ok? {
      BacksWords(p.cmd, p.rest);
      var b := Backs(p.cmd, p.rest);
      if Next(b.rest, ";") {
        LineWords(b.rest[1..]);
      }
    }
  }

  lemma {:induction false} BacksWords<W>(cmd: Cmd<W>, ts: seq<Token<W>>)
    ensures Bag(Backs(cmd, ts).cmd) + Words(Backs(cmd, ts).rest) == Bag(cmd) + Words(ts)
    ensures ArgsFit(Backs(cmd, ts).cmd) <==> ArgsFit(cmd)
    decreases |ts|
  {
    if Next(ts, "&") {
      BacksWords(Back(cmd), ts[1..]);
    }
  }

  lemma {:induction false} PipelineWords<W>(ts: seq<Token<W>>)
    ensures Accounts(ts, Pipeline(ts))
    decreases |ts|, 3
  {
    hide Executable;
    ExecutableWords(ts);
    var e := Executable(ts);
    if e.Ok? && Next(e.rest, "|") {
      PipelineWords(e.rest[1..]);
    }
  }

  lemma {:induction false} ExecutableWords<W>(ts: seq<Token<W>>)
    ensures Accounts(ts, Executable(ts))
    decreases |ts|, 2
  {
    hide Block, Args, Redirs;
    if Next(ts, "(") {
      BlockWords(ts);
    } else {
      RedirsWords(ts);
      var d := Redirs(ts);
      if d.Found? {
        ArgsWords([], d.list, d.rest);
      }
    }
  }

  lemma {:induction false} ArgsWords<W>(argv: seq<W>, targets: seq<Target<W>>, ts: seq<Token<W>>)
    requires |argv| < MAXARGS
    ensures var r := Args(argv, targets, ts);
            r.Ok? ==> Bag(r.cmd) + Words(r.rest) == multiset(argv) + Files(targets) + Words(ts) && ArgsFit(r.cmd)
    decreases |ts|, 0
  {
    hide Redirs;
    WrapBag(Exec(argv), targets);
    if ts != [] && !Next(ts, "|)&;") && ts[0].Word? && |argv| + 1 < MAXARGS {
      RedirsWords(ts[1..]);
      var d := Redirs(ts[1..]);
      if d.Found? {
        ArgsWords(argv + [ts[0].w], targets + d.list, d.rest);
        FilesAppend(targets, d.list);
      }
    }
  }

  lemma {:induction false} BlockWords<W>(ts: seq<Token<W>>)
    requires Next(ts, "(")
    ensures Accounts(ts, Block(ts))
    decreases |ts|, 1
  {
    hide Line, Redirs;
    LineWords(ts[1..]);
    var p := Line(ts[1..]);
    if p.Ok? && Next(p.rest, ")") {
      RedirsWords(p.rest[1..]);
      var d := Redirs(p.rest[1..]);
      if d.Found? {
        WrapBag(p.cmd, d.list);
      }
    }
  }

  // ----- the NULs behind the words

  /** A word is a maximal run of plain characters. */
  ghost predicate IsWord(buf: CString, w: Span) {
    && w.q < w.eq <= |buf| && (forall i | w.q <= i < w.eq :: IsPlain(buf[i]))
    && (w.eq < |buf| ==> !IsPlain(buf[w.eq]))
  }

  lemma {:induction false} LexWords(buf: CString, s: nat)
    requires s <= |buf|
    ensures forall w <- Words(Lex(buf, s)) :: IsWord(buf, w)
    decreases |buf| - s
  {
    var q := SkipSpace(buf, s);
    if q < |buf| {
      assert buf[q] in buf;
      LexWords(buf, TokenAt(buf, q).1);
      assert Lex(buf, s)[1..] == Lex(buf, TokenAt(buf, q).1);
    }
  }

  ghost predicate Within(cmd: Cmd<Span>, n: nat) {
    match cmd
    case Exec(argv) => forall j | 0 <= j < |argv| :: argv[j].eq < n
    case Redir(c, file, _) => Within(c, n) && file.eq < n
    case Pipe(l, r) => Within(l, n) && Within(r, n)
    case List(l, r) => Within(l, n) && Within(r, n)
    case Back(c) => Within(c, n)
  }

  /** Some word of the command ends at `i`. */
  ghost predicate EndsAt(cmd: Cmd<Span>, i: nat) {
    match cmd
    case Exec(argv) => exists j | 0 <= j < |argv| :: argv[j].eq == i
    case Redir(c, file, _) => EndsAt(c, i) || file.eq == i
    case Pipe(l, r) => EndsAt(l, i) || EndsAt(r, i)
    case List(l, r) => EndsAt(l, i) || EndsAt(r, i)
    case Back(c) => EndsAt(c, i)
  }

  /** nulterminate changes exactly the characters behind the words of the command. */
  ghost predicate Terminated(line: string, line': string, cmd: Cmd<Span>) {
    && |line'| == |line|
    && forall i | 0 <= i < |line| :: line'[i] == if EndsAt(cmd, i) then NUL else line[i]
  }

  method NulTerminate(cmd: Cmd<Span>, line: array<char>)
    requires Within(cmd, line.Length)
    modifies line
    ensures Terminated(old(line[..]), line[..], cmd)
    decreases cmd
  {
    match cmd
    case Exec(argv) =>
      var i := 0;
      while i < |argv|
        invariant 0 <= i <= |argv|
        invariant Terminated(old(line[..]), line[..], Exec(argv[..i]))
      {
        line[argv[i].eq] := NUL;
        EndsMore(argv, i);
        i := i + 1;
      }
      assert argv[..i] == argv;
    case Redir(c, file, _) =>
      NulTerminate(c, line);
      line[file.eq] := NUL;
    case Pipe(l, r) =>
      NulTerminate(l, line);
      NulTerminate(r, line);
    case List(l, r) =>
      NulTerminate(l, line);
      NulTerminate(r, line);
    case Back(c) =>
      NulTerminate(c, line);
  }

  lemma EndsMore(argv: seq<Span>, i: nat)
    requires i < |argv|
    ensures forall k: nat :: EndsAt(Exec(argv[..i + 1]), k) <==> EndsAt(Exec(argv[..i]), k) || argv[i].eq == k
  {
    var more, less := argv[..i + 1], argv[..i];
    assert more[i] == argv[i];
    forall k: nat
      ensures EndsAt(Exec(more), k) <==> EndsAt(Exec(less), k) || argv[i].eq == k
    {
      if EndsAt(Exec(less), k) {
        var j :| 0 <= j < |less| && less[j].eq == k;
        assert more[j].eq == k;
      }
      if EndsAt(Exec(more), k) && argv[i].eq != k {
        var j :| 0 <= j < |more| && more[j].eq == k;
        assert less[j].eq == k;
      }
    }
  }

  lemma {:induction false} EndsOfWords(cmd: Cmd<Span>)
    ensures forall w <- Bag(cmd) :: EndsAt(cmd, w.eq)
    ensures forall i: nat | EndsAt(cmd, i) :: exists w <- Bag(cmd) :: w.eq == i
    decreases cmd
  {
    match cmd
    case Exec(argv) =>
      forall i: nat | EndsAt(cmd, i)
        ensures exists w <- Bag(cmd) :: w.eq == i
      {
        var j :| 0 <= j < |argv| && argv[j].eq == i;
        assert argv[j] in Bag(cmd);
      }
    case Redir(c, file, _) =>
      EndsOfWords(c);
      assert file in Bag(cmd);
    case Pipe(l, r) =>
      EndsOfWords(l);
      EndsOfWords(r);
    case List(l, r) =>
      EndsOfWords(l);
      EndsOfWords(r);
    case Back(c) =>
      EndsOfWords(c);
  }

  lemma {:induction false} WordsWithin(cmd: Cmd<Span>, n: nat)
    requires forall w <- Bag(cmd) :: w.eq < n
    ensures Within(cmd, n)
  {
    match cmd
    case Exec(argv) =>
      assert forall j | 0 <= j < |argv| :: argv[j] in Bag(cmd);
    case Redir(c, file, _) =>
      assert file in Bag(cmd);
      WordsWithin(c, n);
    case Pipe(l, r) =>
      WordsWithin(l, n);
      WordsWithin(r, n);
    case List(l, r) =>
      WordsWithin(l, n);
      WordsWithin(r, n);
    case Back(c) =>
      WordsWithin(c, n);
  }

  /** The C string at `q`. */
  ghost predicate ReadsAs(line: string, q: nat, w: string) {
    && q + |w| < |line| && line[q..q + |w|] == w && NUL !in w && line[q + |w|] == NUL
  }

  /** No place behind a word is inside another word. */
  lemma NoEndInside(buf: CString, cmd: Cmd<Span>, w: Span, i: nat)
    requires (forall v <- Bag(cmd) :: IsWord(buf, v)) && w in Bag(cmd) && w.q <= i < w.eq
    ensures !EndsAt(cmd, i) && i < |buf|
  {
    hide IsPlain;
    EndsOfWords(cmd);
    assert IsWord(buf, w);
    forall v <- Bag(cmd)
      ensures v.eq != i
    {
      assert IsWord(buf, v);
    }
  }

  /** After the NULs have been written, every word reads as it stood in the line. */
  lemma TokensSurvive(buf: CString, line: string, line': string, cmd: Cmd<Span>, w: Span)
    requires (forall v <- Bag(cmd) :: IsWord(buf, v)) && w in Bag(cmd)
    requires buf + [NUL] <= line && Terminated(line, line', cmd)
    ensures w.q < w.eq <= |buf| && ReadsAs(line', w.q, buf[w.q..w.eq])
  {
    hide IsPlain, EndsAt, ReadsAs;
    EndsOfWords(cmd);
    assert IsWord(buf, w);
    forall i | w.q <= i < w.eq
      ensures line'[i] == buf[i]
    {
      NoEndInside(buf, cmd, w, i);
      assert line[i] == buf[i];
    }
    SameText(buf, line', w);
  }

  lemma SameText(buf: CString, line: string, w: Span)
    requires w.q < w.eq <= |buf| && w.eq < |line| && line[w.eq] == NUL &&
             forall i | w.q <= i < w.eq :: line[i] == buf[i]
    ensures ReadsAs(line, w.q, buf[w.q..w.eq])
  {
    forall i | w.q <= i < w.eq
      ensures buf[i] != NUL
    {
      assert buf[i] in buf;
    }
  }

  lemma AcceptedWords(buf: CString, cmd: Cmd<Span>, ts: seq<Token<Span>>)
    requires ts == Lex(buf, 0) && Line(ts) == Ok(cmd, [])
    ensures ArgsFit(cmd) && Bag(cmd) == Words(ts) && Within(cmd, |buf| + 1)
    ensures forall w <- Bag(cmd) :: IsWord(buf, w)
  {
    hide IsPlain, Line, Lex, Within, Words, Bag, ArgsFit;
    AllWords(ts, cmd);
    LexWords(buf, 0);
    WordsWithin(cmd, |buf| + 1);
  }

  lemma AllWords<W>(ts: seq<Token<W>>, cmd: Cmd<W>)
    requires Line(ts) == Ok(cmd, [])
    ensures ArgsFit(cmd) && Bag(cmd) == Words(ts)
  {
    hide Bag, Line, ArgsFit;
    LineWords(ts);
    assert Words<W>([]) == multiset{};
  }

  lemma {:induction false} WithinMore(cmd: Cmd<Span>, n: nat, m: nat)
    requires Within(cmd, n) && n <= m
    ensures Within(cmd, m)
  {
    match cmd
    case Exec(argv) =>
    case Redir(c, _, _) => WithinMore(c, n, m);
    case Pipe(l, r) => WithinMore(l, n, m); WithinMore(r, n, m);
    case List(l, r) => WithinMore(l, n, m); WithinMore(r, n, m);
    case Back(c) => WithinMore(c, n, m);
  }

  /** parsecmd: the command in the line, whose words are all the words of the line and can be
      read there as C strings. */
  method ParseCmd(line: array<char>) returns (r: Outcome, ghost buf: CString)
    requires NUL in line[..]
    modifies line
    ensures buf + [NUL] <= old(line[..])
    ensures match r
      case Done(cmd) =>
        && Line(Lex(buf, 0)) == Ok(cmd, []) && ArgsFit(cmd) && Bag(cmd) == Words(Lex(buf, 0))
        && (forall w <- Bag(cmd) :: w.q < w.eq <= |buf| && ReadsAs(line[..], w.q, buf[w.q..w.eq]))
      case Panic(e) =>
        var p := Line(Lex(buf, 0));
        line[..] == old(line[..]) && if p.Err? then p.error == e else p.rest != [] && e == BadSyntax
  {
    hide Lex, Line, Within, Terminated, ArgsFit, Bag, Words, IsWord, ReadsAs;
    var n := Strlen(line);
    var text: CString := line[..n];
    buf := text;
    var s: nat;
    r, s := ParseLine(text, 0);
    if r.Panic? {
      return;
    }
    var _, t := Peek(text, s, "");
    if t != |text| {
      LexEnd(text, t);
      return Panic(BadSyntax), buf;
    }
    LexEnd(text, t);
    AcceptedWords(buf, r.cmd, Lex(buf, 0));
    WithinMore(r.cmd, n + 1, line.Length);
    ghost var before := line[..];
    NulTerminate(r.cmd, line);
    forall w <- Bag(r.cmd)
      ensures w.q < w.eq <= |buf| && ReadsAs(line[..], w.q, buf[w.q..w.eq])
    {
      TokensSurvive(buf, before, line[..], r.cmd, w);
    }
  }

  method Strlen(line: array<char>) returns (n: nat)
    requires NUL in line[..]
    ensures n < line.Length && line[n] == NUL && NUL !in line[..n]
  {
    n := 0;
    while line[n] != NUL
      invariant n < line.Length && NUL !in line[..n] && NUL in line[n..]
      decreases line.Length - n
    {
      assert line[..n + 1] == line[..n] + [line[n]];
      assert line[n..] == [line[n]] + line[n + 1..];
      n := n + 1;
    }
  }

  lemma LexEnd(buf: CString, s: nat)
    requires s <= |buf| && SkipSpace(buf, s) == s
    ensures Lex(buf, s) == [] <==> s == |buf|
  {
  }
}
