/** Command lines as text: what the shell's tokenizer reads, and a printer for commands that the
    parser undoes. */
module ShellPrint {
  import opened CStrings
  import opened Shell
  import opened ShellGrammar

  // ----- a tree for every command

  function Core<W>(c: Cmd<W>): (r: Cmd<W>)
    ensures !r.Redir? && (ArgsFit(c) ==> ArgsFit(r))
    ensures r == c || r < c
    ensures c.Redir? ==> r < c
  {
    if c.Redir? then Core(c.cmd) else c
  }

  function ArrowsOf<W>(c: Cmd<W>): (arrows: seq<Arrow<W>>) {
    if c.Redir? then ArrowsOf(c.cmd) + [Arrow(if c.mode == Input then '<' else '>', c.file)] else []
  }

  /** A command under all its `&`s. */
  function Fore<W>(c: Cmd<W>): (r: Cmd<W>)
    ensures !r.Back? && (ArgsFit(c) ==> ArgsFit(r)) && (r == c || r < c)
    ensures c.Back? ==> r < c
  {
    if c.Back? then Fore(c.cmd) else c
  }

  function Amps<W>(c: Cmd<W>): (n: nat) {
    if c.Back? then Amps(c.cmd) + 1 else 0
  }

  function ArgsOf<W>(argv: seq<W>): (args: seq<Arg<W>>)
    ensures |args| == |argv|
  {
    if argv == [] then [] else [Arg(argv[0], [])] + ArgsOf(argv[1..])
  }

  function SentenceOf<W>(c: Cmd<W>): (t: Sentence<W>)
    decreases c, 3
  {
    if c.List? then More(ChainOf(Fore(c.left)), Amps(c.left), SentenceOf(c.right)) else Last(ChainOf(Fore(c)), Amps(c))
  }

  function ChainOf<W>(c: Cmd<W>): (t: Chain<W>)
    decreases c, if c.List? || c.Back? then 11 else 1
  {
    if c.Pipe? then Then(UnitOf(c.left), ChainOf(c.right)) else One(UnitOf(c))
  }

  /** Parentheses around everything that is not a simple command. */
  function UnitOf<W>(c: Cmd<W>): (u: Unit<W>)
    decreases c, if c.Exec? || c.Redir? then 0 else 10
  {
    if Core(c).Exec? then Simple(ArrowsOf(c), ArgsOf(Core(c).argv)) else Group(SentenceOf(Core(c)), ArrowsOf(c))
  }

  lemma {:induction false} NestAppend<W>(c: Cmd<W>, a: seq<Arrow<W>>, b: seq<Arrow<W>>)
    ensures Nest(c, a + b) == Nest(Nest(c, a), b)
    decreases |a|
  {
    if a == [] {
      assert a + b == b;
    } else {
      assert (a + b)[1..] == a[1..] + b;
      NestAppend(Redir(c, a[0].file, ModeOf(a[0].sym)), a[1..], b);
    }
  }

  lemma {:induction false} NestCore<W>(c: Cmd<W>)
    ensures Nest(Core(c), ArrowsOf(c)) == c && ProperArrows(ArrowsOf(c))
  {
    if c.Redir? {
      NestCore(c.cmd);
      var a := Arrow(if c.mode == Input then '<' else '>', c.file);
      NestAppend(Core(c), ArrowsOf(c.cmd), [a]);
      assert [a][1..] == [];
    }
  }

  lemma {:induction false} BehindFore<W>(c: Cmd<W>)
    ensures Behind(Fore(c), Amps(c)) == c
  {
    if c.Back? {
      BehindFore(c.cmd);
    }
  }

  lemma {:induction false} ArgsOfWords<W>(argv: seq<W>)
    ensures ArgWords(ArgsOf(argv)) == argv && ArgArrows(ArgsOf(argv)) == [] && ProperArgs(ArgsOf(argv))
  {
    if argv != [] {
      ArgsOfWords(argv[1..]);
    }
  }

  /** Every command with room for its arguments is what some tree means. */
  lemma {:induction false} TreeOf<W>(c: Cmd<W>)
    requires ArgsFit(c)
    ensures Proper(SentenceOf(c)) && SentenceCmd(SentenceOf(c)) == c
    decreases c, 3
  {
    hide ChainOf, ProperChain, ChainCmd;
    if c.List? {
      BehindFore(c.left);
      TreeOfChain(Fore(c.left));
      TreeOf(c.right);
    } else {
      BehindFore(c);
      TreeOfChain(Fore(c));
    }
  }

  lemma {:induction false} TreeOfChain<W>(c: Cmd<W>)
    requires ArgsFit(c)
    ensures ProperChain(ChainOf(c)) && ChainCmd(ChainOf(c)) == c
    decreases c, if c.List? || c.Back? then 11 else 1
  {
    hide UnitOf, ProperUnit, UnitCmd;
    if c.Pipe? {
      TreeOfUnit(c.left);
      TreeOfChain(c.right);
    } else {
      TreeOfUnit(c);
    }
  }

  lemma {:induction false} TreeOfUnit<W>(c: Cmd<W>)
    requires ArgsFit(c)
    ensures ProperUnit(UnitOf(c)) && UnitCmd(UnitOf(c)) == c
    decreases c, if c.Exec? || c.Redir? then 0 else 10
  {
    hide SentenceOf, SentenceCmd, Proper, Nest;
    NestCore(c);
    var core := Core(c);
    if core.Exec? {
      ArgsOfWords(core.argv);
      assert ArrowsOf(c) + [] == ArrowsOf(c);
    } else {
      TreeOf(core);
    }
  }

  // ----- the parser does not look into words

  function MapToken<V, W>(f: V -> W, t: Token<V>): (r: Token<W>) {
    match t
    case Symbol(c) => Symbol(c)
    case Word(w) => Word(f(w))
  }

  function MapTokens<V, W>(f: V -> W, ts: seq<Token<V>>): (r: seq<Token<W>>)
    ensures |r| == |ts|
  {
    if ts == [] then [] else [MapToken(f, ts[0])] + MapTokens(f, ts[1..])
  }

  function MapWords<V, W>(f: V -> W, argv: seq<V>): (r: seq<W>)
    ensures |r| == |argv|
  {
    if argv == [] then [] else MapWords(f, argv[..|argv| - 1]) + [f(argv[|argv| - 1])]
  }

  function MapTargets<V, W>(f: V -> W, ts: seq<Target<V>>): (r: seq<Target<W>>)
    ensures |r| == |ts|
  {
    if ts == [] then [] else MapTargets(f, ts[..|ts| - 1]) + [Target(f(ts[|ts| - 1].file), ts[|ts| - 1].mode)]
  }

  function MapCmd<V, W>(f: V -> W, c: Cmd<V>): (r: Cmd<W>) {
    match c
    case Exec(argv) => Exec(MapWords(f, argv))
    case Redir(c1, file, mode) => Redir(MapCmd(f, c1), f(file), mode)
    case Pipe(l, r) => Pipe(MapCmd(f, l), MapCmd(f, r))
    case List(l, r) => List(MapCmd(f, l), MapCmd(f, r))
    case Back(c1) => Back(MapCmd(f, c1))
  }

  function MapParsed<V, W>(f: V -> W, p: Parsed<V>): (r: Parsed<W>) {
    match p
    case Ok(cmd, rest) => Ok(MapCmd(f, cmd), MapTokens(f, rest))
    case Err(e) => Err(e)
  }

  function MapFound<V, W>(f: V -> W, p: Targets<V>): (r: Targets<W>) {
    match p
    case Found(list, rest) => Found(MapTargets(f, list), MapTokens(f, rest))
    case NoFile => NoFile
  }

  lemma MapNext<V, W>(f: V -> W, ts: seq<Token<V>>, cs: string)
    ensures Next(MapTokens(f, ts), cs) <==> Next(ts, cs)
    ensures ts != [] ==> MapTokens(f, ts)[1..] == MapTokens(f, ts[1..]) && MapTokens(f, ts)[0] == MapToken(f, ts[0])
  {
  }

  lemma {:induction false} MapAppend<V, W>(f: V -> W, a: seq<Target<V>>, b: seq<Target<V>>)
    ensures MapTargets(f, a + b) == MapTargets(f, a) + MapTargets(f, b)
  {
    if b == [] {
      assert a + b == a;
    } else {
      assert (a + b)[..|a + b| - 1] == a + b[..|b| - 1];
      MapAppend(f, a, b[..|b| - 1]);
    }
  }

  lemma {:induction false} WrapNatural<V, W>(f: V -> W, c: Cmd<V>, ts: seq<Target<V>>)
    ensures MapCmd(f, Wrap(c, ts)) == Wrap(MapCmd(f, c), MapTargets(f, ts))
  {
    if ts != [] {
      WrapNatural(f, c, ts[..|ts| - 1]);
      var m := MapTargets(f, ts);
      assert m[..|m| - 1] == MapTargets(f, ts[..|ts| - 1]);
    }
  }

  lemma {:induction false} RedirsNatural<V, W>(f: V -> W, ts: seq<Token<V>>)
    ensures Redirs(MapTokens(f, ts)) == MapFound(f, Redirs(ts))
  {
    hide MapTokens, MapTargets;
    MapNext(f, ts, "<>+");
    NoTargets(f);
    if Next(ts, "<>+") && |ts| >= 2 && ts[1].Word? {
      var m := MapTokens(f, ts);
      MapNext(f, ts[1..], "");
      assert m[2..] == m[1..][1..] && ts[2..] == ts[1..][1..];
      assert m[1] == m[1..][0];
      RedirsNatural(f, ts[2..]);
      var more := Redirs(ts[2..]);
      if more.Found? {
        var first := Target(ts[1].w, if ts[0].c == '<' then Input else Output);
        MapAppend(f, [first], more.list);
        OneTarget(f, first);
      }
    } else if Next(ts, "<>+") && |ts| >= 2 {
      var m := MapTokens(f, ts);
      MapNext(f, ts[1..], "");
      assert m[1] == m[1..][0];
    }
  }

  lemma NoTargets<V, W>(f: V -> W)
    ensures MapTargets(f, []) == []
  {
  }

  lemma OneTarget<V, W>(f: V -> W, t: Target<V>)
    ensures MapTargets(f, [t]) == [Target(f(t.file), t.mode)]
  {
    assert [t][..0] == [];
  }

  lemma {:induction false} LineNatural<V, W>(f: V -> W, ts: seq<Token<V>>)
    ensures Line(MapTokens(f, ts)) == MapParsed(f, Line(ts))
    decreases |ts|, 4
  {
    hide MapTokens, Pipeline, Backs, Next;
    PipelineNatural(f, ts);
    var p := Pipeline(ts);
    if p.Ok? {
      BacksNatural(f, p.cmd, p.rest);
      var b := Backs(p.cmd, p.rest);
      MapNext(f, b.rest, ";");
      if Next(b.rest, ";") {
        NextSome(b.rest, ";");
        LineNatural(f, b.rest[1..]);
      }
    }
  }

  lemma NextSome<W>(ts: seq<Token<W>>, cs: string)
    requires Next(ts, cs)
    ensures ts != []
  {
  }

  lemma {:induction false} BacksNatural<V, W>(f: V -> W, c: Cmd<V>, ts: seq<Token<V>>)
    ensures Backs(MapCmd(f, c), MapTokens(f, ts)) == MapParsed(f, Backs(c, ts))
    decreases |ts|
  {
    hide MapTokens;
    MapNext(f, ts, "&");
    if Next(ts, "&") {
      BacksNatural(f, Back(c), ts[1..]);
    }
  }

  lemma {:induction false} PipelineNatural<V, W>(f: V -> W, ts: seq<Token<V>>)
    ensures Pipeline(MapTokens(f, ts)) == MapParsed(f, Pipeline(ts))
    decreases |ts|, 3
  {
    hide MapTokens, Executable, Next;
    ExecutableNatural(f, ts);
    var e := Executable(ts);
    if e.Ok? {
      MapNext(f, e.rest, "|");
      if Next(e.rest, "|") {
        NextSome(e.rest, "|");
        PipelineNatural(f, e.rest[1..]);
      }
    }
  }

  lemma {:induction false} ExecutableNatural<V, W>(f: V -> W, ts: seq<Token<V>>)
    ensures Executable(MapTokens(f, ts)) == MapParsed(f, Executable(ts))
    decreases |ts|, 2
  {
    hide MapTokens, Redirs, Args, Block, Next;
    MapNext(f, ts, "(");
    if Next(ts, "(") {
      BlockNatural(f, ts);
    } else {
      RedirsNatural(f, ts);
      var d := Redirs(ts);
      if d.Found? {
        ArgsNatural(f, [], d.list, d.rest);
      }
    }
  }

  lemma {:induction false} ArgsNatural<V, W>(f: V -> W, argv: seq<V>, targets: seq<Target<V>>, ts: seq<Token<V>>)
    ensures Args(MapWords(f, argv), MapTargets(f, targets), MapTokens(f, ts)) == MapParsed(f, Args(argv, targets, ts))
    decreases |ts|, 0
  {
    hide MapTokens, MapTargets, Redirs, Wrap;
    MapNext(f, ts, "|)&;");
    WrapNatural(f, Exec(argv), targets);
    if ts != [] && !Next(ts, "|)&;") && ts[0].Word? && |argv| + 1 < MAXARGS {
      RedirsNatural(f, ts[1..]);
      var d := Redirs(ts[1..]);
      if d.Found? {
        ArgsNatural(f, argv + [ts[0].w], targets + d.list, d.rest);
        MapAppend(f, targets, d.list);
        assert (argv + [ts[0].w])[..|argv + [ts[0].w]| - 1] == argv;
      }
    }
  }

  lemma {:induction false} BlockNatural<V, W>(f: V -> W, ts: seq<Token<V>>)
    requires Next(ts, "(")
    ensures Next(MapTokens(f, ts), "(") && Block(MapTokens(f, ts)) == MapParsed(f, Block(ts))
    decreases |ts|, 1
  {
    hide MapTokens, Line, Redirs, Wrap;
    MapNext(f, ts, "(");
    LineNatural(f, ts[1..]);
    var p := Line(ts[1..]);
    if p.Ok? {
      MapNext(f, p.rest, ")");
      if Next(p.rest, ")") {
        RedirsNatural(f, p.rest[1..]);
        var d := Redirs(p.rest[1..]);
        if d.Found? {
          WrapNatural(f, p.cmd, d.list);
        }
      }
    }
  }

  // ----- text

  predicate PlainWord(w: string) {
    w != "" && forall i | 0 <= i < |w| :: IsPlain(w[i])
  }

  predicate Spelled(t: Token<string>) {
    match t
    case Symbol(c) => IsSymbol(c) || c == '+'
    case Word(w) => PlainWord(w)
  }

  ghost predicate AllSpelled(ts: seq<Token<string>>) {
    forall i | 0 <= i < |ts| :: Spelled(ts[i])
  }

  function TokenText(t: Token<string>): (s: string) {
    match t
    case Symbol(c) => if c == '+' then ">>" else [c]
    case Word(w) => w
  }

  predicate Blank(s: string) {
    forall i | 0 <= i < |s| :: IsSpace(s[i])
  }

  /** Tokens, each with what follows it before the next. */
  function Spaced(ts: seq<Token<string>>, gaps: seq<string>): (s: string)
    requires |gaps| == |ts|
  {
    if ts == [] then "" else TokenText(ts[0]) + gaps[0] + Spaced(ts[1..], gaps[1..])
  }

  /** Written next to each other, the tokens would be read as one. */
  predicate Joins(t: Token<string>, u: Token<string>) {
    (t.Word? && u.Word?) || (t == Symbol('>') && (u == Symbol('>') || u == Symbol('+')))
  }

  ghost predicate Separated(ts: seq<Token<string>>, gaps: seq<string>): (r: bool)
    ensures r ==> |gaps| == |ts|
  {
    && |gaps| == |ts| && (forall i | 0 <= i < |ts| :: Blank(gaps[i]))
    && forall i | 0 <= i < |ts| - 1 && Joins(ts[i], ts[i + 1]) :: gaps[i] != ""
  }

  /** The line is made of the tokens, with whitespace around them that keeps them apart. */
  ghost predicate Written(buf: string, ts: seq<Token<string>>, lead: string, gaps: seq<string>) {
    Blank(lead) && Separated(ts, gaps) && buf == lead + Spaced(ts, gaps)
  }

  /** The text of a span. */
  function Reading(buf: CString): (f: Span -> string) {
    (w: Span) => if w.q <= w.eq <= |buf| then buf[w.q..w.eq] else ""
  }

  lemma {:induction false} WordEndIs(buf: CString, s: nat, e: nat)
    requires s <= e <= |buf| && (e < |buf| ==> !IsPlain(buf[e])) && forall i | s <= i < e :: IsPlain(buf[i])
    ensures WordEnd(buf, s) == e
    decreases e - s
  {
    if s < e {
      WordEndIs(buf, s + 1, e);
    }
  }

  lemma {:induction false} SkipBlank(buf: CString, s: nat, e: nat)
    requires s <= e <= |buf| && forall i | s <= i < e :: IsSpace(buf[i])
    ensures SkipSpace(buf, s) == SkipSpace(buf, e) && Lex(buf, s) == Lex(buf, e)
    decreases e - s
  {
    if s < e {
      SkipBlank(buf, s + 1, e);
    }
  }

  /** Whether the token ends before the character. */
  predicate Ends(t: Token<string>, c: char) {
    (t.Word? ==> !IsPlain(c)) && (t == Symbol('>') ==> c != '>')
  }

  /** The token that is written at `s` is the one that is read there. */
  lemma ReadToken(buf: CString, s: nat, t: Token<string>)
    requires Spelled(t) && s + |TokenText(t)| <= |buf| && buf[s..s + |TokenText(t)|] == TokenText(t)
    requires s + |TokenText(t)| < |buf| ==> Ends(t, buf[s + |TokenText(t)|])
    ensures s < |buf| && !IsSpace(buf[s])
    ensures var (u, e) := TokenAt(buf, s);
            e == s + |TokenText(t)| && MapToken(Reading(buf), u) == t
  {
    var text := TokenText(t);
    assert |text| > 0;
    assert forall i | 0 <= i < |text| :: buf[s + i] == buf[s..s + |text|][i] == text[i];
    assert buf[s] == text[0];
    if t.Word? {
      assert IsPlain(text[0]);
      WordEndIs(buf, s, s + |text|);
    } else if t.c == '+' {
      assert buf[s + 1] == text[1];
    }
  }

  lemma LexStep(buf: CString, s: nat, t: Token<string>, gap: string, more: string) returns (e: nat)
    requires s <= |buf| && Spelled(t) && Blank(gap) && buf[s..] == TokenText(t) + gap + more
    requires gap == "" && more != "" ==> Ends(t, more[0])
    ensures e <= |buf| && buf[e..] == more
    ensures MapTokens(Reading(buf), Lex(buf, s)) == [t] + MapTokens(Reading(buf), Lex(buf, e))
  {
    hide Reading, TokenAt, MapTokens, MapToken, Lex, TokenText, Spelled, Blank, Ends, IsSpace;
    var end := s + |TokenText(t)|;
    e := end + |gap|;
    SpacedAt(buf, s, TokenText(t), gap, more);
    EndsThere(buf, end, t, gap, more);
    ReadToken(buf, s, t);
    SkipBlank(buf, end, e);
    LexAt(buf, s, s);
    FirstMapped(buf, TokenAt(buf, s).0, Lex(buf, end));
  }

  lemma EndsThere(buf: string, end: nat, t: Token<string>, gap: string, more: string)
    requires end + |gap| <= |buf| && buf[end + |gap|..] == more && Blank(gap)
    requires forall i | end <= i < end + |gap| :: buf[i] == gap[i - end]
    requires gap == "" && more != "" ==> Ends(t, more[0])
    ensures end < |buf| ==> Ends(t, buf[end])
    ensures forall i | end <= i < end + |gap| :: IsSpace(buf[i])
  {
    assert end + |gap| < |buf| ==> buf[end + |gap|] == more[0];
  }

  lemma FirstMapped(buf: CString, u: Token<Span>, rest: seq<Token<Span>>)
    ensures MapTokens(Reading(buf), [u] + rest) == [MapToken(Reading(buf), u)] + MapTokens(Reading(buf), rest)
  {
    assert ([u] + rest)[1..] == rest;
  }

  lemma SpacedAt(buf: string, s: nat, text: string, gap: string, more: string)
    requires s <= |buf| && buf[s..] == text + gap + more
    ensures var end := s + |text|;
            var e := end + |gap|;
            && e <= |buf| && buf[s..end] == text && buf[e..] == more
            && (forall i | end <= i < e :: buf[i] == gap[i - end])
  {
    var end := s + |text|;
    var e := end + |gap|;
    assert |buf| == e + |more|;
    assert buf[s..end] == buf[s..][..|text|];
    assert buf[e..] == buf[s..][|text| + |gap|..];
    assert forall i | end <= i < e :: buf[i] == buf[s..][i - s];
  }

  /** What the next token begins with. */
  lemma TextFirst(t: Token<string>, u: Token<string>, more: string)
    requires Spelled(t) && Spelled(u) && !Joins(t, u) && TokenText(u) <= more
    ensures more != "" && Ends(t, more[0])
  {
    assert TokenText(u) != "" && more[0] == TokenText(u)[0];
    if u.Word? {
      assert IsPlain(u.w[0]);
    }
  }

  /** The tokenizer reads the tokens that were written. */
  lemma {:induction false} LexSpaced(buf: CString, s: nat, ts: seq<Token<string>>, gaps: seq<string>)
    requires AllSpelled(ts) && Separated(ts, gaps) && s <= |buf| && buf[s..] == Spaced(ts, gaps)
    ensures MapTokens(Reading(buf), Lex(buf, s)) == ts
    decreases |ts|
  {
    hide Reading, TokenText, Spelled, Joins, Ends;
    if ts == [] {
      assert s == |buf|;
    } else {
      var more := Spaced(ts[1..], gaps[1..]);
      if |ts| > 1 && gaps[0] == "" {
        TextFirst(ts[0], ts[1], more);
      }
      var e := LexStep(buf, s, ts[0], gaps[0], more);
      SeparatedRest(ts, gaps);
      LexSpaced(buf, e, ts[1..], gaps[1..]);
    }
  }

  lemma SeparatedRest(ts: seq<Token<string>>, gaps: seq<string>)
    requires ts != [] && Separated(ts, gaps)
    ensures Separated(ts[1..], gaps[1..])
  {
    hide Joins, Blank;
    forall i | 0 <= i < |ts[1..]| - 1 && Joins(ts[1..][i], ts[1..][i + 1])
      ensures gaps[1..][i] != ""
    {
      assert Joins(ts[i + 1], ts[i + 2]);
    }
  }

  /** And every line is written from the tokens that are read from it. */
  lemma {:induction false} LexText(buf: CString, s: nat) returns (gaps: seq<string>)
    requires s <= |buf| && SkipSpace(buf, s) == s
    ensures var ts := MapTokens(Reading(buf), Lex(buf, s));
            AllSpelled(ts) && Separated(ts, gaps) && buf[s..] == Spaced(ts, gaps)
    decreases |buf| - s
  {
    hide Reading, MapTokens, MapToken, Joins, Lex, SkipSpace, TokenAt, Blank, Spelled, Separated, Spaced;
    LexAt(buf, s, s);
    if s == |buf| {
      gaps := [];
      NoTokens(buf);
    } else {
      var (u, e) := TokenAt(buf, s);
      var next := SkipSpace(buf, e);
      LexSkip(buf, e);
      Skipped(buf, e);
      var rest := LexText(buf, next);
      gaps := [buf[e..next]] + rest;
      FirstMapped(buf, u, Lex(buf, e));
      WrittenToken(buf, s);
      var ts, t := MapTokens(Reading(buf), Lex(buf, next)), MapToken(Reading(buf), u);
      TextCons(buf, s, e, next, t, ts, rest);
      NotJoined(buf, s);
      SeparatedMore(t, ts, buf[e..next], rest);
    }
  }

  lemma Skipped(buf: CString, e: nat)
    requires e <= |buf|
    ensures Blank(buf[e..SkipSpace(buf, e)]) && SkipSpace(buf, SkipSpace(buf, e)) == SkipSpace(buf, e)
  {
  }

  lemma NoTokens(buf: CString)
    ensures MapTokens(Reading(buf), []) == [] && Separated([], []) && Spaced([], []) == ""
  {
  }

  lemma WrittenToken(buf: CString, s: nat)
    requires s < |buf| && !IsSpace(buf[s])
    ensures var (u, e) := TokenAt(buf, s);
            var t := MapToken(Reading(buf), u);
            Spelled(t) && buf[s..e] == TokenText(t)
  {
    assert buf[s] in buf;
  }

  lemma NotJoined(buf: CString, s: nat)
    requires s < |buf| && !IsSpace(buf[s])
    ensures var (u, e) := TokenAt(buf, s);
            var ts := MapTokens(Reading(buf), Lex(buf, SkipSpace(buf, e)));
            ts != [] && SkipSpace(buf, e) == e ==> !Joins(MapToken(Reading(buf), u), ts[0])
  {
    var e := TokenAt(buf, s).1;
    assert buf[s] in buf;
    if SkipSpace(buf, e) == e && e < |buf| {
      LexAt(buf, e, e);
      FirstMapped(buf, TokenAt(buf, e).0, Lex(buf, TokenAt(buf, e).1));
      NextApart(buf, s);
    }
  }

  lemma NextApart(buf: CString, s: nat)
    requires s < |buf| && !IsSpace(buf[s]) && TokenAt(buf, s).1 < |buf| && !IsSpace(buf[TokenAt(buf, s).1])
    ensures var (u, e) := TokenAt(buf, s);
            !Joins(MapToken(Reading(buf), u), MapToken(Reading(buf), TokenAt(buf, e).0))
  {
    assert buf[s] in buf && buf[TokenAt(buf, s).1] in buf;
  }

  lemma TextCons(buf: string, s: nat, e: nat, next: nat, t: Token<string>, ts: seq<Token<string>>, gaps: seq<string>)
    requires s <= e <= next <= |buf| && buf[s..e] == TokenText(t) && |gaps| == |ts| && buf[next..] == Spaced(ts, gaps)
    ensures buf[s..] == Spaced([t] + ts, [buf[e..next]] + gaps)
  {
    hide Spaced, TokenText;
    SpacedCons(t, ts, buf[e..next], gaps);
    ThreeParts(buf, s, e, next);
  }

  lemma SpacedCons(t: Token<string>, ts: seq<Token<string>>, gap: string, gaps: seq<string>)
    requires |gaps| == |ts|
    ensures Spaced([t] + ts, [gap] + gaps) == TokenText(t) + gap + Spaced(ts, gaps)
  {
    assert ([t] + ts)[1..] == ts && ([gap] + gaps)[1..] == gaps;
  }

  lemma ThreeParts(buf: string, s: nat, e: nat, next: nat)
    requires s <= e <= next <= |buf|
    ensures buf[s..] == buf[s..e] + buf[e..next] + buf[next..]
  {
  }

  lemma SeparatedMore(t: Token<string>, ts: seq<Token<string>>, gap: string, gaps: seq<string>)
    requires Blank(gap) && Separated(ts, gaps) && (ts != [] && gap == "" ==> !Joins(t, ts[0]))
    ensures Separated([t] + ts, [gap] + gaps)
  {
    hide Joins, Blank;
    var ts', gaps' := [t] + ts, [gap] + gaps;
    forall i | 0 <= i < |ts'| - 1 && Joins(ts'[i], ts'[i + 1])
      ensures gaps'[i] != ""
    {
      if i > 0 {
        assert Joins(ts[i - 1], ts[i]);
      }
    }
  }

  lemma ReadAll(buf: CString) returns (lead: string, gaps: seq<string>)
    ensures var ts := MapTokens(Reading(buf), Lex(buf, 0));
            AllSpelled(ts) && Written(buf, ts, lead, gaps)
  {
    hide Lex, MapTokens, Reading, Separated, AllSpelled, Spaced;
    var s := SkipSpace(buf, 0);
    SkipBlank(buf, 0, s);
    gaps := LexText(buf, s);
    lead := buf[..s];
  }

  lemma WriteAll(buf: CString, ts: seq<Token<string>>, lead: string, gaps: seq<string>)
    requires AllSpelled(ts) && Written(buf, ts, lead, gaps)
    ensures MapTokens(Reading(buf), Lex(buf, 0)) == ts
  {
    hide Lex, MapTokens, Reading, AllSpelled;
    assert buf[|lead|..] == Spaced(ts, gaps);
    LexSpaced(buf, |lead|, ts, gaps);
    assert forall i | 0 <= i < |lead| :: buf[i] == lead[i];
    SkipBlank(buf, 0, |lead|);
  }

  /** The tokens read from a line are exactly those it is written from. */
  lemma Lexical(buf: CString, ts: seq<Token<string>>)
    ensures MapTokens(Reading(buf), Lex(buf, 0)) == ts <==>
      AllSpelled(ts) && exists lead, gaps :: Written(buf, ts, lead, gaps)
  {
    hide Lex, MapTokens, Reading, Written, AllSpelled;
    var lead, gaps := ReadAll(buf);
    if AllSpelled(ts) && exists lead, gaps :: Written(buf, ts, lead, gaps) {
      lead, gaps :| Written(buf, ts, lead, gaps);
      WriteAll(buf, ts, lead, gaps);
    }
  }

  // ----- parse after print

  /** The command, with the words themselves, that the shell reads from a line. */
  ghost predicate Reads(buf: CString, c: Cmd<string>) {
    exists cmd :: Line(Lex(buf, 0)) == Ok(cmd, []) && MapCmd(Reading(buf), cmd) == c
  }

  /** The text of a tree, however it is spaced, is read as what the tree means. */
  lemma ParseText(t: Sentence<string>, lead: string, gaps: seq<string>, buf: CString)
    requires Proper(t) && AllSpelled(SentenceTokens(t)) && Written(buf, SentenceTokens(t), lead, gaps)
    ensures Reads(buf, SentenceCmd(t))
  {
    hide Line, Lex, Reading, MapCmd, MapTokens, SentenceTokens, SentenceCmd, Written, AllSpelled, Proper;
    var ts := SentenceTokens(t);
    WriteAll(buf, ts, lead, gaps);
    SentenceBack(t, []);
    assert ts + [] == ts;
    LineNatural(Reading(buf), Lex(buf, 0));
    var p := Line(Lex(buf, 0));
    assert p.Ok? && MapTokens(Reading(buf), p.rest) == [];
    assert p.rest == [];
  }

  /** The symbols of a tree are those of the language. */
  ghost predicate Symbols<W>(ts: seq<Token<W>>) {
    forall i | 0 <= i < |ts| && ts[i].Symbol? :: IsSymbol(ts[i].c) || ts[i].c == '+'
  }

  lemma {:induction false} ArrowSymbols<W>(arrows: seq<Arrow<W>>)
    requires ProperArrows(arrows)
    ensures Symbols(ArrowTokens(arrows))
  {
    if arrows != [] {
      ArrowSymbols(arrows[1..]);
    }
  }

  lemma {:induction false} ArgSymbols<W>(args: seq<Arg<W>>)
    requires ProperArgs(args)
    ensures Symbols(ArgTokens(args))
  {
    if args != [] {
      ArrowSymbols(args[0].after);
      ArgSymbols(args[1..]);
    }
  }

  lemma {:induction false} AmpSymbols<W>(n: nat)
    ensures Symbols(AmpTokens<W>(n))
  {
    if n > 0 {
      AmpSymbols<W>(n - 1);
    }
  }

  lemma {:induction false} UnitSymbols<W>(u: Unit<W>)
    requires ProperUnit(u)
    ensures Symbols(UnitTokens(u))
  {
    hide ArrowTokens, ArgTokens, SentenceTokens;
    match u
    case Simple(before, args) =>
      ArrowSymbols(before);
      ArgSymbols(args);
    case Group(inner, after) =>
      SentenceSymbols(inner);
      ArrowSymbols(after);
  }

  lemma {:induction false} ChainSymbols<W>(c: Chain<W>)
    requires ProperChain(c)
    ensures Symbols(ChainTokens(c))
  {
    hide UnitTokens, ProperUnit;
    UnitSymbols(c.unit);
    if c.Then? {
      ChainSymbols(c.rest);
    }
  }

  lemma {:induction false} SentenceSymbols<W>(t: Sentence<W>)
    requires Proper(t)
    ensures Symbols(SentenceTokens(t))
  {
    hide ChainTokens, ProperChain, AmpTokens;
    ChainSymbols(t.chain);
    AmpSymbols<W>(t.amps);
    if t.More? {
      SentenceSymbols(t.rest);
    }
  }

  lemma {:induction false} WordIn<W>(ts: seq<Token<W>>, i: nat)
    requires i < |ts| && ts[i].Word?
    ensures ts[i].w in Words(ts)
  {
    if i > 0 {
      WordIn(ts[1..], i - 1);
    }
  }

  /** Printing a command, however it is spaced, and parsing the text gives the command back. */
  lemma ParsePrint(c: Cmd<string>, lead: string, gaps: seq<string>, buf: CString)
    requires ArgsFit(c) && (forall w <- Bag(c) :: PlainWord(w))
    requires Written(buf, SentenceTokens(SentenceOf(c)), lead, gaps)
    ensures Reads(buf, c)
  {
    hide Line, SentenceTokens, SentenceCmd, SentenceOf, Written, Proper, Words, Bag, PlainWord, ArgsFit, Reads;
    var t := SentenceOf(c);
    var ts := SentenceTokens(t);
    TreeOf(c);
    SentenceBack(t, []);
    assert ts + [] == ts;
    AllWords(ts, c);
    SentenceSymbols(t);
    forall i | 0 <= i < |ts|
      ensures Spelled(ts[i])
    {
      if ts[i].Word? {
        WordIn(ts, i);
      }
    }
    ParseText(t, lead, gaps, buf);
  }
}
