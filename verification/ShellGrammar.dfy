/** The grammar of command lines as syntax trees, and the proof that the shell's parser accepts
    exactly the lines that have a tree, with the meaning of the tree (user/sh.c). */
module ShellGrammar {
  import opened Shell

  /** `<`, `>`, or `+` for `>>`, and a file. */
  datatype Arrow<W> = Arrow(sym: char, file: W)

  datatype Arg<W> = Arg(word: W, after: seq<Arrow<W>>)

  datatype Unit<W> =
    | Simple(before: seq<Arrow<W>>, args: seq<Arg<W>>)
    | Group(inner: Sentence<W>, after: seq<Arrow<W>>)

  datatype Chain<W> = One(unit: Unit<W>) | Then(unit: Unit<W>, rest: Chain<W>)

  datatype Sentence<W> = Last(chain: Chain<W>, amps: nat) | More(chain: Chain<W>, amps: nat, rest: Sentence<W>)

  // ----- how a tree is written

  function ArrowTokens<W>(arrows: seq<Arrow<W>>): (ts: seq<Token<W>>) {
    if arrows == [] then [] else [Symbol(arrows[0].sym), Word(arrows[0].file)] + ArrowTokens(arrows[1..])
  }

  function ArgTokens<W>(args: seq<Arg<W>>): (ts: seq<Token<W>>) {
    if args == [] then [] else [Word(args[0].word)] + ArrowTokens(args[0].after) + ArgTokens(args[1..])
  }

  function AmpTokens<W>(n: nat): (ts: seq<Token<W>>) {
    if n == 0 then [] else [Symbol('&')] + AmpTokens(n - 1)
  }

  function UnitTokens<W>(u: Unit<W>): (ts: seq<Token<W>>) {
    match u
    case Simple(before, args) => ArrowTokens(before) + ArgTokens(args)
    case Group(inner, after) => [Symbol('(')] + SentenceTokens(inner) + [Symbol(')')] + ArrowTokens(after)
  }

  function ChainTokens<W>(c: Chain<W>): (ts: seq<Token<W>>) {
    match c
    case One(u) => UnitTokens(u)
    case Then(u, rest) => UnitTokens(u) + [Symbol('|')] + ChainTokens(rest)
  }

  function SentenceTokens<W>(t: Sentence<W>): (ts: seq<Token<W>>) {
    match t
    case Last(c, amps) => ChainTokens(c) + AmpTokens(amps)
    case More(c, amps, rest) => ChainTokens(c) + AmpTokens(amps) + [Symbol(';')] + SentenceTokens(rest)
  }

  // ----- what a tree means

  /** `>>` opens the file as `>` does. */
  function ModeOf(sym: char): (m: Mode) {
    if sym == '<' then Input else Output
  }

  /** Redirections apply from left to right, the first innermost. */
  function Nest<W>(c: Cmd<W>, arrows: seq<Arrow<W>>): (r: Cmd<W>)
    decreases |arrows|
  {
    if arrows == [] then c else Nest(Redir(c, arrows[0].file, ModeOf(arrows[0].sym)), arrows[1..])
  }

  function ArgWords<W>(args: seq<Arg<W>>): (argv: seq<W>)
    ensures |argv| == |args|
  {
    if args == [] then [] else [args[0].word] + ArgWords(args[1..])
  }

  function ArgArrows<W>(args: seq<Arg<W>>): (arrows: seq<Arrow<W>>) {
    if args == [] then [] else args[0].after + ArgArrows(args[1..])
  }

  function Behind<W>(c: Cmd<W>, n: nat): (r: Cmd<W>) {
    if n == 0 then c else Back(Behind(c, n - 1))
  }

  function UnitCmd<W>(u: Unit<W>): (c: Cmd<W>) {
    match u
    case Simple(before, args) => Nest(Exec(ArgWords(args)), before + ArgArrows(args))
    case Group(inner, after) => Nest(SentenceCmd(inner), after)
  }

  function ChainCmd<W>(c: Chain<W>): (r: Cmd<W>) {
    match c
    case One(u) => UnitCmd(u)
    case Then(u, rest) => Pipe(UnitCmd(u), ChainCmd(rest))
  }

  function SentenceCmd<W>(t: Sentence<W>): (c: Cmd<W>) {
    match t
    case Last(c, amps) => Behind(ChainCmd(c), amps)
    case More(c, amps, rest) => List(Behind(ChainCmd(c), amps), SentenceCmd(rest))
  }

  predicate ProperArrows<W>(arrows: seq<Arrow<W>>) {
    forall i | 0 <= i < |arrows| :: arrows[i].sym in "<>+"
  }

  predicate ProperArgs<W>(args: seq<Arg<W>>) {
    forall i | 0 <= i < |args| :: ProperArrows(args[i].after)
  }

  predicate ProperUnit<W>(u: Unit<W>) {
    match u
    case Simple(before, args) => ProperArrows(before) && ProperArgs(args) && |args| < MAXARGS
    case Group(inner, after) => Proper(inner) && ProperArrows(after)
  }

  predicate ProperChain<W>(c: Chain<W>) {
    match c
    case One(u) => ProperUnit(u)
    case Then(u, rest) => ProperUnit(u) && ProperChain(rest)
  }

  predicate Proper<W>(t: Sentence<W>) {
    match t
    case Last(c, _) => ProperChain(c)
    case More(c, _, rest) => ProperChain(c) && Proper(rest)
  }

  // ----- redirections

  function TargetsOf<W>(arrows: seq<Arrow<W>>): (ts: seq<Target<W>>) {
    if arrows == [] then [] else [Target(arrows[0].file, ModeOf(arrows[0].sym))] + TargetsOf(arrows[1..])
  }

  lemma {:induction false} TargetsAppend<W>(a: seq<Arrow<W>>, b: seq<Arrow<W>>)
    ensures TargetsOf(a + b) == TargetsOf(a) + TargetsOf(b)
  {
    if a == [] {
      assert a + b == b;
    } else {
      assert (a + b)[1..] == a[1..] + b;
      TargetsAppend(a[1..], b);
    }
  }

  lemma {:induction false} WrapFirst<W>(c: Cmd<W>, t: Target<W>, ts: seq<Target<W>>)
    ensures Wrap(c, [t] + ts) == Wrap(Redir(c, t.file, t.mode), ts)
  {
    var all := [t] + ts;
    if ts == [] {
      assert all[..0] == [];
    } else {
      assert all[..|all| - 1] == [t] + ts[..|ts| - 1];
      WrapFirst(c, t, ts[..|ts| - 1]);
    }
  }

  lemma {:induction false} NestWrap<W>(c: Cmd<W>, arrows: seq<Arrow<W>>)
    ensures Nest(c, arrows) == Wrap(c, TargetsOf(arrows))
    decreases |arrows|
  {
    if arrows != [] {
      var t := Target(arrows[0].file, ModeOf(arrows[0].sym));
      NestWrap(Redir(c, t.file, t.mode), arrows[1..]);
      WrapFirst(c, t, TargetsOf(arrows[1..]));
    }
  }

  lemma AfterTwo<T>(x: T, y: T, a: seq<T>, b: seq<T>)
    ensures var s := [x, y] + a + b;
            s[0] == x && s[1] == y && s[2..] == a + b
  {
  }

  lemma {:induction false} RedirsBack<W>(arrows: seq<Arrow<W>>, rest: seq<Token<W>>)
    requires ProperArrows(arrows) && !Next(rest, "<>+")
    ensures Redirs(ArrowTokens(arrows) + rest) == Found(TargetsOf(arrows), rest)
  {
    if arrows == [] {
      assert ArrowTokens(arrows) + rest == rest;
    } else {
      AfterTwo(Symbol(arrows[0].sym), Word(arrows[0].file), ArrowTokens(arrows[1..]), rest);
      RedirsBack(arrows[1..], rest);
    }
  }

  lemma {:induction false} RedirsTree<W>(ts: seq<Token<W>>) returns (arrows: seq<Arrow<W>>)
    requires Redirs(ts).Found?
    ensures ProperArrows(arrows) && TargetsOf(arrows) == Redirs(ts).list && ArrowTokens(arrows) + Redirs(ts).rest == ts
    ensures !Next(Redirs(ts).rest, "<>+")
  {
    hide ArrowTokens, TargetsOf, Redirs;
    RedirsStep(ts);
    if !Next(ts, "<>+") {
      arrows := [];
      NoTargets<W>();
      assert ArrowTokens<W>([]) + ts == ts;
    } else {
      var more := RedirsTree(ts[2..]);
      arrows := [Arrow(ts[0].c, ts[1].w)] + more;
      FirstArrow(Arrow(ts[0].c, ts[1].w), more);
      Rejoin(ts, ArrowTokens(more), Redirs(ts).rest);
    }
  }

  lemma RedirsStep<W>(ts: seq<Token<W>>)
    ensures !Next(ts, "<>+") ==> Redirs(ts) == Found([], ts)
    ensures Next(ts, "<>+") && Redirs(ts).Found? ==>
      && |ts| >= 2 && ts[1].Word? && Redirs(ts[2..]).Found?
      && Redirs(ts) == Found([Target(ts[1].w, ModeOf(ts[0].c))] + Redirs(ts[2..]).list, Redirs(ts[2..]).rest)
  {
  }

  lemma Rejoin<T>(ts: seq<T>, a: seq<T>, b: seq<T>)
    requires |ts| >= 2 && a + b == ts[2..]
    ensures [ts[0], ts[1]] + a + b == ts
  {
    assert ts == [ts[0], ts[1]] + ts[2..];
  }

  lemma FirstArrow<W>(a: Arrow<W>, more: seq<Arrow<W>>)
    ensures ArrowTokens([a] + more) == [Symbol(a.sym), Word(a.file)] + ArrowTokens(more)
    ensures TargetsOf([a] + more) == [Target(a.file, ModeOf(a.sym))] + TargetsOf(more)
  {
    assert ([a] + more)[1..] == more;
  }

  // ----- simple commands

  /** What may follow a simple command. */
  predicate Stops<W>(ts: seq<Token<W>>) {
    ts == [] || Next(ts, "|)&;")
  }

  /** Arguments and the redirections between them are collected in order. */
  lemma {:induction false} ArgsOver<W>(done: seq<W>, targets: seq<Target<W>>, args: seq<Arg<W>>, rest: seq<Token<W>>)
    requires ProperArgs(args) && |done| + |args| < MAXARGS && !Next(rest, "<>+")
    ensures Args(done, targets, ArgTokens(args) + rest)
            == Args(done + ArgWords(args), targets + TargetsOf(ArgArrows(args)), rest)
    decreases |args|
  {
    hide ArrowTokens, TargetsOf, Redirs, Wrap, ProperArrows, Args, ArgTokens, ArgWords, ArgArrows;
    var ts := ArgTokens(args) + rest;
    if args == [] {
      NoArgs<W>();
      assert ts == rest && done + ArgWords(args) == done;
      assert targets + TargetsOf(ArgArrows(args)) == targets;
    } else {
      var a, more := args[0], args[1..];
      FirstArg(args, rest);
      ArgFirst(more, rest);
      RedirsBack(a.after, ArgTokens(more) + rest);
      ArgsStep(done, targets, ts);
      ArgsOver(done + [a.word], targets + TargetsOf(a.after), more, rest);
      TargetsAppend(a.after, ArgArrows(more));
      assert done + [a.word] + ArgWords(more) == done + ArgWords(args);
      assert targets + TargetsOf(a.after) + TargetsOf(ArgArrows(more)) == targets + TargetsOf(ArgArrows(args));
    }
  }

  lemma NoArgs<W>()
    ensures ArgTokens<W>([]) == [] && ArgWords<W>([]) == [] && ArgArrows<W>([]) == [] && TargetsOf<W>([]) == []
  {
  }

  lemma FirstArg<W>(args: seq<Arg<W>>, rest: seq<Token<W>>)
    requires args != []
    ensures var ts := ArgTokens(args) + rest;
            ts != [] && ts[0] == Word(args[0].word) &&
              ts[1..] == ArrowTokens(args[0].after) + (ArgTokens(args[1..]) + rest)
    ensures ArgWords(args) == [args[0].word] + ArgWords(args[1..])
    ensures ArgArrows(args) == args[0].after + ArgArrows(args[1..])
  {
    hide ArrowTokens;
    AfterOne(Word(args[0].word), ArrowTokens(args[0].after), ArgTokens(args[1..]), rest);
  }

  lemma ArgsStep<W>(argv: seq<W>, targets: seq<Target<W>>, ts: seq<Token<W>>)
    requires ts != [] && ts[0].Word? && |argv| + 1 < MAXARGS && Redirs(ts[1..]).Found?
    ensures Args(argv, targets, ts)
            == Args(argv + [ts[0].w], targets + Redirs(ts[1..]).list, Redirs(ts[1..]).rest)
  {
  }

  lemma NoTargets<W>()
    ensures TargetsOf<W>([]) == [] && ArrowTokens<W>([]) == []
  {
  }

  lemma AfterOne<T>(x: T, a: seq<T>, b: seq<T>, c: seq<T>)
    ensures var s := [x] + a + b + c;
            s[0] == x && s[1..] == a + (b + c)
  {
  }

  lemma ArgFirst<W>(args: seq<Arg<W>>, rest: seq<Token<W>>)
    ensures !Next(rest, "<>+") ==> !Next(ArgTokens(args) + rest, "<>+")
    ensures args != [] || !Next(rest, "(") ==> !Next(ArgTokens(args) + rest, "(")
  {
    hide ArrowTokens;
    if args == [] {
      assert ArgTokens(args) + rest == rest;
    }
  }

  lemma {:induction false} ArgsTree<W>(argv: seq<W>, targets: seq<Target<W>>, ts: seq<Token<W>>)
    returns (args: seq<Arg<W>>)
    requires Args(argv, targets, ts).Ok? && |argv| < MAXARGS
    ensures var r := Args(argv, targets, ts);
            && ProperArgs(args) && |argv| + |args| < MAXARGS && ArgTokens(args) + r.rest == ts
            && r.cmd == Wrap(Exec(argv + ArgWords(args)), targets + TargetsOf(ArgArrows(args)))
    decreases |ts|
  {
    hide ArrowTokens, TargetsOf, Redirs, Wrap;
    NoTargets<W>();
    if Stops(ts) {
      args := [];
      assert argv + ArgWords(args) == argv && targets + TargetsOf(ArgArrows(args)) == targets;
    } else {
      var d := Redirs(ts[1..]);
      var arrows := RedirsTree(ts[1..]);
      var more := ArgsTree(argv + [ts[0].w], targets + d.list, d.rest);
      var a := Arg(ts[0].w, arrows);
      args := [a] + more;
      assert args[1..] == more;
      TargetsAppend(arrows, ArgArrows(more));
      assert argv + [a.word] + ArgWords(more) == argv + ArgWords(args);
      assert targets + TargetsOf(arrows) + TargetsOf(ArgArrows(more)) == targets + TargetsOf(ArgArrows(args));
      AfterOne(Word(a.word), ArrowTokens(arrows), ArgTokens(more), Args(argv, targets, ts).rest);
      assert ts == [ts[0]] + ts[1..];
    }
  }

  // ----- whole lines

  lemma {:induction false} UnitBack<W>(u: Unit<W>, rest: seq<Token<W>>)
    requires ProperUnit(u) && Stops(rest)
    ensures Executable(UnitTokens(u) + rest) == Ok(UnitCmd(u), rest)
  {
    hide ArrowTokens, ArgTokens, SentenceTokens, SentenceCmd, Args, Redirs, Line, Wrap, Nest, TargetsOf, ArgArrows,
         ArgWords;
    match u
    case Simple(before, args) =>
      SimpleOver(before, args, rest);
      StopArgs(ArgWords(args), TargetsOf(before + ArgArrows(args)), rest);
      NestWrap(Exec(ArgWords(args)), before + ArgArrows(args));
    case Group(inner, arrows) =>
      var after := [Symbol(')')] + ArrowTokens(arrows) + rest;
      Bracketed(SentenceTokens(inner), ArrowTokens(arrows), rest);
      SentenceBack(inner, after);
      RedirsBack(arrows, rest);
      NestWrap(SentenceCmd(inner), arrows);
  }

  lemma StopArgs<W>(argv: seq<W>, targets: seq<Target<W>>, rest: seq<Token<W>>)
    requires Stops(rest)
    ensures Args(argv, targets, rest) == Ok(Wrap(Exec(argv), targets), rest)
  {
  }

  lemma ArrowFirst<W>(arrows: seq<Arrow<W>>, rest: seq<Token<W>>)
    requires ProperArrows(arrows) && (arrows != [] || !Next(rest, "("))
    ensures !Next(ArrowTokens(arrows) + rest, "(")
  {
    if arrows == [] {
      assert ArrowTokens(arrows) + rest == rest;
    }
  }

  lemma Bracketed<W>(a: seq<Token<W>>, b: seq<Token<W>>, c: seq<Token<W>>)
    ensures var ts, after := [Symbol('(')] + a + [Symbol(')')] + b + c, [Symbol(')')] + b + c;
            && ts != [] && ts[0] == Symbol('(') && ts[1..] == a + after
            && after[0] == Symbol(')') && after[1..] == b + c
  {
  }

  lemma Between<T>(a: seq<T>, x: T, b: seq<T>, c: seq<T>)
    ensures var more := [x] + b + c;
            a + [x] + b + c == a + more && more[0] == x && more[1..] == b + c
  {
  }

  lemma {:induction false} ChainBack<W>(c: Chain<W>, rest: seq<Token<W>>)
    requires ProperChain(c) && (rest == [] || Next(rest, ")&;"))
    ensures Pipeline(ChainTokens(c) + rest) == Ok(ChainCmd(c), rest)
  {
    hide UnitTokens, UnitCmd, ProperUnit, Executable;
    match c
    case One(u) =>
      UnitBack(u, rest);
    case Then(u, next) =>
      var more := [Symbol('|')] + ChainTokens(next) + rest;
      Between(UnitTokens(u), Symbol('|'), ChainTokens(next), rest);
      UnitBack(u, more);
      ChainBack(next, rest);
  }

  lemma {:induction false} AmpsBack<W>(c: Cmd<W>, n: nat, m: nat, rest: seq<Token<W>>)
    requires !Next(rest, "&")
    ensures Backs(Behind(c, m), AmpTokens(n) + rest) == Ok(Behind(c, m + n), rest)
    decreases n
  {
    if n == 0 {
      assert AmpTokens(n) + rest == rest;
    } else {
      assert (AmpTokens(n) + rest)[1..] == AmpTokens(n - 1) + rest;
      AmpsBack(c, n - 1, m + 1, rest);
    }
  }

  lemma AmpsNext<W>(n: nat, rest: seq<Token<W>>)
    requires rest == [] || Next(rest, ");")
    ensures AmpTokens(n) + rest == [] || Next(AmpTokens(n) + rest, ")&;")
  {
    if n == 0 {
      assert AmpTokens(n) + rest == rest;
    }
  }

  /** What is written from a tree is parsed, with the meaning of the tree. */
  lemma {:induction false} SentenceBack<W>(t: Sentence<W>, rest: seq<Token<W>>)
    requires Proper(t) && (rest == [] || Next(rest, ")"))
    ensures Line(SentenceTokens(t) + rest) == Ok(SentenceCmd(t), rest)
  {
    hide ChainTokens, ChainCmd, AmpTokens, ProperChain, Pipeline, Backs;
    match t
    case Last(c, n) =>
      assert SentenceTokens(t) + rest == ChainTokens(c) + (AmpTokens(n) + rest);
      AmpsNext(n, rest);
      ChainBack(c, AmpTokens(n) + rest);
      AmpsBack(ChainCmd(c), n, 0, rest);
    case More(c, n, next) =>
      var more := [Symbol(';')] + SentenceTokens(next) + rest;
      Between(ChainTokens(c) + AmpTokens(n), Symbol(';'), SentenceTokens(next), rest);
      assert ChainTokens(c) + AmpTokens(n) + more == ChainTokens(c) + (AmpTokens(n) + more);
      AmpsNext(n, more);
      ChainBack(c, AmpTokens(n) + more);
      AmpsBack(ChainCmd(c), n, 0, more);
      SentenceBack(next, rest);
  }

  // ----- and conversely

  lemma {:induction false} UnitTree<W>(ts: seq<Token<W>>) returns (u: Unit<W>)
    requires Executable(ts).Ok?
    ensures ProperUnit(u) && UnitCmd(u) == Executable(ts).cmd && UnitTokens(u) + Executable(ts).rest == ts
    decreases |ts|, 2
  {
    hide ArrowTokens, ArgTokens, SentenceTokens, SentenceCmd, Args, Redirs, Line, Wrap, Nest, TargetsOf, ArgArrows,
         ArgWords;
    var rest := Executable(ts).rest;
    if Next(ts, "(") {
      var p := Line(ts[1..]);
      var inner := SentenceTree(ts[1..]);
      var arrows := RedirsTree(p.rest[1..]);
      u := Group(inner, arrows);
      NestWrap(SentenceCmd(inner), arrows);
      Bracketed(SentenceTokens(inner), ArrowTokens(arrows), rest);
      assert p.rest == [Symbol(')')] + p.rest[1..] && ts == [Symbol('(')] + ts[1..];
      assert [Symbol(')')] + (ArrowTokens(arrows) + rest) == [Symbol(')')] + ArrowTokens(arrows) + rest;
    } else {
      var d := Redirs(ts);
      var before := RedirsTree(ts);
      var args := ArgsTree([], d.list, d.rest);
      u := Simple(before, args);
      assert [] + ArgWords(args) == ArgWords(args);
      TargetsAppend(before, ArgArrows(args));
      NestWrap(Exec(ArgWords(args)), before + ArgArrows(args));
      assert ArrowTokens(before) + ArgTokens(args) + rest == ArrowTokens(before) + (ArgTokens(args) + rest);
    }
  }

  lemma {:induction false} ChainTree<W>(ts: seq<Token<W>>) returns (c: Chain<W>)
    requires Pipeline(ts).Ok?
    ensures ProperChain(c) && ChainCmd(c) == Pipeline(ts).cmd && ChainTokens(c) + Pipeline(ts).rest == ts
    decreases |ts|, 3
  {
    hide UnitTokens, UnitCmd, ProperUnit, Executable;
    var e := Executable(ts);
    var u := UnitTree(ts);
    if Next(e.rest, "|") {
      var rest := Pipeline(ts).rest;
      var next := ChainTree(e.rest[1..]);
      c := Then(u, next);
      Between(UnitTokens(u), Symbol('|'), ChainTokens(next), rest);
      assert e.rest == [Symbol('|')] + e.rest[1..];
      assert [Symbol('|')] + (ChainTokens(next) + rest) == [Symbol('|')] + ChainTokens(next) + rest;
    } else {
      c := One(u);
    }
  }

  lemma {:induction false} AmpsTree<W>(c: Cmd<W>, m: nat, ts: seq<Token<W>>) returns (n: nat)
    ensures Backs(Behind(c, m), ts).cmd == Behind(c, m + n) && AmpTokens(n) + Backs(Behind(c, m), ts).rest == ts
    decreases |ts|
  {
    if Next(ts, "&") {
      n := AmpsTree(c, m + 1, ts[1..]);
      var rest := Backs(Behind(c, m), ts).rest;
      n := n + 1;
      assert ts == [Symbol('&')] + ts[1..];
      assert [Symbol('&')] + (AmpTokens(n - 1) + rest) == [Symbol('&')] + AmpTokens(n - 1) + rest;
    } else {
      n := 0;
      assert AmpTokens(0) + ts == ts;
    }
  }

  /** Whatever is parsed has a tree. */
  lemma {:induction false} SentenceTree<W>(ts: seq<Token<W>>) returns (t: Sentence<W>)
    requires Line(ts).Ok?
    ensures Proper(t) && SentenceCmd(t) == Line(ts).cmd && SentenceTokens(t) + Line(ts).rest == ts
    decreases |ts|, 4
  {
    hide ChainTokens, ChainCmd, AmpTokens, ProperChain, Pipeline, Backs;
    var p, rest := Pipeline(ts), Line(ts).rest;
    var c := ChainTree(ts);
    var n := AmpsTree(p.cmd, 0, p.rest);
    var b := Backs(p.cmd, p.rest);
    assert ChainTokens(c) + (AmpTokens(n) + b.rest) == ChainTokens(c) + AmpTokens(n) + b.rest;
    if Next(b.rest, ";") {
      var next := SentenceTree(b.rest[1..]);
      t := More(c, n, next);
      Between(ChainTokens(c) + AmpTokens(n), Symbol(';'), SentenceTokens(next), rest);
      assert b.rest == [Symbol(';')] + b.rest[1..];
      assert [Symbol(';')] + (SentenceTokens(next) + rest) == [Symbol(';')] + SentenceTokens(next) + rest;
    } else {
      t := Last(c, n);
    }
  }

  /** Why a simple command is rejected: an argument too many, a parenthesis behind something, or a
      redirection without a file. */
  lemma SimpleRejected<W>(before: seq<Arrow<W>>, args: seq<Arg<W>>, rest: seq<Token<W>>)
    requires ProperArrows(before) && ProperArgs(args) && |args| < MAXARGS
    ensures var r := Executable(ArrowTokens(before) + ArgTokens(args) + rest);
            && (rest != [] && rest[0].Word? && |args| == MAXARGS - 1 ==> r == Err(TooManyArgs))
            && (Next(rest, "(") && (before != [] || args != []) ==> r == Err(BadSyntax))
            && (Next(rest, "<>+") && (|rest| == 1 || !rest[1].Word?) ==> r == Err(MissingFile))
  {
    hide ArrowTokens, ArgTokens, Redirs, Line, Wrap, TargetsOf, ArgArrows, ArgWords, Block, Args;
    if Next(rest, "<>+") {
      if |rest| == 1 || !rest[1].Word? {
        StrayArrow(before, args, rest);
      }
    } else if before != [] || args != [] || !Next(rest, "(") {
      SimpleOver(before, args, rest);
      ArgsStuck(ArgWords(args), TargetsOf(before + ArgArrows(args)), rest);
    }
  }

  lemma ArgsStuck<W>(argv: seq<W>, targets: seq<Target<W>>, rest: seq<Token<W>>)
    ensures rest != [] && rest[0].Word? && |argv| == MAXARGS - 1 ==> Args(argv, targets, rest) == Err(TooManyArgs)
    ensures Next(rest, "(") ==> Args(argv, targets, rest) == Err(BadSyntax)
  {
  }

  lemma {:induction false} RedirsStray<W>(arrows: seq<Arrow<W>>, rest: seq<Token<W>>)
    requires ProperArrows(arrows) && Next(rest, "<>+") && (|rest| == 1 || !rest[1].Word?)
    ensures Redirs(ArrowTokens(arrows) + rest) == NoFile
  {
    if arrows == [] {
      assert ArrowTokens(arrows) + rest == rest;
    } else {
      AfterTwo(Symbol(arrows[0].sym), Word(arrows[0].file), ArrowTokens(arrows[1..]), rest);
      RedirsStray(arrows[1..], rest);
    }
  }

  lemma {:induction false} ArgsStray<W>(done: seq<W>, targets: seq<Target<W>>, args: seq<Arg<W>>, rest: seq<Token<W>>)
    requires ProperArgs(args) && args != [] && |done| + |args| < MAXARGS
    requires Next(rest, "<>+") && (|rest| == 1 || !rest[1].Word?)
    ensures Args(done, targets, ArgTokens(args) + rest) == Err(MissingFile)
    decreases |args|
  {
    hide ArrowTokens, TargetsOf, Redirs, Wrap, ProperArrows, ArgWords, ArgArrows;
    var a, more := args[0], args[1..];
    FirstArg(args, rest);
    if more == [] {
      assert ArgTokens(more) + rest == rest;
      RedirsStray(a.after, rest);
    } else {
      var after := ArgTokens(more) + rest;
      assert after[0] == Word(more[0].word);
      RedirsBack(a.after, after);
      ArgsStray(done + [a.word], targets + TargetsOf(a.after), more, rest);
    }
  }

  lemma StrayArrow<W>(before: seq<Arrow<W>>, args: seq<Arg<W>>, rest: seq<Token<W>>)
    requires ProperArrows(before) && ProperArgs(args) && |args| < MAXARGS
    requires Next(rest, "<>+") && (|rest| == 1 || !rest[1].Word?)
    ensures Executable(ArrowTokens(before) + ArgTokens(args) + rest) == Err(MissingFile)
  {
    hide ArrowTokens, Args, Redirs, Line, Wrap, TargetsOf, ArgArrows, ArgWords;
    var after := ArgTokens(args) + rest;
    assert ArrowTokens(before) + ArgTokens(args) + rest == ArrowTokens(before) + after;
    ArgFirst(args, rest);
    ArrowFirst(before, after);
    if args == [] {
      assert after == rest;
      RedirsStray(before, rest);
    } else {
      assert after[0] == Word(args[0].word);
      RedirsBack(before, after);
      ArgsStray([], TargetsOf(before), args, rest);
    }
  }

  /** A block that is not closed. */
  lemma BlockRejected<W>(inner: Sentence<W>)
    requires Proper(inner)
    ensures Executable([Symbol('(')] + SentenceTokens(inner)) == Err(MissingParen)
  {
    hide SentenceTokens, Line;
    var ts := [Symbol('(')] + SentenceTokens(inner);
    SentenceBack(inner, []);
    assert ts[1..] == SentenceTokens(inner) + [];
  }

  lemma SimpleOver<W>(before: seq<Arrow<W>>, args: seq<Arg<W>>, rest: seq<Token<W>>)
    requires ProperArrows(before) && ProperArgs(args) && |args| < MAXARGS && !Next(rest, "<>+")
    requires before + ArgArrows(args) != [] || args != [] || !Next(rest, "(")
    ensures Executable(ArrowTokens(before) + ArgTokens(args) + rest)
            == Args(ArgWords(args), TargetsOf(before + ArgArrows(args)), rest)
  {
    hide ArrowTokens, ArgTokens, Args, Redirs, Line, Wrap, TargetsOf, ArgArrows, ArgWords;
    var after := ArgTokens(args) + rest;
    assert ArrowTokens(before) + ArgTokens(args) + rest == ArrowTokens(before) + after;
    ArgFirst(args, rest);
    RedirsBack(before, after);
    NoArgArrows(args);
    ArrowFirst(before, after);
    ArgsOver([], TargetsOf(before), args, rest);
    assert [] + ArgWords(args) == ArgWords(args);
    TargetsAppend(before, ArgArrows(args));
  }

  lemma NoArgArrows<W>(args: seq<Arg<W>>)
    ensures args == [] ==> ArgArrows(args) == []
  {
  }

  /** The lines that the parser accepts are those that are written from a tree, and the command is
      what the tree means. */
  lemma Grammar<W>(ts: seq<Token<W>>, cmd: Cmd<W>)
    ensures Line(ts) == Ok(cmd, []) <==>
      exists t: Sentence<W> :: Proper(t) && SentenceTokens(t) == ts && SentenceCmd(t) == cmd
  {
    hide Line, SentenceTokens, SentenceCmd, Proper;
    if Line(ts) == Ok(cmd, []) {
      var t := SentenceTree(ts);
      assert SentenceTokens(t) + [] == SentenceTokens(t);
    }
    if exists t: Sentence<W> :: Proper(t) && SentenceTokens(t) == ts && SentenceCmd(t) == cmd {
      var t: Sentence<W> :| Proper(t) && SentenceTokens(t) == ts && SentenceCmd(t) == cmd;
      SentenceBack(t, []);
      assert SentenceTokens(t) + [] == SentenceTokens(t);
    }
  }
}
