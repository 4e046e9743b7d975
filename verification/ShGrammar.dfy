/** The shell's command language as a grammar of its own: which lines there are and what each means. The
    parser accepts exactly these lines with exactly these meanings. */
module ShGrammar {
  import opened ShSyntax

  // ---- Simple commands ------------------------------------------------------------------------

  /** A word, or a redirection with its operator (`+` for `>>`) and file. */
  datatype Item = Arg(w: string) | Into(op: char, file: string)

  predicate ItemOk(x: Item) {
    x.Into? ==> x.op == '<' || x.op == '>' || x.op == '+'
  }

  predicate ItemsOk(items: seq<Item>) {
    forall i :: 0 <= i < |items| ==> ItemOk(items[i])
  }

  function ItemTokens(items: seq<Item>, k: Tokens): Tokens {
    if items == [] then k
    else
      var rest := ItemTokens(items[1..], k);
      match items[0]
      case Arg(w) => Cons(Word(w), rest)
      case Into(op, file) => Cons(Sym(op), Cons(Word(file), rest))
  }

  /** The words, in order. */
  function ArgsOf(items: seq<Item>): seq<string> {
    if items == [] then [] else (if items[0].Arg? then [items[0].w] else []) + ArgsOf(items[1..])
  }

  /** The redirections, in order. */
  function RedirsOf(items: seq<Item>): seq<Item> {
    if items == [] then [] else (if items[0].Into? then [items[0]] else []) + RedirsOf(items[1..])
  }

  predicate AllInto(rs: seq<Item>) {
    forall i :: 0 <= i < |rs| ==> rs[i].Into? && ItemOk(rs[i])
  }

  /** The command with the redirections around it, the first innermost: input is opened read-only as
      descriptor 0, output write-only and created as descriptor 1. */
  function Wrap(c: Cmd, rs: seq<Item>): Cmd
    requires AllInto(rs)
    decreases |rs|
  {
    if rs == [] then c
    else Wrap(Redir(c, rs[0].file, if rs[0].op == '<' then 0 else 0x201, if rs[0].op == '<' then 0 else 1), rs[1..])
  }

  lemma {:induction false} RedirsOfInto(items: seq<Item>)
    requires ItemsOk(items)
    ensures AllInto(RedirsOf(items))
    decreases |items|
  {
    if items != [] {
      RedirsOfInto(items[1..]);
    }
  }

  // ---- Concrete syntax ----------------------------------------------------------------------------

  datatype ExecT = Plain(items: seq<Item>) | Block(line: LineT, redirs: seq<Item>)
  datatype PipeT = Last(e: ExecT) | Feed(e: ExecT, p: PipeT)
  datatype LineT = Final(p: PipeT, amps: nat) | Then(p: PipeT, amps: nat, l: LineT)

  predicate ExecOk(e: ExecT) {
    match e
    case Plain(items) => ItemsOk(items) && |ArgsOf(items)| < MAXARGS
    case Block(line, redirs) => LineOk(line) && AllInto(redirs)
  }

  predicate PipeOk(p: PipeT) {
    match p
    case Last(e) => ExecOk(e)
    case Feed(e, q) => ExecOk(e) && PipeOk(q)
  }

  predicate LineOk(l: LineT) {
    match l
    case Final(p, _) => PipeOk(p)
    case Then(p, _, m) => PipeOk(p) && LineOk(m)
  }

  /** The tokens of each, followed by `k`. */
  function ExecTokens(e: ExecT, k: Tokens): Tokens {
    match e
    case Plain(items) => ItemTokens(items, k)
    case Block(line, redirs) => Cons(Sym('('), LineTokens(line, Cons(Sym(')'), ItemTokens(redirs, k))))
  }

  function PipeTokens(p: PipeT, k: Tokens): Tokens {
    match p
    case Last(e) => ExecTokens(e, k)
    case Feed(e, q) => ExecTokens(e, Cons(Sym('|'), PipeTokens(q, k)))
  }

  function AmpTokens(n: nat, k: Tokens): Tokens {
    if n == 0 then k else Cons(Sym('&'), AmpTokens(n - 1, k))
  }

  function LineTokens(l: LineT, k: Tokens): Tokens {
    match l
    case Final(p, n) => PipeTokens(p, AmpTokens(n, k))
    case Then(p, n, m) => PipeTokens(p, AmpTokens(n, Cons(Sym(';'), LineTokens(m, k))))
  }

  /** The command each stands for. */
  function ExecMeans(e: ExecT): Cmd
    requires ExecOk(e)
  {
    match e
    case Plain(items) =>
      RedirsOfInto(items);
      Wrap(Exec(ArgsOf(items)), RedirsOf(items))
    case Block(line, redirs) => Wrap(LineMeans(line), redirs)
  }

  function PipeMeans(p: PipeT): Cmd
    requires PipeOk(p)
  {
    match p
    case Last(e) => ExecMeans(e)
    case Feed(e, q) => Pipe(ExecMeans(e), PipeMeans(q))
  }

  function InBack(c: Cmd, n: nat): Cmd {
    if n == 0 then c else Back(InBack(c, n - 1))
  }

  function LineMeans(l: LineT): Cmd
    requires LineOk(l)
  {
    match l
    case Final(p, n) => InBack(PipeMeans(p), n)
    case Then(p, n, m) => List(InBack(PipeMeans(p), n), LineMeans(m))
  }

  // ---- Redirections and words, one at a time ---------------------------------------------------

  lemma {:induction false} WrapCat(c: Cmd, a: seq<Item>, b: seq<Item>)
    requires AllInto(a) && AllInto(b)
    ensures AllInto(a + b) && Wrap(c, a + b) == Wrap(Wrap(c, a), b)
    decreases |a|
  {
    if a == [] {
      assert a + b == b;
    } else {
      assert (a + b)[1..] == a[1..] + b;
      var d := Redir(c, a[0].file, if a[0].op == '<' then 0 else 0x201, if a[0].op == '<' then 0 else 1);
      WrapCat(d, a[1..], b);
    }
  }

  lemma {:induction false} BaseWrap(c: Cmd, rs: seq<Item>)
    requires AllInto(rs)
    ensures Base(Wrap(c, rs)) == Base(c)
    decreases |rs|
  {
    if rs != [] {
      BaseWrap(Redir(c, rs[0].file, if rs[0].op == '<' then 0 else 0x201, if rs[0].op == '<' then 0 else 1), rs[1..]);
    }
  }

  /** A word goes into the command, whatever redirections already stand around it. */
  lemma {:induction false} AddArgWrap(c: Cmd, rs: seq<Item>, w: string)
    requires AllInto(rs) && Base(c).Exec?
    ensures Base(Wrap(c, rs)).Exec? && AddArg(Wrap(c, rs), w) == Wrap(AddArg(c, w), rs)
    decreases |rs|
  {
    if rs != [] {
      AddArgWrap(Redir(c, rs[0].file, if rs[0].op == '<' then 0 else 0x201, if rs[0].op == '<' then 0 else 1), rs[1..], w);
    }
  }

  lemma {:induction false} ItemTokensCat(a: seq<Item>, b: seq<Item>, k: Tokens)
    ensures ItemTokens(a + b, k) == ItemTokens(a, ItemTokens(b, k))
    decreases |a|
  {
    if a == [] {
      assert a + b == b;
    } else {
      assert (a + b)[1..] == a[1..] + b;
      ItemTokensCat(a[1..], b, k);
    }
  }

  lemma {:induction false} ArgsCat(a: seq<Item>, b: seq<Item>)
    ensures ArgsOf(a + b) == ArgsOf(a) + ArgsOf(b)
    decreases |a|
  {
    if a == [] {
      assert a + b == b;
    } else {
      assert (a + b)[1..] == a[1..] + b;
      ArgsCat(a[1..], b);
      Associates(if a[0].Arg? then [a[0].w] else [], ArgsOf(a[1..]), ArgsOf(b));
    }
  }

  lemma {:induction false} RedirsCat(a: seq<Item>, b: seq<Item>)
    ensures RedirsOf(a + b) == RedirsOf(a) + RedirsOf(b)
    decreases |a|
  {
    if a == [] {
      assert a + b == b;
    } else {
      assert (a + b)[1..] == a[1..] + b;
      RedirsCat(a[1..], b);
      Associates(if a[0].Into? then [a[0]] else [], RedirsOf(a[1..]), RedirsOf(b));
    }
  }

  lemma Associates<T>(a: seq<T>, b: seq<T>, c: seq<T>)
    ensures a + (b + c) == a + b + c
  {
  }

  lemma {:induction false} OnlyRedirs(rs: seq<Item>)
    requires AllInto(rs)
    ensures ArgsOf(rs) == [] && RedirsOf(rs) == rs && ItemsOk(rs)
    decreases |rs|
  {
    if rs != [] {
      OnlyRedirs(rs[1..]);
    }
  }

  // ---- Every line of the grammar is accepted ------------------------------------------------------

  lemma {:induction false} RedirsParse(c: Cmd, rs: seq<Item>, k: Tokens)
    requires AllInto(rs) && !StartsWith(k, REDIRS)
    ensures Redirs(c, ItemTokens(rs, k)) == Ok(Wrap(c, rs), k)
    decreases |rs|
  {
    if rs != [] {
      RedirsParse(Redirected(c, rs[0].op, rs[0].file), rs[1..], k);
    }
  }

  /** What parseexec makes of what is left of a simple command: as many words as fit, or a panic. */
  function Rest(args: seq<string>, rs: seq<Item>, items: seq<Item>, k: Tokens): Result
    requires AllInto(rs) && ItemsOk(items)
  {
    RedirsOfInto(items);
    if |args| + |ArgsOf(items)| < MAXARGS then Ok(Wrap(Exec(args + ArgsOf(items)), rs + RedirsOf(items)), k) else Err(TooManyArgs)
  }

  function ThenArgs(r: Result): Result
    requires r.Ok? ==> Base(r.cmd).Exec? && |Base(r.cmd).args| < MAXARGS
  {
    if r.Err? then r else Args(r.cmd, r.rest)
  }

  lemma {:induction false} ItemsParse(args: seq<string>, rs: seq<Item>, items: seq<Item>, k: Tokens)
    requires AllInto(rs) && ItemsOk(items) && |args| < MAXARGS && Ends(k, STOPS)
    ensures Base(Wrap(Exec(args), rs)) == Exec(args)
    ensures ThenArgs(Redirs(Wrap(Exec(args), rs), ItemTokens(items, k))) == Rest(args, rs, items, k)
    decreases |items|
  {
    var c := Wrap(Exec(args), rs);
    BaseWrap(Exec(args), rs);
    RedirsOfInto(items);
    if items == [] {
      assert args + [] == args && rs + [] == rs;
    } else {
      var x, more := items[0], items[1..];
      RedirsOfInto(more);
      match x
      case Into(op, file) =>
        WrapCat(Exec(args), rs, [x]);
        assert Wrap(c, [x]) == Redirected(c, op, file);
        Associates(rs, [x], RedirsOf(more));
        assert ArgsOf(items) == [] + ArgsOf(more) == ArgsOf(more);
        ItemsParse(args, rs + [x], more, k);
      case Arg(w) =>
        Associates(args, [w], ArgsOf(more));
        assert RedirsOf(items) == [] + RedirsOf(more) == RedirsOf(more);
        AddArgWrap(Exec(args), rs, w);
        var ts, after := ItemTokens(items, k), ItemTokens(more, k);
        assert Redirs(c, ts) == Ok(c, ts);
        if |args| + 1 < MAXARGS {
          ItemsParse(args + [w], rs, more, k);
          assert Args(c, ts) == ThenArgs(Redirs(AddArg(c, w), after));
        }
    }
  }

  lemma {:induction false} ItemsStart(items: seq<Item>, k: Tokens)
    requires ItemsOk(items) && !StartsWith(k, {'('})
    ensures !StartsWith(ItemTokens(items, k), {'('})
  {
  }

  /** A simple command is parsed by its words and its redirections, wherever they stand among each other. */
  lemma SimpleParse(items: seq<Item>, k: Tokens)
    requires ItemsOk(items) && Ends(k, STOPS)
    ensures AllInto(RedirsOf(items))
    ensures ParseExec(ItemTokens(items, k)) ==
              if |ArgsOf(items)| < MAXARGS then Ok(Wrap(Exec(ArgsOf(items)), RedirsOf(items)), k) else Err(TooManyArgs)
  {
    RedirsOfInto(items);
    ItemsStart(items, k);
    ItemsParse([], [], items, k);
    assert [] + ArgsOf(items) == ArgsOf(items) && [] + RedirsOf(items) == RedirsOf(items);
  }

  /** So it might as well be written with the words first. */
  lemma WordsFirst(items: seq<Item>, k: Tokens)
    requires ItemsOk(items) && Ends(k, STOPS)
    ensures ParseExec(ItemTokens(items, k)) == ParseExec(Words(ArgsOf(items), ItemTokens(RedirsOf(items), k)))
  {
    var args, rs := ArgsOf(items), RedirsOf(items);
    var front := seq(|args|, i requires 0 <= i < |args| => Arg(args[i]));
    RedirsOfInto(items);
    OnlyArgs(args, front, ItemTokens(rs, k));
    OnlyRedirs(rs);
    ItemTokensCat(front, rs, k);
    ArgsCat(front, rs);
    RedirsCat(front, rs);
    assert args + [] == args && [] + rs == rs;
    SimpleParse(items, k);
    SimpleParse(front + rs, k);
  }

  lemma {:induction false} OnlyArgs(args: seq<string>, front: seq<Item>, k: Tokens)
    requires |front| == |args| && forall i :: 0 <= i < |args| ==> front[i] == Arg(args[i])
    ensures ItemTokens(front, k) == Words(args, k) && ArgsOf(front) == args && RedirsOf(front) == [] && ItemsOk(front)
    decreases |args|
  {
    if args != [] {
      OnlyArgs(args[1..], front[1..], k);
      assert [args[0]] + args[1..] == args;
    }
  }

  lemma {:induction false} ExecParse(e: ExecT, k: Tokens)
    requires ExecOk(e) && Ends(k, STOPS)
    ensures ParseExec(ExecTokens(e, k)) == Ok(ExecMeans(e), k)
    decreases e
  {
    match e
    case Plain(items) => SimpleParse(items, k);
    case Block(line, redirs) =>
      LineParse(line, Cons(Sym(')'), ItemTokens(redirs, k)));
      RedirsParse(LineMeans(line), redirs, k);
  }

  lemma {:induction false} PipeParse(p: PipeT, k: Tokens)
    requires PipeOk(p) && Ends(k, {')', ';', '&'})
    ensures ParsePipe(PipeTokens(p, k)) == Ok(PipeMeans(p), k)
    decreases p
  {
    match p
    case Last(e) => ExecParse(e, k);
    case Feed(e, q) =>
      PipeParse(q, k);
      ExecParse(e, Cons(Sym('|'), PipeTokens(q, k)));
  }

  lemma {:induction false} BacksParse(c: Cmd, m: nat, n: nat, k: Tokens)
    requires !StartsWith(k, {'&'})
    ensures Backs(InBack(c, m), AmpTokens(n, k)) == Ok(InBack(c, m + n), k)
    decreases n
  {
    if n > 0 {
      BacksParse(c, m + 1, n - 1, k);
    }
  }

  lemma AmpsEnd(n: nat, k: Tokens)
    requires Ends(k, {')', ';'})
    ensures Ends(AmpTokens(n, k), {')', ';', '&'})
  {
  }

  lemma {:induction false} LineParse(l: LineT, k: Tokens)
    requires LineOk(l) && Ends(k, {')'})
    ensures ParseLine(LineTokens(l, k)) == Ok(LineMeans(l), k)
    decreases l
  {
    match l
    case Final(p, n) =>
      AmpsEnd(n, k);
      PipeParse(p, AmpTokens(n, k));
      BacksParse(PipeMeans(p), 0, n, k);
    case Then(p, n, m) =>
      var after := Cons(Sym(';'), LineTokens(m, k));
      AmpsEnd(n, after);
      PipeParse(p, AmpTokens(n, after));
      BacksParse(PipeMeans(p), 0, n, after);
      LineParse(m, k);
  }

  // ---- Nothing else is accepted ---------------------------------------------------------------------

  lemma {:induction false} RedirsRead(c: Cmd, ts: Tokens) returns (rs: seq<Item>)
    requires Redirs(c, ts).Ok?
    ensures AllInto(rs) && ts == ItemTokens(rs, Redirs(c, ts).rest) && Redirs(c, ts).cmd == Wrap(c, rs)
    decreases ts
  {
    if StartsWith(ts, REDIRS) {
      var x := Into(ts.head.c, ts.tail.head.w);
      var more := RedirsRead(Redirected(c, x.op, x.file), ts.tail.tail);
      rs := [x] + more;
      assert rs[1..] == more;
    } else {
      rs := [];
    }
  }

  lemma {:induction false} ArgsRead(args: seq<string>, rs: seq<Item>, ts: Tokens) returns (items: seq<Item>)
    requires AllInto(rs) && |args| < MAXARGS && Base(Wrap(Exec(args), rs)) == Exec(args) && Args(Wrap(Exec(args), rs), ts).Ok?
    ensures var r := Args(Wrap(Exec(args), rs), ts);
            && ItemsOk(items) && ts == ItemTokens(items, r.rest) && |args| + |ArgsOf(items)| < MAXARGS
            && AllInto(RedirsOf(items)) && r.cmd == Wrap(Exec(args + ArgsOf(items)), rs + RedirsOf(items))
    decreases Len(ts)
  {
    if StartsWith(ts, STOPS) || ts.Nil? {
      items := [];
      assert args + [] == args && rs + [] == rs;
    } else {
      var w, next := ts.head.w, args + [ts.head.w];
      AddArgWrap(Exec(args), rs, w);
      var c := Wrap(Exec(next), rs);
      var after := RedirsRead(c, ts.tail);
      WrapCat(Exec(next), rs, after);
      BaseWrap(Exec(next), rs + after);
      var more := ArgsRead(next, rs + after, Redirs(c, ts.tail).rest);
      OnlyRedirs(after);
      var k := Args(Wrap(Exec(args), rs), ts).rest;
      ItemTokensCat(after, more, k);
      ArgsCat(after, more);
      RedirsCat(after, more);
      items := [Arg(w)] + (after + more);
      JoinItems(args, rs, w, after, more, items);
    }
  }

  lemma JoinItems(args: seq<string>, rs: seq<Item>, w: string, after: seq<Item>, more: seq<Item>, items: seq<Item>)
    requires items == [Arg(w)] + (after + more) && AllInto(after) && ItemsOk(more)
    requires ArgsOf(after + more) == ArgsOf(more) && RedirsOf(after + more) == after + RedirsOf(more)
    ensures ItemsOk(items) && args + ArgsOf(items) == args + [w] + ArgsOf(more) && rs + RedirsOf(items) == rs + after + RedirsOf(more)
  {
    assert items[1..] == after + more;
    Associates(args, [w], ArgsOf(more));
    Associates(rs, after, RedirsOf(more));
    assert RedirsOf(items) == [] + (after + RedirsOf(more)) == after + RedirsOf(more);
  }

  lemma SimpleRead(ts: Tokens) returns (items: seq<Item>)
    requires !StartsWith(ts, {'('}) && ParseExec(ts).Ok?
    ensures ExecOk(Plain(items)) && ts == ItemTokens(items, ParseExec(ts).rest) && ParseExec(ts).cmd == ExecMeans(Plain(items))
  {
    var first := RedirsRead(Exec([]), ts);
    BaseWrap(Exec([]), first);
    var r := Redirs(Exec([]), ts);
    var more := ArgsRead([], first, r.rest);
    OnlyRedirs(first);
    ItemTokensCat(first, more, ParseExec(ts).rest);
    ArgsCat(first, more);
    RedirsCat(first, more);
    items := first + more;
    assert [] + ArgsOf(more) == ArgsOf(more);
  }

  lemma {:induction false} ExecRead(ts: Tokens) returns (e: ExecT)
    requires ParseExec(ts).Ok?
    ensures ExecOk(e) && ts == ExecTokens(e, ParseExec(ts).rest) && ParseExec(ts).cmd == ExecMeans(e)
    decreases Len(ts), 0
  {
    if StartsWith(ts, {'('}) {
      var line := LineRead(ts.tail);
      var r := ParseLine(ts.tail);
      var rs := RedirsRead(r.cmd, r.rest.tail);
      e := Block(line, rs);
    } else {
      var items := SimpleRead(ts);
      e := Plain(items);
    }
  }

  lemma {:induction false} PipeRead(ts: Tokens) returns (p: PipeT)
    requires ParsePipe(ts).Ok?
    ensures PipeOk(p) && ts == PipeTokens(p, ParsePipe(ts).rest) && ParsePipe(ts).cmd == PipeMeans(p)
    decreases Len(ts), 1
  {
    var e := ExecRead(ts);
    var r := ParseExec(ts);
    if StartsWith(r.rest, {'|'}) {
      var q := PipeRead(r.rest.tail);
      p := Feed(e, q);
    } else {
      p := Last(e);
    }
  }

  lemma {:induction false} BacksRead(c: Cmd, m: nat, ts: Tokens) returns (n: nat)
    ensures ts == AmpTokens(n, Backs(InBack(c, m), ts).rest) && Backs(InBack(c, m), ts).cmd == InBack(c, m + n)
    decreases ts
  {
    if StartsWith(ts, {'&'}) {
      var more := BacksRead(c, m + 1, ts.tail);
      n := more + 1;
    } else {
      n := 0;
    }
  }

  lemma {:induction false} LineRead(ts: Tokens) returns (l: LineT)
    requires ParseLine(ts).Ok?
    ensures LineOk(l) && ts == LineTokens(l, ParseLine(ts).rest) && ParseLine(ts).cmd == LineMeans(l)
    decreases Len(ts), 2
  {
    var p := PipeRead(ts);
    var r := ParsePipe(ts);
    var n := BacksRead(r.cmd, 0, r.rest);
    var b := Backs(r.cmd, r.rest);
    if StartsWith(b.rest, {';'}) {
      var m := LineRead(b.rest.tail);
      l := Then(p, n, m);
    } else {
      l := Final(p, n);
    }
  }

  /** `ts` is a line of the grammar that stands for `c`. */
  predicate Derives(l: LineT, ts: Tokens, c: Cmd) {
    LineOk(l) && LineTokens(l, Nil) == ts && LineMeans(l) == c
  }

  /** The parser accepts exactly the lines of the grammar, and gives each its meaning. */
  lemma ParsesExactly(ts: Tokens, c: Cmd)
    ensures ParseCmd(ts) == Ok(c, Nil) <==> exists l :: Derives(l, ts, c)
  {
    if l :| Derives(l, ts, c) {
      LineParse(l, Nil);
    }
    if ParseCmd(ts) == Ok(c, Nil) {
      var l := LineRead(ts);
      assert Derives(l, ts, c);
    }
  }

  // ---- Characters -----------------------------------------------------------------------------------

  /** A token with the blanks before it. */
  datatype Piece = Piece(gap: string, tok: Token)

  function Spell(t: Token): string {
    match t
    case Word(w) => w
    case Sym(c) => if c == '+' then ">>" else [c]
  }

  predicate AllBlank(s: string) {
    forall i :: 0 <= i < |s| ==> Blank(s[i])
  }

  /** A line as written: its pieces and the blanks at its end. */
  function Written(ps: seq<Piece>, end: string): string {
    if ps == [] then end else ps[0].gap + (Spell(ps[0].tok) + Written(ps[1..], end))
  }

  function TokensOf(ps: seq<Piece>): Tokens {
    if ps == [] then Nil else Cons(ps[0].tok, TokensOf(ps[1..]))
  }

  /** What may follow a token directly: a word must not run on, and `>` must not become `>>`. */
  predicate MayFollow(t: Token, rest: string) {
    rest == [] || (if t.Word? then Blank(rest[0]) || Symbol(rest[0]) else t.c == '>' ==> rest[0] != '>')
  }

  predicate WellSpaced(ps: seq<Piece>, end: string) {
    if ps == [] then AllBlank(end)
    else
      && AllBlank(ps[0].gap) && LexedToken(ps[0].tok) && MayFollow(ps[0].tok, Written(ps[1..], end))
      && WellSpaced(ps[1..], end)
  }

  lemma {:induction false} LexBlanks(gap: string, s: string)
    requires AllBlank(gap)
    ensures Lex(gap + s) == Lex(s)
    decreases |gap|
  {
    if gap == [] {
      assert gap + s == s;
    } else {
      var rest := gap[1..] + s;
      assert gap + s == [gap[0]] + rest;
      LexBlanks(gap[1..], s);
      LexShift([gap[0]], rest, 0);
      assert Skip(gap + s, 0) == Skip(gap + s, 1);
    }
  }

  lemma {:induction false} WordEndAt(w: string, s: string, i: nat)
    requires LegalWord(w) && (s == [] || Blank(s[0]) || Symbol(s[0])) && i <= |w|
    ensures WordEnd(w + s, i) == |w|
    decreases |w| - i
  {
    if i < |w| {
      assert (w + s)[i] == w[i];
      WordEndAt(w, s, i + 1);
    } else if s != [] {
      assert (w + s)[|w|] == s[0];
    }
  }

  lemma LexToken(t: Token, rest: string)
    requires LexedToken(t) && MayFollow(t, rest)
    ensures Lex(Spell(t) + rest) == Cons(t, Lex(rest))
  {
    var w := Spell(t);
    var s := w + rest;
    LexShift(w, rest, 0);
    assert s[0] == w[0] && Skip(s, 0) == 0;
    if t.Word? {
      WordEndAt(w, rest, 0);
      assert s[0..|w|] == w;
    } else {
      assert |s| >= 2 ==> s[1] == if t.c == '+' then '>' else rest[0];
    }
  }

  lemma {:induction false} LexWritten(ps: seq<Piece>, end: string)
    requires WellSpaced(ps, end)
    ensures Lex(Written(ps, end)) == TokensOf(ps)
    decreases |ps|
  {
    if ps == [] {
      assert end + [] == end;
      LexBlanks(end, []);
    } else {
      var rest := Written(ps[1..], end);
      LexBlanks(ps[0].gap, Spell(ps[0].tok) + rest);
      LexToken(ps[0].tok, rest);
      LexWritten(ps[1..], end);
    }
  }

  lemma {:induction false} SkipsBlanks(s: string, i: nat, j: nat)
    requires i <= |s| && j == Skip(s, i)
    ensures AllBlank(s[i..j])
    decreases |s| - i
  {
    if i < |s| && Blank(s[i]) {
      SkipsBlanks(s, i + 1, j);
      assert s[i..j] == [s[i]] + s[i + 1..j];
    }
  }

  lemma TokenRead(s: string, j: nat)
    requires Clean(s) && j < |s| && !Blank(s[j])
    ensures LexedToken(TokenAt(s, j)) && Spell(TokenAt(s, j)) == s[j..TokenEnd(s, j)] && MayFollow(TokenAt(s, j), s[TokenEnd(s, j)..])
  {
    WordEndLegal(s, j, j);
  }

  lemma ThreeParts(s: string, i: nat, j: nat, e: nat)
    requires i <= j <= e <= |s|
    ensures s[i..] == s[i..j] + (s[j..e] + s[e..])
  {
    assert s[j..] == s[j..e] + s[e..];
    assert s[i..] == s[i..j] + s[j..];
  }

  lemma {:induction false} LexRead(s: string, i: nat) returns (ps: seq<Piece>, end: string)
    requires Clean(s) && i <= |s|
    ensures WellSpaced(ps, end) && Written(ps, end) == s[i..] && TokensOf(ps) == LexFrom(s, i)
    decreases |s| - i
  {
    var j := Skip(s, i);
    SkipsBlanks(s, i, j);
    if j == |s| {
      ps, end := [], s[i..j];
    } else {
      var t, e := TokenAt(s, j), TokenEnd(s, j);
      TokenRead(s, j);
      var more;
      more, end := LexRead(s, e);
      ps := [Piece(s[i..j], t)] + more;
      assert ps[1..] == more;
      ThreeParts(s, i, j, e);
    }
  }

  /** `ps` and `end` spell the line `s` with the tokens `ts`. */
  predicate Spells(ps: seq<Piece>, end: string, s: string, ts: Tokens) {
    WellSpaced(ps, end) && Written(ps, end) == s && TokensOf(ps) == ts
  }

  /** The tokens of a line are those that spell it. */
  lemma LexesExactly(s: string, ts: Tokens)
    requires Clean(s)
    ensures Lex(s) == ts <==> exists ps, end :: Spells(ps, end, s, ts)
  {
    if ps, end :| Spells(ps, end, s, ts) {
      LexWritten(ps, end);
    }
    if Lex(s) == ts {
      var ps, end := LexRead(s, 0);
      assert s[0..] == s;
      assert Spells(ps, end, s, ts);
    }
  }
}
