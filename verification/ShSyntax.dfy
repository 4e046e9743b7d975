/** The shell's command language: tokens, grammar, a printer, and the round trip. */
module ShSyntax {
  const MAXARGS: nat := 10

  datatype Token = Word(w: string) | Sym(c: char)

  datatype Tokens = Nil | Cons(head: Token, tail: Tokens)

  const O_RDONLY: nat := 0x000
  const O_WRONLY: nat := 0x001
  const O_CREATE: nat := 0x200

  /** A parsed command. A redirection holds the mode its file is opened with and the descriptor. */
  datatype Cmd =
    | Exec(args: seq<string>)
    | Redir(cmd: Cmd, file: string, mode: nat, fd: nat)
    | Pipe(left: Cmd, right: Cmd)
    | List(left: Cmd, right: Cmd)
    | Back(cmd: Cmd)

  /** The panics of the parser. */
  datatype Error = MissingFile | Syntax | MissingParen | TooManyArgs | Leftovers

  datatype Result = Ok(cmd: Cmd, rest: Tokens) | Err(error: Error)

  function Len(ts: Tokens): nat {
    if ts.Nil? then 0 else 1 + Len(ts.tail)
  }

  predicate StartsWith(ts: Tokens, cs: set<char>) {
    ts.Cons? && ts.head.Sym? && ts.head.c in cs
  }

  // ---- The grammar as the parser reads it -------------------------------------------------

  const REDIRS: set<char> := {'<', '>', '+'}

  /** The redirection of `c` that each of the three operators asks for. */
  function Redirected(c: Cmd, tok: char, file: string): (r: Cmd)
    requires tok in REDIRS
    ensures r.Redir? && r.cmd == c
  {
    if tok == '<' then Redir(c, file, O_RDONLY, 0)
    else if tok == '>' then Redir(c, file, O_WRONLY + O_CREATE, 1)
    else Redir(c, file, O_WRONLY + O_CREATE, 1)
  }

  /** parseredirs: wrap `c` in the redirections that come next, the first innermost. */
  function Redirs(c: Cmd, ts: Tokens): (r: Result)
    ensures r.Ok? ==> Len(r.rest) <= Len(ts) && !StartsWith(r.rest, REDIRS) && Base(r.cmd) == Base(c)
    decreases ts
  {
    if StartsWith(ts, REDIRS) then
      if ts.tail.Cons? && ts.tail.head.Word? then Redirs(Redirected(c, ts.head.c, ts.tail.head.w), ts.tail.tail)
      else Err(MissingFile)
    else Ok(c, ts)
  }

  /** What a chain of redirections is around. */
  function Base(c: Cmd): (b: Cmd)
    ensures !b.Redir?
  {
    if c.Redir? then Base(c.cmd) else c
  }

  /** Add an argument to the command at the base of a chain of redirections. */
  function AddArg(c: Cmd, w: string): (r: Cmd)
    requires Base(c).Exec?
    ensures Base(r) == Exec(Base(c).args + [w])
  {
    if c.Redir? then Redir(AddArg(c.cmd, w), c.file, c.mode, c.fd) else Exec(c.args + [w])
  }

  const STOPS: set<char> := {'|', ')', '&', ';'}

  /** parseexec's loop, `c` being what it has built so far. */
  function Args(c: Cmd, ts: Tokens): (r: Result)
    requires Base(c).Exec? && |Base(c).args| < MAXARGS
    ensures r.Ok? ==> Len(r.rest) <= Len(ts)
    decreases Len(ts)
  {
    if StartsWith(ts, STOPS) || ts.Nil? then Ok(c, ts)
    else if ts.head.Sym? then Err(Syntax)
    else if |Base(c).args| + 1 >= MAXARGS then Err(TooManyArgs)
    else
      var r := Redirs(AddArg(c, ts.head.w), ts.tail);
      if r.Err? then r else Args(r.cmd, r.rest)
  }

  function ParseExec(ts: Tokens): (r: Result)
    ensures r.Ok? ==> Len(r.rest) <= Len(ts)
    decreases Len(ts), 0
  {
    if StartsWith(ts, {'('}) then
      var r := ParseLine(ts.tail);
      if r.Err? then r
      else if !StartsWith(r.rest, {')'}) then Err(MissingParen)
      else Redirs(r.cmd, r.rest.tail)
    else
      var r := Redirs(Exec([]), ts);
      if r.Err? then r else Args(r.cmd, r.rest)
  }

  function ParsePipe(ts: Tokens): (r: Result)
    ensures r.Ok? ==> Len(r.rest) <= Len(ts)
    decreases Len(ts), 1
  {
    var r := ParseExec(ts);
    if r.Err? || !StartsWith(r.rest, {'|'}) then r
    else
      var q := ParsePipe(r.rest.tail);
      if q.Err? then q else Ok(Pipe(r.cmd, q.cmd), q.rest)
  }

  /** parseline's loop over `&`. */
  function Backs(c: Cmd, ts: Tokens): (r: Result)
    ensures r.Ok? && Len(r.rest) <= Len(ts) && !StartsWith(r.rest, {'&'})
    decreases ts
  {
    if StartsWith(ts, {'&'}) then Backs(Back(c), ts.tail) else Ok(c, ts)
  }

  function ParseLine(ts: Tokens): (r: Result)
    ensures r.Ok? ==> Len(r.rest) <= Len(ts)
    decreases Len(ts), 2
  {
    var p := ParsePipe(ts);
    if p.Err? then p
    else
      var b := Backs(p.cmd, p.rest);
      if !StartsWith(b.rest, {';'}) then b
      else
        var q := ParseLine(b.rest.tail);
        if q.Err? then q else Ok(List(b.cmd, q.cmd), q.rest)
  }

  function ParseCmd(ts: Tokens): Result {
    var r := ParseLine(ts);
    if r.Ok? && r.rest != Nil then Err(Leftovers) else r
  }

  // ---- The printer --------------------------------------------------------------------------

  function Words(args: seq<string>, k: Tokens): Tokens {
    if args == [] then k else Cons(Word(args[0]), Words(args[1..], k))
  }

  /** The tokens of a redirection; output is printed as `>`. */
  function RedirTokens(c: Cmd, k: Tokens): Tokens
    requires c.Redir?
  {
    Cons(Sym(if c.fd == 0 then '<' else '>'), Cons(Word(c.file), k))
  }

  /** A mode and descriptor that parseredirs stores. */
  predicate StoredMode(mode: nat, fd: nat) {
    (mode == O_RDONLY && fd == 0) || (mode == O_WRONLY + O_CREATE && fd == 1)
  }

  datatype Level = AsLine | AsBack | AsPipe | AsExec

  /** How many levels are left to descend before the printer of `c` does something else. */
  function Rank(l: Level, c: Cmd): nat {
    match c
    case List(_, _) => (match l case AsBack => 3 case AsPipe => 2 case AsExec => 1 case AsLine => 0)
    case Back(_) => (match l case AsPipe => 3 case AsExec => 2 case AsLine => 1 case AsBack => 0)
    case Pipe(_, _) => (match l case AsExec => 3 case AsLine => 2 case AsBack => 1 case AsPipe => 0)
    case _ => (match l case AsLine => 3 case AsBack => 2 case AsPipe => 1 case AsExec => 0)
  }

  /** The tokens of `c` where the grammar wants `l`, followed by `k`; parenthesised where needed. */
  function Print(l: Level, c: Cmd, k: Tokens): Tokens
    decreases c, Rank(l, c)
  {
    match l
    case AsLine => if c.List? then Print(AsBack, c.left, Cons(Sym(';'), Print(AsLine, c.right, k))) else Print(AsBack, c, k)
    case AsBack => if c.Back? then Print(AsBack, c.cmd, Cons(Sym('&'), k)) else Print(AsPipe, c, k)
    case AsPipe => if c.Pipe? then Print(AsExec, c.left, Cons(Sym('|'), Print(AsPipe, c.right, k))) else Print(AsExec, c, k)
    case AsExec =>
      match c
      case Exec(args) => Words(args, k)
      case Redir(d, _, _, _) => Print(AsExec, d, RedirTokens(c, k))
      case _ => Cons(Sym('('), Print(AsLine, c, Cons(Sym(')'), k)))
  }

  /** Fewer than MAXARGS arguments and a stored mode everywhere. */
  predicate Printable(c: Cmd) {
    match c
    case Exec(args) => |args| < MAXARGS
    case Redir(d, _, mode, fd) => StoredMode(mode, fd) && Printable(d)
    case Back(d) => Printable(d)
    case Pipe(a, b) => Printable(a) && Printable(b)
    case List(a, b) => Printable(a) && Printable(b)
  }

  // ---- Parsing what was printed --------------------------------------------------------------

  /** The redirections around the base of `c`, followed by `k`. */
  function Chain(c: Cmd, k: Tokens): Tokens {
    if c.Redir? then Chain(c.cmd, RedirTokens(c, k)) else k
  }

  lemma {:induction false} PrintChain(c: Cmd, k: Tokens)
    ensures Print(AsExec, c, k) == Print(AsExec, Base(c), Chain(c, k))
  {
    if c.Redir? {
      PrintChain(c.cmd, RedirTokens(c, k));
    }
  }

  lemma {:induction false} ChainBack(c: Cmd, k: Tokens)
    requires Printable(c)
    ensures Redirs(Base(c), Chain(c, k)) == Redirs(c, k)
  {
    if c.Redir? {
      ChainBack(c.cmd, RedirTokens(c, k));
    }
  }

  /** Where a command may end: at the end of the input, or before one of `cs`. */
  predicate Ends(k: Tokens, cs: set<char>) {
    k.Nil? || StartsWith(k, cs)
  }

  lemma {:induction false} ArgsBack(args: seq<string>, more: seq<string>, c: Cmd, k: Tokens)
    requires Printable(c) && Base(c) == Exec(args + more) && |args| + |more| < MAXARGS && more != [] && Ends(k, STOPS)
    ensures Args(Exec(args), Words(more, Chain(c, k))) == Ok(c, k)
    decreases |more|
  {
    var rest := Words(more[1..], Chain(c, k));
    assert AddArg(Exec(args), more[0]) == Exec(args + [more[0]]);
    if |more| == 1 {
      ChainBack(c, k);
      assert args + [more[0]] == args + more;
    } else {
      assert args + [more[0]] + more[1..] == args + more;
      ArgsBack(args + [more[0]], more[1..], c, k);
    }
  }

  lemma {:induction false} BasePrintable(c: Cmd)
    requires Printable(c)
    ensures Printable(Base(c)) && (c.Redir? ==> Base(c) < c)
  {
    if c.Redir? {
      BasePrintable(c.cmd);
    }
  }

  /** The number of `&` after a command, and the command before them. */
  function Core(c: Cmd): Cmd {
    if c.Back? then Core(c.cmd) else c
  }

  function Amps(c: Cmd, k: Tokens): Tokens {
    if c.Back? then Amps(c.cmd, Cons(Sym('&'), k)) else k
  }

  lemma {:induction false} PrintAmps(c: Cmd, k: Tokens)
    ensures Print(AsBack, c, k) == Print(AsPipe, Core(c), Amps(c, k))
  {
    if c.Back? {
      PrintAmps(c.cmd, Cons(Sym('&'), k));
    }
  }

  lemma {:induction false} AmpsBack(c: Cmd, k: Tokens)
    ensures Backs(Core(c), Amps(c, k)) == Backs(c, k)
    ensures Ends(k, STOPS) ==> Ends(Amps(c, k), STOPS)
    ensures Ends(k, {')', ';', '&'}) ==> Ends(Amps(c, k), {')', ';', '&'})
  {
    if c.Back? {
      AmpsBack(c.cmd, Cons(Sym('&'), k));
    }
  }

  lemma {:induction false} CorePrintable(c: Cmd)
    requires Printable(c)
    ensures Printable(Core(c)) && (c.Back? ==> Core(c) < c) && !Core(c).Back?
  {
    if c.Back? {
      CorePrintable(c.cmd);
    }
  }

  lemma PlainBack(c: Cmd, k: Tokens)
    requires Printable(c) && Base(c).Exec? && |Base(c).args| < MAXARGS && Ends(k, STOPS)
    ensures ParseExec(Words(Base(c).args, Chain(c, k))) == Ok(c, k)
  {
    ChainBack(c, k);
    var args := Base(c).args;
    if args != [] {
      assert [] + args == args;
      ArgsBack([], args, c, k);
    }
    ChainStarts(c, k);
  }

  lemma {:induction false} ChainStarts(c: Cmd, k: Tokens)
    requires !StartsWith(k, {'('})
    ensures !StartsWith(Chain(c, k), {'('})
  {
    if c.Redir? {
      ChainStarts(c.cmd, RedirTokens(c, k));
    }
  }

  lemma {:induction false} ExecBack(c: Cmd, k: Tokens)
    requires Printable(c) && Ends(k, STOPS)
    ensures ParseExec(Print(AsExec, c, k)) == Ok(c, k)
    decreases c, Rank(AsExec, c)
  {
    PrintChain(c, k);
    BasePrintable(c);
    var b := Base(c);
    if b.Exec? {
      PlainBack(c, k);
    } else {
      LineBack(b, Cons(Sym(')'), Chain(c, k)));
      ChainBack(c, k);
    }
  }

  lemma {:induction false} PipeBack(c: Cmd, k: Tokens)
    requires Printable(c) && Ends(k, {')', ';', '&'})
    ensures ParsePipe(Print(AsPipe, c, k)) == Ok(c, k)
    decreases c, Rank(AsPipe, c)
  {
    if c.Pipe? {
      var rest := Print(AsPipe, c.right, k);
      PipeBack(c.right, k);
      ExecBack(c.left, Cons(Sym('|'), rest));
    } else {
      ExecBack(c, k);
    }
  }

  /** A command with its `&`s, before `;`, `)` or the end. */
  lemma {:induction false} BackBack(c: Cmd, k: Tokens)
    requires Printable(c) && Ends(k, {')', ';'})
    ensures ParsePipe(Print(AsBack, c, k)) == Ok(Core(c), Amps(c, k)) && Backs(Core(c), Amps(c, k)) == Ok(c, k)
    decreases c, Rank(AsBack, c)
  {
    PrintAmps(c, k);
    AmpsBack(c, k);
    CorePrintable(c);
    PipeBack(Core(c), Amps(c, k));
  }

  lemma {:induction false} LineBack(c: Cmd, k: Tokens)
    requires Printable(c) && Ends(k, {')'})
    ensures ParseLine(Print(AsLine, c, k)) == Ok(c, k)
    decreases c, Rank(AsLine, c)
  {
    if c.List? {
      var rest := Print(AsLine, c.right, k);
      LineBack(c.right, k);
      BackBack(c.left, Cons(Sym(';'), rest));
    } else {
      BackBack(c, k);
    }
  }

  // ---- Characters ------------------------------------------------------------------------------

  predicate Blank(x: char) {
    x in " \t\r\n" || x == 11 as char
  }

  predicate Symbol(x: char) {
    x in "<|>&;()"
  }

  predicate WordChar(x: char) {
    !Blank(x) && !Symbol(x) && x != 0 as char
  }

  /** A C string: no character is NUL. */
  predicate Clean(s: string) {
    forall i :: 0 <= i < |s| ==> s[i] != 0 as char
  }

  /** The first position from `i` that is not blank. */
  function Skip(s: string, i: nat): (j: nat)
    requires i <= |s|
    ensures i <= j <= |s| && (j < |s| ==> !Blank(s[j]))
    decreases |s| - i
  {
    if i < |s| && Blank(s[i]) then Skip(s, i + 1) else i
  }

  /** Where the word at `i` ends. */
  function WordEnd(s: string, i: nat): (j: nat)
    requires i <= |s|
    ensures i <= j <= |s| && (j < |s| ==> Blank(s[j]) || Symbol(s[j]))
    decreases |s| - i
  {
    if i == |s| || Blank(s[i]) || Symbol(s[i]) then i else WordEnd(s, i + 1)
  }

  /** Where the token at `i` ends. */
  function TokenEnd(s: string, i: nat): (j: nat)
    requires i < |s| && !Blank(s[i])
    ensures i < j <= |s|
  {
    if Symbol(s[i]) then (if s[i] == '>' && i + 1 < |s| && s[i + 1] == '>' then i + 2 else i + 1) else WordEnd(s, i)
  }

  function TokenAt(s: string, i: nat): Token
    requires i < |s| && !Blank(s[i])
  {
    if Symbol(s[i]) then Sym(if TokenEnd(s, i) == i + 2 then '+' else s[i]) else Word(s[i..WordEnd(s, i)])
  }

  /** The tokens of a line of input, from position `i`. */
  function LexFrom(s: string, i: nat): Tokens
    requires i <= |s|
    decreases |s| - i
  {
    var j := Skip(s, i);
    if j == |s| then Nil else Cons(TokenAt(s, j), LexFrom(s, TokenEnd(s, j)))
  }

  function Lex(s: string): Tokens {
    LexFrom(s, 0)
  }

  predicate LegalWord(w: string) {
    w != [] && forall i :: 0 <= i < |w| ==> WordChar(w[i])
  }

  predicate LegalToken(t: Token) {
    if t.Word? then LegalWord(t.w) else Symbol(t.c)
  }

  predicate LegalTokens(ts: Tokens) {
    ts.Cons? ==> LegalToken(ts.head) && LegalTokens(ts.tail)
  }

  /** Tokens as text, each followed by a blank. */
  function Render(ts: Tokens): string {
    if ts.Nil? then [] else (if ts.head.Word? then ts.head.w else [ts.head.c]) + (" " + Render(ts.tail))
  }

  // A prefix before the position makes no difference.

  lemma {:induction false} SkipShift(a: string, b: string, i: nat)
    requires i <= |b|
    ensures Skip(a + b, |a| + i) == |a| + Skip(b, i)
    decreases |b| - i
  {
    if i < |b| && Blank(b[i]) {
      SkipShift(a, b, i + 1);
    }
  }

  lemma {:induction false} WordEndShift(a: string, b: string, i: nat)
    requires i <= |b|
    ensures WordEnd(a + b, |a| + i) == |a| + WordEnd(b, i)
    decreases |b| - i
  {
    if i < |b| && !Blank(b[i]) && !Symbol(b[i]) {
      WordEndShift(a, b, i + 1);
    }
  }

  lemma TokenShift(a: string, b: string, i: nat)
    requires i < |b| && !Blank(b[i])
    ensures TokenEnd(a + b, |a| + i) == |a| + TokenEnd(b, i) && TokenAt(a + b, |a| + i) == TokenAt(b, i)
  {
    WordEndShift(a, b, i);
    var e := WordEnd(b, i);
    assert (a + b)[|a| + i..|a| + e] == b[i..e];
  }

  lemma {:induction false} LexShift(a: string, b: string, i: nat)
    requires i <= |b|
    ensures LexFrom(a + b, |a| + i) == LexFrom(b, i)
    decreases |b| - i
  {
    SkipShift(a, b, i);
    var j := Skip(b, i);
    if j < |b| {
      TokenShift(a, b, j);
      LexShift(a, b, TokenEnd(b, j));
    }
  }

  lemma {:induction false} WordEndIs(w: string, s: string, i: nat)
    requires LegalWord(w) && s != [] && Blank(s[0]) && i <= |w|
    ensures WordEnd(w + s, i) == |w|
    decreases |w| - i
  {
    if i < |w| {
      assert (w + s)[i] == w[i];
      WordEndIs(w, s, i + 1);
    } else {
      assert (w + s)[|w|] == s[0];
    }
  }

  lemma LexWord(w: string, s: string)
    requires LegalWord(w) && s != [] && Blank(s[0])
    ensures Lex(w + s) == Cons(Word(w), Lex(s))
  {
    WordEndIs(w, s, 0);
    LexShift(w, s, 0);
    assert (w + s)[0] == w[0] && (w + s)[0..|w|] == w;
    assert Skip(w + s, 0) == 0;
  }

  lemma LexSym(c: char, s: string)
    requires Symbol(c) && s != [] && Blank(s[0])
    ensures Lex([c] + s) == Cons(Sym(c), Lex(s))
  {
    LexShift([c], s, 0);
    assert ([c] + s)[0] == c && ([c] + s)[1] == s[0];
    assert Skip([c] + s, 0) == 0;
  }

  lemma LexBlank(s: string)
    ensures Lex(" " + s) == Lex(s)
  {
    LexShift(" ", s, 0);
    assert (" " + s)[0] == ' ';
    assert Skip(" " + s, 0) == Skip(" " + s, 1);
  }

  lemma {:induction false} LexRender(ts: Tokens)
    requires LegalTokens(ts)
    ensures Lex(Render(ts)) == ts
  {
    if ts.Cons? {
      LexRender(ts.tail);
      var rest := " " + Render(ts.tail);
      LexBlank(Render(ts.tail));
      if ts.head.Word? {
        LexWord(ts.head.w, rest);
      } else {
        LexSym(ts.head.c, rest);
      }
    }
  }

  predicate LegalWords(args: seq<string>) {
    forall i :: 0 <= i < |args| ==> LegalWord(args[i])
  }

  /** Legal words and fewer than MAXARGS arguments everywhere. */
  predicate Legal(c: Cmd) {
    match c
    case Exec(args) => |args| < MAXARGS && LegalWords(args)
    case Redir(d, file, mode, fd) => LegalWord(file) && StoredMode(mode, fd) && Legal(d)
    case Back(d) => Legal(d)
    case Pipe(a, b) => Legal(a) && Legal(b)
    case List(a, b) => Legal(a) && Legal(b)
  }

  lemma {:induction false} WordsLegal(args: seq<string>, k: Tokens)
    requires LegalWords(args) && LegalTokens(k)
    ensures LegalTokens(Words(args, k))
    decreases |args|
  {
    if args != [] {
      WordsLegal(args[1..], k);
    }
  }

  lemma {:induction false} PrintLegal(l: Level, c: Cmd, k: Tokens)
    requires Legal(c) && LegalTokens(k)
    ensures LegalTokens(Print(l, c, k)) && Printable(c)
    decreases c, Rank(l, c)
  {
    match l
    case AsLine =>
      if c.List? {
        PrintLegal(AsLine, c.right, k);
        PrintLegal(AsBack, c.left, Cons(Sym(';'), Print(AsLine, c.right, k)));
      } else {
        PrintLegal(AsBack, c, k);
      }
    case AsBack =>
      if c.Back? {
        PrintLegal(AsBack, c.cmd, Cons(Sym('&'), k));
      } else {
        PrintLegal(AsPipe, c, k);
      }
    case AsPipe =>
      if c.Pipe? {
        PrintLegal(AsPipe, c.right, k);
        PrintLegal(AsExec, c.left, Cons(Sym('|'), Print(AsPipe, c.right, k)));
      } else {
        PrintLegal(AsExec, c, k);
      }
    case AsExec =>
      match c
      case Exec(args) => WordsLegal(args, k);
      case Redir(d, _, _, _) => PrintLegal(AsExec, d, RedirTokens(c, k));
      case _ => PrintLegal(AsLine, c, Cons(Sym(')'), k));
  }

  /** A command as one line of text. */
  function Show(c: Cmd): string {
    Render(Print(AsLine, c, Nil))
  }

  /** Parsing the printed form of a command gives the command back. */
  lemma RoundTrip(c: Cmd)
    requires Legal(c)
    ensures ParseCmd(Lex(Show(c))) == Ok(c, Nil)
  {
    PrintLegal(AsLine, c, Nil);
    LexRender(Print(AsLine, c, Nil));
    LineBack(c, Nil);
  }

  // ---- What parsing yields ----------------------------------------------------------------------

  /** Tokens the lexer can produce. */
  predicate Lexed(ts: Tokens) {
    ts.Cons? ==> LexedToken(ts.head) && Lexed(ts.tail)
  }

  predicate LexedToken(t: Token) {
    if t.Word? then LegalWord(t.w) else Symbol(t.c) || t.c == '+'
  }

  lemma {:induction false} WordEndLegal(s: string, i: nat, q: nat)
    requires Clean(s) && q <= i <= |s| && forall x :: q <= x < i ==> WordChar(s[x])
    ensures forall x :: q <= x < WordEnd(s, i) ==> WordChar(s[x])
    decreases |s| - i
  {
    if i < |s| && !Blank(s[i]) && !Symbol(s[i]) {
      WordEndLegal(s, i + 1, q);
    }
  }

  lemma {:induction false} LexIsLexed(s: string, i: nat)
    requires Clean(s) && i <= |s|
    ensures Lexed(LexFrom(s, i))
    decreases |s| - i
  {
    var j := Skip(s, i);
    if j < |s| {
      WordEndLegal(s, j, j);
      assert LexedToken(TokenAt(s, j));
      LexIsLexed(s, TokenEnd(s, j));
    }
  }

  lemma {:induction false} RedirsLegal(c: Cmd, ts: Tokens)
    requires Legal(c) && Lexed(ts) && Redirs(c, ts).Ok?
    ensures Legal(Redirs(c, ts).cmd) && Lexed(Redirs(c, ts).rest)
    decreases ts
  {
    if StartsWith(ts, REDIRS) {
      RedirsLegal(Redirected(c, ts.head.c, ts.tail.head.w), ts.tail.tail);
    }
  }

  lemma {:induction false} AddArgLegal(c: Cmd, w: string)
    requires Base(c).Exec? && Legal(c) && LegalWord(w) && |Base(c).args| + 1 < MAXARGS
    ensures Legal(AddArg(c, w))
  {
    if c.Redir? {
      AddArgLegal(c.cmd, w);
    }
  }

  lemma {:induction false} ArgsLegal(c: Cmd, ts: Tokens)
    requires Base(c).Exec? && |Base(c).args| < MAXARGS && Legal(c) && Lexed(ts) && Args(c, ts).Ok?
    ensures Legal(Args(c, ts).cmd) && Lexed(Args(c, ts).rest)
    decreases Len(ts)
  {
    if !(StartsWith(ts, STOPS) || ts.Nil?) {
      AddArgLegal(c, ts.head.w);
      RedirsLegal(AddArg(c, ts.head.w), ts.tail);
      var r := Redirs(AddArg(c, ts.head.w), ts.tail);
      ArgsLegal(r.cmd, r.rest);
    }
  }

  lemma {:induction false} BacksLegal(c: Cmd, ts: Tokens)
    requires Legal(c) && Lexed(ts)
    ensures Legal(Backs(c, ts).cmd) && Lexed(Backs(c, ts).rest)
    decreases ts
  {
    if StartsWith(ts, {'&'}) {
      BacksLegal(Back(c), ts.tail);
    }
  }

  lemma {:induction false} ExecLegal(ts: Tokens)
    requires Lexed(ts) && ParseExec(ts).Ok?
    ensures Legal(ParseExec(ts).cmd) && Lexed(ParseExec(ts).rest)
    decreases Len(ts), 0
  {
    if StartsWith(ts, {'('}) {
      LineLegal(ts.tail);
      var r := ParseLine(ts.tail);
      RedirsLegal(r.cmd, r.rest.tail);
    } else {
      RedirsLegal(Exec([]), ts);
      ArgsLegal(Redirs(Exec([]), ts).cmd, Redirs(Exec([]), ts).rest);
    }
  }

  lemma {:induction false} PipeLegal(ts: Tokens)
    requires Lexed(ts) && ParsePipe(ts).Ok?
    ensures Legal(ParsePipe(ts).cmd) && Lexed(ParsePipe(ts).rest)
    decreases Len(ts), 1
  {
    ExecLegal(ts);
    var r := ParseExec(ts);
    if StartsWith(r.rest, {'|'}) {
      PipeLegal(r.rest.tail);
    }
  }

  lemma {:induction false} LineLegal(ts: Tokens)
    requires Lexed(ts) && ParseLine(ts).Ok?
    ensures Legal(ParseLine(ts).cmd) && Lexed(ParseLine(ts).rest)
    decreases Len(ts), 2
  {
    PipeLegal(ts);
    var p := ParsePipe(ts);
    BacksLegal(p.cmd, p.rest);
    var b := Backs(p.cmd, p.rest);
    if StartsWith(b.rest, {';'}) {
      LineLegal(b.rest.tail);
    }
  }

  /** Every line the parser accepts means what its printed form means. */
  lemma ParsedIsLegal(s: string)
    requires Clean(s) && ParseCmd(Lex(s)).Ok?
    ensures Legal(ParseCmd(Lex(s)).cmd)
    ensures ParseCmd(Lex(Show(ParseCmd(Lex(s)).cmd))) == ParseCmd(Lex(s))
  {
    LexIsLexed(s, 0);
    LineLegal(Lex(s));
    RoundTrip(ParseCmd(Lex(s)).cmd);
  }

  // ---- `>>` ------------------------------------------------------------------------------------

  /** The same tokens with every `>>` written `>`. */
  function SingleArrow(ts: Tokens): Tokens {
    if ts.Nil? then Nil
    else Cons(if ts.head == Sym('+') then Sym('>') else ts.head, SingleArrow(ts.tail))
  }

  function OnRest(r: Result): Result {
    if r.Ok? then Ok(r.cmd, SingleArrow(r.rest)) else r
  }

  lemma {:induction false} RedirsArrow(c: Cmd, ts: Tokens)
    ensures Redirs(c, SingleArrow(ts)) == OnRest(Redirs(c, ts))
    decreases ts
  {
    if StartsWith(ts, REDIRS) && ts.tail.Cons? && ts.tail.head.Word? {
      RedirsArrow(Redirected(c, ts.head.c, ts.tail.head.w), ts.tail.tail);
    }
  }

  lemma {:induction false} ArgsArrow(c: Cmd, ts: Tokens)
    requires Base(c).Exec? && |Base(c).args| < MAXARGS
    ensures Args(c, SingleArrow(ts)) == OnRest(Args(c, ts))
    decreases Len(ts)
  {
    if !(StartsWith(ts, STOPS) || ts.Nil?) && ts.head.Word? && |Base(c).args| + 1 < MAXARGS {
      RedirsArrow(AddArg(c, ts.head.w), ts.tail);
      var r := Redirs(AddArg(c, ts.head.w), ts.tail);
      if r.Ok? {
        ArgsArrow(r.cmd, r.rest);
      }
    }
  }

  lemma {:induction false} BacksArrow(c: Cmd, ts: Tokens)
    ensures Backs(c, SingleArrow(ts)) == OnRest(Backs(c, ts))
    decreases ts
  {
    if StartsWith(ts, {'&'}) {
      BacksArrow(Back(c), ts.tail);
    }
  }

  lemma {:induction false} ExecArrow(ts: Tokens)
    ensures ParseExec(SingleArrow(ts)) == OnRest(ParseExec(ts))
    decreases Len(ts), 0
  {
    if StartsWith(ts, {'('}) {
      LineArrow(ts.tail);
      var r := ParseLine(ts.tail);
      if r.Ok? && StartsWith(r.rest, {')'}) {
        RedirsArrow(r.cmd, r.rest.tail);
      }
    } else {
      RedirsArrow(Exec([]), ts);
      var r := Redirs(Exec([]), ts);
      if r.Ok? {
        ArgsArrow(r.cmd, r.rest);
      }
    }
  }

  lemma {:induction false} PipeArrow(ts: Tokens)
    ensures ParsePipe(SingleArrow(ts)) == OnRest(ParsePipe(ts))
    decreases Len(ts), 1
  {
    ExecArrow(ts);
    var r := ParseExec(ts);
    if r.Ok? && StartsWith(r.rest, {'|'}) {
      PipeArrow(r.rest.tail);
    }
  }

  lemma {:induction false} LineArrow(ts: Tokens)
    ensures ParseLine(SingleArrow(ts)) == OnRest(ParseLine(ts))
    decreases Len(ts), 2
  {
    PipeArrow(ts);
    var p := ParsePipe(ts);
    if p.Ok? {
      BacksArrow(p.cmd, p.rest);
      var b := Backs(p.cmd, p.rest);
      if StartsWith(b.rest, {';'}) {
        LineArrow(b.rest.tail);
      }
    }
  }

  /** `>>` is stored with the mode and descriptor of `>`: nothing tells runcmd to append. */
  lemma AppendOpensLikeOutput(ts: Tokens)
    ensures ParseCmd(SingleArrow(ts)) == ParseCmd(ts)
  {
    LineArrow(ts);
  }
}
