/** sh.c's recursive descent over the characters of a line, and the NUL termination of the strings
    it finds. */
module ShParser {
  import opened ShSyntax

  const NUL: char := 0 as char

  /** Where a word lies in the buffer: from `q` up to `eq`. */
  datatype Span = Span(q: nat, eq: nat)

  /** A command whose strings are still parts of the buffer. */
  datatype Tree =
    | TExec(argv: seq<Span>)
    | TRedir(cmd: Tree, file: Span, mode: nat, fd: nat)
    | TPipe(left: Tree, right: Tree)
    | TList(left: Tree, right: Tree)
    | TBack(cmd: Tree)

  /** Exactly a word of `s`: word characters, up to one that is none or the end. */
  predicate SpanOk(s: string, p: Span) {
    && p.q < p.eq <= |s| && (forall i :: p.q <= i < p.eq ==> WordChar(s[i]))
    && (p.eq < |s| ==> !WordChar(s[p.eq]))
  }

  predicate SpansOk(s: string, ps: seq<Span>) {
    forall i :: 0 <= i < |ps| ==> SpanOk(s, ps[i])
  }

  predicate TreeOk(s: string, t: Tree) {
    match t
    case TExec(argv) => SpansOk(s, argv)
    case TRedir(d, file, _, _) => SpanOk(s, file) && TreeOk(s, d)
    case TPipe(a, b) => TreeOk(s, a) && TreeOk(s, b)
    case TList(a, b) => TreeOk(s, a) && TreeOk(s, b)
    case TBack(d) => TreeOk(s, d)
  }

  function TextAt(s: string, p: Span): string {
    if p.q <= p.eq <= |s| then s[p.q..p.eq] else []
  }

  function Texts(s: string, ps: seq<Span>): (r: seq<string>)
    ensures |r| == |ps| && forall i :: 0 <= i < |ps| ==> r[i] == TextAt(s, ps[i])
  {
    seq(|ps|, i requires 0 <= i < |ps| => TextAt(s, ps[i]))
  }

  /** The command a tree stands for. */
  function TextOf(s: string, t: Tree): Cmd {
    match t
    case TExec(argv) => Exec(Texts(s, argv))
    case TRedir(d, file, mode, fd) => Redir(TextOf(s, d), TextAt(s, file), mode, fd)
    case TPipe(a, b) => Pipe(TextOf(s, a), TextOf(s, b))
    case TList(a, b) => List(TextOf(s, a), TextOf(s, b))
    case TBack(d) => Back(TextOf(s, d))
  }

  // ---- Tokens ---------------------------------------------------------------------------------

  method SkipBlanks(s: string, i: nat) returns (j: nat)
    requires i <= |s|
    ensures j == Skip(s, i)
  {
    j := i;
    while j < |s| && Blank(s[j])
      invariant i <= j <= |s| && Skip(s, j) == Skip(s, i)
    {
      j := j + 1;
    }
  }

  lemma SkipTwice(s: string, i: nat)
    requires i <= |s|
    ensures LexFrom(s, Skip(s, i)) == LexFrom(s, i)
  {
    assert Skip(s, Skip(s, i)) == Skip(s, i);
  }

  /** peek: skip blanks; is the next character one of `toks`? */
  method Peek(s: string, i: nat, toks: string) returns (b: bool, j: nat)
    requires i <= |s|
    ensures i <= j <= |s| && LexFrom(s, j) == LexFrom(s, i) && (j < |s| ==> !Blank(s[j]))
    ensures b <==> j < |s| && s[j] in toks
  {
    j := SkipBlanks(s, i);
    SkipTwice(s, i);
    b := j < |s| && s[j] in toks;
  }

  /** What peek's answer says about the next token. */
  lemma PeekMeans(s: string, j: nat, toks: string, cs: set<char>)
    requires j <= |s| && (j < |s| ==> !Blank(s[j]))
    requires forall c :: c in toks ==> Symbol(c)
    requires forall c :: Symbol(c) ==> (c in toks <==> c in cs)
    requires '>' in cs <==> '+' in cs
    requires forall c :: c in cs ==> Symbol(c) || c == '+'
    ensures (j < |s| && s[j] in toks) <==> StartsWith(LexFrom(s, j), cs)
  {
    assert Skip(s, j) == j;
  }

  /** gettoken's loop over the characters of a word. */
  method ScanWord(s: string, q: nat) returns (eq: nat)
    requires q < |s|
    ensures eq == WordEnd(s, q)
  {
    eq := q;
    while eq < |s| && !Blank(s[eq]) && !Symbol(s[eq])
      invariant q <= eq <= |s| && WordEnd(s, eq) == WordEnd(s, q)
    {
      eq := eq + 1;
    }
  }

  /** A token as gettoken reports it: its kind, and for a word where it lies. */
  predicate Reports(s: string, h: Token, tok: char, p: Span) {
    match h
    case Sym(c) => tok == c && tok != 'a' && tok != NUL
    case Word(w) => tok == 'a' && SpanOk(s, p) && TextAt(s, p) == w
  }

  predicate TokenIs(s: string, ts: Tokens, i: nat, tok: char, p: Span, j: nat) {
    && i <= j <= |s|
    && match ts
       case Nil => tok == NUL && j == |s|
       case Cons(h, tl) => i < j && LexFrom(s, j) == tl && Reports(s, h, tok, p)
  }

  /** gettoken's switch, at a character that is not blank. */
  method Switch(s: string, q: nat) returns (tok: char, eq: nat)
    requires Clean(s) && q < |s| && !Blank(s[q])
    ensures eq == TokenEnd(s, q) && Reports(s, TokenAt(s, q), tok, Span(q, eq))
  {
    if s[q] == '|' || s[q] == '(' || s[q] == ')' || s[q] == ';' || s[q] == '&' || s[q] == '<' {
      return s[q], q + 1;
    }
    if s[q] == '>' {
      if q + 1 < |s| && s[q + 1] == '>' {
        return '+', q + 2;
      }
      return '>', q + 1;
    }
    eq := ScanWord(s, q);
    WordEndLegal(s, q, q);
    return 'a', eq;
  }

  /** gettoken */
  method GetToken(s: string, i: nat) returns (tok: char, p: Span, j: nat)
    requires Clean(s) && i <= |s|
    ensures TokenIs(s, LexFrom(s, i), i, tok, p, j)
  {
    var q := SkipBlanks(s, i);
    if q == |s| {
      return NUL, Span(q, q), q;
    }
    var eq;
    tok, eq := Switch(s, q);
    p := Span(q, eq);
    j := SkipBlanks(s, eq);
    SkipTwice(s, eq);
  }

  // ---- The descent ------------------------------------------------------------------------------

  datatype Outcome = Done(tree: Tree, at: nat) | Panic(error: Error)

  /** The methods find what the grammar says, in the characters from `i` on. */
  predicate Agrees(s: string, i: nat, r: Outcome, spec: Result) {
    match spec
    case Ok(c, rest) =>
      r.Done? && i <= r.at <= |s| && TreeOk(s, r.tree) && TextOf(s, r.tree) == c && LexFrom(s, r.at) == rest
    case Err(e) => r == Panic(e)
  }

  /** parseredirs */
  method ParseRedirs(s: string, i: nat, t: Tree) returns (r: Outcome)
    requires Clean(s) && i <= |s| && TreeOk(s, t)
    ensures Agrees(s, i, r, Redirs(TextOf(s, t), LexFrom(s, i)))
  {
    var u, j := t, i;
    while true
      invariant i <= j <= |s| && TreeOk(s, u)
      invariant Redirs(TextOf(s, u), LexFrom(s, j)) == Redirs(TextOf(s, t), LexFrom(s, i))
      decreases |s| - j
    {
      var more;
      more, j := Peek(s, j, "<>");
      PeekMeans(s, j, "<>", REDIRS);
      if !more {
        return Done(u, j);
      }
      var tok, _, k := GetToken(s, j);
      var word, p, l := GetToken(s, k);
      if word != 'a' {
        return Panic(MissingFile);
      }
      if tok == '<' {
        u := TRedir(u, p, O_RDONLY, 0);
      } else if tok == '>' {
        u := TRedir(u, p, O_WRONLY + O_CREATE, 1);
      } else {
        u := TRedir(u, p, O_WRONLY + O_CREATE, 1);
      }
      j := l;
    }
  }

  /** Add an argument to the command at the base of a chain of redirections. */
  function AddSpan(t: Tree, p: Span): Tree {
    match t
    case TRedir(d, file, mode, fd) => TRedir(AddSpan(d, p), file, mode, fd)
    case TExec(argv) => TExec(argv + [p])
    case _ => t
  }

  lemma {:induction false} AddSpanText(s: string, t: Tree, p: Span)
    requires TreeOk(s, t) && SpanOk(s, p) && Base(TextOf(s, t)).Exec?
    ensures TreeOk(s, AddSpan(t, p)) && TextOf(s, AddSpan(t, p)) == AddArg(TextOf(s, t), TextAt(s, p))
  {
    if t.TRedir? {
      AddSpanText(s, t.cmd, p);
    } else {
      assert Texts(s, t.argv + [p]) == Texts(s, t.argv) + [TextAt(s, p)];
    }
  }

  /** parseexec's test for the end of the arguments */
  method AtStop(s: string, i: nat) returns (stop: bool, j: nat)
    requires i <= |s|
    ensures i <= j <= |s| && LexFrom(s, j) == LexFrom(s, i)
    ensures stop <==> StartsWith(LexFrom(s, j), STOPS)
  {
    stop, j := Peek(s, i, "|)&;");
    PeekMeans(s, j, "|)&;", STOPS);
  }

  /** parseexec takes a word and the redirections after it. */
  method AddWord(s: string, i: nat, t: Tree, p: Span) returns (r: Outcome)
    requires Clean(s) && i <= |s| && TreeOk(s, t) && SpanOk(s, p) && Base(TextOf(s, t)).Exec?
    ensures Agrees(s, i, r, Redirs(AddArg(TextOf(s, t), TextAt(s, p)), LexFrom(s, i)))
  {
    AddSpanText(s, t, p);
    r := ParseRedirs(s, i, AddSpan(t, p));
  }

  /** parseexec's loop */
  method ParseArgs(s: string, i: nat, t: Tree) returns (r: Outcome)
    requires Clean(s) && i <= |s| && TreeOk(s, t) && Base(TextOf(s, t)) == Exec([])
    ensures Agrees(s, i, r, Args(TextOf(s, t), LexFrom(s, i)))
  {
    var u, j, argc := t, i, 0;
    while true
      invariant i <= j <= |s| && TreeOk(s, u) && Base(TextOf(s, u)).Exec? && |Base(TextOf(s, u)).args| == argc < MAXARGS
      invariant Args(TextOf(s, u), LexFrom(s, j)) == Args(TextOf(s, t), LexFrom(s, i))
      decreases |s| - j
    {
      var stop;
      stop, j := AtStop(s, j);
      if stop {
        return Done(u, j);
      }
      var tok, p, k := GetToken(s, j);
      if tok == NUL {
        return Done(u, k);
      }
      if tok != 'a' {
        return Panic(Syntax);
      }
      argc := argc + 1;
      if argc >= MAXARGS {
        return Panic(TooManyArgs);
      }
      var q := AddWord(s, k, u, p);
      if q.Panic? {
        return q;
      }
      u, j := q.tree, q.at;
    }
  }

  /** parseexec and parseblock */
  method ParseExec(s: string, i: nat) returns (r: Outcome)
    requires Clean(s) && i <= |s|
    ensures Agrees(s, i, r, ShSyntax.ParseExec(LexFrom(s, i)))
    decreases |s| - i, 0
  {
    var block, j := Peek(s, i, "(");
    PeekMeans(s, j, "(", {'('});
    if block {
      var _, _, k := GetToken(s, j);
      var line := ParseLine(s, k);
      if line.Panic? {
        return line;
      }
      var closed, l := Peek(s, line.at, ")");
      PeekMeans(s, l, ")", {')'});
      if !closed {
        return Panic(MissingParen);
      }
      var _, _, m := GetToken(s, l);
      r := ParseRedirs(s, m, line.tree);
      return;
    }
    var empty := TExec([]);
    assert TextOf(s, empty) == Exec([]);
    var first := ParseRedirs(s, j, empty);
    if first.Panic? {
      return first;
    }
    r := ParseArgs(s, first.at, first.tree);
  }

  /** parsepipe */
  method ParsePipe(s: string, i: nat) returns (r: Outcome)
    requires Clean(s) && i <= |s|
    ensures Agrees(s, i, r, ShSyntax.ParsePipe(LexFrom(s, i)))
    decreases |s| - i, 1
  {
    r := ParseExec(s, i);
    if r.Panic? {
      return;
    }
    var more, j := Peek(s, r.at, "|");
    PeekMeans(s, j, "|", {'|'});
    if !more {
      return Done(r.tree, j);
    }
    var _, _, k := GetToken(s, j);
    var right := ParsePipe(s, k);
    if right.Panic? {
      return right;
    }
    return Done(TPipe(r.tree, right.tree), right.at);
  }

  /** parseline's loop over `&` */
  method ParseBacks(s: string, i: nat, t: Tree) returns (u: Tree, j: nat)
    requires Clean(s) && i <= |s| && TreeOk(s, t)
    ensures Agrees(s, i, Done(u, j), Backs(TextOf(s, t), LexFrom(s, i))) && (j < |s| ==> !Blank(s[j]))
  {
    u, j := t, i;
    while true
      invariant i <= j <= |s| && TreeOk(s, u) && Backs(TextOf(s, u), LexFrom(s, j)) == Backs(TextOf(s, t), LexFrom(s, i))
      decreases |s| - j
    {
      var more;
      more, j := Peek(s, j, "&");
      PeekMeans(s, j, "&", {'&'});
      if !more {
        return;
      }
      var _, _, k := GetToken(s, j);
      u, j := TBack(u), k;
    }
  }

  /** parseline */
  method ParseLine(s: string, i: nat) returns (r: Outcome)
    requires Clean(s) && i <= |s|
    ensures Agrees(s, i, r, ShSyntax.ParseLine(LexFrom(s, i)))
    decreases |s| - i, 2
  {
    r := ParsePipe(s, i);
    if r.Panic? {
      return;
    }
    var t, j := ParseBacks(s, r.at, r.tree);
    var more, l := Peek(s, j, ";");
    PeekMeans(s, l, ";", {';'});
    if !more {
      return Done(t, l);
    }
    var _, _, k := GetToken(s, l);
    var right := ParseLine(s, k);
    if right.Panic? {
      return right;
    }
    return Done(TList(t, right.tree), right.at);
  }

  // ---- NUL termination ----------------------------------------------------------------------------

  /** The positions just past the strings of a tree. */
  function EndsOf(t: Tree): set<nat> {
    match t
    case TExec(argv) => set i | 0 <= i < |argv| :: argv[i].eq
    case TRedir(d, file, _, _) => EndsOf(d) + {file.eq}
    case TPipe(a, b) => EndsOf(a) + EndsOf(b)
    case TList(a, b) => EndsOf(a) + EndsOf(b)
    case TBack(d) => EndsOf(d)
  }

  /** nulterminate: exactly the ends of the strings are overwritten. */
  method NulTerminate(buf: array<char>, t: Tree, ghost s: string)
    requires TreeOk(s, t) && |s| < buf.Length
    modifies buf
    ensures forall i :: 0 <= i < buf.Length ==> buf[i] == if i in EndsOf(t) then NUL else old(buf[i])
    decreases t
  {
    match t
    case TExec(argv) =>
      var k := 0;
      while k < |argv|
        invariant 0 <= k <= |argv|
        invariant forall i :: 0 <= i < buf.Length ==> buf[i] == if i in EndsOf(TExec(argv[..k])) then NUL else old(buf[i])
      {
        assert SpanOk(s, argv[k]);
        buf[argv[k].eq] := NUL;
        EndsSnoc(argv, k);
        k := k + 1;
      }
      assert argv[..k] == argv;
    case TRedir(d, file, _, _) =>
      NulTerminate(buf, d, s);
      buf[file.eq] := NUL;
    case TPipe(a, b) =>
      NulTerminate(buf, a, s);
      NulTerminate(buf, b, s);
    case TList(a, b) =>
      NulTerminate(buf, a, s);
      NulTerminate(buf, b, s);
    case TBack(d) =>
      NulTerminate(buf, d, s);
  }

  lemma EndsSnoc(argv: seq<Span>, k: nat)
    requires k < |argv|
    ensures EndsOf(TExec(argv[..k + 1])) == EndsOf(TExec(argv[..k])) + {argv[k].eq}
  {
    var before, after := argv[..k], argv[..k + 1];
    forall x ensures x in EndsOf(TExec(after)) <==> x in EndsOf(TExec(before)) + {argv[k].eq} {
      if x in EndsOf(TExec(before)) {
        var i :| 0 <= i < |before| && before[i].eq == x;
        assert after[i].eq == x;
      }
      assert after[k] == argv[k];
      if x in EndsOf(TExec(after)) {
        var i :| 0 <= i < |after| && after[i].eq == x;
        assert i < k ==> before[i].eq == x;
      }
    }
  }

  /** The C string at `q`. */
  function CString(b: string, q: nat): string
    decreases |b| - q
  {
    if q >= |b| || b[q] == NUL then [] else [b[q]] + CString(b, q + 1)
  }

  /** The command as runcmd will see it, through C strings. */
  function CText(b: string, t: Tree): Cmd {
    match t
    case TExec(argv) => Exec(seq(|argv|, i requires 0 <= i < |argv| => CString(b, argv[i].q)))
    case TRedir(d, file, mode, fd) => Redir(CText(b, d), CString(b, file.q), mode, fd)
    case TPipe(x, y) => Pipe(CText(b, x), CText(b, y))
    case TList(x, y) => List(CText(b, x), CText(b, y))
    case TBack(d) => Back(CText(b, d))
  }

  /** `b` is the line `s` with its final NUL, NULs put at `ends`; those are no part of any word. */
  predicate Terminated(s: string, b: string, ends: set<nat>) {
    && |b| == |s| + 1 && (forall i :: 0 <= i < |s| && i !in ends ==> b[i] == s[i])
    && (forall e :: e in ends ==> e <= |s| && b[e] == NUL && (e < |s| ==> !WordChar(s[e])))
  }

  lemma {:induction false} CStringIs(s: string, b: string, ends: set<nat>, p: Span, q: nat)
    requires Terminated(s, b, ends) && SpanOk(s, p) && p.eq in ends && p.q <= q <= p.eq
    ensures CString(b, q) == s[q..p.eq]
    decreases p.eq - q
  {
    if q < p.eq {
      CStringIs(s, b, ends, p, q + 1);
      assert s[q..p.eq] == [s[q]] + s[q + 1..p.eq];
    }
  }

  lemma {:induction false} CTextIs(s: string, b: string, ends: set<nat>, t: Tree)
    requires Terminated(s, b, ends) && TreeOk(s, t) && EndsOf(t) <= ends
    ensures CText(b, t) == TextOf(s, t)
  {
    match t
    case TExec(argv) =>
      forall i | 0 <= i < |argv| ensures CString(b, argv[i].q) == Texts(s, argv)[i] {
        assert argv[i].eq in EndsOf(t) && SpanOk(s, argv[i]);
        CStringIs(s, b, ends, argv[i], argv[i].q);
      }
      assert CText(b, t).args == Texts(s, argv);
    case TRedir(d, file, _, _) =>
      CTextIs(s, b, ends, d);
      CStringIs(s, b, ends, file, file.q);
    case TPipe(x, y) =>
      CTextIs(s, b, ends, x);
      CTextIs(s, b, ends, y);
    case TList(x, y) =>
      CTextIs(s, b, ends, x);
      CTextIs(s, b, ends, y);
    case TBack(d) => CTextIs(s, b, ends, d);
  }

  lemma {:induction false} EndsAreNoWords(s: string, t: Tree)
    requires TreeOk(s, t)
    ensures forall e :: e in EndsOf(t) ==> e <= |s| && (e < |s| ==> !WordChar(s[e]))
  {
    match t
    case TExec(argv) =>
      forall e | e in EndsOf(t) ensures e <= |s| && (e < |s| ==> !WordChar(s[e])) {
        var i :| 0 <= i < |argv| && argv[i].eq == e;
        assert SpanOk(s, argv[i]);
      }
    case TRedir(d, _, _, _) => EndsAreNoWords(s, d);
    case TPipe(x, y) =>
      EndsAreNoWords(s, x);
      EndsAreNoWords(s, y);
    case TList(x, y) =>
      EndsAreNoWords(s, x);
      EndsAreNoWords(s, y);
    case TBack(d) => EndsAreNoWords(s, d);
  }

  /** parsecmd: the tree's C strings are exactly the words of the line, and no character of any word
      is altered; a line the grammar refuses is a panic, before anything is written. */
  method ParseCmd(buf: array<char>, n: nat) returns (r: Outcome)
    requires n < buf.Length && buf.Length == n + 1 && buf[n] == NUL && Clean(buf[..n])
    modifies buf
    ensures var s := old(buf[..n]);
            match ShSyntax.ParseCmd(Lex(s))
            case Ok(c, _) => r.Done? && CText(buf[..], r.tree) == c && forall i :: 0 <= i < n && WordChar(s[i]) ==> buf[i] == s[i]
            case Err(e) => r == Panic(e) && buf[..] == old(buf[..])
  {
    var s := buf[..n];
    r := ParseLine(s, 0);
    if r.Panic? {
      return;
    }
    var _, j := Peek(s, r.at, "");
    if j != n {
      assert LexFrom(s, j) != Nil;
      return Panic(Leftovers);
    }
    assert LexFrom(s, j) == Nil;
    NulTerminate(buf, r.tree, s);
    EndsAreNoWords(s, r.tree);
    assert Terminated(s, buf[..], EndsOf(r.tree));
    CTextIs(s, buf[..], EndsOf(r.tree), r.tree);
  }
}
