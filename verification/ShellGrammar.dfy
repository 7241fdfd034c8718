/**
 The language that the parser of user/sh.c accepts, said without positions and without an order
 of reading: what the tokens of an input are, and which commands a sequence of tokens derives.
 */
module ShellGrammar {
  import opened Shell

  // ------------------------------------------------------------------
  // Tokens

  /** A token: its kind, as gettoken returns it, and where it lies. */
  datatype Lexeme = Lexeme(kind: char, q: nat, eq: nat)

  predicate Blank(s: string, a: nat, b: nat) {
    forall k :: a <= k < b && k < |s| ==> IsSpace(s[k])
  }

  /** A whole word, two arrows, or one symbol that is not the first of two arrows. */
  predicate IsLexeme(s: string, t: Lexeme) {
    && t.q < t.eq <= |s|
    && (|| (t.kind == 'a' && WordSpan(s, Span(t.q, t.eq)))
        || (t.kind == '+' && t.eq == t.q + 2 && s[t.q] == '>' && s[t.q + 1] == '>')
        || (t.eq == t.q + 1 && t.kind == s[t.q] && IsSymbol(s[t.q])
            && !(s[t.q] == '>' && t.eq < |s| && s[t.eq] == '>')))
  }

  /** From position i on the input is these tokens with nothing but white space before, between and after them. */
  predicate Lexing(s: string, i: nat, ts: seq<Lexeme>)
    decreases |ts|
  {
    if ts == [] then Blank(s, i, |s|)
    else i <= ts[0].q && Blank(s, i, ts[0].q) && IsLexeme(s, ts[0]) && Lexing(s, ts[0].eq, ts[1..])
  }

  /** The tokens gettoken returns one after the other. */
  function Lex(s: string, i: nat): seq<Lexeme>
    requires i <= |s| && IsText(s)
    decreases |s| - i
  {
    var t := GetTok(s, i);
    if t.kind == '\0' then [] else [Lexeme(t.kind, t.q, t.eq)] + Lex(s, t.next)
  }

  lemma {:induction false} LexSkip(s: string, i: nat)
    requires i <= |s| && IsText(s)
    ensures Lex(s, Skip(s, i)) == Lex(s, i)
  {
    hide GetTok, Skip;
    SkipFirst(s, i);
  }

  lemma {:induction false} SkipBlank(s: string, i: nat)
    requires i <= |s|
    ensures Blank(s, i, Skip(s, i))
    decreases |s| - i
  {
    if i < |s| && IsSpace(s[i]) {
      SkipBlank(s, i + 1);
    }
  }

  lemma {:induction false} SkipTo(s: string, i: nat, q: nat)
    requires i <= q <= |s| && Blank(s, i, q) && (q < |s| ==> !IsSpace(s[q]))
    ensures Skip(s, i) == q
    decreases q - i
  {
    if i < q {
      SkipTo(s, i + 1, q);
    }
  }

  lemma {:induction false} WordEndIs(s: string, i: nat, e: nat)
    requires i <= e <= |s| && (e < |s| ==> !InWord(s[e])) && forall k :: i <= k < e ==> InWord(s[k])
    ensures WordEnd(s, i) == e
    decreases e - i
  {
    if i < e {
      WordEndIs(s, i + 1, e);
    }
  }

  /** gettoken finds the token there is. */
  lemma {:induction false} TokenIs(s: string, i: nat, t: Lexeme)
    requires i <= t.q && IsText(s) && Blank(s, i, t.q) && IsLexeme(s, t)
    ensures i <= |s| && GetTok(s, i) == Token(t.kind, t.q, t.eq, Skip(s, t.eq)) && t.kind != '\0'
  {
    hide Skip;
    SkipTo(s, i, t.q);
    if t.kind == 'a' {
      WordEndIs(s, t.q, t.eq);
    }
  }

  lemma {:induction false} TokenFits(s: string, i: nat)
    requires i <= |s| && IsText(s) && GetTok(s, i).kind != '\0'
    ensures var t := GetTok(s, i);
            i <= t.q && Blank(s, i, t.q) && IsLexeme(s, Lexeme(t.kind, t.q, t.eq)) && t.next == Skip(s, t.eq)
  {
    SkipBlank(s, i);
  }

  lemma {:induction false} LexFits(s: string, i: nat)
    requires i <= |s| && IsText(s)
    ensures Lexing(s, i, Lex(s, i))
    decreases |s| - i
  {
    hide GetTok, Skip, Blank, IsLexeme;
    var t := GetTok(s, i);
    if t.kind == '\0' {
      NothingLeft(s, i);
    } else {
      TokenFits(s, i);
      LexSkip(s, t.eq);
      Longer(s, Lexeme(t.kind, t.q, t.eq));
      LexFits(s, t.eq);
    }
  }

  lemma Longer(s: string, t: Lexeme)
    requires IsLexeme(s, t)
    ensures t.q < t.eq <= |s|
  {
  }

  lemma {:induction false} NothingLeft(s: string, i: nat)
    requires i <= |s| && IsText(s)
    ensures GetTok(s, i).kind == '\0' <==> Blank(s, i, |s|)
  {
    SkipBlank(s, i);
    if Blank(s, i, |s|) {
      SkipTo(s, i, |s|);
    }
  }

  /** The tokens of an input are one sequence, the one gettoken gives. */
  lemma {:induction false} LexExactly(s: string, i: nat, ts: seq<Lexeme>)
    requires i <= |s| && IsText(s)
    ensures Lexing(s, i, ts) <==> ts == Lex(s, i)
    decreases |ts|
  {
    hide GetTok, Skip, Blank, IsLexeme;
    LexFits(s, i);
    NothingLeft(s, i);
    if Lexing(s, i, ts) && ts != [] {
      Longer(s, ts[0]);
      TokenIs(s, i, ts[0]);
      LexSkip(s, ts[0].eq);
      LexExactly(s, ts[0].eq, ts[1..]);
    }
  }

  // ------------------------------------------------------------------
  // The grammar

  predicate IsArrow(t: Lexeme) {
    t.kind in "<>+"
  }

  function SpanOf(t: Lexeme): Span {
    Span(t.q, t.eq)
  }

  /** Words, and arrows each with a word after it, in any order. */
  predicate Simple(ts: seq<Lexeme>) {
    || ts == []
    || (ts[0].kind == 'a' && Simple(ts[1..]))
    || (2 <= |ts| && IsArrow(ts[0]) && ts[1].kind == 'a' && Simple(ts[2..]))
  }

  /** The words that do not follow an arrow. */
  function Args(ts: seq<Lexeme>): seq<Span> {
    if ts == [] then []
    else if !IsArrow(ts[0]) then [SpanOf(ts[0])] + Args(ts[1..])
    else if |ts| == 1 then []
    else Args(ts[2..])
  }

  /** The words that follow one, with the kind of arrow. */
  function Files(ts: seq<Lexeme>): seq<Redirection<Span>> {
    if ts == [] then []
    else if !IsArrow(ts[0]) then Files(ts[1..])
    else if |ts| == 1 then []
    else [Redirection(SpanOf(ts[1]), ModeOf(ts[0].kind))] + Files(ts[2..])
  }

  /** Fewer than MAXARGS words, with redirections anywhere among them. */
  predicate SimpleCmd(ts: seq<Lexeme>, c: Cmd<Span>) {
    Simple(ts) && |Args(ts)| < MAXARGS && c == Wrap(Exec(Args(ts)), Files(ts))
  }

  /** A line in parentheses, then redirections. */
  ghost predicate Block(ts: seq<Lexeme>, c: Cmd<Span>)
    decreases |ts|, 0
  {
    && 2 <= |ts|
    && (|| (ts[0].kind == '(' && ts[|ts| - 1].kind == ')' && Line(ts[1..|ts| - 1], c))
        || (&& IsArrow(ts[|ts| - 2]) && ts[|ts| - 1].kind == 'a'
            && c.Redir? && c.file == SpanOf(ts[|ts| - 1]) && c.mode == ModeOf(ts[|ts| - 2].kind)
            && Block(ts[..|ts| - 2], c.cmd)))
  }

  ghost predicate Operand(ts: seq<Lexeme>, c: Cmd<Span>)
    decreases |ts|, 1
  {
    SimpleCmd(ts, c) || Block(ts, c)
  }

  ghost predicate Pipeline(ts: seq<Lexeme>, c: Cmd<Span>)
    decreases |ts|, 2
  {
    || Operand(ts, c)
    || (c.Pipe? && exists k :: 0 <= k < |ts| && ts[k].kind == '|' && Operand(ts[..k], c.left)
                               && Pipeline(ts[k + 1..], c.right))
  }

  ghost predicate Backgrounds(ts: seq<Lexeme>, c: Cmd<Span>)
    decreases |ts|, 3
  {
    || Pipeline(ts, c)
    || (ts != [] && ts[|ts| - 1].kind == '&' && c.Back? && Backgrounds(ts[..|ts| - 1], c.cmd))
  }

  ghost predicate Line(ts: seq<Lexeme>, c: Cmd<Span>)
    decreases |ts|, 4
  {
    || Backgrounds(ts, c)
    || (c.List? && exists k :: 0 <= k < |ts| && ts[k].kind == ';' && Backgrounds(ts[..k], c.left)
                               && Line(ts[k + 1..], c.right))
  }

  // ------------------------------------------------------------------
  // Sequences of tokens

  lemma {:induction false} FirstOf(ts: seq<Lexeme>)
    ensures ts == [] ==> Simple(ts) && Args(ts) == [] && Files(ts) == []
    ensures ts != [] && !IsArrow(ts[0]) ==>
              && (Simple(ts) <==> ts[0].kind == 'a' && Simple(ts[1..]))
              && Args(ts) == [SpanOf(ts[0])] + Args(ts[1..]) && Files(ts) == Files(ts[1..])
    ensures ts != [] && IsArrow(ts[0]) ==>
              (Simple(ts) <==> 2 <= |ts| && ts[1].kind == 'a' && Simple(ts[2..]))
    ensures 2 <= |ts| && IsArrow(ts[0]) ==>
              Args(ts) == Args(ts[2..]) &&
                  Files(ts) == [Redirection(SpanOf(ts[1]), ModeOf(ts[0].kind))] + Files(ts[2..])
  {
  }

  lemma {:induction false} Append(a: seq<Lexeme>, b: seq<Lexeme>)
    requires Simple(a) && Simple(b)
    ensures Simple(a + b) && Args(a + b) == Args(a) + Args(b) && Files(a + b) == Files(a) + Files(b)
    decreases |a|
  {
    hide Simple, Args, Files, IsArrow, ModeOf;
    FirstOf(a);
    FirstOf(a + b);
    if a == [] {
      assert a + b == b;
    } else if IsArrow(a[0]) {
      assert (a + b)[2..] == a[2..] + b;
      Append(a[2..], b);
    } else {
      assert (a + b)[1..] == a[1..] + b;
      Append(a[1..], b);
    }
  }

  lemma {:induction false} WrapFront(c: Cmd<Span>, r: Redirection<Span>, rs: seq<Redirection<Span>>)
    ensures Wrap(c, [r] + rs) == Wrap(Redir(c, r.file, r.mode), rs)
    decreases |rs|
  {
    var all := [r] + rs;
    if rs == [] {
      assert all[..|all| - 1] == [];
    } else {
      assert all[..|all| - 1] == [r] + rs[..|rs| - 1];
      WrapFront(c, r, rs[..|rs| - 1]);
    }
  }

  // ------------------------------------------------------------------
  // The tokens at a position

  /** Reading ts from position i leads to position p. */
  predicate Reads(s: string, i: nat, ts: seq<Lexeme>, p: nat)
    requires IsText(s)
  {
    i <= |s| && p <= |s| && Lex(s, i) == ts + Lex(s, p)
  }

  lemma {:induction false} ReadsChain(s: string, i: nat, a: seq<Lexeme>, p: nat, b: seq<Lexeme>, q: nat)
    requires IsText(s) && Reads(s, i, a, p) && Reads(s, p, b, q)
    ensures Reads(s, i, a + b, q)
  {
    hide Lex;
  }

  lemma {:induction false} ReadsNone(s: string, i: nat)
    requires IsText(s) && i <= |s|
    ensures Reads(s, i, [], i) && Reads(s, i, [], Skip(s, i))
  {
    hide Lex;
    LexSkip(s, i);
    assert [] + Lex(s, i) == Lex(s, i);
  }

  /** What gettoken and peek say of the next token. */
  lemma {:induction false} NextToken(s: string, i: nat)
    requires IsText(s) && i <= |s|
    ensures var t := GetTok(s, i);
            && (t.kind == '\0' <==> Lex(s, i) == [])
            && (t.kind != '\0' ==>
                  && Reads(s, i, [Lexeme(t.kind, t.q, t.eq)], t.next) && i < t.next
                  && Lex(s, i)[0] == Lexeme(t.kind, t.q, t.eq) && Lex(s, i)[1..] == Lex(s, t.next))
    ensures GetTok(s, Skip(s, i)) == GetTok(s, i)
  {
    SkipFirst(s, i);
  }

  /** The first token starts with one of these characters. */
  predicate Heads(ts: seq<Lexeme>, toks: string) {
    ts != [] && (ts[0].kind in toks || (ts[0].kind == '+' && '>' in toks))
  }

  lemma {:induction false} PeekHeads(s: string, i: nat, toks: string)
    requires IsText(s) && i <= |s| && forall k :: 0 <= k < |toks| ==> IsSymbol(toks[k])
    ensures PeekIs(s, i, toks) <==> Heads(Lex(s, i), toks)
  {
  }

  // ------------------------------------------------------------------
  // What the parser accepts is derived

  lemma {:induction false} RedirsSound(s: string, i: nat) returns (ts: seq<Lexeme>)
    requires IsText(s) && i <= |s| && RedirsAt(s, i).Redirs?
    ensures Reads(s, i, ts, RedirsAt(s, i).pos) && Simple(ts) && Args(ts) == [] && Files(ts) == RedirsAt(s, i).rs
    decreases |s| - i
  {
    hide Lex, GetTok, Skip, PeekIs, Simple, Args, Files, Reads, ModeOf;
    PeekHeads(s, i, "<>");
    NextToken(s, i);
    if !PeekIs(s, i, "<>") {
      ReadsNone(s, i);
      FirstOf([]);
      return [];
    }
    var t := GetTok(s, i);
    var f := GetTok(s, t.next);
    NextToken(s, t.next);
    var more := RedirsSound(s, f.next);
    var arrow, file := Lexeme(t.kind, t.q, t.eq), Lexeme(f.kind, f.q, f.eq);
    ts := [arrow] + ([file] + more);
    ReadsChain(s, t.next, [file], f.next, more, RedirsAt(s, i).pos);
    ReadsChain(s, i, [arrow], t.next, [file] + more, RedirsAt(s, i).pos);
    assert ts[2..] == more;
    FirstOf(ts);
  }

  lemma {:induction false} ArgsSound(s: string, i: nat, args: seq<Span>, rs: seq<Redirection<Span>>)
      returns (ts: seq<Lexeme>)
    requires IsText(s) && i <= |s| && ArgsAt(s, i, args, rs).Ok? && |args| < MAXARGS
    ensures Reads(s, i, ts, ArgsAt(s, i, args, rs).pos) && Simple(ts) && |args| + |Args(ts)| < MAXARGS
    ensures ArgsAt(s, i, args, rs).cmd == Wrap(Exec(args + Args(ts)), rs + Files(ts))
    decreases |s| - i
  {
    hide Lex, GetTok, Skip, PeekIs, RedirsAt, Simple, Args, Files, Reads, Wrap;
    NextToken(s, i);
    var t := GetTok(s, i);
    FirstOf([]);
    assert args + [] == args && rs + [] == rs;
    if PeekIs(s, i, "|)&;") {
      ReadsNone(s, i);
      return [];
    }
    if t.kind == '\0' {
      AtEnd(s, i);
      return [];
    }
    var w, rr := Lexeme(t.kind, t.q, t.eq), RedirsAt(s, t.next);
    var reds := RedirsSound(s, t.next);
    var more := ArgsSound(s, rr.pos, args + [Span(t.q, t.eq)], rs + rr.rs);
    ts := [w] + (reds + more);
    ReadsChain(s, t.next, reds, rr.pos, more, ArgsAt(s, i, args, rs).pos);
    ReadsChain(s, i, [w], t.next, reds + more, ArgsAt(s, i, args, rs).pos);
    Append(reds, more);
    FirstOf(ts);
    assert ts[1..] == reds + more;
    assert args + Args(ts) == args + [Span(t.q, t.eq)] + Args(more);
    assert rs + Files(ts) == rs + rr.rs + Files(more);
  }

  lemma {:induction false} AtEnd(s: string, i: nat)
    requires IsText(s) && i <= |s| && GetTok(s, i).kind == '\0'
    ensures Reads(s, i, [], GetTok(s, i).next) && Lex(s, GetTok(s, i).next) == []
  {
  }

  /** Redirections after a block. */
  lemma {:induction false} BlockWrap(pre: seq<Lexeme>, c: Cmd<Span>, reds: seq<Lexeme>)
    requires Block(pre, c) && Simple(reds) && Args(reds) == []
    ensures Block(pre + reds, Wrap(c, Files(reds)))
    decreases |reds|
  {
    hide Simple, Args, Files, ModeOf, Wrap;
    FirstOf(reds);
    if reds == [] {
      assert pre + reds == pre;
      NoWrap(c);
    } else {
      var c', pre' := Redir(c, SpanOf(reds[1]), ModeOf(reds[0].kind)), pre + reds[..2];
      assert pre'[..|pre'| - 2] == pre && Block(pre', c');
      BlockWrap(pre', c', reds[2..]);
      assert pre' + reds[2..] == pre + reds;
      WrapFront(c, Redirection(SpanOf(reds[1]), ModeOf(reds[0].kind)), Files(reds[2..]));
    }
  }

  lemma NoWrap(c: Cmd<Span>)
    ensures Wrap(c, []) == c
  {
  }

  lemma {:induction false} ExecSound(s: string, i: nat) returns (ts: seq<Lexeme>)
    requires IsText(s) && i <= |s| && ExecAt(s, i).Ok?
    ensures Reads(s, i, ts, ExecAt(s, i).pos) && Operand(ts, ExecAt(s, i).cmd)
    decreases |s| - i, 1
  {
    hide Lex, GetTok, Skip, PeekIs, RedirsAt, ArgsAt, BlockAt, Simple, Args, Files, Reads, Wrap, Block;
    if PeekIs(s, i, "(") {
      ts := BlockSound(s, i);
      return;
    }
    var j := Skip(s, i);
    var rr := RedirsAt(s, j);
    ReadsNone(s, i);
    var reds := RedirsSound(s, j);
    var more := ArgsSound(s, rr.pos, [], rr.rs);
    ts := reds + more;
    ReadsChain(s, j, reds, rr.pos, more, ExecAt(s, i).pos);
    ReadsChain(s, i, [], j, ts, ExecAt(s, i).pos);
    assert [] + ts == ts && [] + Args(more) == Args(more);
    Append(reds, more);
    assert SimpleCmd(ts, ExecAt(s, i).cmd);
  }

  lemma {:induction false} BlockSound(s: string, i: nat) returns (ts: seq<Lexeme>)
    requires IsText(s) && i <= |s| && BlockAt(s, i).Ok?
    ensures Reads(s, i, ts, BlockAt(s, i).pos) && Block(ts, BlockAt(s, i).cmd)
    decreases |s| - i, 0
  {
    hide Lex, GetTok, Skip, PeekIs, RedirsAt, LineAt, Simple, Args, Files, Reads, Wrap, Line;
    PeekHeads(s, i, "(");
    NextToken(s, i);
    var o := GetTok(s, i);
    var l := LineAt(s, o.next);
    var line := LineSound(s, o.next);
    PeekHeads(s, l.pos, ")");
    NextToken(s, l.pos);
    var e := GetTok(s, l.pos);
    var reds := RedirsSound(s, e.next);
    var open, close := Lexeme(o.kind, o.q, o.eq), Lexeme(e.kind, e.q, e.eq);
    var pre := [open] + line + [close];
    assert pre[1..|pre| - 1] == line;
    assert Block(pre, l.cmd);
    BlockWrap(pre, l.cmd, reds);
    ts := pre + reds;
    ReadsChain(s, i, [open], o.next, line, l.pos);
    ReadsChain(s, i, [open] + line, l.pos, [close], e.next);
    ReadsChain(s, i, pre, e.next, reds, BlockAt(s, i).pos);
  }

  lemma {:induction false} PipeSound(s: string, i: nat) returns (ts: seq<Lexeme>)
    requires IsText(s) && i <= |s| && PipeAt(s, i).Ok?
    ensures Reads(s, i, ts, PipeAt(s, i).pos) && Pipeline(ts, PipeAt(s, i).cmd)
    decreases |s| - i, 2
  {
    hide Lex, GetTok, Skip, PeekIs, ExecAt, Reads, Operand;
    var e := ExecAt(s, i);
    var first := ExecSound(s, i);
    PeekHeads(s, e.pos, "|");
    NextToken(s, e.pos);
    if !PeekIs(s, e.pos, "|") {
      ts := first;
      ReadsNone(s, e.pos);
      ReadsChain(s, i, ts, e.pos, [], PipeAt(s, i).pos);
      assert ts + [] == ts;
      return;
    }
    var t := GetTok(s, e.pos);
    var bar := Lexeme(t.kind, t.q, t.eq);
    var more := PipeSound(s, t.next);
    ts := first + [bar] + more;
    ReadsChain(s, i, first, e.pos, [bar], t.next);
    ReadsChain(s, i, first + [bar], t.next, more, PipeAt(s, i).pos);
    assert ts[|first|] == bar && ts[..|first|] == first && ts[|first| + 1..] == more;
  }

  lemma {:induction false} BacksSound(s: string, i: nat, c: Cmd<Span>, pre: seq<Lexeme>) returns (ts: seq<Lexeme>)
    requires IsText(s) && i <= |s| && Backgrounds(pre, c)
    ensures Reads(s, i, ts, BacksAt(s, i, c).pos) && Backgrounds(pre + ts, BacksAt(s, i, c).cmd)
    decreases |s| - i
  {
    hide Lex, GetTok, Skip, PeekIs, Reads, Pipeline;
    PeekHeads(s, i, "&");
    NextToken(s, i);
    if !PeekIs(s, i, "&") {
      ReadsNone(s, i);
      assert pre + [] == pre;
      return [];
    }
    var t := GetTok(s, i);
    var amp := Lexeme(t.kind, t.q, t.eq);
    assert (pre + [amp])[..|pre|] == pre && Backgrounds(pre + [amp], Back(c));
    var more := BacksSound(s, t.next, Back(c), pre + [amp]);
    ts := [amp] + more;
    ReadsChain(s, i, [amp], t.next, more, BacksAt(s, i, c).pos);
    assert pre + ts == pre + [amp] + more;
  }

  lemma {:induction false} LineSound(s: string, i: nat) returns (ts: seq<Lexeme>)
    requires IsText(s) && i <= |s| && LineAt(s, i).Ok?
    ensures Reads(s, i, ts, LineAt(s, i).pos) && Line(ts, LineAt(s, i).cmd)
    decreases |s| - i, 3
  {
    hide Lex, GetTok, Skip, PeekIs, PipeAt, BacksAt, Reads, Pipeline, Backgrounds;
    var p := PipeAt(s, i);
    var pipe := PipeSound(s, i);
    OnlyPipe(pipe, p.cmd);
    var b := BacksAt(s, p.pos, p.cmd);
    var amps := BacksSound(s, p.pos, p.cmd, pipe);
    var first := pipe + amps;
    ReadsChain(s, i, pipe, p.pos, amps, b.pos);
    PeekHeads(s, b.pos, ";");
    NextToken(s, b.pos);
    if !PeekIs(s, b.pos, ";") {
      ts := first;
      ReadsNone(s, b.pos);
      ReadsChain(s, i, ts, b.pos, [], LineAt(s, i).pos);
      assert ts + [] == ts;
      return;
    }
    var t := GetTok(s, b.pos);
    var semi := Lexeme(t.kind, t.q, t.eq);
    var more := LineSound(s, t.next);
    ts := first + [semi] + more;
    ReadsChain(s, i, first, b.pos, [semi], t.next);
    ReadsChain(s, i, first + [semi], t.next, more, LineAt(s, i).pos);
    assert ts[|first|] == semi && ts[..|first|] == first && ts[|first| + 1..] == more;
  }

  lemma OnlyPipe(ts: seq<Lexeme>, c: Cmd<Span>)
    requires Pipeline(ts, c)
    ensures Backgrounds(ts, c)
  {
  }

  // ------------------------------------------------------------------
  // What is derived the parser accepts

  /** What follows an operand ends it. */
  predicate Stops(rest: seq<Lexeme>, toks: string) {
    rest == [] || rest[0].kind in toks
  }

  /** The redirections before the next word are read and no more. */
  lemma {:induction false} RedirsComplete(s: string, i: nat, ts: seq<Lexeme>, rest: seq<Lexeme>)
      returns (more: seq<Lexeme>)
    requires IsText(s) && i <= |s| && Lex(s, i) == ts + rest && Simple(ts) && Stops(rest, "|)&;")
    ensures RedirsAt(s, i).Redirs? && Lex(s, RedirsAt(s, i).pos) == more + rest
    ensures Simple(more) && (more != [] ==> more[0].kind == 'a') && |more| <= |ts|
    ensures Args(more) == Args(ts) && Files(ts) == RedirsAt(s, i).rs + Files(more)
    decreases |ts|
  {
    hide Lex, GetTok, Skip, PeekIs, Simple, Args, Files, Reads, ModeOf;
    PeekHeads(s, i, "<>");
    NextToken(s, i);
    FirstOf(ts);
    if ts == [] {
      assert ts + rest == rest;
    }
    if ts == [] || !IsArrow(ts[0]) {
      more := ts;
      LexSkip(s, i);
      return;
    }
    var t := GetTok(s, i);
    assert Lex(s, t.next) == (ts + rest)[1..] == ts[1..] + rest;
    NextToken(s, t.next);
    var f := GetTok(s, t.next);
    assert Lex(s, f.next) == (ts[1..] + rest)[1..] == ts[2..] + rest;
    more := RedirsComplete(s, f.next, ts[2..], rest);
  }

  lemma {:induction false} ArgsComplete(s: string, i: nat, args: seq<Span>, rs: seq<Redirection<Span>>,
      ts: seq<Lexeme>, rest: seq<Lexeme>)
    requires IsText(s) && i <= |s| && Lex(s, i) == ts + rest && Simple(ts) && Stops(rest, "|)&;")
    requires (ts != [] ==> ts[0].kind == 'a') && |args| + |Args(ts)| < MAXARGS
    ensures var r := ArgsAt(s, i, args, rs);
            r.Ok? && Lex(s, r.pos) == rest && r.cmd == Wrap(Exec(args + Args(ts)), rs + Files(ts))
    decreases |ts|
  {
    hide Lex, GetTok, Skip, PeekIs, RedirsAt, Simple, Args, Files, Reads, Wrap;
    PeekHeads(s, i, "|)&;");
    NextToken(s, i);
    FirstOf(ts);
    var t := GetTok(s, i);
    if ts == [] {
      assert ts + rest == rest;
      assert args + Args(ts) == args && rs + Files(ts) == rs;
      LexSkip(s, i);
      if t.kind == '\0' {
        AtEnd(s, i);
      }
      return;
    }
    assert Lex(s, t.next) == (ts + rest)[1..] == ts[1..] + rest;
    var rr := RedirsAt(s, t.next);
    var more := RedirsComplete(s, t.next, ts[1..], rest);
    var w := Span(t.q, t.eq);
    ArgsComplete(s, rr.pos, args + [w], rs + rr.rs, more, rest);
    assert args + [w] + Args(more) == args + Args(ts);
    assert rs + rr.rs + Files(more) == rs + Files(ts);
  }

  lemma {:induction false} SimpleComplete(s: string, i: nat, ts: seq<Lexeme>, c: Cmd<Span>, rest: seq<Lexeme>)
    requires IsText(s) && i <= |s| && Lex(s, i) == ts + rest && SimpleCmd(ts, c) && Stops(rest, "|)&;")
    ensures var r := ExecAt(s, i); r.Ok? && Lex(s, r.pos) == rest && r.cmd == c
  {
    hide Lex, GetTok, Skip, PeekIs, RedirsAt, ArgsAt, Simple, Args, Files, Reads, Wrap;
    PeekHeads(s, i, "(");
    FirstOf(ts);
    if ts == [] {
      assert ts + rest == rest;
    }
    LexSkip(s, i);
    var rr := RedirsAt(s, Skip(s, i));
    var more := RedirsComplete(s, Skip(s, i), ts, rest);
    ArgsComplete(s, rr.pos, [], rr.rs, more, rest);
    assert [] + Args(more) == Args(ts);
  }

  /** A block is a line in parentheses and redirections. */
  lemma {:induction false} BlockSplit(ts: seq<Lexeme>, c: Cmd<Span>) returns (k: nat, d: Cmd<Span>)
    requires Block(ts, c)
    ensures 1 <= k < |ts| && ts[0].kind == '(' && ts[k].kind == ')' && Line(ts[1..k], d)
    ensures Simple(ts[k + 1..]) && Args(ts[k + 1..]) == [] && c == Wrap(d, Files(ts[k + 1..]))
    decreases |ts|
  {
    hide Simple, Args, Files, ModeOf, Wrap, Line;
    var n := |ts|;
    FirstOf([]);
    NoWrap(c);
    if ts[0].kind == '(' && ts[n - 1].kind == ')' && Line(ts[1..n - 1], c) {
      assert ts[n..] == [];
      return n - 1, c;
    }
    var pre := ts[..n - 2];
    k, d := BlockSplit(pre, c.cmd);
    assert ts[1..k] == pre[1..k];
    assert ts[k + 1..n - 2] == pre[k + 1..] && ts[k + 1..] == ts[k + 1..n - 2] + ts[n - 2..];
    LastRedir(ts[k + 1..n - 2], ts[n - 2..], d);
  }

  lemma {:induction false} LastRedir(reds: seq<Lexeme>, last: seq<Lexeme>, d: Cmd<Span>)
    requires Simple(reds) && Args(reds) == [] && |last| == 2 && IsArrow(last[0]) && last[1].kind == 'a'
    ensures Simple(reds + last) && Args(reds + last) == []
    ensures Wrap(d, Files(reds + last)) == Redir(Wrap(d, Files(reds)), SpanOf(last[1]), ModeOf(last[0].kind))
  {
    hide Simple, Args, Files, ModeOf, Wrap;
    FirstOf([]);
    FirstOf(last);
    assert last[2..] == [];
    Append(reds, last);
    var r := Redirection(SpanOf(last[1]), ModeOf(last[0].kind));
    assert Args(last) == [] && Files(last) == [r];
    WrapLast(d, Files(reds), r);
  }

  lemma WrapLast(d: Cmd<Span>, rs: seq<Redirection<Span>>, r: Redirection<Span>)
    ensures Wrap(d, rs + [r]) == Redir(Wrap(d, rs), r.file, r.mode)
  {
    assert (rs + [r])[..|rs|] == rs;
  }

  lemma {:induction false} BlockComplete(s: string, i: nat, ts: seq<Lexeme>, c: Cmd<Span>, rest: seq<Lexeme>)
    requires IsText(s) && i <= |s| && Lex(s, i) == ts + rest && Block(ts, c) && Stops(rest, "|)&;")
    ensures var r := ExecAt(s, i); r.Ok? && Lex(s, r.pos) == rest && r.cmd == c
    decreases |ts|, 0
  {
    hide Lex, GetTok, Skip, PeekIs, RedirsAt, LineAt, Simple, Args, Files, Reads, Wrap, Line, Block;
    var k, d := BlockSplit(ts, c);
    var line, reds := ts[1..k], ts[k + 1..];
    PeekHeads(s, i, "(");
    NextToken(s, i);
    var o := GetTok(s, i);
    assert Lex(s, o.next) == (ts + rest)[1..] == line + ([ts[k]] + reds + rest);
    LineComplete(s, o.next, line, d, [ts[k]] + reds + rest);
    var l := LineAt(s, o.next);
    PeekHeads(s, l.pos, ")");
    NextToken(s, l.pos);
    var e := GetTok(s, l.pos);
    assert Lex(s, e.next) == ([ts[k]] + reds + rest)[1..] == reds + rest;
    var more := RedirsComplete(s, e.next, reds, rest);
    NoWords(more);
    assert [] + rest == rest && RedirsAt(s, e.next).rs + [] == RedirsAt(s, e.next).rs;
  }

  lemma NoWords(ts: seq<Lexeme>)
    requires Args(ts) == [] && (ts != [] ==> ts[0].kind == 'a')
    ensures ts == [] && Files(ts) == []
  {
  }

  lemma {:induction false} OperandComplete(s: string, i: nat, ts: seq<Lexeme>, c: Cmd<Span>, rest: seq<Lexeme>)
    requires IsText(s) && i <= |s| && Lex(s, i) == ts + rest && Operand(ts, c) && Stops(rest, "|)&;")
    ensures var r := ExecAt(s, i); r.Ok? && Lex(s, r.pos) == rest && r.cmd == c
    decreases |ts|, 1
  {
    hide Lex, ExecAt, SimpleCmd, Block;
    if SimpleCmd(ts, c) {
      SimpleComplete(s, i, ts, c, rest);
    } else {
      BlockComplete(s, i, ts, c, rest);
    }
  }

  lemma {:induction false} PipeComplete(s: string, i: nat, ts: seq<Lexeme>, c: Cmd<Span>, rest: seq<Lexeme>)
    requires IsText(s) && i <= |s| && Lex(s, i) == ts + rest && Pipeline(ts, c) && Stops(rest, ")&;")
    ensures var r := PipeAt(s, i); r.Ok? && Lex(s, r.pos) == rest && r.cmd == c
    decreases |ts|, 2
  {
    hide Lex, GetTok, Skip, PeekIs, ExecAt, Operand;
    var e := ExecAt(s, i);
    if Operand(ts, c) {
      OperandComplete(s, i, ts, c, rest);
      PeekHeads(s, e.pos, "|");
      LexSkip(s, e.pos);
    } else {
      var k :| 0 <= k < |ts| && ts[k].kind == '|' && Operand(ts[..k], c.left) && Pipeline(ts[k + 1..], c.right);
      var more := [ts[k]] + ts[k + 1..] + rest;
      assert ts + rest == ts[..k] + more;
      OperandComplete(s, i, ts[..k], c.left, more);
      PeekHeads(s, e.pos, "|");
      NextToken(s, e.pos);
      assert more[1..] == ts[k + 1..] + rest;
      PipeComplete(s, GetTok(s, e.pos).next, ts[k + 1..], c.right, rest);
    }
  }

  /** Ampersands after a pipeline. */
  lemma {:induction false} BackgroundsSplit(ts: seq<Lexeme>, c: Cmd<Span>) returns (k: nat, d: Cmd<Span>)
    requires Backgrounds(ts, c)
    ensures k <= |ts| && Pipeline(ts[..k], d) && c == BackN(d, |ts| - k)
    ensures forall j :: k <= j < |ts| ==> ts[j].kind == '&'
    decreases |ts|
  {
    hide Pipeline;
    var n := |ts|;
    if Pipeline(ts, c) {
      assert ts[..n] == ts;
      return n, c;
    }
    k, d := BackgroundsSplit(ts[..n - 1], c.cmd);
    assert ts[..n - 1][..k] == ts[..k];
  }

  lemma {:induction false} BacksComplete(s: string, i: nat, c: Cmd<Span>, amps: seq<Lexeme>, rest: seq<Lexeme>)
    requires IsText(s) && i <= |s| && Lex(s, i) == amps + rest && Stops(rest, ");")
    requires forall j :: 0 <= j < |amps| ==> amps[j].kind == '&'
    ensures var r := BacksAt(s, i, c); Lex(s, r.pos) == rest && r.cmd == BackN(c, |amps|)
    decreases |amps|
  {
    hide Lex, GetTok, Skip, PeekIs;
    PeekHeads(s, i, "&");
    NextToken(s, i);
    if amps == [] {
      assert amps + rest == rest;
      LexSkip(s, i);
    } else {
      assert (amps + rest)[1..] == amps[1..] + rest;
      BacksComplete(s, GetTok(s, i).next, Back(c), amps[1..], rest);
      BackOut(c, |amps| - 1);
    }
  }

  lemma {:induction false} BackgroundsComplete(s: string, i: nat, ts: seq<Lexeme>, c: Cmd<Span>, rest: seq<Lexeme>)
    requires IsText(s) && i <= |s| && Lex(s, i) == ts + rest && Backgrounds(ts, c) && Stops(rest, ");")
    ensures var p := PipeAt(s, i);
            p.Ok? && var b := BacksAt(s, p.pos, p.cmd); Lex(s, b.pos) == rest && b.cmd == c
    decreases |ts|, 3
  {
    hide Lex, PipeAt, BacksAt, Pipeline, Backgrounds, BackN;
    var k, d := BackgroundsSplit(ts, c);
    var amps := ts[k..];
    assert ts + rest == ts[..k] + (amps + rest);
    assert amps == [] ==> amps + rest == rest;
    PipeComplete(s, i, ts[..k], d, amps + rest);
    BacksComplete(s, PipeAt(s, i).pos, d, amps, rest);
  }

  lemma {:induction false} LineComplete(s: string, i: nat, ts: seq<Lexeme>, c: Cmd<Span>, rest: seq<Lexeme>)
    requires IsText(s) && i <= |s| && Lex(s, i) == ts + rest && Line(ts, c) && Stops(rest, ")")
    ensures var r := LineAt(s, i); r.Ok? && Lex(s, r.pos) == rest && r.cmd == c
    decreases |ts|, 4
  {
    hide Lex, GetTok, Skip, PeekIs, PipeAt, BacksAt, Backgrounds;
    if Backgrounds(ts, c) {
      BackgroundsComplete(s, i, ts, c, rest);
      var b := BacksAt(s, PipeAt(s, i).pos, PipeAt(s, i).cmd);
      PeekHeads(s, b.pos, ";");
      LexSkip(s, b.pos);
    } else {
      var k :| 0 <= k < |ts| && ts[k].kind == ';' && Backgrounds(ts[..k], c.left) && Line(ts[k + 1..], c.right);
      var more := [ts[k]] + ts[k + 1..] + rest;
      assert ts + rest == ts[..k] + more;
      BackgroundsComplete(s, i, ts[..k], c.left, more);
      var b := BacksAt(s, PipeAt(s, i).pos, PipeAt(s, i).cmd);
      PeekHeads(s, b.pos, ";");
      NextToken(s, b.pos);
      assert more[1..] == ts[k + 1..] + rest;
      LineComplete(s, GetTok(s, b.pos).next, ts[k + 1..], c.right, rest);
    }
  }

  // ------------------------------------------------------------------
  // The language

  /** The parser accepts an input with a command exactly when the input's tokens derive the command as a line. */
  lemma {:induction false} ParsesExactly(s: string, ts: seq<Lexeme>, c: Cmd<Span>)
    requires IsText(s) && Lexing(s, 0, ts)
    ensures CmdAt(s) == Ok(c, |s|) <==> Line(ts, c)
  {
    hide Lex, Lexing, LineAt, Line, Skip, GetTok;
    LexExactly(s, 0, ts);
    var l := LineAt(s, 0);
    if l.Ok? {
      LexSkip(s, l.pos);
      SkipTwice(s, l.pos);
      EmptyAtEnd(s, Skip(s, l.pos));
    }
    if CmdAt(s) == Ok(c, |s|) {
      var all := LineSound(s, 0);
      assert all + [] == all;
    }
    if Line(ts, c) {
      assert ts + [] == ts;
      LineComplete(s, 0, ts, c, []);
    }
  }

  lemma {:induction false} EmptyAtEnd(s: string, i: nat)
    requires IsText(s) && i <= |s| && Skip(s, i) == i
    ensures Lex(s, i) == [] <==> i == |s|
  {
  }

  /** It panics exactly when the tokens derive nothing, and they derive at most one command. */
  lemma {:induction false} PanicsExactly(s: string, ts: seq<Lexeme>)
    requires IsText(s) && Lexing(s, 0, ts)
    ensures CmdAt(s) == Panic <==> forall c :: !Line(ts, c)
    ensures forall c, d :: Line(ts, c) && Line(ts, d) ==> c == d
  {
    hide Line, Lexing, LineAt;
    forall c ensures CmdAt(s) == Ok(c, |s|) <==> Line(ts, c) {
      ParsesExactly(s, ts, c);
    }
    if CmdAt(s).Ok? {
      assert Line(ts, CmdAt(s).cmd);
    }
  }
}
