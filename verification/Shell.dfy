/**
 The command parser of user/sh.c.  Words are spans of the input buffer, as the source
 keeps a pointer to each end; a panic is a result.  The parse methods are proved
 against functions of the input and a position in it.
 */
module Shell {

  const MAXARGS: nat := 10

  datatype Mode = Read | Write | Append

  datatype Span = Span(q: nat, eq: nat)

  /** A command whose words are of type T: spans of the buffer, or the strings they stand for. */
  datatype Cmd<T> =
    | Exec(args: seq<T>)
    | Redir(cmd: Cmd<T>, file: T, mode: Mode)
    | Pipe(left: Cmd<T>, right: Cmd<T>)
    | List(left: Cmd<T>, right: Cmd<T>)
    | Back(cmd: Cmd<T>)

  datatype Redirection<T> = Redirection(file: T, mode: Mode)

  /** Redirections around a command, the first innermost. */
  function Wrap<T>(c: Cmd<T>, rs: seq<Redirection<T>>): Cmd<T> {
    if rs == [] then c else Redir(Wrap(c, rs[..|rs| - 1]), rs[|rs| - 1].file, rs[|rs| - 1].mode)
  }

  // ------------------------------------------------------------------
  // Tokens

  predicate IsSpace(c: char) {
    c in " \t\r\n\U{0B}"
  }

  predicate IsSymbol(c: char) {
    c in "<|>&;()"
  }

  /** A C string: no NUL inside. */
  predicate IsText(s: string) {
    forall i :: 0 <= i < |s| ==> s[i] != '\0'
  }

  function Skip(s: string, i: nat): (j: nat)
    requires i <= |s|
    ensures i <= j <= |s| && (j < |s| ==> !IsSpace(s[j]))
    decreases |s| - i
  {
    if i < |s| && IsSpace(s[i]) then Skip(s, i + 1) else i
  }

  predicate InWord(c: char) {
    !IsSpace(c) && !IsSymbol(c)
  }

  function WordEnd(s: string, i: nat): (j: nat)
    requires i <= |s|
    ensures i <= j <= |s| && (j < |s| ==> !InWord(s[j])) && forall k :: i <= k < j ==> InWord(s[k])
    decreases |s| - i
  {
    if i < |s| && InWord(s[i]) then WordEnd(s, i + 1) else i
  }

  /** What gettoken returns: the kind of token, its span, and where the next one starts. */
  datatype Token = Token(kind: char, q: nat, eq: nat, next: nat)

  function GetTok(s: string, i: nat): (t: Token)
    requires i <= |s| && IsText(s)
    ensures i <= t.q <= t.eq <= t.next <= |s| && (t.q < |s| ==> i < t.next) && (t.kind == '\0' <==> t.q == |s|)
    ensures t.kind == 'a' ==> t.q < t.eq
  {
    var j := Skip(s, i);
    if j == |s| then Token('\0', j, j, j)
    else if s[j] == '>' && j + 1 < |s| && s[j + 1] == '>' then Token('+', j, j + 2, Skip(s, j + 2))
    else if IsSymbol(s[j]) then Token(s[j], j, j + 1, Skip(s, j + 1))
    else Token('a', j, WordEnd(s, j), Skip(s, WordEnd(s, j)))
  }

  predicate PeekIs(s: string, i: nat, toks: string)
    requires i <= |s|
  {
    var j := Skip(s, i);
    j < |s| && s[j] in toks
  }

  /** Skips white space: the loop gettoken and peek share. */
  method SkipSpaces(s: string, i: nat) returns (j: nat)
    requires i <= |s|
    ensures j == Skip(s, i)
  {
    j := i;
    while j < |s| && IsSpace(s[j])
      invariant i <= j <= |s| && Skip(s, j) == Skip(s, i)
    {
      j := j + 1;
    }
  }

  method GetToken(s: string, i: nat) returns (t: Token)
    requires i <= |s| && IsText(s)
    ensures t == GetTok(s, i)
  {
    var p := SkipSpaces(s, i);
    var q := p;
    var ret := if p < |s| then s[p] else '\0';
    if ret == '\0' {
    } else if ret == '|' || ret == '(' || ret == ')' || ret == ';' || ret == '&' || ret == '<' {
      p := p + 1;
    } else if ret == '>' {
      p := p + 1;
      if p < |s| && s[p] == '>' {
        ret := '+';
        p := p + 1;
      }
    } else {
      ret := 'a';
      while p < |s| && !IsSpace(s[p]) && !IsSymbol(s[p])
        invariant q <= p <= |s| && WordEnd(s, p) == WordEnd(s, q)
      {
        p := p + 1;
      }
    }
    var eq := p;
    p := SkipSpaces(s, p);
    t := Token(ret, q, eq, p);
  }

  method Peek(s: string, i: nat, toks: string) returns (r: bool, j: nat)
    requires i <= |s|
    ensures r == PeekIs(s, i, toks) && j == Skip(s, i)
  {
    j := SkipSpaces(s, i);
    r := j < |s| && s[j] in toks;
  }

  // ------------------------------------------------------------------
  // The grammar

  datatype Result = Ok(cmd: Cmd<Span>, pos: nat) | Panic

  datatype RedirsResult = Redirs(rs: seq<Redirection<Span>>, pos: nat) | NoFile

  function ModeOf(kind: char): Mode {
    if kind == '<' then Read else if kind == '>' then Write else Append
  }

  function RedirsAt(s: string, i: nat): (r: RedirsResult)
    requires i <= |s| && IsText(s)
    ensures r.Redirs? ==> i <= r.pos <= |s|
    decreases |s| - i
  {
    if !PeekIs(s, i, "<>") then Redirs([], Skip(s, i))
    else
      var t := GetTok(s, i);
      var f := GetTok(s, t.next);
      if f.kind != 'a' then NoFile
      else
        match RedirsAt(s, f.next)
        case NoFile => NoFile
        case Redirs(rs, pos) => Redirs([Redirection(Span(f.q, f.eq), ModeOf(t.kind))] + rs, pos)
  }

  /** The words of a command with the redirections among them. */
  function ArgsAt(s: string, i: nat, args: seq<Span>, rs: seq<Redirection<Span>>): (r: Result)
    requires i <= |s| && IsText(s)
    ensures r.Ok? ==> i <= r.pos <= |s|
    decreases |s| - i
  {
    var j := Skip(s, i);
    if PeekIs(s, i, "|)&;") then Ok(Wrap(Exec(args), rs), j)
    else
      var t := GetTok(s, j);
      if t.kind == '\0' then Ok(Wrap(Exec(args), rs), t.next)
      else if t.kind != 'a' || |args| + 1 >= MAXARGS then Panic
      else
        match RedirsAt(s, t.next)
        case NoFile => Panic
        case Redirs(more, pos) => ArgsAt(s, pos, args + [Span(t.q, t.eq)], rs + more)
  }

  function ExecAt(s: string, i: nat): (r: Result)
    requires i <= |s| && IsText(s)
    ensures r.Ok? ==> i <= r.pos <= |s|
    decreases |s| - i, 1
  {
    if PeekIs(s, i, "(") then BlockAt(s, i)
    else
      match RedirsAt(s, Skip(s, i))
      case NoFile => Panic
      case Redirs(rs, pos) => ArgsAt(s, pos, [], rs)
  }

  function BlockAt(s: string, i: nat): (r: Result)
    requires i <= |s| && IsText(s)
    ensures r.Ok? ==> i <= r.pos <= |s|
    decreases |s| - i, 0
  {
    if !PeekIs(s, i, "(") then Panic
    else
      match LineAt(s, GetTok(s, i).next)
      case Panic => Panic
      case Ok(c, p) =>
        if !PeekIs(s, p, ")") then Panic
        else
          match RedirsAt(s, GetTok(s, p).next)
          case NoFile => Panic
          case Redirs(rs, pos) => Ok(Wrap(c, rs), pos)
  }

  function PipeAt(s: string, i: nat): (r: Result)
    requires i <= |s| && IsText(s)
    ensures r.Ok? ==> i <= r.pos <= |s|
    decreases |s| - i, 2
  {
    match ExecAt(s, i)
    case Panic => Panic
    case Ok(c, p) =>
      if !PeekIs(s, p, "|") then Ok(c, Skip(s, p))
      else
        match PipeAt(s, GetTok(s, p).next)
        case Panic => Panic
        case Ok(d, pos) => Ok(Pipe(c, d), pos)
  }

  /** The ampersands after a pipeline. */
  function BacksAt(s: string, i: nat, c: Cmd<Span>): (r: Result)
    requires i <= |s| && IsText(s)
    ensures r.Ok? && i <= r.pos <= |s|
    decreases |s| - i
  {
    if !PeekIs(s, i, "&") then Ok(c, Skip(s, i)) else BacksAt(s, GetTok(s, i).next, Back(c))
  }

  function LineAt(s: string, i: nat): (r: Result)
    requires i <= |s| && IsText(s)
    ensures r.Ok? ==> i <= r.pos <= |s|
    decreases |s| - i, 3
  {
    match PipeAt(s, i)
    case Panic => Panic
    case Ok(c, p) =>
      var b := BacksAt(s, p, c);
      if !PeekIs(s, b.pos, ";") then Ok(b.cmd, Skip(s, b.pos))
      else
        match LineAt(s, GetTok(s, b.pos).next)
        case Panic => Panic
        case Ok(d, pos) => Ok(List(b.cmd, d), pos)
  }

  /** The whole input is one line. */
  function CmdAt(s: string): Result
    requires IsText(s)
  {
    match LineAt(s, 0)
    case Panic => Panic
    case Ok(c, p) => if Skip(s, p) != |s| then Panic else Ok(c, Skip(s, p))
  }

  // ------------------------------------------------------------------
  // The parser

  function Prepend(rs: seq<Redirection<Span>>, r: RedirsResult): RedirsResult {
    if r.NoFile? then NoFile else Redirs(rs + r.rs, r.pos)
  }

  method ParseRedirs(s: string, i: nat) returns (r: RedirsResult)
    requires i <= |s| && IsText(s)
    ensures r == RedirsAt(s, i)
  {
    hide GetTok, Skip;
    var rs: seq<Redirection<Span>>, p := [], i;
    var more, j := Peek(s, p, "<>");
    SkipTwice(s, p);
    while more
      invariant i <= p <= |s| && j == Skip(s, p) && more == PeekIs(s, p, "<>")
      invariant RedirsAt(s, i) == Prepend(rs, RedirsAt(s, p))
      decreases |s| - p
    {
      SkipFirst(s, p);
      var t := GetToken(s, j);
      var f := GetToken(s, t.next);
      if f.kind != 'a' {
        return NoFile;
      }
      rs := rs + [Redirection(Span(f.q, f.eq), ModeOf(t.kind))];
      p := f.next;
      more, j := Peek(s, p, "<>");
    }
    SkipTwice(s, p);
    r := Redirs(rs, j);
  }

  lemma {:induction false} SkipTwice(s: string, i: nat)
    requires i <= |s|
    ensures Skip(s, Skip(s, i)) == Skip(s, i)
  {
  }

  /** Whether white space has been skipped makes no difference to the next token. */
  lemma {:induction false} SkipFirst(s: string, i: nat)
    requires i <= |s| && IsText(s)
    ensures GetTok(s, Skip(s, i)) == GetTok(s, i)
    ensures forall toks :: PeekIs(s, Skip(s, i), toks) == PeekIs(s, i, toks)
  {
    SkipTwice(s, i);
  }

  method ParseExec(s: string, i: nat) returns (r: Result)
    requires i <= |s| && IsText(s)
    ensures r == ExecAt(s, i)
    decreases |s| - i, 1
  {
    hide GetTok, Skip;
    var open, j := Peek(s, i, "(");
    if open {
      SkipFirst(s, i);
      r := ParseBlock(s, j);
      BlockSkip(s, i);
      return;
    }
    var rr := ParseRedirs(s, j);
    if rr.NoFile? {
      return Panic;
    }
    var args: seq<Span>, rs, p := [], rr.rs, rr.pos;
    var stop;
    stop, j := Peek(s, p, "|)&;");
    while !stop
      invariant p <= |s| && j == Skip(s, p) && stop == PeekIs(s, p, "|)&;")
      invariant ArgsAt(s, p, args, rs) == ExecAt(s, i)
      decreases |s| - p
    {
      var t := GetToken(s, j);
      if t.kind == '\0' {
        j := t.next;
        break;
      }
      if t.kind != 'a' {
        return Panic;
      }
      if |args| + 1 >= MAXARGS {
        return Panic;
      }
      args := args + [Span(t.q, t.eq)];
      rr := ParseRedirs(s, t.next);
      if rr.NoFile? {
        return Panic;
      }
      rs, p := rs + rr.rs, rr.pos;
      stop, j := Peek(s, p, "|)&;");
    }
    r := Ok(Wrap(Exec(args), rs), j);
  }

  lemma {:induction false} BlockSkip(s: string, i: nat)
    requires i <= |s| && IsText(s) && PeekIs(s, i, "(")
    ensures PeekIs(s, Skip(s, i), "(") && BlockAt(s, Skip(s, i)) == BlockAt(s, i)
  {
    SkipFirst(s, i);
  }

  method ParseBlock(s: string, i: nat) returns (r: Result)
    requires i <= |s| && IsText(s)
    ensures r == BlockAt(s, i)
    decreases |s| - i, 0
  {
    hide Skip;
    var open, k := Peek(s, i, "(");
    if !open {
      return Panic;
    }
    SkipFirst(s, i);
    var t := GetToken(s, k);
    var c := ParseLine(s, t.next);
    if c.Panic? {
      return Panic;
    }
    var close, j := Peek(s, c.pos, ")");
    if !close {
      return Panic;
    }
    SkipFirst(s, c.pos);
    t := GetToken(s, j);
    var rr := ParseRedirs(s, t.next);
    if rr.NoFile? {
      return Panic;
    }
    r := Ok(Wrap(c.cmd, rr.rs), rr.pos);
  }

  method ParsePipe(s: string, i: nat) returns (r: Result)
    requires i <= |s| && IsText(s)
    ensures r == PipeAt(s, i)
    decreases |s| - i, 2
  {
    hide Skip;
    r := ParseExec(s, i);
    if r.Panic? {
      return;
    }
    var bar, j := Peek(s, r.pos, "|");
    SkipFirst(s, r.pos);
    if bar {
      var t := GetToken(s, j);
      var d := ParsePipe(s, t.next);
      return if d.Panic? then Panic else Ok(Pipe(r.cmd, d.cmd), d.pos);
    }
    r := Ok(r.cmd, j);
  }

  method ParseLine(s: string, i: nat) returns (r: Result)
    requires i <= |s| && IsText(s)
    ensures r == LineAt(s, i)
    decreases |s| - i, 3
  {
    hide Skip;
    r := ParsePipe(s, i);
    if r.Panic? {
      return;
    }
    var c, p := r.cmd, r.pos;
    ghost var c0, p0 := c, p;
    var more, j := Peek(s, p, "&");
    while more
      invariant p0 <= p <= |s| && j == Skip(s, p) && more == PeekIs(s, p, "&")
      invariant BacksAt(s, p, c) == BacksAt(s, p0, c0)
      decreases |s| - p
    {
      SkipFirst(s, p);
      var t := GetToken(s, j);
      c, p := Back(c), t.next;
      more, j := Peek(s, p, "&");
    }
    SkipTwice(s, p);
    p := j;
    more, j := Peek(s, p, ";");
    SkipFirst(s, p);
    if more {
      var t := GetToken(s, j);
      var d := ParseLine(s, t.next);
      return if d.Panic? then Panic else Ok(List(c, d.cmd), d.pos);
    }
    r := Ok(c, j);
  }

  /** The parser ends on every input and does what the grammar says. */
  method ParseCmd(s: string) returns (r: Result)
    requires IsText(s)
    ensures r == CmdAt(s)
  {
    r := ParseLine(s, 0);
    if r.Ok? {
      var _, j := Peek(s, r.pos, "");
      r := if j != |s| then Panic else Ok(r.cmd, j);
    }
  }

  // ------------------------------------------------------------------
  // Words

  /** A whole word of the input: nothing in it could end it, and what follows does. */
  predicate WordSpan(s: string, sp: Span) {
    && sp.q < sp.eq <= |s| && (forall k :: sp.q <= k < sp.eq ==> InWord(s[k]))
    && (sp.eq < |s| ==> !InWord(s[sp.eq]))
  }

  predicate AllWords(s: string, c: Cmd<Span>) {
    match c
    case Exec(args) => forall i :: 0 <= i < |args| ==> WordSpan(s, args[i])
    case Redir(d, file, mode) => AllWords(s, d) && WordSpan(s, file)
    case Pipe(l, r) => AllWords(s, l) && AllWords(s, r)
    case List(l, r) => AllWords(s, l) && AllWords(s, r)
    case Back(d) => AllWords(s, d)
  }

  predicate AllFiles(s: string, rs: seq<Redirection<Span>>) {
    forall i :: 0 <= i < |rs| ==> WordSpan(s, rs[i].file)
  }

  lemma {:induction false} WordToken(s: string, i: nat)
    requires i <= |s| && IsText(s) && GetTok(s, i).kind == 'a'
    ensures var t := GetTok(s, i); WordSpan(s, Span(t.q, t.eq))
  {
  }

  lemma {:induction false} WrapWords(s: string, c: Cmd<Span>, rs: seq<Redirection<Span>>)
    requires AllWords(s, c) && AllFiles(s, rs)
    ensures AllWords(s, Wrap(c, rs))
    decreases |rs|
  {
    if rs != [] {
      WrapWords(s, c, rs[..|rs| - 1]);
    }
  }

  lemma {:induction false} RedirsWords(s: string, i: nat)
    requires i <= |s| && IsText(s)
    ensures RedirsAt(s, i).Redirs? ==> AllFiles(s, RedirsAt(s, i).rs)
    decreases |s| - i
  {
    hide Skip;
    if PeekIs(s, i, "<>") {
      var f := GetTok(s, GetTok(s, i).next);
      if f.kind == 'a' {
        WordToken(s, GetTok(s, i).next);
        RedirsWords(s, f.next);
      }
    }
  }

  lemma {:induction false} ArgsWords(s: string, i: nat, args: seq<Span>, rs: seq<Redirection<Span>>)
    requires i <= |s| && IsText(s) && AllWords(s, Exec(args)) && AllFiles(s, rs)
    ensures ArgsAt(s, i, args, rs).Ok? ==> AllWords(s, ArgsAt(s, i, args, rs).cmd)
    decreases |s| - i
  {
    hide Skip, GetTok, WordSpan;
    WrapWords(s, Exec(args), rs);
    if !PeekIs(s, i, "|)&;") {
      var t := GetTok(s, Skip(s, i));
      if t.kind == 'a' && |args| + 1 < MAXARGS {
        WordToken(s, Skip(s, i));
        RedirsWords(s, t.next);
        var rr := RedirsAt(s, t.next);
        if rr.Redirs? {
          ArgsWords(s, rr.pos, args + [Span(t.q, t.eq)], rs + rr.rs);
        }
      }
    }
  }

  lemma {:induction false} ExecWords(s: string, i: nat)
    requires i <= |s| && IsText(s)
    ensures ExecAt(s, i).Ok? ==> AllWords(s, ExecAt(s, i).cmd)
    decreases |s| - i, 1
  {
    hide Skip, GetTok, WordSpan, ArgsAt, RedirsAt;
    if PeekIs(s, i, "(") {
      BlockWords(s, i);
    } else {
      RedirsWords(s, Skip(s, i));
      var rr := RedirsAt(s, Skip(s, i));
      if rr.Redirs? {
        ArgsWords(s, rr.pos, [], rr.rs);
      }
    }
  }

  lemma {:induction false} BlockWords(s: string, i: nat)
    requires i <= |s| && IsText(s) && PeekIs(s, i, "(")
    ensures BlockAt(s, i).Ok? ==> AllWords(s, BlockAt(s, i).cmd)
    decreases |s| - i, 0
  {
    hide Skip, WordSpan, RedirsAt;
    LineWords(s, GetTok(s, i).next);
    var l := LineAt(s, GetTok(s, i).next);
    if l.Ok? && PeekIs(s, l.pos, ")") {
      RedirsWords(s, GetTok(s, l.pos).next);
      var rr := RedirsAt(s, GetTok(s, l.pos).next);
      if rr.Redirs? {
        WrapWords(s, l.cmd, rr.rs);
      }
    }
  }

  lemma {:induction false} PipeWords(s: string, i: nat)
    requires i <= |s| && IsText(s)
    ensures PipeAt(s, i).Ok? ==> AllWords(s, PipeAt(s, i).cmd)
    decreases |s| - i, 2
  {
    hide Skip, WordSpan, ExecAt;
    ExecWords(s, i);
    var e := ExecAt(s, i);
    if e.Ok? && PeekIs(s, e.pos, "|") {
      PipeWords(s, GetTok(s, e.pos).next);
    }
  }

  lemma {:induction false} BacksWords(s: string, i: nat, c: Cmd<Span>)
    requires i <= |s| && IsText(s) && AllWords(s, c)
    ensures AllWords(s, BacksAt(s, i, c).cmd)
    decreases |s| - i
  {
    hide Skip, WordSpan;
    if PeekIs(s, i, "&") {
      BacksWords(s, GetTok(s, i).next, Back(c));
    }
  }

  lemma {:induction false} LineWords(s: string, i: nat)
    requires i <= |s| && IsText(s)
    ensures LineAt(s, i).Ok? ==> AllWords(s, LineAt(s, i).cmd)
    decreases |s| - i, 3
  {
    hide Skip, WordSpan, PipeAt, BacksAt;
    PipeWords(s, i);
    var p := PipeAt(s, i);
    if p.Ok? {
      BacksWords(s, p.pos, p.cmd);
      var b := BacksAt(s, p.pos, p.cmd);
      if PeekIs(s, b.pos, ";") {
        LineWords(s, GetTok(s, b.pos).next);
      }
    }
  }

  // ------------------------------------------------------------------
  // Terminating the words in place

  /** Where nulterminate writes. */
  ghost function Cuts(c: Cmd<Span>): set<int> {
    match c
    case Exec(args) => set i | 0 <= i < |args| :: args[i].eq
    case Redir(d, file, mode) => Cuts(d) + {file.eq}
    case Pipe(l, r) => Cuts(l) + Cuts(r)
    case List(l, r) => Cuts(l) + Cuts(r)
    case Back(d) => Cuts(d)
  }

  method NulTerminate(c: Cmd<Span>, buf: array<char>, ghost s: string)
    requires AllWords(s, c) && buf.Length == |s| + 1
    modifies buf
    ensures forall k :: 0 <= k < buf.Length ==> buf[k] == if k in Cuts(c) then '\0' else old(buf[k])
    decreases c
  {
    match c
    case Exec(args) =>
      var i := 0;
      while i < |args|
        invariant 0 <= i <= |args|
        invariant forall k :: 0 <= k < buf.Length ==> buf[k] == if CutBefore(args, i, k) then '\0' else old(buf[k])
      {
        assert WordSpan(s, args[i]);
        buf[args[i].eq] := '\0';
        i := i + 1;
      }
      forall k | 0 <= k < buf.Length ensures CutBefore(args, |args|, k) <==> k in Cuts(c) {
      }
    case Redir(d, file, mode) =>
      NulTerminate(d, buf, s);
      buf[file.eq] := '\0';
    case Pipe(l, r) =>
      NulTerminate(l, buf, s);
      NulTerminate(r, buf, s);
    case List(l, r) =>
      NulTerminate(l, buf, s);
      NulTerminate(r, buf, s);
    case Back(d) =>
      NulTerminate(d, buf, s);
  }

  predicate CutBefore(args: seq<Span>, n: nat, k: int) {
    exists i :: 0 <= i < n && i < |args| && args[i].eq == k
  }

  /** The C string at position i of a buffer. */
  function CString(b: seq<char>, i: nat): string
    decreases |b| - i
  {
    if i >= |b| || b[i] == '\0' then "" else [b[i]] + CString(b, i + 1)
  }

  /** The command with each word read as a C string from the buffer. */
  function ReadBack(b: seq<char>, c: Cmd<Span>): Cmd<string> {
    match c
    case Exec(args) => Exec(seq(|args|, i requires 0 <= i < |args| => CString(b, args[i].q)))
    case Redir(d, file, mode) => Redir(ReadBack(b, d), CString(b, file.q), mode)
    case Pipe(l, r) => Pipe(ReadBack(b, l), ReadBack(b, r))
    case List(l, r) => List(ReadBack(b, l), ReadBack(b, r))
    case Back(d) => Back(ReadBack(b, d))
  }

  function Text(s: string, sp: Span): string {
    if sp.q <= sp.eq <= |s| then s[sp.q..sp.eq] else ""
  }

  /** The command with each span replaced by the part of the input it spans. */
  function Texts(s: string, c: Cmd<Span>): Cmd<string> {
    match c
    case Exec(args) => Exec(seq(|args|, i requires 0 <= i < |args| => Text(s, args[i])))
    case Redir(d, file, mode) => Redir(Texts(s, d), Text(s, file), mode)
    case Pipe(l, r) => Pipe(Texts(s, l), Texts(s, r))
    case List(l, r) => List(Texts(s, l), Texts(s, r))
    case Back(d) => Back(Texts(s, d))
  }

  /** No NUL is written inside a word: every cut is at a delimiter or the end. */
  ghost predicate CutsOutside(s: string, cuts: set<int>) {
    forall k :: k in cuts ==> k >= |s| || (0 <= k && !InWord(s[k]))
  }

  lemma {:induction false} CutsAreOutside(s: string, c: Cmd<Span>)
    requires AllWords(s, c)
    ensures CutsOutside(s, Cuts(c))
  {
    match c {
      case Exec(args) =>
        forall k | k in Cuts(c) ensures k >= |s| || (0 <= k && !InWord(s[k])) {
          var i :| 0 <= i < |args| && args[i].eq == k;
          assert WordSpan(s, args[i]);
        }
      case Redir(d, file, mode) => CutsAreOutside(s, d);
      case Pipe(l, r) => CutsAreOutside(s, l); CutsAreOutside(s, r);
      case List(l, r) => CutsAreOutside(s, l); CutsAreOutside(s, r);
      case Back(d) => CutsAreOutside(s, d);
    }
  }

  /** The buffer once NULs are written at the cuts. */
  ghost predicate CutBuffer(b: seq<char>, s: string, cuts: set<int>) {
    |b| == |s| + 1 && forall k :: 0 <= k < |b| ==> b[k] == if k in cuts || k == |s| then '\0' else s[k]
  }

  lemma {:induction false} WordReads(b: seq<char>, s: string, cuts: set<int>, sp: Span, i: nat)
    requires CutBuffer(b, s, cuts) && CutsOutside(s, cuts) && IsText(s) && WordSpan(s, sp) && sp.eq in cuts
    requires sp.q <= i <= sp.eq
    ensures CString(b, i) == s[i..sp.eq]
    decreases sp.eq - i
  {
    if i < sp.eq {
      assert InWord(s[i]);
      WordReads(b, s, cuts, sp, i + 1);
    }
  }

  lemma {:induction false} CmdReads(b: seq<char>, s: string, cuts: set<int>, c: Cmd<Span>)
    requires CutBuffer(b, s, cuts) && CutsOutside(s, cuts) && IsText(s) && AllWords(s, c) && Cuts(c) <= cuts
    ensures ReadBack(b, c) == Texts(s, c)
  {
    hide CutBuffer, CutsOutside, WordSpan;
    match c {
      case Exec(args) =>
        forall i | 0 <= i < |args| ensures CString(b, args[i].q) == Text(s, args[i]) {
          assert args[i].eq in Cuts(c);
          WordIs(s, args[i]);
          WordReads(b, s, cuts, args[i], args[i].q);
        }
      case Redir(d, file, mode) =>
        CmdReads(b, s, cuts, d);
        WordIs(s, file);
        WordReads(b, s, cuts, file, file.q);
      case Pipe(l, r) => CmdReads(b, s, cuts, l); CmdReads(b, s, cuts, r);
      case List(l, r) => CmdReads(b, s, cuts, l); CmdReads(b, s, cuts, r);
      case Back(d) => CmdReads(b, s, cuts, d);
    }
  }

  lemma {:induction false} WordIs(s: string, sp: Span)
    requires WordSpan(s, sp)
    ensures sp.q < sp.eq <= |s|
  {
  }

  /**
   parsecmd on a buffer: the command the grammar gives, and each of its words, read as
   a C string from the buffer it has written NULs into, is exactly its token.
   */
  method ParseBuffer(buf: array<char>, s: string) returns (r: Result)
    requires IsText(s) && buf.Length == |s| + 1 && buf[..|s|] == s && buf[|s|] == '\0'
    modifies buf
    ensures r == CmdAt(s)
    ensures r.Ok? ==> ReadBack(buf[..], r.cmd) == Texts(s, r.cmd)
  {
    r := ParseCmd(s);
    if r.Ok? {
      LineWords(s, 0);
      CutsAreOutside(s, r.cmd);
      assert forall k :: 0 <= k < |s| ==> buf[k] == buf[..|s|][k];
      NulTerminate(r.cmd, buf, s);
      assert CutBuffer(buf[..], s, Cuts(r.cmd));
      CmdReads(buf[..], s, Cuts(r.cmd), r.cmd);
    }
  }

  // ------------------------------------------------------------------
  // Printing

  predicate ValidWord(w: string) {
    w != "" && forall k :: 0 <= k < |w| ==> InWord(w[k]) && w[k] != '\0'
  }

  /** A command the shell can be given: its words are words, and no Exec has more than nine. */
  predicate Printable(c: Cmd<string>) {
    match c
    case Exec(args) => |args| < MAXARGS && forall i :: 0 <= i < |args| ==> ValidWord(args[i])
    case Redir(d, file, mode) => Printable(d) && ValidWord(file)
    case Pipe(l, r) => Printable(l) && Printable(r)
    case List(l, r) => Printable(l) && Printable(r)
    case Back(d) => Printable(d)
  }

  function Size<T>(c: Cmd<T>): nat {
    match c
    case Exec(args) => 1
    case Redir(d, file, mode) => 1 + Size(d)
    case Pipe(l, r) => 1 + Size(l) + Size(r)
    case List(l, r) => 1 + Size(l) + Size(r)
    case Back(d) => 1 + Size(d)
  }

  /** What a command's outer redirections apply to, and those redirections. */
  function Base<T>(c: Cmd<T>): (b: Cmd<T>)
    ensures Size(b) <= Size(c) && (c.Redir? ==> Size(b) < Size(c)) && !b.Redir?
  {
    if c.Redir? then Base(c.cmd) else c
  }

  function Outer<T>(c: Cmd<T>): seq<Redirection<T>> {
    if c.Redir? then Outer(c.cmd) + [Redirection(c.file, c.mode)] else []
  }

  lemma {:induction false} WrapBase<T>(c: Cmd<T>)
    ensures Wrap(Base(c), Outer(c)) == c
  {
    if c.Redir? {
      WrapBase(c.cmd);
      var rs := Outer(c);
      assert rs[..|rs| - 1] == Outer(c.cmd);
    }
  }

  /** A command without its ampersands, and how many there are. */
  function Core<T>(c: Cmd<T>): (b: Cmd<T>)
    ensures Size(b) <= Size(c) && (c.Back? ==> Size(b) < Size(c)) && !b.Back?
  {
    if c.Back? then Core(c.cmd) else c
  }

  function Depth<T>(c: Cmd<T>): nat {
    if c.Back? then Depth(c.cmd) + 1 else 0
  }

  function Amps(n: nat): string {
    if n == 0 then "" else "& " + Amps(n - 1)
  }

  function PrintWords(ws: seq<string>): string {
    if ws == [] then "" else ws[0] + " " + PrintWords(ws[1..])
  }

  function Arrow(m: Mode): string {
    match m
    case Read => "<"
    case Write => ">"
    case Append => ">>"
  }

  function PrintRedirs(rs: seq<Redirection<string>>): string {
    if rs == [] then "" else Arrow(rs[0].mode) + " " + rs[0].file + " " + PrintRedirs(rs[1..])
  }

  function Shift<T>(c: Cmd<T>): nat {
    if c.Pipe? then 3 else if c.Back? then 2 else if c.List? then 1 else 0
  }

  /** A command as one operand: its words, or in parentheses, with its redirections after it. */
  function PrintAtom(c: Cmd<string>): string
    decreases Size(c), (0 + Shift(c)) % 4
  {
    var b := Base(c);
    (if b.Exec? then PrintWords(b.args) else "( " + PrintLine(b) + ") ") + PrintRedirs(Outer(c))
  }

  function PrintPipe(c: Cmd<string>): string
    decreases Size(c), (1 + Shift(c)) % 4
  {
    if c.Pipe? then PrintAtom(c.left) + "| " + PrintPipe(c.right) else PrintAtom(c)
  }

  function PrintBack(c: Cmd<string>): string
    decreases Size(c), (2 + Shift(c)) % 4
  {
    PrintPipe(Core(c)) + Amps(Depth(c))
  }

  function PrintLine(c: Cmd<string>): string
    decreases Size(c), (3 + Shift(c)) % 4
  {
    if c.List? then PrintBack(c.left) + "; " + PrintLine(c.right) else PrintBack(c)
  }

  // ------------------------------------------------------------------
  // Reading what was printed

  predicate Starts(rest: string, heads: string) {
    rest == "" || rest[0] in heads
  }

  /** What remains does not begin with white space. */
  predicate Tight(rest: string) {
    rest == "" || !IsSpace(rest[0])
  }

  lemma {:induction false} Advance(s: string, i: nat, t: string, rest: string)
    requires i <= |s| && s[i..] == t + rest
    ensures i + |t| <= |s| && s[i + |t|..] == rest && s[i..i + |t|] == t
    ensures |t| > 0 ==> s[i] == t[0]
    ensures t == "" ==> s[i..] == rest
  {
    assert |s[i..]| == |t| + |rest|;
    assert s[i..][|t|..] == rest && s[i..][..|t|] == t;
    if |t| > 0 {
      assert s[i] == s[i..][0];
    }
    if t == "" {
      assert t + rest == rest;
    }
  }

  lemma {:induction false} SkipTight(s: string, i: nat, rest: string)
    requires i <= |s| && s[i..] == rest && Tight(rest)
    ensures Skip(s, i) == i && (rest == "" <==> i == |s|) && (rest != "" ==> s[i] == rest[0])
  {
    if i < |s| {
      assert s[i] == s[i..][0];
    }
  }

  lemma {:induction false} SkipOne(s: string, i: nat, rest: string)
    requires i <= |s| && s[i..] == " " + rest && Tight(rest)
    ensures i + 1 <= |s| && s[i + 1..] == rest && Skip(s, i) == i + 1
  {
    Advance(s, i, " ", rest);
    SkipTight(s, i + 1, rest);
  }

  lemma {:induction false} SymbolToken(s: string, i: nat, c: char, rest: string)
    requires i <= |s| && IsText(s) && IsSymbol(c) && s[i..] == [c] + " " + rest && Tight(rest)
    ensures GetTok(s, i) == Token(c, i, i + 1, i + 2) && i + 2 <= |s| && s[i + 2..] == rest
    ensures Skip(s, i) == i && s[i] == c
  {
    assert [c] + " " + rest == [c] + (" " + rest);
    Advance(s, i, [c], " " + rest);
    SkipTight(s, i, [c] + (" " + rest));
    assert s[i + 1] == s[i + 1..][0];
    SkipOne(s, i + 1, rest);
  }

  lemma {:induction false} ArrowToken(s: string, i: nat, m: Mode, rest: string)
    requires i <= |s| && IsText(s) && s[i..] == Arrow(m) + " " + rest && Tight(rest)
    ensures var t, n := GetTok(s, i), i + |Arrow(m)| + 1;
            t.next == n && n <= |s| && s[n..] == rest && ModeOf(t.kind) == m && PeekIs(s, i, "<>")
  {
    if m == Append {
      assert Arrow(m) + " " + rest == ">>" + (" " + rest);
      Advance(s, i, ">>", " " + rest);
      SkipTight(s, i, ">>" + (" " + rest));
      assert s[i + 1] == s[i..][1] == '>';
      SkipOne(s, i + 2, rest);
    } else {
      SymbolToken(s, i, if m == Read then '<' else '>', rest);
    }
  }

  lemma {:induction false} WordEndAt(s: string, i: nat, j: nat, e: nat)
    requires i <= j <= e < |s| && !InWord(s[e]) && forall k :: i <= k < e ==> InWord(s[k])
    ensures WordEnd(s, j) == e
    decreases e - j
  {
    if j < e {
      WordEndAt(s, i, j + 1, e);
    }
  }

  lemma {:induction false} WordTokenAt(s: string, i: nat, w: string, rest: string)
    requires i <= |s| && IsText(s) && ValidWord(w) && s[i..] == w + " " + rest && Tight(rest)
    ensures var n := i + |w| + 1;
            GetTok(s, i) == Token('a', i, i + |w|, n) && n <= |s| && s[n..] == rest && Text(s, Span(i, i + |w|)) == w
    ensures Skip(s, i) == i && InWord(s[i])
  {
    assert w + " " + rest == w + (" " + rest);
    Advance(s, i, w, " " + rest);
    SkipTight(s, i, w + (" " + rest));
    var e := i + |w|;
    forall k | i <= k < e ensures InWord(s[k]) {
      assert s[k] == s[i..i + |w|][k - i];
    }
    assert s[e] == s[e..][0] == ' ';
    WordEndAt(s, i, i, e);
    SkipOne(s, e, rest);
  }

  // ------------------------------------------------------------------
  // Redirections and words

  function Reds(s: string, rs: seq<Redirection<Span>>): seq<Redirection<string>> {
    if rs == [] then [] else [Redirection(Text(s, rs[0].file), rs[0].mode)] + Reds(s, rs[1..])
  }

  lemma {:induction false} RedsAppend(s: string, a: seq<Redirection<Span>>, b: seq<Redirection<Span>>)
    ensures Reds(s, a + b) == Reds(s, a) + Reds(s, b)
    decreases |a|
  {
    if a == [] {
      assert a + b == b;
    } else {
      assert (a + b)[1..] == a[1..] + b;
      RedsAppend(s, a[1..], b);
    }
  }

  lemma {:induction false} WrapTexts(s: string, c: Cmd<Span>, rs: seq<Redirection<Span>>)
    ensures Texts(s, Wrap(c, rs)) == Wrap(Texts(s, c), Reds(s, rs))
    decreases |rs|
  {
    if rs != [] {
      var m := |rs| - 1;
      WrapTexts(s, c, rs[..m]);
      assert rs == rs[..m] + [rs[m]];
      RedsAppend(s, rs[..m], [rs[m]]);
      var tr := Reds(s, rs);
      assert tr[..|tr| - 1] == Reds(s, rs[..m]);
    }
  }

  predicate AllValid(rs: seq<Redirection<string>>) {
    forall i :: 0 <= i < |rs| ==> ValidWord(rs[i].file)
  }

  lemma {:induction false} TightRedirs(rs: seq<Redirection<string>>, rest: string)
    requires Tight(rest)
    ensures Tight(PrintRedirs(rs) + rest) &&
              (rs != [] ==> Starts(PrintRedirs(rs) + rest, "<>") && PrintRedirs(rs) != "")
  {
    if rs != [] {
      assert PrintRedirs(rs)[0] == Arrow(rs[0].mode)[0];
      assert (PrintRedirs(rs) + rest)[0] == PrintRedirs(rs)[0];
    } else {
      assert PrintRedirs(rs) + rest == rest;
    }
  }

  lemma {:induction false} RedirsRead(s: string, i: nat, rs: seq<Redirection<string>>, rest: string)
    requires i <= |s| && IsText(s) && AllValid(rs) && s[i..] == PrintRedirs(rs) + rest && Tight(rest)
    requires rest == "" || (rest[0] != '<' && rest[0] != '>')
    ensures var r := RedirsAt(s, i); r.Redirs? && Reds(s, r.rs) == rs && r.pos == |s| - |rest|
    decreases |rs|
  {
    hide GetTok, Skip, ValidWord, PrintRedirs, Reds, RedirsAt, Arrow, ModeOf, IsText, Text;
    PrintRedirsStep(rs, rest);
    if rs == [] {
      NoRedirs(s, i, rest);
      assert |s[i..]| == |rest|;
      RedsStep(s, []);
    } else {
      var f, more := rs[0].file, PrintRedirs(rs[1..]) + rest;
      TightRedirs(rs[1..], rest);
      assert AllValid(rs[1..]) && ValidWord(f);
      var n := RedirRead(s, i, rs[0].mode, f, more);
      RedirsRead(s, n, rs[1..], rest);
      RedsStep(s, RedirsAt(s, i).rs);
      assert rs == [rs[0]] + rs[1..];
    }
  }

  /** One redirection. */
  lemma {:induction false} RedirRead(s: string, i: nat, m: Mode, f: string, more: string) returns (n: nat)
    requires i <= |s| && IsText(s) && ValidWord(f) && s[i..] == Arrow(m) + " " + (f + " " + more) && Tight(more)
    ensures n <= |s| && s[n..] == more
    ensures var r, d := RedirsAt(s, i), RedirsAt(s, n);
            && (d.Redirs? ==> r.Redirs? && r.pos == d.pos && |r.rs| > 0 && r.rs[1..] == d.rs
                              && Text(s, r.rs[0].file) == f && r.rs[0].mode == m)
  {
    hide GetTok, Skip, ValidWord, RedirsAt, Arrow, ModeOf, IsText, Text;
    WordTight(f, more);
    ArrowToken(s, i, m, f + " " + more);
    WordTokenAt(s, i + |Arrow(m)| + 1, f, more);
    RedirsStep(s, i);
    n := i + |Arrow(m)| + 1 + |f| + 1;
  }

  lemma {:induction false} PrintRedirsStep(rs: seq<Redirection<string>>, rest: string)
    ensures rs == [] ==> PrintRedirs(rs) + rest == rest
    ensures rs != [] ==>
              PrintRedirs(rs) + rest == Arrow(rs[0].mode) + " " + (rs[0].file + " " + (PrintRedirs(rs[1..]) + rest))
  {
  }

  lemma {:induction false} RedsStep(s: string, rs: seq<Redirection<Span>>)
    ensures Reds(s, rs) == if rs == [] then [] else [Redirection(Text(s, rs[0].file), rs[0].mode)] + Reds(s, rs[1..])
  {
  }

  lemma {:induction false} RedirsStep(s: string, i: nat)
    requires i <= |s| && IsText(s) && PeekIs(s, i, "<>") && GetTok(s, GetTok(s, i).next).kind == 'a'
    ensures var t := GetTok(s, i);
            var f := GetTok(s, t.next);
            && RedirsAt(s, i) == Prepend([Redirection(Span(f.q, f.eq), ModeOf(t.kind))], RedirsAt(s, f.next))
            && (RedirsAt(s, i).Redirs? ==> RedirsAt(s, i).rs[1..] == RedirsAt(s, f.next).rs)
  {
    hide GetTok, Skip;
  }

  lemma {:induction false} WordTight(w: string, rest: string)
    requires ValidWord(w)
    ensures Tight(w + " " + rest) && w + " " + rest != "" && InWord((w + " " + rest)[0])
  {
    assert (w + " " + rest)[0] == w[0];
  }

  function SpanTexts(s: string, args: seq<Span>): seq<string> {
    seq(|args|, i requires 0 <= i < |args| => Text(s, args[i]))
  }

  lemma {:induction false} NoRedirs(s: string, i: nat, rest: string)
    requires i <= |s| && IsText(s) && s[i..] == rest && Tight(rest) &&
               (rest == "" || (rest[0] != '<' && rest[0] != '>'))
    ensures RedirsAt(s, i) == Redirs([], i)
  {
    SkipTight(s, i, rest);
  }

  lemma {:induction false} TightWords(ws: seq<string>, rest: string)
    requires Tight(rest) && forall k :: 0 <= k < |ws| ==> ValidWord(ws[k])
    ensures Tight(PrintWords(ws) + rest) && (ws != [] ==> PrintWords(ws) != "" && InWord((PrintWords(ws) + rest)[0]))
  {
    if ws != [] {
      assert PrintWords(ws) + rest == ws[0] + " " + (PrintWords(ws[1..]) + rest);
      WordTight(ws[0], PrintWords(ws[1..]) + rest);
    } else {
      assert PrintWords(ws) + rest == rest;
    }
  }

  lemma {:induction false} ArgsReadEnd(s: string, i: nat, args: seq<Span>, rs: seq<Redirection<Span>>, rest: string)
    requires i <= |s| && IsText(s) && s[i..] == rest && Starts(rest, "|)&;")
    ensures var r := ArgsAt(s, i, args, rs);
            r.Ok? && r.pos == |s| - |rest| && Texts(s, r.cmd) == Wrap(Exec(SpanTexts(s, args)), Reds(s, rs))
  {
    hide GetTok, Skip, Reds, RedirsAt, ArgsAt, IsText, Text, SpanTexts, Texts, Wrap;
    SkipTight(s, i, rest);
    assert |s[i..]| == |rest|;
    EndOfWords(s, i, rest);
    ArgsEnd(s, i, args, rs);
    WrapTexts(s, Exec(args), rs);
    ExecTexts(s, args);
  }

  lemma {:induction false} ArgsReadLast(s: string, i: nat, args: seq<Span>, rs: seq<Redirection<Span>>,
      w: string, reds: seq<Redirection<string>>, rest: string)
    requires i <= |s| && IsText(s) && AllValid(reds) && ValidWord(w) && |args| + 1 < MAXARGS
    requires s[i..] == w + " " + (PrintRedirs(reds) + rest) && Starts(rest, "|)&;")
    ensures var r := ArgsAt(s, i, args, rs);
            r.Ok? && r.pos == |s| - |rest| &&
                Texts(s, r.cmd) == Wrap(Exec(SpanTexts(s, args) + [w]), Reds(s, rs) + reds)
  {
    hide GetTok, Skip, ValidWord, PrintRedirs, Reds, RedirsAt, ArgsAt, IsText, Text, SpanTexts, Texts, Wrap;
    TightRedirs(reds, rest);
    WordTokenAt(s, i, w, PrintRedirs(reds) + rest);
    var sp, n := Span(i, i + |w|), i + |w| + 1;
    InWordIsNot(s, i);
    SpanTextsAdd(s, args, sp, [w]);
    RedirsRead(s, n, reds, rest);
    var rr := RedirsAt(s, n);
    RedsAppend(s, rs, rr.rs);
    Suffix(s, n, PrintRedirs(reds), rest);
    ArgsStep(s, i, args, rs, rr.rs, rr.pos);
    ArgsReadEnd(s, rr.pos, args + [sp], rs + rr.rs, rest);
    assert SpanTexts(s, args + [sp]) + [] == SpanTexts(s, args + [sp]);
  }

  /** The words still to read, then the redirections, which follow the last word. */
  lemma {:induction false} ArgsRead(s: string, i: nat, args: seq<Span>, rs: seq<Redirection<Span>>,
      ws: seq<string>, reds: seq<Redirection<string>>, rest: string)
    requires i <= |s| && IsText(s) && AllValid(reds) && (forall k :: 0 <= k < |ws| ==> ValidWord(ws[k]))
    requires |args| + |ws| < MAXARGS && ws != []
    requires s[i..] == PrintWords(ws) + (PrintRedirs(reds) + rest) && Starts(rest, "|)&;")
    ensures var r := ArgsAt(s, i, args, rs);
            r.Ok? && r.pos == |s| - |rest| && Texts(s, r.cmd) == Wrap(Exec(SpanTexts(s, args) + ws), Reds(s, rs) + reds)
    decreases |ws|
  {
    hide GetTok, Skip, ValidWord, PrintRedirs, PrintWords, Reds, RedirsAt, ArgsAt, IsText, Text, SpanTexts, Texts, Wrap;
    var tail := PrintRedirs(reds) + rest;
    PrintWordsStep(ws, tail);
    PrintWordsStep(ws[1..], tail);
    if |ws| == 1 {
      ArgsReadLast(s, i, args, rs, ws[0], reds, rest);
      assert ws == [ws[0]];
    } else {
      var more := PrintWords(ws[1..]) + tail;
      TightRedirs(reds, rest);
      TightWords(ws[1..], tail);
      WordTokenAt(s, i, ws[0], more);
      var sp, n := Span(i, i + |ws[0]|), i + |ws[0]| + 1;
      InWordIsNot(s, i);
      SpanTextsAdd(s, args, sp, ws);
      NoRedirs(s, n, more);
      assert rs + [] == rs;
      ArgsStep(s, i, args, rs, [], n);
      ArgsRead(s, n, args + [sp], rs, ws[1..], reds, rest);
    }
  }

  lemma {:induction false} PrintWordsStep(ws: seq<string>, rest: string)
    ensures ws == [] ==> PrintWords(ws) + rest == rest
    ensures ws != [] ==> PrintWords(ws) + rest == ws[0] + " " + (PrintWords(ws[1..]) + rest)
  {
  }

  lemma {:induction false} ExecTexts(s: string, args: seq<Span>)
    ensures Texts(s, Exec(args)) == Exec(SpanTexts(s, args))
  {
  }

  lemma {:induction false} SpanTextsAdd(s: string, args: seq<Span>, sp: Span, ws: seq<string>)
    requires ws != [] && Text(s, sp) == ws[0]
    ensures SpanTexts(s, args) + ws == SpanTexts(s, args + [sp]) + ws[1..]
  {
    assert SpanTexts(s, args + [sp]) == SpanTexts(s, args) + [ws[0]];
  }

  lemma {:induction false} ArgsEnd(s: string, i: nat, args: seq<Span>, rs: seq<Redirection<Span>>)
    requires i <= |s| && IsText(s) && Skip(s, i) == i && (PeekIs(s, i, "|)&;") || GetTok(s, i) == Token('\0', i, i, i))
    ensures ArgsAt(s, i, args, rs) == Ok(Wrap(Exec(args), rs), i)
  {
    hide GetTok, Skip;
  }

  lemma {:induction false} ArgsStep(s: string, i: nat, args: seq<Span>, rs: seq<Redirection<Span>>,
      more: seq<Redirection<Span>>, pos: nat)
    requires i <= |s| && IsText(s) && Skip(s, i) == i && !PeekIs(s, i, "|)&;") && |args| + 1 < MAXARGS
    requires var t := GetTok(s, i); t.kind == 'a' && RedirsAt(s, t.next) == Redirs(more, pos)
    ensures var t := GetTok(s, i);
              i <= pos <= |s| && ArgsAt(s, i, args, rs) == ArgsAt(s, pos, args + [Span(t.q, t.eq)], rs + more)
  {
    hide GetTok, Skip, RedirsAt;
  }

  lemma {:induction false} Suffix(s: string, i: nat, t: string, rest: string)
    requires i <= |s| && s[i..] == t + rest
    ensures |rest| <= |s| && s[|s| - |rest|..] == rest && |s| - |rest| == i + |t|
  {
    Advance(s, i, t, rest);
  }

  lemma {:induction false} InWordIsNot(s: string, i: nat)
    requires i < |s| && InWord(s[i]) && Skip(s, i) == i
    ensures !PeekIs(s, i, "|)&;") && !PeekIs(s, i, "(") && !PeekIs(s, i, "<>")
  {
  }

  lemma {:induction false} EndOfWords(s: string, i: nat, rest: string)
    requires i <= |s| && IsText(s) && s[i..] == rest && Starts(rest, "|)&;") && Skip(s, i) == i
    ensures if rest == "" then !PeekIs(s, i, "|)&;") && GetTok(s, i) == Token('\0', i, i, i) &&
              i == |s| else PeekIs(s, i, "|)&;")
  {
    if rest != "" {
      assert s[i] == s[i..][0];
    }
  }

  // ------------------------------------------------------------------
  // Commands

  lemma {:induction false} PrintableParts(c: Cmd<string>)
    requires Printable(c)
    ensures Printable(Base(c)) && AllValid(Outer(c))
  {
    if c.Redir? {
      PrintableParts(c.cmd);
    }
  }

  lemma {:induction false} PrintableCore(c: Cmd<string>)
    requires Printable(c)
    ensures Printable(Core(c))
  {
    if c.Back? {
      PrintableCore(c.cmd);
    }
  }

  /** The printed forms, with what follows them taken apart. */
  lemma {:induction false} AtomIs(c: Cmd<string>, rest: string)
    ensures var b, tail := Base(c), PrintRedirs(Outer(c)) + rest;
            PrintAtom(c) + rest == if b.Exec? then PrintWords(b.args) + tail
                else "(" + " " + (PrintLine(b) + (")" + " " + tail))
  {
    var b, tail := Base(c), PrintRedirs(Outer(c)) + rest;
    if !b.Exec? {
      assert "( " == "(" + " " && ") " == ")" + " ";
      Regroup("( ", PrintLine(b), ")", PrintRedirs(Outer(c)), rest);
    }
  }

  lemma {:induction false} PipeIs(c: Cmd<string>, rest: string)
    requires c.Pipe?
    ensures PrintPipe(c) + rest == PrintAtom(c.left) + ("|" + " " + (PrintPipe(c.right) + rest))
  {
    assert "| " == "|" + " ";
  }

  lemma {:induction false} LineIs(c: Cmd<string>, rest: string)
    ensures c.List? ==>
              var tail := ";" + " " + (PrintLine(c.right) + rest);
              PrintLine(c) + rest == PrintPipe(Core(c.left)) + (Amps(Depth(c.left)) + tail)
    ensures !c.List? ==> PrintLine(c) + rest == PrintPipe(Core(c)) + (Amps(Depth(c)) + rest)
  {
    if c.List? {
      assert "; " == ";" + " ";
      Regroup(PrintPipe(Core(c.left)), Amps(Depth(c.left)), ";", PrintLine(c.right), rest);
    }
  }

  lemma {:induction false} Regroup(a: string, b: string, sym: string, d: string, rest: string)
    ensures a + b + (sym + " ") + d + rest == a + (b + (sym + " " + (d + rest)))
  {
  }

  lemma {:induction false} TightAmps(n: nat, rest: string, heads: string)
    requires Tight(rest) && Starts(rest, heads)
    ensures Tight(Amps(n) + rest) && Starts(Amps(n) + rest, heads + "&")
  {
    if n > 0 {
      assert (Amps(n) + rest)[0] == '&';
    } else {
      assert Amps(n) + rest == rest;
    }
  }

  lemma {:induction false} TightAtom(c: Cmd<string>, rest: string)
    requires Printable(c) && Tight(rest)
    ensures Tight(PrintAtom(c) + rest)
  {
    hide PrintWords, PrintRedirs, PrintLine, PrintAtom, ValidWord, Base, Outer;
    AtomIs(c, rest);
    PrintableParts(c);
    TightRedirs(Outer(c), rest);
    if Base(c).Exec? {
      TightWords(Base(c).args, PrintRedirs(Outer(c)) + rest);
    }
  }

  lemma {:induction false} TightPipe(c: Cmd<string>, rest: string)
    requires Printable(c) && Tight(rest)
    ensures Tight(PrintPipe(c) + rest)
  {
    hide PrintAtom, ValidWord;
    if c.Pipe? {
      PipeIs(c, rest);
      TightAtom(c.left, "|" + " " + (PrintPipe(c.right) + rest));
    } else {
      TightAtom(c, rest);
    }
  }

  lemma {:induction false} TightLine(c: Cmd<string>, rest: string)
    requires Printable(c) && Tight(rest)
    ensures Tight(PrintLine(c) + rest)
  {
    hide PrintLine, PrintPipe, Amps, ValidWord, Core, Depth;
    LineIs(c, rest);
    if c.List? {
      var more := ";" + " " + (PrintLine(c.right) + rest);
      TightAmps(Depth(c.left), more, ";");
      PrintableCore(c.left);
      TightPipe(Core(c.left), Amps(Depth(c.left)) + more);
    } else {
      TightAmps(Depth(c), rest, if rest == "" then "" else [rest[0]]);
      PrintableCore(c);
      TightPipe(Core(c), Amps(Depth(c)) + rest);
    }
  }

  /** Words and redirections without parentheses. */
  lemma {:induction false} SimpleRead(s: string, i: nat, ws: seq<string>, reds: seq<Redirection<string>>, rest: string)
    requires i <= |s| && IsText(s) && AllValid(reds) && (forall k :: 0 <= k < |ws| ==> ValidWord(ws[k])) &&
               |ws| < MAXARGS
    requires s[i..] == PrintWords(ws) + (PrintRedirs(reds) + rest) && Starts(rest, "|)&;")
    ensures var r := ExecAt(s, i); r.Ok? && r.pos == |s| - |rest| && Texts(s, r.cmd) == Wrap(Exec(ws), reds)
  {
    hide GetTok, Skip, ValidWord, PrintRedirs, PrintWords, Reds, RedirsAt, ArgsAt, IsText, Text, SpanTexts, Texts, Wrap;
    var tail := PrintRedirs(reds) + rest;
    PrintWordsStep(ws, tail);
    PrintRedirsStep(reds, rest);
    TightRedirs(reds, rest);
    TightWords(ws, tail);
    SkipTight(s, i, PrintWords(ws) + tail);
    NoTexts(s);
    if ws == [] {
      RedirsRead(s, i, reds, rest);
      Suffix(s, i, PrintRedirs(reds), rest);
      ArgsReadEnd(s, RedirsAt(s, i).pos, [], RedirsAt(s, i).rs, rest);
    } else {
      NoRedirs(s, i, PrintWords(ws) + tail);
      ArgsRead(s, i, [], [], ws, reds, rest);
      assert SpanTexts(s, []) + ws == ws && Reds(s, []) + reds == reds;
    }
  }

  lemma {:induction false} NoTexts(s: string)
    ensures SpanTexts(s, []) == [] && Reds(s, []) == []
  {
  }

  lemma {:induction false} AtomRead(s: string, i: nat, c: Cmd<string>, rest: string)
    requires i <= |s| && IsText(s) && Printable(c) && s[i..] == PrintAtom(c) + rest && Starts(rest, "|)&;")
    ensures var r := ExecAt(s, i); r.Ok? && r.pos == |s| - |rest| && Texts(s, r.cmd) == c
    decreases Size(c), (0 + Shift(c)) % 4, 0
  {
    hide GetTok, Skip, ValidWord, PrintRedirs, PrintWords, PrintLine, PrintAtom, Base, Outer, RedirsAt, IsText;
    hide Texts, Wrap, ExecAt;
    var b, reds := Base(c), Outer(c);
    AtomIs(c, rest);
    PrintableParts(c);
    WrapBase(c);
    BaseIs(c);
    if b.Exec? {
      SimpleRead(s, i, b.args, reds, rest);
    } else {
      BlockRead(s, i, b, reds, rest);
    }
  }

  lemma {:induction false} BaseIs<T>(c: Cmd<T>)
    ensures !c.Redir? ==> Base(c) == c
  {
  }

  lemma {:induction false} BlockRead(s: string, i: nat, b: Cmd<string>, reds: seq<Redirection<string>>, rest: string)
    requires i <= |s| && IsText(s) && Printable(b) && AllValid(reds) && !b.Exec? && !b.Redir?
    requires s[i..] == "(" + " " + (PrintLine(b) + (")" + " " + (PrintRedirs(reds) + rest))) && Starts(rest, "|)&;")
    ensures var r := ExecAt(s, i); r.Ok? && r.pos == |s| - |rest| && Texts(s, r.cmd) == Wrap(b, reds)
    decreases Size(b), (3 + Shift(b)) % 4, 1
  {
    hide GetTok, Skip, ValidWord, PrintRedirs, PrintLine, RedirsAt, IsText, Texts, Wrap, Reds, LineAt;
    var tail := PrintRedirs(reds) + rest;
    var close := ")" + " " + tail;
    TightRedirs(reds, rest);
    TightLine(b, close);
    SymbolToken(s, i, '(', PrintLine(b) + close);
    LineRead(s, i + 2, b, close);
    var p := LineAt(s, i + 2).pos;
    Suffix(s, i + 2, PrintLine(b), close);
    SymbolToken(s, p, ')', tail);
    RedirsRead(s, p + 2, reds, rest);
    WrapTexts(s, LineAt(s, i + 2).cmd, RedirsAt(s, p + 2).rs);
  }

  lemma {:induction false} PipeRead(s: string, i: nat, c: Cmd<string>, rest: string)
    requires i <= |s| && IsText(s) && Printable(c) && s[i..] == PrintPipe(c) + rest && Starts(rest, ");&")
    ensures var r := PipeAt(s, i); r.Ok? && r.pos == |s| - |rest| && Texts(s, r.cmd) == c
    decreases Size(c), (1 + Shift(c)) % 4, 0
  {
    hide GetTok, Skip, ValidWord, PrintAtom, ExecAt, IsText;
    if c.Pipe? {
      var more := PrintPipe(c.right) + rest;
      PipeIs(c, rest);
      TightPipe(c.right, rest);
      AtomRead(s, i, c.left, "|" + " " + more);
      Suffix(s, i, PrintAtom(c.left), "|" + " " + more);
      var p := ExecAt(s, i).pos;
      SymbolToken(s, p, '|', more);
      PipeRead(s, p + 2, c.right, rest);
    } else {
      AtomRead(s, i, c, rest);
      Suffix(s, i, PrintAtom(c), rest);
      SkipTight(s, ExecAt(s, i).pos, rest);
    }
  }

  function BackN<T>(c: Cmd<T>, n: nat): Cmd<T> {
    if n == 0 then c else Back(BackN(c, n - 1))
  }

  lemma {:induction false} BackOut<T>(c: Cmd<T>, n: nat)
    ensures BackN(Back(c), n) == BackN(c, n + 1)
  {
    if n > 0 {
      BackOut(c, n - 1);
    }
  }

  lemma {:induction false} CoreDepth<T>(c: Cmd<T>)
    ensures BackN(Core(c), Depth(c)) == c
  {
    if c.Back? {
      CoreDepth(c.cmd);
    }
  }

  lemma {:induction false} BacksRead(s: string, i: nat, x: Cmd<Span>, n: nat, rest: string)
    requires i <= |s| && IsText(s) && s[i..] == Amps(n) + rest && Starts(rest, ");")
    ensures var r := BacksAt(s, i, x); r.pos == |s| - |rest| && Texts(s, r.cmd) == BackN(Texts(s, x), n)
    decreases n
  {
    hide GetTok, Skip, IsText, Amps;
    AmpsIs(n, rest);
    if n == 0 {
      SkipTight(s, i, rest);
      assert |s[i..]| == |rest|;
    } else {
      TightAmps(n - 1, rest, ");");
      SymbolToken(s, i, '&', Amps(n - 1) + rest);
      BacksRead(s, i + 2, Back(x), n - 1, rest);
      BackOut(Texts(s, x), n - 1);
    }
  }

  lemma {:induction false} AmpsIs(n: nat, rest: string)
    ensures Amps(n) + rest == if n == 0 then rest else "&" + " " + (Amps(n - 1) + rest)
  {
    assert "& " == "&" + " ";
  }

  /** A pipeline with its ampersands. */
  lemma {:induction false} BackRead(s: string, i: nat, c: Cmd<string>, rest: string)
    requires i <= |s| && IsText(s) && Printable(c) && s[i..] == PrintPipe(Core(c)) + (Amps(Depth(c)) + rest) &&
               Starts(rest, ");")
    ensures var r := PipeAt(s, i);
            r.Ok? && var b := BacksAt(s, r.pos, r.cmd); b.pos == |s| - |rest| && Texts(s, b.cmd) == c
    decreases Size(c), (2 + Shift(c)) % 4, 0
  {
    hide GetTok, Skip, IsText, Amps, PrintPipe, PipeAt, BacksAt, ValidWord, Core, Depth, BackN;
    TightAmps(Depth(c), rest, ");");
    PrintableCore(c);
    CoreSmaller(c);
    PipeRead(s, i, Core(c), Amps(Depth(c)) + rest);
    Suffix(s, i, PrintPipe(Core(c)), Amps(Depth(c)) + rest);
    var r := PipeAt(s, i);
    BacksRead(s, r.pos, r.cmd, Depth(c), rest);
    CoreDepth(c);
  }

  lemma {:induction false} CoreSmaller<T>(c: Cmd<T>)
    ensures c.Back? || Core(c) == c
    ensures (1 + Shift(Core(c))) % 4 < (2 + Shift(c)) % 4 || Size(Core(c)) < Size(c)
  {
  }

  lemma {:induction false} LineRead(s: string, i: nat, c: Cmd<string>, rest: string)
    requires i <= |s| && IsText(s) && Printable(c) && s[i..] == PrintLine(c) + rest && Starts(rest, ")")
    ensures var r := LineAt(s, i); r.Ok? && r.pos == |s| - |rest| && Texts(s, r.cmd) == c
    decreases Size(c), (3 + Shift(c)) % 4, 0
  {
    hide GetTok, Skip, IsText, PrintLine, PrintPipe, PipeAt, BacksAt, ValidWord, Core, Depth, Amps;
    LineIs(c, rest);
    if c.List? {
      var more := PrintLine(c.right) + rest;
      var tail := ";" + " " + more;
      TightLine(c.right, rest);
      BackRead(s, i, c.left, tail);
      var b := BacksAt(s, PipeAt(s, i).pos, PipeAt(s, i).cmd);
      Suffix(s, i, PrintPipe(Core(c.left)) + Amps(Depth(c.left)), tail) by {
        var first, amps := PrintPipe(Core(c.left)), Amps(Depth(c.left));
        assert first + amps + tail == first + (amps + tail);
      }
      SymbolToken(s, b.pos, ';', more);
      LineRead(s, b.pos + 2, c.right, rest);
    } else {
      BackRead(s, i, c, rest);
      var b := BacksAt(s, PipeAt(s, i).pos, PipeAt(s, i).cmd);
      Suffix(s, i, PrintPipe(Core(c)) + Amps(Depth(c)), rest) by {
        assert PrintPipe(Core(c)) + Amps(Depth(c)) + rest == PrintPipe(Core(c)) + (Amps(Depth(c)) + rest);
      }
      SkipTight(s, b.pos, rest);
    }
  }

  lemma {:induction false} WordsText(ws: seq<string>)
    requires forall k :: 0 <= k < |ws| ==> ValidWord(ws[k])
    ensures IsText(PrintWords(ws))
  {
    if ws != [] {
      WordsText(ws[1..]);
    }
  }

  lemma {:induction false} RedirsText(rs: seq<Redirection<string>>)
    requires AllValid(rs)
    ensures IsText(PrintRedirs(rs))
  {
    if rs != [] {
      RedirsText(rs[1..]);
    }
  }

  lemma {:induction false} AmpsText(n: nat)
    ensures IsText(Amps(n))
  {
    if n > 0 {
      AmpsText(n - 1);
    }
  }

  lemma {:induction false} AtomText(c: Cmd<string>)
    requires Printable(c)
    ensures IsText(PrintAtom(c))
    decreases Size(c), (0 + Shift(c)) % 4
  {
    PrintableParts(c);
    RedirsText(Outer(c));
    var b := Base(c);
    if b.Exec? {
      WordsText(b.args);
    } else {
      LineText(b);
    }
  }

  lemma {:induction false} PipeText(c: Cmd<string>)
    requires Printable(c)
    ensures IsText(PrintPipe(c))
    decreases Size(c), (1 + Shift(c)) % 4
  {
    hide PrintAtom;
    if c.Pipe? {
      AtomText(c.left);
      PipeText(c.right);
    } else {
      AtomText(c);
    }
  }

  lemma {:induction false} BackText(c: Cmd<string>)
    requires Printable(c)
    ensures IsText(PrintBack(c))
    decreases Size(c), (2 + Shift(c)) % 4
  {
    hide PrintPipe, Amps;
    PrintableCore(c);
    PipeText(Core(c));
    AmpsText(Depth(c));
  }

  lemma {:induction false} LineText(c: Cmd<string>)
    requires Printable(c)
    ensures IsText(PrintLine(c))
    decreases Size(c), (3 + Shift(c)) % 4
  {
    hide PrintBack;
    if c.List? {
      BackText(c.left);
      LineText(c.right);
    } else {
      BackText(c);
    }
  }

  /** Printing a command and parsing the text gives the command back. */
  lemma {:induction false} RoundTrip(c: Cmd<string>)
    requires Printable(c)
    ensures var s := PrintLine(c); IsText(s) && var r := CmdAt(s); r.Ok? && Texts(s, r.cmd) == c
  {
    hide PrintLine, LineAt, IsText;
    LineText(c);
    var s := PrintLine(c);
    assert s[0..] == s + "";
    LineRead(s, 0, c, "");
    SkipTight(s, |s|, "");
  }
}
