/** The shell's parser, sh.c. The line is a C string without its terminator; a parser gets the
    position *ps and returns the new one. A panic is an Err. */
module Shell {
  import opened Common

  const MAXARGS: nat := 10

  predicate IsSpace(c: char) {
    c in " \t\r\n\U{000b}"
  }

  predicate IsSymbol(c: char) {
    c in "<|>&;()"
  }

  // ----- Tokens -----

  /** kind is what gettoken returns: the symbol, '+' for >>, 'a' for a word, NUL at the end. */
  datatype Token = Token(kind: char, from: nat, to: nat)

  function SkipSpace(s: CString, i: nat): (j: nat)
    requires i <= |s|
    ensures i <= j <= |s| && (j < |s| ==> !IsSpace(s[j]))
    decreases |s| - i
  {
    if i < |s| && IsSpace(s[i]) then SkipSpace(s, i + 1) else i
  }

  function WordEnd(s: CString, i: nat): (j: nat)
    requires i <= |s|
    ensures i <= j <= |s| && (j < |s| ==> IsSpace(s[j]) || IsSymbol(s[j]))
    ensures forall k :: i <= k < j ==> !IsSpace(s[k]) && !IsSymbol(s[k])
    decreases |s| - i
  {
    if i < |s| && !IsSpace(s[i]) && !IsSymbol(s[i]) then WordEnd(s, i + 1) else i
  }

  /** The token gettoken finds from i on. */
  function Scan(s: CString, i: nat): (t: Token)
    requires i <= |s|
    ensures i <= t.from <= t.to <= |s| && (t.kind != '\0' ==> t.from < t.to)
  {
    var j := SkipSpace(s, i);
    if j == |s| then Token('\0', j, j)
    else if s[j] == '>' then
      if j + 1 < |s| && s[j + 1] == '>' then Token('+', j, j + 2) else Token('>', j, j + 1)
    else if IsSymbol(s[j]) then Token(s[j], j, j + 1)
    else Token('a', j, WordEnd(s, j))
  }

  function Rest(s: CString, i: nat): nat
    requires i <= |s|
  {
    SkipSpace(s, Scan(s, i).to)
  }

  /** All the tokens of the line from i on. */
  function Lex(s: CString, i: nat): seq<Token>
    requires i <= |s|
    decreases |s| - i
  {
    var t := Scan(s, i);
    if t.kind == '\0' then [] else [t] + Lex(s, Rest(s, i))
  }

  lemma SkipTwice(s: CString, i: nat)
    requires i <= |s|
    ensures SkipSpace(s, SkipSpace(s, i)) == SkipSpace(s, i)
    ensures Scan(s, SkipSpace(s, i)) == Scan(s, i) && Lex(s, SkipSpace(s, i)) == Lex(s, i)
  {
  }

  lemma {:induction false} SkipIs(s: CString, i: nat)
    requires i <= |s|
    ensures var j := SkipSpace(s, i);
            && i <= j <= |s| && (forall k :: i <= k < j ==> s[k] in " \t\r\n\U{000b}")
            && (j < |s| ==> s[j] !in " \t\r\n\U{000b}")
    decreases |s| - i
  {
    if i < |s| && IsSpace(s[i]) {
      SkipIs(s, i + 1);
    }
  }

  lemma {:induction false} WordIs(s: CString, i: nat)
    requires i <= |s|
    ensures var j := WordEnd(s, i);
            && i <= j <= |s| && (forall k :: i <= k < j ==> s[k] !in " \t\r\n\U{000b}<|>&;()")
            && (j < |s| ==> s[j] in " \t\r\n\U{000b}<|>&;()")
    decreases |s| - i
  {
    if i < |s| && !IsSpace(s[i]) && !IsSymbol(s[i]) {
      WordIs(s, i + 1);
    }
  }

  /** The token at i, character by character. */
  lemma TokenIs(s: CString, i: nat)
    requires i <= |s|
    ensures var t := Scan(s, i);
            && i <= t.from <= t.to <= |s| && (forall k :: i <= k < t.from ==> s[k] in " \t\r\n\U{000b}")
            && (t.from == |s| <==> t.kind == '\0') && (t.from < |s| ==> s[t.from] !in " \t\r\n\U{000b}")
            && (t.from < |s| && s[t.from] in "<|&;()" ==> t.kind == s[t.from] && t.to == t.from + 1)
            && (t.from < |s| && s[t.from] == '>' ==>
                 if t.from + 1 < |s| && s[t.from + 1] == '>' then t.kind == '+' && t.to == t.from + 2
                 else t.kind == '>' && t.to == t.from + 1)
            && (t.from < |s| && s[t.from] !in "<|>&;()" ==>
                 && t.kind == 'a' && t.from < t.to && (t.to < |s| ==> s[t.to] in " \t\r\n\U{000b}<|>&;()")
                 && forall k :: t.from <= k < t.to ==> s[k] !in " \t\r\n\U{000b}<|>&;()")
  {
    SkipIs(s, i);
    var q := SkipSpace(s, i);
    if q < |s| {
      WordIs(s, q);
    }
  }

  /** The next token is looked for behind the last one; the line ends where there is none. */
  lemma LexIs(s: CString, i: nat)
    requires i <= |s|
    ensures Lex(s, i) == if Scan(s, i).kind == '\0' then [] else [Scan(s, i)] + Lex(s, Scan(s, i).to)
  {
    SkipTwice(s, Scan(s, i).to);
  }

  // ----- Commands and the grammar -----

  /** A piece of the line: an argument or a file name. */
  type Slice = (nat, nat)

  datatype Cmd =
    | Exec(argv: seq<Slice>)
    | Redir(cmd: Cmd, file: Slice, op: char)   // op: '<' reads; '>' and '+' create and write
    | Pipe(left: Cmd, right: Cmd)
    | List(first: Cmd, second: Cmd)
    | Back(bg: Cmd)

  // Derivations:  line -> pipe {&} [; line]     pipe -> exec [| pipe]
  //               exec -> ( line ) {redir}  or  {word | redir}

  datatype Line = Line(pipe: Pipeline, amps: seq<Token>, rest: Option<(Token, Line)>)

  datatype Pipeline = Pipeline(exec: Simple, rest: Option<(Token, Pipeline)>)

  datatype Simple =
    | Block(open: Token, line: Line, close: Token, redirs: seq<Item>)
    | Items(items: seq<Item>)

  datatype Item = Word(word: Token) | To(op: Token, file: Token)

  function ItemTokens(items: seq<Item>): seq<Token> {
    if items == [] then []
    else OneTokens(items[0]) + ItemTokens(items[1..])
  }

  function LineTokens(d: Line): seq<Token> {
    PipeTokens(d.pipe) + d.amps + (match d.rest case None => [] case Some(r) => [r.0] + LineTokens(r.1))
  }

  function PipeTokens(d: Pipeline): seq<Token> {
    SimpleTokens(d.exec) + (match d.rest case None => [] case Some(r) => [r.0] + PipeTokens(r.1))
  }

  function SimpleTokens(d: Simple): seq<Token> {
    match d
    case Block(o, l, c, rs) => [o] + LineTokens(l) + [c] + ItemTokens(rs)
    case Items(items) => ItemTokens(items)
  }

  predicate ItemOk(i: Item) {
    match i
    case Word(w) => w.kind == 'a'
    case To(op, file) => op.kind in "<>+" && file.kind == 'a'
  }

  predicate LineOk(d: Line) {
    && PipeOk(d.pipe) && (forall t :: t in d.amps ==> t.kind == '&')
    && (match d.rest case None => true case Some(r) => r.0.kind == ';' && LineOk(r.1))
  }

  predicate PipeOk(d: Pipeline) {
    SimpleOk(d.exec) && (match d.rest case None => true case Some(r) => r.0.kind == '|' && PipeOk(r.1))
  }

  predicate SimpleOk(d: Simple) {
    match d
    case Block(o, l, c, rs) =>
      o.kind == '(' && c.kind == ')' && LineOk(l) && forall i :: i in rs ==> i.To? && ItemOk(i)
    case Items(items) => forall i :: i in items ==> ItemOk(i)
  }

  /** Every simple command has fewer than MAXARGS words. */
  predicate LineFits(d: Line) {
    PipeFits(d.pipe) && (match d.rest case None => true case Some(r) => LineFits(r.1))
  }

  predicate PipeFits(d: Pipeline) {
    SimpleFits(d.exec) && (match d.rest case None => true case Some(r) => PipeFits(r.1))
  }

  predicate SimpleFits(d: Simple) {
    match d
    case Block(_, l, _, _) => LineFits(l)
    case Items(items) => |Slices(items)| < MAXARGS
  }

  // The command a derivation stands for.

  function Slices(items: seq<Item>): seq<Slice> {
    if items == [] then []
    else OneSlices(items[0]) + Slices(items[1..])
  }

  /** cmd with the redirections among items around it, the last outermost. */
  function Wrap(cmd: Cmd, items: seq<Item>): Cmd {
    if items == [] then cmd
    else
      var n := |items| - 1;
      WrapOne(Wrap(cmd, items[..n]), items[n])
  }

  function WrapOne(cmd: Cmd, i: Item): Cmd {
    match i
    case Word(w) => cmd
    case To(op, file) => Redir(cmd, (file.from, file.to), op.kind)
  }

  function OneTokens(i: Item): seq<Token> {
    match i
    case Word(w) => [w]
    case To(op, file) => [op, file]
  }

  function OneSlices(i: Item): seq<Slice> {
    if i.Word? then [(i.word.from, i.word.to)] else []
  }

  function Backs(cmd: Cmd, n: nat): Cmd {
    if n == 0 then cmd else Back(Backs(cmd, n - 1))
  }

  function LineTree(d: Line): Cmd {
    var b := Backs(PipeTree(d.pipe), |d.amps|);
    match d.rest case None => b case Some(r) => List(b, LineTree(r.1))
  }

  function PipeTree(d: Pipeline): Cmd {
    match d.rest case None => SimpleTree(d.exec) case Some(r) => Pipe(SimpleTree(d.exec), PipeTree(r.1))
  }

  function SimpleTree(d: Simple): Cmd {
    match d
    case Block(o, l, c, rs) => Wrap(LineTree(l), rs)
    case Items(items) => Wrap(Exec(Slices(items)), items)
  }

  // ----- The parsers -----

  datatype Result = Ok(cmd: Cmd) | Err(msg: string)

  // To show that no line of the grammar is refused, each parser also takes a derivation, if its caller
  // has one, of what is to come: it must then accept just that. The derivation is ghost.

  predicate Starts(ts: seq<Token>, kind: char) {
    ts != [] && ts[0].kind == kind
  }

  predicate StartsRedir(ts: seq<Token>) {
    Starts(ts, '<') || Starts(ts, '>') || Starts(ts, '+')
  }

  /** What may come after a line, a pipeline and a simple command. */
  predicate EndsLine(ts: seq<Token>) {
    ts == [] || Starts(ts, ')')
  }

  predicate EndsPipe(ts: seq<Token>) {
    EndsLine(ts) || Starts(ts, '&') || Starts(ts, ';')
  }

  predicate EndsExec(ts: seq<Token>) {
    EndsPipe(ts) || Starts(ts, '|')
  }

  ghost predicate ItemsWanted(s: CString, ps: nat, w: Option<(seq<Item>, seq<Token>)>)
    requires ps <= |s|
  {
    w.Some? ==>
      && (forall i :: i in w.value.0 ==> ItemOk(i))
      && Lex(s, ps) == ItemTokens(w.value.0) + w.value.1 && EndsExec(w.value.1)
  }

  ghost predicate LineWanted(s: CString, ps: nat, w: Option<(Line, seq<Token>)>)
    requires ps <= |s|
  {
    w.Some? ==>
      && LineOk(w.value.0) && LineFits(w.value.0)
      && Lex(s, ps) == LineTokens(w.value.0) + w.value.1 && EndsLine(w.value.1)
  }

  ghost predicate PipeWanted(s: CString, ps: nat, w: Option<(Pipeline, seq<Token>)>)
    requires ps <= |s|
  {
    w.Some? ==>
      && PipeOk(w.value.0) && PipeFits(w.value.0)
      && Lex(s, ps) == PipeTokens(w.value.0) + w.value.1 && EndsPipe(w.value.1)
  }

  ghost predicate ExecWanted(s: CString, ps: nat, w: Option<(Simple, seq<Token>)>)
    requires ps <= |s|
  {
    w.Some? ==>
      && SimpleOk(w.value.0) && SimpleFits(w.value.0)
      && Lex(s, ps) == SimpleTokens(w.value.0) + w.value.1 && EndsExec(w.value.1)
  }

  /** The wanted derivation was accepted and no more. */
  ghost predicate Got<T>(s: CString, w: Option<(T, seq<Token>)>, r: Result, ps': nat)
    requires ps' <= |s|
  {
    w.Some? ==> r.Ok? && Lex(s, ps') == w.value.1
  }

  // At a position with no space before it, the next character decides the kind of the next token.

  lemma LexFirst(s: CString, i: nat)
    requires i <= |s| && SkipSpace(s, i) == i
    ensures if i == |s| then Lex(s, i) == [] && Scan(s, i).kind == '\0'
            else Lex(s, i) == [Scan(s, i)] + Lex(s, Rest(s, i)) && Scan(s, i).kind != '\0'
  {
  }

  lemma PeekOne(s: CString, i: nat, c: char)
    requires i <= |s| && SkipSpace(s, i) == i && c in "|()&;"
    ensures i < |s| && s[i] in [c] <==> Starts(Lex(s, i), c)
    ensures i < |s| && s[i] in [c] ==> Scan(s, i).kind == c
  {
    LexFirst(s, i);
  }

  lemma PeekRedir(s: CString, i: nat)
    requires i <= |s| && SkipSpace(s, i) == i
    ensures i < |s| && s[i] in "<>" <==> StartsRedir(Lex(s, i))
    ensures i < |s| && s[i] in "<>" ==> Scan(s, i).kind in "<>+"
  {
    LexFirst(s, i);
  }

  lemma PeekStop(s: CString, i: nat)
    requires i <= |s| && SkipSpace(s, i) == i
    ensures i == |s| || s[i] in "|)&;" <==> EndsExec(Lex(s, i))
  {
    LexFirst(s, i);
  }

  method GetToken(s: CString, ps: nat) returns (t: Token, ps': nat)
    requires ps <= |s|
    ensures t == Scan(s, ps) && ps' == Rest(s, ps)
  {
    hide IsSpace, IsSymbol;
    var i := ps;
    while i < |s| && IsSpace(s[i])
      invariant ps <= i <= |s| && SkipSpace(s, i) == SkipSpace(s, ps)
    {
      i := i + 1;
    }
    var q := i;
    var ret := '\0';
    if i < |s| {
      ret := s[i];
      if ret == '>' {
        i := i + 1;
        if i < |s| && s[i] == '>' {
          ret := '+';
          i := i + 1;
        }
      } else if IsSymbol(ret) {
        i := i + 1;
      } else {
        ret := 'a';
        while i < |s| && !IsSpace(s[i]) && !IsSymbol(s[i])
          invariant q <= i <= |s| && WordEnd(s, i) == WordEnd(s, q)
        {
          i := i + 1;
        }
      }
    }
    t := Token(ret, q, i);
    while i < |s| && IsSpace(s[i])
      invariant t.to <= i <= |s| && SkipSpace(s, i) == SkipSpace(s, t.to)
    {
      i := i + 1;
    }
    ps' := i;
  }

  method Peek(s: CString, ps: nat, toks: string) returns (r: bool, ps': nat)
    requires ps <= |s|
    ensures ps' == SkipSpace(s, ps) && (r <==> ps' < |s| && s[ps'] in toks)
    ensures SkipSpace(s, ps') == ps' && Scan(s, ps') == Scan(s, ps) && Lex(s, ps') == Lex(s, ps)
  {
    hide Lex, Scan;
    var i := ps;
    while i < |s| && IsSpace(s[i])
      invariant ps <= i <= |s| && SkipSpace(s, i) == SkipSpace(s, ps)
    {
      i := i + 1;
    }
    SkipTwice(s, ps);
    return i < |s| && s[i] in toks, i;
  }

  lemma {:induction false} ItemTokensAppend(a: seq<Item>, b: seq<Item>)
    ensures ItemTokens(a + b) == ItemTokens(a) + ItemTokens(b)
  {
    if a == [] {
      assert a + b == b;
    } else {
      assert (a + b)[1..] == a[1..] + b;
      ItemTokensAppend(a[1..], b);
    }
  }

  lemma {:induction false} SlicesAppend(a: seq<Item>, b: seq<Item>)
    ensures Slices(a + b) == Slices(a) + Slices(b)
  {
    if a == [] {
      assert a + b == b;
    } else {
      assert (a + b)[1..] == a[1..] + b;
      SlicesAppend(a[1..], b);
    }
  }

  lemma {:induction false} WrapAppend(cmd: Cmd, a: seq<Item>, b: seq<Item>)
    ensures Wrap(cmd, a + b) == Wrap(Wrap(cmd, a), b)
    decreases |b|
  {
    if b == [] {
      assert a + b == a;
    } else {
      var n := |b| - 1;
      assert (a + b)[..|a| + n] == a + b[..n];
      WrapAppend(cmd, a, b[..n]);
    }
  }

  lemma {:induction false} NoSlices(items: seq<Item>)
    requires forall i :: i in items ==> i.To?
    ensures Slices(items) == []
  {
    if items != [] {
      assert items[0] in items;
      NoSlices(items[1..]);
    }
  }

  lemma OneItem(cmd: Cmd, i: Item)
    ensures ItemTokens([i]) == OneTokens(i) && Slices([i]) == OneSlices(i) && Wrap(cmd, [i]) == WrapOne(cmd, i)
  {
    assert [i][1..] == [] && [i][..0] == [];
  }

  lemma Uncons(t: Token, a: seq<Token>, u: Token, b: seq<Token>)
    requires [t] + a == [u] + b
    ensures t == u && a == b
  {
    assert ([t] + a)[0] == t && ([u] + b)[0] == u && ([t] + a)[1..] == a && ([u] + b)[1..] == b;
  }

  /** Where a redirection is next, it is what the wanted items begin with. */
  lemma WantedRedir(items: seq<Item>, tail: seq<Token>, more: seq<Token>)
    requires (forall i :: i in items ==> ItemOk(i)) && EndsExec(tail)
    requires more == ItemTokens(items) + tail && StartsRedir(more)
    ensures items != [] && items[0].To? && items[0].file.kind == 'a' && Slices(items[1..]) == Slices(items)
    ensures more == [items[0].op] + ([items[0].file] + (ItemTokens(items[1..]) + tail))
  {
    hide ItemTokens, Slices;
    RedirFirst(items, tail);
    RedirTokens(items, tail);
  }

  lemma RedirFirst(items: seq<Item>, tail: seq<Token>)
    requires (forall i :: i in items ==> ItemOk(i)) && EndsExec(tail) && StartsRedir(ItemTokens(items) + tail)
    ensures items != [] && items[0].To? && items[0].file.kind == 'a'
  {
    ItemsStart(items, tail);
    hide ItemTokens;
  }

  lemma RedirTokens(items: seq<Item>, tail: seq<Token>)
    requires items != [] && items[0].To?
    ensures ItemTokens(items) + tail == [items[0].op] + ([items[0].file] + (ItemTokens(items[1..]) + tail))
    ensures Slices(items[1..]) == Slices(items)
  {
    ItemsNext(items, tail);
  }

  /** The next redirection is the first wanted item, and what is wanted after it comes after it. */
  lemma WantedRedirNext(s: CString, i: nat, left: seq<Item>, tail: seq<Token>)
    requires i <= |s| && SkipSpace(s, i) == i && StartsRedir(Lex(s, i)) && ItemsWanted(s, i, Some((left, tail)))
    ensures left != [] && left[0] == To(Scan(s, i), Scan(s, Rest(s, i))) && Scan(s, Rest(s, i)).kind == 'a'
    ensures Slices(left[1..]) == Slices(left) && forall x :: x in left[1..] ==> x in left
    ensures ItemsWanted(s, Rest(s, Rest(s, i)), Some((left[1..], tail)))
  {
    hide Scan, Slices;
    LexFirst(s, i);
    RestSkipped(s, i);
    LexFirst(s, Rest(s, i));
    hide Lex, Rest;
    WantedRedir(left, tail, Lex(s, i));
    hide StartsRedir, EndsExec, ItemTokens;
    var j := Rest(s, i);
    var after := ItemTokens(left[1..]) + tail;
    Uncons(Scan(s, i), Lex(s, j), left[0].op, [left[0].file] + after);
    Uncons(Scan(s, j), Lex(s, Rest(s, j)), left[0].file, after);
  }

  /** What the tokens of items begin with. */
  lemma ItemsStart(items: seq<Item>, tail: seq<Token>)
    requires forall i :: i in items ==> ItemOk(i)
    ensures items == [] ==> ItemTokens(items) + tail == tail
    ensures items != [] ==>
              && ItemOk(items[0]) && ItemTokens(items) + tail != []
              && (ItemTokens(items) + tail)[0] == (if items[0].Word? then items[0].word else items[0].op)
  {
    if items != [] {
      assert items[0] in items;
    }
  }

  /** One redirection: its operator and its file, which is what the wanted items begin with. */
  method GetRedir(s: CString, ps: nat, ghost left: seq<Item>, ghost tail: Option<seq<Token>>)
    returns (op: Token, file: Token, ps': nat)
    requires ps < |s| && SkipSpace(s, ps) == ps && s[ps] in "<>"
    requires tail.Some? ==> ItemsWanted(s, ps, Some((left, tail.value)))
    ensures ps < ps' <= |s| && op.kind in "<>+"
    ensures file.kind == 'a' ==> Lex(s, ps) == [op] + ([file] + Lex(s, ps'))
    ensures tail.Some? ==>
              && file.kind == 'a' && left != [] && ItemsWanted(s, ps', Some((left[1..], tail.value)))
              && left[0] == To(op, file)
  {
    hide Lex, Scan, SkipSpace, ItemTokens, ItemsWanted;
    PeekRedir(s, ps);
    LexStep(s, ps);
    op, ps' := GetToken(s, ps);
    ghost var p1 := ps';
    if tail.Some? {
      WantedRedirNext(s, ps, left, tail.value);
    }
    file, ps' := GetToken(s, ps');
    RestSkipped(s, ps);
    RestGrows(s, p1);
    if file.kind == 'a' {
      LexStep(s, p1);
    }
  }

  lemma RestGrows(s: CString, i: nat)
    requires i <= |s|
    ensures i <= Rest(s, i) <= |s|
  {
  }

  lemma AddRedir(cmd: Cmd, rs: seq<Item>, op: Token, file: Token, rest: seq<Token>)
    ensures var all := rs + [To(op, file)];
            && Wrap(cmd, all) == Redir(Wrap(cmd, rs), (file.from, file.to), op.kind)
            && ItemTokens(all) + rest == ItemTokens(rs) + ([op] + ([file] + rest))
  {
    var i := To(op, file);
    OneItem(Wrap(cmd, rs), i);
    ItemTokensAppend(rs, [i]);
    WrapAppend(cmd, rs, [i]);
    hide ItemTokens, Wrap;
    Regroup(ItemTokens(rs), OneTokens(i), rest);
    assert OneTokens(i) == [op] + [file];
    Regroup([op], [file], rest);
  }

  /** parseredirs writes through cmd: redirections go around it. left are the wanted items after them. */
  method ParseRedirs(cmd: Cmd, s: CString, ps: nat, ghost want: Option<(seq<Item>, seq<Token>)>)
    returns (r: Result, ps': nat, ghost rs: seq<Item>, ghost left: seq<Item>)
    requires ps <= |s| && ItemsWanted(s, ps, want)
    ensures ps <= ps' <= |s|
    ensures r.Ok? ==> r.cmd == Wrap(cmd, rs) && Lex(s, ps) == ItemTokens(rs) + Lex(s, ps')
    ensures forall i :: i in rs ==> i.To? && ItemOk(i)
    ensures want.Some? ==>
              && r.Ok? && want.value.0 == rs + left && (left == [] || left[0].Word?)
              && ItemsWanted(s, ps', Some((left, want.value.1)))
  {
    hide Lex, Scan, SkipSpace, Wrap, ItemTokens, ItemsWanted;
    var ret := cmd;
    ghost var tail := if want.Some? then Some(want.value.1) else None;
    rs, left := [], if want.Some? then want.value.0 else [];
    NoItems(cmd);
    var more;
    more, ps' := Peek(s, ps, "<>");
    WantedSkipped(s, ps, ps', want);
    while more
      invariant ps <= ps' <= |s| && ps' == SkipSpace(s, ps')
      invariant want.Some? ==> ItemsWanted(s, ps', Some((left, want.value.1))) && want.value.0 == rs + left
      invariant more <==> ps' < |s| && s[ps'] in "<>"
      invariant ret == Wrap(cmd, rs) && Lex(s, ps) == ItemTokens(rs) + Lex(s, ps')
      invariant forall i :: i in rs ==> i.To? && ItemOk(i)
      decreases |s| - ps'
    {
      var op, file;
      op, file, ps' := GetRedir(s, ps', left, tail);
      if file.kind != 'a' {
        return Err("missing file for redirection"), ps', rs, left;
      }
      AddRedir(cmd, rs, op, file, Lex(s, ps'));
      ret := Redir(ret, (file.from, file.to), op.kind);
      if want.Some? {
        Shift(rs, left);
        left := left[1..];
      }
      rs := rs + [To(op, file)];
      ghost var p2 := ps';
      more, ps' := Peek(s, ps', "<>");
      WantedSkipped(s, p2, ps', if want.Some? then Some((left, want.value.1)) else None);
    }
    PeekRedir(s, ps');
    if want.Some? {
      Unwanted(s, ps', left, want.value.1);
    }
    r := Ok(ret);
  }

  lemma Shift(rs: seq<Item>, left: seq<Item>)
    requires left != []
    ensures rs + left == rs + [left[0]] + left[1..]
  {
  }

  lemma WantedSkipped(s: CString, i: nat, j: nat, want: Option<(seq<Item>, seq<Token>)>)
    requires i <= |s| && j <= |s| && Lex(s, i) == Lex(s, j) && ItemsWanted(s, i, want)
    ensures ItemsWanted(s, j, want)
  {
  }

  /** Where no redirection is next, the wanted items do not begin with one. */
  lemma Unwanted(s: CString, ps: nat, items: seq<Item>, tail: seq<Token>)
    requires ps <= |s| && ItemsWanted(s, ps, Some((items, tail))) && !StartsRedir(Lex(s, ps))
    ensures items == [] || items[0].Word?
  {
    hide Lex;
    ItemsStart(items, tail);
  }

  lemma RestSkipped(s: CString, i: nat)
    requires i <= |s|
    ensures SkipSpace(s, Rest(s, i)) == Rest(s, i)
  {
    SkipTwice(s, Scan(s, i).to);
  }

  lemma NoItems(cmd: Cmd)
    ensures Wrap(cmd, []) == cmd && ItemTokens([]) == [] && Slices([]) == []
  {
  }

  /** At a position with no space before it, what the first character says about the token. */
  lemma ScanFirst(s: CString, i: nat)
    requires i <= |s| && SkipSpace(s, i) == i
    ensures Scan(s, i).kind == '\0' <==> i == |s|
    ensures i < |s| ==> Scan(s, i).from == i && Rest(s, i) > i
    ensures i < |s| && s[i] != '>' && IsSymbol(s[i]) ==> Scan(s, i).kind == s[i]
    ensures i < |s| && s[i] == '>' ==> Scan(s, i).kind in ">+"
    ensures i < |s| && !IsSymbol(s[i]) ==> Scan(s, i).kind == 'a'
  {
  }

  lemma LexStep(s: CString, i: nat)
    requires i <= |s| && Scan(s, i).kind != '\0'
    ensures Lex(s, i) == [Scan(s, i)] + Lex(s, Rest(s, i)) && i < Rest(s, i) <= |s|
  {
  }

  /** cmd->argv is written through the execcmd, wherever redirections have wrapped it. */
  function SetArgv(cmd: Cmd, argv: seq<Slice>): Cmd {
    match cmd
    case Exec(_) => Exec(argv)
    case Redir(c, file, op) => Redir(SetArgv(c, argv), file, op)
    case _ => cmd
  }

  lemma {:induction false} SetArgvWrap(items: seq<Item>, argv: seq<Slice>)
    ensures SetArgv(Wrap(Exec([]), items), argv) == Wrap(Exec(argv), items)
    decreases |items|
  {
    if items != [] {
      SetArgvWrap(items[..|items| - 1], argv);
    }
  }

  // What each parser promises: when it accepts, a derivation of exactly the tokens consumed,
  // whose tree is the command.

  ghost predicate LineParsed(s: CString, ps: nat, r: Result, ps': nat, d: Line) {
    && ps <= ps' <= |s|
    && (r.Ok? ==> LineOk(d) && LineFits(d) && LineTree(d) == r.cmd && Lex(s, ps) == LineTokens(d) + Lex(s, ps'))
  }

  ghost predicate PipeParsed(s: CString, ps: nat, r: Result, ps': nat, d: Pipeline) {
    && ps <= ps' <= |s|
    && (r.Ok? ==> PipeOk(d) && PipeFits(d) && PipeTree(d) == r.cmd && Lex(s, ps) == PipeTokens(d) + Lex(s, ps'))
  }

  ghost predicate ExecParsed(s: CString, ps: nat, r: Result, ps': nat, d: Simple) {
    && ps <= ps' <= |s|
    && (r.Ok? ==> SimpleOk(d) && SimpleFits(d) && SimpleTree(d) == r.cmd && Lex(s, ps) == SimpleTokens(d) + Lex(s, ps'))
  }

  /** An open parenthesis begins a block, and nothing else. */
  lemma WantedBlock(d: Simple, tail: seq<Token>, more: seq<Token>)
    requires SimpleOk(d) && EndsExec(tail) && more == SimpleTokens(d) + tail
    ensures d.Block? <==> Starts(more, '(')
  {
    if d.Items? {
      ItemsStart(d.items, tail);
    }
  }

  method ParseExec(s: CString, ps: nat, ghost want: Option<(Simple, seq<Token>)>)
    returns (r: Result, ps': nat, ghost d: Simple)
    requires ps <= |s| && ExecWanted(s, ps, want)
    ensures ExecParsed(s, ps, r, ps', d) && Got(s, want, r, ps')
    decreases |s| - ps, 1
  {
    var paren;
    hide Lex, Scan, SkipSpace, Rest, SimpleOk, SimpleFits, SimpleTokens;
    paren, ps' := Peek(s, ps, "(");
    PeekOne(s, ps', '(');
    if want.Some? {
      WantedBlock(want.value.0, want.value.1, Lex(s, ps'));
    }
    if paren {
      r, ps', d := ParseBlock(s, ps', want);
      return;
    }
    r, ps', d := ParseArgs(s, ps', want);
  }

  /** Where a word is next, it is the first of the wanted items; and where none is, there are no more. */
  lemma WantedWord(items: seq<Item>, tail: seq<Token>, more: seq<Token>)
    requires (forall i :: i in items ==> ItemOk(i)) && EndsExec(tail) && (items == [] || items[0].Word?)
    requires more == ItemTokens(items) + tail
    ensures if EndsExec(more) then items == [] && more == tail
            else && items != [] && items[0].Word? && items[0].word.kind == 'a'
                 && more == [items[0].word] + (ItemTokens(items[1..]) + tail)
                 && |Slices(items)| == 1 + |Slices(items[1..])|
  {
    ItemsStart(items, tail);
    hide ItemTokens;
    if items != [] {
      ItemsNext(items, tail);
      OneSlice(items);
    }
  }

  lemma OneSlice(items: seq<Item>)
    requires items != [] && items[0].Word?
    ensures |Slices(items)| == 1 + |Slices(items[1..])|
  {
  }

  /** The rest of parseexec: words and redirections in any order. */
  method ParseArgs(s: CString, ps: nat, ghost want: Option<(Simple, seq<Token>)>)
    returns (r: Result, ps': nat, ghost d: Simple)
    requires ps <= |s| && ExecWanted(s, ps, want) && (want.Some? ==> want.value.0.Items?)
    ensures ExecParsed(s, ps, r, ps', d) && Got(s, want, r, ps')
  {
    hide Lex, Scan, SkipSpace, Rest, Wrap, ItemTokens, Slices;
    var argv: seq<Slice> := [];
    ghost var items, more, left;
    ghost var goal := if want.Some? then Some((want.value.0.items, want.value.1)) else None;
    d := Items([]);
    r, ps', items, left := ParseRedirs(Exec([]), s, ps, goal);
    if r.Err? {
      return;
    }
    NoSlices(items);
    SlicesAppend(items, left);
    var ret := r.cmd;
    var stop;
    stop, ps' := Peek(s, ps', "|)&;");
    while !stop
      invariant ps <= ps' <= |s| && SkipSpace(s, ps') == ps' && (stop <==> ps' < |s| && s[ps'] in "|)&;")
      invariant ret == Wrap(Exec([]), items) && argv == Slices(items) && |argv| < MAXARGS
      invariant Lex(s, ps) == ItemTokens(items) + Lex(s, ps')
      invariant forall i :: i in items ==> ItemOk(i)
      invariant goal.Some? ==>
                  ItemsWanted(s, ps', Some((left, goal.value.1))) && (left == [] || left[0].Word?)
                  && |argv| + |Slices(left)| < MAXARGS
      decreases |s| - ps'
    {
      ghost var p0 := ps';
      ScanFirst(s, ps');
      PeekStop(s, ps');
      LexFirst(s, ps');
      if goal.Some? {
        WantedWord(left, goal.value.1, Lex(s, ps'));
      }
      var tok;
      tok, ps' := GetToken(s, ps');
      if tok.kind == '\0' {
        LexEnd(s, p0);
        break;
      }
      LexStep(s, p0);
      if tok.kind != 'a' {
        return Err("syntax"), ps', d;
      }
      argv := argv + [(tok.from, tok.to)];
      if |argv| >= MAXARGS {
        return Err("too many args"), ps', d;
      }
      if goal.Some? {
        Uncons(tok, Lex(s, ps'), left[0].word, ItemTokens(left[1..]) + goal.value.1);
      }
      ghost var next := if goal.Some? then Some((left[1..], goal.value.1)) else None;
      r, ps', more, left := ParseRedirs(ret, s, ps', next);
      if r.Err? {
        return;
      }
      AddWord(items, tok, more);
      NoSlices(more);
      SlicesAppend(more, left);
      assert ItemTokens(items) + ([tok] + (ItemTokens(more) + Lex(s, ps'))) ==
             ItemTokens(items) + [tok] + ItemTokens(more) + Lex(s, ps');
      ret := r.cmd;
      items := items + [Word(tok)] + more;
      stop, ps' := Peek(s, ps', "|)&;");
    }
    PeekStop(s, ps');
    if goal.Some? {
      WantedWord(left, goal.value.1, Lex(s, ps'));
    }
    SetArgvWrap(items, argv);
    d := Items(items);
    r := Ok(SetArgv(ret, argv));
  }

  lemma AddWord(items: seq<Item>, w: Token, more: seq<Item>)
    requires forall i :: i in more ==> i.To?
    ensures var all := items + [Word(w)] + more;
            && ItemTokens(all) == ItemTokens(items) + [w] + ItemTokens(more)
            && Slices(all) == Slices(items) + [(w.from, w.to)]
            && Wrap(Exec([]), all) == Wrap(Wrap(Exec([]), items), more)
  {
    var i := Word(w);
    OneItem(Wrap(Exec([]), items), i);
    ItemTokensAppend(items + [i], more);
    ItemTokensAppend(items, [i]);
    SlicesAppend(items + [i], more);
    SlicesAppend(items, [i]);
    NoSlices(more);
    WrapAppend(Exec([]), items + [i], more);
    WrapAppend(Exec([]), items, [i]);
  }

  lemma LexEnd(s: CString, i: nat)
    requires i <= |s| && Scan(s, i).kind == '\0'
    ensures Lex(s, i) == [] && Rest(s, i) == |s| && Lex(s, |s|) == []
  {
  }

  lemma WantedLine(d: Simple, tail: seq<Token>, open: Token, more: seq<Token>)
    requires d.Block? && SimpleOk(d) && [open] + more == SimpleTokens(d) + tail
    ensures more == LineTokens(d.line) + ([d.close] + ItemTokens(d.redirs) + tail)
  {
    hide LineTokens, ItemTokens, LineOk;
    var rest := LineTokens(d.line) + ([d.close] + ItemTokens(d.redirs) + tail);
    assert SimpleTokens(d) + tail == [d.open] + rest;
    Uncons(open, more, d.open, rest);
  }

  lemma OnlyRedirs(items: seq<Item>, rs: seq<Item>, left: seq<Item>)
    requires items == rs + left && (left == [] || left[0].Word?) && forall i :: i in items ==> i.To?
    ensures left == []
  {
    forall i | i in left
      ensures i.To?
    {
      assert i in items;
    }
    NoWords(left);
  }

  lemma NoWords(items: seq<Item>)
    requires forall i :: i in items ==> i.To?
    ensures items == [] || items[0].To?
  {
    if items != [] {
      assert items[0] in items;
    }
  }

  method ParseBlock(s: CString, ps: nat, ghost want: Option<(Simple, seq<Token>)>)
    returns (r: Result, ps': nat, ghost d: Simple)
    requires ps <= |s| && ExecWanted(s, ps, want) && (want.Some? ==> want.value.0.Block?)
    ensures ExecParsed(s, ps, r, ps', d) && Got(s, want, r, ps')
    decreases |s| - ps, 0
  {
    hide Lex, Scan, SkipSpace, Rest, Wrap, ItemTokens, LineOk, LineTree, LineTokens, LineFits;
    d := Items([]);
    var paren, open, close;
    paren, ps' := Peek(s, ps, "(");
    PeekOne(s, ps', '(');
    if want.Some? {
      WantedBlock(want.value.0, want.value.1, Lex(s, ps'));
    }
    if !paren {
      return Err("parseblock"), ps', d;
    }
    ghost var p0 := ps';
    ScanFirst(s, ps');
    open, ps' := GetToken(s, ps');
    LexStep(s, p0);
    ghost var line, rs, left;
    ghost var inner: Option<(Line, seq<Token>)>, after: Option<(seq<Item>, seq<Token>)> := None, None;
    if want.Some? {
      ghost var b := want.value.0;
      WantedLine(b, want.value.1, open, Lex(s, ps'));
      inner := Some((b.line, [b.close] + ItemTokens(b.redirs) + want.value.1));
      after := Some((b.redirs, want.value.1));
    }
    r, ps', line := ParseLine(s, ps', inner);
    if r.Err? {
      return;
    }
    paren, ps' := Peek(s, ps', ")");
    PeekOne(s, ps', ')');
    if !paren {
      return Err("syntax - missing )"), ps', d;
    }
    ghost var p1 := ps';
    ScanFirst(s, ps');
    close, ps' := GetToken(s, ps');
    LexStep(s, p1);
    if want.Some? {
      ghost var b := want.value.0;
      Regroup([b.close], ItemTokens(b.redirs), want.value.1);
      Uncons(close, Lex(s, ps'), b.close, ItemTokens(b.redirs) + want.value.1);
    }
    r, ps', rs, left := ParseRedirs(r.cmd, s, ps', after);
    if want.Some? {
      OnlyRedirs(want.value.0.redirs, rs, left);
      NoItems(r.cmd);
    }
    if r.Err? {
      return;
    }
    d := Block(open, line, close, rs);
    BlockTokens(open, LineTokens(line), close, ItemTokens(rs), Lex(s, ps'));
  }

  lemma BlockTokens(open: Token, line: seq<Token>, close: Token, redirs: seq<Token>, rest: seq<Token>)
    ensures [open] + (line + ([close] + (redirs + rest))) == [open] + line + [close] + redirs + rest
  {
  }

  function PipeRest(d: Pipeline): seq<Token> {
    match d.rest case None => [] case Some(r) => [r.0] + PipeTokens(r.1)
  }

  /** After the first command of a pipeline: a bar and the rest, or what follows the pipeline. */
  lemma WantedBar(d: Pipeline, tail: seq<Token>)
    requires PipeOk(d) && EndsPipe(tail)
    ensures var more := PipeRest(d) + tail;
            && PipeTokens(d) + tail == SimpleTokens(d.exec) + more && EndsExec(more)
            && (d.rest.Some? <==> Starts(more, '|'))
            && (d.rest.Some? ==> more == [d.rest.value.0] + (PipeTokens(d.rest.value.1) + tail))
            && (d.rest.None? ==> more == tail)
  {
    hide SimpleTokens, SimpleOk;
  }

  method ParsePipe(s: CString, ps: nat, ghost want: Option<(Pipeline, seq<Token>)>)
    returns (r: Result, ps': nat, ghost d: Pipeline)
    requires ps <= |s| && PipeWanted(s, ps, want)
    ensures PipeParsed(s, ps, r, ps', d) && Got(s, want, r, ps')
    decreases |s| - ps, 2
  {
    hide Lex, Scan, SkipSpace, Rest, SimpleOk, SimpleTree, SimpleTokens, SimpleFits, PipeRest;
    ghost var exec, rest;
    ghost var first: Option<(Simple, seq<Token>)>, second: Option<(Pipeline, seq<Token>)> := None, None;
    if want.Some? {
      WantedBar(want.value.0, want.value.1);
      first := Some((want.value.0.exec, PipeRest(want.value.0) + want.value.1));
    }
    r, ps', exec := ParseExec(s, ps, first);
    d := Pipeline(exec, None);
    if r.Err? {
      return;
    }
    var cmd := r.cmd;
    var bar;
    bar, ps' := Peek(s, ps', "|");
    PeekOne(s, ps', '|');
    if bar {
      ghost var p0 := ps';
      ScanFirst(s, ps');
      bar := false;
      var tok;
      tok, ps' := GetToken(s, ps');
      LexStep(s, p0);
      if want.Some? {
        ghost var w := want.value.0.rest.value;
        Uncons(tok, Lex(s, ps'), w.0, PipeTokens(w.1) + want.value.1);
        second := Some((w.1, want.value.1));
      }
      r, ps', rest := ParsePipe(s, ps', second);
      if r.Err? {
        return;
      }
      d := Pipeline(exec, Some((tok, rest)));
      assert SimpleTokens(exec) + ([tok] + (PipeTokens(rest) + Lex(s, ps'))) ==
             SimpleTokens(exec) + ([tok] + PipeTokens(rest)) + Lex(s, ps');
      r := Ok(Pipe(cmd, r.cmd));
    }
  }

  function LineSemi(d: Line): seq<Token> {
    match d.rest case None => [] case Some(r) => [r.0] + LineTokens(r.1)
  }

  lemma LineSplit(d: Line, tail: seq<Token>)
    ensures LineTokens(d) + tail == PipeTokens(d.pipe) + (d.amps + (LineSemi(d) + tail))
  {
    hide PipeTokens;
  }

  /** After the ampersands: a semicolon and the rest, or what follows the line. */
  lemma WantedSemi(d: Line, tail: seq<Token>)
    requires LineOk(d) && EndsLine(tail)
    ensures var more := LineSemi(d) + tail;
            && EndsPipe(more) && !Starts(more, '&') && (d.rest.Some? <==> Starts(more, ';'))
            && (if d.rest.Some? then more == [d.rest.value.0] + (LineTokens(d.rest.value.1) + tail) else more == tail)
  {
    hide PipeTokens, PipeOk, LineTokens;
  }

  /** Ampersands first, then what is no ampersand. */
  lemma WantedAmps(amps: seq<Token>, rest: seq<Token>)
    requires (forall t :: t in amps ==> t.kind == '&') && !Starts(rest, '&')
    ensures amps != [] <==> Starts(amps + rest, '&')
    ensures if amps != [] then amps + rest == [amps[0]] + (amps[1..] + rest) else amps + rest == rest
  {
    if amps != [] {
      assert amps[0] in amps && (amps + rest)[0] == amps[0];
      Regroup(amps, rest, []);
      assert amps + rest + [] == amps + rest && amps[1..] + rest + [] == amps[1..] + rest;
    } else {
      assert amps + rest == rest;
    }
  }

  lemma Regroup(a: seq<Token>, b: seq<Token>, c: seq<Token>)
    ensures a + b + c == a + (b + c)
    ensures a != [] ==> a + b + c == [a[0]] + (a[1..] + b + c)
    ensures a == [] ==> a + b + c == b + c
  {
    if a != [] {
      assert a == [a[0]] + a[1..];
    }
  }

  lemma NextAmp(s: CString, i: nat, amps: seq<Token>)
    requires i < |s| && SkipSpace(s, i) == i && s[i] in "&"
    ensures Scan(s, i).kind == '&' && i < Rest(s, i) <= |s|
    ensures Starts(Lex(s, i), '&') && amps + Lex(s, i) == amps + [Scan(s, i)] + Lex(s, Rest(s, i))
  {
    ScanFirst(s, i);
    PeekOne(s, i, '&');
    LexStep(s, i);
    Regroup(amps, [Scan(s, i)], Lex(s, Rest(s, i)));
  }

  lemma NextPending(s: CString, i: nat, pending: seq<Token>, tail: seq<Token>)
    requires i < |s| && Scan(s, i).kind == '&' && Lex(s, i) == pending + tail && !Starts(tail, '&')
    requires forall t :: t in pending ==> t.kind == '&'
    ensures i < Rest(s, i) <= |s| && pending != [] && Lex(s, Rest(s, i)) == pending[1..] + tail
  {
    LexStep(s, i);
    WantedAmps(pending, tail);
    Uncons(Scan(s, i), Lex(s, Rest(s, i)), pending[0], pending[1..] + tail);
  }

  /** The loop of parseline: each ampersand wraps the command once more. */
  method ParseAmps(s: CString, ps: nat, pipe: Cmd, ghost want: Option<(seq<Token>, seq<Token>)>)
    returns (cmd: Cmd, ps': nat, ghost amps: seq<Token>)
    requires ps <= |s|
    requires want.Some? ==>
               && Lex(s, ps) == want.value.0 + want.value.1 && !Starts(want.value.1, '&')
               && forall t :: t in want.value.0 ==> t.kind == '&'
    ensures ps <= ps' <= |s| && SkipSpace(s, ps') == ps'
    ensures cmd == Backs(pipe, |amps|) && forall t :: t in amps ==> t.kind == '&'
    ensures Lex(s, ps) == amps + Lex(s, ps')
    ensures want.Some? ==> Lex(s, ps') == want.value.1
  {
    hide Lex, Scan, SkipSpace, Rest;
    cmd, amps := pipe, [];
    ghost var pending := if want.Some? then want.value.0 else [];
    var more;
    more, ps' := Peek(s, ps, "&");
    while more
      invariant ps <= ps' <= |s| && SkipSpace(s, ps') == ps' && (more <==> ps' < |s| && s[ps'] in "&")
      invariant cmd == Backs(pipe, |amps|) && forall t :: t in amps ==> t.kind == '&'
      invariant Lex(s, ps) == amps + Lex(s, ps')
      invariant want.Some? ==> Lex(s, ps') == pending + want.value.1
      invariant forall t :: t in pending ==> t.kind == '&'
      decreases |s| - ps'
    {
      NextAmp(s, ps', amps);
      var tok;
      if want.Some? {
        NextPending(s, ps', pending, want.value.1);
        pending := pending[1..];
      }
      tok, ps' := GetToken(s, ps');
      amps := amps + [tok];
      cmd := Back(cmd);
      more, ps' := Peek(s, ps', "&");
    }
    PeekOne(s, ps', '&');
    if want.Some? {
      WantedAmps(pending, want.value.1);
    }
  }

  method ParseLine(s: CString, ps: nat, ghost want: Option<(Line, seq<Token>)>)
    returns (r: Result, ps': nat, ghost d: Line)
    requires ps <= |s| && LineWanted(s, ps, want)
    ensures LineParsed(s, ps, r, ps', d) && Got(s, want, r, ps')
    decreases |s| - ps, 3
  {
    hide Lex, Scan, SkipSpace, Rest, PipeOk, PipeTree, PipeTokens, PipeFits, LineSemi, Backs, Starts;
    ghost var pipe, rest, amps;
    ghost var first: Option<(Pipeline, seq<Token>)>, second: Option<(Line, seq<Token>)> := None, None;
    ghost var ahead: Option<(seq<Token>, seq<Token>)> := None;
    if want.Some? {
      ghost var w := want.value.0;
      WantedSemi(w, want.value.1);
      LineSplit(w, want.value.1);
      AmpsEnd(w.amps, LineSemi(w) + want.value.1);
      first := Some((w.pipe, w.amps + (LineSemi(w) + want.value.1)));
      ahead := Some((w.amps, LineSemi(w) + want.value.1));
    }
    r, ps', pipe := ParsePipe(s, ps, first);
    d := Line(pipe, [], None);
    if r.Err? {
      return;
    }
    var cmd;
    cmd, ps', amps := ParseAmps(s, ps', r.cmd, ahead);
    d := Line(pipe, amps, None);
    r := Ok(cmd);
    var semi;
    semi, ps' := Peek(s, ps', ";");
    PeekOne(s, ps', ';');
    LineEnd(PipeTokens(pipe), amps, Lex(s, ps'));
    if semi {
      ghost var p0 := ps';
      ScanFirst(s, ps');
      var tok;
      tok, ps' := GetToken(s, ps');
      LexStep(s, p0);
      if want.Some? {
        ghost var w := want.value.0.rest.value;
        Uncons(tok, Lex(s, ps'), w.0, LineTokens(w.1) + want.value.1);
        second := Some((w.1, want.value.1));
      }
      r, ps', rest := ParseLine(s, ps', second);
      if r.Err? {
        return;
      }
      d := Line(pipe, amps, Some((tok, rest)));
      LineMore(PipeTokens(pipe), amps, tok, LineTokens(rest), Lex(s, ps'));
      r := Ok(List(cmd, r.cmd));
    }
  }

  lemma AmpsEnd(amps: seq<Token>, rest: seq<Token>)
    requires (forall t :: t in amps ==> t.kind == '&') && EndsPipe(rest)
    ensures EndsPipe(amps + rest)
  {
    if amps != [] {
      assert amps[0] in amps && (amps + rest)[0] == amps[0];
    } else {
      assert amps + rest == rest;
    }
  }

  lemma LineEnd(pipe: seq<Token>, amps: seq<Token>, more: seq<Token>)
    ensures pipe + (amps + more) == pipe + amps + [] + more
  {
  }

  lemma LineMore(pipe: seq<Token>, amps: seq<Token>, semi: Token, rest: seq<Token>, more: seq<Token>)
    ensures pipe + (amps + ([semi] + (rest + more))) == pipe + amps + ([semi] + rest) + more
  {
  }

  // ----- A line has one derivation -----

  /** Items, with what ends a simple command behind them, are read in one way. */
  lemma {:induction false} OneItems(a: seq<Item>, x: seq<Token>, b: seq<Item>, y: seq<Token>)
    requires ItemTokens(a) + x == ItemTokens(b) + y && EndsExec(x) && EndsExec(y)
    requires (forall i :: i in a ==> ItemOk(i)) && forall i :: i in b ==> ItemOk(i)
    ensures a == b && x == y
  {
    ItemsStart(a, x);
    ItemsStart(b, y);
    if a == [] {
      assert b == [];
    } else {
      assert b != [];
      ItemsNext(a, x);
      ItemsNext(b, y);
      var more, rest := ItemTokens(a[1..]) + x, ItemTokens(b[1..]) + y;
      if a[0].Word? {
        Uncons(a[0].word, more, b[0].word, rest);
      } else {
        Uncons(a[0].op, [a[0].file] + more, b[0].op, [b[0].file] + rest);
        Uncons(a[0].file, more, b[0].file, rest);
      }
      OneItems(a[1..], x, b[1..], y);
    }
  }

  lemma ItemsNext(a: seq<Item>, x: seq<Token>)
    requires a != []
    ensures ItemTokens(a) + x == if a[0].Word? then [a[0].word] + (ItemTokens(a[1..]) + x)
                                 else [a[0].op] + ([a[0].file] + (ItemTokens(a[1..]) + x))
  {
    var rest := ItemTokens(a[1..]);
    assert ItemTokens(a) == OneTokens(a[0]) + rest;
    hide ItemTokens;
    FirstOnes(a[0], rest, x);
  }

  lemma FirstOnes(i: Item, rest: seq<Token>, x: seq<Token>)
    ensures OneTokens(i) + rest + x == if i.Word? then [i.word] + (rest + x) else [i.op] + ([i.file] + (rest + x))
  {
    var ones := OneTokens(i);
    Regroup(ones, rest, x);
    if i.To? {
      assert ones == [i.op] + [i.file];
      Regroup([i.op], [i.file], rest + x);
    }
  }

  lemma {:induction false} OneSimple(a: Simple, x: seq<Token>, b: Simple, y: seq<Token>)
    requires SimpleTokens(a) + x == SimpleTokens(b) + y && SimpleOk(a) && SimpleOk(b) && EndsExec(x) && EndsExec(y)
    ensures a == b && x == y
    decreases a, 0
  {
    hide LineTokens, ItemTokens, LineOk;
    WantedBlock(a, x, SimpleTokens(a) + x);
    WantedBlock(b, y, SimpleTokens(b) + y);
    if a.Block? {
      BlockNext(a, x);
      BlockNext(b, y);
      var close, shut := [a.close] + (ItemTokens(a.redirs) + x), [b.close] + (ItemTokens(b.redirs) + y);
      Uncons(a.open, LineTokens(a.line) + close, b.open, LineTokens(b.line) + shut);
      OneLine(a.line, close, b.line, shut);
      Uncons(a.close, ItemTokens(a.redirs) + x, b.close, ItemTokens(b.redirs) + y);
      OneItems(a.redirs, x, b.redirs, y);
    } else {
      OneItems(a.items, x, b.items, y);
    }
  }

  lemma BlockNext(a: Simple, x: seq<Token>)
    requires a.Block?
    ensures SimpleTokens(a) + x == [a.open] + (LineTokens(a.line) + ([a.close] + (ItemTokens(a.redirs) + x)))
  {
    hide LineTokens, ItemTokens;
    BlockTokens(a.open, LineTokens(a.line), a.close, ItemTokens(a.redirs), x);
  }

  lemma {:induction false} OnePipe(a: Pipeline, x: seq<Token>, b: Pipeline, y: seq<Token>)
    requires PipeTokens(a) + x == PipeTokens(b) + y && PipeOk(a) && PipeOk(b) && EndsPipe(x) && EndsPipe(y)
    ensures a == b && x == y
    decreases a, 1
  {
    WantedBar(a, x);
    WantedBar(b, y);
    hide PipeTokens, PipeRest, SimpleTokens, SimpleOk, Starts;
    OneSimple(a.exec, PipeRest(a) + x, b.exec, PipeRest(b) + y);
    if a.rest.Some? {
      var p, q := a.rest.value, b.rest.value;
      Uncons(p.0, PipeTokens(p.1) + x, q.0, PipeTokens(q.1) + y);
      OnePipe(p.1, x, q.1, y);
    }
  }

  lemma {:induction false} OneAmps(a: seq<Token>, x: seq<Token>, b: seq<Token>, y: seq<Token>)
    requires a + x == b + y && !Starts(x, '&') && !Starts(y, '&')
    requires (forall t :: t in a ==> t.kind == '&') && forall t :: t in b ==> t.kind == '&'
    ensures a == b && x == y
  {
    WantedAmps(a, x);
    WantedAmps(b, y);
    if a != [] {
      Uncons(a[0], a[1..] + x, b[0], b[1..] + y);
      OneAmps(a[1..], x, b[1..], y);
    }
  }

  /** Two derivations of lines that begin a list of tokens, each with the end of the tokens or a closing
      parenthesis behind it, are the same: the grammar is unambiguous. */
  lemma {:induction false} OneLine(a: Line, x: seq<Token>, b: Line, y: seq<Token>)
    requires LineTokens(a) + x == LineTokens(b) + y && LineOk(a) && LineOk(b) && EndsLine(x) && EndsLine(y)
    ensures a == b && x == y
    decreases a, 2
  {
    WantedSemi(a, x);
    WantedSemi(b, y);
    LineSplit(a, x);
    LineSplit(b, y);
    AmpsEnd(a.amps, LineSemi(a) + x);
    AmpsEnd(b.amps, LineSemi(b) + y);
    hide LineTokens, LineSemi, PipeTokens, PipeOk, Starts;
    OnePipe(a.pipe, a.amps + (LineSemi(a) + x), b.pipe, b.amps + (LineSemi(b) + y));
    OneAmps(a.amps, LineSemi(a) + x, b.amps, LineSemi(b) + y);
    if a.rest.Some? {
      var p, q := a.rest.value, b.rest.value;
      Uncons(p.0, LineTokens(p.1) + x, q.0, LineTokens(q.1) + y);
      OneLine(p.1, x, q.1, y);
    }
  }

  /** d derives the whole of ts, within the limit on arguments. */
  ghost predicate Derives(d: Line, ts: seq<Token>) {
    LineOk(d) && LineFits(d) && LineTokens(d) == ts
  }

  lemma OneDerivation(d: Line, ts: seq<Token>)
    requires Derives(d, ts)
    ensures forall e :: Derives(e, ts) <==> e == d
  {
    hide LineOk, LineFits, LineTokens;
    forall e | Derives(e, ts)
      ensures e == d
    {
      assert LineTokens(e) + [] == LineTokens(e) && LineTokens(d) + [] == LineTokens(d);
      OneLine(e, [], d, []);
    }
  }

  // ----- What a list of tokens says, by its symbols outside parentheses -----

  /** How many parentheses are open after ts. */
  function Depth(ts: seq<Token>): int {
    if ts == [] then 0
    else
      var n := |ts| - 1;
      Depth(ts[..n]) + (if ts[n].kind == '(' then 1 else if ts[n].kind == ')' then -1 else 0)
  }

  /** Token k is one of kinds and outside all parentheses. */
  predicate Top(ts: seq<Token>, k: nat, kinds: string) {
    k < |ts| && ts[k].kind in kinds && Depth(ts[..k]) == 0
  }

  ghost predicate Lacks(ts: seq<Token>, kinds: string) {
    forall k: nat :: !Top(ts, k, kinds)
  }

  ghost predicate FirstTop(ts: seq<Token>, k: nat, kinds: string) {
    Top(ts, k, kinds) && forall j: nat :: j < k ==> !Top(ts, j, kinds)
  }

  ghost predicate LastTop(ts: seq<Token>, k: nat, kinds: string) {
    Top(ts, k, kinds) && forall j: nat :: k < j ==> !Top(ts, j, kinds)
  }

  /** Command c is what ts says: `;` binds least, then `&` at the end, then `|`, then redirections, of which
      the last is outermost; parentheses around everything change nothing. */
  ghost predicate Says(c: Cmd, ts: seq<Token>)
    decreases |ts|, 1
  {
    || (Grouped(ts) && Says(c, ts[1..|ts| - 1]))
    || match c
       case List(l, r) => exists k: nat :: FirstTop(ts, k, ";") && Says(l, ts[..k]) && Says(r, ts[k + 1..])
       case Back(b) =>
         Lacks(ts, ";") && ts != [] && Top(ts, |ts| - 1, "&") && Says(b, ts[..|ts| - 1])
       case Pipe(l, r) =>
         Lacks(ts, ";&") && exists k: nat :: FirstTop(ts, k, "|") && Says(l, ts[..k]) && Says(r, ts[k + 1..])
       case Redir(d, file, op) =>
         Lacks(ts, ";&|") && exists k: nat ::
           && LastTop(ts, k, "<>+") && RedirAt(ts, k, file, op) && Says(d, ts[..k] + ts[k + 2..])
       case Exec(argv) => |argv| == |ts| && forall k :: 0 <= k < |ts| ==> IsArg(ts[k], argv[k])
  }

  predicate IsArg(t: Token, a: Slice) {
    t.kind == 'a' && a == (t.from, t.to)
  }

  ghost predicate Grouped(ts: seq<Token>) {
    |ts| >= 2 && ts[0].kind == '(' && ts[|ts| - 1].kind == ')' && Lacks(ts, ";&|<>+")
  }

  predicate RedirAt(ts: seq<Token>, k: nat, file: Slice, op: char) {
    && k + 1 < |ts| && ts[k].kind == op && IsArg(ts[k + 1], file)
    && (k > 0 ==> ts[k - 1].kind !in "<>+") && (k + 2 < |ts| ==> ts[k + 2].kind == 'a')
  }

  /** Every simple command has fewer than MAXARGS arguments. */
  predicate Fits(c: Cmd) {
    match c
    case Exec(argv) => |argv| < MAXARGS
    case Redir(d, _, _) => Fits(d)
    case Pipe(l, r) => Fits(l) && Fits(r)
    case List(l, r) => Fits(l) && Fits(r)
    case Back(b) => Fits(b)
  }

  lemma LacksFewer(ts: seq<Token>)
    ensures Lacks(ts, ";&|<>+") ==> Lacks(ts, ";&|")
    ensures Lacks(ts, ";&|") ==> Lacks(ts, ";&")
    ensures Lacks(ts, ";&") ==> Lacks(ts, ";")
    ensures forall k: nat :: Top(ts, k, ";") ==> !Lacks(ts, ";")
    ensures forall k: nat :: Top(ts, k, "&") ==> !Lacks(ts, ";&")
    ensures forall k: nat :: Top(ts, k, "|") ==> !Lacks(ts, ";&|")
    ensures forall k: nat :: Top(ts, k, "<>+") ==> !Lacks(ts, ";&|<>+")
  {
    if Lacks(ts, ";&|<>+") {
      forall k: nat
        ensures !Top(ts, k, ";&|")
      {
        assert !Top(ts, k, ";&|<>+");
      }
    }
    if Lacks(ts, ";&|") {
      forall k: nat
        ensures !Top(ts, k, ";&")
      {
        assert !Top(ts, k, ";&|");
      }
    }
    if Lacks(ts, ";&") {
      forall k: nat
        ensures !Top(ts, k, ";")
      {
        assert !Top(ts, k, ";&");
      }
    }
    forall k: nat
      ensures Top(ts, k, "&") ==> Top(ts, k, ";&")
      ensures Top(ts, k, "|") ==> Top(ts, k, ";&|")
      ensures Top(ts, k, "<>+") ==> Top(ts, k, ";&|<>+")
    {
    }
  }

  lemma WordsLack(ts: seq<Token>)
    requires forall k :: 0 <= k < |ts| ==> ts[k].kind == 'a'
    ensures Lacks(ts, ";&|<>+") && !Grouped(ts)
  {
  }

  /** The symbols outside parentheses decide what kind of command is said. */
  lemma SaysKind(c: Cmd, ts: seq<Token>)
    requires Says(c, ts)
    ensures !Lacks(ts, ";") ==> c.List? && !Grouped(ts)
    ensures Lacks(ts, ";") && !Lacks(ts, ";&") ==> c.Back? && !Grouped(ts)
    ensures Lacks(ts, ";&") && !Lacks(ts, ";&|") ==> c.Pipe? && !Grouped(ts)
    ensures Lacks(ts, ";&|") && !Lacks(ts, ";&|<>+") ==> c.Redir? && !Grouped(ts)
    ensures Lacks(ts, ";&|<>+") && !Grouped(ts) ==> c.Exec?
    ensures Grouped(ts) ==> Says(c, ts[1..|ts| - 1])
  {
    LacksFewer(ts);
    hide Lacks, Top;
    if c.Exec? && |c.argv| == |ts| && forall k :: 0 <= k < |ts| ==> IsArg(ts[k], c.argv[k]) {
      WordsLack(ts);
    }
  }

  /** A list of tokens says one command at most. */
  lemma {:induction false} SaysOne(a: Cmd, b: Cmd, ts: seq<Token>)
    requires Says(a, ts) && Says(b, ts)
    ensures a == b
    decreases |ts|
  {
    hide *;
    SaysKind(a, ts);
    SaysKind(b, ts);
    LacksFewer(ts);
    if Grouped(ts) {
      GroupedSize(ts);
      SaysOne(a, b, ts[1..|ts| - 1]);
    } else if !Lacks(ts, ";") {
      var k := SplitList(a, ts);
      var j := SplitList(b, ts);
      FirstIsOne(ts, k, j, ";");
      SaysOne(a.first, b.first, ts[..k]);
      SaysOne(a.second, b.second, ts[k + 1..]);
    } else if !Lacks(ts, ";&") {
      SplitBack(a, ts);
      SplitBack(b, ts);
      SaysOne(a.bg, b.bg, ts[..|ts| - 1]);
    } else if !Lacks(ts, ";&|") {
      var k := SplitPipe(a, ts);
      var j := SplitPipe(b, ts);
      FirstIsOne(ts, k, j, "|");
      SaysOne(a.left, b.left, ts[..k]);
      SaysOne(a.right, b.right, ts[k + 1..]);
    } else if !Lacks(ts, ";&|<>+") {
      var k := SplitRedir(a, ts);
      var j := SplitRedir(b, ts);
      LastIsOne(ts, k, j, "<>+");
      RedirFile(ts, k, a.file, a.op);
      RedirFile(ts, k, b.file, b.op);
      SaysOne(a.cmd, b.cmd, ts[..k] + ts[k + 2..]);
    } else {
      ExecIsOne(a, b, ts);
    }
  }

  lemma ExecIsOne(a: Cmd, b: Cmd, ts: seq<Token>)
    requires Says(a, ts) && Says(b, ts) && Lacks(ts, ";&|<>+") && !Grouped(ts)
    ensures a == b
  {
    SaysKind(a, ts);
    SaysKind(b, ts);
    hide Lacks;
    assert a.argv == b.argv;
  }

  lemma FirstIsOne(ts: seq<Token>, k: nat, j: nat, kinds: string)
    requires FirstTop(ts, k, kinds) && FirstTop(ts, j, kinds)
    ensures k == j < |ts|
  {
  }

  lemma LastIsOne(ts: seq<Token>, k: nat, j: nat, kinds: string)
    requires LastTop(ts, k, kinds) && LastTop(ts, j, kinds)
    ensures k == j < |ts|
  {
  }

  // ----- The tree of a derivation is what its tokens say -----

  /** Every parenthesis is closed. */
  ghost predicate Balanced(ts: seq<Token>) {
    Depth(ts) == 0 && forall k :: 0 <= k <= |ts| ==> Depth(ts[..k]) >= 0
  }

  lemma {:induction false} DepthAppend(a: seq<Token>, b: seq<Token>)
    ensures Depth(a + b) == Depth(a) + Depth(b)
    decreases |b|
  {
    if b == [] {
      assert a + b == a;
    } else {
      var n := |b| - 1;
      assert (a + b)[..|a| + n] == a + b[..n];
      DepthAppend(a, b[..n]);
    }
  }

  lemma TopAppend(a: seq<Token>, b: seq<Token>, k: nat, kinds: string)
    requires Depth(a) == 0
    ensures Top(a + b, k, kinds) <==> if k < |a| then Top(a, k, kinds) else Top(b, k - |a|, kinds)
  {
    if k < |a| {
      assert (a + b)[..k] == a[..k];
    } else if k < |a + b| {
      assert (a + b)[..k] == a + b[..k - |a|];
      DepthAppend(a, b[..k - |a|]);
    }
  }

  lemma LacksAppend(a: seq<Token>, b: seq<Token>, kinds: string)
    requires Depth(a) == 0
    ensures Lacks(a + b, kinds) <==> Lacks(a, kinds) && Lacks(b, kinds)
  {
    hide Top;
    forall k: nat
      ensures Top(a + b, k, kinds) <==> if k < |a| then Top(a, k, kinds) else Top(b, k - |a|, kinds)
    {
      TopAppend(a, b, k, kinds);
    }
    forall k: nat
      ensures Top(a, k, kinds) ==> k < |a|
    {
      TopIn(a, k, kinds);
    }
    if Lacks(a + b, kinds) {
      forall k: nat
        ensures !Top(a, k, kinds) && !Top(b, k, kinds)
      {
        assert !Top(a + b, k, kinds);
        assert !Top(a + b, |a| + k, kinds);
      }
    }
  }

  lemma TopIn(ts: seq<Token>, k: nat, kinds: string)
    ensures Top(ts, k, kinds) ==> k < |ts|
  {
  }

  lemma BalancedAppend(a: seq<Token>, b: seq<Token>)
    requires Balanced(a) && Balanced(b)
    ensures Balanced(a + b)
  {
    DepthAppend(a, b);
    forall k | 0 <= k <= |a + b|
      ensures Depth((a + b)[..k]) >= 0
    {
      if k <= |a| {
        assert (a + b)[..k] == a[..k];
      } else {
        assert (a + b)[..k] == a + b[..k - |a|];
        DepthAppend(a, b[..k - |a|]);
      }
    }
  }

  /** Tokens without parentheses. */
  lemma {:induction false} Flat(ts: seq<Token>)
    requires forall t :: t in ts ==> t.kind !in "()"
    ensures Balanced(ts)
    decreases |ts|
  {
    if ts != [] {
      var n := |ts| - 1;
      assert ts[n] in ts;
      Flat(ts[..n]);
      forall k | 0 <= k <= n
        ensures Depth(ts[..k]) >= 0
      {
        assert ts[..k] == ts[..n][..k];
      }
    }
    assert ts[..|ts|] == ts;
  }

  lemma Enclosed(o: Token, x: seq<Token>, c: Token)
    requires o.kind == '(' && c.kind == ')' && Balanced(x)
    ensures Balanced([o] + x + [c]) && Lacks([o] + x + [c], ";&|<>+") && Grouped([o] + x + [c])
    ensures ([o] + x + [c])[1..|x| + 1] == x
  {
    var ts := [o] + x + [c];
    assert Depth([o]) == 1 && Depth([c]) == -1 by {
      assert [o][..0] == [] && [c][..0] == [];
    }
    DepthAppend([o], x);
    DepthAppend([o] + x, [c]);
    forall k | 1 <= k <= |x| + 1
      ensures Depth(ts[..k]) >= 1
    {
      assert ts[..k] == [o] + x[..k - 1];
      DepthAppend([o], x[..k - 1]);
    }
    assert ts[..|ts|] == ts && ts[..0] == [];
    forall k: nat
      ensures !Top(ts, k, ";&|<>+")
    {
    }
  }

  /** Where symbols can be outside parentheses in what the grammar derives. */
  lemma {:induction false} ItemsShape(items: seq<Item>)
    requires forall i :: i in items ==> ItemOk(i)
    ensures forall t :: t in ItemTokens(items) ==> t.kind in "a<>+"
    ensures Balanced(ItemTokens(items)) && Lacks(ItemTokens(items), ";&|")
  {
    ItemKinds(items);
    Flat(ItemTokens(items));
  }

  lemma {:induction false} ItemKinds(items: seq<Item>)
    requires forall i :: i in items ==> ItemOk(i)
    ensures forall t :: t in ItemTokens(items) ==> t.kind in "a<>+"
  {
    if items != [] {
      assert items[0] in items;
      ItemKinds(items[1..]);
    }
  }

  lemma {:induction false} SimpleShape(d: Simple)
    requires SimpleOk(d)
    ensures Balanced(SimpleTokens(d)) && Lacks(SimpleTokens(d), ";&|")
    decreases d, 0
  {
    hide LineTokens, ItemTokens, LineOk, Top, Depth;
    if d.Block? {
      var ts := [d.open] + LineTokens(d.line) + [d.close];
      LineShape(d.line);
      Enclosed(d.open, LineTokens(d.line), d.close);
      LacksFewer(ts);
      ItemsShape(d.redirs);
      BalancedAppend(ts, ItemTokens(d.redirs));
      LacksAppend(ts, ItemTokens(d.redirs), ";&|");
    } else {
      ItemsShape(d.items);
    }
  }

  lemma {:induction false} PipeShape(d: Pipeline)
    requires PipeOk(d)
    ensures Balanced(PipeTokens(d)) && Lacks(PipeTokens(d), ";&")
    decreases d, 1
  {
    SimpleShape(d.exec);
    LacksFewer(SimpleTokens(d.exec));
    hide SimpleTokens, SimpleOk, Top, Depth, Lacks;
    if d.rest.Some? {
      var r := d.rest.value;
      PipeShape(r.1);
      OneToken(r.0, ";&");
      BalancedAppend([r.0], PipeTokens(r.1));
      LacksAppend([r.0], PipeTokens(r.1), ";&");
      BalancedAppend(SimpleTokens(d.exec), [r.0] + PipeTokens(r.1));
      LacksAppend(SimpleTokens(d.exec), [r.0] + PipeTokens(r.1), ";&");
    } else {
      assert PipeTokens(d) == SimpleTokens(d.exec);
    }
  }

  lemma OneToken(t: Token, kinds: string)
    requires t.kind !in "()"
    ensures Balanced([t]) && (t.kind !in kinds ==> Lacks([t], kinds)) && (t.kind in kinds ==> Top([t], 0, kinds))
  {
    Flat([t]);
  }

  lemma {:induction false} LineShape(d: Line)
    requires LineOk(d)
    ensures Balanced(LineTokens(d))
    decreases d, 2
  {
    PipeShape(d.pipe);
    Flat(d.amps);
    BalancedAppend(PipeTokens(d.pipe), d.amps);
    hide PipeTokens, PipeOk, Balanced;
    if d.rest.Some? {
      var r := d.rest.value;
      LineShape(r.1);
      OneToken(r.0, "");
      BalancedAppend([r.0], LineTokens(r.1));
      BalancedAppend(PipeTokens(d.pipe) + d.amps, [r.0] + LineTokens(r.1));
    } else {
      assert LineTokens(d) == PipeTokens(d.pipe) + d.amps;
    }
  }

  function Words(items: seq<Item>): seq<Item> {
    if items == [] then [] else (if items[0].Word? then [items[0]] else []) + Words(items[1..])
  }

  lemma {:induction false} WordsOf(a: seq<Item>, b: seq<Item>)
    ensures Words(a + b) == Words(a) + Words(b)
  {
    if a == [] {
      assert a + b == b;
    } else {
      assert (a + b)[1..] == a[1..] + b;
      WordsOf(a[1..], b);
      var first := if a[0].Word? then [a[0]] else [];
      assert Words(a) == first + Words(a[1..]) && Words(a + b) == first + Words(a[1..] + b);
      hide Words;
      assert first + (Words(a[1..]) + Words(b)) == first + Words(a[1..]) + Words(b);
    }
  }

  lemma {:induction false} AllWords(items: seq<Item>, cmd: Cmd)
    requires forall i :: i in items ==> i.Word? && ItemOk(i)
    ensures Words(items) == items && Wrap(cmd, items) == cmd
    ensures |ItemTokens(items)| == |Slices(items)| == |items|
    ensures forall k :: 0 <= k < |items| ==> IsArg(ItemTokens(items)[k], Slices(items)[k])
  {
    WrapNone(cmd, items);
    if items != [] {
      var w := items[0];
      assert w in items;
      AllWords(items[1..], cmd);
      assert Words(items) == [w] + Words(items[1..]) && items == [w] + items[1..];
      assert ItemTokens(items) == [w.word] + ItemTokens(items[1..]);
      assert Slices(items) == [(w.word.from, w.word.to)] + Slices(items[1..]);
      hide Words, ItemTokens, Slices, Wrap;
      forall k | 0 <= k < |items|
        ensures IsArg(ItemTokens(items)[k], Slices(items)[k])
      {
        if k > 0 {
          assert ItemTokens(items)[k] == ItemTokens(items[1..])[k - 1];
          assert Slices(items)[k] == Slices(items[1..])[k - 1];
        }
      }
    }
  }

  lemma {:induction false} WrapNone(cmd: Cmd, items: seq<Item>)
    requires forall i :: i in items ==> i.Word?
    ensures Wrap(cmd, items) == cmd
    decreases |items|
  {
    if items != [] {
      var n := |items| - 1;
      assert items[n] in items;
      WrapNone(cmd, items[..n]);
    }
  }

  lemma {:induction false} WordsOnly(items: seq<Item>)
    requires forall i :: i in items ==> ItemOk(i)
    ensures Slices(Words(items)) == Slices(items)
    ensures forall i :: i in Words(items) ==> i.Word? && ItemOk(i)
  {
    if items != [] {
      assert items[0] in items;
      WordsOnly(items[1..]);
      if items[0].Word? {
        assert ([items[0]] + Words(items[1..]))[1..] == Words(items[1..]);
      } else {
        assert Words(items) == Words(items[1..]);
      }
    }
  }

  /** The last redirection among items, if there is one. */
  lemma {:induction false} LastRedir(items: seq<Item>) returns (j: nat)
    ensures j <= |items| && forall i: nat :: j <= i < |items| ==> items[i].Word?
    ensures j > 0 ==> items[j - 1].To?
  {
    j := |items|;
    while j > 0 && items[j - 1].Word?
      invariant j <= |items| && forall i: nat :: j <= i < |items| ==> items[i].Word?
    {
      j := j - 1;
    }
  }

  /** The tokens of items with a redirection in their midst. */
  lemma MidTokens(a: seq<Item>, op: Token, file: Token, b: seq<Item>)
    ensures ItemTokens(a + [To(op, file)] + b) == ItemTokens(a) + ([op] + ([file] + ItemTokens(b)))
    ensures ItemTokens(a + b) == ItemTokens(a) + ItemTokens(b)
  {
    var i := To(op, file);
    ItemTokensAppend(a + [i], b);
    ItemTokensAppend(a, [i]);
    ItemTokensAppend(a, b);
    OneItem(Exec([]), i);
    hide ItemTokens;
    Regroup(ItemTokens(a), OneTokens(i), ItemTokens(b));
    FirstOnes(i, [], ItemTokens(b));
    assert OneTokens(i) == [op] + [file];
    Regroup([op], [file], ItemTokens(b));
  }

  /** Redirections around something, step by step from the last one. */
  lemma {:induction false} WrapSays(c: Cmd, pre: seq<Token>, items: seq<Item>)
    requires Balanced(pre) && Lacks(pre, ";&|<>+") && (pre != [] ==> pre[|pre| - 1].kind !in "<>+")
    requires (forall i :: i in items ==> ItemOk(i)) && Says(c, pre + ItemTokens(Words(items)))
    ensures Says(Wrap(c, items), pre + ItemTokens(items))
    decreases |items|
  {
    var j := LastRedir(items);
    if j == 0 {
      forall i | i in items
        ensures i.Word? && ItemOk(i)
      {
        var k :| 0 <= k < |items| && items[k] == i;
        assert items[k].Word?;
      }
      AllWords(items, c);
    } else {
      var a, r, b := items[..j - 1], items[j - 1], items[j..];
      assert items == a + [r] + b && r in items;
      forall i | i in b
        ensures i.Word?
      {
        var k :| 0 <= k < |b| && b[k] == i;
        assert items[j + k].Word?;
      }
      WithoutLast(c, pre, a, r, b);
    }
  }

  lemma {:induction false} WithoutLast(c: Cmd, pre: seq<Token>, a: seq<Item>, r: Item, b: seq<Item>)
    requires Balanced(pre) && Lacks(pre, ";&|<>+") && (pre != [] ==> pre[|pre| - 1].kind !in "<>+")
    requires (forall i :: i in a ==> ItemOk(i)) && ItemOk(r) && r.To? && forall i :: i in b ==> i.Word? && ItemOk(i)
    requires Says(c, pre + ItemTokens(Words(a + [r] + b)))
    ensures Says(Wrap(c, a + [r] + b), pre + ItemTokens(a + [r] + b))
    decreases |a + [r] + b|, 0
  {
    AroundLast(c, a, r, b);
    ItemsShape(a);
    EndsInWord(a);
    WordTokens(b);
    LacksFewer(pre);
    hide Says, ItemTokens, Wrap, Words, Lacks, Balanced, Slices;
    forall i | i in a + b
      ensures ItemOk(i)
    {
      assert i in a || i in b;
    }
    WrapSays(c, pre, a + b);
    RedirSays(Wrap(c, a), pre, ItemTokens(a), r, ItemTokens(b));
  }

  lemma AroundLast(c: Cmd, a: seq<Item>, r: Item, b: seq<Item>)
    requires r.To? && forall i :: i in b ==> i.Word?
    ensures Words(a + [r] + b) == Words(a + b)
    ensures Wrap(c, a + b) == Wrap(c, a)
    ensures Wrap(c, a + [r] + b) == Redir(Wrap(c, a), (r.file.from, r.file.to), r.op.kind)
    ensures ItemTokens(a + [r] + b) == ItemTokens(a) + ([r.op] + ([r.file] + ItemTokens(b)))
    ensures ItemTokens(a + b) == ItemTokens(a) + ItemTokens(b)
  {
    hide Words, Wrap, ItemTokens;
    assert r == To(r.op, r.file);
    WordsAround(a, r, b);
    WrapAround(c, a, r, b);
    MidTokens(a, r.op, r.file, b);
  }

  lemma WordsAround(a: seq<Item>, r: Item, b: seq<Item>)
    requires r.To?
    ensures Words(a + [r] + b) == Words(a + b)
  {
    WordsOf(a + [r], b);
    WordsOf(a, [r]);
    WordsOf(a, b);
    assert Words([r]) == [];
    hide Words;
    assert Words(a) + [] == Words(a);
  }

  lemma WrapAround(c: Cmd, a: seq<Item>, r: Item, b: seq<Item>)
    requires r.To? && forall i :: i in b ==> i.Word?
    ensures Wrap(c, a + b) == Wrap(c, a)
    ensures Wrap(c, a + [r] + b) == Redir(Wrap(c, a), (r.file.from, r.file.to), r.op.kind)
  {
    hide Wrap;
    WrapAppend(c, a + [r], b);
    WrapAppend(c, a, [r]);
    WrapAppend(c, a, b);
    WrapNone(Wrap(c, a + [r]), b);
    WrapNone(Wrap(c, a), b);
    OneItem(Wrap(c, a), r);
  }

  lemma SaysRedir(d: Cmd, ts: seq<Token>, k: nat, file: Slice, op: char)
    requires Lacks(ts, ";&|") && LastTop(ts, k, "<>+") && RedirAt(ts, k, file, op) && Says(d, ts[..k] + ts[k + 2..])
    ensures Says(Redir(d, file, op), ts)
  {
  }

  lemma RedirSays(d: Cmd, pre: seq<Token>, a: seq<Token>, r: Item, y: seq<Token>)
    requires Balanced(pre) && Lacks(pre, ";&|") && (pre != [] ==> pre[|pre| - 1].kind !in "<>+")
    requires Balanced(a) && Lacks(a, ";&|") && (a != [] ==> a[|a| - 1].kind == 'a')
    requires ItemOk(r) && r.To? && (forall t :: t in y ==> t.kind == 'a') && Says(d, pre + (a + y))
    ensures Says(Redir(d, (r.file.from, r.file.to), r.op.kind), pre + (a + ([r.op] + ([r.file] + y))))
  {
    hide Says, Top, Lacks, LastTop, RedirAt;
    var x, rest := pre + a, [r.op] + ([r.file] + y);
    Regroup(pre, a, rest);
    Regroup(pre, a, y);
    BalancedAppend(pre, a);
    LacksAppend(pre, a, ";&|");
    assert x != [] ==> x[|x| - 1] == if a != [] then a[|a| - 1] else pre[|pre| - 1];
    LastRedirTop(x, r, y);
    SaysRedir(d, x + rest, |x|, (r.file.from, r.file.to), r.op.kind);
  }

  lemma WordTokens(b: seq<Item>)
    requires forall i :: i in b ==> i.Word? && ItemOk(i)
    ensures forall t :: t in ItemTokens(b) ==> t.kind == 'a'
  {
    AllWords(b, Exec([]));
    forall t | t in ItemTokens(b)
      ensures t.kind == 'a'
    {
      var k :| 0 <= k < |ItemTokens(b)| && ItemTokens(b)[k] == t;
      assert IsArg(ItemTokens(b)[k], Slices(b)[k]);
    }
  }

  /** A redirection after x, with nothing but words behind it. */
  lemma LastRedirTop(x: seq<Token>, r: Item, y: seq<Token>)
    requires Balanced(x) && Lacks(x, ";&|") && ItemOk(r) && r.To? && (forall t :: t in y ==> t.kind == 'a')
    requires x != [] ==> x[|x| - 1].kind !in "<>+"
    ensures var ts := x + ([r.op] + ([r.file] + y));
            && Lacks(ts, ";&|") && LastTop(ts, |x|, "<>+")
            && RedirAt(ts, |x|, (r.file.from, r.file.to), r.op.kind)
            && ts[..|x|] + ts[|x| + 2..] == x + y
  {
    var rest := [r.op] + ([r.file] + y);
    var ts := x + rest;
    RestLacks(r, y);
    LacksAppend(x, rest, ";&|");
    hide Top;
    forall m: nat
      ensures Top(ts, m, "<>+") <==> if m < |x| then Top(x, m, "<>+") else Top(rest, m - |x|, "<>+")
    {
      TopAppend(x, rest, m, "<>+");
    }
    assert ts[..|x|] == x && ts[|x| + 2..] == y;
  }

  lemma {:induction false} EndsInWord(a: seq<Item>)
    requires forall i :: i in a ==> ItemOk(i)
    ensures var ts := ItemTokens(a); ts != [] ==> ts[|ts| - 1].kind == 'a'
    ensures a != [] ==> ItemTokens(a) != []
  {
    if a != [] {
      assert a[0] in a;
      EndsInWord(a[1..]);
    }
  }

  lemma RestLacks(r: Item, y: seq<Token>)
    requires ItemOk(r) && r.To? && forall t :: t in y ==> t.kind == 'a'
    ensures var rest := [r.op] + ([r.file] + y);
            Lacks(rest, ";&|") && Top(rest, 0, "<>+") && forall m: nat :: 0 < m ==> !Top(rest, m, "<>+")
  {
    var rest := [r.op] + ([r.file] + y);
    forall m: nat | 0 < m < |rest|
      ensures rest[m].kind == 'a'
    {
      assert m > 1 ==> rest[m] == y[m - 2] && y[m - 2] in y;
    }
    assert rest[..0] == [];
  }

  lemma {:induction false} SimpleSays(d: Simple)
    requires SimpleOk(d)
    ensures Says(SimpleTree(d), SimpleTokens(d))
    decreases d, 0
  {
    hide Says, LineTokens, LineTree, LineOk, ItemTokens, Wrap, Words, Slices, Top, Lacks, Balanced, Grouped;
    if d.Block? {
      var ts := [d.open] + LineTokens(d.line) + [d.close];
      LineSays(d.line);
      LineShape(d.line);
      Enclosed(d.open, LineTokens(d.line), d.close);
      SaysGroup(LineTree(d.line), ts);
      NoWordsLeft(d.redirs);
      assert ts + [] == ts;
      WrapSays(LineTree(d.line), ts, d.redirs);
    } else {
      WordsSay(d.items);
      assert [] + ItemTokens(Words(d.items)) == ItemTokens(Words(d.items));
      assert [] + ItemTokens(d.items) == ItemTokens(d.items);
      Flat([]);
      NoTokens();
      WrapSays(Exec(Slices(d.items)), [], d.items);
    }
  }

  lemma NoTokens()
    ensures Lacks([], ";&|<>+") && ItemTokens([]) == []
  {
  }

  lemma SaysGroup(c: Cmd, ts: seq<Token>)
    requires Grouped(ts) && Says(c, ts[1..|ts| - 1])
    ensures Says(c, ts)
  {
  }

  lemma {:induction false} NoWordsLeft(items: seq<Item>)
    requires forall i :: i in items ==> i.To?
    ensures Words(items) == [] && ItemTokens(Words(items)) == []
  {
    if items != [] {
      assert items[0] in items;
      NoWordsLeft(items[1..]);
    }
  }

  lemma WordsSay(items: seq<Item>)
    requires forall i :: i in items ==> ItemOk(i)
    ensures Says(Exec(Slices(items)), ItemTokens(Words(items)))
  {
    WordsOnly(items);
    AllWords(Words(items), Exec([]));
  }

  lemma SaysPipe(l: Cmd, r: Cmd, a: seq<Token>, bar: Token, b: seq<Token>)
    requires Says(l, a) && Says(r, b) && bar.kind == '|' && Balanced(a) && Lacks(a, ";&|") && Lacks(b, ";&")
    ensures Says(Pipe(l, r), a + ([bar] + b))
  {
    hide Says;
    var ts, k := a + ([bar] + b), |a|;
    LacksFewer(a);
    LacksAppend(a, [bar] + b, ";&");
    OneToken(bar, ";&");
    LacksAppend([bar], b, ";&");
    LacksBar(a);
    OnlyAfter(a, bar, b, "|");
    assert ts[..k] == a && ts[k + 1..] == b;
    hide Lacks, FirstTop;
    SaysPipeAt(l, r, ts, k);
  }

  lemma LacksBar(a: seq<Token>)
    requires Lacks(a, ";&|")
    ensures Lacks(a, "|")
  {
    forall k: nat
      ensures !Top(a, k, "|")
    {
      assert !Top(a, k, ";&|");
    }
  }

  lemma SaysPipeAt(l: Cmd, r: Cmd, ts: seq<Token>, k: nat)
    requires Lacks(ts, ";&") && FirstTop(ts, k, "|") && Says(l, ts[..k]) && Says(r, ts[k + 1..])
    ensures Says(Pipe(l, r), ts)
  {
  }

  /** A symbol after a, which has none of its kind outside parentheses. */
  lemma OnlyAfter(a: seq<Token>, t: Token, b: seq<Token>, kinds: string)
    requires Balanced(a) && Lacks(a, kinds) && t.kind in kinds && t.kind !in "()"
    ensures FirstTop(a + ([t] + b), |a|, kinds)
  {
    forall j: nat | j < |a|
      ensures !Top(a + ([t] + b), j, kinds)
    {
      TopAppend(a, [t] + b, j, kinds);
    }
    assert (a + ([t] + b))[..|a|] == a;
  }

  lemma {:induction false} PipeSays(d: Pipeline)
    requires PipeOk(d)
    ensures Says(PipeTree(d), PipeTokens(d))
    decreases d, 1
  {
    SimpleSays(d.exec);
    SimpleShape(d.exec);
    hide Says, SimpleTokens, SimpleTree, SimpleOk, Top, Lacks, Balanced;
    if d.rest.Some? {
      var r := d.rest.value;
      PipeSays(r.1);
      PipeShape(r.1);
      SaysPipe(SimpleTree(d.exec), PipeTree(r.1), SimpleTokens(d.exec), r.0, PipeTokens(r.1));
    } else {
      assert SimpleTokens(d.exec) + [] == SimpleTokens(d.exec);
    }
  }

  lemma {:induction false} BacksSay(c: Cmd, ts: seq<Token>, amps: seq<Token>)
    requires Says(c, ts) && Balanced(ts) && Lacks(ts, ";") && forall t :: t in amps ==> t.kind == '&'
    ensures Says(Backs(c, |amps|), ts + amps) && Balanced(ts + amps) && Lacks(ts + amps, ";")
    decreases |amps|
  {
    if amps == [] {
      assert ts + amps == ts;
    } else {
      var n := |amps| - 1;
      var t := amps[n];
      assert t in amps && amps == amps[..n] + [t];
      BacksSay(c, ts, amps[..n]);
      var x := ts + amps[..n];
      assert ts + amps == x + [t];
      OneToken(t, ";");
      BalancedAppend(x, [t]);
      LacksAppend(x, [t], ";");
      TopAppend(x, [t], |x|, "&");
      OneToken(t, "&");
      assert (x + [t])[..|x|] == x;
    }
  }

  lemma SaysList(l: Cmd, r: Cmd, a: seq<Token>, semi: Token, b: seq<Token>)
    requires Says(l, a) && Says(r, b) && semi.kind == ';' && Balanced(a) && Lacks(a, ";")
    ensures Says(List(l, r), a + ([semi] + b))
  {
    var ts, k := a + ([semi] + b), |a|;
    OnlyAfter(a, semi, b, ";");
    assert ts[..k] == a && ts[k + 1..] == b;
  }

  /** The tree of a derivation is the command that its tokens say. */
  lemma {:induction false} LineSays(d: Line)
    requires LineOk(d)
    ensures Says(LineTree(d), LineTokens(d))
    decreases d, 2
  {
    PipeSays(d.pipe);
    PipeShape(d.pipe);
    LacksFewer(PipeTokens(d.pipe));
    hide Says, PipeTokens, PipeTree, PipeOk, Top, Lacks, Balanced, Backs;
    BacksSay(PipeTree(d.pipe), PipeTokens(d.pipe), d.amps);
    if d.rest.Some? {
      var r := d.rest.value;
      LineSays(r.1);
      SaysList(Backs(PipeTree(d.pipe), |d.amps|), LineTree(r.1), PipeTokens(d.pipe) + d.amps, r.0, LineTokens(r.1));
    } else {
      assert PipeTokens(d.pipe) + d.amps + [] == PipeTokens(d.pipe) + d.amps;
    }
  }

  // ----- What tokens say, the grammar derives -----

  lemma {:induction false} SplitItems(items: seq<Item>, x: seq<Token>, y: seq<Token>) returns (j: nat)
    requires (forall i :: i in items ==> ItemOk(i)) && ItemTokens(items) == x + y
    requires x == [] || x[|x| - 1].kind !in "<>+"
    ensures j <= |items| && ItemTokens(items[..j]) == x && ItemTokens(items[j..]) == y
  {
    if x == [] {
      j := 0;
      assert items[0..] == items && x + y == y;
    } else {
      var i, one := items[0], OneTokens(items[0]);
      assert i in items && ItemTokens(items) == one + ItemTokens(items[1..]);
      hide ItemTokens;
      assert x[0] == (x + y)[0] == one[0];
      assert |x| >= |one|;
      var x' := x[|one|..];
      assert x == one + x' by {
        assert forall k :: 0 <= k < |one| ==> x[k] == (x + y)[k] == one[k];
      }
      Regroup(one, x', y);
      assert ItemTokens(items[1..]) == x' + y by {
        assert (one + ItemTokens(items[1..]))[|one|..] == ItemTokens(items[1..]);
        assert (one + (x' + y))[|one|..] == x' + y;
      }
      var m := SplitItems(items[1..], x', y);
      j := m + 1;
      assert items[..j][1..] == items[1..][..m] && items[..j][0] == i && items[j..] == items[1..][m..];
      ItemsCons(items[..j]);
    }
  }

  lemma ItemsCons(items: seq<Item>)
    requires items != []
    ensures ItemTokens(items) == OneTokens(items[0]) + ItemTokens(items[1..])
  {
  }

  lemma {:induction false} WordItems(ts: seq<Token>) returns (items: seq<Item>)
    requires forall k :: 0 <= k < |ts| ==> ts[k].kind == 'a'
    ensures (forall i :: i in items ==> ItemOk(i)) && ItemTokens(items) == ts
  {
    if ts == [] {
      items := [];
    } else {
      var more := WordItems(ts[1..]);
      items := [Word(ts[0])] + more;
      assert items[1..] == more && ts == [ts[0]] + ts[1..];
      ItemsCons(items);
    }
  }

  /** Cutting ts where no parenthesis is open. */
  lemma LacksCut(ts: seq<Token>, k: nat, kinds: string)
    requires k <= |ts| && Depth(ts[..k]) == 0 && Lacks(ts, kinds)
    ensures Lacks(ts[..k], kinds) && Lacks(ts[k..], kinds)
  {
    assert ts == ts[..k] + ts[k..];
    LacksAppend(ts[..k], ts[k..], kinds);
  }

  lemma {:induction false} DeriveSimple(c: Cmd, ts: seq<Token>) returns (d: Simple)
    requires Says(c, ts) && Lacks(ts, ";&|")
    ensures SimpleOk(d) && SimpleTokens(d) == ts
    decreases |ts|, 0
  {
    hide *;
    LacksFewer(ts);
    SaysKind(c, ts);
    if Grouped(ts) {
      GroupedSize(ts);
      var line := DeriveLine(c, ts[1..|ts| - 1]);
      d := MakeBlock(ts, line);
    } else if Lacks(ts, ";&|<>+") {
      SplitExec(c, ts);
      d := MakeItems(ts);
    } else {
      var k := SplitRedir(c, ts);
      RedirEdges(ts, k, c.file, c.op);
      CutRedir(ts, k);
      var e := DeriveSimple(c.cmd, ts[..k] + ts[k + 2..]);
      d := InsertRedir(e, ts[..k], ts[k], ts[k + 1], ts[k + 2..]);
      assert ts == ts[..k] + ([ts[k]] + ([ts[k + 1]] + ts[k + 2..]));
    }
  }

  lemma GroupedSize(ts: seq<Token>)
    requires Grouped(ts)
    ensures |ts| >= 2
  {
  }

  lemma MakeItems(ts: seq<Token>) returns (d: Simple)
    requires forall k :: 0 <= k < |ts| ==> ts[k].kind == 'a'
    ensures SimpleOk(d) && SimpleTokens(d) == ts
  {
    var items := WordItems(ts);
    d := Items(items);
  }

  lemma RedirEdges(ts: seq<Token>, k: nat, file: Slice, op: char)
    requires RedirAt(ts, k, file, op)
    ensures k + 1 < |ts| && ts[k + 1].kind == 'a'
    ensures ts[..k] != [] ==> ts[..k][k - 1].kind !in "<>+"
    ensures ts[k + 2..] != [] ==> ts[k + 2..][0].kind == 'a'
  {
  }

  lemma MakeBlock(ts: seq<Token>, line: Line) returns (d: Simple)
    requires Grouped(ts) && LineOk(line) && LineTokens(line) == ts[1..|ts| - 1]
    ensures SimpleOk(d) && SimpleTokens(d) == ts
  {
    hide LineOk, LineTokens;
    var n := |ts| - 1;
    d := Block(ts[0], line, ts[n], []);
    NoTokens();
    assert ts == [ts[0]] + ts[1..n] + [ts[n]] + [];
  }

  lemma CutRedir(ts: seq<Token>, k: nat)
    requires Lacks(ts, ";&|") && LastTop(ts, k, "<>+") && k + 1 < |ts| && ts[k + 1].kind == 'a'
    ensures ts[k].kind in "<>+" && Depth(ts[..k]) == 0 && Lacks(ts[..k] + ts[k + 2..], ";&|")
  {
    var x, y := ts[..k], ts[k + 2..];
    LacksCut(ts, k, ";&|");
    assert Depth(ts[..k + 2]) == 0 by {
      assert ts[..k + 2][..k + 1] == ts[..k + 1] && ts[..k + 1][..k] == x;
    }
    LacksCut(ts, k + 2, ";&|");
    LacksAppend(x, y, ";&|");
  }

  /** A redirection put into a simple command between x and y. */
  lemma InsertRedir(e: Simple, x: seq<Token>, op: Token, file: Token, y: seq<Token>) returns (d: Simple)
    requires SimpleOk(e) && SimpleTokens(e) == x + y && op.kind in "<>+" && file.kind == 'a'
    requires (x != [] ==> x[|x| - 1].kind !in "<>+") && Depth(x) == 0 && (y != [] ==> y[0].kind == 'a')
    ensures SimpleOk(d) && SimpleTokens(d) == x + ([op] + ([file] + y))
  {
    hide LineTokens, LineOk, ItemTokens, Depth;
    var r := To(op, file);
    if e.Items? {
      var j := SplitItems(e.items, x, y);
      var items := e.items[..j] + [r] + e.items[j..];
      MidTokens(e.items[..j], op, file, e.items[j..]);
      forall i | i in items
        ensures ItemOk(i)
      {
        assert i == r || i in e.items;
      }
      d := Items(items);
    } else {
      var block := [e.open] + LineTokens(e.line) + [e.close];
      BehindBlock(e, x, y);
      var x' := x[|block|..];
      assert x == block + x' by {
        assert forall k :: 0 <= k < |block| ==> x[k] == (x + y)[k] == block[k];
      }
      assert ItemTokens(e.redirs) == x' + y by {
        assert (block + ItemTokens(e.redirs))[|block|..] == ItemTokens(e.redirs);
        Regroup(block, x', y);
        assert (block + (x' + y))[|block|..] == x' + y;
      }
      var j := SplitItems(e.redirs, x', y);
      var a, b := e.redirs[..j], e.redirs[j..];
      MidTokens(a, op, file, b);
      forall i | i in a + [r] + b
        ensures i.To? && ItemOk(i)
      {
        assert i == r || i in e.redirs;
      }
      d := Block(e.open, e.line, e.close, a + [r] + b);
      Regroup(block, x', [op] + ([file] + y));
    }
  }

  /** A place outside parentheses in a block and its redirections is behind the block. */
  lemma BehindBlock(e: Simple, x: seq<Token>, y: seq<Token>)
    requires e.Block? && SimpleOk(e) && SimpleTokens(e) == x + y && Depth(x) == 0 && (y != [] ==> y[0].kind == 'a')
    ensures |x| >= |LineTokens(e.line)| + 2
  {
    BlockParts(e);
    hide *;
    var lt, rest := LineTokens(e.line), [e.close] + ItemTokens(e.redirs);
    var ts := [e.open] + lt + rest;
    assert ts[0] == e.open && x == (x + y)[..|x|];
    assert x == [] ==> x + y == y;
    forall k | 1 <= k <= |lt| + 1
      ensures Depth(ts[..k]) >= 1
    {
      Inside(e.open, lt, rest, k);
    }
  }

  lemma BlockParts(e: Simple)
    requires e.Block? && SimpleOk(e)
    ensures e.open.kind == '(' && Balanced(LineTokens(e.line))
    ensures SimpleTokens(e) == [e.open] + LineTokens(e.line) + ([e.close] + ItemTokens(e.redirs))
  {
    LineShape(e.line);
    hide LineTokens, ItemTokens, LineOk, Balanced;
    Regroup([e.open] + LineTokens(e.line), [e.close], ItemTokens(e.redirs));
  }

  lemma Inside(o: Token, x: seq<Token>, rest: seq<Token>, k: nat)
    requires o.kind == '(' && Balanced(x) && 1 <= k <= |x| + 1
    ensures Depth(([o] + x + rest)[..k]) >= 1
  {
    assert ([o] + x + rest)[..k] == [o] + x[..k - 1];
    DepthAppend([o], x[..k - 1]);
    assert [o][..0] == [] && Depth([o]) == 1;
  }

  lemma SplitPipe(c: Cmd, ts: seq<Token>) returns (k: nat)
    requires Says(c, ts) && Lacks(ts, ";&") && !Lacks(ts, ";&|")
    ensures c.Pipe? && FirstTop(ts, k, "|") && k < |ts| && Says(c.left, ts[..k]) && Says(c.right, ts[k + 1..])
  {
    SaysKind(c, ts);
    hide Lacks;
    k :| FirstTop(ts, k, "|") && Says(c.left, ts[..k]) && Says(c.right, ts[k + 1..]);
  }

  lemma SplitList(c: Cmd, ts: seq<Token>) returns (k: nat)
    requires Says(c, ts) && !Lacks(ts, ";")
    ensures c.List? && FirstTop(ts, k, ";") && k < |ts| && Says(c.first, ts[..k]) && Says(c.second, ts[k + 1..])
  {
    SaysKind(c, ts);
    hide Lacks;
    k :| FirstTop(ts, k, ";") && Says(c.first, ts[..k]) && Says(c.second, ts[k + 1..]);
  }

  lemma SplitExec(c: Cmd, ts: seq<Token>)
    requires Says(c, ts) && Lacks(ts, ";&|<>+") && !Grouped(ts)
    ensures c.Exec? && forall k :: 0 <= k < |ts| ==> ts[k].kind == 'a'
  {
    SaysKind(c, ts);
    hide Lacks;
  }

  lemma SplitRedir(c: Cmd, ts: seq<Token>) returns (k: nat)
    requires Says(c, ts) && Lacks(ts, ";&|") && !Lacks(ts, ";&|<>+")
    ensures c.Redir? && LastTop(ts, k, "<>+") && RedirAt(ts, k, c.file, c.op) && Says(c.cmd, ts[..k] + ts[k + 2..])
  {
    SaysKind(c, ts);
    hide Lacks;
    k :| LastTop(ts, k, "<>+") && RedirAt(ts, k, c.file, c.op) && Says(c.cmd, ts[..k] + ts[k + 2..]);
  }

  lemma {:induction false} DerivePipe(c: Cmd, ts: seq<Token>) returns (d: Pipeline)
    requires Says(c, ts) && Lacks(ts, ";&")
    ensures PipeOk(d) && PipeTokens(d) == ts
    decreases |ts|, 1
  {
    hide Lacks, Top, SimpleTokens, SimpleOk, Says, FirstTop;
    if Lacks(ts, ";&|") {
      var e := DeriveSimple(c, ts);
      d := Pipeline(e, None);
    } else {
      var k := SplitPipe(c, ts);
      CutFirst(ts, k, "|", ";&");
      LacksBoth(ts[..k]);
      var e := DeriveSimple(c.left, ts[..k]);
      var f := DerivePipe(c.right, ts[k + 1..]);
      d := Pipeline(e, Some((ts[k], f)));
      assert ts == ts[..k] + ([ts[k]] + ts[k + 1..]);
    }
  }

  lemma LacksBoth(ts: seq<Token>)
    requires Lacks(ts, ";&") && Lacks(ts, "|")
    ensures Lacks(ts, ";&|")
  {
    forall k: nat
      ensures !Top(ts, k, ";&|")
    {
      assert !Top(ts, k, ";&") && !Top(ts, k, "|");
    }
  }

  /** The two sides of the first symbol. */
  lemma CutFirst(ts: seq<Token>, k: nat, kind: string, others: string)
    requires FirstTop(ts, k, kind) && Lacks(ts, others) && forall x :: x in kind ==> x !in "()"
    ensures k < |ts| && ts[k].kind in kind && Lacks(ts[..k], kind)
    ensures Lacks(ts[..k], others) && Lacks(ts[k + 1..], others)
  {
    LacksCut(ts, k, others);
    assert Depth(ts[..k + 1]) == 0 by {
      assert ts[..k + 1][..k] == ts[..k];
    }
    LacksCut(ts, k + 1, others);
    forall j: nat
      ensures !Top(ts[..k], j, kind)
    {
      assert j < k ==> ts[..k][..j] == ts[..j] && !Top(ts, j, kind);
    }
  }

  lemma {:induction false} DeriveAmps(c: Cmd, ts: seq<Token>) returns (d: Pipeline, amps: seq<Token>)
    requires Says(c, ts) && Lacks(ts, ";")
    ensures PipeOk(d) && (forall t :: t in amps ==> t.kind == '&') && PipeTokens(d) + amps == ts
    decreases |ts|, 2
  {
    hide *;
    if Lacks(ts, ";&") {
      d := DerivePipe(c, ts);
      amps := [];
      assert PipeTokens(d) + [] == ts;
    } else {
      SplitBack(c, ts);
      var n := |ts| - 1;
      d, amps := DeriveAmps(c.bg, ts[..n]);
      amps := amps + [ts[n]];
      assert ts == ts[..n] + [ts[n]];
    }
  }

  lemma SplitBack(c: Cmd, ts: seq<Token>)
    requires Says(c, ts) && Lacks(ts, ";") && !Lacks(ts, ";&")
    ensures c.Back? && ts != [] && ts[|ts| - 1].kind == '&'
    ensures Says(c.bg, ts[..|ts| - 1]) && Lacks(ts[..|ts| - 1], ";")
  {
    SaysKind(c, ts);
    hide Lacks;
    LacksCut(ts, |ts| - 1, ";");
  }

  /** Whatever tokens say, the grammar derives. */
  lemma {:induction false} DeriveLine(c: Cmd, ts: seq<Token>) returns (d: Line)
    requires Says(c, ts)
    ensures LineOk(d) && LineTokens(d) == ts
    decreases |ts|, 3
  {
    hide PipeOk, PipeTokens, Top, Says, FirstTop;
    if Lacks(ts, ";") {
      var e, amps := DeriveAmps(c, ts);
      d := Line(e, amps, None);
      assert ts + [] == ts;
    } else {
      var k := SplitList(c, ts);
      NothingLacks(ts);
      CutFirst(ts, k, ";", "");
      hide Lacks;
      var e, amps := DeriveAmps(c.first, ts[..k]);
      var f := DeriveLine(c.second, ts[k + 1..]);
      d := Line(e, amps, Some((ts[k], f)));
      assert ts == ts[..k] + ([ts[k]] + ts[k + 1..]);
    }
  }

  lemma NothingLacks(ts: seq<Token>)
    ensures Lacks(ts, "")
  {
  }

  lemma {:induction false} FitsWrap(c: Cmd, items: seq<Item>)
    ensures Fits(Wrap(c, items)) == Fits(c)
    decreases |items|
  {
    if items != [] {
      FitsWrap(c, items[..|items| - 1]);
    }
  }

  lemma {:induction false} FitsBacks(c: Cmd, n: nat)
    ensures Fits(Backs(c, n)) == Fits(c)
  {
    if n > 0 {
      FitsBacks(c, n - 1);
    }
  }

  lemma {:induction false} FitsLine(d: Line)
    ensures LineFits(d) <==> Fits(LineTree(d))
    decreases d, 2
  {
    FitsPipe(d.pipe);
    FitsBacks(PipeTree(d.pipe), |d.amps|);
    if d.rest.Some? {
      FitsLine(d.rest.value.1);
    }
  }

  lemma {:induction false} FitsPipe(d: Pipeline)
    ensures PipeFits(d) <==> Fits(PipeTree(d))
    decreases d, 1
  {
    FitsSimple(d.exec);
    if d.rest.Some? {
      FitsPipe(d.rest.value.1);
    }
  }

  lemma {:induction false} FitsSimple(d: Simple)
    ensures SimpleFits(d) <==> Fits(SimpleTree(d))
    decreases d, 0
  {
    if d.Block? {
      FitsLine(d.line);
      FitsWrap(LineTree(d.line), d.redirs);
    } else {
      FitsWrap(Exec(Slices(d.items)), d.items);
    }
  }

  /** The lines that the grammar derives within the limit are those that say a command within it. */
  lemma SaysIffDerived(ts: seq<Token>)
    ensures (exists d :: Derives(d, ts)) <==> exists c :: Says(c, ts) && Fits(c)
    ensures forall d :: Derives(d, ts) ==> forall c :: Says(c, ts) <==> c == LineTree(d)
  {
    hide Says, LineOk, LineTokens, LineFits, LineTree, Fits;
    forall d | Derives(d, ts)
      ensures Says(LineTree(d), ts) && Fits(LineTree(d))
      ensures forall c :: Says(c, ts) <==> c == LineTree(d)
    {
      LineSays(d);
      FitsLine(d);
      forall c | Says(c, ts)
        ensures c == LineTree(d)
      {
        SaysOne(c, LineTree(d), ts);
      }
    }
    if c :| Says(c, ts) && Fits(c) {
      var d := DeriveLine(c, ts);
      LineSays(d);
      SaysOne(c, LineTree(d), ts);
      FitsLine(d);
      assert Derives(d, ts);
    }
  }

  /** parsecmd up to nulterminate: the lines accepted are those that the grammar derives, with the tree
      of their derivation. */
  method ParseAll(s: CString) returns (r: Result, ghost d: Line)
    ensures r.Ok? <==> exists e :: Derives(e, Lex(s, 0))
    ensures r.Ok? ==> LineTree(d) == r.cmd && forall e :: Derives(e, Lex(s, 0)) <==> e == d
    ensures r.Ok? <==> exists c :: Says(c, Lex(s, 0)) && Fits(c)
    ensures r.Ok? ==> forall c :: Says(c, Lex(s, 0)) <==> c == r.cmd
  {
    hide LineOk, LineFits, LineTree, LineTokens, Scan, Says, Fits;
    SaysIffDerived(Lex(s, 0));
    var ps, left;
    ghost var want: Option<(Line, seq<Token>)> := None;
    if e :| Derives(e, Lex(s, 0)) {
      want := Some((e, []));
      assert LineTokens(e) + [] == LineTokens(e);
    }
    r, ps, d := ParseLine(s, 0, want);
    if r.Err? {
      return;
    }
    left, ps := Peek(s, ps, "");
    LexFirst(s, ps);
    if ps != |s| {
      return Err("syntax"), d;
    }
    AtEnd(s);
    assert LineTokens(d) + [] == LineTokens(d);
    OneDerivation(d, Lex(s, 0));
    assert Derives(d, Lex(s, 0));
  }

  lemma AtEnd(s: CString)
    ensures Lex(s, |s|) == []
  {
  }

  // ----- nulterminate -----

  function ArgvSet(argv: seq<Slice>): set<Slice> {
    set a | a in argv
  }

  /** Every argument and file name in the tree. */
  function AllSlices(cmd: Cmd): set<Slice> {
    match cmd
    case Exec(argv) => ArgvSet(argv)
    case Redir(c, file, _) => AllSlices(c) + {file}
    case Pipe(l, r) => AllSlices(l) + AllSlices(r)
    case List(l, r) => AllSlices(l) + AllSlices(r)
    case Back(c) => AllSlices(c)
  }

  /** Every word is an argument or a file name of the command. */
  lemma {:induction false} SaysWords(c: Cmd, ts: seq<Token>)
    requires Says(c, ts)
    ensures forall t :: t in ts && t.kind == 'a' ==> (t.from, t.to) in AllSlices(c)
    decreases |ts|
  {
    hide *;
    LacksFewer(ts);
    SaysKind(c, ts);
    if Grouped(ts) {
      GroupedWords(ts);
      SaysWords(c, ts[1..|ts| - 1]);
    } else if !Lacks(ts, ";") {
      var k := SplitList(c, ts);
      FirstTopKind(ts, k, ";");
      SaysWords(c.first, ts[..k]);
      SaysWords(c.second, ts[k + 1..]);
      assert ts == ts[..k] + [ts[k]] + ts[k + 1..];
      SlicesIn(c);
    } else if !Lacks(ts, ";&") {
      SplitBack(c, ts);
      var n := |ts| - 1;
      SaysWords(c.bg, ts[..n]);
      assert ts == ts[..n] + [ts[n]];
      SlicesIn(c);
    } else if !Lacks(ts, ";&|") {
      var k := SplitPipe(c, ts);
      FirstTopKind(ts, k, "|");
      SaysWords(c.left, ts[..k]);
      SaysWords(c.right, ts[k + 1..]);
      assert ts == ts[..k] + [ts[k]] + ts[k + 1..];
      SlicesIn(c);
    } else if !Lacks(ts, ";&|<>+") {
      var k := SplitRedir(c, ts);
      RedirFile(ts, k, c.file, c.op);
      SaysWords(c.cmd, ts[..k] + ts[k + 2..]);
      assert ts == ts[..k] + [ts[k]] + [ts[k + 1]] + ts[k + 2..];
      SlicesIn(c);
    } else {
      ExecWords(c, ts);
    }
  }

  lemma GroupedWords(ts: seq<Token>)
    requires Grouped(ts)
    ensures |ts| >= 2 && forall t :: t in ts && t.kind == 'a' ==> t in ts[1..|ts| - 1]
  {
    assert ts == [ts[0]] + ts[1..|ts| - 1] + [ts[|ts| - 1]];
  }

  lemma FirstTopKind(ts: seq<Token>, k: nat, kinds: string)
    requires FirstTop(ts, k, kinds) && 'a' !in kinds
    ensures k < |ts| && ts[k].kind != 'a'
  {
  }

  lemma RedirFile(ts: seq<Token>, k: nat, file: Slice, op: char)
    requires RedirAt(ts, k, file, op) && LastTop(ts, k, "<>+")
    ensures k + 1 < |ts| && ts[k].kind == op != 'a' && file == (ts[k + 1].from, ts[k + 1].to)
  {
  }

  lemma SlicesIn(c: Cmd)
    ensures c.List? ==> AllSlices(c) == AllSlices(c.first) + AllSlices(c.second)
    ensures c.Pipe? ==> AllSlices(c) == AllSlices(c.left) + AllSlices(c.right)
    ensures c.Back? ==> AllSlices(c) == AllSlices(c.bg)
    ensures c.Redir? ==> AllSlices(c) == AllSlices(c.cmd) + {c.file}
  {
  }

  lemma ExecWords(c: Cmd, ts: seq<Token>)
    requires Says(c, ts) && Lacks(ts, ";&|<>+") && !Grouped(ts)
    ensures forall t :: t in ts && t.kind == 'a' ==> (t.from, t.to) in AllSlices(c)
  {
    SaysKind(c, ts);
    hide Lacks;
    forall t | t in ts && t.kind == 'a'
      ensures (t.from, t.to) in AllSlices(c)
    {
      var k :| 0 <= k < |ts| && ts[k] == t;
      assert IsArg(ts[k], c.argv[k]) && c.argv[k] in c.argv;
    }
  }

  function Ends(slices: set<Slice>): set<nat> {
    set a | a in slices :: a.1
  }

  lemma EndsUnion(a: set<Slice>, b: set<Slice>)
    ensures Ends(a + b) == Ends(a) + Ends(b)
  {
  }

  /** buf has become NUL at the ends and nowhere else. */
  ghost predicate Ended(was: seq<char>, now: seq<char>, ends: set<nat>) {
    |now| == |was| && forall k :: 0 <= k < |was| ==> now[k] == if k in ends then '\0' else was[k]
  }

  lemma EndedTwice(a: seq<char>, b: seq<char>, c: seq<char>, x: set<nat>, y: set<nat>)
    requires Ended(a, b, x) && Ended(b, c, y)
    ensures Ended(a, c, x + y)
  {
  }

  method NulTerminate(cmd: Cmd, buf: array<char>)
    requires forall e :: e in Ends(AllSlices(cmd)) ==> e < buf.Length
    modifies buf
    ensures Ended(old(buf[..]), buf[..], Ends(AllSlices(cmd)))
  {
    ghost var was := buf[..];
    match cmd {
      case Exec(argv) =>
        var i := 0;
        assert forall a :: a in argv ==> a in AllSlices(cmd) && a.1 in Ends(AllSlices(cmd));
        while i < |argv|
          invariant 0 <= i <= |argv|
          invariant Ended(was, buf[..], Ends(ArgvSet(argv[..i])))
        {
          assert argv[i] in argv;
          assert argv[..i + 1] == argv[..i] + [argv[i]];
          assert ArgvSet(argv[..i + 1]) == ArgvSet(argv[..i]) + {argv[i]};
          EndsUnion(ArgvSet(argv[..i]), {argv[i]});
          assert Ends({argv[i]}) == {argv[i].1};
          buf[argv[i].1] := '\0';
          i := i + 1;
        }
        assert argv[..i] == argv;
      case Redir(c, file, _) =>
        EndsUnion(AllSlices(c), {file});
        assert Ends({file}) == {file.1};
        NulTerminate(c, buf);
        buf[file.1] := '\0';
      case Pipe(l, r) =>
        EndsUnion(AllSlices(l), AllSlices(r));
        NulTerminate(l, buf);
        ghost var mid := buf[..];
        NulTerminate(r, buf);
        EndedTwice(was, mid, buf[..], Ends(AllSlices(l)), Ends(AllSlices(r)));
      case List(l, r) =>
        EndsUnion(AllSlices(l), AllSlices(r));
        NulTerminate(l, buf);
        ghost var mid := buf[..];
        NulTerminate(r, buf);
        EndedTwice(was, mid, buf[..], Ends(AllSlices(l)), Ends(AllSlices(r)));
      case Back(c) =>
        NulTerminate(c, buf);
    }
  }

  /** The C string at position q of a buffer. */
  function CStringAt(b: seq<char>, q: nat): seq<char>
    decreases |b| - q
  {
    if q < |b| && b[q] != '\0' then [b[q]] + CStringAt(b, q + 1) else []
  }

  lemma {:induction false} CStringIs(b: seq<char>, q: nat, e: nat)
    requires q <= e < |b| && b[e] == '\0' && forall k :: q <= k < e ==> b[k] != '\0'
    ensures CStringAt(b, q) == b[q..e]
    decreases e - q
  {
    if q < e {
      CStringIs(b, q + 1, e);
      assert b[q..e] == [b[q]] + b[q + 1..e];
    }
  }

  /** Tokens come in order, and after a word a word starts only beyond a character between. */
  lemma {:induction false} LexSpread(s: CString, i: nat, a: nat, b: nat)
    requires i <= |s| && a <= b < |Lex(s, i)|
    ensures var u, v := Lex(s, i)[a], Lex(s, i)[b];
            && i <= u.from < u.to <= |s| && v.from < v.to <= |s|
            && (a < b ==> u.to <= v.from)
            && (a < b && u.kind == 'a' && v.kind == 'a' ==> u.to < v.from)
            && (v.kind == 'a' ==> !IsSpace(s[v.from]) && !IsSymbol(s[v.from]))
    decreases |s| - i
  {
    var j := Rest(s, i);
    LexStep(s, i);
    hide IsSpace, IsSymbol;
    if a > 0 {
      LexSpread(s, j, a - 1, b - 1);
    } else if b > 0 {
      LexSpread(s, j, b - 1, b - 1);
    }
  }

  /** sl is a word among the tokens. */
  ghost predicate IsWord(ts: seq<Token>, sl: Slice) {
    exists t :: t in ts && t.kind == 'a' && (t.from, t.to) == sl
  }

  lemma WordIn(ts: seq<Token>, more: seq<Token>, sl: Slice)
    requires IsWord(ts, sl) && forall t :: t in ts ==> t in more
    ensures IsWord(more, sl)
  {
  }

  lemma {:induction false} WrapWords(cmd: Cmd, items: seq<Item>, sl: Slice)
    requires sl in AllSlices(Wrap(cmd, items)) && forall i :: i in items ==> ItemOk(i)
    ensures sl in AllSlices(cmd) || IsWord(ItemTokens(items), sl)
    decreases |items|
  {
    if items != [] {
      var n := |items| - 1;
      assert items == items[..n] + [items[n]];
      ItemTokensAppend(items[..n], [items[n]]);
      OneItem(cmd, items[n]);
      assert items[n] in items;
      if items[n].To? && sl == (items[n].file.from, items[n].file.to) {
        assert items[n].file in ItemTokens(items);
      } else {
        WrapWords(cmd, items[..n], sl);
        if IsWord(ItemTokens(items[..n]), sl) {
          WordIn(ItemTokens(items[..n]), ItemTokens(items), sl);
        }
      }
    }
  }

  lemma {:induction false} SlicesWords(items: seq<Item>, sl: Slice)
    requires sl in Slices(items) && forall i :: i in items ==> ItemOk(i)
    ensures IsWord(ItemTokens(items), sl)
  {
    if items != [] {
      assert items[0] in items;
      if sl in OneSlices(items[0]) {
        assert items[0].word in ItemTokens(items);
      } else {
        SlicesWords(items[1..], sl);
        WordIn(ItemTokens(items[1..]), ItemTokens(items), sl);
      }
    }
  }

  lemma {:induction false} BacksSlices(cmd: Cmd, n: nat)
    ensures AllSlices(Backs(cmd, n)) == AllSlices(cmd)
  {
    if n > 0 {
      BacksSlices(cmd, n - 1);
    }
  }

  lemma {:induction false} LineWords(d: Line, sl: Slice)
    requires LineOk(d) && sl in AllSlices(LineTree(d))
    ensures IsWord(LineTokens(d), sl)
  {
    BacksSlices(PipeTree(d.pipe), |d.amps|);
    if sl in AllSlices(PipeTree(d.pipe)) {
      PipeWords(d.pipe, sl);
      WordIn(PipeTokens(d.pipe), LineTokens(d), sl);
    } else {
      LineWords(d.rest.value.1, sl);
      WordIn(LineTokens(d.rest.value.1), LineTokens(d), sl);
    }
  }

  lemma {:induction false} PipeWords(d: Pipeline, sl: Slice)
    requires PipeOk(d) && sl in AllSlices(PipeTree(d))
    ensures IsWord(PipeTokens(d), sl)
  {
    if sl in AllSlices(SimpleTree(d.exec)) {
      SimpleWords(d.exec, sl);
      WordIn(SimpleTokens(d.exec), PipeTokens(d), sl);
    } else {
      PipeWords(d.rest.value.1, sl);
      WordIn(PipeTokens(d.rest.value.1), PipeTokens(d), sl);
    }
  }

  lemma {:induction false} SimpleWords(d: Simple, sl: Slice)
    requires SimpleOk(d) && sl in AllSlices(SimpleTree(d))
    ensures IsWord(SimpleTokens(d), sl)
  {
    match d
    case Block(o, l, c, rs) =>
      WrapWords(LineTree(l), rs, sl);
      if sl in AllSlices(LineTree(l)) {
        LineWords(l, sl);
        WordIn(LineTokens(l), SimpleTokens(d), sl);
      } else {
        WordIn(ItemTokens(rs), SimpleTokens(d), sl);
      }
    case Items(items) =>
      WrapWords(Exec(Slices(items)), items, sl);
      if sl in ArgvSet(Slices(items)) {
        SlicesWords(items, sl);
      }
  }

  /** No end of a word lies in a word: terminating them all spoils none. */
  lemma WordsApart(s: CString, x: Slice, y: Slice)
    requires IsWord(Lex(s, 0), x) && IsWord(Lex(s, 0), y)
    ensures x.0 < x.1 <= |s| && !(x.0 <= y.1 < x.1)
  {
    hide Lex;
    var u :| u in Lex(s, 0) && u.kind == 'a' && (u.from, u.to) == x;
    var v :| v in Lex(s, 0) && v.kind == 'a' && (v.from, v.to) == y;
    var a :| 0 <= a < |Lex(s, 0)| && Lex(s, 0)[a] == u;
    var b :| 0 <= b < |Lex(s, 0)| && Lex(s, 0)[b] == v;
    LexSpread(s, 0, if a < b then a else b, if a < b then b else a);
    LexSpread(s, 0, a, a);
    LexSpread(s, 0, b, b);
  }

  /** parsecmd: it accepts exactly what the grammar derives, token for token; and then every
      argument and file name, read as a C string from its start, is the slice it was parsed as. */
  method ParseCmd(buf: array<char>, s: CString) returns (r: Result, ghost d: Line)
    requires buf[..] == s + ['\0']
    modifies buf
    ensures r.Ok? <==> exists e :: Derives(e, Lex(s, 0))
    ensures r.Ok? ==> LineTree(d) == r.cmd && forall e :: Derives(e, Lex(s, 0)) <==> e == d
    ensures r.Ok? <==> exists c :: Says(c, Lex(s, 0)) && Fits(c)
    ensures r.Ok? ==> forall c :: Says(c, Lex(s, 0)) <==> c == r.cmd
    ensures r.Ok? ==> forall a :: a in AllSlices(r.cmd) ==>
              a.0 < a.1 <= |s| && CStringAt(buf[..], a.0) == s[a.0..a.1]
    ensures r.Ok? ==> forall t :: t in Lex(s, 0) && t.kind == 'a' ==>
              t.from < t.to <= |s| && CStringAt(buf[..], t.from) == s[t.from..t.to]
    ensures r.Err? ==> buf[..] == old(buf[..])
  {
    hide LineOk, LineFits, LineTree, LineTokens, Lex, AllSlices, IsWord, Says, Fits;
    r, d := ParseAll(s);
    if r.Err? {
      return;
    }
    forall a | a in AllSlices(r.cmd)
      ensures IsWord(Lex(s, 0), a) && a.0 < a.1 <= |s|
    {
      LineWords(d, a);
      WordsApart(s, a, a);
    }
    NulTerminate(r.cmd, buf);
    forall a | a in AllSlices(r.cmd)
      ensures CStringAt(buf[..], a.0) == s[a.0..a.1]
    {
      assert a.1 in Ends(AllSlices(r.cmd));
      forall k | a.0 <= k < a.1
        ensures buf[..][k] == s[k]
      {
        if k in Ends(AllSlices(r.cmd)) {
          var b :| b in AllSlices(r.cmd) && b.1 == k;
          WordsApart(s, a, b);
        }
      }
      CStringIs(buf[..], a.0, a.1);
    }
    SaysWords(r.cmd, Lex(s, 0));
  }
}
