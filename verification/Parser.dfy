/** Expression text to expression tree (hub/derive.py, `_tokenize` and `_Parser`).

    The functions consume a token list from the front and say what is left; the class advances a
    position over a fixed list, as the source does, and is proved to follow them.  `Written` goes
    the other way, with parentheses only where precedence or left associativity needs them. */
module Parser {
  import opened Wrappers
  import opened Decimals
  import opened Derive

  const FUNCTION_NAMES: set<string> := {"zscore", "lag", "diff", "pct_rank", "since", "until"}

  datatype Token = NumberTok(text: string) | NameTok(text: string) | OpTok(c: char)

  type Tokens = seq<Token>

  // ---------------------------------------------------------------- lexemes

  predicate IsNameStart(c: char) { 'A' <= c <= 'Z' || 'a' <= c <= 'z' || c == '_' }

  predicate IsNameChar(c: char) { IsNameStart(c) || IsDigit(c) }

  predicate IsOp(c: char) { c in "+-*/(),=" }

  /** How many leading characters satisfy `p`. */
  function Span(s: string, p: char -> bool): (n: nat)
    ensures n <= |s|
    ensures forall i :: 0 <= i < n ==> p(s[i])
    ensures n < |s| ==> !p(s[n])
  {
    if s == "" || !p(s[0]) then 0 else 1 + Span(s[1..], p)
  }

  /** Length of the number at the front: digits, then a point only when a digit follows it. */
  function NumberLength(s: string): (n: nat)
    ensures n <= |s|
    ensures s != "" && IsDigit(s[0]) ==> n > 0
  {
    var whole := Span(s, IsDigit);
    if whole + 1 < |s| && s[whole] == '.' && IsDigit(s[whole + 1])
    then whole + 1 + Span(s[whole + 1..], IsDigit)
    else whole
  }

  /** The lexeme at the front of some text: its length and the token, if it makes one. */
  function Lexeme(s: string): (r: Option<(nat, Tokens)>)
    requires s != ""
    ensures r.Some? ==> 0 < r.value.0 <= |s|
  {
    if IsDigit(s[0]) then
      var n := NumberLength(s);
      Some((n, [NumberTok(s[..n])]))
    else if IsNameStart(s[0]) then
      var n := Span(s, IsNameChar);
      Some((n, [NameTok(s[..n])]))
    else if IsOp(s[0]) then Some((1, [OpTok(s[0])]))
    else if IsSpace(s[0]) then Some((Span(s, IsSpace), []))
    else None
  }

  function Tokenize(s: string): Option<Tokens>
    decreases |s|
  {
    if s == "" then Some([])
    else
      var (n, ts) :- Lexeme(s);
      var rest :- Tokenize(s[n..]);
      Some(ts + rest)
  }

  /** Tokens already read, put before what the rest of the text gives. */
  function Onto(done: Tokens, left: Option<Tokens>): Option<Tokens> {
    if left.None? then None else Some(done + left.value)
  }

  lemma OntoMore(done: Tokens, ts: Tokens, left: Option<Tokens>)
    ensures Onto(done, Onto(ts, left)) == Onto(done + ts, left) && Onto([], left) == left
  {
    if left.Some? { assert done + (ts + left.value) == done + ts + left.value && [] + left.value == left.value; }
  }

  /** The tokens of a text from each position on. */
  ghost function FromEach(text: string): nat -> Option<Tokens> {
    (pos: nat) => if pos <= |text| then Tokenize(text[pos..]) else None
  }

  /** At a position, `rest` is the lexeme found there before what `rest` is behind it. */
  ghost predicate Turns(text: string, rest: nat -> Option<Tokens>, pos: nat)
    requires pos < |text|
  {
    match Lexeme(text[pos..])
    case None => rest(pos) == None
    case Some(m) => rest(pos) == Onto(m.1, rest(pos + m.0))
  }

  lemma EachTurns(text: string, pos: nat)
    requires pos < |text|
    ensures Turns(text, FromEach(text), pos)
  {
    var m := Lexeme(text[pos..]);
    if m.Some? { assert text[pos..][m.value.0..] == text[pos + m.value.0..]; }
  }

  method NextLexeme(text: string, pos: nat, ghost rest: nat -> Option<Tokens>) returns (m: Option<(nat, Tokens)>)
    requires pos < |text| && Turns(text, rest, pos)
    ensures m.None? ==> rest(pos) == None
    ensures m.Some? ==> 0 < m.value.0 <= |text| - pos && rest(pos) == Onto(m.value.1, rest(pos + m.value.0))
  {
    m := Lexeme(text[pos..]);
  }

  method ReadTokens(text: string, ghost rest: nat -> Option<Tokens>) returns (r: Option<Tokens>)
    requires forall pos :: 0 <= pos < |text| ==> Turns(text, rest, pos)
    requires rest(|text|) == Some([])
    ensures r == rest(0)
  {
    var tokens: Tokens := [];
    var pos := 0;
    OntoMore([], [], rest(0));
    while pos < |text|
      invariant 0 <= pos <= |text|
      invariant rest(0) == Onto(tokens, rest(pos))
      decreases |text| - pos
    {
      var m := NextLexeme(text, pos, rest);
      if m.None? { return None; }
      OntoMore(tokens, m.value.1, rest(pos + m.value.0));
      tokens := tokens + m.value.1;
      pos := pos + m.value.0;
    }
    assert tokens + [] == tokens;
    r := Some(tokens);
  }

  method TokenizeText(text: string) returns (r: Option<Tokens>)
    ensures r == Tokenize(text)
  {
    forall pos | 0 <= pos < |text| ensures Turns(text, FromEach(text), pos) { EachTurns(text, pos); }
    assert text[0..] == text && text[|text|..] == "";
    r := ReadTokens(text, FromEach(text));
  }

  // ---------------------------------------------------------------- the grammar

  predicate StartsOp(ts: Tokens, c: char) { ts != [] && ts[0] == OpTok(c) }

  function AfterOp(ts: Tokens, c: char): (r: Option<Tokens>)
    ensures r.Some? ==> |r.value| < |ts|
  {
    if StartsOp(ts, c) then Some(ts[1..]) else None
  }

  function SumOp(ts: Tokens): Option<Op> {
    if StartsOp(ts, '+') then Some(Add) else if StartsOp(ts, '-') then Some(Sub) else None
  }

  function ProductOp(ts: Tokens): Option<Op> {
    if StartsOp(ts, '*') then Some(Mul) else if StartsOp(ts, '/') then Some(Div) else None
  }

  /** `expr := term (('+' | '-') term)*` */
  function ParseExpr(ts: Tokens): (r: Option<(Expr, Tokens)>)
    ensures r.Some? ==> |r.value.1| < |ts|
    decreases |ts|, 4
  {
    var (e, rest) :- ParseTerm(ts);
    ExprLoop(e, rest)
  }

  function ExprLoop(left: Expr, ts: Tokens): (r: Option<(Expr, Tokens)>)
    ensures r.Some? ==> |r.value.1| <= |ts|
    decreases |ts|, 5
  {
    var op := SumOp(ts);
    if op.None? then Some((left, ts))
    else
      var (right, rest) :- ParseTerm(ts[1..]);
      ExprLoop(BinOp(op.value, left, right), rest)
  }

  /** `term := factor (('*' | '/') factor)*` */
  function ParseTerm(ts: Tokens): (r: Option<(Expr, Tokens)>)
    ensures r.Some? ==> |r.value.1| < |ts|
    decreases |ts|, 2
  {
    var (e, rest) :- ParseFactor(ts);
    TermLoop(e, rest)
  }

  function TermLoop(left: Expr, ts: Tokens): (r: Option<(Expr, Tokens)>)
    ensures r.Some? ==> |r.value.1| <= |ts|
    decreases |ts|, 3
  {
    var op := ProductOp(ts);
    if op.None? then Some((left, ts))
    else
      var (right, rest) :- ParseFactor(ts[1..]);
      TermLoop(BinOp(op.value, left, right), rest)
  }

  /** `factor := '-' factor | atom` */
  function ParseFactor(ts: Tokens): (r: Option<(Expr, Tokens)>)
    ensures r.Some? ==> |r.value.1| < |ts|
    decreases |ts|, 1
  {
    if StartsOp(ts, '-') then
      var (e, rest) :- ParseFactor(ts[1..]);
      Some((Unary(e), rest))
    else ParseAtom(ts)
  }

  /** `atom := NUMBER | call | NAME | '(' expr ')'` */
  function ParseAtom(ts: Tokens): (r: Option<(Expr, Tokens)>)
    ensures r.Some? ==> |r.value.1| < |ts|
    decreases |ts|, 0
  {
    if ts == [] then None
    else match ts[0]
      case NumberTok(text) =>
        var v :- CreateDecimal(text);
        Some((Literal(v), ts[1..]))
      case OpTok(c) =>
        if c != '(' then None
        else
          var (e, rest) :- ParseExpr(ts[1..]);
          var after :- AfterOp(rest, ')');
          Some((e, after))
      case NameTok(name) =>
        if StartsOp(ts[1..], '(') then ParseCall(name, ts[1..])
        else if name in FUNCTION_NAMES then None
        else Some((FieldRef(name), ts[1..]))
  }

  /** `call := NAME '(' arg (',' arg)* ')'`, from its opening parenthesis on. */
  function ParseCall(name: string, ts: Tokens): (r: Option<(Expr, Tokens)>)
    ensures r.Some? ==> |r.value.1| < |ts|
  {
    if name !in FUNCTION_NAMES then None
    else
      var open :- AfterOp(ts, '(');
      if open == [] || !open[0].NameTok? then None
      else
        var (func, rest) :- ParseArgs(name, open[1..]);
        var after :- AfterOp(rest, ')');
        Some((Call(func, open[0].text), after))
  }

  function ParseArgs(name: string, ts: Tokens): (r: Option<(Func, Tokens)>)
    requires name in FUNCTION_NAMES
    ensures r.Some? ==> |r.value.1| <= |ts|
  {
    if name == "since" then Some((Since, ts))
    else if name == "until" then Some((Until, ts))
    else
      var rest :- AfterOp(ts, ',');
      if name == "lag" || name == "diff" then
        var (n, after) :- ParseInteger(rest);
        Some((if name == "lag" then Lag(n) else Diff(n), after))
      else if name == "zscore" then
        var (found, after) :- ParseKeywords({"window", "min_obs"}, map[], rest);
        Some((ZScore(found["window"], found["min_obs"]), after))
      else
        var (found, after) :- ParseKeywords({"window"}, map[], rest);
        Some((PctRank(found["window"]), after))
  }

  function ParseInteger(ts: Tokens): (r: Option<(nat, Tokens)>)
    ensures r.Some? ==> |r.value.1| < |ts|
  {
    if ts != [] && ts[0].NumberTok? && AllDigits(ts[0].text)
    then Some((Val(ts[0].text), ts[1..]))
    else None
  }

  /** Keyword arguments in any order; each expected one exactly once. */
  function ParseKeywords(names: set<string>, found: map<string, nat>, ts: Tokens): (r: Option<(map<string, nat>, Tokens)>)
    ensures r.Some? ==> |r.value.1| < |ts| && names <= r.value.0.Keys
    decreases |ts|
  {
    if ts == [] || !ts[0].NameTok? || ts[0].text !in names || ts[0].text in found then None
    else
      var value :- AfterOp(ts[1..], '=');
      var (n, rest) :- ParseInteger(value);
      var more := found[ts[0].text := n];
      if StartsOp(rest, ',') then ParseKeywords(names, more, rest[1..])
      else if names <= more.Keys then Some((more, rest))
      else None
  }

  /** `compile_expr`: the whole list, or nothing. */
  function ParseTokens(ts: Tokens): Option<Expr> {
    var (e, rest) :- ParseExpr(ts);
    if rest == [] then Some(e) else None
  }

  function ParseText(text: string): Option<Expr> {
    var ts :- Tokenize(text);
    ParseTokens(ts)
  }

  // ---------------------------------------------------------------- the parser as it runs

  /** A reading of the tokens from `ts` on gave `x` and stopped before `rest`. */
  ghost predicate Read<T>(spec: Option<(T, Tokens)>, x: Option<T>, rest: Tokens) {
    match spec
    case Some(p) => x == Some(p.0) && rest == p.1
    case None => x == None
  }

  class TokenParser {
    const tokens: Tokens
    var pos: nat

    constructor (tokens: Tokens)
      ensures Valid() && this.tokens == tokens && pos == 0
    {
      this.tokens := tokens;
      pos := 0;
    }

    ghost predicate Valid() reads this { pos <= |tokens| }

    function Rest(): Tokens
      requires Valid()
      reads this
    {
      tokens[pos..]
    }

    method Advance() returns (tok: Option<Token>)
      requires Valid()
      modifies `pos
      ensures Valid()
      ensures if old(Rest()) == [] then tok == None && Rest() == []
              else tok == Some(old(Rest())[0]) && Rest() == old(Rest())[1..]
    {
      if pos == |tokens| { return None; }
      tok := Some(tokens[pos]);
      pos := pos + 1;
    }

    method ExpectOp(c: char) returns (ok: bool)
      requires Valid()
      modifies `pos
      ensures Valid()
      ensures ok <==> AfterOp(old(Rest()), c).Some?
      ensures ok ==> Rest() == AfterOp(old(Rest()), c).value
    {
      if pos == |tokens| || tokens[pos] != OpTok(c) { return false; }
      var tok := Advance();
      ok := true;
    }

    method Expr() returns (r: Option<Expr>)
      requires Valid()
      modifies `pos
      ensures Valid() && Read(ParseExpr(old(Rest())), r, Rest())
      decreases |tokens| - pos, 3
    {
      ghost var all := ParseExpr(Rest());
      r := Term();
      if r.None? { return; }
      while SumOp(Rest()).Some?
        invariant Valid() && pos > old(pos) && r.Some?
        invariant all == ExprLoop(r.value, Rest())
        decreases |tokens| - pos
      {
        var op := SumOp(Rest());
        var tok := Advance();
        var right := Term();
        if right.None? { return None; }
        r := Some(BinOp(op.value, r.value, right.value));
      }
    }

    method Term() returns (r: Option<Expr>)
      requires Valid()
      modifies `pos
      ensures Valid() && Read(ParseTerm(old(Rest())), r, Rest())
      decreases |tokens| - pos, 2
    {
      ghost var all := ParseTerm(Rest());
      r := Factor();
      if r.None? { return; }
      while ProductOp(Rest()).Some?
        invariant Valid() && pos > old(pos) && r.Some?
        invariant all == TermLoop(r.value, Rest())
        decreases |tokens| - pos
      {
        var op := ProductOp(Rest());
        var tok := Advance();
        var right := Factor();
        if right.None? { return None; }
        r := Some(BinOp(op.value, r.value, right.value));
      }
    }

    method Factor() returns (r: Option<Expr>)
      requires Valid()
      modifies `pos
      ensures Valid() && Read(ParseFactor(old(Rest())), r, Rest())
      decreases |tokens| - pos, 1
    {
      if StartsOp(Rest(), '-') {
        var tok := Advance();
        var operand := Factor();
        if operand.None? { return None; }
        r := Some(Unary(operand.value));
      } else {
        r := Atom();
      }
    }

    method Atom() returns (r: Option<Expr>)
      requires Valid()
      modifies `pos
      ensures Valid() && Read(ParseAtom(old(Rest())), r, Rest())
      decreases |tokens| - pos, 0
    {
      if pos == |tokens| { return None; }
      var tok := Advance();
      match tok.value {
        case NumberTok(text) =>
          var v := CreateDecimal(text);
          if v.None? { return None; }
          r := Some(Literal(v.value));
        case OpTok(c) =>
          if c != '(' { return None; }
          r := Expr();
          if r.None? { return; }
          var closed := ExpectOp(')');
          if !closed { return None; }
        case NameTok(name) =>
          if StartsOp(Rest(), '(') {
            r := CallOf(name);
          } else if name in FUNCTION_NAMES {
            return None;
          } else {
            r := Some(FieldRef(name));
          }
      }
    }

    method CallOf(name: string) returns (r: Option<Expr>)
      requires Valid()
      modifies `pos
      ensures Valid() && Read(ParseCall(name, old(Rest())), r, Rest())
    {
      if name !in FUNCTION_NAMES { return None; }
      var paren := ExpectOp('(');
      if !paren { return None; }
      var field := Advance();
      if field.None? || !field.value.NameTok? { return None; }
      var func := Args(name);
      if func.None? { return None; }
      var closed := ExpectOp(')');
      if !closed { return None; }
      r := Some(Call(func.value, field.value.text));
    }

    method Args(name: string) returns (r: Option<Func>)
      requires Valid() && name in FUNCTION_NAMES
      modifies `pos
      ensures Valid() && Read(ParseArgs(name, old(Rest())), r, Rest())
    {
      if name == "since" { return Some(Since); }
      if name == "until" { return Some(Until); }
      var comma := ExpectOp(',');
      if !comma { return None; }
      if name == "lag" || name == "diff" {
        var n := Integer();
        if n.None? { return None; }
        r := Some(if name == "lag" then Lag(n.value) else Diff(n.value));
      } else if name == "zscore" {
        var found := Keywords({"window", "min_obs"});
        if found.None? { return None; }
        r := Some(ZScore(found.value["window"], found.value["min_obs"]));
      } else {
        var found := Keywords({"window"});
        if found.None? { return None; }
        r := Some(PctRank(found.value["window"]));
      }
    }

    method Integer() returns (r: Option<nat>)
      requires Valid()
      modifies `pos
      ensures Valid() && Read(ParseInteger(old(Rest())), r, Rest())
    {
      var tok := Advance();
      if tok.None? || !tok.value.NumberTok? || !AllDigits(tok.value.text) { return None; }
      r := Some(Val(tok.value.text));
    }

    method Keywords(names: set<string>) returns (r: Option<map<string, nat>>)
      requires Valid()
      modifies `pos
      ensures Valid() && Read(ParseKeywords(names, map[], old(Rest())), r, Rest())
      ensures r.Some? ==> names <= r.value.Keys
    {
      ghost var all := ParseKeywords(names, map[], Rest());
      var found: map<string, nat> := map[];
      while true
        invariant Valid()
        invariant all == ParseKeywords(names, found, Rest())
        decreases |tokens| - pos
      {
        var name := Advance();
        if name.None? || !name.value.NameTok? || name.value.text !in names || name.value.text in found { return None; }
        var equals := ExpectOp('=');
        if !equals { return None; }
        var n := Integer();
        if n.None? { return None; }
        found := found[name.value.text := n.value];
        if !StartsOp(Rest(), ',') { break; }
        var comma := Advance();
      }
      if !(names <= found.Keys) { return None; }
      r := Some(found);
    }

    /** `parse`: a whole expression and no token after it. */
    method ParseAll() returns (r: Option<Expr>)
      requires Valid()
      modifies `pos
      ensures r == ParseTokens(old(Rest()))
    {
      r := Expr();
      if r.Some? && pos != |tokens| { return None; }
    }
  }

  // ---------------------------------------------------------------- writing an expression

  predicate Identifier(s: string) {
    s != "" && IsNameStart(s[0]) && forall i :: 0 <= i < |s| ==> IsNameChar(s[i])
  }

  /** The trees some text denotes: literals carry no sign, and no field reference has the name of a
      function. */
  predicate Writable(e: Expr) {
    match e
    case Literal(v) => v.coef >= 0 && Short(v)
    case FieldRef(name) => Identifier(name) && name !in FUNCTION_NAMES
    case Unary(x) => Writable(x)
    case BinOp(_, l, r) => Writable(l) && Writable(r)
    case Call(_, field) => Identifier(field)
  }

  function FuncName(f: Func): string {
    match f
    case Lag(_) => "lag"
    case Diff(_) => "diff"
    case ZScore(_, _) => "zscore"
    case PctRank(_) => "pct_rank"
    case Since => "since"
    case Until => "until"
  }

  function Keyword(name: string, n: nat): Tokens { [NameTok(name), OpTok('='), NumberTok(Digits(n))] }

  function WrittenArgs(f: Func): Tokens {
    match f
    case Lag(n) => [OpTok(','), NumberTok(Digits(n))]
    case Diff(n) => [OpTok(','), NumberTok(Digits(n))]
    case ZScore(w, m) => [OpTok(',')] + Keyword("window", w) + [OpTok(',')] + Keyword("min_obs", m)
    case PctRank(w) => [OpTok(',')] + Keyword("window", w)
    case Since => []
    case Until => []
  }

  function OpChar(op: Op): char {
    match op case Add => '+' case Sub => '-' case Mul => '*' case Div => '/'
  }

  /** How tightly the outermost construct binds: 0 for sums, 1 for products, 2 for a sign, 3 for
      atoms. */
  function Binding(e: Expr): nat {
    match e
    case BinOp(op, _, _) => if op.Add? || op.Sub? then 0 else 1
    case Unary(_) => 2
    case _ => 3
  }

  /** `e` where something binding at `level` is expected, in parentheses only if it binds less. */
  function Written(e: Expr, level: nat): Tokens
    decreases e, 1
  {
    if Binding(e) < level then [OpTok('(')] + Bare(e) + [OpTok(')')] else Bare(e)
  }

  function Bare(e: Expr): Tokens
    decreases e, 0
  {
    match e
    case Literal(v) => [NumberTok(Format(v))]
    case FieldRef(name) => [NameTok(name)]
    case Unary(x) => [OpTok('-')] + Written(x, 2)
    case BinOp(op, l, r) => Written(l, Binding(e)) + [OpTok(OpChar(op))] + Written(r, Binding(e) + 1)
    case Call(f, field) =>
      [NameTok(FuncName(f)), OpTok('('), NameTok(field)] + WrittenArgs(f) + [OpTok(')')]
  }

  // ---------------------------------------------------------------- parsing it back

  lemma LiteralReads(v: Num)
    requires v.coef >= 0 && Short(v)
    ensures CreateDecimal(Format(v)) == Some(v)
  {
    ParseFormat(v);
    RoundOfEqual(Decimals.Parse(Format(v)).value, v);
  }

  lemma IntegerReads(n: nat, ts: Tokens)
    ensures ParseInteger([NumberTok(Digits(n))] + ts) == Some((n, ts))
  {
    ValDigits(n);
    assert ([NumberTok(Digits(n))] + ts)[1..] == ts;
  }

  lemma KeywordTurn(names: set<string>, found: map<string, nat>, ts: Tokens, name: string, n: nat, rest: Tokens)
    requires ts != [] && ts[0] == NameTok(name) && name in names && name !in found
    requires StartsOp(ts[1..], '=') && ParseInteger(ts[1..][1..]) == Some((n, rest))
    ensures ParseKeywords(names, found, ts) ==
            if StartsOp(rest, ',') then ParseKeywords(names, found[name := n], rest[1..])
            else if names <= found[name := n].Keys then Some((found[name := n], rest)) else None
  {}

  lemma KeywordReads(names: set<string>, found: map<string, nat>, name: string, n: nat, ts: Tokens)
    requires name in names && name !in found
    ensures ParseKeywords(names, found, Keyword(name, n) + ts) ==
            if StartsOp(ts, ',') then ParseKeywords(names, found[name := n], ts[1..])
            else if names <= found[name := n].Keys then Some((found[name := n], ts)) else None
  {
    IntegerReads(n, ts);
    KeywordShape(name, n, ts);
    KeywordTurn(names, found, Keyword(name, n) + ts, name, n, ts);
  }

  lemma KeywordShape(name: string, n: nat, ts: Tokens)
    ensures var all := Keyword(name, n) + ts;
            all[0] == NameTok(name) && StartsOp(all[1..], '=') && all[1..][1..] == [NumberTok(Digits(n))] + ts
  {
    var all := Keyword(name, n) + ts;
    assert all[1..] == [OpTok('='), NumberTok(Digits(n))] + ts;
    assert all[1..][1..] == [NumberTok(Digits(n))] + ts;
  }

  lemma OneIntegerRead(f: Func, n: nat, ts: Tokens)
    requires f == Lag(n) || f == Diff(n)
    ensures ParseArgs(FuncName(f), WrittenArgs(f) + ts) == Some((f, ts))
  {
    assert (WrittenArgs(f) + ts)[1..] == [NumberTok(Digits(n))] + ts;
    IntegerReads(n, ts);
  }

  lemma ArgsRead(f: Func, ts: Tokens)
    requires !StartsOp(ts, ',')
    ensures ParseArgs(FuncName(f), WrittenArgs(f) + ts) == Some((f, ts))
  {
    var all := WrittenArgs(f) + ts;
    match f
    case Lag(n) => OneIntegerRead(f, n, ts);
    case Diff(n) => OneIntegerRead(f, n, ts);
    case ZScore(w, m) => TwoKeywordsRead(w, m, ts);
    case PctRank(w) =>
      assert all[1..] == Keyword("window", w) + ts;
      KeywordReads({"window"}, map[], "window", w, ts);
    case Since => assert all == ts;
    case Until => assert all == ts;
  }

  lemma TwoKeywordsRead(w: nat, m: nat, ts: Tokens)
    requires !StartsOp(ts, ',')
    ensures ParseArgs("zscore", WrittenArgs(ZScore(w, m)) + ts) == Some((ZScore(w, m), ts))
  {
    var names := {"window", "min_obs"};
    var second := Keyword("min_obs", m) + ts;
    var first := Keyword("window", w) + ([OpTok(',')] + second);
    assert WrittenArgs(ZScore(w, m)) + ts == [OpTok(',')] + first;
    assert ([OpTok(',')] + first)[1..] == first && ([OpTok(',')] + second)[1..] == second;
    KeywordReads(names, map[], "window", w, [OpTok(',')] + second);
    KeywordReads(names, map["window" := w], "min_obs", m, ts);
  }

  lemma ParseCallBy(f: Func, field: string, body: Tokens, rest: Tokens)
    requires ParseArgs(FuncName(f), body) == Some((f, [OpTok(')')] + rest))
    ensures ParseCall(FuncName(f), [OpTok('('), NameTok(field)] + body) == Some((Call(f, field), rest))
  {
    var ts := [OpTok('('), NameTok(field)] + body;
    assert ts[1..] == [NameTok(field)] + body && ([NameTok(field)] + body)[1..] == body;
    assert ([OpTok(')')] + rest)[1..] == rest;
  }

  lemma NamedReads(name: string, ts: Tokens)
    requires StartsOp(ts, '(')
    ensures ParseAtom([NameTok(name)] + ts) == ParseCall(name, ts)
  {
    assert ([NameTok(name)] + ts)[1..] == ts;
  }

  lemma BareCall(f: Func, field: string, ts: Tokens)
    ensures Bare(Call(f, field)) + ts ==
            [NameTok(FuncName(f))] + ([OpTok('('), NameTok(field)] + (WrittenArgs(f) + ([OpTok(')')] + ts)))
  {}

  lemma CallReads(f: Func, field: string, ts: Tokens)
    ensures ParseAtom(Bare(Call(f, field)) + ts) == Some((Call(f, field), ts))
  {
    var body := WrittenArgs(f) + ([OpTok(')')] + ts);
    ArgsRead(f, [OpTok(')')] + ts);
    ParseCallBy(f, field, body, ts);
    BareCall(f, field, ts);
    NamedReads(FuncName(f), [OpTok('('), NameTok(field)] + body);
  }

  /** Distance from one grammar position to where the construct is finally read. */
  function Distance(e: Expr, level: nat): nat
    requires level <= 3
  {
    if level <= Binding(e) then Binding(e) - level else 4 - level + Binding(e)
  }

  lemma ParenReads(e: Expr, ts: Tokens, inner: Tokens)
    requires ParseExpr(inner) == Some((e, [OpTok(')')] + ts))
    ensures ParseAtom([OpTok('(')] + inner) == Some((e, ts))
  {
    assert ([OpTok('(')] + inner)[1..] == inner && ([OpTok(')')] + ts)[1..] == ts;
  }

  lemma LeafReads(e: Expr, ts: Tokens)
    requires Writable(e) && (e.Literal? || e.FieldRef?) && !StartsOp(ts, '(')
    ensures ParseAtom(Bare(e) + ts) == Some((e, ts))
  {
    assert (Bare(e) + ts)[1..] == ts;
    if e.Literal? { LiteralReads(e.value); }
  }

  lemma SumTurn(left: Expr, op: Op, right: Expr, body: Tokens, ts: Tokens)
    requires (op.Add? || op.Sub?) && ParseTerm(body) == Some((right, ts))
    ensures ExprLoop(left, [OpTok(OpChar(op))] + body) == ExprLoop(BinOp(op, left, right), ts)
  {
    assert ([OpTok(OpChar(op))] + body)[1..] == body;
  }

  lemma ProductTurn(left: Expr, op: Op, right: Expr, body: Tokens, ts: Tokens)
    requires (op.Mul? || op.Div?) && ParseFactor(body) == Some((right, ts))
    ensures TermLoop(left, [OpTok(OpChar(op))] + body) == TermLoop(BinOp(op, left, right), ts)
  {
    assert ([OpTok(OpChar(op))] + body)[1..] == body;
  }

  lemma WrittenBinary(e: Expr, ts: Tokens)
    requires e.BinOp?
    ensures Written(e, Binding(e)) + ts ==
            Written(e.left, Binding(e)) + ([OpTok(OpChar(e.op))] + (Written(e.right, Binding(e) + 1) + ts))
  {}

  lemma WrittenParen(e: Expr, ts: Tokens)
    requires Binding(e) < 3
    ensures Written(e, 3) + ts == [OpTok('(')] + (Written(e, 0) + ([OpTok(')')] + ts))
  {}

  lemma LoopEnds(e: Expr, ts: Tokens)
    ensures ExprLoop(e, [OpTok(')')] + ts) == Some((e, [OpTok(')')] + ts))
  {}

  lemma AtomReads(e: Expr, ts: Tokens)
    requires Writable(e) && !StartsOp(ts, '(')
    ensures ParseAtom(Written(e, 3) + ts) == Some((e, ts))
    decreases e, Distance(e, 3)
  {
    if Binding(e) < 3 {
      var close: Tokens := [OpTok(')')] + ts;
      ExprReads(e, close);
      LoopEnds(e, ts);
      ParenReads(e, ts, Written(e, 0) + close);
      WrittenParen(e, ts);
    } else if e.Call? {
      CallReads(e.func, e.field, ts);
    } else {
      LeafReads(e, ts);
    }
  }

  lemma FactorReads(e: Expr, ts: Tokens)
    requires Writable(e) && !StartsOp(ts, '(')
    ensures ParseFactor(Written(e, 2) + ts) == Some((e, ts))
    decreases e, Distance(e, 2)
  {
    if e.Unary? {
      assert (Written(e, 2) + ts)[1..] == Written(e.operand, 2) + ts;
      FactorReads(e.operand, ts);
    } else {
      AtomReads(e, ts);
      assert Written(e, 2) == Written(e, 3) && (Written(e, 3) + ts)[0] == Written(e, 3)[0];
    }
  }

  lemma TermReads(e: Expr, ts: Tokens)
    requires Writable(e) && !StartsOp(ts, '(')
    ensures ParseTerm(Written(e, 1) + ts) == TermLoop(e, ts)
    decreases e, Distance(e, 1)
  {
    if Binding(e) == 1 {
      var body := Written(e.right, 2) + ts;
      WrittenBinary(e, ts);
      TermReads(e.left, [OpTok(OpChar(e.op))] + body);
      FactorReads(e.right, ts);
      ProductTurn(e.left, e.op, e.right, body, ts);
    } else {
      FactorReads(e, ts);
      assert Written(e, 1) == Written(e, 2);
    }
  }

  lemma ExprReads(e: Expr, ts: Tokens)
    requires Writable(e) && !StartsOp(ts, '(') && ProductOp(ts).None?
    ensures ParseExpr(Written(e, 0) + ts) == ExprLoop(e, ts)
    decreases e, Distance(e, 0)
  {
    if Binding(e) == 0 {
      var body := Written(e.right, 1) + ts;
      WrittenBinary(e, ts);
      ExprReads(e.left, [OpTok(OpChar(e.op))] + body);
      TermReads(e.right, ts);
      assert TermLoop(e.right, ts) == Some((e.right, ts));
      SumTurn(e.left, e.op, e.right, body, ts);
    } else {
      TermReads(e, ts);
      assert Written(e, 0) == Written(e, 1) && TermLoop(e, ts) == Some((e, ts));
    }
  }

  /** Every writable tree is what its own tokens parse to. */
  lemma ParseWritten(e: Expr)
    requires Writable(e)
    ensures ParseTokens(Written(e, 0)) == Some(e)
  {
    ExprReads(e, []);
    assert Written(e, 0) + [] == Written(e, 0);
  }

  // ---------------------------------------------------------------- through the text

  predicate LexicalNumber(s: string) { s != "" && IsDigit(s[0]) && NumberLength(s) == |s| }

  predicate Lexical(t: Token) {
    match t
    case NumberTok(s) => LexicalNumber(s)
    case NameTok(s) => Identifier(s)
    case OpTok(c) => IsOp(c)
  }

  predicate AllLexical(ts: Tokens) { forall t :: t in ts ==> Lexical(t) }

  function TokenText(t: Token): string {
    match t case NumberTok(s) => s case NameTok(s) => s case OpTok(c) => [c]
  }

  /** The tokens as text, a blank after each. */
  function Spelled(ts: Tokens): string {
    if ts == [] then "" else TokenText(ts[0]) + " " + Spelled(ts[1..])
  }

  lemma {:induction false} SpanStops(s: string, t: string, p: char -> bool)
    requires t != "" && !p(t[0])
    ensures Span(s + t, p) == Span(s, p)
  {
    if s == "" {
      assert s + t == t;
    } else {
      assert (s + t)[1..] == s[1..] + t;
      SpanStops(s[1..], t, p);
    }
  }

  lemma {:induction false} SpanAll(s: string, p: char -> bool)
    ensures Span(s, p) == |s| <==> forall i :: 0 <= i < |s| ==> p(s[i])
  {
    if s != "" && p(s[0]) { SpanAll(s[1..], p); }
  }

  lemma NumberEnds(s: string, t: string)
    requires LexicalNumber(s) && t != "" && IsSpace(t[0])
    ensures NumberLength(s + t) == |s|
  {
    var whole := Span(s, IsDigit);
    SpanStops(s, t, IsDigit);
    if whole < |s| {
      assert (s + t)[whole + 1..] == s[whole + 1..] + t;
      SpanStops(s[whole + 1..], t, IsDigit);
    }
  }

  lemma LexemeOf(t: Token, rest: string)
    requires Lexical(t)
    ensures Lexeme(TokenText(t) + " " + rest) == Some((|TokenText(t)|, [t]))
  {
    var s := TokenText(t);
    var all := s + " " + rest;
    assert all == s + (" " + rest) && all[0] == s[0] && all[..|s|] == s;
    if t.NumberTok? {
      NumberEnds(s, " " + rest);
    } else if t.NameTok? {
      SpanStops(s, " " + rest, IsNameChar);
      SpanAll(s, IsNameChar);
    }
  }

  lemma BlankLexeme(rest: string)
    requires rest == "" || !IsSpace(rest[0])
    ensures Lexeme(" " + rest) == Some((1, []))
  {
    assert (" " + rest)[1..] == rest;
    assert Span(" " + rest, IsSpace) == 1 + Span(rest, IsSpace);
  }

  lemma TokenizeTwo(s: string, n: nat, t: Token, rest: string)
    requires s != "" && Lexeme(s) == Some((n, [t]))
    requires s[n..] == " " + rest && Lexeme(" " + rest) == Some((1, []))
    ensures Tokenize(s) == Onto([t], Tokenize(rest))
  {
    assert (" " + rest)[1..] == rest;
    if Tokenize(rest).Some? { assert [] + Tokenize(rest).value == Tokenize(rest).value; }
  }

  /** Spelling a token list and tokenizing the text gives the list back. */
  lemma {:induction false} TokenizeSpelled(ts: Tokens)
    requires AllLexical(ts)
    ensures Tokenize(Spelled(ts)) == Some(ts)
  {
    if ts == [] {
    } else {
      var rest := Spelled(ts[1..]);
      var text := TokenText(ts[0]);
      assert Lexical(ts[0]);
      LexemeOf(ts[0], rest);
      if |ts| > 1 { assert Lexical(ts[1]) && rest[0] == TokenText(ts[1])[0]; }
      BlankLexeme(rest);
      assert Spelled(ts)[|text|..] == " " + rest;
      TokenizeTwo(Spelled(ts), |text|, ts[0], rest);
      TokenizeSpelled(ts[1..]);
      assert ts == [ts[0]] + ts[1..];
    }
  }

  lemma DigitsLexical(n: nat)
    ensures LexicalNumber(Digits(n))
  {
    SpanAll(Digits(n), IsDigit);
  }

  lemma PointLexical(whole: string, frac: string)
    requires AllDigits(whole) && AllDigits(frac) && whole != ""
    ensures LexicalNumber(Point(whole, frac))
  {
    SpanAll(whole, IsDigit);
    if frac != "" {
      SpanAll(frac, IsDigit);
      var s := Point(whole, frac);
      assert s == whole + ("." + frac) && s[|whole| + 1..] == frac;
      SpanStops(whole, "." + frac, IsDigit);
    }
  }

  lemma FormatLexical(v: Num)
    requires v.coef >= 0
    ensures LexicalNumber(Format(v))
  {
    var whole, frac := FormatShape(v.coef, v.exp);
    PointLexical(whole, frac);
  }

  lemma {:induction false} WrittenLexical(e: Expr, level: nat)
    requires Writable(e)
    ensures AllLexical(Written(e, level))
  {
    match e
    case Literal(v) => FormatLexical(v);
    case FieldRef(_) =>
    case Unary(x) => WrittenLexical(x, 2);
    case BinOp(_, l, r) =>
      WrittenLexical(l, Binding(e));
      WrittenLexical(r, Binding(e) + 1);
    case Call(f, field) =>
      ArgsLexical(f);
  }

  lemma KeywordLexical(name: string, n: nat)
    requires Identifier(name)
    ensures AllLexical(Keyword(name, n)) && AllLexical([OpTok(','), NumberTok(Digits(n))])
  {
    DigitsLexical(n);
  }

  lemma ArgsLexical(f: Func)
    ensures AllLexical(WrittenArgs(f)) && Identifier(FuncName(f))
  {
    match f
    case Lag(n) => KeywordLexical("lag", n);
    case Diff(n) => KeywordLexical("diff", n);
    case ZScore(w, m) =>
      KeywordLexical("window", w);
      KeywordLexical("min_obs", m);
    case PctRank(w) => KeywordLexical("window", w);
    case Since =>
    case Until =>
  }

  /** The expression text of a tree. */
  function Spelling(e: Expr): string { Spelled(Written(e, 0)) }

  /** Rendering any tree of the grammar to text and compiling the text gives the tree back. */
  lemma ParseSpelling(e: Expr)
    requires Writable(e)
    ensures ParseText(Spelling(e)) == Some(e)
  {
    WrittenLexical(e, 0);
    TokenizeSpelled(Written(e, 0));
    ParseWritten(e);
  }

  // ---------------------------------------------------------------- and every parsed tree is one

  lemma LexemeLexical(s: string)
    requires s != "" && Lexeme(s).Some?
    ensures AllLexical(Lexeme(s).value.1)
  {
    if IsDigit(s[0]) {
      NumberOfPrefix(s);
    }
  }

  lemma NumberOfPrefix(s: string)
    requires s != "" && IsDigit(s[0])
    ensures LexicalNumber(s[..NumberLength(s)])
  {
    var n := NumberLength(s);
    var whole := Span(s, IsDigit);
    var t := s[..n];
    SpanPrefix(s, n, IsDigit);
    if n > whole {
      SpanPrefix(s[whole + 1..], n - whole - 1, IsDigit);
      assert t[whole + 1..] == s[whole + 1..][..n - whole - 1];
    }
  }

  lemma {:induction false} SpanPrefix(s: string, n: nat, p: char -> bool)
    requires n <= |s|
    ensures Span(s[..n], p) == if n < Span(s, p) then n else Span(s, p)
  {
    if n == 0 || !p(s[0]) {
    } else {
      assert s[..n][1..] == s[1..][..n - 1];
      SpanPrefix(s[1..], n - 1, p);
    }
  }

  lemma {:induction false} TokenizeLexical(s: string)
    requires Tokenize(s).Some?
    ensures AllLexical(Tokenize(s).value)
    decreases |s|
  {
    if s == "" {
    } else {
      LexemeLexical(s);
      TokenizeLexical(s[Lexeme(s).value.0..]);
    }
  }

  lemma {:induction false} StripSign(coef: int, exp: int)
    requires coef >= 0
    ensures Strip(coef, exp).coef >= 0
    decreases coef
  {
    if coef != 0 && coef % 10 == 0 { StripSign(coef / 10, exp + 1); }
  }

  lemma RoundSign(d: Dec, precision: nat)
    requires d.coef >= 0
    ensures Rounded(d, precision).coef >= 0
  {
    var k := |Digits(d.coef)|;
    if k <= precision {
      StripSign(d.coef, d.exp);
    } else {
      StripSign(HalfEven(d.coef, Pow10(k - precision)), d.exp + (k - precision));
    }
  }

  lemma LiteralIsWritable(text: string)
    requires LexicalNumber(text) && CreateDecimal(text).Some?
    ensures Writable(Literal(CreateDecimal(text).value))
  {
    var d := Decimals.Parse(text).value;
    RoundShort(d);
    RoundSign(d, PRECISION);
  }

  lemma FactorWritable(ts: Tokens)
    requires AllLexical(ts) && ParseFactor(ts).Some?
    ensures Writable(ParseFactor(ts).value.0) && AllLexical(ParseFactor(ts).value.1)
    decreases |ts|, 1
  {
    if StartsOp(ts, '-') { FactorWritable(ts[1..]); } else { AtomWritable(ts); }
  }

  lemma AtomWritable(ts: Tokens)
    requires AllLexical(ts) && ParseAtom(ts).Some?
    ensures Writable(ParseAtom(ts).value.0) && AllLexical(ParseAtom(ts).value.1)
    decreases |ts|, 0
  {
    assert Lexical(ts[0]);
    match ts[0]
    case NumberTok(text) => LiteralIsWritable(text);
    case OpTok(_) => ExprWritable(ts[1..]);
    case NameTok(name) => if StartsOp(ts[1..], '(') { CallWritable(name, ts[1..]); }
  }

  lemma {:induction false} KeywordsLexical(names: set<string>, found: map<string, nat>, ts: Tokens)
    requires AllLexical(ts) && ParseKeywords(names, found, ts).Some?
    ensures AllLexical(ParseKeywords(names, found, ts).value.1)
    decreases |ts|
  {
    var (n, rest) := ParseInteger(ts[1..][1..]).value;
    if StartsOp(rest, ',') { KeywordsLexical(names, found[ts[0].text := n], rest[1..]); }
  }

  lemma CallWritable(name: string, ts: Tokens)
    requires AllLexical(ts) && ParseCall(name, ts).Some?
    ensures Writable(ParseCall(name, ts).value.0) && AllLexical(ParseCall(name, ts).value.1)
  {
    var args := ts[1..][1..];
    assert Lexical(ts[1..][0]);
    if name == "zscore" {
      KeywordsLexical({"window", "min_obs"}, map[], args[1..]);
    } else if name == "pct_rank" {
      KeywordsLexical({"window"}, map[], args[1..]);
    }
  }

  lemma TermLoopWritable(left: Expr, ts: Tokens)
    requires Writable(left) && AllLexical(ts) && TermLoop(left, ts).Some?
    ensures Writable(TermLoop(left, ts).value.0) && AllLexical(TermLoop(left, ts).value.1)
    decreases |ts|, 3
  {
    var op := ProductOp(ts);
    if op.None? {
    } else {
      FactorWritable(ts[1..]);
      var (right, rest) := ParseFactor(ts[1..]).value;
      TermLoopWritable(BinOp(op.value, left, right), rest);
    }
  }

  lemma TermWritable(ts: Tokens)
    requires AllLexical(ts) && ParseTerm(ts).Some?
    ensures Writable(ParseTerm(ts).value.0) && AllLexical(ParseTerm(ts).value.1)
    decreases |ts|, 2
  {
    FactorWritable(ts);
    TermLoopWritable(ParseFactor(ts).value.0, ParseFactor(ts).value.1);
  }

  lemma ExprLoopWritable(left: Expr, ts: Tokens)
    requires Writable(left) && AllLexical(ts) && ExprLoop(left, ts).Some?
    ensures Writable(ExprLoop(left, ts).value.0) && AllLexical(ExprLoop(left, ts).value.1)
    decreases |ts|, 5
  {
    var op := SumOp(ts);
    if op.None? {
    } else {
      TermWritable(ts[1..]);
      var (right, rest) := ParseTerm(ts[1..]).value;
      ExprLoopWritable(BinOp(op.value, left, right), rest);
    }
  }

  lemma ExprWritable(ts: Tokens)
    requires AllLexical(ts) && ParseExpr(ts).Some?
    ensures Writable(ParseExpr(ts).value.0) && AllLexical(ParseExpr(ts).value.1)
    decreases |ts|, 4
  {
    TermWritable(ts);
    ExprLoopWritable(ParseTerm(ts).value.0, ParseTerm(ts).value.1);
  }

  /** The writable trees are exactly the trees some text compiles to. */
  lemma ParsesIffWritable(e: Expr)
    ensures Writable(e) <==> exists text :: ParseText(text) == Some(e)
  {
    if Writable(e) { ParseSpelling(e); }
    if text :| ParseText(text) == Some(e) {
      TokenizeLexical(text);
      ExprWritable(Tokenize(text).value);
    }
  }
}
