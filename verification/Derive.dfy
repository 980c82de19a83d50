/** Derived-field expressions: the tree, its evaluation and how far back it reads (hub/derive.py).

    The arithmetic context is a value of its own: every theorem here holds for any deterministic
    context whose operations may fail, so nothing rests on how a quotient is rounded. */
module Derive {
  import opened Wrappers
  import opened Decimals
  import opened Records

  /** The fixed decimal context; `None` is a trapped signal. */
  datatype Context = Context(
    minus: Num -> Option<Num>,
    add: (Num, Num) -> Option<Num>,
    subtract: (Num, Num) -> Option<Num>,
    multiply: (Num, Num) -> Option<Num>,
    divide: (Num, Num) -> Option<Num>,
    sqrt: Num -> Option<Num>)

  datatype Op = Add | Sub | Mul | Div

  datatype Func =
    | Lag(n: nat)
    | Diff(n: nat)
    | ZScore(window: nat, minObs: nat)
    | PctRank(window: nat)
    | Since
    | Until

  datatype Expr =
    | Literal(value: Num)
    | FieldRef(name: string)
    | Unary(operand: Expr)
    | BinOp(op: Op, left: Expr, right: Expr)
    | Call(func: Func, field: string)

  type History = seq<Payload>

  /** The newest `k` entries of a history, oldest first. */
  function Last<T>(h: seq<T>, k: nat): (t: seq<T>)
    ensures |t| == if |h| <= k then |h| else k
  {
    if |h| <= k then h else h[|h| - k..]
  }

  // ---------------------------------------------------------------- reading a value

  /** One payload value as a number; a bool is deliberately not one. */
  function ToDecimal(v: Value): Option<Num> {
    match v
    case Null => None
    case Bool(_) => None
    case Int(i) => Some(Round(Dec(i, 0)))
    case Text(s) => CreateDecimal(s)
    case Other(r) => CreateDecimal(r)
  }

  /** The values of `field` over some entries; `None` when one is missing. */
  function Readings(field: string, h: History): Option<seq<Num>> {
    if h == [] then Some([])
    else
      var first :- ToDecimal(Get(h[0], field));
      var rest :- Readings(field, h[1..]);
      Some([first] + rest)
  }

  function RecentWindow(field: string, window: nat, h: History): Option<seq<Num>> {
    Readings(field, Last(h, window))
  }

  function LagOf(field: string, n: nat, h: History): Option<Num> {
    if n == 0 || n > |h| then None else ToDecimal(Get(h[|h| - n], field))
  }

  // ---------------------------------------------------------------- statistics

  function Lift(f: (Num, Num) -> Option<Num>, a: Option<Num>, b: Option<Num>): Option<Num> {
    if a.Some? && b.Some? then f(a.value, b.value) else None
  }

  /** The running sum of a window, left to right as the context adds it. */
  function Total(ctx: Context, vs: seq<Num>): Option<Num> {
    if vs == [] then Some(Dec(0, 0))
    else Lift(ctx.add, Total(ctx, vs[..|vs| - 1]), Some(vs[|vs| - 1]))
  }

  function SquaredDeviation(ctx: Context, v: Num, mean: Num): Option<Num> {
    var delta :- ctx.subtract(v, mean);
    ctx.multiply(delta, delta)
  }

  function VarianceSum(ctx: Context, vs: seq<Num>, mean: Num): Option<Num> {
    if vs == [] then Some(Dec(0, 0))
    else
      Lift(ctx.add, VarianceSum(ctx, vs[..|vs| - 1], mean), SquaredDeviation(ctx, vs[|vs| - 1], mean))
  }

  function Count(n: nat): Num { Strip(n, 0) }

  function ZScoreOf(ctx: Context, minObs: nat, current: Option<Num>, values: Option<seq<Num>>): Option<Num> {
    if current.None? || values.None? || |values.value| < minObs || |values.value| < 2 then None
    else
      var vs := values.value;
      var total :- Total(ctx, vs);
      var mean :- ctx.divide(total, Count(|vs|));
      var spread :- VarianceSum(ctx, vs, mean);
      var variance :- ctx.divide(spread, Count(|vs| - 1));
      var stdev :- ctx.sqrt(variance);
      if stdev.coef == 0 then None
      else
        var delta :- ctx.subtract(current.value, mean);
        ctx.divide(delta, stdev)
  }

  function Below(vs: seq<Num>, current: Num): (n: nat)
    ensures n <= |vs|
  {
    if vs == [] then 0
    else Below(vs[1..], current) + if Less(vs[0], current) then 1 else 0
  }

  function PctRankOf(ctx: Context, current: Option<Num>, values: Option<seq<Num>>): Option<Num> {
    if values.None? || current.None? || |values.value| == 0 then None
    else ctx.divide(Count(Below(values.value, current.value)), Count(|values.value|))
  }

  /** The score as the source accumulates it, one value at a time: the first failing operation
      ends it. */
  method AccumulateZScore(ctx: Context, minObs: nat, current: Option<Num>, values: Option<seq<Num>>)
    returns (r: Option<Num>)
    ensures r == ZScoreOf(ctx, minObs, current, values)
  {
    if current.None? || values.None? || |values.value| < minObs || |values.value| < 2 {
      return None;
    }
    var vs := values.value;
    var total: Option<Num> := Some(Dec(0, 0));
    for i := 0 to |vs|
      invariant total == Total(ctx, vs[..i])
    {
      total := Lift(ctx.add, total, Some(vs[i]));
      assert vs[..i + 1][..i] == vs[..i];
    }
    assert vs[..|vs|] == vs;
    if total.None? { return None; }
    var mean := ctx.divide(total.value, Count(|vs|));
    if mean.None? { return None; }
    var spread: Option<Num> := Some(Dec(0, 0));
    for i := 0 to |vs|
      invariant spread == VarianceSum(ctx, vs[..i], mean.value)
    {
      spread := Lift(ctx.add, spread, SquaredDeviation(ctx, vs[i], mean.value));
      assert vs[..i + 1][..i] == vs[..i];
    }
    if spread.None? { return None; }
    var variance := ctx.divide(spread.value, Count(|vs| - 1));
    if variance.None? { return None; }
    var stdev := ctx.sqrt(variance.value);
    if stdev.None? || stdev.value.coef == 0 { return None; }
    var delta := ctx.subtract(current.value, mean.value);
    if delta.None? { return None; }
    r := ctx.divide(delta.value, stdev.value);
  }

  // ---------------------------------------------------------------- evaluation

  function Apply(ctx: Context, op: Op): (Num, Num) -> Option<Num> {
    match op
    case Add => ctx.add
    case Sub => ctx.subtract
    case Mul => ctx.multiply
    case Div => ctx.divide
  }

  function EvalCall(ctx: Context, func: Func, field: string, payload: Payload, h: History): Option<Num> {
    var current := ToDecimal(Get(payload, field));
    match func
    case Lag(n) => LagOf(field, n, h)
    case Diff(n) => Lift(ctx.subtract, current, LagOf(field, n, h))
    case ZScore(window, minObs) => ZScoreOf(ctx, minObs, current, RecentWindow(field, window, h))
    case PctRank(window) => PctRankOf(ctx, current, RecentWindow(field, window, h))
    case Since => Lift(ctx.subtract, ToDecimal(Get(payload, "known_at")), current)
    case Until => Lift(ctx.subtract, current, ToDecimal(Get(payload, "known_at")))
  }

  function Eval(ctx: Context, e: Expr, payload: Payload, h: History): Option<Num> {
    match e
    case Literal(v) => Some(v)
    case FieldRef(name) => ToDecimal(Get(payload, name))
    case Unary(x) =>
      var v :- Eval(ctx, x, payload, h);
      ctx.minus(v)
    case BinOp(op, l, r) => Lift(Apply(ctx, op), Eval(ctx, l, payload, h), Eval(ctx, r, payload, h))
    case Call(func, field) => EvalCall(ctx, func, field, payload, h)
  }

  /** A compiled expression: canonical text, or null. */
  function Run(ctx: Context, e: Expr, payload: Payload, h: History): Value {
    var r := Eval(ctx, e, payload, h);
    if r.None? then Null else Text(Format(Round(r.value)))
  }

  // ---------------------------------------------------------------- what an expression reads

  function Names(e: Expr): set<string> {
    match e
    case Literal(_) => {}
    case FieldRef(name) => {name}
    case Unary(x) => Names(x)
    case BinOp(_, l, r) => Names(l) + Names(r)
    case Call(_, field) => {field}
  }

  function Max(a: nat, b: nat): nat { if a < b then b else a }

  function CallLookback(func: Func): nat {
    match func
    case Lag(n) => n
    case Diff(n) => n
    case ZScore(window, _) => window
    case PctRank(window) => window
    case Since => 0
    case Until => 0
  }

  function Lookback(e: Expr): nat {
    match e
    case Literal(_) => 0
    case FieldRef(_) => 0
    case Unary(x) => Lookback(x)
    case BinOp(_, l, r) => Max(Lookback(l), Lookback(r))
    case Call(func, _) => CallLookback(func)
  }

  /** What is read from the payload at hand: every name but the field of a `lag`, which only the past
      is asked for; and `known_at`, which `since` and `until` read without naming it. */
  function ReadsNow(e: Expr): set<string> {
    match e
    case Literal(_) => {}
    case FieldRef(name) => {name}
    case Unary(x) => ReadsNow(x)
    case BinOp(_, l, r) => ReadsNow(l) + ReadsNow(r)
    case Call(func, field) =>
      match func
      case Lag(_) => {}
      case Since => {field, "known_at"}
      case Until => {field, "known_at"}
      case _ => {field}
  }

  lemma {:induction false} ReadsNowIsNamed(e: Expr)
    ensures ReadsNow(e) <= Names(e) + {"known_at"}
  {
    match e
    case Literal(_) =>
    case FieldRef(_) =>
    case Unary(x) => ReadsNowIsNamed(x);
    case BinOp(_, l, r) =>
      ReadsNowIsNamed(l);
      ReadsNowIsNamed(r);
    case Call(_, _) =>
  }

  /** Whether the value can depend on the envelope's `known_at`. */
  predicate ReadsKnownAt(e: Expr) { "known_at" in ReadsNow(e) }

  // ---------------------------------------------------------------- missing data

  /** What a call reads of the past is not all there. */
  predicate MissingBefore(func: Func, field: string, h: History) {
    match func
    case Lag(n) => LagOf(field, n, h).None?
    case Diff(n) => LagOf(field, n, h).None?
    case ZScore(window, _) => exists i :: 0 <= i < |Last(h, window)| && ToDecimal(Get(Last(h, window)[i], field)).None?
    case PctRank(window) => exists i :: 0 <= i < |Last(h, window)| && ToDecimal(Get(Last(h, window)[i], field)).None?
    case Since => false
    case Until => false
  }

  /** Some input the expression reads, now or of the past, is missing. */
  predicate Missing(e: Expr, p: Payload, h: History) {
    match e
    case Literal(_) => false
    case FieldRef(name) => ToDecimal(Get(p, name)).None?
    case Unary(x) => Missing(x, p, h)
    case BinOp(_, l, r) => Missing(l, p, h) || Missing(r, p, h)
    case Call(func, field) =>
      MissingBefore(func, field, h) || exists n :: n in ReadsNow(e) && ToDecimal(Get(p, n)).None?
  }

  lemma {:induction false} HoleInWindow(field: string, h: History, i: nat)
    requires i < |h| && ToDecimal(Get(h[i], field)).None?
    ensures Readings(field, h).None?
  {
    if i == 0 {
    } else {
      HoleInWindow(field, h[1..], i - 1);
    }
  }

  /** A missing input anywhere makes the whole expression null. */
  lemma {:induction false} MissingIsNull(ctx: Context, e: Expr, p: Payload, h: History)
    requires Missing(e, p, h)
    ensures Eval(ctx, e, p, h).None? && Run(ctx, e, p, h) == Null
  {
    match e
    case FieldRef(_) =>
    case Unary(x) => MissingIsNull(ctx, x, p, h);
    case BinOp(_, l, r) =>
      if Missing(l, p, h) {
        MissingIsNull(ctx, l, p, h);
      } else {
        MissingIsNull(ctx, r, p, h);
      }
    case Call(func, field) =>
      if MissingBefore(func, field, h) && (func.ZScore? || func.PctRank?) {
        var i :| 0 <= i < |Last(h, func.window)| && ToDecimal(Get(Last(h, func.window)[i], field)).None?;
        HoleInWindow(field, Last(h, func.window), i);
      }
  }

  lemma {:induction false} MissingNow(e: Expr, p: Payload, h: History, n: string)
    requires n in ReadsNow(e) && ToDecimal(Get(p, n)).None?
    ensures Missing(e, p, h)
  {
    match e
    case FieldRef(_) =>
    case Unary(x) => MissingNow(x, p, h, n);
    case BinOp(_, l, r) =>
      if n in ReadsNow(l) {
        MissingNow(l, p, h, n);
      } else {
        MissingNow(r, p, h, n);
      }
    case Call(_, _) =>
  }

  // ---------------------------------------------------------------- the lookback theorem

  lemma LastOfLast<T>(h: seq<T>, k: nat, w: nat)
    requires w <= k
    ensures Last(Last(h, k), w) == Last(h, w)
  {}

  /** Limited evaluation loses nothing: any number of entries from `Lookback` up gives the value
      the whole history gives. */
  lemma {:induction false} LookbackTheorem(ctx: Context, e: Expr, payload: Payload, h: History, k: nat)
    requires k >= Lookback(e)
    ensures Eval(ctx, e, payload, Last(h, k)) == Eval(ctx, e, payload, h)
    ensures Run(ctx, e, payload, Last(h, k)) == Run(ctx, e, payload, h)
  {
    match e
    case Literal(_) =>
    case FieldRef(_) =>
    case Unary(x) => LookbackTheorem(ctx, x, payload, h, k);
    case BinOp(_, l, r) =>
      LookbackTheorem(ctx, l, payload, h, k);
      LookbackTheorem(ctx, r, payload, h, k);
    case Call(func, field) =>
      LastOfLast(h, k, CallLookback(func));
  }

  /** A lag needs every entry it claims: one entry fewer and some history gives another value. */
  lemma LagLookbackIsTight(ctx: Context, field: string, n: nat, payload: Payload) returns (h: History)
    requires n > 0
    ensures Lookback(Call(Lag(n), field)) == n
    ensures Run(ctx, Call(Lag(n), field), payload, Last(h, n - 1)) !=
            Run(ctx, Call(Lag(n), field), payload, h)
  {
    h := seq(n, i => map[field := Int(1)]);
    assert Get(h[0], field) == Int(1);
  }

  /** An expression reads the payload at hand only through the names it reads now. */
  lemma {:induction false} EvalReadsOnlyNow(ctx: Context, e: Expr, p: Payload, q: Payload, h: History)
    requires forall n :: n in ReadsNow(e) ==> ToDecimal(Get(p, n)) == ToDecimal(Get(q, n))
    ensures Eval(ctx, e, p, h) == Eval(ctx, e, q, h)
  {
    match e
    case Literal(_) =>
    case FieldRef(_) =>
    case Unary(x) => EvalReadsOnlyNow(ctx, x, p, q, h);
    case BinOp(_, l, r) =>
      EvalReadsOnlyNow(ctx, l, p, q, h);
      EvalReadsOnlyNow(ctx, r, p, q, h);
    case Call(_, _) =>
  }

  ghost predicate AlikeUnder(names: set<string>, p: Payload, q: Payload) {
    forall n :: n in names ==> ToDecimal(Get(p, n)) == ToDecimal(Get(q, n))
  }

  /** And it reads history only through its names. */
  lemma {:induction false} EvalReadsOnlyNames(ctx: Context, e: Expr, p: Payload, q: Payload, h: History, g: History)
    requires AlikeUnder(Names(e) + {"known_at"}, p, q)
    requires |h| == |g| && forall i :: 0 <= i < |h| ==> AlikeUnder(Names(e), h[i], g[i])
    ensures Eval(ctx, e, p, h) == Eval(ctx, e, q, g)
  {
    match e
    case Literal(_) =>
    case FieldRef(_) =>
    case Unary(x) => EvalReadsOnlyNames(ctx, x, p, q, h, g);
    case BinOp(_, l, r) =>
      EvalReadsOnlyNames(ctx, l, p, q, h, g);
      EvalReadsOnlyNames(ctx, r, p, q, h, g);
    case Call(func, field) => CallReadsOnlyNames(ctx, func, field, p, q, h, g);
  }

  lemma CallReadsOnlyNames(ctx: Context, func: Func, field: string, p: Payload, q: Payload, h: History, g: History)
    requires AlikeUnder({field, "known_at"}, p, q)
    requires |h| == |g| && forall i :: 0 <= i < |h| ==> AlikeUnder({field}, h[i], g[i])
    ensures EvalCall(ctx, func, field, p, h) == EvalCall(ctx, func, field, q, g)
  {
    ReadingsAlike(field, Last(h, CallLookback(func)), Last(g, CallLookback(func)));
    if func.Lag? || func.Diff? {
      if 1 <= func.n <= |h| { assert AlikeUnder({field}, h[|h| - func.n], g[|h| - func.n]); }
    }
  }

  lemma {:induction false} ReadingsAlike(field: string, h: History, g: History)
    requires |h| == |g| && forall i :: 0 <= i < |h| ==> ToDecimal(Get(h[i], field)) == ToDecimal(Get(g[i], field))
    ensures Readings(field, h) == Readings(field, g)
  {
    if h == [] {
    } else {
      ReadingsAlike(field, h[1..], g[1..]);
    }
  }

  /** Every name it names is one it needs: where that one is nowhere to be read, nothing comes of it. */
  lemma {:induction false} NamedIsNeeded(ctx: Context, e: Expr, p: Payload, h: History, n: string)
    requires n in Names(e) && ToDecimal(Get(p, n)).None?
    requires forall i :: 0 <= i < |h| ==> ToDecimal(Get(h[i], n)).None?
    ensures Eval(ctx, e, p, h).None?
  {
    match e
    case FieldRef(_) =>
    case Unary(x) => NamedIsNeeded(ctx, x, p, h, n);
    case BinOp(_, l, r) =>
      if n in Names(l) {
        NamedIsNeeded(ctx, l, p, h, n);
      } else {
        NamedIsNeeded(ctx, r, p, h, n);
      }
    case Call(_, _) =>
  }

  /** An expression that does not read `known_at` gives one value whenever it is asked. */
  lemma EvalIgnoresKnownAt(ctx: Context, e: Expr, p: Payload, t: Value, h: History)
    requires !ReadsKnownAt(e)
    ensures Eval(ctx, e, p["known_at" := t], h) == Eval(ctx, e, p, h)
  {
    EvalReadsOnlyNow(ctx, e, p["known_at" := t], p, h);
  }
}
