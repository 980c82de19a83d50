/** What an expression means: arithmetic on real numbers (hub/derive.py).

    `Denoted` says it without the decimal context: sums, differences, products and quotients of reals,
    the sample z-score, the share of a window strictly below.  Evaluation in any context that gives an
    exact result wherever that result fits gives the number meant. */
module Meaning {
  import opened Wrappers
  import opened Ordering
  import opened Decimals
  import opened Reals
  import opened Records
  import opened Derive
  import opened Schemas
  import opened Histories
  import opened Pipeline
  import opened Ingestion
  import opened Agreement

  lemma CountWorth(n: nat)
    ensures Worth(Count(n)) == n as real
  {
    StripWorth(n, 0);
  }

  // ---------------------------------------------------------------- what is meant

  function Reading(v: Value): Option<real> {
    var d := ToDecimal(v);
    if d.None? then None else Some(Worth(d.value))
  }

  /** A field's values over some entries, oldest first; nothing when one is missing. */
  function Observed(field: string, h: History): Option<seq<real>> {
    if forall i :: 0 <= i < |h| ==> Reading(Get(h[i], field)).Some?
    then Some(seq(|h|, i requires 0 <= i < |h| => Reading(Get(h[i], field)).value))
    else None
  }

  function Average(xs: seq<real>): real
    requires xs != []
  {
    Sum(xs) / |xs| as real
  }

  function Squares(xs: seq<real>, mean: real): (ys: seq<real>)
    ensures |ys| == |xs|
  {
    seq(|xs|, i requires 0 <= i < |xs| => Square(xs[i] - mean))
  }

  function Square(x: real): real { x * x }

  /** The sample variance, over n - 1. */
  function Variance(xs: seq<real>): real
    requires |xs| >= 2
  {
    Sum(Squares(xs, Average(xs))) / (|xs| - 1) as real
  }

  ghost predicate IsRoot(r: real, x: real) { r >= 0.0 && Square(r) == x }

  /** How many sample standard deviations `current` lies from the mean of `xs`. */
  ghost function Score(minObs: nat, current: real, xs: seq<real>): Option<real> {
    if |xs| < minObs || |xs| < 2 then None
    else if r :| IsRoot(r, Variance(xs)) && r > 0.0 then Some((current - Average(xs)) / r)
    else None
  }

  /** The share of `xs` strictly below `current`. */
  ghost function Share(current: real, xs: seq<real>): Option<real> {
    if xs == [] then None
    else Some(|Filter(xs, Under(current))| as real / |xs| as real)
  }

  function Under(current: real): real -> bool { (x: real) => x < current }

  function Minus(a: Option<real>, b: Option<real>): Option<real> {
    if a.Some? && b.Some? then Some(a.value - b.value) else None
  }

  /** The value `n` entries back. */
  function Back(field: string, n: nat, h: History): Option<real> {
    if 1 <= n <= |h| then Reading(Get(h[|h| - n], field)) else None
  }

  function Newest(h: History, n: nat): History { if n < |h| then h[|h| - n..] else h }

  ghost function DenotedCall(func: Func, field: string, p: Payload, h: History): Option<real> {
    var x, now := Reading(Get(p, field)), Reading(Get(p, "known_at"));
    match func
    case Lag(n) => Back(field, n, h)
    case Diff(n) => Minus(x, Back(field, n, h))
    case Since => Minus(now, x)
    case Until => Minus(x, now)
    case ZScore(window, minObs) =>
      var xs :- Observed(field, Newest(h, window));
      var c :- x;
      Score(minObs, c, xs)
    case PctRank(window) =>
      var xs :- Observed(field, Newest(h, window));
      var c :- x;
      Share(c, xs)
  }

  function Combined(op: Op, a: real, b: real): Option<real> {
    match op
    case Add => Some(a + b)
    case Sub => Some(a - b)
    case Mul => Some(a * b)
    case Div => if b == 0.0 then None else Some(a / b)
  }

  /** The real number an expression means, or nothing. */
  ghost function Denoted(e: Expr, p: Payload, h: History): Option<real> {
    match e
    case Literal(v) => Some(Worth(v))
    case FieldRef(name) => Reading(Get(p, name))
    case Unary(x) =>
      var a :- Denoted(x, p, h);
      Some(-a)
    case BinOp(op, l, r) =>
      var a :- Denoted(l, p, h);
      var b :- Denoted(r, p, h);
      Combined(op, a, b)
    case Call(func, field) => DenotedCall(func, field, p, h)
  }

  // ---------------------------------------------------------------- contexts that are exact where they can be

  ghost predicate Gives(o: Option<Num>, x: real) { o.Some? && Worth(o.value) == x }

  ghost predicate OptFits(fits: real -> bool, x: Option<real>) { x.Some? ==> fits(x.value) }

  /** The context's answer is the number meant, and there is one exactly when a number is meant. */
  ghost predicate Means(o: Option<Num>, m: Option<real>) {
    if m.Some? then Gives(o, m.value) else o.None?
  }

  /** Whenever the exact result fits, the operation gives it; where there is none, it gives nothing. */
  ghost predicate Does(f: (Num, Num) -> Option<Num>, op: Op, fits: real -> bool) {
    forall a: Num, b: Num {:trigger f(a, b)} ::
      OptFits(fits, Combined(op, Worth(a), Worth(b))) ==> Means(f(a, b), Combined(op, Worth(a), Worth(b)))
  }

  /** A context whose operations are those of the real numbers wherever the exact result fits. */
  ghost predicate Exact(ctx: Context, fits: real -> bool) {
    && (forall a: Num {:trigger ctx.minus(a)} :: fits(-Worth(a)) ==> Gives(ctx.minus(a), -Worth(a)))
    && Does(ctx.add, Add, fits) && Does(ctx.subtract, Sub, fits)
    && Does(ctx.multiply, Mul, fits) && Does(ctx.divide, Div, fits)
    && (forall a: Num, r: real {:trigger ctx.sqrt(a), fits(r)} :: IsRoot(r, Worth(a)) && fits(r) ==> Gives(ctx.sqrt(a), r))
  }

  /** Every partial sum fits. */
  ghost predicate SumsFit(fits: real -> bool, xs: seq<real>) {
    forall i :: 0 < i <= |xs| ==> fits(Sum(xs[..i]))
  }

  /** So do the deviations from a mean, their squares and the sums of these. */
  ghost predicate DeviationsFit(fits: real -> bool, xs: seq<real>, mean: real) {
    && (forall i :: 0 <= i < |xs| ==> fits(xs[i] - mean) && fits(Square(xs[i] - mean)))
    && SumsFit(fits, Squares(xs, mean))
  }

  /** So do the root of the variance, the deviation of `current` and their quotient. */
  ghost predicate RootFits(fits: real -> bool, current: real, mean: real, variance: real) {
    && fits(current - mean)
    && exists r: real :: IsRoot(r, variance) && fits(r) && (r > 0.0 ==> fits((current - mean) / r))
  }

  /** Every step of the score fits. */
  ghost predicate ScoreFits(fits: real -> bool, current: real, xs: seq<real>) {
    |xs| >= 2 ==>
      && SumsFit(fits, xs) && fits(Average(xs)) && DeviationsFit(fits, xs, Average(xs))
      && fits(Variance(xs)) && RootFits(fits, current, Average(xs), Variance(xs))
  }

  /** Every intermediate result of evaluating an expression fits. */
  ghost predicate AllFit(fits: real -> bool, e: Expr, p: Payload, h: History) {
    match e
    case Literal(_) => true
    case FieldRef(_) => true
    case Unary(x) => AllFit(fits, x, p, h) && OptFits(fits, Denoted(e, p, h))
    case BinOp(_, l, r) => AllFit(fits, l, p, h) && AllFit(fits, r, p, h) && OptFits(fits, Denoted(e, p, h))
    case Call(func, field) =>
      && OptFits(fits, Denoted(e, p, h))
      && (func.ZScore? ==>
            var xs, c := Observed(field, Newest(h, func.window)), Reading(Get(p, field));
            xs.Some? && c.Some? ==> ScoreFits(fits, c.value, xs.value))
  }

  /** One operation in an exact context. */
  lemma OpMeans(ctx: Context, fits: real -> bool, op: Op, a: Num, b: Num, x: real, y: real)
    requires Exact(ctx, fits) && x == Worth(a) && y == Worth(b) && OptFits(fits, Combined(op, x, y))
    ensures Means(Apply(ctx, op)(a, b), Combined(op, x, y))
  {
    match op
    case Add => assert Does(ctx.add, Add, fits);
    case Sub => assert Does(ctx.subtract, Sub, fits);
    case Mul => assert Does(ctx.multiply, Mul, fits);
    case Div => assert Does(ctx.divide, Div, fits);
  }

  // ---------------------------------------------------------------- windows

  lemma {:induction false} ReadingsAre(field: string, h: History)
    ensures Readings(field, h).Some? <==> forall i :: 0 <= i < |h| ==> ToDecimal(Get(h[i], field)).Some?
    ensures Readings(field, h).Some? ==>
              |Readings(field, h).value| == |h| &&
              forall i :: 0 <= i < |h| ==> ToDecimal(Get(h[i], field)) == Some(Readings(field, h).value[i])
  {
    if h == [] {
    } else {
      ReadingsAre(field, h[1..]);
      assert h == [h[0]] + h[1..];
    }
  }

  lemma ReadingsObserved(field: string, h: History)
    ensures Readings(field, h).Some? <==> Observed(field, h).Some?
    ensures Readings(field, h).Some? ==> Standing(Readings(field, h).value, Observed(field, h).value)
  {
    ReadingsAre(field, h);
    if Readings(field, h).Some? {
      forall i | 0 <= i < |h| ensures Reading(Get(h[i], field)).Some? { assert ToDecimal(Get(h[i], field)).Some?; }
    }
    if Observed(field, h).Some? {
      forall i | 0 <= i < |h| ensures ToDecimal(Get(h[i], field)).Some? { assert Reading(Get(h[i], field)).Some?; }
    }
  }

  ghost predicate Standing(vs: seq<Num>, xs: seq<real>) {
    |vs| == |xs| && forall i :: 0 <= i < |vs| ==> Worth(vs[i]) == xs[i]
  }

  lemma {:induction false} BelowCounts(vs: seq<Num>, xs: seq<real>, current: Num)
    requires Standing(vs, xs)
    ensures Below(vs, current) == |Filter(xs, Under(Worth(current)))|
  {
    if vs == [] {
    } else {
      BelowCounts(vs[1..], xs[1..], current);
      LessIsLess(vs[0], current);
      assert xs == [xs[0]] + xs[1..];
      FilterConcat([xs[0]], xs[1..], Under(Worth(current)));
    }
  }

  // ---------------------------------------------------------------- the z-score

  lemma {:induction false} TotalMeans(ctx: Context, fits: real -> bool, vs: seq<Num>, xs: seq<real>)
    requires Exact(ctx, fits) && Standing(vs, xs) && SumsFit(fits, xs)
    ensures Gives(Total(ctx, vs), Sum(xs))
  {
    if vs == [] {
    } else {
      SumsFitPrefix(fits, xs);
      TotalMeans(ctx, fits, vs[..|vs| - 1], xs[..|xs| - 1]);
      AddMeans(ctx, fits, Total(ctx, vs[..|vs| - 1]), Some(vs[|vs| - 1]), Sum(xs[..|xs| - 1]), xs[|xs| - 1]);
    }
  }

  lemma DeviationMeans(ctx: Context, fits: real -> bool, v: Num, mean: Num, x: real)
    requires Exact(ctx, fits) && x == Worth(v) - Worth(mean) && fits(x) && fits(Square(x))
    ensures Gives(SquaredDeviation(ctx, v, mean), Square(x))
  {
    var d := ctx.subtract(v, mean);
    assert Gives(d, x);
    OpMeans(ctx, fits, Mul, d.value, d.value, x, x);
  }

  lemma AddMeans(ctx: Context, fits: real -> bool, a: Option<Num>, b: Option<Num>, x: real, y: real)
    requires Exact(ctx, fits) && Gives(a, x) && Gives(b, y) && fits(x + y)
    ensures Gives(Lift(ctx.add, a, b), x + y)
  {
    OpMeans(ctx, fits, Add, a.value, b.value, x, y);
  }

  ghost predicate Deviates(ctx: Context, vs: seq<Num>, mean: Num, ys: seq<real>) {
    |ys| == |vs| && forall i :: 0 <= i < |vs| ==> Gives(SquaredDeviation(ctx, vs[i], mean), ys[i])
  }

  lemma {:induction false} VarianceSumMeans(ctx: Context, fits: real -> bool, vs: seq<Num>, mean: Num, ys: seq<real>)
    requires Exact(ctx, fits) && Deviates(ctx, vs, mean, ys) && SumsFit(fits, ys)
    ensures Gives(VarianceSum(ctx, vs, mean), Sum(ys))
  {
    if vs == [] {
    } else {
      var us, v, zs := vs[..|vs| - 1], vs[|vs| - 1], ys[..|ys| - 1];
      SumsFitPrefix(fits, ys);
      VarianceSumMeans(ctx, fits, us, mean, zs);
      AddMeans(ctx, fits, VarianceSum(ctx, us, mean), SquaredDeviation(ctx, v, mean), Sum(zs), ys[|ys| - 1]);
    }
  }

  lemma SumsFitPrefix(fits: real -> bool, xs: seq<real>)
    requires xs != [] && SumsFit(fits, xs)
    ensures SumsFit(fits, xs[..|xs| - 1]) && fits(Sum(xs[..|xs| - 1]) + xs[|xs| - 1])
  {
    var init := xs[..|xs| - 1];
    forall i | 0 < i <= |init| ensures fits(Sum(init[..i])) { assert init[..i] == xs[..i]; }
    assert xs[..|xs|] == xs;
  }

  lemma Positive(x: real, y: real)
    requires x > 0.0 && y > 0.0
    ensures x * y > 0.0
  {}

  lemma Grows(a: real, b: real)
    requires 0.0 <= a < b
    ensures Square(a) < Square(b)
  {
    Positive(b - a, b + a);
    assert (b - a) * (b + a) == b * b - a * a;
  }

  lemma RootIsUnique(a: real, b: real, x: real)
    requires IsRoot(a, x) && IsRoot(b, x)
    ensures a == b
  {
    if a < b { Grows(a, b); }
    if b < a { Grows(b, a); }
  }

  lemma ScoreOf(minObs: nat, current: real, xs: seq<real>, r: real)
    requires |xs| >= 2 && IsRoot(r, Variance(xs))
    ensures Score(minObs, current, xs) ==
            if |xs| < minObs || r == 0.0 then None else Some((current - Average(xs)) / r)
  {
    forall q | IsRoot(q, Variance(xs)) ensures q == r { RootIsUnique(q, r, Variance(xs)); }
  }

  lemma ZeroWorth(v: Num)
    ensures v.coef == 0 <==> Worth(v) == 0.0
  {
    NothingWorth(v.exp);
    WorthOrder(v.coef, 0, v.exp);
    WorthOrder(0, v.coef, v.exp);
  }

  lemma MeanMeans(ctx: Context, fits: real -> bool, vs: seq<Num>, xs: seq<real>) returns (mean: Num)
    requires Exact(ctx, fits) && Standing(vs, xs) && xs != [] && SumsFit(fits, xs) && fits(Average(xs))
    ensures Total(ctx, vs).Some? && ctx.divide(Total(ctx, vs).value, Count(|vs|)) == Some(mean) && Worth(mean) == Average(xs)
  {
    TotalMeans(ctx, fits, vs, xs);
    CountWorth(|vs|);
    OpMeans(ctx, fits, Div, Total(ctx, vs).value, Count(|vs|), Sum(xs), |xs| as real);
    mean := ctx.divide(Total(ctx, vs).value, Count(|vs|)).value;
  }

  lemma SpreadMeans(ctx: Context, fits: real -> bool, vs: seq<Num>, xs: seq<real>, mean: Num) returns (variance: Num)
    requires Exact(ctx, fits) && Standing(vs, xs) && |xs| >= 2 && Worth(mean) == Average(xs)
    requires DeviationsFit(fits, xs, Average(xs)) && fits(Variance(xs))
    ensures VarianceSum(ctx, vs, mean).Some?
    ensures ctx.divide(VarianceSum(ctx, vs, mean).value, Count(|vs| - 1)) == Some(variance) && Worth(variance) == Variance(xs)
  {
    var ys := Squares(xs, Average(xs));
    forall i | 0 <= i < |vs| ensures Gives(SquaredDeviation(ctx, vs[i], mean), ys[i]) {
      DeviationMeans(ctx, fits, vs[i], mean, xs[i] - Average(xs));
    }
    VarianceSumMeans(ctx, fits, vs, mean, ys);
    CountWorth(|vs| - 1);
    var spread := VarianceSum(ctx, vs, mean).value;
    OpMeans(ctx, fits, Div, spread, Count(|vs| - 1), Sum(Squares(xs, Average(xs))), (|xs| - 1) as real);
    variance := ctx.divide(spread, Count(|vs| - 1)).value;
  }

  lemma RootMeans(ctx: Context, fits: real -> bool, current: Num, mean: Num, variance: Num, m: real, v: real)
    returns (stdev: Num, r: real)
    requires Exact(ctx, fits) && m == Worth(mean) && v == Worth(variance) && RootFits(fits, Worth(current), m, v)
    ensures ctx.sqrt(variance) == Some(stdev) && IsRoot(r, v) && (stdev.coef == 0 <==> r == 0.0)
    ensures ctx.subtract(current, mean).Some?
    ensures r != 0.0 ==> Gives(ctx.divide(ctx.subtract(current, mean).value, stdev), (Worth(current) - m) / r)
  {
    var x := Worth(current) - m;
    r :| IsRoot(r, v) && fits(r) && (r > 0.0 ==> fits(x / r));
    assert Gives(ctx.sqrt(variance), r);
    stdev := ctx.sqrt(variance).value;
    ZeroWorth(stdev);
    OpMeans(ctx, fits, Sub, current, mean, Worth(current), m);
    if r > 0.0 { OpMeans(ctx, fits, Div, ctx.subtract(current, mean).value, stdev, x, r); }
  }

  lemma ZScoreMeans(ctx: Context, fits: real -> bool, minObs: nat, current: Num, vs: seq<Num>, xs: seq<real>)
    requires Exact(ctx, fits) && Standing(vs, xs) && ScoreFits(fits, Worth(current), xs)
    ensures Means(ZScoreOf(ctx, minObs, Some(current), Some(vs)), Score(minObs, Worth(current), xs))
  {
    if |xs| >= minObs && |xs| >= 2 {
      var mean := MeanMeans(ctx, fits, vs, xs);
      var variance := SpreadMeans(ctx, fits, vs, xs, mean);
      var stdev, r := RootMeans(ctx, fits, current, mean, variance, Average(xs), Variance(xs));
      ScoreOf(minObs, Worth(current), xs, r);
    }
  }

  // ---------------------------------------------------------------- the theorem

  ghost predicate Stands(o: Option<Num>, x: Option<real>) {
    if o.Some? then x == Some(Worth(o.value)) else x.None?
  }

  lemma MinusMeans(ctx: Context, fits: real -> bool, a: Option<Num>, b: Option<Num>, x: Option<real>, y: Option<real>)
    requires Exact(ctx, fits) && Stands(a, x) && Stands(b, y) && OptFits(fits, Minus(x, y))
    ensures Means(Lift(ctx.subtract, a, b), Minus(x, y))
  {
    if a.Some? && b.Some? { OpMeans(ctx, fits, Sub, a.value, b.value, x.value, y.value); }
  }

  lemma PctRankMeans(ctx: Context, fits: real -> bool, current: Num, vs: seq<Num>, xs: seq<real>)
    requires Exact(ctx, fits) && Standing(vs, xs) && OptFits(fits, Share(Worth(current), xs))
    ensures Means(PctRankOf(ctx, Some(current), Some(vs)), Share(Worth(current), xs))
  {
    if vs != [] {
      BelowCounts(vs, xs, current);
      CountWorth(Below(vs, current));
      CountWorth(|vs|);
      OpMeans(ctx, fits, Div, Count(Below(vs, current)), Count(|vs|), |Filter(xs, Under(Worth(current)))| as real, |xs| as real);
    }
  }

  lemma WindowMeans(ctx: Context, fits: real -> bool, func: Func, field: string, p: Payload, h: History)
    requires Exact(ctx, fits) && AllFit(fits, Call(func, field), p, h) && (func.ZScore? || func.PctRank?)
    ensures Means(EvalCall(ctx, func, field, p, h), DenotedCall(func, field, p, h))
  {
    var current, x := ToDecimal(Get(p, field)), Reading(Get(p, field));
    assert Last(h, func.window) == Newest(h, func.window);
    ReadingsObserved(field, Newest(h, func.window));
    var vs, xs := RecentWindow(field, func.window, h), Observed(field, Newest(h, func.window));
    if vs.Some? && current.Some? {
      if func.ZScore? {
        ZScoreMeans(ctx, fits, func.minObs, current.value, vs.value, xs.value);
      } else {
        PctRankMeans(ctx, fits, current.value, vs.value, xs.value);
      }
    }
  }

  lemma CallMeans(ctx: Context, fits: real -> bool, func: Func, field: string, p: Payload, h: History)
    requires Exact(ctx, fits) && AllFit(fits, Call(func, field), p, h)
    ensures Means(EvalCall(ctx, func, field, p, h), DenotedCall(func, field, p, h))
  {
    var current, now := ToDecimal(Get(p, field)), ToDecimal(Get(p, "known_at"));
    var x, t := Reading(Get(p, field)), Reading(Get(p, "known_at"));
    match func
    case Lag(n) =>
    case Diff(n) => MinusMeans(ctx, fits, current, LagOf(field, n, h), x, Back(field, n, h));
    case Since => MinusMeans(ctx, fits, now, current, t, x);
    case Until => MinusMeans(ctx, fits, current, now, x, t);
    case _ => WindowMeans(ctx, fits, func, field, p, h);
  }

  /** Evaluation means what it says: wherever every intermediate result fits, an exact context gives the
      real number the expression denotes, and nothing exactly where it denotes nothing. */
  lemma {:induction false} EvalMeans(ctx: Context, fits: real -> bool, e: Expr, p: Payload, h: History)
    requires Exact(ctx, fits) && AllFit(fits, e, p, h)
    ensures Means(Eval(ctx, e, p, h), Denoted(e, p, h))
  {
    match e
    case Literal(_) =>
    case FieldRef(_) =>
    case Unary(x) => EvalMeans(ctx, fits, x, p, h);
    case BinOp(op, l, r) =>
      EvalMeans(ctx, fits, l, p, h);
      EvalMeans(ctx, fits, r, p, h);
      var a, b := Eval(ctx, l, p, h), Eval(ctx, r, p, h);
      if a.Some? && b.Some? { OpMeans(ctx, fits, op, a.value, b.value, Denoted(l, p, h).value, Denoted(r, p, h).value); }
    case Call(func, field) => CallMeans(ctx, fits, func, field, p, h);
  }

  // ---------------------------------------------------------------- the 28 digits there are

  /** Some decimal of at most 28 digits stands for `x`. */
  ghost predicate Representable(x: real) { exists n: Num :: Short(n) && Worth(n) == x }

  ghost function REPRESENTABLE(): real -> bool { x => Representable(x) }

  ghost function Pick(x: real): Option<Num> {
    if n: Num :| Short(n) && Worth(n) == x then Some(n) else None
  }

  lemma PickGives(x: real)
    requires Representable(x)
    ensures Gives(Pick(x), x)
  {}

  ghost function Root(x: real): Option<Num> {
    if n: Num :| Short(n) && IsRoot(Worth(n), x) then Some(n) else None
  }

  ghost function Picked(op: Op): (Num, Num) -> Option<Num> {
    (a: Num, b: Num) =>
      var x := Combined(op, Worth(a), Worth(b));
      if x.Some? then Pick(x.value) else None
  }

  lemma PickedDoes(op: Op)
    ensures Does(Picked(op), op, REPRESENTABLE())
  {
    forall a: Num, b: Num | OptFits(REPRESENTABLE(), Combined(op, Worth(a), Worth(b)))
      ensures Means(Picked(op)(a, b), Combined(op, Worth(a), Worth(b)))
    {
      var x := Combined(op, Worth(a), Worth(b));
      if x.Some? { PickGives(x.value); }
    }
  }

  ghost function Negated(): Num -> Option<Num> { (a: Num) => Pick(-Worth(a)) }

  ghost function Rooted(): Num -> Option<Num> { (a: Num) => Root(Worth(a)) }

  lemma NegatedDoes(a: Num)
    requires REPRESENTABLE()(-Worth(a))
    ensures Gives(Negated()(a), -Worth(a))
  {
    PickGives(-Worth(a));
  }

  lemma RootedDoes(a: Num, r: real)
    requires IsRoot(r, Worth(a)) && REPRESENTABLE()(r)
    ensures Gives(Rooted()(a), r)
  {
    assert Representable(r);
    RootIsUnique(Worth(Root(Worth(a)).value), r, Worth(a));
  }

  /** There are such contexts: one that answers exactly when 28 digits hold the exact result. */
  lemma ExactExists() returns (ctx: Context)
    ensures Exact(ctx, REPRESENTABLE())
  {
    ctx := Context(Negated(), Picked(Add), Picked(Sub), Picked(Mul), Picked(Div), Rooted());
    PickedDoes(Add);
    PickedDoes(Sub);
    PickedDoes(Mul);
    PickedDoes(Div);
    forall a: Num | REPRESENTABLE()(-Worth(a)) ensures Gives(ctx.minus(a), -Worth(a)) { NegatedDoes(a); }
    forall a: Num, r: real | IsRoot(r, Worth(a)) && REPRESENTABLE()(r) ensures Gives(ctx.sqrt(a), r) { RootedDoes(a, r); }
  }

  // ---------------------------------------------------------------- what values read as

  /** Whole numbers below 10^28 read as themselves; a bool and a missing value read as nothing. */
  lemma PlainReadings(i: int, b: bool)
    ensures Reading(Null) == None && Reading(Bool(b)) == None
    ensures -10_000_000_000_000_000_000_000_000_000 < i < 10_000_000_000_000_000_000_000_000_000 ==>
              Reading(Int(i)) == Some(i as real)
  {
    if -10_000_000_000_000_000_000_000_000_000 < i < 10_000_000_000_000_000_000_000_000_000 {
      Pow28();
      DigitsBound(Abs(i), PRECISION);
      StripWorth(i, 0);
    }
  }

  lemma Pow28()
    ensures Pow10(28) == 10_000_000_000_000_000_000_000_000_000
  {
    assert Pow10(7) == 10_000_000 by { assert Pow10(4) == 10_000; }
    Pow10Add(7, 7);
    Pow10Add(14, 14);
  }

  /** Canonical text reads as the number it spells. */
  lemma CanonicalReading(n: Num)
    requires Short(n)
    ensures Reading(Text(Format(n))) == Some(Worth(n))
  {
    CanonicalTextReads(n);
    RoundFixed(n);
  }

  /** A quality range holds the numbers from its lower bound to its upper one, both included. */
  lemma RangeHolds(n: Num, i: int, bounds: (Dec, Dec))
    requires Short(n)
    ensures InRange(Text(Format(n)), bounds) <==> Worth(bounds.0) <= Worth(n) <= Worth(bounds.1)
    ensures InRange(Int(i), bounds) <==> Worth(bounds.0) <= i as real <= Worth(bounds.1)
  {
    ParseFormat(n);
    var d := ParseLenient(Format(n)).value;
    StripWorth(d.coef, d.exp);
    LessIsLess(d, bounds.0);
    LessIsLess(bounds.1, d);
    LessIsLess(Dec(i, 0), bounds.0);
    LessIsLess(bounds.1, Dec(i, 0));
  }

  /** What validation lets through of a number field with a range reads as a number in that range. */
  lemma AcceptedIsInRange(s: Schema, p: Payload, q: Payload, n: string)
    requires WellFormed(s) && ValidatePayload(s, p) == Some(q)
    requires n in q && n in s.range && s.fields[n].fieldType.NumberType? && !q[n].Null?
    ensures Reading(q[n]).Some? && Worth(s.range[n].0) <= Reading(q[n]).value <= Worth(s.range[n].1)
  {
    var d := NumberOf(p[n]).value;
    NumberIsShort(p[n]);
    RangeHolds(d, 0, s.range[n]);
    CanonicalReading(d);
  }

  lemma NumberIsShort(v: Value)
    requires NumberOf(v).Some?
    ensures Short(NumberOf(v).value)
  {
    match v
    case Int(i) => RoundShort(Dec(i, 0));
    case Text(s) => RoundShort(ParseLenient(s).value);
  }

  // ---------------------------------------------------------------- what a derived field says

  /** What fits, 28 digits hold; a context's exponents may bound it further. */
  ghost predicate Held(fits: real -> bool) { forall x :: fits(x) ==> Representable(x) }

  /** The text of a computed expression reads as the number it denotes; it is null exactly when it denotes
      nothing. */
  lemma RunMeans(ctx: Context, fits: real -> bool, e: Expr, p: Payload, h: History)
    requires Held(fits) && Exact(ctx, fits) && AllFit(fits, e, p, h) && OptFits(fits, Denoted(e, p, h))
    ensures Reading(Run(ctx, e, p, h)) == Denoted(e, p, h)
  {
    EvalMeans(ctx, fits, e, p, h);
    var v := Eval(ctx, e, p, h);
    if v.Some? {
      var n: Num :| Short(n) && Worth(n) == Denoted(e, p, h).value;
      WorthIsInjective(v.value, n);
      RoundFixed(n);
      CanonicalReading(n);
    }
  }

  /** A journalled derived field reads as the number its expression denotes over the finished payload and
      all that precedes the record in its scope. */
  lemma DerivedFieldMeans(fits: real -> bool, hub: Hub, pass: Pass, f: Facts, c: Candidate, r: Record, out: Payload, n: string, h: History)
    requires Usable(hub) && Draft(hub, pass, f, c) == Some(r) && h == Before(f, c.effectiveAt, BuildKey(hub, c))
    requires Finished(hub.ctx, hub.schema, c.fields, r.knownAt, c.effectiveAt, h, out) && IsDerived(hub.schema, n)
    requires Held(fits) && Exact(hub.ctx, fits)
    requires var p, e := WithEnvelope(out, r.knownAt, c.effectiveAt), ExprOf(hub.schema, n);
             AllFit(fits, e, p, h) && OptFits(fits, Denoted(e, p, h))
    ensures Reading(Get(r.fields, n)) == Denoted(ExprOf(hub.schema, n), WithEnvelope(out, r.knownAt, c.effectiveAt), h)
  {
    RecordedIsRun(hub, pass, f, c, r, out, n, h);
    RunMeans(hub.ctx, fits, ExprOf(hub.schema, n), WithEnvelope(out, r.knownAt, c.effectiveAt), h);
  }

  /** What is journalled of a derived field is what its expression computes over the finished payload. */
  lemma RecordedIsRun(hub: Hub, pass: Pass, f: Facts, c: Candidate, r: Record, out: Payload, n: string, h: History)
    requires Usable(hub) && Draft(hub, pass, f, c) == Some(r) && h == Before(f, c.effectiveAt, BuildKey(hub, c))
    requires Finished(hub.ctx, hub.schema, c.fields, r.knownAt, c.effectiveAt, h, out) && IsDerived(hub.schema, n)
    ensures Get(r.fields, n) == Run(hub.ctx, ExprOf(hub.schema, n), WithEnvelope(out, r.knownAt, c.effectiveAt), h)
  {
    var found := DraftIsFinished(hub, pass, f, c, r);
    FinishedIsUnique(hub.ctx, hub.schema, c.fields, r.knownAt, c.effectiveAt, h, out, found);
    DerivedOrderIsDerived(hub.schema);
    assert n in out && n in hub.schema.fields;
    ComputedIsNormal(hub.ctx, ExprOf(hub.schema, n), WithEnvelope(out, r.knownAt, c.effectiveAt), h, hub.schema.fields[n]);
  }

  // ---------------------------------------------------------------- the envelope

  /** An expression reads the record's own times under their names, and everything else as the payload has
      it. */
  lemma EnvelopeReads(p: Payload, knownAt: int, effectiveAt: int, n: string)
    requires TimestampOk(knownAt) && TimestampOk(effectiveAt)
    ensures var q := WithEnvelope(p, knownAt, effectiveAt);
            && Reading(Get(q, "known_at")) == Some(knownAt as real)
            && Reading(Get(q, "effective_at")) == Some(effectiveAt as real)
            && (n != "known_at" && n != "effective_at" ==> Get(q, n) == Get(p, n))
  {
    PlainReadings(knownAt, true);
    PlainReadings(effectiveAt, true);
  }

  /** `since` of a timestamp field, over a finished payload, is the time from it until the record was
      known. */
  lemma SinceIsElapsed(fits: real -> bool, hub: Hub, c: Candidate, knownAt: int, h: History, out: Payload, a: string, t: int)
    requires Usable(hub) && Finished(hub.ctx, hub.schema, c.fields, knownAt, c.effectiveAt, h, out)
    requires Held(fits) && Exact(hub.ctx, fits) && fits((knownAt - t) as real) && TimestampOk(knownAt) && TimestampOk(c.effectiveAt) && TimestampOk(t)
    requires a in hub.schema.fields && !IsDerived(hub.schema, a) && a in c.fields && c.fields[a] == Int(t)
    ensures Reading(Run(hub.ctx, Call(Since, a), WithEnvelope(out, knownAt, c.effectiveAt), h)) == Some((knownAt - t) as real)
  {
    GivenIsKept(hub, c, knownAt, h, out, a);
    SinceDenotes(fits, out, knownAt, c.effectiveAt, h, a, t);
    RunMeans(hub.ctx, fits, Call(Since, a), WithEnvelope(out, knownAt, c.effectiveAt), h);
  }

  lemma GivenIsKept(hub: Hub, c: Candidate, knownAt: int, h: History, out: Payload, a: string)
    requires Usable(hub) && Finished(hub.ctx, hub.schema, c.fields, knownAt, c.effectiveAt, h, out)
    requires a in hub.schema.fields && !IsDerived(hub.schema, a)
    ensures Get(out, a) == Get(c.fields, a) && a != "known_at" && a != "effective_at"
  {
    DerivedOrderIsDerived(hub.schema);
  }

  lemma SinceDenotes(fits: real -> bool, out: Payload, knownAt: int, effectiveAt: int, h: History, a: string, t: int)
    requires TimestampOk(knownAt) && TimestampOk(effectiveAt) && TimestampOk(t)
    requires fits((knownAt - t) as real) && Get(out, a) == Int(t) && a != "known_at" && a != "effective_at"
    ensures var p := WithEnvelope(out, knownAt, effectiveAt);
            && Denoted(Call(Since, a), p, h) == Some((knownAt - t) as real)
            && AllFit(fits, Call(Since, a), p, h) && OptFits(fits, Denoted(Call(Since, a), p, h))
  {
    EnvelopeReads(out, knownAt, effectiveAt, a);
    PlainReadings(t, true);
  }

  // ---------------------------------------------------------------- what validation accepts

  /** Declared types, in so many words: a number is a whole count of 10^-8 that a signed 64-bit column holds
      beside its null mark. */
  ghost predicate Acceptable(spec: FieldSpec, v: Value) {
    if v == Null then spec.nullable
    else match spec.fieldType
      case BoolType => v.Bool?
      case TimestampType => v.Int?
      case StringType => v.Text?
      case EnumType => v.Int? && v.i >= 0 && v.i < |spec.values|
      case NumberType =>
        && NumberOf(v).Some?
        && exists k: int :: -0x8000_0000_0000_0000 < k < 0x8000_0000_0000_0000 && Worth(NumberOf(v).value) == Worth(Dec(k, -8))
  }

  /** Validation accepts exactly these; what is no number it leaves as it is, and a number keeps its worth. */
  lemma AcceptsExactly(spec: FieldSpec, v: Value)
    ensures ValidateField(spec, v).Some? <==> Acceptable(spec, v)
    ensures ValidateField(spec, v).Some? && (v.Null? || !spec.fieldType.NumberType?) ==> ValidateField(spec, v) == Some(v)
    ensures ValidateField(spec, v).Some? && !v.Null? && spec.fieldType.NumberType? ==>
              Reading(ValidateField(spec, v).value) == Some(Worth(NumberOf(v).value))
  {
    if spec.fieldType.NumberType? && NumberOf(v).Some? {
      var n := NumberOf(v).value;
      NumberIsShort(v);
      CanonicalReading(n);
      forall k: int ensures ToScale8(n) == Some(k) <==> NULL_SENTINEL < k < I64_LIMIT && Worth(n) == Worth(Dec(k, -8)) {
        Scale8Storable(n, k);
        SameWorth(Dec(k, -8), n);
      }
      if ToScale8(n).Some? { assert ToScale8(n) == Some(ToScale8(n).value); }
    }
  }

  // ---------------------------------------------------------------- laws of the score

  function Shift(xs: seq<real>, d: real): (ys: seq<real>)
    ensures |ys| == |xs|
  {
    seq(|xs|, i requires 0 <= i < |xs| => xs[i] + d)
  }

  lemma {:induction false} SumShift(xs: seq<real>, d: real)
    ensures Sum(Shift(xs, d)) == Sum(xs) + |xs| as real * d
  {
    if xs == [] {
    } else {
      SumShift(xs[..|xs| - 1], d);
      assert Shift(xs, d)[..|xs| - 1] == Shift(xs[..|xs| - 1], d);
      assert |xs| as real * d == (|xs| - 1) as real * d + d;
    }
  }

  lemma AverageShift(xs: seq<real>, d: real)
    requires xs != []
    ensures Average(Shift(xs, d)) == Average(xs) + d
  {
    SumShift(xs, d);
    var n := |xs| as real;
    assert (Sum(xs) + n * d) / n == Sum(xs) / n + d;
  }

  /** Moving the current value and the whole window by one amount moves no score. */
  lemma ScoreIgnoresShift(minObs: nat, current: real, xs: seq<real>, d: real)
    ensures Score(minObs, current + d, Shift(xs, d)) == Score(minObs, current, xs)
  {
    if |xs| >= 2 {
      AverageShift(xs, d);
      assert Squares(Shift(xs, d), Average(xs) + d) == Squares(xs, Average(xs));
      if r :| IsRoot(r, Variance(xs)) && r > 0.0 {
        ScoreOf(minObs, current, xs, r);
        ScoreOf(minObs, current + d, Shift(xs, d), r);
      }
    }
  }

  /** Two values: the deviation is over one, not two, so the score squared is twice the squared distance
      from their middle over the squared distance between them. */
  lemma ScoreOfTwo(current: real, a: real, b: real, z: real)
    requires Score(2, current, [a, b]) == Some(z)
    ensures Square(z) * Square(a - b) == 2.0 * Square(current - (a + b) / 2.0)
  {
    var xs, m := [a, b], (a + b) / 2.0;
    SumOfTwo(a, b);
    var ys := Squares(xs, m);
    assert ys == [Square(a - m), Square(b - m)];
    SumOfTwo(Square(a - m), Square(b - m));
    assert Variance(xs) == Square(a - m) + Square(b - m);
    var r :| IsRoot(r, Variance(xs)) && r > 0.0;
    ScoreOf(2, current, xs, r);
    HalfDistance(a, b);
    QuotientSquared(z, current - m, r);
    assert Square(z) * Square(r) == Square(current - m);
    assert Square(r) * 2.0 == Square(a - b);
    Regroup(Square(z), Square(r), Square(a - b));
  }

  lemma SumOfTwo(a: real, b: real)
    ensures Sum([a, b]) == a + b
  {
    assert [a, b][..1] == [a] && [a][..0] == [];
    assert Sum([a]) == a;
  }

  lemma HalfDistance(a: real, b: real)
    ensures var m := (a + b) / 2.0; 2.0 * (Square(a - m) + Square(b - m)) == Square(a - b)
  {}

  lemma QuotientSquared(z: real, x: real, r: real)
    requires r > 0.0 && z == x / r
    ensures Square(z) * Square(r) == Square(x)
  {
    assert z * r == x;
    assert (z * r) * (z * r) == (z * z) * (r * r);
  }

  lemma Regroup(z: real, r: real, s: real)
    requires s == r * 2.0
    ensures z * s == 2.0 * (z * r)
  {}
}
