/** Dataset schemas: field types, payload validation and the order of derived fields
    (hub/schema.py).  A schema starts here already parsed. */
module Schemas {
  import opened Wrappers
  import opened Ordering
  import opened Decimals
  import opened Records
  import opened Derive

  datatype FieldType = NumberType | BoolType | TimestampType | EnumType | StringType

  datatype FieldSpec = FieldSpec(
    name: string, fieldType: FieldType, unit: string, values: seq<string>,
    nullable: bool, derived: Option<Expr>)

  datatype Schema = Schema(
    name: string,
    key: seq<string>,
    fields: map<string, FieldSpec>,
    declared: seq<string>,              // field names in declaration order
    range: map<string, (Dec, Dec)>,
    derivedOrder: seq<string>)          // derived field names in evaluation order

  const ENVELOPE_NAMES: set<string> := {"known_at", "effective_at"}
  const RESERVED_FIELD_NAMES: set<string> := {"known_at", "effective_at", "revision"}

  // ---------------------------------------------------------------- payload validation

  /** The number a payload value denotes, read as leniently as ingest reads it. */
  function NumberOf(v: Value): Option<Num> {
    match v
    case Int(i) => Some(Round(Dec(i, 0)))
    case Text(s) =>
      var d :- ParseLenient(s);
      Some(Round(d))
    case _ => None
  }

  /** The normalised value of one field; `None` where validation refuses it. */
  function ValidateField(spec: FieldSpec, v: Value): Option<Value> {
    if v.Null? then
      if spec.nullable then Some(Null) else None
    else
      match spec.fieldType
      case NumberType =>
        var n :- NumberOf(v);
        var _ :- ToScale8(n);
        Some(Text(Format(n)))
      case BoolType => if v.Bool? then Some(v) else None
      case TimestampType => if v.Int? then Some(v) else None
      case EnumType => if v.Int? && 0 <= v.i < |spec.values| then Some(v) else None
      case StringType => if v.Text? then Some(v) else None
  }

  /** The exact number a quality range compares; `None` where the comparison raises. */
  function RangeOperand(v: Value): Option<Dec> {
    match v
    case Int(i) => Some(Dec(i, 0))
    case Bool(b) => Some(Dec(if b then 1 else 0, 0))
    case Text(s) => ParseLenient(s)
    case _ => None
  }

  predicate InRange(v: Value, bounds: (Dec, Dec)) {
    v.Null? || (var d := RangeOperand(v); d.Some? && !Less(d.value, bounds.0) && !Less(bounds.1, d.value))
  }

  predicate FieldsAccepted(s: Schema, p: Payload) {
    forall n :: n in p ==> n in s.fields && ValidateField(s.fields[n], p[n]).Some?
  }

  function Normalised(s: Schema, p: Payload): Payload
    requires FieldsAccepted(s, p)
  {
    map n | n in p :: ValidateField(s.fields[n], p[n]).value
  }

  predicate RangesAccepted(s: Schema, p: Payload) {
    forall n :: n in s.range && n in p ==> InRange(p[n], s.range[n])
  }

  /** The whole payload, normalised, or `None`. */
  function ValidatePayload(s: Schema, p: Payload): Option<Payload> {
    if FieldsAccepted(s, p) && RangesAccepted(s, Normalised(s, p)) then Some(Normalised(s, p)) else None
  }

  // ---------------------------------------------------------------- what validation preserves

  /** Number text without padding: no surrounding space and no digit-group underscore. */
  predicate Clean(s: string) { forall i :: 0 <= i < |s| ==> s[i] != '_' && !IsSpace(s[i]) }

  /** Whether the strict reader sees this raw value as ingest's validator does. */
  predicate Plain(spec: FieldSpec, v: Value) {
    spec.fieldType.NumberType? && v.Text? ==> Clean(v.s)
  }

  lemma ExponentIsClean(s: string)
    requires ParseExponent(s).Some?
    ensures Clean(s)
  {
    var body := if s != "" && (s[0] == '+' || s[0] == '-') then s[1..] else s;
    assert forall i :: 0 <= i < |body| ==> IsDigit(body[i]);
    assert s == body || s == [s[0]] + body;
  }

  lemma MantissaIsClean(s: string)
    requires ParseMantissa(s).Some?
    ensures Clean(s)
  {
    var p := IndexOf(s, '.', '.');
    if p < |s| {
      assert s == s[..p] + [s[p]] + s[p + 1..];
    }
  }

  lemma CleanAround(s: string, p: nat)
    requires p < |s| && Clean(s[..p]) && Clean(s[p + 1..]) && s[p] != '_' && !IsSpace(s[p])
    ensures Clean(s)
  {
    assert s == s[..p] + [s[p]] + s[p + 1..];
  }

  lemma UnsignedIsClean(s: string)
    requires ParseUnsigned(s).Some?
    ensures Clean(s)
  {
    var p := IndexOf(s, 'e', 'E');
    UnsignedParts(s);
    MantissaIsClean(s[..p]);
    if p < |s| {
      ExponentIsClean(s[p + 1..]);
      CleanAround(s, p);
    } else {
      assert s[..p] == s;
    }
  }

  lemma UnsignedParts(s: string)
    requires ParseUnsigned(s).Some?
    ensures var p := IndexOf(s, 'e', 'E');
            ParseMantissa(s[..p]).Some? && (p < |s| ==> ParseExponent(s[p + 1..]).Some?)
  {}

  lemma StrictTextIsClean(s: string)
    requires Parse(s).Some?
    ensures Clean(s)
  {
    if s[0] == '-' || s[0] == '+' {
      UnsignedIsClean(s[1..]);
      assert s == [s[0]] + s[1..];
    } else {
      UnsignedIsClean(s);
    }
  }

  /** Canonical text reads back as its number. */
  lemma CanonicalTextReads(n: Num)
    requires Short(n)
    ensures ToDecimal(Text(Format(n))) == Some(n)
    ensures NumberOf(Text(Format(n))) == Some(n)
  {
    ParseFormat(n);
    RoundOfEqual(Parse(Format(n)).value, n);
  }

  /** An expression reads the raw value and the journalled value alike exactly when the raw
      number text carries no padding: `" 0.3"` and `"1_000"` are accepted and normalised, yet
      a derived expression reads them as missing at ingest and as numbers ever after. */
  lemma NormalisingKeepsReadingIffPlain(spec: FieldSpec, v: Value)
    requires ValidateField(spec, v).Some?
    ensures ToDecimal(ValidateField(spec, v).value) == ToDecimal(v) <==> Plain(spec, v)
    ensures !Plain(spec, v) ==> ToDecimal(v).None? && ToDecimal(ValidateField(spec, v).value).Some?
  {
    if spec.fieldType.NumberType? && !v.Null? {
      var n := NumberOf(v).value;
      match v {
        case Int(i) =>
          RoundShort(Dec(i, 0));
          CanonicalTextReads(n);
        case Text(s) =>
          RoundShort(ParseLenient(s).value);
          CanonicalTextReads(n);
          if Clean(s) {
            CleanIsUntouched(s);
          } else if Parse(s).Some? {
            StrictTextIsClean(s);
            assert false;
          }
      }
    }
  }

  /** Validating an already validated value changes nothing. */
  lemma ValidateFieldIdempotent(spec: FieldSpec, v: Value)
    requires ValidateField(spec, v).Some?
    ensures ValidateField(spec, ValidateField(spec, v).value) == ValidateField(spec, v)
  {
    if spec.fieldType.NumberType? && !v.Null? {
      match v {
        case Int(i) => RoundShort(Dec(i, 0));
        case Text(s) => RoundShort(ParseLenient(s).value);
      }
      CanonicalTextReads(NumberOf(v).value);
    }
  }

  /** Every accepted number is storable at scale 8 and comes back as the identical text. */
  lemma AcceptedNumberIsExact(spec: FieldSpec, v: Value)
    requires spec.fieldType.NumberType? && ValidateField(spec, v).Some? && !v.Null?
    ensures var w := ValidateField(spec, v).value;
            && w.Text? && NumberOf(w).Some? && ToScale8(NumberOf(w).value).Some?
            && var raw := ToScale8(NumberOf(w).value).value;
               NULL_SENTINEL < raw < I64_LIMIT && Format(FromScale8(raw)) == w.s
  {
    var n := NumberOf(v).value;
    match v {
      case Int(i) => RoundShort(Dec(i, 0));
      case Text(s) => RoundShort(ParseLenient(s).value);
    }
    CanonicalTextReads(n);
    Scale8Exact(n);
  }

  // ---------------------------------------------------------------- dependency order

  type Graph = map<string, set<string>>

  /** The derived fields each derived field reads. */
  function Dependencies(fields: map<string, FieldSpec>): Graph {
    map n | n in fields && fields[n].derived.Some? ::
      set d | d in Names(fields[n].derived.value) && d in fields && fields[d].derived.Some?
  }

  predicate ReadsDeclared(fields: map<string, FieldSpec>, n: string)
    requires n in fields
  {
    fields[n].derived.Some? ==> Names(fields[n].derived.value) <= fields.Keys + ENVELOPE_NAMES
  }

  predicate ReadsItself(fields: map<string, FieldSpec>, n: string)
    requires n in fields
  {
    fields[n].derived.Some? && n in Names(fields[n].derived.value)
  }

  /** Every name a derived expression reads is declared or on the envelope. */
  predicate NamesKnown(fields: map<string, FieldSpec>) {
    forall n :: n in fields ==> ReadsDeclared(fields, n)
  }

  /** Along `path` each field reads the next. */
  ghost predicate Chain(deps: Graph, path: seq<string>) {
    forall i :: 0 <= i < |path| - 1 ==> path[i] in deps && path[i + 1] in deps[path[i]]
  }

  ghost predicate IsCycle(deps: Graph, path: seq<string>) {
    |path| >= 2 && path[0] == path[|path| - 1] && Chain(deps, path)
  }

  ghost predicate Cyclic(deps: Graph) { exists path :: IsCycle(deps, path) }

  ghost predicate Closed(deps: Graph) {
    forall n :: n in deps ==> deps[n] <= deps.Keys
  }

  predicate Unique(s: seq<string>) { forall i, j :: 0 <= i < j < |s| ==> s[i] != s[j] }

  /** Every entry's dependencies stand before it. */
  ghost predicate DependenciesFirst(deps: Graph, order: seq<string>) {
    forall i :: 0 <= i < |order| ==>
      order[i] in deps && forall d :: d in deps[order[i]] ==> d in order[..i]
  }

  /** `order` lists every derived field once, dependencies first. */
  ghost predicate Topological(deps: Graph, order: seq<string>) {
    Unique(order) && DependenciesFirst(deps, order) && forall n :: n in deps <==> n in order
  }

  ghost function Position(order: seq<string>, n: string): (i: nat)
    requires n in order
    ensures i < |order| && order[i] == n
  {
    var i :| 0 <= i < |order| && order[i] == n;
    i
  }

  lemma EdgeDescends(deps: Graph, order: seq<string>, n: string, d: string)
    requires Topological(deps, order) && n in deps && d in deps[n]
    ensures d in order && Position(order, d) < Position(order, n)
  {
    var i := Position(order, n);
    assert d in order[..i];
    var j :| 0 <= j < i && order[j] == d;
    assert Position(order, d) == j;
  }

  lemma {:induction false} ChainDescends(deps: Graph, order: seq<string>, path: seq<string>, k: nat)
    requires Topological(deps, order) && Chain(deps, path)
    requires 0 < k < |path|
    ensures path[0] in order && path[k] in order && Position(order, path[k]) < Position(order, path[0])
  {
    EdgeDescends(deps, order, path[k - 1], path[k]);
    if k > 1 { ChainDescends(deps, order, path, k - 1); }
  }

  /** A dependency order exists only for an acyclic graph. */
  lemma TopologicalMeansAcyclic(deps: Graph, order: seq<string>)
    requires Topological(deps, order)
    ensures !Cyclic(deps)
  {
    if path :| IsCycle(deps, path) {
      ChainDescends(deps, order, path, |path| - 1);
    }
  }

  lemma AppendKeepsDependenciesFirst(deps: Graph, order: seq<string>, n: string)
    requires DependenciesFirst(deps, order) && n in deps
    requires forall d :: d in deps[n] ==> d in order
    ensures DependenciesFirst(deps, order + [n])
  {
    var next := order + [n];
    forall i | 0 <= i < |next|
      ensures next[i] in deps && forall d :: d in deps[next[i]] ==> d in next[..i]
    {
      if i < |order| { assert next[..i] == order[..i]; } else { assert next[..i] == order; }
    }
  }

  /** The depth-first search over derived fields, with its two mutable tables. */
  class OrderSearch {
    const deps: Graph
    var done: set<string>        // mark 2
    var open: set<string>        // mark 1
    var order: seq<string>

    constructor (deps: Graph)
      requires Closed(deps)
      ensures this.deps == deps && Valid([]) && order == []
    {
      this.deps := deps;
      done, open, order := {}, {}, [];
    }

    ghost predicate Valid(trail: seq<string>)
      reads this
    {
      && Closed(deps) && done <= deps.Keys && open <= deps.Keys && done !! open
      && Unique(order) && (forall n :: n in order <==> n in done)
      && DependenciesFirst(deps, order)
      && Chain(deps, trail) && (forall n :: n in trail <==> n in open)
    }

    /** Visit one field: append it after everything it reads, or report a cycle through it. */
    method Visit(name: string, trail: seq<string>) returns (cycle: Option<seq<string>>)
      requires Valid(trail) && name in deps
      requires trail != [] ==> trail[|trail| - 1] in deps && name in deps[trail[|trail| - 1]]
      modifies this
      ensures cycle.Some? ==> IsCycle(deps, cycle.value)
      ensures cycle.None? ==> Valid(trail) && name in done && old(done) <= done && open == old(open)
      decreases deps.Keys - done - open
    {
      if name in done { return None; }
      if name in open {
        var at :| 0 <= at < |trail| && trail[at] == name;
        return Some(trail[at..] + [name]);
      }
      open := open + {name};
      var extended := trail + [name];
      assert Chain(deps, extended);
      var names := SortedNames(deps[name]);
      for i := 0 to |names|
        invariant Valid(extended) && old(done) <= done && open == old(open) + {name}
        invariant forall j :: 0 <= j < i ==> names[j] in done
      {
        cycle := Visit(names[i], extended);
        if cycle.Some? { return; }
      }
      forall d | d in deps[name] ensures d in order { assert d in names; }
      AppendKeepsDependenciesFirst(deps, order, name);
      order := order + [name];
      done, open := done + {name}, open - {name};
      cycle := None;
    }
  }

  datatype OrderError = UnknownName | SelfReference | Cycle(path: seq<string>)

  method CheckNames(fields: map<string, FieldSpec>) returns (problem: Option<OrderError>)
    ensures problem.None? ==> NamesKnown(fields)
    ensures problem.Some? ==> !NamesKnown(fields) || Cyclic(Dependencies(fields))
    ensures problem.Some? ==> !problem.value.Cycle?
  {
    var specs := SortedNames(fields.Keys);
    for i := 0 to |specs|
      invariant forall j :: 0 <= j < i ==> ReadsDeclared(fields, specs[j])
    {
      if !ReadsDeclared(fields, specs[i]) { return Some(UnknownName); }
      if ReadsItself(fields, specs[i]) {
        assert IsCycle(Dependencies(fields), [specs[i], specs[i]]);
        return Some(SelfReference);
      }
    }
    forall n | n in fields ensures ReadsDeclared(fields, n) { assert n in specs; }
    return None;
  }

  /** Validate every derived expression and return the order to evaluate them in: it succeeds
      exactly when every name is known and no field depends on itself, directly or through others. */
  method DerivedOrder(fields: map<string, FieldSpec>) returns (r: Result<seq<string>, OrderError>)
    ensures r.Ok? ==> Topological(Dependencies(fields), r.value)
    ensures r.Ok? <==>
      && (forall n :: n in fields && fields[n].derived.Some? ==>
            Names(fields[n].derived.value) <= fields.Keys + {"known_at", "effective_at"})
      && !Cyclic(Dependencies(fields))
    ensures r.Err? && r.error.Cycle? ==> IsCycle(Dependencies(fields), r.error.path)
  {
    var problem := CheckNames(fields);
    if problem.Some? { return Err(problem.value); }
    var found := Search(Dependencies(fields));
    if found.Err? { return Err(Cycle(found.error)); }
    TopologicalMeansAcyclic(Dependencies(fields), found.value);
    return Ok(found.value);
  }

  /** Search from every field, in name order. */
  method Search(deps: Graph) returns (r: Result<seq<string>, seq<string>>)
    requires Closed(deps)
    ensures r.Ok? ==> Topological(deps, r.value)
    ensures r.Err? ==> IsCycle(deps, r.error)
  {
    var search := new OrderSearch(deps);
    var roots := SortedNames(deps.Keys);
    for i := 0 to |roots|
      invariant search.Valid([]) && search.deps == deps
      invariant forall j :: 0 <= j < i ==> roots[j] in search.done
    {
      var cycle := search.Visit(roots[i], []);
      if cycle.Some? { return Err(cycle.value); }
    }
    forall n | n in deps ensures n in search.order { assert n in roots; }
    return Ok(search.order);
  }
}

