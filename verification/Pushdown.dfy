/** Filter pushdown: a partial translation of DuckDB expressions into Paimon
    predicates. DuckDB keeps its own filters, so a pushed predicate may keep too
    many rows but must never lose one. */
module Pushdown {
  import opened Prelude

  type Val = int
  type Lit = int
  type FieldType = nat
  type Row = seq<Option<Val>>

  datatype Truth = T | F | U

  datatype Comparison = Eq | Ne | Lt | Le | Gt | Ge | OtherComparison

  /** A bound DuckDB expression. `Other` is any class that is never translated. */
  datatype Expr =
    | Column(col: nat)
    | Constant(value: Option<Val>)
    | Compare(op: Comparison, left: Expr, right: Expr)
    | Between(input: Expr, lower: Expr, upper: Expr, lowerInclusive: bool, upperInclusive: bool)
    | And(children: seq<Expr>)
    | Or(children: seq<Expr>)
    | Not(child: Expr)
    | IsNull(child: Expr)
    | IsNotNull(child: Expr)
    | In(children: seq<Expr>)
    | NotIn(children: seq<Expr>)
    | Call(name: string, children: seq<Expr>)
    | Other(id: nat)

  /** A Paimon predicate over columns and literals. */
  datatype Pred =
    | PCompare(col: nat, op: Comparison, lit: Lit)
    | PIsNull(col: nat)
    | PIsNotNull(col: nat)
    | PIn(col: nat, lits: seq<Lit>)
    | PNotIn(col: nat, lits: seq<Lit>)
    | PMatch(name: string, col: nat, lit: Lit)
    | PAnd(preds: seq<Pred>)
    | POr(preds: seq<Pred>)
    | PNot(pred: Pred)

  /** Everything outside the translation: how values compare, what opaque
      expressions mean, what literals convert to, and which predicates paimon-cpp
      agrees to build. */
  datatype Env = Env(
    compare: (Comparison, Val, Val) -> bool,
    matches: (string, Val, Val) -> bool,
    opaqueValue: (Expr, Row) -> Option<Val>,
    opaqueTruth: (Expr, Row) -> Truth,
    columnType: nat -> FieldType,
    stringType: FieldType,
    convert: (Val, FieldType) -> Option<Lit>,
    compareLit: (Comparison, Val, Lit) -> bool,
    matchLit: (string, Val, Lit) -> bool,
    builds: Pred -> bool)

  predicate Compares(env: Env, op: Comparison, x: Val, v: Val) {
    env.compare(op, x, v)
  }

  predicate Matches(env: Env, name: string, x: Val, pattern: Val) {
    env.matches(name, x, pattern)
  }

  predicate ComparesLit(env: Env, op: Comparison, x: Val, lit: Lit) {
    env.compareLit(op, x, lit)
  }

  predicate MatchesLit(env: Env, name: string, x: Val, lit: Lit) {
    env.matchLit(name, x, lit)
  }

  predicate Builds(env: Env, p: Pred) {
    env.builds(p)
  }

  function Literal(env: Env, v: Val, ft: FieldType): Option<Lit> {
    env.convert(v, ft)
  }

  /** `ConvertLiteral` keeps the meaning: a column value compares with the literal
      as it compares with the constant. And comparing the other way round is the mirrored comparison. */
  ghost predicate Faithful(env: Env) {
    && (forall v, ft :: Literal(env, v, ft).Some? ==> SameMeaning(env, v, Literal(env, v, ft).value))
    && (forall x, y :: Compares(env, Eq, x, y) == Compares(env, Eq, y, x) && Compares(env, Ne, x, y) == Compares(env, Ne, y, x))
    && (forall x, y :: Compares(env, Lt, x, y) == Compares(env, Gt, y, x) && Compares(env, Le, x, y) == Compares(env, Ge, y, x))
  }

  ghost predicate SameMeaning(env: Env, v: Val, lit: Lit) {
    && (forall op, x :: ComparesLit(env, op, x, lit) == Compares(env, op, x, v))
    && (forall name, x :: MatchesLit(env, name, x, lit) == Matches(env, name, x, v))
  }

  function Flip(op: Comparison): Comparison {
    match op
    case Lt => Gt
    case Le => Ge
    case Gt => Lt
    case Ge => Le
    case _ => op
  }

  // ---- Kleene evaluation -------------------------------------------------------

  function Bool(b: bool): Truth {
    if b then T else F
  }

  function Not3(a: Truth): Truth {
    match a
    case T => F
    case F => T
    case U => U
  }

  function And3(a: Truth, b: Truth): Truth {
    if a.F? || b.F? then F else if a.T? && b.T? then T else U
  }

  function Or3(a: Truth, b: Truth): Truth {
    if a.T? || b.T? then T else if a.F? && b.F? then F else U
  }

  function Value(env: Env, e: Expr, row: Row): Option<Val> {
    match e
    case Column(col) => Cell(row, col)
    case Constant(v) => v
    case _ => env.opaqueValue(e, row)
  }

  function Cell(row: Row, col: nat): Option<Val> {
    if col < |row| then row[col] else None
  }

  function Compare3(env: Env, op: Comparison, a: Option<Val>, b: Option<Val>): Truth {
    if a.Some? && b.Some? then Bool(Compares(env, op, a.value, b.value)) else U
  }

  predicate Matcher(name: string) {
    name == "prefix" || name == "suffix" || name == "contains" || name == "~~"
  }

  function Eval(env: Env, e: Expr, row: Row): Truth
    decreases e, 1
  {
    match e
    case Compare(op, left, right) =>
      if op.OtherComparison? then env.opaqueTruth(e, row)
      else Compare3(env, op, Value(env, left, row), Value(env, right, row))
    case Between(input, lower, upper, lowerInclusive, upperInclusive) =>
      var x := Value(env, input, row);
      And3(Compare3(env, if lowerInclusive then Ge else Gt, x, Value(env, lower, row)),
           Compare3(env, if upperInclusive then Le else Lt, x, Value(env, upper, row)))
    case And(children) => EvalAnd(env, children, row)
    case Or(children) => EvalOr(env, children, row)
    case Not(child) => Not3(Eval(env, child, row))
    case IsNull(child) => Bool(Value(env, child, row).None?)
    case IsNotNull(child) => Bool(Value(env, child, row).Some?)
    case In(children) =>
      if children == [] then env.opaqueTruth(e, row)
      else Member(env, Value(env, children[0], row), children[1..], row)
    case NotIn(children) =>
      if children == [] then env.opaqueTruth(e, row)
      else Not3(Member(env, Value(env, children[0], row), children[1..], row))
    case Call(name, children) =>
      if Matcher(name) && |children| == 2 then
        var x, pattern := Value(env, children[0], row), Value(env, children[1], row);
        if x.Some? && pattern.Some? then Bool(Matches(env, name, x.value, pattern.value)) else U
      else env.opaqueTruth(e, row)
    case _ => env.opaqueTruth(e, row)
  }

  function EvalAnd(env: Env, es: seq<Expr>, row: Row): Truth
    decreases es, 0
  {
    if es == [] then T else And3(Eval(env, es[0], row), EvalAnd(env, es[1..], row))
  }

  function EvalOr(env: Env, es: seq<Expr>, row: Row): Truth
    decreases es, 0
  {
    if es == [] then F else Or3(Eval(env, es[0], row), EvalOr(env, es[1..], row))
  }

  /** `x IN (es)`: equal to one of them, with Kleene disjunction. */
  function Member(env: Env, x: Option<Val>, es: seq<Expr>, row: Row): Truth {
    if es == [] then F else Or3(Compare3(env, Eq, x, Value(env, es[0], row)), Member(env, x, es[1..], row))
  }

  function CompareLit3(env: Env, op: Comparison, a: Option<Val>, lit: Lit): Truth {
    if a.Some? then Bool(ComparesLit(env, op, a.value, lit)) else U
  }

  function EvalPred(env: Env, p: Pred, row: Row): Truth
    decreases p, 1
  {
    match p
    case PCompare(col, op, lit) => CompareLit3(env, op, Cell(row, col), lit)
    case PIsNull(col) => Bool(Cell(row, col).None?)
    case PIsNotNull(col) => Bool(Cell(row, col).Some?)
    case PIn(col, lits) => MemberLit(env, Cell(row, col), lits)
    case PNotIn(col, lits) => Not3(MemberLit(env, Cell(row, col), lits))
    case PMatch(name, col, lit) =>
      if Cell(row, col).Some? then Bool(MatchesLit(env, name, Cell(row, col).value, lit)) else U
    case PAnd(preds) => EvalPAnd(env, preds, row)
    case POr(preds) => EvalPOr(env, preds, row)
    case PNot(pred) => Not3(EvalPred(env, pred, row))
  }

  function EvalPAnd(env: Env, ps: seq<Pred>, row: Row): Truth
    decreases ps, 0
  {
    if ps == [] then T else And3(EvalPred(env, ps[0], row), EvalPAnd(env, ps[1..], row))
  }

  function EvalPOr(env: Env, ps: seq<Pred>, row: Row): Truth
    decreases ps, 0
  {
    if ps == [] then F else Or3(EvalPred(env, ps[0], row), EvalPOr(env, ps[1..], row))
  }

  function MemberLit(env: Env, x: Option<Val>, lits: seq<Lit>): Truth {
    if lits == [] then F else Or3(CompareLit3(env, Eq, x, lits[0]), MemberLit(env, x, lits[1..]))
  }

  // ---- translation ----------------------------------------------------------------

  /** `ConvertLiteral` raises on NULL; otherwise a translation gives a predicate or
      gives up. */
  datatype Conversion<+P> = Raises | GivesUp | Pushes(pred: P)

  function ConvertConstant(env: Env, value: Option<Val>, col: nat): Conversion<Lit> {
    match value
    case None => Raises
    case Some(v) =>
      match Literal(env, v, env.columnType(col))
      case None => GivesUp
      case Some(lit) => Pushes(lit)
  }

  function Built(env: Env, p: Pred): Conversion<Pred> {
    if Builds(env, p) then Pushes(p) else GivesUp
  }

  function ConvertComparison(env: Env, op: Comparison, left: Expr, right: Expr): Conversion<Pred> {
    if op.OtherComparison? then GivesUp
    else if left.Column? && right.Constant? then
      match ConvertConstant(env, right.value, left.col)
      case Pushes(lit) => Pushes(PCompare(left.col, op, lit))
      case Raises => Raises
      case GivesUp => GivesUp
    else if left.Constant? && right.Column? then
      match ConvertConstant(env, left.value, right.col)
      case Pushes(lit) => Pushes(PCompare(right.col, Flip(op), lit))
      case Raises => Raises
      case GivesUp => GivesUp
    else GivesUp
  }

  function ConvertBetween(env: Env, e: Expr): Conversion<Pred>
    requires e.Between?
  {
    if !e.input.Column? || !e.lower.Constant? || !e.upper.Constant? then GivesUp
    else
      var col := e.input.col;
      match (ConvertConstant(env, e.lower.value, col), ConvertConstant(env, e.upper.value, col))
      case (Pushes(lower), Pushes(upper)) =>
        Built(env, PAnd([PCompare(col, if e.lowerInclusive then Ge else Gt, lower),
                         PCompare(col, if e.upperInclusive then Le else Lt, upper)]))
      case (Raises, _) => Raises
      case (_, Raises) => Raises
      case _ => GivesUp
  }

  /** The literals of an IN list. NOT IN skips what it cannot convert, IN gives up. */
  function ConvertLiterals(env: Env, col: nat, es: seq<Expr>, skip: bool): Conversion<seq<Lit>> {
    if es == [] then Pushes([])
    else
      var head := if es[0].Constant? then ConvertConstant(env, es[0].value, col) else GivesUp;
      match head
      case Raises => Raises
      case GivesUp => if skip then ConvertLiterals(env, col, es[1..], skip) else GivesUp
      case Pushes(lit) =>
        match ConvertLiterals(env, col, es[1..], skip)
        case Pushes(lits) => Pushes([lit] + lits)
        case Raises => Raises
        case GivesUp => GivesUp
  }

  function ConvertMembership(env: Env, children: seq<Expr>, negated: bool): Conversion<Pred> {
    if children == [] || !children[0].Column? then GivesUp
    else
      var col := children[0].col;
      match ConvertLiterals(env, col, children[1..], negated)
      case Raises => Raises
      case GivesUp => GivesUp
      case Pushes(lits) =>
        if lits == [] then GivesUp else Pushes(if negated then PNotIn(col, lits) else PIn(col, lits))
  }

  function ConvertCall(env: Env, name: string, children: seq<Expr>): Conversion<Pred> {
    if !Matcher(name) || |children| != 2 || !children[0].Column? then GivesUp
    else if env.columnType(children[0].col) != env.stringType || !children[1].Constant? then GivesUp
    else
      match ConvertConstant(env, children[1].value, children[0].col)
      case Raises => Raises
      case GivesUp => GivesUp
      case Pushes(lit) => Built(env, PMatch(name, children[0].col, lit))
  }

  /** `TryConvertExpression`. */
  function Convert(env: Env, e: Expr): Conversion<Pred>
    decreases e, 1
  {
    match e
    case Compare(op, left, right) => ConvertComparison(env, op, left, right)
    case Between(_, _, _, _, _) => ConvertBetween(env, e)
    case And(children) =>
      (match ConvertAll(env, children, false)
       case Raises => Raises
       case GivesUp => GivesUp
       case Pushes(ps) => if ps == [] then GivesUp else Built(env, PAnd(ps)))
    case Or(children) =>
      (match ConvertAll(env, children, true)
       case Raises => Raises
       case GivesUp => GivesUp
       case Pushes(ps) => if ps == [] then GivesUp else Built(env, POr(ps)))
    case Not(child) =>
      (match Convert(env, child)
       case Raises => Raises
       case GivesUp => GivesUp
       case Pushes(p) => Built(env, PNot(p)))
    case IsNull(child) => if child.Column? then Pushes(PIsNull(child.col)) else GivesUp
    case IsNotNull(child) => if child.Column? then Pushes(PIsNotNull(child.col)) else GivesUp
    case In(children) => ConvertMembership(env, children, false)
    case NotIn(children) => ConvertMembership(env, children, true)
    case Call(name, children) => ConvertCall(env, name, children)
    case _ => GivesUp
  }

  /** The children of a conjunction: AND skips what it cannot convert, OR gives up. */
  function ConvertAll(env: Env, es: seq<Expr>, all: bool): Conversion<seq<Pred>>
    decreases es, 0
  {
    if es == [] then Pushes([])
    else
      match Convert(env, es[0])
      case Raises => Raises
      case GivesUp => if all then GivesUp else ConvertAll(env, es[1..], all)
      case Pushes(p) =>
        match ConvertAll(env, es[1..], all)
        case Pushes(ps) => Pushes([p] + ps)
        case Raises => Raises
        case GivesUp => GivesUp
  }

  // ---- when it is safe ----------------------------------------------------------------

  /** No literal of the list is skipped. */
  predicate AllConvert(env: Env, col: nat, es: seq<Expr>) {
    forall i :: 0 <= i < |es| ==> es[i].Constant? && ConvertConstant(env, es[i].value, col).Pushes?
  }

  /** Where weakening is harmless. In a positive position parts may be dropped;
      below an odd number of NOTs nothing may be. */
  predicate Safe(env: Env, e: Expr, positive: bool)
    decreases e, 1
  {
    match e
    case And(children) => SafeAll(env, children, positive, positive)
    case Or(children) => SafeAll(env, children, positive, true)
    case Not(child) => Safe(env, child, !positive)
    case NotIn(children) =>
      positive || children == [] || !children[0].Column? || AllConvert(env, children[0].col, children[1..])
    case _ => true
  }

  predicate SafeAll(env: Env, es: seq<Expr>, positive: bool, mayDrop: bool)
    decreases es, 0
  {
    es != [] ==>
      && Safe(env, es[0], positive)
      && (mayDrop || Convert(env, es[0]).Pushes?)
      && SafeAll(env, es[1..], positive, mayDrop)
  }

  /** In a positive position TRUE is kept, in a negative one FALSE is. */
  predicate Keeps(before: Truth, after: Truth, positive: bool) {
    if positive then before.T? ==> after.T? else before.F? ==> after.F?
  }

  /** Comparing with a converted constant is comparing with the constant. */
  lemma ConstantFaithful(env: Env, op: Comparison, x: Option<Val>, value: Option<Val>, col: nat)
    requires Faithful(env) && ConvertConstant(env, value, col).Pushes?
    ensures CompareLit3(env, op, x, ConvertConstant(env, value, col).pred) == Compare3(env, op, x, value)
  {
    var lit := ConvertConstant(env, value, col).pred;
    assert SameMeaning(env, value.value, lit);
    if x.Some? {
      assert ComparesLit(env, op, x.value, lit) == Compares(env, op, x.value, value.value);
    }
  }

  lemma {:induction false} MemberKept(env: Env, col: nat, es: seq<Expr>, skip: bool, row: Row)
    requires Faithful(env) && ConvertLiterals(env, col, es, skip).Pushes?
    ensures var x := Cell(row, col);
            var lits := ConvertLiterals(env, col, es, skip).pred;
            && (Member(env, x, es, row).F? ==> MemberLit(env, x, lits).F?)
            && (!skip || AllConvert(env, col, es) ==> MemberLit(env, x, lits) == Member(env, x, es, row))
  {
    if es != [] {
      var rest := es[1..];
      assert AllConvert(env, col, es) ==> AllConvert(env, col, rest) && es[0].Constant?;
      MemberKept(env, col, rest, skip, row);
      if es[0].Constant? && ConvertConstant(env, es[0].value, col).Pushes? {
        var lit := ConvertConstant(env, es[0].value, col).pred;
        ConstantFaithful(env, Eq, Cell(row, col), es[0].value, col);
        var lits := ConvertLiterals(env, col, rest, skip).pred;
        assert ([lit] + lits)[1..] == lits;
      }
    }
  }

  lemma MembershipSound(env: Env, children: seq<Expr>, negated: bool, row: Row, positive: bool)
    requires Faithful(env) && children != [] && ConvertMembership(env, children, negated).Pushes?
    requires Safe(env, if negated then NotIn(children) else In(children), positive)
    ensures Keeps(Eval(env, if negated then NotIn(children) else In(children), row),
                  EvalPred(env, ConvertMembership(env, children, negated).pred, row), positive)
  {
    MemberKept(env, children[0].col, children[1..], negated, row);
  }

  lemma BetweenSound(env: Env, e: Expr, row: Row)
    requires Faithful(env) && e.Between? && Convert(env, e).Pushes?
    ensures EvalPred(env, Convert(env, e).pred, row) == Eval(env, e, row)
  {
    var col, x := e.input.col, Cell(row, e.input.col);
    var low, high := if e.lowerInclusive then Ge else Gt, if e.upperInclusive then Le else Lt;
    var p := PCompare(col, low, ConvertConstant(env, e.lower.value, col).pred);
    var q := PCompare(col, high, ConvertConstant(env, e.upper.value, col).pred);
    assert Convert(env, e).pred == PAnd([p, q]);
    ConstantFaithful(env, low, x, e.lower.value, col);
    ConstantFaithful(env, high, x, e.upper.value, col);
    assert [p, q][1..] == [q] && [q][1..] == [];
    assert EvalPAnd(env, [q], row) == EvalPred(env, q, row);
    assert EvalPAnd(env, [p, q], row) == And3(EvalPred(env, p, row), EvalPred(env, q, row));
  }

  lemma LeafSound(env: Env, e: Expr, row: Row)
    requires Faithful(env) && Convert(env, e).Pushes?
    requires e.Compare? || e.Between? || e.Call? || e.IsNull? || e.IsNotNull?
    ensures EvalPred(env, Convert(env, e).pred, row) == Eval(env, e, row)
  {
    match e
    case Between(_, _, _, _, _) => BetweenSound(env, e, row);
    case Compare(op, left, right) =>
      if left.Column? {
        ConstantFaithful(env, op, Cell(row, left.col), right.value, left.col);
      } else {
        var x := Cell(row, right.col);
        ConstantFaithful(env, Flip(op), x, left.value, right.col);
        assert x.Some? ==> Compares(env, Flip(op), x.value, left.value.value) == Compares(env, op, left.value.value, x.value);
      }
    case Call(name, children) =>
      var x, v := Cell(row, children[0].col), children[1].value;
      var lit := ConvertConstant(env, v, children[0].col).pred;
      assert SameMeaning(env, v.value, lit);
      assert x.Some? ==> MatchesLit(env, name, x.value, lit) == Matches(env, name, x.value, v.value);
    case _ =>
  }

  /** Soundness, at every position: a safe expression that converts keeps the
      verdict that matters there. */
  lemma {:induction false} ConvertSound(env: Env, e: Expr, row: Row, positive: bool)
    requires Faithful(env) && Convert(env, e).Pushes? && Safe(env, e, positive)
    ensures Keeps(Eval(env, e, row), EvalPred(env, Convert(env, e).pred, row), positive)
    decreases e, 1
  {
    match e
    case And(children) => AndSound(env, children, row, positive);
    case Or(children) => OrSound(env, children, row, positive);
    case Not(child) => ConvertSound(env, child, row, !positive);
    case In(children) => MembershipSound(env, children, false, row, positive);
    case NotIn(children) => MembershipSound(env, children, true, row, positive);
    case _ => LeafSound(env, e, row);
  }

  lemma {:induction false} AndSound(env: Env, es: seq<Expr>, row: Row, positive: bool)
    requires Faithful(env) && ConvertAll(env, es, false).Pushes? && SafeAll(env, es, positive, positive)
    ensures Keeps(EvalAnd(env, es, row), EvalPAnd(env, ConvertAll(env, es, false).pred, row), positive)
    decreases es, 0
  {
    if es != [] {
      AndSound(env, es[1..], row, positive);
      if Convert(env, es[0]).Pushes? {
        ConvertSound(env, es[0], row, positive);
        var p, ps := Convert(env, es[0]).pred, ConvertAll(env, es[1..], false).pred;
        assert ([p] + ps)[1..] == ps;
      }
    }
  }

  lemma {:induction false} OrSound(env: Env, es: seq<Expr>, row: Row, positive: bool)
    requires Faithful(env) && ConvertAll(env, es, true).Pushes? && SafeAll(env, es, positive, true)
    ensures Keeps(EvalOr(env, es, row), EvalPOr(env, ConvertAll(env, es, true).pred, row), positive)
    decreases es, 0
  {
    if es != [] {
      OrSound(env, es[1..], row, positive);
      ConvertSound(env, es[0], row, positive);
      var p, ps := Convert(env, es[0]).pred, ConvertAll(env, es[1..], true).pred;
      assert ([p] + ps)[1..] == ps;
    }
  }

  /** The main case: in a filter, no row that satisfies it is lost. */
  lemma PushdownSound(env: Env, e: Expr, row: Row)
    requires Faithful(env) && Convert(env, e).Pushes? && Safe(env, e, true)
    ensures Eval(env, e, row).T? ==> EvalPred(env, Convert(env, e).pred, row).T?
  {
    ConvertSound(env, e, row, true);
  }

  /** Without NOT over a partial conversion there is nothing to check. */
  predicate HasNot(e: Expr)
    decreases e, 1
  {
    match e
    case Not(_) => true
    case And(children) => HasNotAny(children)
    case Or(children) => HasNotAny(children)
    case _ => false
  }

  predicate HasNotAny(es: seq<Expr>)
    decreases es, 0
  {
    es != [] && (HasNot(es[0]) || HasNotAny(es[1..]))
  }

  lemma {:induction false} NoNotIsSafe(env: Env, e: Expr)
    requires !HasNot(e)
    ensures Safe(env, e, true)
    decreases e, 1
  {
    match e
    case And(children) => NoNotAllSafe(env, children);
    case Or(children) => NoNotAllSafe(env, children);
    case _ =>
  }

  /** Nor does it matter under two of them, or under one where nothing was dropped. */
  lemma EvenNotsAreSafe(env: Env, e: Expr, positive: bool)
    requires !HasNot(e)
    ensures Safe(env, Not(Not(e)), true)
    ensures Safe(env, Not(e), positive) <==> Safe(env, e, !positive)
  {
    NoNotIsSafe(env, e);
  }

  lemma {:induction false} NoNotAllSafe(env: Env, es: seq<Expr>)
    requires !HasNotAny(es)
    ensures SafeAll(env, es, true, true)
    decreases es, 0
  {
    if es != [] {
      NoNotIsSafe(env, es[0]);
      NoNotAllSafe(env, es[1..]);
    }
  }

  // ---- what is translated at all ----------------------------------------------------------

  /** Nothing that a translation would look at is a NULL constant. */
  predicate NullFree(e: Expr)
    decreases e, 1
  {
    match e
    case Constant(value) => value.Some?
    case Compare(_, left, right) => NullFree(left) && NullFree(right)
    case Between(_, lower, upper, _, _) => NullFree(lower) && NullFree(upper)
    case And(children) => AllNullFree(children)
    case Or(children) => AllNullFree(children)
    case Not(child) => NullFree(child)
    case In(children) => AllNullFree(children)
    case NotIn(children) => AllNullFree(children)
    case Call(_, children) => AllNullFree(children)
    case _ => true
  }

  predicate AllNullFree(es: seq<Expr>)
    decreases es, 0
  {
    es != [] ==> NullFree(es[0]) && AllNullFree(es[1..])
  }

  /** A constant that has a literal of the column's type. */
  predicate HasLiteral(env: Env, col: nat, e: Expr) {
    e.Constant? && e.value.Some? && Literal(env, e.value.value, env.columnType(col)).Some?
  }

  predicate AllLiterals(env: Env, col: nat, es: seq<Expr>) {
    es != [] ==> HasLiteral(env, col, es[0]) && AllLiterals(env, col, es[1..])
  }

  predicate SomeLiteral(env: Env, col: nat, es: seq<Expr>) {
    es != [] && (HasLiteral(env, col, es[0]) || SomeLiteral(env, col, es[1..]))
  }

  /** The expressions that are translated: comparisons of a column with a constant in
      either order, BETWEEN of two constants, IN a list of constants, NOT IN a list with
      at least one, matches of a string column, NULL tests, an AND with a translated
      child, an OR of translated children, and their negations. */
  predicate Translated(env: Env, e: Expr)
    decreases e, 1
  {
    match e
    case Compare(op, left, right) =>
      !op.OtherComparison?
      && ((left.Column? && HasLiteral(env, left.col, right)) || (right.Column? && HasLiteral(env, right.col, left)))
    case Between(input, lower, upper, _, _) =>
      input.Column? && HasLiteral(env, input.col, lower) && HasLiteral(env, input.col, upper)
    case And(children) => SomeTranslated(env, children)
    case Or(children) => children != [] && AllTranslated(env, children)
    case Not(child) => Translated(env, child)
    case IsNull(child) => child.Column?
    case IsNotNull(child) => child.Column?
    case In(children) => |children| > 1 && children[0].Column? && AllLiterals(env, children[0].col, children[1..])
    case NotIn(children) => |children| > 1 && children[0].Column? && SomeLiteral(env, children[0].col, children[1..])
    case Call(name, children) =>
      name in {"prefix", "suffix", "contains", "~~"} && |children| == 2 && children[0].Column?
      && env.columnType(children[0].col) == env.stringType && HasLiteral(env, children[0].col, children[1])
    case _ => false
  }

  predicate SomeTranslated(env: Env, es: seq<Expr>)
    decreases es, 0
  {
    es != [] && (Translated(env, es[0]) || SomeTranslated(env, es[1..]))
  }

  predicate AllTranslated(env: Env, es: seq<Expr>)
    decreases es, 0
  {
    es != [] ==> Translated(env, es[0]) && AllTranslated(env, es[1..])
  }

  /** paimon-cpp builds whatever combination it is asked for. */
  ghost predicate BuildsAll(env: Env) {
    forall p :: Builds(env, p)
  }

  lemma {:induction false} LiteralsExactly(env: Env, col: nat, es: seq<Expr>, skip: bool)
    requires AllNullFree(es)
    ensures !ConvertLiterals(env, col, es, skip).Raises?
    ensures !skip ==> (ConvertLiterals(env, col, es, skip).Pushes? <==> AllLiterals(env, col, es))
    ensures !skip && AllLiterals(env, col, es) && es != [] ==> ConvertLiterals(env, col, es, skip).pred != []
    ensures skip ==> ConvertLiterals(env, col, es, skip).Pushes?
                     && (ConvertLiterals(env, col, es, skip).pred != [] <==> SomeLiteral(env, col, es))
  {
    if es != [] {
      LiteralsExactly(env, col, es[1..], skip);
    }
  }

  /** Without NULL constants nothing raises, and exactly these expressions become a
      predicate; all others give up. */
  lemma {:induction false} TranslatedExactly(env: Env, e: Expr)
    requires NullFree(e) && BuildsAll(env)
    ensures !Convert(env, e).Raises? && (Convert(env, e).Pushes? <==> Translated(env, e))
    decreases e, 1
  {
    match e
    case And(children) => ConjunctsExactly(env, children);
    case Or(children) => DisjunctsExactly(env, children);
    case Not(child) => TranslatedExactly(env, child);
    case In(children) =>
      if children != [] {
        LiteralsExactly(env, if children[0].Column? then children[0].col else 0, children[1..], false);
      }
    case NotIn(children) =>
      if children != [] {
        LiteralsExactly(env, if children[0].Column? then children[0].col else 0, children[1..], true);
      }
    case Call(name, children) => CallExactly(env, name, children);
    case _ =>
  }

  lemma CallExactly(env: Env, name: string, children: seq<Expr>)
    requires AllNullFree(children) && BuildsAll(env)
    ensures !ConvertCall(env, name, children).Raises?
    ensures ConvertCall(env, name, children).Pushes? <==> Translated(env, Call(name, children))
  {
    if |children| == 2 {
      assert children[1..][0] == children[1];
      assert AllNullFree(children[1..]);
      assert NullFree(children[1]);
    }
  }

  lemma {:induction false} ConjunctsExactly(env: Env, es: seq<Expr>)
    requires AllNullFree(es) && BuildsAll(env)
    ensures ConvertAll(env, es, false).Pushes?
    ensures ConvertAll(env, es, false).pred != [] <==> SomeTranslated(env, es)
    decreases es, 0
  {
    if es != [] {
      TranslatedExactly(env, es[0]);
      ConjunctsExactly(env, es[1..]);
    }
  }

  lemma {:induction false} DisjunctsExactly(env: Env, es: seq<Expr>)
    requires AllNullFree(es) && BuildsAll(env)
    ensures !ConvertAll(env, es, true).Raises? && (ConvertAll(env, es, true).Pushes? <==> AllTranslated(env, es))
    ensures AllTranslated(env, es) && es != [] ==> ConvertAll(env, es, true).pred != []
    decreases es, 0
  {
    if es != [] {
      TranslatedExactly(env, es[0]);
      DisjunctsExactly(env, es[1..]);
    }
  }

  /** A NULL constant raises wherever a translation gets to it, and one filter that
      raises makes the whole pushdown fail. */
  lemma NullRaises(env: Env, op: Comparison, col: nat, lower: bool, upper: bool, filters: seq<Expr>, k: nat)
    requires !op.OtherComparison? && k < |filters|
    requires || filters[k] == Compare(op, Column(col), Constant(None))
             || filters[k] == Compare(op, Constant(None), Column(col))
             || filters[k] == Between(Column(col), Constant(None), Constant(None), lower, upper)
             || filters[k] == In([Column(col), Constant(None)])
             || filters[k] == NotIn([Column(col), Constant(None)])
    ensures Convert(env, filters[k]).Raises? && ConvertAll(env, filters, false).Raises?
  {
    assert [Column(col), Constant(None)][1..] == [Constant(None)];
    RaisingFilter(env, filters, k);
  }

  lemma {:induction false} RaisingFilter(env: Env, es: seq<Expr>, k: nat)
    requires k < |es| && Convert(env, es[k]).Raises?
    ensures ConvertAll(env, es, false).Raises?
  {
    NeverGivesUp(env, es[1..]);
    if k > 0 {
      RaisingFilter(env, es[1..], k - 1);
    }
  }

  // ---- what goes wrong otherwise -----------------------------------------------------------

  /** Safe in both positions: the translation means the same. */
  predicate Exact(env: Env, e: Expr) {
    Safe(env, e, true) && Safe(env, e, false)
  }

  lemma {:induction false} ExactConversion(env: Env, e: Expr, row: Row)
    requires Faithful(env) && Convert(env, e).Pushes? && Exact(env, e)
    ensures EvalPred(env, Convert(env, e).pred, row) == Eval(env, e, row)
    decreases e, 1
  {
    match e
    case And(children) => ExactAnd(env, children, row);
    case Or(children) => ExactOr(env, children, row);
    case Not(child) => ExactConversion(env, child, row);
    case In(children) => MemberKept(env, children[0].col, children[1..], false, row);
    case NotIn(children) => MemberKept(env, children[0].col, children[1..], true, row);
    case _ => LeafSound(env, e, row);
  }

  lemma {:induction false} ExactAnd(env: Env, es: seq<Expr>, row: Row)
    requires Faithful(env) && ConvertAll(env, es, false).Pushes?
    requires SafeAll(env, es, true, true) && SafeAll(env, es, false, false)
    ensures EvalPAnd(env, ConvertAll(env, es, false).pred, row) == EvalAnd(env, es, row)
    decreases es, 0
  {
    if es != [] {
      ExactAnd(env, es[1..], row);
      ExactConversion(env, es[0], row);
      var p, ps := Convert(env, es[0]).pred, ConvertAll(env, es[1..], false).pred;
      assert ([p] + ps)[1..] == ps;
    }
  }

  lemma {:induction false} ExactOr(env: Env, es: seq<Expr>, row: Row)
    requires Faithful(env) && ConvertAll(env, es, true).Pushes?
    requires SafeAll(env, es, true, true) && SafeAll(env, es, false, true)
    ensures EvalPOr(env, ConvertAll(env, es, true).pred, row) == EvalOr(env, es, row)
    decreases es, 0
  {
    if es != [] {
      ExactOr(env, es[1..], row);
      ExactConversion(env, es[0], row);
      var p, ps := Convert(env, es[0]).pred, ConvertAll(env, es[1..], true).pred;
      assert ([p] + ps)[1..] == ps;
    }
  }

  /** Some child is FALSE on the row, among those that converted or that did not. */
  predicate SomeFalse(env: Env, es: seq<Expr>, row: Row, converted: bool) {
    es != [] &&
    ((Convert(env, es[0]).Pushes? == converted && Eval(env, es[0], row).F?) || SomeFalse(env, es[1..], row, converted))
  }

  predicate KeptExact(env: Env, es: seq<Expr>) {
    es != [] ==> (Convert(env, es[0]).Pushes? ==> Exact(env, es[0])) && KeptExact(env, es[1..])
  }

  lemma {:induction false} FalseConjunction(env: Env, es: seq<Expr>, row: Row)
    requires Faithful(env) && ConvertAll(env, es, false).Pushes? && KeptExact(env, es)
    ensures EvalAnd(env, es, row).F? <==> SomeFalse(env, es, row, true) || SomeFalse(env, es, row, false)
    ensures EvalPAnd(env, ConvertAll(env, es, false).pred, row).F? <==> SomeFalse(env, es, row, true)
  {
    hide Faithful, Exact;
    if es != [] {
      FalseConjunction(env, es[1..], row);
      if Convert(env, es[0]).Pushes? {
        ExactConversion(env, es[0], row);
        var p, ps := Convert(env, es[0]).pred, ConvertAll(env, es[1..], false).pred;
        assert ([p] + ps)[1..] == ps;
      }
    }
  }

  /** A row that satisfies the expression and that the pushed predicate rejects. */
  predicate Lost(env: Env, e: Expr, row: Row) {
    Convert(env, e).Pushes? && Eval(env, e, row).T? && !EvalPred(env, Convert(env, e).pred, row).T?
  }

  /** NOT over an AND loses a row exactly when a conjunct that was dropped is FALSE on
      it and no conjunct that was kept is. */
  lemma NotAndLosesExactly(env: Env, es: seq<Expr>, row: Row)
    requires Faithful(env) && Convert(env, Not(And(es))).Pushes? && KeptExact(env, es)
    ensures Lost(env, Not(And(es)), row) <==> SomeFalse(env, es, row, false) && !SomeFalse(env, es, row, true)
  {
    FalseConjunction(env, es, row);
    var ps := ConvertAll(env, es, false).pred;
    assert Convert(env, And(es)) == Pushes(PAnd(ps)) && Convert(env, Not(And(es))) == Pushes(PNot(PAnd(ps)));
    assert Eval(env, And(es), row) == EvalAnd(env, es, row);
    assert EvalPred(env, PAnd(ps), row) == EvalPAnd(env, ps, row);
  }

  /** The value equals an element of the list, among those that converted or not. */
  predicate SomeEqual(env: Env, x: Option<Val>, col: nat, es: seq<Expr>, row: Row, converted: bool) {
    es != [] &&
    (((es[0].Constant? && ConvertConstant(env, es[0].value, col).Pushes?) == converted
      && Compare3(env, Eq, x, Value(env, es[0], row)).T?)
     || SomeEqual(env, x, col, es[1..], row, converted))
  }

  lemma {:induction false} MemberOfKept(env: Env, col: nat, es: seq<Expr>, row: Row)
    requires Faithful(env) && ConvertLiterals(env, col, es, true).Pushes?
    ensures var x := Cell(row, col);
            && (Member(env, x, es, row).T? <==> SomeEqual(env, x, col, es, row, true) || SomeEqual(env, x, col, es, row, false))
            && (MemberLit(env, x, ConvertLiterals(env, col, es, true).pred).T? <==> SomeEqual(env, x, col, es, row, true))
  {
    if es != [] {
      MemberOfKept(env, col, es[1..], row);
      if es[0].Constant? && ConvertConstant(env, es[0].value, col).Pushes? {
        var lit := ConvertConstant(env, es[0].value, col).pred;
        ConstantFaithful(env, Eq, Cell(row, col), es[0].value, col);
        var lits := ConvertLiterals(env, col, es[1..], true).pred;
        assert ([lit] + lits)[1..] == lits;
      }
    }
  }

  /** NOT over a NOT IN loses a row exactly when its value equals an element that was
      skipped and none that was kept. */
  lemma NotNotInLosesExactly(env: Env, children: seq<Expr>, row: Row)
    requires Faithful(env) && children != [] && children[0].Column? && Convert(env, Not(NotIn(children))).Pushes?
    ensures var col := children[0].col;
            var x := Cell(row, col);
            (Lost(env, Not(NotIn(children)), row)
             <==> SomeEqual(env, x, col, children[1..], row, false) && !SomeEqual(env, x, col, children[1..], row, true))
  {
    var col := children[0].col;
    var p := PNotIn(col, ConvertLiterals(env, col, children[1..], true).pred);
    assert Convert(env, NotIn(children)) == Pushes(p);
    assert Convert(env, Not(NotIn(children))) == Pushes(PNot(p));
    assert EvalPred(env, PNot(p), row) == Not3(EvalPred(env, p, row));
    assert Eval(env, NotIn(children), row) == Not3(Member(env, Cell(row, col), children[1..], row));
    MemberOfKept(env, children[0].col, children[1..], row);
  }

  /** A system in which literals are the values, `Other` is FALSE, and paimon-cpp
      builds whatever it is asked to. */
  const SAMPLE: Env := Env(
    (op: Comparison, x: Val, v: Val) => op.Eq? && x == v,
    (name: string, x: Val, v: Val) => false,
    (e: Expr, row: Row) => None,
    (e: Expr, row: Row) => F,
    (col: nat) => 0,
    0,
    (v: Val, ft: FieldType) => Some(v),
    (op: Comparison, x: Val, lit: Lit) => op.Eq? && x == lit,
    (name: string, x: Val, lit: Lit) => false,
    (p: Pred) => true)

  lemma SampleFaithful()
    ensures Faithful(SAMPLE)
  {
  }

  /** NOT (c0 = 5 AND something untranslatable), on a row with c0 = 5. */
  lemma NotAndLosesARow()
    ensures Faithful(SAMPLE)
    ensures Lost(SAMPLE, Not(And([Compare(Eq, Column(0), Constant(Some(5))), Other(0)])), [Some(5)])
  {
    SampleFaithful();
    hide Faithful;
    var eq, other, row: Row := Compare(Eq, Column(0), Constant(Some(5))), Other(0), [Some(5)];
    var es := [eq, other];
    assert es[1..] == [other] && [other][1..] == [];
    assert Literal(SAMPLE, 5, 0) == Some(5);
    assert Compares(SAMPLE, Eq, 5, 5) && Builds(SAMPLE, PAnd([PCompare(0, Eq, 5)]));
    assert Builds(SAMPLE, PNot(PAnd([PCompare(0, Eq, 5)])));
    assert ConvertConstant(SAMPLE, Some(5), 0) == Pushes(5);
    assert Convert(SAMPLE, eq) == Pushes(PCompare(0, Eq, 5)) && Convert(SAMPLE, other).GivesUp?;
    assert ConvertAll(SAMPLE, [], false) == Pushes([]);
    assert ConvertAll(SAMPLE, [other], false) == Pushes([]);
    assert [PCompare(0, Eq, 5)] + [] == [PCompare(0, Eq, 5)];
    assert ConvertAll(SAMPLE, es, false) == Pushes([PCompare(0, Eq, 5)]);
    assert SomeFalse(SAMPLE, [other], row, false);
    assert !SomeFalse(SAMPLE, [other], row, true);
    assert Exact(SAMPLE, eq) && KeptExact(SAMPLE, []) && KeptExact(SAMPLE, [other]);
    assert KeptExact(SAMPLE, es);
    NotAndLosesExactly(SAMPLE, es, row);
  }

  // ---- the whole filter list ----------------------------------------------------------------

  /** The predicate pushed for a filter list: nothing, or one conjunction. */
  datatype Pushed = Error | NoPredicate | Predicate(pred: Pred)

  /** The first loop of `PaimonPushdownFilter`. */
  method PushFilters(env: Env, filters: seq<Expr>) returns (pushed: Pushed)
    ensures pushed == match ConvertAll(env, filters, false)
                      case Pushes(ps) => if ps == [] then NoPredicate
                                         else if Builds(env, PAnd(ps)) then Predicate(PAnd(ps)) else Error
                      case _ => Error
  {
    var preds: seq<Pred> := [];
    assert filters[0..] == filters;
    NeverGivesUp(env, filters);
    assert ConvertAll(env, filters, false).Pushes? ==>
        [] + ConvertAll(env, filters, false).pred == ConvertAll(env, filters, false).pred;
    for i := 0 to |filters|
      invariant ConvertAll(env, filters, false)
             == match ConvertAll(env, filters[i..], false)
                case Pushes(ps) => Pushes(preds + ps)
                case Raises => Raises
                case GivesUp => GivesUp
    {
      assert filters[i..][1..] == filters[i + 1..];
      NeverGivesUp(env, filters[i + 1..]);
      var conversion := Convert(env, filters[i]);
      if conversion.Raises? {
        return Error;
      }
      if conversion.Pushes? {
        ghost var rest := ConvertAll(env, filters[i + 1..], false);
        if rest.Pushes? {
          assert preds + ([conversion.pred] + rest.pred) == preds + [conversion.pred] + rest.pred;
        }
        preds := preds + [conversion.pred];
      }
    }
    assert filters[|filters|..] == [] && preds + [] == preds;
    if preds == [] {
      return NoPredicate;
    }
    if !Builds(env, PAnd(preds)) {
      return Error;
    }
    return Predicate(PAnd(preds));
  }

  lemma {:induction false} NeverGivesUp(env: Env, es: seq<Expr>)
    ensures !ConvertAll(env, es, false).GivesUp?
  {
    if es != [] {
      NeverGivesUp(env, es[1..]);
    }
  }

  function SelectRows(env: Env, filters: seq<Expr>, rows: seq<Row>): seq<Row> {
    if rows == [] then []
    else (if EvalAnd(env, filters, rows[0]).T? then [rows[0]] else []) + SelectRows(env, filters, rows[1..])
  }

  /** What a scan hands to DuckDB: the rows of the table that survive pruning. */
  function Prune(keep: Row -> bool, rows: seq<Row>): seq<Row> {
    if rows == [] then []
    else (if Kept(keep, rows[0]) then [rows[0]] else []) + Prune(keep, rows[1..])
  }

  predicate Kept(keep: Row -> bool, row: Row) {
    keep(row)
  }

  /** Pruning by the pushed predicate and then re-applying the retained filters
      returns exactly the answer without pruning, for any pruning that keeps at
      least the rows on which the predicate is TRUE. */
  lemma {:induction false} PruningKeepsAnswer(env: Env, filters: seq<Expr>, keep: Row -> bool, rows: seq<Row>)
    requires Faithful(env) && SafeAll(env, filters, true, true) && ConvertAll(env, filters, false).Pushes?
    requires forall row :: EvalPAnd(env, ConvertAll(env, filters, false).pred, row).T? ==> Kept(keep, row)
    ensures SelectRows(env, filters, Prune(keep, rows)) == SelectRows(env, filters, rows)
  {
    if rows != [] {
      PruningKeepsAnswer(env, filters, keep, rows[1..]);
      AndSound(env, filters, rows[0], true);
      if Kept(keep, rows[0]) {
        assert Prune(keep, rows) == [rows[0]] + Prune(keep, rows[1..]);
        assert Prune(keep, rows)[1..] == Prune(keep, rows[1..]);
      } else {
        assert !EvalPAnd(env, ConvertAll(env, filters, false).pred, rows[0]).T?;
        assert Prune(keep, rows) == Prune(keep, rows[1..]);
      }
    }
  }
}
