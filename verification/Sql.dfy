/** The fragment of PostgreSQL semantics that the market migrations rely on:
    nullable values, three-valued logic, and unbounded NUMERIC with its special values. */
module Sql {

  datatype Option<+T> = None | Some(value: T)

  /** Three-valued logic.  A WHERE clause or a PL/pgSQL IF acts only on IsTrue;
      a CHECK constraint rejects only IsFalse. */
  datatype Truth = IsTrue | IsFalse | IsNull {

    function And(other: Truth): Truth {
      if IsFalse? || other.IsFalse? then Truth.IsFalse
      else if IsTrue? && other.IsTrue? then Truth.IsTrue
      else Truth.IsNull
    }

    function Or(other: Truth): Truth {
      if IsTrue? || other.IsTrue? then Truth.IsTrue
      else if IsFalse? && other.IsFalse? then Truth.IsFalse
      else Truth.IsNull
    }

    function Not(): Truth {
      match this
      case IsTrue => Truth.IsFalse
      case IsFalse => Truth.IsTrue
      case IsNull => Truth.IsNull
    }

    /** The row is selected by a WHERE clause, or the IF branch is taken. */
    predicate Selected() { IsTrue? }

    /** The row is accepted by a CHECK constraint. */
    predicate Admitted() { !IsFalse? }
  }

  /** False below unknown below true. */
  function Degree(t: Truth): int {
    match t
    case IsFalse => -1
    case IsNull => 0
    case IsTrue => 1
  }

  /** AND takes the lesser, OR the greater, and NOT turns the order around. */
  lemma LogicIsOrdered(a: Truth, b: Truth)
    ensures Degree(a.And(b)) == if Degree(a) <= Degree(b) then Degree(a) else Degree(b)
    ensures Degree(a.Or(b)) == if Degree(a) <= Degree(b) then Degree(b) else Degree(a)
    ensures Degree(a.Not()) == -Degree(a)
    ensures a.Selected() <==> Degree(a) > 0
    ensures a.Admitted() <==> Degree(a) >= 0
  {}

  function Of(b: bool): Truth { if b then IsTrue else IsFalse }

  function Present<T>(a: Option<T>): Truth { Of(a.Some?) }

  function Absent<T>(a: Option<T>): Truth { Of(a.None?) }

  function Equals<T(==)>(a: Option<T>, b: T): Truth {
    if a.None? then IsNull else Of(a.value == b)
  }

  function Among<T(==)>(a: Option<T>, values: set<T>): Truth {
    if a.None? then IsNull else Of(a.value in values)
  }

  /** NUMERIC values in PostgreSQL's total order: NaN equals itself and sorts above everything. */
  datatype Numeric = MinusInfinity | Fin(x: real) | PlusInfinity | NaN

  predicate LessEq(a: Numeric, b: Numeric) {
    match (a, b)
    case (MinusInfinity, _) => true
    case (_, NaN) => true
    case (Fin(x), Fin(y)) => x <= y
    case (Fin(_), PlusInfinity) => true
    case (PlusInfinity, PlusInfinity) => true
    case _ => false
  }

  lemma NumericOrderIsTotal(a: Numeric, b: Numeric, c: Numeric)
    ensures LessEq(a, b) || LessEq(b, a)
    ensures LessEq(a, b) && LessEq(b, a) ==> a == b
    ensures LessEq(a, b) && LessEq(b, c) ==> LessEq(a, c)
    ensures LessEq(MinusInfinity, a) && LessEq(a, NaN) && (a != NaN ==> LessEq(a, PlusInfinity))
    ensures a.Fin? && b.Fin? ==> (LessEq(a, b) <==> a.x <= b.x)
  {}

  function Le(a: Option<Numeric>, b: Option<Numeric>): Truth {
    if a.None? || b.None? then IsNull else Of(LessEq(a.value, b.value))
  }

  function Gt(a: Option<Numeric>, b: Option<Numeric>): Truth { Le(a, b).Not() }

  function Ge(a: Option<Numeric>, b: Option<Numeric>): Truth { Le(b, a) }

  function Lt(a: Option<Numeric>, b: Option<Numeric>): Truth { Ge(a, b).Not() }

  function Same(a: Option<Numeric>, b: Option<Numeric>): Truth {
    if a.None? || b.None? then IsNull else Of(a.value == b.value)
  }

  function Lit(x: real): Option<Numeric> { Some(Fin(x)) }

  predicate Whole(x: real) { x.Floor as real == x }

  function Truncate(x: real): real {
    if x >= 0.0 then x.Floor as real else -((-x).Floor as real)
  }

  /** The number of digits after the point: two or three in every market column. */
  datatype Scale = CENTS | MILLS

  function Scaled(x: real, scale: Scale): real {
    match scale
    case CENTS => x * 100.0
    case MILLS => x * 1000.0
  }

  /** column * 10^scale */
  function Times(a: Option<Numeric>, scale: Scale): Option<Numeric> {
    if a.Some? && a.value.Fin? then Some(Fin(Scaled(a.value.x, scale))) else a
  }

  /** trunc(column) */
  function Trunc(a: Option<Numeric>): Option<Numeric> {
    if a.Some? && a.value.Fin? then Some(Fin(Truncate(a.value.x))) else a
  }

  lemma TruncateFixesWholeNumbers(x: real)
    ensures Truncate(x) == x <==> Whole(x)
  {
    if x < 0.0 {
      var n := x.Floor;
      if Whole(x) {
        assert -x == (-n) as real;
        assert (-x).Floor == -n;
      }
      if Truncate(x) == x {
        var m := (-x).Floor;
        assert x == (-m) as real;
        assert x.Floor == -m;
      }
    }
  }

  /** Assignment to VARCHAR(n) raises only when the excess holds something else than blanks. */
  predicate FitsVarchar(text: string, n: nat) { forall i | n <= i < |text| :: text[i] == ' ' }

  /** What the column then holds: excess blanks are cut off silently. */
  function StoredIn(text: string, n: nat): (stored: string)
    ensures |stored| <= n
    ensures |text| <= n ==> stored == text
    ensures FitsVarchar(text, n) ==> stored <= text && forall i | |stored| <= i < |text| :: text[i] == ' '
  {
    if |text| <= n then text else text[..n]
  }

  predicate FitsColumn(value: Option<string>, n: nat) { value.Some? ==> FitsVarchar(value.value, n) }

  function ColumnValue(value: Option<string>, n: nat): Option<string> {
    if value.Some? then Some(StoredIn(value.value, n)) else None
  }

  /** A value stored in a NUMERIC(p, s) column: such a column rounds to its scale,
      cannot hold an infinity, and can still hold NaN. */
  predicate OnGrid(a: Option<Numeric>, scale: Scale) {
    a.Some? ==>
      match a.value
      case Fin(x) => Whole(Scaled(x, scale))
      case NaN => true
      case _ => false
  }
}
