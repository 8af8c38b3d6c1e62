/** SQL's three-valued comparisons and connectives, and the two places where they become Boolean. */
module SqlLogic {
  import opened Options

  datatype Truth = True | False | Unknown

  function Lift(b: bool): Truth { if b then True else False }

  /** Comparisons of nullable columns: unknown as soon as one side is NULL. */
  function Less(a: Option<int>, b: Option<int>): Truth {
    if a.None? || b.None? then Unknown else Lift(a.value < b.value)
  }

  function Equal(a: Option<int>, b: Option<int>): Truth {
    if a.None? || b.None? then Unknown else Lift(a.value == b.value)
  }

  /** Comparison with a bound Python value: SQLAlchemy renders `column == None` as IS NULL. */
  function EqualBound(column: Option<int>, bound: Option<int>): Truth {
    if bound.None? then Lift(column.None?) else Equal(column, bound)
  }

  function And(a: Truth, b: Truth): Truth {
    if a == False || b == False then False
    else if a == Unknown || b == Unknown then Unknown
    else True
  }

  function Or(a: Truth, b: Truth): Truth {
    if a == True || b == True then True
    else if a == Unknown || b == Unknown then Unknown
    else False
  }

  function And3(a: Truth, b: Truth, c: Truth): Truth { And(a, And(b, c)) }
  function And4(a: Truth, b: Truth, c: Truth, d: Truth): Truth { And(a, And3(b, c, d)) }
  function And5(a: Truth, b: Truth, c: Truth, d: Truth, e: Truth): Truth { And(a, And4(b, c, d, e)) }
  function And6(a: Truth, b: Truth, c: Truth, d: Truth, e: Truth, f: Truth): Truth {
    And(a, And5(b, c, d, e, f))
  }

  function Or3(a: Truth, b: Truth, c: Truth): Truth { Or(a, Or(b, c)) }
  function Or6(a: Truth, b: Truth, c: Truth, d: Truth, e: Truth, f: Truth): Truth {
    Or(Or3(a, b, c), Or3(d, e, f))
  }

  /** WHERE keeps a row only when its condition is true; unknown rows are dropped. */
  predicate Where(condition: Truth) { condition == True }
}
