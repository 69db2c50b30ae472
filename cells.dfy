/**
 * The values a pandas cell holds in this program: missing (`None`), `NaN`,
 * a string, or a number. A number carries the text `str()` gives for it,
 * since Python's float formatting is not modelled.
 */
module Cells {

  datatype Cell = Null | NaN | Str(s: string) | Num(x: real, shown: string)

  /** `str(value)` */
  function PyStr(c: Cell): string
  {
    match c
    case Null => "None"
    case NaN => "nan"
    case Str(s) => s
    case Num(_, shown) => shown
  }

  /** `pd.isna(value)` */
  predicate IsNa(c: Cell)
  {
    c.Null? || c.NaN?
  }

  /** Python truthiness: `None`, `""` and zero are false; `NaN` is true. */
  predicate Truthy(c: Cell)
  {
    match c
    case Null => false
    case NaN => true
    case Str(s) => s != ""
    case Num(x, _) => x != 0.0
  }

  /** `value or ""` */
  function OrEmpty(c: Cell): Cell
  {
    if Truthy(c) then c else Str("")
  }
}
