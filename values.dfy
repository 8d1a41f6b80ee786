/**
 * The scalar values bdnex moves around in dictionaries, dataclass fields and
 * SQLite columns: Python's `None`, `bool`, `int`, `float`, `str`, `bytes` and
 * nested `dict`, with Python's truthiness and comparisons.
 */
module Values {
  import opened Text

  datatype Cell =
    | Null
    | Boolean(b: bool)
    | Integer(i: int)
    | Float(r: real)
    | Str(s: string)
    | Blob(data: seq<bv8>)
    | Dict(entries: map<string, Cell>)

  /** Python's `bool(v)`. */
  predicate Truthy(v: Cell) {
    match v
    case Null => false
    case Boolean(b) => b
    case Integer(i) => i != 0
    case Float(r) => r != 0.0
    case Str(s) => |s| > 0
    case Blob(d) => |d| > 0
    case Dict(m) => |m| > 0
  }

  /** Values Python compares as numbers (`bool` is a subclass of `int`). */
  predicate IsNumber(v: Cell) {
    v.Boolean? || v.Integer? || v.Float?
  }

  function Num(v: Cell): real
    requires IsNumber(v)
  {
    match v
    case Boolean(b) => if b then 1.0 else 0.0
    case Integer(i) => i as real
    case Float(r) => r
  }

  /** Python's `==`: numbers compare by value across `bool`, `int` and `float`. */
  predicate PyEq(a: Cell, b: Cell) {
    if IsNumber(a) && IsNumber(b) then Num(a) == Num(b) else a == b
  }

  /** `d.get(k, default)`. */
  function DictGet(d: map<string, Cell>, k: string, default: Cell): (v: Cell)
    ensures k in d ==> v == d[k]
    ensures k !in d ==> v == default
  {
    if k in d then d[k] else default
  }

  /** `str(v)` for the values whose text does not depend on float formatting. */
  predicate Showable(v: Cell) {
    v.Null? || v.Boolean? || v.Integer? || v.Str?
  }

  function Show(v: Cell): (s: string)
    requires Showable(v)
    ensures v.Str? ==> s == v.s
    ensures v.Integer? ==> s == IntToStr(v.i)
  {
    match v
    case Null => "None"
    case Boolean(b) => if b then "True" else "False"
    case Integer(i) => IntToStr(i)
    case Str(s) => s
  }

  /** Two different integers never print the same. */
  lemma ShowIntegerInjective(m: int, n: int)
    ensures Show(Integer(m)) == Show(Integer(n)) ==> m == n
  {
    if Show(Integer(m)) == Show(Integer(n)) {
      if m >= 0 && n >= 0 {
        NatToStrInjective(m, n);
      } else if m < 0 && n < 0 {
        assert NatToStr(-m) == IntToStr(m)[1..];
        assert NatToStr(-n) == IntToStr(n)[1..];
        NatToStrInjective(-m, -n);
      }
    }
  }
}
