/** Shared vocabulary: optional values, results, the 64-bit integer range and the
    arithmetic of Rust's `/` and `%` and of chrono's duration accessors.
    Durations throughout the model are integers counting milliseconds. */
module Base {

  datatype Option<+T> = None | Some(value: T) {
    /** `unwrap_or`: the wrapped value, or `default` when absent. */
    function GetOr(default: T): T {
      match this
      case Some(v) => v
      case None => default
    }
  }

  datatype Result<+T, +E> = Ok(value: T) | Err(error: E)

  const I64_MIN: int := -0x8000_0000_0000_0000
  const I64_MAX: int := 0x7FFF_FFFF_FFFF_FFFF

  /** `n` fits a Rust `i64`. */
  predicate InI64(n: int) {
    I64_MIN <= n <= I64_MAX
  }

  function Abs(n: int): nat {
    if n < 0 then -n else n
  }

  function Min(a: int, b: int): int {
    if a <= b then a else b
  }

  /** Rust's `/` on signed integers: the quotient is rounded toward zero. */
  function TDiv(a: int, b: int): (q: int)
    requires b > 0
    ensures Abs(q) == Abs(a) / b
    ensures a >= 0 ==> q == a / b
    ensures a < 0 ==> q <= 0
  {
    if a >= 0 then a / b else -((-a) / b)
  }

  /** Rust's `%` on signed integers: the remainder takes the sign of `a`. */
  function TMod(a: int, b: int): (r: int)
    requires b > 0
    ensures a == TDiv(a, b) * b + r
    ensures a >= 0 ==> 0 <= r < b
    ensures a < 0 ==> -b < r <= 0
  {
    if a >= 0 then a % b else -((-a) % b)
  }

  /** chrono `Duration::num_seconds`: whole seconds, truncated toward zero. */
  function NumSeconds(d: int): int {
    TDiv(d, 1000)
  }

  /** chrono `Duration::num_minutes`: whole minutes, truncated toward zero. */
  function NumMinutes(d: int): int {
    TDiv(NumSeconds(d), 60)
  }

  /** chrono `Duration::num_hours`: whole hours, truncated toward zero. */
  function NumHours(d: int): int {
    TDiv(NumSeconds(d), 3600)
  }

  /** Dividing twice is dividing by the product (non-negative operands). */
  lemma DivDiv(a: nat, b: nat, c: nat)
    requires b > 0 && c > 0
    ensures a / b / c == a / (b * c)
  {
    var q1, r1 := a / b, a % b;
    var q, r2 := q1 / c, q1 % c;
    assert a == q1 * b + r1;
    assert q1 == q * c + r2;
    Distribute(q, c, r2, b);
    BelowProduct(r2, c, b);
    DivUnique(a, b * c, q, r2 * b + r1);
  }

  lemma Distribute(q: int, c: int, r: int, b: int)
    ensures (q * c + r) * b == q * (b * c) + r * b
  {
  }

  /** A digit `r` below `c` in base `b` leaves room for one more `b`. */
  lemma BelowProduct(r: nat, c: nat, b: nat)
    requires r < c
    ensures r * b + b <= b * c
  {
    MulSign(c - r, b);
    assert (c - r) * b == c * b - r * b;
  }

  /** A quotient is determined by any decomposition with a remainder in range. */
  lemma DivUnique(a: nat, d: nat, q: int, r: int)
    requires d > 0 && a == q * d + r && 0 <= r < d
    ensures a / d == q && a % d == r
  {
    var q0, r0 := a / d, a % d;
    MulSign(q0 - q, d);
  }

  /** A non-zero multiple of `d` is at least `d` away from zero. */
  lemma MulSign(k: int, d: nat)
    ensures k >= 1 ==> k * d >= d
    ensures k <= -1 ==> k * d <= 0 - d
  {
    assert k >= 1 ==> (k - 1) * d >= 0;
    assert k <= -1 ==> (-k - 1) * d >= 0;
  }

  /** On non-negative durations the chrono accessors are plain divisions. */
  lemma {:induction false} AccessorsOnNonNegative(d: nat)
    ensures NumSeconds(d) == d / 1000
    ensures NumMinutes(d) == d / 60000
    ensures NumHours(d) == d / 3600000
  {
    DivDiv(d, 1000, 60);
    DivDiv(d, 1000, 3600);
  }
}
