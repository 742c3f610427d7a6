/** Error values of the game packages (errors/gameerror, gameerror, game/errors.go)
    and the outcome of an operation that returns `(T, error)` in Go. */
module GameError {

  datatype Error =
    | NoPlayerExists
    | InvalidPlayerTurn
    | PlayerNotReady
    | DeadPlayer
    | PlayerLeft
    | OverBalance
    | LowBetting
    | NoPlayersLeft
    | LackOfPlayers
    | NotEnoughPlayersReady
    | AlreadyStarted
    | GameAlreadyStarted
    | PlayerAlreadyExists
    | PlayerLimitationError
    | ZeroPlayer        // errors.New("zero player") in getWinnersAndLosers
    | StoreError        // a failed save/load of the game state (Redis)
    | LedgerError       // a failed UpdateMultipleBalance batch

  /** `Ok` is a nil error, `Fail` a returned error, and `Panic` a Go runtime
      panic (index out of range, slice bounds, integer division by zero). */
  datatype Outcome<+T> = Ok(value: T) | Fail(error: Error) | Panic
}

/** Go's `uint64` arithmetic: every `+=` and `-=` wraps modulo 2^64. */
module Uint64 {

  const Modulus: int := 0x1_0000_0000_0000_0000

  type u64 = x: int | 0 <= x < Modulus

  function Wrap(x: int): (r: u64)
    ensures 0 <= x < Modulus ==> r == x
    ensures (r - x) % Modulus == 0
  {
    x % Modulus
  }

  function Add(a: u64, b: u64): (r: u64)
    ensures a + b < Modulus ==> r == a + b
    ensures a + b >= Modulus ==> r == a + b - Modulus
  {
    Wrap(a + b)
  }

  function Sub(a: u64, b: u64): (r: u64)
    ensures b <= a ==> r == a - b
    ensures a < b ==> r == a - b + Modulus
  {
    Wrap(a - b)
  }

  /** A chain of wrapping updates equals one wrap of the exact sum. */
  lemma {:induction false} WrapTwice(x: int, y: int)
    ensures Wrap(Wrap(x) + y) == Wrap(x + y)
  {
    var q := x / Modulus;
    assert x == q * Modulus + Wrap(x);
    assert Wrap(x) + y == (x + y) - q * Modulus;
    ModShift(x + y, -q);
  }

  lemma {:induction false} ModShift(z: int, k: int)
    ensures (z + k * Modulus) % Modulus == z % Modulus
  {
    var q := z / Modulus;
    var r := z % Modulus;
    assert z + k * Modulus == (q + k) * Modulus + r;
  }
}

/** Go's `int` (64 bits) as the payout uses it: `int(x)` of a uint64, a product
    that wraps, and `/`, which truncates toward zero. */
module Int64 {
  import Uint64

  const Half: int := 0x8000_0000_0000_0000

  type i64 = x: int | -Half <= x < Half

  /** Two's-complement wrap into the signed range. */
  function Wrap(x: int): (r: i64)
    ensures -Half <= x < Half ==> r == x
    ensures (r - x) % Uint64.Modulus == 0
  {
    var m := x % Uint64.Modulus;
    if m >= Half then m - Uint64.Modulus else m
  }

  /** Go's `a / b` for a positive divisor: the quotient truncated toward zero. */
  function Quot(a: int, b: int): (q: int)
    requires b > 0
    ensures a >= 0 ==> q == a / b
    ensures a < 0 ==> -q == (-a) / b
  {
    if a >= 0 then a / b else -((-a) / b)
  }
}
