/** Types every other module uses. Instants and durations are integers in milliseconds. */
module Prelude {
  datatype Option<+T> = None | Some(value: T)

  type Time = int

  const MINUTE := 60_000
  const DAY := 86_400_000

  function Min(a: int, b: int): int { if a < b then a else b }

  function Max(a: int, b: int): int { if a < b then b else a }

  /** ECMAScript's Math.round: the integer nearest to x, ties going up. */
  function Round(x: real): (r: int)
    ensures r as real - 0.5 <= x < r as real + 0.5
  {
    (x + 0.5).Floor
  }

  /** x rounded to two decimals, as Math.round(x * 100) / 100 and toFixed(2) do on reals. */
  function Round2(x: real): (r: real)
    ensures x - 0.005 <= r <= x + 0.005
  {
    Round(x * 100.0) as real / 100.0
  }
}
