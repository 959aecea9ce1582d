/** Positive numbers, and the larger and the smaller of two integers. */
module Numbers {

  type pos = n: nat | 0 < n witness 1

  function Max(x: int, y: int): int { if x < y then y else x }

  function Min(x: int, y: int): int { if x < y then x else y }
}
