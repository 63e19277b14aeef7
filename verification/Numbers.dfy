/** Powers of two, for delays that double. */
module Numbers {
  function Power2(n: nat): nat { if n == 0 then 1 else 2 * Power2(n - 1) }
}
