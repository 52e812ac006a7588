/** Bytes, hexadecimal digits and small facts on integers. */
module Numbers {
  type Byte = b: int | 0 <= b < 256

  function Abs(n: int): nat { if n < 0 then -n else n }

  function HexDigit(d: nat): (c: char)
    requires d < 16
    ensures '0' <= c <= '9' || 'a' <= c <= 'f'
  {
    if d < 10 then '0' + d as char else 'a' + (d - 10) as char
  }

  /** An integer in decimal. */
  function DecimalText(n: nat): (s: string)
    ensures s != [] && forall i :: 0 <= i < |s| ==> '0' <= s[i] <= '9'
  {
    (if n < 10 then [] else DecimalText(n / 10)) + ['0' + (n % 10) as char]
  }

  lemma DivMod(n: nat, d: nat)
    requires d >= 1
    ensures n / d * d + n % d == n && n % d < d
  {
  }
}
