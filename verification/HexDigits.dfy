/** Hexadecimal digits, in small letters and in capitals: what the tables of the readers are compared with. */
module HexDigits {

  /** The digit has the value `d`. */
  predicate Spells(c: char, d: nat) {
    d < 16 && (c == "0123456789abcdef"[d] || c == "0123456789ABCDEF"[d])
  }

  ghost predicate IsDigit(c: char) {
    exists d: nat :: Spells(c, d)
  }
}
