/** The character classes of Go's unicode package that the other modules need. */
module Unicode {

  /** unicode.IsSpace. */
  predicate IsSpaceRune(r: int) {
    || 0x09 <= r <= 0x0D || r == 0x20 || r == 0x85 || r == 0xA0 || r == 0x1680
    || 0x2000 <= r <= 0x200A || r == 0x2028 || r == 0x2029 || r == 0x202F || r == 0x205F || r == 0x3000
  }
}
