/** Datatypes and string helpers shared by the component models. */
module Core {

  datatype Option<+T> = None | Some(value: T)

  function Max(a: int, b: int): int {
    if a >= b then a else b
  }

  /** White space as strings.TrimSpace and strings.Fields see it. */
  predicate IsSpace(c: char) {
    || c in {' ', '\t', '\n', '\r', 11 as char, 12 as char, 0x85 as char, 0xA0 as char}
    || c in {0x1680 as char, 0x2028 as char, 0x2029 as char, 0x202F as char, 0x205F as char, 0x3000 as char}
    || 0x2000 <= c as int <= 0x200A
  }

  predicate Blank(s: string) {
    forall i :: 0 <= i < |s| ==> IsSpace(s[i])
  }
}
