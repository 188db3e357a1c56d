// Types and small functions shared by every component.
module Base {
  datatype Option<+T> = None | Some(value: T)

  datatype Result<+T, +E> = Ok(value: T) | Err(error: E)

  const U64_MAX: nat := 0xFFFF_FFFF_FFFF_FFFF

  // The address a camera is configured under.
  type Ip = nat

  function AsciiLower(c: char): (r: char) { if 'A' <= c <= 'Z' then (c as int + 32) as char else c }

  // The same letter, or an ASCII letter and its other case.
  ghost predicate SameLetter(x: char, y: char) {
    || x == y || ('A' <= x <= 'Z' && y as int - x as int == 'a' as int - 'A' as int)
    || ('A' <= y <= 'Z' && x as int - y as int == 'a' as int - 'A' as int)
  }

  // Texts that differ at most in the case of their ASCII letters.
  ghost predicate SameLetters(a: string, b: string) {
    |a| == |b| && forall k :: 0 <= k < |a| ==> SameLetter(a[k], b[k])
  }
}
