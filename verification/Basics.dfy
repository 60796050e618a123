/** An optional value. */
module Options {

  datatype Option<+T> = None | Some(value: T)
}

/** Case folding of ASCII letters. */
module Ascii {

  function Fold(c: char): char
  {
    if 'A' <= c <= 'Z' then c - 'A' + 'a' else c
  }

  /** Only capital letters change, each to the small letter 32 places on: only the two forms of a letter are alike. */
  lemma FoldAlike(c: char, d: char)
    ensures Fold(c) == (if 65 <= c as int <= 90 then (c as int + 32) as char else c)
    ensures Fold(c) == Fold(d) <==>
              || c == d
              || (65 <= c as int <= 90 && d as int == c as int + 32)
              || (65 <= d as int <= 90 && c as int == d as int + 32)
  {
  }
}
