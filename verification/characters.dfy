/** The characters that end a token. */
module Characters {
  predicate IsSeparator(c: char) {
    c as int in {9, 10, 11, 12, 13, 32, 34, 39, 40, 41, 44, 59, 91, 93, 123, 125}
  }

  /** White space, quotes, brackets of all kinds, comma and semicolon. */
  lemma SeparatorsAre(c: char)
    ensures IsSeparator(c) <==> '\t' <= c <= '\r' || c in {' ', '"', '\'', '(', ')', ',', ';', '[', ']', '{', '}'}
  {
  }
}
