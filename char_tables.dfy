/**
 * The Unicode services the keyword finder relies on: NFKD decomposition,
 * `unicodedata.combining`, the regular-expression classes `\w` and `\s`,
 * `str.isalnum` and lower-casing. None of them is defined here; a value of
 * `CharTables` stands for one choice of all of them, and every operation of
 * the model takes the tables as a parameter.
 */
module CharTables {

  /** One interpretation of the Unicode tables. `lower` maps one character to
      one character (multi-character lower-casings are not modelled). */
  datatype CharTables = CharTables(
    nfkd: string -> string,
    combining: char -> bool,
    isWord: char -> bool,
    isSpace: char -> bool,
    isAlnum: char -> bool,
    lower: char -> char)

  /** What the shape of normalised text depends on: lower-casing keeps the
      plain space and the hyphen, never turns a non-space into whitespace,
      keeps word characters word characters, and is idempotent. */
  predicate Coherent(t: CharTables)
  {
    && t.lower(' ') == ' '
    && t.lower('-') == '-'
    && (forall c :: !t.isSpace(c) ==> !t.isSpace(t.lower(c)))
    && (forall c :: t.isWord(c) ==> t.isWord(t.lower(c)))
    && (forall c :: t.lower(t.lower(c)) == t.lower(c))
  }

  predicate IsAsciiLetter(c: char)
  {
    'a' <= c <= 'z' || 'A' <= c <= 'Z'
  }

  predicate IsAsciiDigit(c: char)
  {
    '0' <= c <= '9'
  }

  /** Python's whitespace restricted to ASCII: space, \t \n \v \f \r and the
      four separators \x1c to \x1f. */
  predicate IsAsciiSpace(c: char)
  {
    c == ' ' || '\t' <= c <= '\r' || '\U{1c}' <= c <= '\U{1f}'
  }

  function AsciiLower(c: char): (r: char)
    ensures IsAsciiLetter(c) ==> 'a' <= r <= 'z'
    ensures !('A' <= c <= 'Z') ==> r == c
  {
    if 'A' <= c <= 'Z' then (c as int + 32) as char else c
  }

  /** The tables as they are for text made of ASCII characters only:
      decomposition and combining marks play no part there. */
  function Ascii(): CharTables
  {
    CharTables(
      s => s,
      c => false,
      c => IsAsciiLetter(c) || IsAsciiDigit(c) || c == '_',
      c => IsAsciiSpace(c),
      c => IsAsciiLetter(c) || IsAsciiDigit(c),
      c => AsciiLower(c))
  }

  /** The assumptions of `Coherent` hold of the ASCII tables. */
  lemma AsciiCoherent()
    ensures Coherent(Ascii())
  {
  }
}
