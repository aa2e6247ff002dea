/** Sets of ASCII characters, written out.  The parsers decide by ranges and bit tricks; these sets say
    what those should amount to. */
module Ascii {

  predicate Letter(c: char) {
    c in {
      'A', 'B', 'C', 'D', 'E', 'F', 'G', 'H', 'I', 'J', 'K', 'L', 'M', 'N', 'O', 'P', 'Q', 'R', 'S', 'T', 'U', 'V',
      'W', 'X', 'Y', 'Z',
      'a', 'b', 'c', 'd', 'e', 'f', 'g', 'h', 'i', 'j', 'k', 'l', 'm', 'n', 'o', 'p', 'q', 'r', 's', 't', 'u', 'v',
      'w', 'x', 'y', 'z'
    }
  }

  predicate Digit(c: char) { c in {'0', '1', '2', '3', '4', '5', '6', '7', '8', '9'} }

  predicate HexDigit(c: char) { Digit(c) || c in {'A', 'B', 'C', 'D', 'E', 'F', 'a', 'b', 'c', 'd', 'e', 'f'} }

  predicate Punctuation(c: char) {
    c in {
      '!', '"', '#', '$', '%', '&', '\'', '(', ')', '*', '+', ',', '-', '.', '/', ':', ';', '<', '=', '>', '?', '@',
      '[', '\\', ']', '^', '_', '`', '{', '|', '}', '~'
    }
  }

  /** What isprint holds of in the C locale (section 7.4 of ISO C): letters, digits, punctuation and the
      space. */
  predicate Printing(c: char) { Letter(c) || Digit(c) || Punctuation(c) || c == ' ' }

  /** The letters of the C locale, written out. */
  function CapitalOf(c: char): char {
    match c
    case 'a' => 'A'
    case 'b' => 'B'
    case 'c' => 'C'
    case 'd' => 'D'
    case 'e' => 'E'
    case 'f' => 'F'
    case 'g' => 'G'
    case 'h' => 'H'
    case 'i' => 'I'
    case 'j' => 'J'
    case 'k' => 'K'
    case 'l' => 'L'
    case 'm' => 'M'
    case 'n' => 'N'
    case 'o' => 'O'
    case 'p' => 'P'
    case 'q' => 'Q'
    case 'r' => 'R'
    case 's' => 'S'
    case 't' => 'T'
    case 'u' => 'U'
    case 'v' => 'V'
    case 'w' => 'W'
    case 'x' => 'X'
    case 'y' => 'Y'
    case 'z' => 'Z'
    case _ => c
  }

  function Capitals(s: string): (r: string)
    ensures |r| == |s| && forall i :: 0 <= i < |s| ==> r[i] == CapitalOf(s[i])
  {
    seq(|s|, i requires 0 <= i < |s| => CapitalOf(s[i]))
  }
}
