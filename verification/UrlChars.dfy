/** Character classes of the URL parser (strict mode).

    A C `char` is modelled by the Dafny `char` with the same code.  The parser's macros are
    bit tricks and a bit table; the predicates below are the plain ranges they stand for, and
    the lemmas at the end prove that macro and range agree on every byte. */
module UrlChars {

  predicate IsAlpha(c: char) { 'a' <= c <= 'z' || 'A' <= c <= 'Z' }

  predicate IsNum(c: char) { '0' <= c <= '9' }

  predicate IsAlphaNum(c: char) { IsAlpha(c) || IsNum(c) }

  predicate IsHex(c: char) { IsNum(c) || 'a' <= c <= 'f' || 'A' <= c <= 'F' }

  predicate IsMark(c: char) {
    c == '-' || c == '_' || c == '.' || c == '!' || c == '~' || c == '*' || c == '\'' || c == '(' || c == ')'
  }

  predicate IsUserinfoChar(c: char) {
    || IsAlphaNum(c) || IsMark(c) || c == '%' || c == ';' || c == ':' || c == '&' || c == '='
    || c == '+' || c == '$' || c == ','
  }

  predicate IsHostChar(c: char) { IsAlphaNum(c) || c == '.' || c == '-' }

  predicate IsV6Char(c: char) { IsHex(c) || c == ':' || c == '.' }

  predicate IsZoneChar(c: char) { IsAlphaNum(c) || c == '%' || c == '.' || c == '-' || c == '_' || c == '~' }

  /** Any visible ASCII character except the two that start a query or a fragment. */
  predicate IsUrlChar(c: char) { '!' <= c <= '~' && c != '#' && c != '?' }

  predicate IsServerChar(c: char) { IsUserinfoChar(c) || c == '[' || c == ']' || c == '@' }

  predicate IsQueryChar(c: char) { IsUrlChar(c) || c == '?' }

  predicate IsFragmentChar(c: char) { IsUrlChar(c) || c == '?' || c == '#' }

  predicate All(p: char -> bool, s: string) { forall i :: 0 <= i < |s| ==> p(s[i]) }

  // ----- the macros, as the source computes them

  /** LOWER(c): sets bit 5 of the byte. */
  function Lower(byte: int): int
    requires 0 <= byte < 256
  {
    if (byte / 32) % 2 == 1 then byte else byte + 32
  }

  predicate AlphaMacro(byte: int)
    requires 0 <= byte < 256
  {
    'a' as int <= Lower(byte) <= 'z' as int
  }

  predicate HexMacro(byte: int)
    requires 0 <= byte < 256
  {
    '0' as int <= byte <= '9' as int || 'a' as int <= Lower(byte) <= 'f' as int
  }

  /** The table normal_url_char with the strict-mode entries T(v) = 0; the upper half is zero. */
  const NORMAL_URL_CHAR: seq<int> :=
    [0, 0, 0, 0, 0xF6, 0xFF, 0xFF, 0x7F, 0xFF, 0xFF, 0xFF, 0xFF, 0xFF, 0xFF, 0xFF, 0x7F,
     0, 0, 0, 0, 0, 0, 0, 0, 0, 0, 0, 0, 0, 0, 0, 0]

  const POWERS_OF_TWO: seq<int> := [1, 2, 4, 8, 16, 32, 64, 128]

  predicate BitAt(byte: int)
    requires 0 <= byte < 256
  {
    (NORMAL_URL_CHAR[byte / 8] / POWERS_OF_TWO[byte % 8]) % 2 == 1
  }

  /** The case-folding macros IS_ALPHA and IS_HEX are the plain letter ranges on every byte. */
  lemma FoldingMacrosAreRanges(c: char)
    requires c as int < 256
    ensures AlphaMacro(c as int) <==> IsAlpha(c)
    ensures HexMacro(c as int) <==> IsHex(c)
  {
    var byte := c as int;
    assert byte == 32 * (byte / 32) + byte % 32;
  }

  /** IS_URL_CHAR, a lookup in the bit table, is "visible ASCII but '#' and '?'" on every byte. */
  lemma UrlCharTableIsRange(c: char)
    requires c as int < 256
    ensures BitAt(c as int) <==> IsUrlChar(c)
  {
    var byte := c as int;
    var row, bit := byte / 8, byte % 8;
    assert byte == 8 * row + bit;
    if NORMAL_URL_CHAR[row] == 0xFF || NORMAL_URL_CHAR[row] == 0 {
      assert 4 <= row < 16 <==> NORMAL_URL_CHAR[row] == 0xFF;
    } else if row == 4 {
      assert BitAt(byte) <==> bit != 0 && bit != 3;
    } else {
      assert row == 7 || row == 15;
      assert BitAt(byte) <==> bit != 7;
    }
  }
}
