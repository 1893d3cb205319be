/**
 * The character classes of <ctype.h> in the C locale (sections 7.4.1.10,
 * 7.4.2.1 and 7.4.2.2 of ISO/IEC 9899).
 */
module CType {

  /** isspace: space, horizontal tab, newline, vertical tab, form feed, carriage return. */
  predicate IsSpace(c: char) {
    c == ' ' || '\t' <= c <= '\r'
  }

  predicate IsDigit(c: char) {
    '0' <= c <= '9'
  }

  predicate IsUpper(c: char) {
    'A' <= c <= 'Z'
  }

  predicate IsLower(c: char) {
    'a' <= c <= 'z'
  }

  /** tolower: an upper-case letter becomes its lower-case partner, every other character stays. */
  function ToLower(c: char): (r: char)
    ensures r != c <==> IsUpper(c)
    ensures !IsUpper(r)
    ensures IsUpper(c) ==> IsLower(r) && r as int - c as int == 'a' as int - 'A' as int
  {
    if IsUpper(c) then (c as int - 'A' as int + 'a' as int) as char else c
  }

  /** toupper: a lower-case letter becomes its upper-case partner, every other character stays. */
  function ToUpper(c: char): (r: char)
    ensures r != c <==> IsLower(c)
    ensures !IsLower(r)
    ensures IsLower(c) ==> IsUpper(r) && c as int - r as int == 'a' as int - 'A' as int
  {
    if IsLower(c) then (c as int - 'a' as int + 'A' as int) as char else c
  }

  /** The two mappings are each other's inverse on the letters they change. */
  lemma CaseRoundTrip(c: char)
    ensures IsUpper(c) ==> ToUpper(ToLower(c)) == c
    ensures IsLower(c) ==> ToLower(ToUpper(c)) == c
  {
  }
}
