/** Character classes used by the normaliser, the cell reader and the query trimming. */
module Chars {

  /** Which copy of the code runs: the extraction scripts (Python) or the page (JavaScript).
      The two differ only in what counts as whitespace. */
  datatype Dialect = Python | JavaScript

  /** Python's `str.isspace()`, which is also what `\s` and `str.strip()` use on `str`. */
  predicate IsPySpace(c: char) {
    || ('\t' <= c <= '\r')                 // \t \n \v \f \r
    || ('\U{1C}' <= c <= '\U{1F}')         // file, group, record and unit separators
    || c == ' ' || c == '\U{85}' || c == '\U{A0}' || c == '\U{1680}'
    || ('\U{2000}' <= c <= '\U{200A}')
    || c == '\U{2028}' || c == '\U{2029}' || c == '\U{202F}' || c == '\U{205F}'
    || c == '\U{3000}'
  }

  /** JavaScript's `\s` and `String.prototype.trim`: WhiteSpace and LineTerminator. */
  predicate IsJsSpace(c: char) {
    || ('\t' <= c <= '\r')
    || c == ' ' || c == '\U{A0}' || c == '\U{1680}'
    || ('\U{2000}' <= c <= '\U{200A}')
    || c == '\U{2028}' || c == '\U{2029}' || c == '\U{202F}' || c == '\U{205F}'
    || c == '\U{3000}' || c == '\U{FEFF}'
  }

  predicate IsSpace(d: Dialect, c: char) {
    match d
    case Python => IsPySpace(c)
    case JavaScript => IsJsSpace(c)
  }

  /** The characters on which the two whitespace sets disagree. */
  predicate IsDialectSensitive(c: char) {
    IsPySpace(c) != IsJsSpace(c)
  }

  /** Full-width `０-９`, `Ａ-Ｚ`, `ａ-ｚ` (U+FF10..FF19, U+FF21..FF3A, U+FF41..FF5A). */
  predicate IsFullWidthAlnum(c: char) {
    ('０' <= c <= '９') || ('Ａ' <= c <= 'Ｚ') || ('ａ' <= c <= 'ｚ')
  }

  predicate IsAsciiUpper(c: char) {
    'A' <= c <= 'Z'
  }

  predicate IsAsciiAlnum(c: char) {
    ('0' <= c <= '9') || ('A' <= c <= 'Z') || ('a' <= c <= 'z')
  }

  /** One character of the width fold: the Python translate table and the JavaScript
      `charCodeAt(0) - 0xFEE0` both send a full-width letter or digit to its ASCII twin. */
  function FoldChar(c: char): (r: char)
    ensures IsFullWidthAlnum(c) ==> IsAsciiAlnum(r) && r as int + 0xFEE0 == c as int
    ensures !IsFullWidthAlnum(c) ==> r == c
  {
    if IsFullWidthAlnum(c) then (c as int - 0xFEE0) as char else c
  }

  /** The inverse direction, used to state that width does not matter. */
  function WidenChar(c: char): (r: char)
    ensures IsAsciiAlnum(c) ==> IsFullWidthAlnum(r) && FoldChar(r) == c
    ensures !IsAsciiAlnum(c) ==> r == c
  {
    if IsAsciiAlnum(c) then (c as int + 0xFEE0) as char else c
  }

  /** ASCII-only `lower()` / `toLowerCase()`. */
  function LowerChar(c: char): (r: char)
    ensures !IsAsciiUpper(r)
    ensures IsAsciiUpper(c) ==> r as int == c as int + 32
    ensures !IsAsciiUpper(c) ==> r == c
  {
    if IsAsciiUpper(c) then (c as int + 32) as char else c
  }
}
