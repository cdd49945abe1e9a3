/** Which FIX tags redact.cpp treats how, and how it reads a tag number. */
module FixTags {

  const SOH: char := '\U{01}'

  predicate IsSeparator(c: char) {
    c == SOH || c == '|'
  }

  predicate IsCredentialTag(tag: int) {
    tag in {553, 554, 925, 1400, 1401, 1402, 1403, 1404, 90, 91, 95, 96}
  }

  predicate IsBusinessTag(tag: int) {
    tag in {1, 109, 76, 448, 11, 17, 37, 41, 198, 526, 48, 55, 65, 54, 38, 44, 99, 110, 152, 210,
            6, 14, 31, 32, 151}
  }

  /** Prose a human typed: scrubbed word by word. */
  predicate IsFreeTextTag(tag: int) {
    tag == 58 || tag == 147 || tag == 148
  }

  /** The same prose in a foreign character set: masked whole. */
  predicate IsOpaqueTextTag(tag: int) {
    tag == 355 || tag == 349 || tag == 351
  }

  /** The data field a length field announces, or -1. */
  function DataTagForLengthTag(tag: int): int {
    if tag == 90 then 91 else if tag == 95 then 96 else if tag == 354 then 355 else -1
  }

  predicate IsDigit(c: char) {
    '0' <= c <= '9'
  }

  function DigitsFrom(s: string, v: nat): int {
    if s == "" then v
    else if !IsDigit(s[0]) || v * 10 + (s[0] as int - '0' as int) > 100000 then -1
    else DigitsFrom(s[1..], v * 10 + (s[0] as int - '0' as int))
  }

  /** A number of up to 100000 written in digits alone, or -1. */
  function ParseTag(s: string): int {
    if s == "" then -1 else DigitsFrom(s, 0)
  }
}
