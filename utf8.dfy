/**
 * UTF-8 well-formedness as `std::str::from_utf8` checks it: the byte
 * sequences of table 3-7 of the Unicode Standard (no overlong forms, no
 * surrogates, nothing above U+10FFFF).
 */
module Utf8 {
  import opened Wire

  /** `std::str::Utf8Error`. */
  datatype Utf8Error = Utf8Error

  predicate IsContinuation(b: u8) {
    0x80 <= b <= 0xBF
  }

  /** Length of the well-formed sequence starting at `s[0]`, or 0 if there is none. */
  function LeadLength(s: seq<u8>): (n: nat)
    requires s != []
    ensures n <= 4 && (n > 0 ==> n <= |s|)
  {
    var b0 := s[0];
    if b0 <= 0x7F then 1
    else if 0xC2 <= b0 <= 0xDF then
      if |s| >= 2 && IsContinuation(s[1]) then 2 else 0
    else if 0xE0 <= b0 <= 0xEF then
      var lo: u8 := if b0 == 0xE0 then 0xA0 else 0x80;
      var hi: u8 := if b0 == 0xED then 0x9F else 0xBF;
      if |s| >= 3 && lo <= s[1] <= hi && IsContinuation(s[2]) then 3 else 0
    else if 0xF0 <= b0 <= 0xF4 then
      var lo: u8 := if b0 == 0xF0 then 0x90 else 0x80;
      var hi: u8 := if b0 == 0xF4 then 0x8F else 0xBF;
      if |s| >= 4 && lo <= s[1] <= hi && IsContinuation(s[2]) && IsContinuation(s[3]) then 4 else 0
    else 0
  }

  /** `s` is a concatenation of well-formed UTF-8 sequences. */
  predicate Valid(s: seq<u8>)
    decreases |s|
  {
    s == [] || (LeadLength(s) > 0 && Valid(s[LeadLength(s)..]))
  }

  /** Every ASCII byte string is valid UTF-8. */
  lemma {:induction false} AsciiIsValid(s: seq<u8>)
    requires forall i :: 0 <= i < |s| ==> s[i] <= 0x7F
    ensures Valid(s)
    decreases |s|
  {
    if s != [] {
      assert LeadLength(s) == 1;
      AsciiIsValid(s[1..]);
    }
  }
}
