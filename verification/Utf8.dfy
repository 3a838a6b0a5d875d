/** Well-formed UTF-8 (RFC 3629, section 4). */
module Utf8 {
  import opened Bytes

  predicate Continues(s: text, from: nat, to: nat) {
    to <= |s| && forall i | from <= i < to :: 0x80 <= s[i] <= 0xBF
  }

  /** Length of the character at the head of `s`, or 0 when it is ill-formed. */
  function RuneLength(s: text): (n: nat)
    ensures n <= |s|
  {
    if s == [] then 0
    else if s[0] < 0x80 then 1
    else if |s| < 2 then 0
    else if 0xC2 <= s[0] <= 0xDF then (if Continues(s, 1, 2) then 2 else 0)
    else if 0xE0 <= s[0] <= 0xEF then
      if |s| < 3 || !Continues(s, 1, 3) || (s[0] == 0xE0 && s[1] < 0xA0) || (s[0] == 0xED && 0x9F < s[1]) then 0 else 3
    else if 0xF0 <= s[0] <= 0xF4 then
      if |s| < 4 || !Continues(s, 1, 4) || (s[0] == 0xF0 && s[1] < 0x90) || (s[0] == 0xF4 && 0x8F < s[1]) then 0 else 4
    else 0
  }

  predicate ValidUtf8(s: text)
    decreases |s|
  {
    s == [] || (RuneLength(s) > 0 && ValidUtf8(s[RuneLength(s)..]))
  }
}
