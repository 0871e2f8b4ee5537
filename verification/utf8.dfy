/** Well-formed UTF-8, as `std::str::from_utf8` accepts it: the byte
    sequences of Table 3-7 of the Unicode Standard (no overlong forms,
    no surrogates, nothing above U+10FFFF). */
module Utf8 {

  predicate Continuation(b: int)
  {
    0x80 <= b <= 0xBF
  }

  /** The bytes of `s` from position `i` on form whole, well-formed sequences. */
  predicate ValidFrom(s: seq<int>, i: nat)
    decreases |s| - i
  {
    if i >= |s| then true
    else if 0 <= s[i] < 0x80 then ValidFrom(s, i + 1)
    else if 0xC2 <= s[i] <= 0xDF then
      i + 2 <= |s| && Continuation(s[i + 1]) && ValidFrom(s, i + 2)
    else if s[i] == 0xE0 then
      i + 3 <= |s| && 0xA0 <= s[i + 1] <= 0xBF && Continuation(s[i + 2]) && ValidFrom(s, i + 3)
    else if 0xE1 <= s[i] <= 0xEC || 0xEE <= s[i] <= 0xEF then
      i + 3 <= |s| && Continuation(s[i + 1]) && Continuation(s[i + 2]) && ValidFrom(s, i + 3)
    else if s[i] == 0xED then
      i + 3 <= |s| && 0x80 <= s[i + 1] <= 0x9F && Continuation(s[i + 2]) && ValidFrom(s, i + 3)
    else if s[i] == 0xF0 then
      i + 4 <= |s| && 0x90 <= s[i + 1] <= 0xBF && Continuation(s[i + 2]) && Continuation(s[i + 3])
      && ValidFrom(s, i + 4)
    else if 0xF1 <= s[i] <= 0xF3 then
      i + 4 <= |s| && Continuation(s[i + 1]) && Continuation(s[i + 2]) && Continuation(s[i + 3])
      && ValidFrom(s, i + 4)
    else if s[i] == 0xF4 then
      i + 4 <= |s| && 0x80 <= s[i + 1] <= 0x8F && Continuation(s[i + 2]) && Continuation(s[i + 3])
      && ValidFrom(s, i + 4)
    else false
  }

  predicate Valid(s: seq<int>)
  {
    ValidFrom(s, 0)
  }

  /** Plain ASCII is always accepted. */
  lemma {:induction false} AsciiValid(s: seq<int>, i: nat)
    requires forall k :: 0 <= k < |s| ==> 0 <= s[k] < 0x80
    ensures ValidFrom(s, i)
    decreases |s| - i
  {
    if i < |s| {
      AsciiValid(s, i + 1);
    }
  }
}
