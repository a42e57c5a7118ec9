/**
 * NUL-terminated strings as the send functions take them: the bytes of
 * the text are those before the first 0.
 */
module CString {
  import opened Bits

  /** The length of the text: the index of the first NUL. */
  function Strlen(s: seq<bv8>): (n: nat)
    requires 0 in s
    ensures n < |s| && s[n] == 0
    ensures forall i :: 0 <= i < n ==> s[i] != 0
  {
    if s[0] == 0 then 0 else 1 + Strlen(s[1..])
  }

  /** A non-NUL byte at or before the terminator lies inside the text. */
  lemma InText(s: seq<bv8>, i: nat)
    requires 0 in s && i <= Strlen(s) && i < |s| && s[i] != 0
    ensures i < Strlen(s)
  {
  }

  /** A queue holding q0 and the first i bytes of s, with byte i appended, holds q0 and the first i + 1. */
  lemma AppendNext(q0: seq<bv8>, s: seq<bv8>, i: nat, q: seq<bv8>, q': seq<bv8>)
    requires i < |s| && q == q0 + s[..i] && q' == q + [s[i]]
    ensures q' == q0 + s[..i + 1]
  {
    assert s[..i + 1] == s[..i] + [s[i]];
  }

  /** Sending stops at the terminator or when no room is left: the text cut to the room. */
  lemma TextOrRoom(s: seq<bv8>, i: nat, room: nat)
    requires 0 in s && i <= Strlen(s) && i <= room && i < |s|
    requires s[i] == 0 || i == room
    ensures i == Min(Strlen(s), room)
  {
  }
}
