/** Filling byte buffers piece by piece. */
module Buffers {
  import opened Bytes

  /** Copies s to dst from index at on. */
  method CopyInto(dst: array<byte>, at: nat, s: seq<byte>)
    requires at + |s| <= dst.Length
    modifies dst
    ensures dst[at..at + |s|] == s
    ensures forall i :: 0 <= i < dst.Length && !(at <= i < at + |s|) ==> dst[i] == old(dst[i])
  {
    for i := 0 to |s|
      invariant forall t :: 0 <= t < i ==> dst[at + t] == s[t]
      invariant forall t :: 0 <= t < dst.Length && !(at <= t < at + i) ==> dst[t] == old(dst[t])
    {
      dst[at + i] := s[i];
    }
  }

  /** Puts s behind the first at bytes of dst, and leaves everything from end on alone. */
  method Append(dst: array<byte>, at: nat, s: seq<byte>, ghost end: nat)
    requires at + |s| <= end <= dst.Length
    modifies dst
    ensures dst[..at + |s|] == old(dst[..at]) + s
    ensures dst[end..] == old(dst[end..])
  {
    CopyInto(dst, at, s);
    assert dst[..at] == old(dst[..at]);
    assert dst[..at + |s|] == dst[..at] + dst[at..at + |s|];
  }
}
