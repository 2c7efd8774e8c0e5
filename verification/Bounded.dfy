/**
 Writing a text in a buffer that may be too short for it.
 */
module Bounded {
  import opened Bytes

  type text = seq<byte>

  /** A C text, without the null that ends it. */
  predicate NoNull(t: text) {
    forall i | 0 <= i < |t| :: t[i] != 0
  }

  function Min(a: nat, b: nat): nat {
    if a < b then a else b
  }

  /** The buffer shows the beginning of the text, as much as fits in the length. */
  ghost predicate Shows(buffer: array<byte>, length: nat, t: text)
    reads buffer
  {
    length <= buffer.Length && buffer[..Min(|t|, length)] == t[..Min(|t|, length)]
  }

  /** One character, written only if it fits; the place advances anyway. */
  method Emit(buffer: array<byte>, length: nat, l: nat, c: byte, ghost t: text) returns (r: nat)
    requires Shows(buffer, length, t) && l == |t|
    modifies buffer
    ensures Shows(buffer, length, t + [c]) && r == |t + [c]|
    ensures forall i | length <= i < buffer.Length :: buffer[i] == old(buffer[i])
  {
    if l < length {
      buffer[l] := c;
      assert buffer[..l + 1] == t + [c];
    } else {
      assert (t + [c])[..length] == t[..length];
    }
    r := l + 1;
  }

  /** A bounded `memcpy` at the end of what is written. */
  method Copy(buffer: array<byte>, length: nat, l: nat, s: text, ghost t: text) returns (r: nat)
    requires Shows(buffer, length, t) && l == |t|
    modifies buffer
    ensures Shows(buffer, length, t + s) && r == |t + s|
    ensures forall i | length <= i < buffer.Length :: buffer[i] == old(buffer[i])
  {
    if l < length {
      var n := if length - l >= |s| then |s| else length - l;
      forall i | l <= i < l + n {
        buffer[i] := s[i - l];
      }
      assert buffer[..l + n] == t + s[..n];
      assert (t + s)[..l + n] == t + s[..n];
    } else {
      assert (t + s)[..length] == t[..length];
    }
    r := l + |s|;
  }
}
