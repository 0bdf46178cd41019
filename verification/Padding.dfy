/** Random padding of handshake data (kosta-crypto/src/padding.rs). */
module Padding {
  import opened Bytes
  import opened TlTypes
  import opened TlObjects

  /** Any number of bytes from min to max, as the random source may choose. */
  method RandomLength(min: nat, max: nat) returns (n: nat)
    requires min <= max
    ensures min <= n <= max
  {
    n :| min <= n <= max;
  }

  method RandomBytes(n: nat) returns (b: bytes)
    ensures |b| == n
  {
    var zeros := Zeros(n);
    b :| |b| == |zeros|;
  }

  /** What padding adds: 12 to 1039 bytes, up to a whole number of blocks. */
  predicate Pads(padding: bytes, data: bytes) {
    12 <= |padding| <= 1039 && (|data| + |padding|) % 16 == 0
  }

  /** The data followed by 12 to 1039 random bytes, up to a multiple of 16. */
  method Pad(data: bytes) returns (padded: bytes)
    ensures data <= padded && Pads(padded[|data|..], data)
  {
    var currentLen := |data|;
    var remainder := (16 - currentLen % 16) % 16;
    var minPad := if remainder > 12 then remainder else 12;
    var padLen := RandomLength(minPad, 1024);
    var totalPad := padLen + (16 - (currentLen + padLen) % 16) % 16;
    var noise := RandomBytes(totalPad);
    padded := data + noise;
  }

  function Unpad(padded: bytes, originalLen: nat): bytes
    requires originalLen <= |padded|
  {
    padded[..originalLen]
  }

  /** Padding is harmless: unpadding gives back the data, and an object decodes from its padded encoding,
      leaving just the padding unread. */
  lemma PaddingIsTail(o: TlObject, padded: bytes)
    requires EncodableObject(o) && EncodeBoxed(o) <= padded
    ensures Unpad(padded, |EncodeBoxed(o)|) == EncodeBoxed(o)
    ensures DecodeBoxed(padded) == Got(o, padded[|EncodeBoxed(o)|..])
  {
    assert padded == EncodeBoxed(o) + padded[|EncodeBoxed(o)|..];
    DecodeEncodedObject(o, padded[|EncodeBoxed(o)|..]);
  }
}
