/** Bytes, errors and the big-endian unsigned integers every codec is built from.
    The byte cursor of the source is a buffer whose `read(n)` hands back at most
    `n` bytes: it never fails on short input, it returns what is left. */
module Wire {

  type byte = b: int | 0 <= b < 256

  /** The exceptions the source raises, one constructor per distinct cause. */
  datatype Error =
    | TypeError            // a value of the wrong kind, or the broken one-byte encoder
    | OverflowError        // `int.to_bytes` of a value that does not fit (or is negative)
    | AttributeError       // `_FOR` looked up on a codec that has none
    | IndexError           // a union tag past the last variant
    | KeyError             // a missing dictionary key
    | UnicodeDecodeError   // bytes that are not UTF-8
    | ArgumentMismatch     // "Argument Amount Mismatch" from a packet constructor
    | Leftovers            // "Packet was not fully consumed"
    | VersionMismatch      // "[Protocol Sync] Game version mismatch"
    | UnknownPacket        // "[Protocol Sync] Unknown packet"
    | SyncIdViolation      // "[Protocol Sync] Packet with id 1 must be ProtocolSyncPacket"
    | HandlerRaised        // whatever a user's event handler raises

  datatype Result<T> = Ok(value: T) | Err(error: Error)

  datatype Outcome = Pass | Fail(error: Error)

  datatype Option<T> = None | Some(value: T)

  function Pow256(w: nat): (r: nat)
    ensures r >= 1
  {
    if w == 0 then 1 else 256 * Pow256(w - 1)
  }

  /** `v.to_bytes(w, "big")` for a value that fits. */
  function ToBE(v: nat, w: nat): (r: seq<byte>)
    requires v < Pow256(w)
    ensures |r| == w
  {
    if w == 0 then [] else ToBE(v / 256, w - 1) + [v % 256]
  }

  /** `int.from_bytes(b, "big")`: any length, the empty sequence reads as 0. */
  function FromBE(b: seq<byte>): (r: nat)
    ensures r < Pow256(|b|)
  {
    if b == [] then 0 else FromBE(b[..|b| - 1]) * 256 + b[|b| - 1]
  }

  /** `v.to_bytes(w, "big")` as the source calls it: unsigned, so a negative or
      too wide value raises. */
  function EncodeUint(v: int, w: nat): (r: Result<seq<byte>>)
    ensures r.Ok? <==> 0 <= v < Pow256(w)
    ensures r.Ok? ==> |r.value| == w && FromBE(r.value) == v
  {
    if 0 <= v < Pow256(w) then
      FromToBE(v, w);
      Ok(ToBE(v, w))
    else Err(OverflowError)
  }

  lemma {:induction false} FromToBE(v: nat, w: nat)
    requires v < Pow256(w)
    ensures FromBE(ToBE(v, w)) == v
  {
    if w > 0 {
      var r := ToBE(v, w);
      assert r[..|r| - 1] == ToBE(v / 256, w - 1);
      FromToBE(v / 256, w - 1);
    }
  }

  lemma {:induction false} ToFromBE(b: seq<byte>)
    ensures ToBE(FromBE(b), |b|) == b
  {
    if b != [] {
      var init := b[..|b| - 1];
      var last := b[|b| - 1];
      ToFromBE(init);
      DivMod256(FromBE(init), last as int);
      assert ToBE(FromBE(b), |b|) == ToBE(FromBE(init), |init|) + [last];
      assert b == init + [last];
    }
  }

  /** A number written as `q` in the high part and `r` in the last byte. */
  lemma DivMod256(q: nat, r: nat)
    requires r < 256
    ensures (q * 256 + r) / 256 == q && (q * 256 + r) % 256 == r
  {
  }

  /** `buf.read(n)` on a buffer positioned at `pos`: the bytes read and the new
      position. Short input is not an error. */
  function Read(s: seq<byte>, pos: nat, n: nat): (r: (seq<byte>, nat))
    requires pos <= |s|
    ensures r.1 == if pos + n <= |s| then pos + n else |s|
    ensures r.0 == s[pos..r.1] && |r.0| <= n
    ensures pos <= r.1 <= |s|
  {
    var end := if pos + n <= |s| then pos + n else |s|;
    (s[pos..end], end)
  }

  /** Four bytes 0xFF: the signed -1 length the source writes for an empty string. */
  const MinusOne: seq<byte> := [255, 255, 255, 255]

  lemma MinusOneReadsUnsigned()
    ensures FromBE(MinusOne) == 0xFFFF_FFFF
  {
    assert [255, 255, 255, 255][..3] == [255, 255, 255];
    assert [255, 255, 255][..2] == [255, 255];
    assert [255, 255][..1] == [255];
    assert FromBE([255]) == 255 by { assert [255][..0] == []; }
    assert FromBE([255, 255]) == 0xFFFF;
    assert FromBE([255, 255, 255]) == 0xFF_FFFF;
  }
}
