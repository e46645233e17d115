/**
 * What the two face-channel builds (with and without datagrams) share: their
 * timing constants and the guaranteed-delivery `Header` union,
 * `sequence:3`, `ack_sequence:3`, `postpone_sleep:1`, `non_special:1`,
 * packed into one byte from the least significant bit up (GCC's layout on
 * AVR), so `sequence` is bits 0-2 and `non_special` is bit 7.
 */
module IrHeader {
  import opened Common

  /** Blind resend period when nothing arrives. */
  const TX_PROBE_TIME_MS: u32 := 150

  /** A face with no packet for this long counts as expired. */
  const RX_EXPIRE_TIME_MS: u32 := 200

  /** A postpone-sleep request is passed on at most once per lockout period. */
  const SEND_POSTPONE_WARM_SLEEP_LOCKOUT_MS: u32 := 2000

  /** What a received packet asks of the rest of the tile besides its own face. */
  datatype Request = Quiet | Postpone | Sleep

  /** A 3-bit sequence number. */
  type Seq3 = x: int | 0 <= x < 8

  datatype Header = Header(sequence: Seq3, ackSequence: Seq3, postponeSleep: bool, nonSpecial: bool)

  /** The header's `as_byte` view. */
  function Encode(h: Header): (b: byte)
    ensures b & 0x80 != 0 <==> h.nonSpecial
    ensures b & 0x40 != 0 <==> h.postponeSleep
  {
    (h.sequence as bv8) | ((h.ackSequence as bv8) << 3)
      | (if h.postponeSleep then 0x40 else 0) | (if h.nonSpecial then 0x80 else 0)
  }

  /** The header read from a received byte (`incoming_header.as_byte = ...`). */
  function Decode(b: byte): (h: Header)
    ensures h.nonSpecial <==> b & 0x80 != 0
    ensures h.postponeSleep <==> b & 0x40 != 0
  {
    Header((b & 7) as int, ((b >> 3) & 7) as int, b & 0x40 != 0, b & 0x80 != 0)
  }

  /** Reading back a written header gives every field back. */
  lemma DecodeEncode(h: Header)
    ensures Decode(Encode(h)) == h
  {
    var b := Encode(h);
    assert b & 7 == h.sequence as bv8;
    assert (b >> 3) & 7 == h.ackSequence as bv8;
  }

  /** Every byte is some header: writing back a read header gives the byte back. */
  lemma EncodeDecode(b: byte)
    ensures Encode(Decode(b)) == b
  {
    var h := Decode(b);
    assert (h.sequence as bv8) == b & 7;
    assert (h.ackSequence as bv8) == (b >> 3) & 7;
  }

  /** The sequence number `sendDatagramOnFace` moves to: `(sequence % 7) + 1`. */
  function NextSequence(s: Seq3): (n: Seq3)
    ensures 1 <= n <= 7 && n != s
  {
    s % 7 + 1
  }
}
