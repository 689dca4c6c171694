/** The MIDI primitive codec: variable-length quantities (Standard MIDI
    Files 1.0, "Variable-Length Quantities"), channel events with running
    status (MIDI 1.0 Detailed Specification, "Running Status") and the track
    events of a Standard MIDI File together with the cursor that reads them
    back.  The caller's output buffers are arrays written from a running
    index. */
module MidiCodec {
  import opened Bytes

  // ---------------------------------------------------------------------------
  // Arithmetic helpers
  // ---------------------------------------------------------------------------

  /** Splitting a number at bit 14, 21 or 28. */
  lemma DivMod14(x: int, q: int, r: int)
    requires 0 <= r < 0x4000 && x == q * 0x4000 + r
    ensures x / 0x4000 == q
  {
  }

  lemma DivMod21(x: int, q: int, r: int)
    requires 0 <= r < 0x20_0000 && x == q * 0x20_0000 + r
    ensures x / 0x20_0000 == q
  {
  }

  lemma DivMod28(x: int, q: int, r: int)
    requires 0 <= r < 0x1000_0000 && x == q * 0x1000_0000 + r
    ensures x / 0x1000_0000 == q
  {
  }

  /** `value << 7` on a 32-bit unsigned value: the top seven bits fall off. */
  function Shl7(x: Uint32): (r: Uint32)
    ensures r % 0x80 == 0
  {
    (x % 0x200_0000) * 0x80
  }

  /** Below 2^25 no bit falls off. */
  lemma Shl7Exact(x: Uint32)
    requires x < 0x200_0000
    ensures Shl7(x) == x * 0x80
  {
  }

  // ---------------------------------------------------------------------------
  // Variable-length quantities
  // ---------------------------------------------------------------------------

  /** The groups `midi_vlq_encode` emits: one byte per 7-bit group from the
      highest non-zero one down, bit 7 set on all but the last. */
  function VlqBytes(v: Uint32): (r: seq<Byte>)
    ensures 1 <= |r| <= 5
  {
    (if v >= 0x1000_0000 then [v / 0x1000_0000 % 0x80 + 0x80] else [])
    + (if v >= 0x20_0000 then [v / 0x20_0000 % 0x80 + 0x80] else [])
    + (if v >= 0x4000 then [v / 0x4000 % 0x80 + 0x80] else [])
    + (if v >= 0x80 then [v / 0x80 % 0x80 + 0x80] else [])
    + [v % 0x80]
  }

  /** 128^n. */
  function Pow128(n: nat): nat
  {
    if n == 0 then 1 else 0x80 * Pow128(n - 1)
  }

  /** The encoding is big-endian in 7-bit groups, uses the fewest groups that
      hold the value, marks every byte but the last with bit 7, and encodes 0
      as the single byte 0x00. */
  lemma VlqShape(v: Uint32)
    ensures var r := VlqBytes(v);
            && (forall k | 0 <= k < |r| - 1 :: r[k] >= 0x80)
            && r[|r| - 1] < 0x80
            && v < Pow128(|r|)
            && (|r| == 1 || v >= Pow128(|r| - 1))
            && (v == 0 ==> r == [0])
  {
    assert Pow128(1) == 0x80;
    assert Pow128(2) == 0x4000;
    assert Pow128(3) == 0x20_0000;
    assert Pow128(4) == 0x1000_0000;
    assert Pow128(5) == 0x8_0000_0000;
  }

  /** The accumulation loop of `midi_vlq_decode` from byte `i` with `acc` so far. */
  function VlqFrom(s: seq<Byte>, i: nat, acc: Uint32): (r: Option<(Uint32, nat)>)
    ensures r.Some? ==> i < r.value.1 <= |s| && r.value.1 <= 5
    decreases 5 - i
  {
    if i < 5 && i < |s| then
      var v := Shl7(acc) + s[i] % 0x80;
      if s[i] < 0x80 then Some((v, i + 1)) else VlqFrom(s, i + 1, v)
    else None
  }

  /** `midi_vlq_decode`: the value and the bytes used, or -1 (`None`). */
  function VlqDecodeF(s: seq<Byte>): (r: Option<(Uint32, nat)>)
    ensures r.Some? ==> 1 <= r.value.1 <= |s| && r.value.1 <= 5
  {
    if |s| == 0 then None else VlqFrom(s, 0, 0)
  }

  /** The decoder fails exactly when none of the first min(5, len) bytes ends
      a quantity; otherwise it uses the bytes up to the first one with bit 7 clear. */
  lemma {:induction false} VlqFromFails(s: seq<Byte>, i: nat, acc: Uint32)
    requires i <= 5
    ensures VlqFrom(s, i, acc).None? <==> forall k | i <= k < 5 && k < |s| :: s[k] >= 0x80
    ensures VlqFrom(s, i, acc).Some? ==>
              var n := VlqFrom(s, i, acc).value.1;
              i < n <= 5 && n <= |s| && s[n - 1] < 0x80 && forall k | i <= k < n - 1 :: s[k] >= 0x80
    decreases 5 - i
  {
    if i < 5 && i < |s| && s[i] >= 0x80 {
      VlqFromFails(s, i + 1, Shl7(acc) + s[i] % 0x80);
    }
  }

  lemma VlqDecodeFails(s: seq<Byte>)
    ensures VlqDecodeF(s).None? <==> |s| == 0 || forall k | 0 <= k < 5 && k < |s| :: s[k] >= 0x80
    ensures VlqDecodeF(s).Some? ==> 1 <= VlqDecodeF(s).value.1 <= 5 && VlqDecodeF(s).value.1 <= |s|
  {
    VlqFromFails(s, 0, 0);
  }

  /** Decoding an encoding reads the value back and uses exactly its bytes,
      whatever follows them. */
  lemma VlqRoundTrip(v: Uint32, rest: seq<Byte>)
    ensures VlqDecodeF(VlqBytes(v) + rest) == Some((v, |VlqBytes(v)|))
  {
    if v < 0x80 {
      assert (VlqBytes(v) + rest)[0] == v;
    } else if v < 0x4000 {
      VlqRoundTrip2(v, rest);
    } else if v < 0x20_0000 {
      VlqRoundTrip3(v, rest);
    } else if v < 0x1000_0000 {
      VlqRoundTrip4(v, rest);
    } else {
      VlqRoundTrip5(v, rest);
    }
  }

  /** One continuation byte of the decoder's loop. */
  lemma VlqContinue(s: seq<Byte>, i: nat, acc: Uint32, next: Uint32)
    requires i < 4 && i < |s| && s[i] >= 0x80 && acc < 0x200_0000
    requires next == acc * 0x80 + s[i] - 0x80
    ensures VlqFrom(s, i, acc) == VlqFrom(s, i + 1, next)
  {
    Shl7Exact(acc);
  }

  /** The final byte of a quantity. */
  lemma VlqLast(s: seq<Byte>, i: nat, acc: Uint32, v: Uint32)
    requires i < 5 && i < |s| && s[i] < 0x80 && acc < 0x200_0000
    requires v == acc * 0x80 + s[i]
    ensures VlqFrom(s, i, acc) == Some((v, i + 1))
  {
    Shl7Exact(acc);
  }

  lemma VlqRoundTrip2(v: Uint32, rest: seq<Byte>)
    requires 0x80 <= v < 0x4000
    ensures VlqDecodeF(VlqBytes(v) + rest) == Some((v, 2))
  {
    var s := VlqBytes(v) + rest;
    var q1 := v / 0x80;
    assert s[0] == q1 + 0x80 && s[1] == v % 0x80;
    VlqContinue(s, 0, 0, q1);
    VlqLast(s, 1, q1, v);
  }

  lemma VlqRoundTrip3(v: Uint32, rest: seq<Byte>)
    requires 0x4000 <= v < 0x20_0000
    ensures VlqDecodeF(VlqBytes(v) + rest) == Some((v, 3))
  {
    var s := VlqBytes(v) + rest;
    var q1 := v / 0x80;
    var q2 := q1 / 0x80;
    DivMod14(v, q2, q1 % 0x80 * 0x80 + v % 0x80);
    assert s[0] == q2 + 0x80 && s[1] == q1 % 0x80 + 0x80 && s[2] == v % 0x80;
    VlqContinue(s, 0, 0, q2);
    VlqContinue(s, 1, q2, q1);
    VlqLast(s, 2, q1, v);
  }

  lemma VlqRoundTrip4(v: Uint32, rest: seq<Byte>)
    requires 0x20_0000 <= v < 0x1000_0000
    ensures VlqDecodeF(VlqBytes(v) + rest) == Some((v, 4))
  {
    var s := VlqBytes(v) + rest;
    var q1 := v / 0x80;
    var q2 := q1 / 0x80;
    var q3 := q2 / 0x80;
    DivMod14(v, q2, q1 % 0x80 * 0x80 + v % 0x80);
    DivMod21(v, q3, (q2 % 0x80 * 0x80 + q1 % 0x80) * 0x80 + v % 0x80);
    assert s[0] == q3 + 0x80 && s[1] == q2 % 0x80 + 0x80 && s[2] == q1 % 0x80 + 0x80 && s[3] == v % 0x80;
    assert q3 * 0x80 + s[1] - 0x80 == q2 && q2 * 0x80 + s[2] - 0x80 == q1 && q1 * 0x80 + s[3] == v;
    VlqContinue(s, 0, 0, q3);
    VlqContinue(s, 1, q3, q2);
    VlqContinue(s, 2, q2, q1);
    VlqLast(s, 3, q1, v);
  }

  lemma VlqRoundTrip5(v: Uint32, rest: seq<Byte>)
    requires 0x1000_0000 <= v
    ensures VlqDecodeF(VlqBytes(v) + rest) == Some((v, 5))
  {
    var s := VlqBytes(v) + rest;
    var q1 := v / 0x80;
    var q2 := q1 / 0x80;
    var q3 := q2 / 0x80;
    var q4 := q3 / 0x80;
    DivMod14(v, q2, q1 % 0x80 * 0x80 + v % 0x80);
    DivMod21(v, q3, (q2 % 0x80 * 0x80 + q1 % 0x80) * 0x80 + v % 0x80);
    DivMod28(v, q4, ((q3 % 0x80 * 0x80 + q2 % 0x80) * 0x80 + q1 % 0x80) * 0x80 + v % 0x80);
    assert s[0] == q4 + 0x80 && s[1] == q3 % 0x80 + 0x80 && s[2] == q2 % 0x80 + 0x80;
    assert s[3] == q1 % 0x80 + 0x80 && s[4] == v % 0x80;
    VlqFive(s, q4, q3, q2, q1, v);
  }

  /** Five bytes whose groups accumulate to `q4`, `q3`, `q2`, `q1` and `v`. */
  lemma VlqFive(s: seq<Byte>, q4: Uint32, q3: Uint32, q2: Uint32, q1: Uint32, v: Uint32)
    requires |s| >= 5 && s[0] >= 0x80 && s[1] >= 0x80 && s[2] >= 0x80 && s[3] >= 0x80 && s[4] < 0x80
    requires q4 == s[0] - 0x80 && q3 == q4 * 0x80 + s[1] - 0x80 && q2 == q3 * 0x80 + s[2] - 0x80
    requires q1 == q2 * 0x80 + s[3] - 0x80 && v == q1 * 0x80 + s[4]
    ensures VlqDecodeF(s) == Some((v, 5))
  {
    VlqContinue(s, 0, 0, q4);
    VlqContinue(s, 1, q4, q3);
    VlqContinue(s, 2, q3, q2);
    VlqContinue(s, 3, q2, q1);
    VlqLast(s, 4, q1, v);
  }

  /** `midi_vlq_encode` into `out` from index `at`: the count of bytes written. */
  method VlqEncode(value: Uint32, out: array<Byte>, at: nat) returns (n: nat)
    requires at + |VlqBytes(value)| <= out.Length
    modifies out
    ensures n == |VlqBytes(value)| && out[..] == old(out[..at]) + VlqBytes(value) + old(out[at + n..])
  {
    var i := at;
    if value >= 0x1000_0000 {
      out[i] := value / 0x1000_0000 % 0x80 + 0x80;
      i := i + 1;
    }
    if value >= 0x20_0000 {
      out[i] := value / 0x20_0000 % 0x80 + 0x80;
      i := i + 1;
    }
    if value >= 0x4000 {
      out[i] := value / 0x4000 % 0x80 + 0x80;
      i := i + 1;
    }
    if value >= 0x80 {
      out[i] := value / 0x80 % 0x80 + 0x80;
      i := i + 1;
    }
    out[i] := value % 0x80;
    i := i + 1;
    n := i - at;
    assert out[at..at + n] == VlqBytes(value);
    ThreeParts(out[..], at, at + n);
  }

  /** A sequence is its prefix, middle and suffix put back together. */
  lemma ThreeParts(a: seq<Byte>, i: nat, j: nat)
    requires i <= j <= |a|
    ensures a == a[..i] + a[i..j] + a[j..]
  {
  }

  /** `midi_vlq_decode` on the `len` bytes `s`: the count of bytes used and
      the value, or -1. */
  method VlqDecode(s: seq<Byte>) returns (n: int, value: Uint32)
    ensures VlqDecodeF(s).None? ==> n == -1
    ensures VlqDecodeF(s).Some? ==> n == VlqDecodeF(s).value.1 && value == VlqDecodeF(s).value.0
  {
    value := 0;
    if |s| == 0 {
      return -1, 0;
    }
    var i := 0;
    while i < 5 && i < |s|
      invariant 0 <= i <= 5
      invariant VlqFrom(s, i, value) == VlqFrom(s, 0, 0)
      decreases 5 - i
    {
      var b := s[i];
      value := Shl7(value) + b % 0x80;
      if b < 0x80 {
        return i + 1, value;
      }
      i := i + 1;
    }
    return -1, value;
  }

  // ---------------------------------------------------------------------------
  // Channel messages
  // ---------------------------------------------------------------------------

  /** The message kinds (`MIDI_NOTE_OFF` .. `MIDI_PITCH_BEND`): the high
      nibble of a status byte. */
  const NoteOff: Byte := 0x8
  const NoteOn: Byte := 0x9
  const PolyPressure: Byte := 0xA
  const Controller: Byte := 0xB
  const Program: Byte := 0xC
  const ChanPressure: Byte := 0xD
  const PitchBend: Byte := 0xE

  /** `midi_event_t`: kind, channel and the two bytes of the `as` union.  On
      a little-endian machine the union's `pitch_bend` is `d0 + 256 * d1`. */
  datatype MidiEvent = MidiEvent(kind: Byte, channel: Byte, d0: Byte, d1: Byte)

  /** The zero-initialised event the header demands before use. */
  const ZeroEvent := MidiEvent(0, 0, 0, 0)

  function PitchBendValue(e: MidiEvent): Uint16
  {
    e.d0 + 0x100 * e.d1
  }

  /** Kinds with two data bytes, one data byte, or neither (unknown). */
  predicate TwoDataBytes(kind: Byte)
  {
    NoteOff <= kind <= Controller || kind == PitchBend
  }

  predicate OneDataByte(kind: Byte)
  {
    kind == Program || kind == ChanPressure
  }

  predicate KnownKind(kind: Byte)
  {
    NoteOff <= kind <= PitchBend
  }

  /** The status byte `(kind << 4) | channel`, truncated to eight bits. */
  function StatusByte(kind: Byte, channel: Byte): Byte
  {
    Or8(kind * 0x10 % 0x100, channel)
  }

  /** With a kind and a channel below 16 the two nibbles do not overlap. */
  lemma StatusByteValue(kind: Byte, channel: Byte)
    requires kind < 0x10 && channel < 0x10
    ensures StatusByte(kind, channel) == kind * 0x10 + channel
    ensures StatusByte(kind, channel) / 0x10 == kind && StatusByte(kind, channel) % 0x10 == channel
  {
    assert Pow2(4) == 0x10;
    BitOrDisjoint(kind, channel, 4);
    assert kind * 0x10 % 0x100 == kind * 0x10;
    assert Or8(kind * 0x10, channel) == kind * 0x10 + channel;
  }

  /** The two data bytes of a pitch bend as `midi_event_to_bytes` writes
      them: the low eight bits, then the value shifted right by seven,
      truncated to eight bits. */
  function PitchBendBytesAsWritten(pb: Uint16): (r: seq<Byte>)
    ensures |r| == 2
  {
    [pb % 0x100, pb / 0x80 % 0x100]
  }

  /** The two data bytes of a pitch bend as MIDI defines them: the low seven
      bits, then the next seven. */
  function PitchBendBytes(pb: Uint16): (r: seq<Byte>)
    ensures |r| == 2 && r[0] < 0x80 && r[1] < 0x80
    ensures pb < 0x4000 ==> r[0] + (r[1] as int) * 0x80 == pb
  {
    [pb % 0x80, pb / 0x80 % 0x80]
  }

  /** The data bytes of a message of a known kind, `None` otherwise. */
  function DataBytes(e: MidiEvent): (r: Option<seq<Byte>>)
    ensures r.Some? <==> KnownKind(e.kind)
    ensures r.Some? ==> |r.value| == (if TwoDataBytes(e.kind) then 2 else 1)
  {
    if NoteOff <= e.kind <= Controller then Some([e.d0, e.d1])
    else if OneDataByte(e.kind) then Some([e.d0])
    else if e.kind == PitchBend then Some(PitchBendBytes(PitchBendValue(e)))
    else None
  }

  /** `midi_event_to_bytes`: the status byte unless `rolling`, then the data
      bytes; `None` (-1) for an unknown kind. */
  function EventBytes(e: MidiEvent, rolling: bool): (r: Option<seq<Byte>>)
    ensures r.Some? <==> KnownKind(e.kind)
    ensures r.Some? ==> |r.value| == (if rolling then 0 else 1) + |DataBytes(e).value|
    ensures r.Some? && !rolling ==> r.value[0] == StatusByte(e.kind, e.channel) && r.value[1..] == DataBytes(e).value
    ensures r.Some? && rolling ==> r.value == DataBytes(e).value
  {
    match DataBytes(e)
    case None => None
    case Some(d) => Some(if rolling then d else [StatusByte(e.kind, e.channel)] + d)
  }

  /** The copy loop at the end of `midi_event_to_bytes`, and `memcpy`:
      `len` bytes of `src` to `out` from index `at`. */
  method CopyOut(src: seq<Byte>, out: array<Byte>, at: nat)
    requires at + |src| <= out.Length
    modifies out
    ensures out[..] == old(out[..at]) + src + old(out[at + |src|..])
  {
    var i := 0;
    while i < |src|
      invariant 0 <= i <= |src|
      invariant forall k | 0 <= k < out.Length :: out[k] == if at <= k < at + i then src[k - at] else old(out[k])
    {
      out[at + i] := src[i];
      i := i + 1;
    }
    assert out[..] == old(out[..at]) + src + old(out[at + |src|..]);
  }

  /** `midi_event_to_bytes` into `out` from index `at`: stages the bytes in a
      three-byte buffer and copies them out. */
  method EventToBytes(e: MidiEvent, out: array<Byte>, at: nat, rolling: bool) returns (n: int)
    requires EventBytes(e, rolling).Some? ==> at + |EventBytes(e, rolling).value| <= out.Length
    modifies out
    ensures EventBytes(e, rolling).None? ==> n == -1 && out[..] == old(out[..])
    ensures EventBytes(e, rolling).Some? ==>
              n == |EventBytes(e, rolling).value|
              && out[..] == old(out[..at]) + EventBytes(e, rolling).value + old(out[at + n..])
  {
    var staged := new Byte[3](_ => 0);
    var len := 0;
    if !rolling {
      staged[0] := StatusByte(e.kind, e.channel);
      len := 1;
    }
    if NoteOff <= e.kind <= Controller {
      staged[len] := e.d0;
      staged[len + 1] := e.d1;
      len := len + 2;
    } else if OneDataByte(e.kind) {
      staged[len] := e.d0;
      len := len + 1;
    } else if e.kind == PitchBend {
      var pb := PitchBendValue(e);
      staged[len] := pb % 0x80;
      staged[len + 1] := pb / 0x80 % 0x80;
      len := len + 2;
    } else {
      return -1;
    }
    assert staged[..len] == EventBytes(e, rolling).value;
    CopyOut(staged[..len], out, at);
    n := len;
  }

  /** `b1 | (b2 << 7)` stored in the sixteen-bit `pitch_bend`. */
  function PitchBendFrom(lo: Byte, hi: Byte): (r: Uint16)
  {
    assert Pow2(15) == 0x8000;
    BitOrBound(lo, hi * 0x80, 15);
    BitOr(lo, hi * 0x80)
  }

  /** A low byte with bit 7 clear does not overlap the shifted high byte. */
  lemma PitchBendJoin(lo: Byte, hi: Byte)
    requires lo < 0x80
    ensures PitchBendFrom(lo, hi) == lo + hi * 0x80
  {
    assert Pow2(7) == 0x80;
    BitOrCommutes(lo, hi * 0x80);
    BitOrDisjoint(hi, lo, 7);
  }

  /** The data part shared by `midi_event_from_bytes` and its running-status
      variant: decodes the data bytes `s` after `status` into the event
      `prev` (bytes a kind does not carry keep their old value), with the
      count of data bytes used. */
  function DecodeData(prev: MidiEvent, status: Byte, s: seq<Byte>): (r: Option<(MidiEvent, nat)>)
    requires |s| >= 1
    ensures r.None? <==> TwoDataBytes(status / 0x10) && |s| < 2
    ensures r.Some? ==> r.value.1 <= |s| && r.value.0.kind == status / 0x10 && r.value.0.channel == status % 0x10
    ensures r.Some? ==> (r.value.1 == 0 <==> !KnownKind(status / 0x10))
  {
    var kind := status / 0x10;
    var chan := status % 0x10;
    if NoteOff <= kind <= Controller then
      if |s| < 2 then None else Some((MidiEvent(kind, chan, s[0], s[1]), 2))
    else if OneDataByte(kind) then
      Some((MidiEvent(kind, chan, s[0], prev.d1), 1))
    else if kind == PitchBend then
      if |s| < 2 then None
      else
        var pb := PitchBendFrom(s[0], s[1]);
        Some((MidiEvent(kind, chan, pb % 0x100, pb / 0x100), 2))
    else
      Some((MidiEvent(kind, chan, prev.d0, prev.d1), 0))
  }

  /** `midi_event_from_bytes`: status byte first; the bytes used, or `None` (-1). */
  function EventFromBytes(prev: MidiEvent, s: seq<Byte>): (r: Option<(MidiEvent, nat)>)
    ensures r.Some? ==> 1 <= r.value.1 <= |s|
  {
    if |s| < 2 then None
    else match DecodeData(prev, s[0], s[1..])
      case None => None
      case Some((e, used)) => Some((e, used + 1))
  }

  /** `midi_event_from_bytes_rolling`: the status byte is the one in effect. */
  function EventFromBytesRolling(prev: MidiEvent, status: Byte, s: seq<Byte>): (r: Option<(MidiEvent, nat)>)
    ensures r.Some? ==> r.value.1 <= |s|
  {
    if |s| == 0 then None else DecodeData(prev, status, s)
  }

  /** The events the encoder and decoder agree on: a known kind, a channel
      that fits its nibble, a zero second byte where the kind has only one,
      and a fourteen-bit pitch bend. */
  predicate Canonical(e: MidiEvent)
  {
    KnownKind(e.kind) && e.channel < 0x10
    && (OneDataByte(e.kind) ==> e.d1 == 0)
    && (e.kind == PitchBend ==> PitchBendValue(e) < 0x4000)
  }

  /** The caller's event `prev` after the bytes of `e` are decoded into
      it: a kind with one data byte writes only the first byte of the
      union, so the second keeps its old value. */
  function Overlay(e: MidiEvent, prev: MidiEvent): (r: MidiEvent)
    ensures r.kind == e.kind && r.channel == e.channel && r.d0 == e.d0
    ensures r.d1 == (if OneDataByte(e.kind) then prev.d1 else e.d1)
    ensures prev.d1 == e.d1 ==> r == e
  {
    if OneDataByte(e.kind) then e.(d1 := prev.d1) else e
  }

  lemma DataRoundTrip(prev: MidiEvent, e: MidiEvent, rest: seq<Byte>)
    requires Canonical(e)
    ensures DecodeData(prev, StatusByte(e.kind, e.channel), DataBytes(e).value + rest)
            == Some((Overlay(e, prev), |DataBytes(e).value|))
  {
    StatusByteValue(e.kind, e.channel);
    var s := DataBytes(e).value + rest;
    if e.kind == PitchBend {
      var pb := PitchBendValue(e);
      assert s[0] + (s[1] as int) * 0x80 == pb;
      PitchBendJoin(s[0], s[1]);
      DivMod256(pb, e.d1, e.d0);
    }
  }

  /** Decoding an encoded message into the event `prev` gives it back, up
      to the second union byte a one-byte message leaves alone, and uses
      exactly its bytes, with and without running status.  Into a zeroed
      event it gives the message back exactly. */
  lemma EventRoundTrip(prev: MidiEvent, e: MidiEvent, rest: seq<Byte>)
    requires Canonical(e)
    ensures EventFromBytes(prev, EventBytes(e, false).value + rest)
            == Some((Overlay(e, prev), |EventBytes(e, false).value|))
    ensures EventFromBytesRolling(prev, StatusByte(e.kind, e.channel), EventBytes(e, true).value + rest)
            == Some((Overlay(e, prev), |EventBytes(e, true).value|))
    ensures Overlay(e, ZeroEvent) == e
  {
    var s := EventBytes(e, false).value + rest;
    assert s[1..] == DataBytes(e).value + rest;
    DataRoundTrip(prev, e, rest);
  }

  /** The pitch bend the decoder joins from two data bytes with bit 7 clear
      splits back into the same two bytes. */
  lemma PitchBendSplit(lo: Byte, hi: Byte)
    requires lo < 0x80 && hi < 0x80
    ensures var pb := PitchBendFrom(lo, hi);
            pb < 0x4000 && PitchBendBytes(pb) == [lo, hi]
  {
    PitchBendJoin(lo, hi);
  }

  lemma DataBytesOfDecoded(status: Byte, d: seq<Byte>)
    requires 0x80 <= status < 0xF0 && |d| >= 1
    requires forall k | 0 <= k < |d| :: d[k] < 0x80
    requires DecodeData(ZeroEvent, status, d).Some?
    ensures var (e, n) := DecodeData(ZeroEvent, status, d).value;
            Canonical(e) && DataBytes(e) == Some(d[..n])
  {
    var (e, n) := DecodeData(ZeroEvent, status, d).value;
    if e.kind == PitchBend {
      PitchBendSplit(d[0], d[1]);
      assert d[..n] == [d[0], d[1]];
    } else if TwoDataBytes(e.kind) {
      assert d[..n] == [d[0], d[1]];
    } else {
      assert d[..n] == [d[0]];
    }
  }

  /** Conversely, a message decoded from a status byte and data bytes with
      bit 7 clear encodes back to exactly those bytes. */
  lemma EventBytesOfDecoded(s: seq<Byte>)
    requires |s| >= 1 && 0x80 <= s[0] < 0xF0
    requires forall k | 1 <= k < |s| :: s[k] < 0x80
    requires EventFromBytes(ZeroEvent, s).Some?
    ensures var (e, n) := EventFromBytes(ZeroEvent, s).value;
            Canonical(e) && EventBytes(e, false) == Some(s[..n])
  {
    var d := s[1..];
    DataBytesOfDecoded(s[0], d);
    var (e, used) := DecodeData(ZeroEvent, s[0], d).value;
    StatusByteValue(s[0] / 0x10, s[0] % 0x10);
    assert s[..used + 1] == [s[0]] + d[..used];
  }

  // ---------------------------------------------------------------------------
  // Track events
  // ---------------------------------------------------------------------------

  /** `track_event_t`.  `data` stands for the `data` pointer: the bytes that
      can be read from it onwards. */
  datatype TrackEvent =
    | Midi(delta: Uint32, midi: MidiEvent)
    | Sysex(delta: Uint32, length: Uint32, data: seq<Byte>)
    | Meta(delta: Uint32, mtype: Byte, length: Uint32, data: seq<Byte>)

  /** The payload of a system-exclusive or meta event can be read in full. */
  predicate PayloadReadable(e: TrackEvent)
  {
    e.Midi? || e.length <= |e.data|
  }

  /** `track_event_get_storage_size`: delta, status, and what each kind adds
      (a meta event's type byte, a payload's length and bytes, the 0xF7 that
      ends a system-exclusive message), in 32-bit arithmetic. */
  function StorageSize(e: TrackEvent): Uint32
  {
    var head := |VlqBytes(e.delta)| + 1;
    (match e
     case Midi(_, m) => head + (if TwoDataBytes(m.kind) then 2 else if OneDataByte(m.kind) then 1 else 0)
     case Meta(_, _, length, _) => head + 1 + |VlqBytes(length)| + length
     case Sysex(_, length, _) => head + |VlqBytes(length)| + length + 1) % Two32
  }

  /** What `track_event_to_bytes` writes after the delta: the message, or
      0xFF, the type, the length and the payload, or 0xF0, the length and
      the payload; `None` for an unknown MIDI kind. */
  function BodyBytes(e: TrackEvent): (r: Option<seq<Byte>>)
    requires PayloadReadable(e)
    ensures r.None? <==> e.Midi? && !KnownKind(e.midi.kind)
  {
    match e
    case Midi(_, m) => EventBytes(m, false)
    case Meta(_, t, length, data) => Some(PayloadBytes([0xFF, t], length, data))
    case Sysex(_, length, data) => Some(PayloadBytes([0xF0], length, data))
  }

  /** `track_event_to_bytes` with the error of an unknown MIDI kind passed
      on: the delta, then the body. */
  function TrackEventBytes(e: TrackEvent): (r: Option<seq<Byte>>)
    requires PayloadReadable(e)
    ensures r.None? <==> e.Midi? && !KnownKind(e.midi.kind)
    ensures r.Some? ==> |VlqBytes(e.delta)| <= |r.value| && r.value[..|VlqBytes(e.delta)|] == VlqBytes(e.delta)
  {
    match BodyBytes(e)
    case None => None
    case Some(b) => Some(VlqBytes(e.delta) + b)
  }

  /** What follows the delta of a meta or system-exclusive event: its lead
      bytes, the payload's length and the payload. */
  function PayloadBytes(lead: seq<Byte>, length: Uint32, data: seq<Byte>): (r: seq<Byte>)
    requires length <= |data|
    ensures |r| == |lead| + |VlqBytes(length)| + length
  {
    lead + VlqBytes(length) + data[..length]
  }

  /** The value `track_event_to_bytes` returns as written: for a MIDI event
      it returns `midi_event_to_bytes(...) + n`, so the -1 of an unknown kind
      comes back as the delta's length minus one. */
  function TrackEventResultAsWritten(e: TrackEvent): (r: int)
    requires PayloadReadable(e)
  {
    match e
    case Midi(delta, m) =>
      (match EventBytes(m, false)
       case None => -1 + |VlqBytes(delta)|
       case Some(b) => |b| + |VlqBytes(delta)|)
    case _ => |TrackEventBytes(e).value|
  }

  /** As written, an unknown MIDI kind is reported as success: the result is
      not negative although nothing but the delta was written. */
  lemma TrackEventResultAsWrittenHidesError()
    ensures TrackEventBytes(Midi(0, ZeroEvent)).None?
    ensures TrackEventResultAsWritten(Midi(0, ZeroEvent)) == 0
  {
  }

  /** Everywhere else the written result is the size of the encoding, and
      it is negative for an unknown kind only when the delta takes no byte,
      which never happens. */
  lemma TrackEventResultAsWrittenElsewhere(e: TrackEvent)
    requires PayloadReadable(e)
    ensures TrackEventBytes(e).Some? ==> TrackEventResultAsWritten(e) == |TrackEventBytes(e).value|
    ensures TrackEventBytes(e).None? ==> TrackEventResultAsWritten(e) >= 0
  {
  }

  /** The storage size counts exactly the bytes written for a MIDI or meta
      event, and one more than are written for a system-exclusive one: the
      0xF7 that `track_event_to_bytes` never writes. */
  lemma StorageSizeCounts(e: TrackEvent)
    requires PayloadReadable(e)
    ensures e.Midi? && KnownKind(e.midi.kind) ==> StorageSize(e) == |TrackEventBytes(e).value|
    ensures e.Meta? ==> StorageSize(e) == |TrackEventBytes(e).value| % Two32
    ensures e.Sysex? ==> StorageSize(e) == (|TrackEventBytes(e).value| + 1) % Two32
    ensures e.Midi? && !KnownKind(e.midi.kind) ==> StorageSize(e) == |VlqBytes(e.delta)| + 1
  {
    match e
    case Midi(_, m) => MidiStorageSize(e);
    case Meta(_, _, length, data) =>
      assert |TrackEventBytes(e).value| == |VlqBytes(e.delta)| + 2 + |VlqBytes(length)| + length;
    case Sysex(_, length, data) =>
      assert |TrackEventBytes(e).value| == |VlqBytes(e.delta)| + 1 + |VlqBytes(length)| + length;
  }

  lemma MidiStorageSize(e: TrackEvent)
    requires e.Midi?
    ensures KnownKind(e.midi.kind) ==> StorageSize(e) == |TrackEventBytes(e).value|
    ensures !KnownKind(e.midi.kind) ==> StorageSize(e) == |VlqBytes(e.delta)| + 1
  {
    var n := |VlqBytes(e.delta)|;
    assert n + 3 < Two32;
    if KnownKind(e.midi.kind) {
      assert |TrackEventBytes(e).value| == n + |EventBytes(e.midi, false).value|;
    }
  }

  /** Writing `x` at `at` and then `y` right after it writes `x + y` at `at`. */
  lemma Splice(a0: seq<Byte>, a1: seq<Byte>, a2: seq<Byte>, at: nat, x: seq<Byte>, y: seq<Byte>)
    requires at + |x| + |y| <= |a0|
    requires a1 == a0[..at] + x + a0[at + |x|..]
    requires a2 == a1[..at + |x|] + y + a1[at + |x| + |y|..]
    ensures a2 == a0[..at] + (x + y) + a0[at + |x| + |y|..]
  {
    assert a1[..at + |x|] == a0[..at] + x;
    assert a1[at + |x| + |y|..] == a0[at + |x| + |y|..];
  }

  /** The lead bytes and the length field of a meta or system-exclusive event. */
  method LeadToBytes(lead: seq<Byte>, length: Uint32, out: array<Byte>, at: nat) returns (n: nat)
    requires |lead| <= 2 && at + |lead| + |VlqBytes(length)| <= out.Length
    modifies out
    ensures n == |lead| + |VlqBytes(length)|
    ensures out[..] == old(out[..at]) + (lead + VlqBytes(length)) + old(out[at + n..])
  {
    ghost var a0 := out[..];
    CopyOut(lead, out, at);
    ghost var a1 := out[..];
    var m := VlqEncode(length, out, at + |lead|);
    Splice(a0, a1, out[..], at, lead, VlqBytes(length));
    n := |lead| + m;
  }

  /** The part of `track_event_to_bytes` after the delta for a meta event
      (`lead` = [0xFF, type]) or a system-exclusive one (`lead` = [0xF0]). */
  method PayloadToBytes(lead: seq<Byte>, length: Uint32, data: seq<Byte>, out: array<Byte>, at: nat)
      returns (n: nat)
    requires |lead| <= 2 && length <= |data|
    requires at + |lead| + |VlqBytes(length)| + length <= out.Length
    modifies out
    ensures n == |lead| + |VlqBytes(length)| + length
    ensures out[..] == old(out[..at]) + PayloadBytes(lead, length, data) + old(out[at + n..])
  {
    ghost var a0 := out[..];
    var m := LeadToBytes(lead, length, out, at);
    ghost var a1 := out[..];
    CopyOut(data[..length], out, at + m);
    Splice(a0, a1, out[..], at, lead + VlqBytes(length), data[..length]);
    n := m + length;
  }

  /** The body of `track_event_to_bytes`, written from index `at`. */
  method BodyToBytes(e: TrackEvent, out: array<Byte>, at: nat) returns (n: int)
    requires PayloadReadable(e)
    requires BodyBytes(e).Some? ==> at + |BodyBytes(e).value| <= out.Length
    modifies out
    ensures BodyBytes(e).None? ==> n == -1
    ensures BodyBytes(e).Some? ==>
              n == |BodyBytes(e).value| && out[..] == old(out[..at]) + BodyBytes(e).value + old(out[at + n..])
  {
    match e
    case Midi(_, ev) =>
      n := EventToBytes(ev, out, at, false);
    case Meta(_, t, length, data) =>
      n := PayloadToBytes([0xFF, t], length, data, out, at);
    case Sysex(_, length, data) =>
      n := PayloadToBytes([0xF0], length, data, out, at);
  }

  /** `track_event_to_bytes` into `out` from index `at`, returning -1 for an
      unknown MIDI kind. */
  method TrackEventToBytes(e: TrackEvent, out: array<Byte>, at: nat) returns (n: int)
    requires PayloadReadable(e)
    requires TrackEventBytes(e).Some? ==> at + |TrackEventBytes(e).value| <= out.Length
    requires TrackEventBytes(e).None? ==> at + |VlqBytes(e.delta)| <= out.Length
    modifies out
    ensures TrackEventBytes(e).None? ==> n == -1
    ensures TrackEventBytes(e).Some? ==>
              n == |TrackEventBytes(e).value|
              && out[..] == old(out[..at]) + TrackEventBytes(e).value + old(out[at + n..])
  {
    ghost var a0 := out[..];
    var m := VlqEncode(e.delta, out, at);
    ghost var a1 := out[..];
    var r := BodyToBytes(e, out, at + m);
    if r < 0 {
      return -1;
    }
    Splice(a0, a1, out[..], at, VlqBytes(e.delta), BodyBytes(e).value);
    n := m + r;
  }

  // ---------------------------------------------------------------------------
  // Reading track events
  // ---------------------------------------------------------------------------

  /** C's conversion of a 32-bit unsigned value to `int32_t` (two's complement). */
  function Int32Of(x: Uint32): (r: int)
    ensures -0x8000_0000 <= r < 0x8000_0000 && (r - x) % Two32 == 0
  {
    if x < 0x8000_0000 then x else x - Two32
  }

  /** What one call of `track_event_next` does: it fails (-1) with the index
      it has reached, or reads an event, returns its length as `int32_t`
      and moves the index and the running status. */
  datatype NextOutcome =
    | Failed(idx: Uint32)
    | Read(ret: int, idx: Uint32, last: Byte, ev: TrackEvent)

  /** The reads `track_event_next` makes without checking them stay inside
      the buffer: the index is within it, and a meta event's type byte
      follows its 0xFF. */
  predicate NextInBounds(bytes: seq<Byte>, idx: nat)
  {
    idx <= |bytes|
    && match VlqDecodeF(bytes[idx..])
       case None => true
       case Some((_, n)) => idx + n < |bytes| && bytes[idx + n] == 0xFF ==> idx + n + 1 < |bytes|
  }

  /** `track_event_next` on the buffer `bytes` at `idx` with `last` the
      running status in effect and `prev` the MIDI part of the caller's
      event: the delta, then the event at its end. */
  function NextF(bytes: seq<Byte>, idx: Uint32, last: Byte, prev: MidiEvent): (r: NextOutcome)
    requires |bytes| < Two32 && NextInBounds(bytes, idx)
  {
    match VlqDecodeF(bytes[idx..])
    case None => Failed(idx)
    case Some((delta, n)) =>
      var j: Uint32 := idx + n;
      if j == |bytes| then Failed(j) else EventAt(bytes, j, last, delta, prev)
  }

  /** The event at `j` after a delta: its first byte decides the kind.  A
      byte below 0x80, or a system byte other than 0xF0, 0xF7 and 0xFF, is
      read as data under the running status when one is in effect. */
  function EventAt(bytes: seq<Byte>, j: Uint32, last: Byte, delta: Uint32, prev: MidiEvent): NextOutcome
    requires j < |bytes| < Two32
    requires bytes[j] == 0xFF ==> j + 1 < |bytes|
  {
    var b := bytes[j];
    if 0x80 <= b < 0xF0 then MidiAt(bytes, j, delta, prev)
    else if b == 0xF0 || b == 0xF7 then SysexAt(bytes, j, last, delta)
    else if b == 0xFF then MetaAt(bytes, j, last, delta)
    else if 0x80 <= last < 0xF0 then RollingAt(bytes, j, last, delta, prev)
    else Failed(j)
  }

  /** A channel message with its status byte, decoded into the caller's
      `prev`; its status becomes the running status. */
  function MidiAt(bytes: seq<Byte>, j: Uint32, delta: Uint32, prev: MidiEvent): NextOutcome
    requires j < |bytes| < Two32
  {
    match EventFromBytes(prev, bytes[j..])
    case None => Failed(j)
    case Some((m, used)) => Read(used, j + used, bytes[j], Midi(delta, m))
  }

  /** A system-exclusive event: its payload is one byte shorter than the
      length field says, and the index moves past the whole length. */
  function SysexAt(bytes: seq<Byte>, j: Uint32, last: Byte, delta: Uint32): NextOutcome
    requires j < |bytes| < Two32
  {
    match VlqDecodeF(bytes[j + 1..])
    case None => Failed(j)
    case Some((vlength, k)) =>
      var evLen := (1 + k + vlength) % Two32;
      Read(Int32Of(evLen), (j + evLen) % Two32, last,
           Sysex(delta, (vlength + Two32 - 1) % Two32, bytes[j + 1 + k..]))
  }

  /** A meta event: type, length, payload. */
  function MetaAt(bytes: seq<Byte>, j: Uint32, last: Byte, delta: Uint32): NextOutcome
    requires j + 1 < |bytes| < Two32
  {
    match VlqDecodeF(bytes[j + 2..])
    case None => Failed(j)
    case Some((vlength, k)) =>
      var evLen := (2 + k + vlength) % Two32;
      Read(Int32Of(evLen), (j + evLen) % Two32, last, Meta(delta, bytes[j + 1], vlength, bytes[j + 2 + k..]))
  }

  /** Data bytes under the running status `last`, decoded into `prev`. */
  function RollingAt(bytes: seq<Byte>, j: Uint32, last: Byte, delta: Uint32, prev: MidiEvent): NextOutcome
    requires j < |bytes| < Two32
  {
    match EventFromBytesRolling(prev, last, bytes[j..])
    case None => Failed(j)
    case Some((m, used)) => if used == 0 then Failed(j) else Read(used, j + used, last, Midi(delta, m))
  }

  /** `track_parser_t`: a cursor over `len` bytes with the running status.
      The event it fills is the caller's `track_event_t`, which the header
      asks to be zeroed once before first use; each call is given the MIDI
      part of that event as the previous call left it. */
  class TrackParser {
    var bytes: seq<Byte>
    var len: Uint32
    var idx: Uint32
    var lastStatus: Byte

    predicate Valid()
      reads this
    {
      |bytes| == len
    }

    /** The parser is where the outcome `o` leaves it, starting from the
        running status `last0`, and returned `r` and `e`. */
    predicate Took(o: NextOutcome, last0: Byte, r: int, e: TrackEvent)
      reads this
    {
      (o.Failed? ==> r == -1 && idx == o.idx && lastStatus == last0)
      && (o.Read? ==> r == o.ret && idx == o.idx && lastStatus == o.last && e == o.ev)
    }

    /** A zero-initialised parser over `bytes`. */
    constructor (bytes: seq<Byte>)
      requires |bytes| < Two32
      ensures Valid() && this.bytes == bytes && idx == 0 && lastStatus == 0
    {
      this.bytes := bytes;
      len := |bytes|;
      idx := 0;
      lastStatus := 0;
    }

    /** `track_event_next` into the caller's event, whose MIDI part is
        `prev` on entry. */
    method Next(prev: MidiEvent) returns (r: int, e: TrackEvent)
      requires Valid() && NextInBounds(bytes, idx)
      modifies this`idx, this`lastStatus
      ensures Valid() && Took(NextF(bytes, old(idx), old(lastStatus), prev), old(lastStatus), r, e)
    {
      ghost var idx0, last0 := idx, lastStatus;
      e := Midi(0, prev);
      var n, delta := VlqDecode(bytes[idx..]);
      if n <= 0 {
        assert NextF(bytes, idx0, last0, prev) == Failed(idx0);
        return -1, e;
      }
      assert VlqDecodeF(bytes[idx0..]) == Some((delta, n));
      idx := idx + n;
      var left := len - idx;
      if left == 0 {
        assert NextF(bytes, idx0, last0, prev) == Failed(idx);
        return -1, e;
      }
      assert NextF(bytes, idx0, last0, prev) == EventAt(bytes, idx, last0, delta, prev);
      r, e := ReadEvent(delta, prev);
    }

    /** The part of `track_event_next` after the delta. */
    method ReadEvent(delta: Uint32, prev: MidiEvent) returns (r: int, e: TrackEvent)
      requires Valid() && idx < len && (bytes[idx] == 0xFF ==> idx + 1 < len)
      modifies this`idx, this`lastStatus
      ensures Valid() && Took(EventAt(bytes, old(idx), old(lastStatus), delta, prev), old(lastStatus), r, e)
    {
      e := Midi(delta, prev);
      var b := bytes[idx];
      if 0x80 <= b < 0xF0 {
        var o := EventFromBytes(prev, bytes[idx..]);
        if o.None? {
          return -1, e;
        }
        e := Midi(delta, o.value.0);
        r := o.value.1;
        idx := idx + o.value.1;
        lastStatus := b;
      } else if b == 0xF0 || b == 0xF7 {
        r, e := ReadSysex(delta);
      } else if b == 0xFF {
        r, e := ReadMeta(delta);
      } else if 0x80 <= lastStatus < 0xF0 {
        var o := EventFromBytesRolling(prev, lastStatus, bytes[idx..]);
        if o.None? || o.value.1 == 0 {
          return -1, e;
        }
        e := Midi(delta, o.value.0);
        r := o.value.1;
        idx := idx + o.value.1;
      } else {
        return -1, e;
      }
    }

    method ReadSysex(delta: Uint32) returns (r: int, e: TrackEvent)
      requires Valid() && idx < len
      modifies this`idx
      ensures Valid() && Took(SysexAt(bytes, old(idx), lastStatus, delta), lastStatus, r, e)
    {
      e := Sysex(delta, 0, []);
      var k, vlength := VlqDecode(bytes[idx + 1..]);
      if k <= 0 {
        return -1, e;
      }
      e := Sysex(delta, (vlength + Two32 - 1) % Two32, bytes[idx + 1 + k..]);
      var evLen := (1 + k + vlength) % Two32;
      idx := (idx + evLen) % Two32;
      r := Int32Of(evLen);
    }

    method ReadMeta(delta: Uint32) returns (r: int, e: TrackEvent)
      requires Valid() && idx + 1 < len
      modifies this`idx
      ensures Valid() && Took(MetaAt(bytes, old(idx), lastStatus, delta), lastStatus, r, e)
    {
      e := Meta(delta, 0, 0, []);
      var t := bytes[idx + 1];
      var k, vlength := VlqDecode(bytes[idx + 2..]);
      if k <= 0 {
        return -1, e;
      }
      e := Meta(delta, t, vlength, bytes[idx + 2 + k..]);
      var evLen := (2 + k + vlength) % Two32;
      idx := (idx + evLen) % Two32;
      r := Int32Of(evLen);
    }
  }

  // ---------------------------------------------------------------------------
  // What the reader makes of what the writer writes
  // ---------------------------------------------------------------------------

  /** The delta a reader finds in front of the bytes written after it. */
  lemma DeltaAt(pre: seq<Byte>, delta: Uint32, body: seq<Byte>, rest: seq<Byte>)
    ensures var bytes := pre + VlqBytes(delta) + body + rest;
            bytes[|pre|..] == VlqBytes(delta) + (body + rest)
            && VlqDecodeF(bytes[|pre|..]) == Some((delta, |VlqBytes(delta)|))
            && bytes[|pre| + |VlqBytes(delta)|..] == body + rest
  {
    var bytes := pre + VlqBytes(delta) + body + rest;
    assert bytes[|pre|..] == VlqBytes(delta) + (body + rest);
    VlqRoundTrip(delta, body + rest);
  }

  /** A channel message written with its status byte is read back whole,
      and its status becomes the running status. */
  lemma NextReadsMidi(pre: seq<Byte>, delta: Uint32, e: MidiEvent, rest: seq<Byte>, last: Byte, prev: MidiEvent)
    requires Canonical(e)
    requires |pre| + |TrackEventBytes(Midi(delta, e)).value| + |rest| < Two32
    ensures var bytes := pre + TrackEventBytes(Midi(delta, e)).value + rest;
            NextInBounds(bytes, |pre|)
            && NextF(bytes, |pre|, last, prev)
               == Read(|EventBytes(e, false).value|, |pre| + |TrackEventBytes(Midi(delta, e)).value|,
                       StatusByte(e.kind, e.channel), Midi(delta, Overlay(e, prev)))
  {
    var body := EventBytes(e, false).value;
    var bytes := pre + VlqBytes(delta) + body + rest;
    assert pre + TrackEventBytes(Midi(delta, e)).value + rest == bytes;
    DeltaAt(pre, delta, body, rest);
    var j := |pre| + |VlqBytes(delta)|;
    StatusByteValue(e.kind, e.channel);
    EventRoundTrip(prev, e, rest);
    assert bytes[j] == StatusByte(e.kind, e.channel);
    assert NextF(bytes, |pre|, last, prev) == MidiAt(bytes, j, delta, prev);
  }

  /** Under the running status of the same kind and channel, the data bytes
      alone are read back as the same message, as long as the first of them
      is a data byte. */
  lemma NextReadsRunningStatus(pre: seq<Byte>, delta: Uint32, e: MidiEvent, rest: seq<Byte>, prev: MidiEvent)
    requires Canonical(e) && DataBytes(e).value[0] < 0x80
    requires |pre| + |VlqBytes(delta)| + |DataBytes(e).value| + |rest| < Two32
    ensures var bytes := pre + VlqBytes(delta) + EventBytes(e, true).value + rest;
            var status := StatusByte(e.kind, e.channel);
            NextInBounds(bytes, |pre|)
            && NextF(bytes, |pre|, status, prev)
               == Read(|DataBytes(e).value|, |pre| + |VlqBytes(delta)| + |DataBytes(e).value|, status,
                       Midi(delta, Overlay(e, prev)))
  {
    var bytes := pre + VlqBytes(delta) + EventBytes(e, true).value + rest;
    var status := StatusByte(e.kind, e.channel);
    DeltaAt(pre, delta, EventBytes(e, true).value, rest);
    var j := |pre| + |VlqBytes(delta)|;
    StatusByteValue(e.kind, e.channel);
    EventRoundTrip(prev, e, rest);
    assert bytes[j] == DataBytes(e).value[0];
    assert NextF(bytes, |pre|, status, prev) == RollingAt(bytes, j, status, delta, prev);
  }

  /** The meta event at `j` in front of `rest`. */
  lemma MetaAtReads(bytes: seq<Byte>, j: Uint32, last: Byte, delta: Uint32, t: Byte, length: Uint32,
                    data: seq<Byte>, rest: seq<Byte>)
    requires length <= |data| && j < |bytes| < 0x8000_0000
    requires bytes[j..] == PayloadBytes([0xFF, t], length, data) + rest
    ensures j + 1 < |bytes| && bytes[j] == 0xFF
    ensures MetaAt(bytes, j, last, delta)
            == Read(2 + |VlqBytes(length)| + length, j + 2 + |VlqBytes(length)| + length, last,
                    Meta(delta, t, length, data[..length] + rest))
  {
    assert bytes[j] == bytes[j..][0] && bytes[j + 1] == bytes[j..][1];
    assert bytes[j + 2..] == VlqBytes(length) + (data[..length] + rest);
    MetaFieldsRead(bytes, j, last, delta, length, data[..length] + rest);
  }

  /** The meta event at `j` whose length field is followed by `payload`. */
  lemma MetaFieldsRead(bytes: seq<Byte>, j: Uint32, last: Byte, delta: Uint32, length: Uint32, payload: seq<Byte>)
    requires j + 1 < |bytes| < 0x8000_0000 && length <= |payload|
    requires bytes[j + 2..] == VlqBytes(length) + payload
    ensures MetaAt(bytes, j, last, delta)
            == Read(2 + |VlqBytes(length)| + length, j + 2 + |VlqBytes(length)| + length, last,
                    Meta(delta, bytes[j + 1], length, payload))
  {
    VlqRoundTrip(length, payload);
    var k := |VlqBytes(length)|;
    assert VlqDecodeF(bytes[j + 2..]) == Some((length, k));
    assert bytes[j + 2 + k..] == payload;
    var evLen := 2 + k + length;
    assert evLen < Two32;
    ModSmall(evLen);
    ModSmall(j + evLen);
    assert Int32Of(evLen) == evLen;
  }

  /** A meta event is read back with its type and length, its payload
      pointer at the written payload, and its length as the result. */
  lemma NextReadsMeta(pre: seq<Byte>, delta: Uint32, t: Byte, length: Uint32, data: seq<Byte>,
                      rest: seq<Byte>, last: Byte, prev: MidiEvent)
    requires length <= |data|
    requires |pre| + |TrackEventBytes(Meta(delta, t, length, data)).value| + |rest| < 0x8000_0000
    ensures var enc := TrackEventBytes(Meta(delta, t, length, data)).value;
            var bytes := pre + enc + rest;
            NextInBounds(bytes, |pre|)
            && NextF(bytes, |pre|, last, prev)
               == Read(2 + |VlqBytes(length)| + length, |pre| + |enc|, last,
                       Meta(delta, t, length, data[..length] + rest))
  {
    var body := PayloadBytes([0xFF, t], length, data);
    var bytes := pre + VlqBytes(delta) + body + rest;
    assert pre + TrackEventBytes(Meta(delta, t, length, data)).value + rest == bytes;
    DeltaAt(pre, delta, body, rest);
    var j := |pre| + |VlqBytes(delta)|;
    MetaAtReads(bytes, j, last, delta, t, length, data, rest);
    assert NextF(bytes, |pre|, last, prev) == EventAt(bytes, j, last, delta, prev);
  }

  /** A data byte where no running status is in effect is an error. */
  lemma NextNeedsStatus(bytes: seq<Byte>, idx: Uint32, last: Byte, prev: MidiEvent)
    requires |bytes| < Two32 && NextInBounds(bytes, idx)
    requires !(0x80 <= last < 0xF0)
    requires VlqDecodeF(bytes[idx..]).Some?
    requires var j := idx + VlqDecodeF(bytes[idx..]).value.1; j < |bytes| && bytes[j] < 0x80
    ensures NextF(bytes, idx, last, prev).Failed?
  {
  }

  /** As written, the first data byte of a pitch bend keeps bit 7 of the
      value: 0x80 is sent as 0x80 0x01, and under running status the
      library's own reader takes that 0x80 for a status byte and fails,
      where the seven-bit split 0x00 0x01 reads back as the pitch bend. */
  lemma PitchBendAsWrittenMisread()
    ensures PitchBendBytesAsWritten(0x80) == [0x80, 0x01]
    ensures NextF([0x00] + PitchBendBytesAsWritten(0x80), 0, 0xE0, ZeroEvent).Failed?
    ensures PitchBendBytes(0x80) == [0x00, 0x01]
    ensures NextF([0x00] + PitchBendBytes(0x80), 0, 0xE0, ZeroEvent) == Read(2, 3, 0xE0, Midi(0, MidiEvent(PitchBend, 0, 0x80, 0)))
  {
    var w := [0x00] + PitchBendBytesAsWritten(0x80);
    assert VlqDecodeF(w) == Some((0, 1));
    assert w[1..] == [0x80, 0x01];
    var c := [0x00] + PitchBendBytes(0x80);
    assert VlqDecodeF(c) == Some((0, 1));
    assert c[1..] == [0x00, 0x01];
    PitchBendJoin(0x00, 0x01);
  }

  /** The running status changes only when a channel message is read with
      its own status byte, and then becomes that byte; system-exclusive
      and meta events leave it alone, and every channel message read is
      under a channel status. */
  lemma NextStatusOnlyFromStatusByte(bytes: seq<Byte>, idx: Uint32, last: Byte, prev: MidiEvent)
    requires |bytes| < Two32 && NextInBounds(bytes, idx)
    ensures var o := NextF(bytes, idx, last, prev);
            o.Read? && o.last != last ==>
              0 <= o.idx - o.ret < |bytes| && 0x80 <= o.last < 0xF0 && o.last == bytes[o.idx - o.ret]
    ensures var o := NextF(bytes, idx, last, prev);
            o.Read? && !o.ev.Midi? ==> o.last == last
    ensures var o := NextF(bytes, idx, last, prev);
            o.Read? && o.ev.Midi? ==> 0x80 <= o.last < 0xF0
  {
    match VlqDecodeF(bytes[idx..])
    case None =>
    case Some((delta, n)) =>
      var j: Uint32 := idx + n;
      if j < |bytes| {
        var b := bytes[j];
        if 0x80 <= b < 0xF0 {
          assert NextF(bytes, idx, last, prev) == MidiAt(bytes, j, delta, prev);
        } else if 0x80 <= last < 0xF0 && !(b == 0xF0 || b == 0xF7 || b == 0xFF) {
          assert NextF(bytes, idx, last, prev) == RollingAt(bytes, j, last, delta, prev);
        }
      }
  }

  /** After a Note-On `3C 64`, a Program Change read into the same event
      still has 0x64 in the union's second byte, as the C leaves it; into a
      zeroed event it has 0. */
  lemma ProgramKeepsSecondByte()
    ensures NextF([0x00, 0xC0, 0x05], 0, 0x90, MidiEvent(NoteOn, 0, 0x3C, 0x64))
            == Read(2, 3, 0xC0, Midi(0, MidiEvent(Program, 0, 0x05, 0x64)))
    ensures NextF([0x00, 0xC0, 0x05], 0, 0x90, ZeroEvent)
            == Read(2, 3, 0xC0, Midi(0, MidiEvent(Program, 0, 0x05, 0)))
  {
    var s: seq<Byte> := [0x00, 0xC0, 0x05];
    assert VlqDecodeF(s) == Some((0, 1));
    assert s[1..] == [0xC0, 0x05];
    assert s[1..][1..] == [0x05];
  }
}
