/** The translator from the event sequence to a Standard MIDI File: pitch
    and duration arithmetic, the per-track context (tick cursor, octave,
    velocity, default length, channel, running status and the table of
    sounding notes), chord batches turned into Note-On and velocity-0
    Note-On messages, and the file-level loop over tracks. */
module Translator {
  import opened Bytes
  import opened Mml
  import opened MidiCodec
  import opened MidiWriter

  // ---------------------------------------------------------------------------
  // Pitches
  // ---------------------------------------------------------------------------

  /** `tolower` in the "C" locale. */
  function ToLower(c: Byte): (r: Byte)
    ensures 'A' as int <= c <= 'Z' as int ==> r == c + 32
    ensures !('A' as int <= c <= 'Z' as int) ==> r == c
  {
    if 'A' as int <= c <= 'Z' as int then c + 32 else c
  }

  /** The semitone of a note letter above C, `None` for anything else
      (a rest `r` included). */
  function BaseNote(letter: Byte): (r: Option<int>)
  {
    var l := ToLower(letter);
    if l == 'c' as int then Some(0)
    else if l == 'd' as int then Some(2)
    else if l == 'e' as int then Some(4)
    else if l == 'f' as int then Some(5)
    else if l == 'g' as int then Some(7)
    else if l == 'a' as int then Some(9)
    else if l == 'b' as int then Some(11)
    else None
  }

  function Clamp(x: int, lo: int, hi: int): int
  {
    if x < lo then lo else if x > hi then hi else x
  }

  /** `pitch_to_midi_note` with the octave already truncated to eight bits
      by the call: -1 for a rest or a letter that is not a note, otherwise
      the semitone count from C of octave -1, clamped to 0..127. */
  function PitchToMidiNote(pitch: Byte, octave: Byte, acc: int): (r: int)
    ensures r == -1 || 0 <= r <= 127
    ensures r == -1 <==> BaseNote(pitch).None?
  {
    match BaseNote(pitch)
    case None => -1
    case Some(base) => Clamp((octave + 1) * 12 + base + acc, 0, 127)
  }

  /** The note letters, in either case, are exactly c d e f g a b, at the
      white keys 0 2 4 5 7 9 11 of the octave. */
  lemma BaseNoteTable(letter: Byte)
    ensures BaseNote(letter).Some? <==> ToLower(letter) in {'c' as int, 'd' as int, 'e' as int, 'f' as int,
                                                              'g' as int, 'a' as int, 'b' as int}
    ensures BaseNote('c' as int) == BaseNote('C' as int) == Some(0)
    ensures BaseNote('d' as int) == BaseNote('D' as int) == Some(2)
    ensures BaseNote('e' as int) == BaseNote('E' as int) == Some(4)
    ensures BaseNote('f' as int) == BaseNote('F' as int) == Some(5)
    ensures BaseNote('g' as int) == BaseNote('G' as int) == Some(7)
    ensures BaseNote('a' as int) == BaseNote('A' as int) == Some(9)
    ensures BaseNote('b' as int) == BaseNote('B' as int) == Some(11)
    ensures BaseNote('r' as int).None? && BaseNote('R' as int).None?
  {
  }

  /** Inside the MIDI range the note number is exact: twelve semitones per
      octave, octave 4's C being middle C (60) and its A being 69. */
  lemma PitchExact(pitch: Byte, octave: Byte, acc: int)
    requires BaseNote(pitch).Some? && 0 <= (octave + 1) * 12 + BaseNote(pitch).value + acc <= 127
    ensures PitchToMidiNote(pitch, octave, acc) == (octave + 1) * 12 + BaseNote(pitch).value + acc
    ensures PitchToMidiNote('c' as int, 4, 0) == 60 && PitchToMidiNote('A' as int, 4, 0) == 69
  {
  }

  /** Outside the range the note sticks to the nearest end, and one note
      up or down never moves by more than one semitone. */
  lemma PitchClamps(pitch: Byte, octave: Byte, acc: int)
    requires BaseNote(pitch).Some?
    ensures (octave + 1) * 12 + BaseNote(pitch).value + acc < 0 ==> PitchToMidiNote(pitch, octave, acc) == 0
    ensures (octave + 1) * 12 + BaseNote(pitch).value + acc > 127 ==> PitchToMidiNote(pitch, octave, acc) == 127
    ensures PitchToMidiNote(pitch, octave, acc) <= PitchToMidiNote(pitch, octave, acc + 1)
              <= PitchToMidiNote(pitch, octave, acc) + 1
  {
  }

  /** A sharpened E is an F, a sharpened B the next octave's C, and a
      flattened C the previous octave's B. */
  lemma PitchEnharmonic(octave: Byte)
    requires octave < 10
    ensures PitchToMidiNote('e' as int, octave, 1) == PitchToMidiNote('f' as int, octave, 0)
    ensures PitchToMidiNote('b' as int, octave, 1) == PitchToMidiNote('c' as int, octave + 1, 0)
    ensures PitchToMidiNote('c' as int, octave + 1, -1) == PitchToMidiNote('b' as int, octave, 0)
  {
  }

  // ---------------------------------------------------------------------------
  // Durations
  // ---------------------------------------------------------------------------

  /** `x` halved `k` times, each halving rounding down. */
  function Halved(x: nat, k: nat): nat
  {
    if k == 0 then x else Halved(x, k - 1) / 2
  }

  /** The ticks `k` dots add to a note of `base` ticks: half of it, then
      half of that, and so on. */
  function DotSum(base: nat, k: nat): nat
  {
    if k == 0 then 0 else DotSum(base, k - 1) + Halved(base, k)
  }

  /** A dotted duration in unbounded arithmetic. */
  function Dotted(base: nat, dots: nat): nat
  {
    base + DotSum(base, dots)
  }

  /** The whole-note ticks divided by the length, in 32-bit arithmetic. */
  function BaseTicks(length: Uint32, tpq: Uint32): Uint32
    requires length > 0
  {
    ((4 * tpq) % Two32) / length
  }

  /** `calculate_duration`: 0 for length 0, otherwise the dotted duration
      modulo 2^32 (the sum is kept in a `uint32_t`). */
  function DurationTicks(length: Uint32, dots: Uint32, tpq: Uint32): Uint32
  {
    if length == 0 then 0 else Dotted(BaseTicks(length, tpq), dots) % Two32
  }

  /** The dots add less than the base itself: what they add and what is
      left to halve never exceed the base, and once nothing is left they
      have added strictly less than it. */
  lemma {:induction false} DotSumBound(base: nat, k: nat)
    ensures DotSum(base, k) + Halved(base, k) <= base
    ensures base > 0 && Halved(base, k) == 0 ==> DotSum(base, k) < base
  {
    if k > 0 {
      DotSumBound(base, k - 1);
    }
  }

  /** Once the halving reaches zero more dots add nothing. */
  lemma {:induction false} DotSumSaturates(base: nat, k: nat, m: nat)
    requires Halved(base, k) == 0 && k <= m
    ensures DotSum(base, m) == DotSum(base, k) && Halved(base, m) == 0
    decreases m - k
  {
    if k < m {
      DotSumSaturates(base, k, m - 1);
    }
  }

  /** A dotted duration lies between its base and twice its base. */
  lemma DottedRange(base: nat, dots: nat)
    ensures base <= Dotted(base, dots) <= 2 * base
    ensures base > 0 ==> Dotted(base, dots) < 2 * base
  {
    DotSumBound(base, dots);
  }

  /** With no 32-bit overflow the duration is `4 * tpq / length` plus the
      halvings, between the base and twice the base. */
  lemma DurationRange(length: Uint32, dots: Uint32, tpq: Uint32)
    requires length > 0 && 4 * tpq < Two32 && 4 * tpq / length < 0x8000_0000
    ensures DurationTicks(length, dots, tpq) == Dotted(4 * tpq / length, dots)
    ensures 4 * tpq / length <= DurationTicks(length, dots, tpq)
    ensures 4 * tpq / length > 0 ==> DurationTicks(length, dots, tpq) < 2 * (4 * tpq / length)
  {
    var base := 4 * tpq / length;
    ModSmall(4 * tpq);
    DottedRange(base, dots);
    ModSmall(Dotted(base, dots));
  }

  /** At 480 ticks per quarter note: a quarter note is 480 ticks, an eighth
      240, a whole note 1920, a dotted quarter 720 and a double-dotted one 840. */
  lemma DurationExamples()
    ensures DurationTicks(4, 0, 480) == 480 && DurationTicks(8, 0, 480) == 240
    ensures DurationTicks(1, 0, 480) == 1920 && DurationTicks(0, 3, 480) == 0
  {
    ModSmall(1920);
  }

  /** Dots at 480 ticks per quarter note: a dotted quarter is 720 ticks and
      a double-dotted one 840. */
  lemma DottedExamples()
    ensures DurationTicks(4, 1, 480) == 720 && DurationTicks(4, 2, 480) == 840
  {
    ModSmall(1920);
    assert BaseTicks(4, 480) == 480;
    assert Halved(480, 1) == 240 && Halved(480, 2) == 120;
    assert Dotted(480, 1) == 720 && Dotted(480, 2) == 840;
  }

  /** `calculate_duration`, with its loop halving `dot_add`. */
  method CalculateDuration(length: Uint32, dots: Uint32, tpq: Uint32) returns (r: Uint32)
    ensures r == DurationTicks(length, dots, tpq)
  {
    if length == 0 {
      return 0;
    }
    var baseTicks: Uint32 := ((4 * tpq) % Two32) / length;
    var total: Uint32 := baseTicks;
    var dotAdd: Uint32 := baseTicks;
    var i: Uint32 := 0;
    ModSmall(baseTicks);
    while i < dots
      invariant 0 <= i <= dots
      invariant dotAdd == Halved(baseTicks, i)
      invariant total == Dotted(baseTicks, i) % Two32
    {
      dotAdd := dotAdd / 2;
      WrapAdd(Dotted(baseTicks, i), dotAdd);
      total := (total + dotAdd) % Two32;
      i := i + 1;
    }
    r := total;
  }

  // ---------------------------------------------------------------------------
  // Events the translator writes
  // ---------------------------------------------------------------------------

  const TicksPerQuarter: Uint32 := 480
  const DefaultTempo: Uint32 := 500000
  const DefaultOctave: int := 4
  const DefaultVelocity: Byte := 100
  const DefaultLength: Uint32 := 4
  const Channels: nat := 16

  /** The key `write_midi` compares with `last_status`:
      `(kind << 4) | (channel & 0x0F)` truncated to eight bits (the two
      parts do not overlap, so the OR is a sum). */
  function StatusKey(e: MidiEvent): Byte
  {
    (e.kind * 0x10 + e.channel % 0x10) % 0x100
  }

  function NoteOnEvent(channel: Byte, note: Byte, velocity: Byte): MidiEvent
  {
    MidiEvent(NoteOn, channel, note, velocity)
  }

  /** The three payload bytes of a Set Tempo meta event: the tempo in
      microseconds per quarter note, big-endian in 24 bits. */
  function TempoData(tempo: Uint32): (r: seq<Byte>)
    ensures |r| == 3
  {
    [tempo / 0x1_0000 % 0x100, tempo / 0x100 % 0x100, tempo % 0x100]
  }

  /** The event `write_tempo` builds: meta type 0x51, length 3. */
  function TempoEvent(delta: Uint32, tempo: Uint32): TrackEvent
  {
    Meta(delta, 0x51, 3, TempoData(tempo))
  }

  /** The event `write_end_of_track` builds: meta type 0x2F, no payload. */
  function EndOfTrackEvent(delta: Uint32): TrackEvent
  {
    Meta(delta, 0x2F, 0, [])
  }

  /** A meta event is the delta, FF, its type, its length and its payload
      (Standard MIDI Files 1.0, "Meta-Events"). */
  lemma MetaBytes(delta: Uint32, t: Byte, length: Uint32, data: seq<Byte>)
    requires length == |data|
    ensures TrackEventBytes(Meta(delta, t, length, data)).value == VlqBytes(delta) + ([0xFF, t] + VlqBytes(length) + data)
  {
    assert data[..length] == data;
  }

  /** A Set Tempo event is the delta, FF 51 03 and the three tempo bytes. */
  lemma TempoEventBytes(delta: Uint32, tempo: Uint32)
    ensures TrackEventBytes(TempoEvent(delta, tempo)).value == VlqBytes(delta) + [0xFF, 0x51, 0x03] + TempoData(tempo)
    ensures |TrackEventBytes(TempoEvent(delta, tempo)).value| <= 11
  {
    assert VlqBytes(3) == [3];
    MetaBytes(delta, 0x51, 3, TempoData(tempo));
  }

  /** An End of Track event is the delta and FF 2F 00. */
  lemma EndOfTrackBytes(delta: Uint32)
    ensures TrackEventBytes(EndOfTrackEvent(delta)).value == VlqBytes(delta) + [0xFF, 0x2F, 0x00]
    ensures |TrackEventBytes(EndOfTrackEvent(delta)).value| <= 8
  {
    assert VlqBytes(0) == [0];
    MetaBytes(delta, 0x2F, 0, []);
  }

  /** The three tempo bytes spell any tempo below 2^24 back. */
  lemma TempoDataRoundTrip(tempo: Uint32)
    requires tempo < 0x100_0000
    ensures var d := TempoData(tempo); ((d[0] as int) * 0x100 + d[1]) * 0x100 + d[2] == tempo
  {
  }

  // ---------------------------------------------------------------------------
  // The translation context and its meaning
  // ---------------------------------------------------------------------------

  /** `mml_context` as a value: the event sequence (whose note lengths the
      translator rewrites in place) and the read offset, the running status,
      tempo, ticks per quarter, tick cursor (a `size_t`), default length,
      octave, velocity, channel, the 128 sounding-note flags, and the data
      of the open track. */
  datatype Ctx = Ctx(events: seq<Event>, offset: nat, lastStatus: Byte, tempoUs: Uint32, tpq: Uint32,
                     currentTick: nat, defaultLength: Uint32, octave: int, velocity: Byte, channel: Byte,
                     active: seq<bool>, out: seq<Byte>)

  /** One entry of the chord batch (`chord_note_t`). */
  datatype ChordNote = ChordNote(note: Byte, tied: bool)

  predicate NotesInRange(batch: seq<ChordNote>)
  {
    forall k | 0 <= k < |batch| :: batch[k].note < 128
  }

  /** `write_midi`: the delta, then the message without its status byte
      when that status is the running one; the status becomes running. */
  function WriteMidiF(c: Ctx, delta: Uint32, e: MidiEvent): (r: Ctx)
    requires KnownKind(e.kind)
  {
    c.(out := c.out + VlqBytes(delta) + EventBytes(e, c.lastStatus == StatusKey(e)).value,
       lastStatus := StatusKey(e))
  }

  /** For a channel below 16 the key is the status byte the message
      starts with. */
  lemma StatusKeyMatches(e: MidiEvent)
    requires KnownKind(e.kind) && e.channel < 0x10
    ensures StatusKey(e) == StatusByte(e.kind, e.channel)
  {
    StatusByteValue(e.kind, e.channel);
  }

  lemma SplitHead(v: seq<Byte>, h: Byte, d: seq<Byte>)
    requires |v| >= 1 && v[0] == h && v[1..] == d
    ensures v == [h] + d
  {
  }

  /** The status byte is left out exactly when it equals the running
      status, which it then becomes; nothing else in the context changes. */
  lemma WriteMidiRunningStatus(c: Ctx, delta: Uint32, e: MidiEvent)
    requires KnownKind(e.kind) && e.channel < 0x10
    ensures WriteMidiF(c, delta, e).lastStatus == StatusKey(e) == StatusByte(e.kind, e.channel)
    ensures WriteMidiF(c, delta, e).out
            == c.out + VlqBytes(delta) + (if c.lastStatus == StatusKey(e) then [] else [StatusKey(e)]) + DataBytes(e).value
    ensures WriteMidiF(c, delta, e).(out := c.out, lastStatus := c.lastStatus) == c
  {
    StatusKeyMatches(e);
    var d := DataBytes(e).value;
    if c.lastStatus == StatusKey(e) {
      assert EventBytes(e, true).value == [] + d;
    } else {
      SplitHead(EventBytes(e, false).value, StatusKey(e), d);
    }
  }

  /** `process_control`: the effect of one control command; `None` where
      the source aborts (an unknown command).  Only `t` writes anything: a
      Set Tempo event at delta 0. */
  function ControlF(c: Ctx, cmd: Byte, arg: Uint32): (r: Option<Ctx>)
    requires cmd == 't' as int ==> arg > 0
    ensures r.Some? ==> |c.out| <= |r.value.out| <= |c.out| + 11
    ensures r.Some? ==> r.value.(tempoUs := c.tempoUs, octave := c.octave, velocity := c.velocity,
                                 defaultLength := c.defaultLength, out := c.out) == c
  {
    if cmd == 't' as int then
      var tempo := 60000000 / arg;
      TempoEventBytes(0, tempo);
      Some(c.(tempoUs := tempo, out := c.out + TrackEventBytes(TempoEvent(0, tempo)).value))
    else if cmd == 'o' as int then Some(c.(octave := Int32Of(arg)))
    else if cmd == 'v' as int then Some(c.(velocity := arg % 127))
    else if cmd == 'l' as int then Some(c.(defaultLength := arg))
    else if cmd == '>' as int then Some(c.(octave := c.octave + 1))
    else if cmd == '<' as int then Some(c.(octave := c.octave - 1))
    else None
  }

  /** A control command sets one setting, writes no channel message (the
      running status, the channel and the sounding notes stay), and writes
      nothing but the tempo event; an unknown command aborts. */
  lemma ControlEffects(c: Ctx, cmd: Byte, arg: Uint32)
    requires cmd == 't' as int ==> arg > 0
    ensures ControlF(c, cmd, arg).None? <==> cmd !in {'t' as int, 'o' as int, 'v' as int, 'l' as int, '>' as int, '<' as int}
    ensures ControlF(c, cmd, arg).Some? ==>
              var r := ControlF(c, cmd, arg).value;
              && r.lastStatus == c.lastStatus && r.channel == c.channel && r.active == c.active
              && r.events == c.events && r.offset == c.offset && r.currentTick == c.currentTick
              && (cmd == 't' as int ==> r.tempoUs == 60000000 / arg && r.out == c.out + VlqBytes(0) + [0xFF, 0x51, 0x03] + TempoData(r.tempoUs))
              && (cmd != 't' as int ==> r.out == c.out)
              && (cmd == 'o' as int ==> r.octave == arg || (arg >= 0x8000_0000 && r.octave == arg - Two32))
              && (cmd == 'v' as int ==> r.velocity == arg % 127 < 127)
              && (cmd == 'l' as int ==> r.defaultLength == arg)
              && (cmd == '>' as int ==> r.octave == c.octave + 1)
              && (cmd == '<' as int ==> r.octave == c.octave - 1)
  {
    if cmd == 't' as int {
      TempoEventBytes(0, 60000000 / arg);
    }
  }

  /** `b` is `a` with some notes of length 0 given a length. */
  predicate Relengthed(a: seq<Event>, b: seq<Event>)
  {
    |a| == |b| && forall k | 0 <= k < |a| ::
      b[k] == a[k] || (a[k].Note? && a[k].length == 0 && b[k].Note? && b[k] == a[k].(length := b[k].length))
  }

  lemma RelengthedTrans(a: seq<Event>, b: seq<Event>, c: seq<Event>)
    requires Relengthed(a, b) && Relengthed(b, c)
    ensures Relengthed(a, c)
  {
  }

  /** Every tempo command has an argument (the division by it is defined). */
  predicate TempoArgsPositive(events: seq<Event>)
  {
    forall k | 0 <= k < |events| :: events[k].Control? && events[k].cmd == 't' as int ==> events[k].value > 0
  }

  lemma RelengthedTempoArgs(a: seq<Event>, b: seq<Event>)
    requires Relengthed(a, b) && TempoArgsPositive(a)
    ensures TempoArgsPositive(b)
  {
    forall k | 0 <= k < |b| && b[k].Control? && b[k].cmd == 't' as int
      ensures b[k].value > 0
    {
      assert b[k] == a[k];
    }
  }

  /** The inner loop of `process_track` that gathers a chord: each note
      with a pitch joins the batch, and the first note not linked to the
      next one ends the step, its length 0 rewritten to the default in place
      and its duration computed.  Returns the context, the batch and the
      step duration. */
  function CollectF(c: Ctx, batch: seq<ChordNote>, step: Uint32): (r: (Ctx, seq<ChordNote>, Uint32))
    requires c.offset <= |c.events|
    ensures r.0.offset <= |r.0.events| == |c.events| && r.0.offset >= c.offset
    ensures |r.1| <= |batch| + (r.0.offset - c.offset)
    ensures NotesInRange(batch) ==> NotesInRange(r.1)
    ensures r.0.(events := c.events, offset := c.offset) == c
    ensures Relengthed(c.events, r.0.events)
    decreases |c.events| - c.offset
  {
    if c.offset == |c.events| || !c.events[c.offset].Note? then (c, batch, step)
    else
      var nev := c.events[c.offset];
      var note := PitchToMidiNote(nev.pitch, c.octave % 0x100, nev.acc);
      var batch' := if note >= 0 then batch + [ChordNote(note, nev.tie)] else batch;
      if !nev.chordLink then
        var len := if nev.length == 0 then c.defaultLength else nev.length;
        (c.(events := c.events[c.offset := nev.(length := len)], offset := c.offset + 1),
         batch', DurationTicks(len, nev.dots % Two32, c.tpq))
      else CollectF(c.(offset := c.offset + 1), batch', step)
  }

  /** The Note-On loop of a batch: a note not already sounding gets a
      Note-On at the context's velocity, the first batch entry carrying
      `delta` and the others 0, and is marked sounding. */
  function OnsF(c: Ctx, batch: seq<ChordNote>, i: nat, delta: Uint32): (r: Ctx)
    requires i <= |batch| && NotesInRange(batch) && |c.active| == 128
    ensures |r.active| == 128
    ensures |c.out| <= |r.out| <= |c.out| + 8 * (|batch| - i)
    ensures r.(out := c.out, lastStatus := c.lastStatus, active := c.active) == c
    decreases |batch| - i
  {
    if i == |batch| then c
    else
      var n := batch[i].note;
      if !c.active[n] then
        var c1 := WriteMidiF(c, if i == 0 then delta else 0, NoteOnEvent(c.channel, n, c.velocity));
        OnsF(c1.(active := c1.active[n := true]), batch, i + 1, delta)
      else OnsF(c, batch, i + 1, delta)
  }

  /** One step of the Note-On loop. */
  lemma OnsFStep(c: Ctx, batch: seq<ChordNote>, i: nat, delta: Uint32)
    requires i < |batch| && NotesInRange(batch) && |c.active| == 128
    ensures var n := batch[i].note;
            OnsF(c, batch, i, delta)
            == if !c.active[n] then
                 var c1 := WriteMidiF(c, if i == 0 then delta else 0, NoteOnEvent(c.channel, n, c.velocity));
                 OnsF(c1.(active := c1.active[n := true]), batch, i + 1, delta)
               else OnsF(c, batch, i + 1, delta)
  {
  }

  /** The release loop of a batch: each untied note gets a velocity-0
      Note-On, the first of them carrying `offDelta` and moving the last
      written tick to the current tick, and stops sounding.  Returns the
      context and the last written tick. */
  function OffsF(c: Ctx, batch: seq<ChordNote>, i: nat, firstOff: bool, offDelta: Uint32, lastTick: Uint32)
    : (r: (Ctx, Uint32))
    requires i <= |batch| && NotesInRange(batch) && |c.active| == 128
    ensures |r.0.active| == 128
    ensures |c.out| <= |r.0.out| <= |c.out| + 8 * (|batch| - i)
    ensures r.0.(out := c.out, lastStatus := c.lastStatus, active := c.active) == c
    decreases |batch| - i
  {
    if i == |batch| then (c, lastTick)
    else
      var n := batch[i].note;
      if !batch[i].tied then
        var c1 := WriteMidiF(c, if firstOff then offDelta else 0, NoteOnEvent(c.channel, n, 0));
        OffsF(c1.(active := c1.active[n := false]), batch, i + 1, false, offDelta,
              if firstOff then c.currentTick % Two32 else lastTick)
      else OffsF(c, batch, i + 1, firstOff, offDelta, lastTick)
  }

  /** One step of the release loop. */
  lemma OffsFStep(c: Ctx, batch: seq<ChordNote>, i: nat, firstOff: bool, offDelta: Uint32, lastTick: Uint32)
    requires i < |batch| && NotesInRange(batch) && |c.active| == 128
    ensures var n := batch[i].note;
            OffsF(c, batch, i, firstOff, offDelta, lastTick)
            == if !batch[i].tied then
                 var c1 := WriteMidiF(c, if firstOff then offDelta else 0, NoteOnEvent(c.channel, n, 0));
                 OffsF(c1.(active := c1.active[n := false]), batch, i + 1, false, offDelta,
                       if firstOff then c.currentTick % Two32 else lastTick)
               else OffsF(c, batch, i + 1, firstOff, offDelta, lastTick)
  {
  }

  /** A gathered chord sounded and released: its new notes sound
      `current_tick - last_tick` after the last written event, the last
      written tick moves to the cursor when the batch holds anything, the
      cursor moves on by the step duration, and the untied notes are
      released that much later. */
  function SoundF(c: Ctx, batch: seq<ChordNote>, step: Uint32, lastTick: Uint32): (r: (Ctx, Uint32))
    requires NotesInRange(batch) && |c.active| == 128
    ensures |r.0.active| == 128
    ensures |c.out| <= |r.0.out| <= |c.out| + 16 * |batch|
    ensures r.0.(out := c.out, lastStatus := c.lastStatus, active := c.active, currentTick := c.currentTick) == c
  {
    var c2 := OnsF(c, batch, 0, (c.currentTick - lastTick) % Two32);
    var lt: Uint32 := if |batch| > 0 then c2.currentTick % Two32 else lastTick;
    var c3 := c2.(currentTick := (c2.currentTick + step) % Two64);
    OffsF(c3, batch, 0, true, (c3.currentTick - lt) % Two32, lt)
  }

  /** One chord step of `process_track` at a note event: gather the batch,
      sound its new notes `current_tick - last_tick` after the last written
      event, move the cursor on by the step duration and release the
      untied notes.  Returns the context and the last written tick. */
  function BatchF(c: Ctx, lastTick: Uint32): (r: (Ctx, Uint32))
    requires c.offset < |c.events| && c.events[c.offset].Note? && |c.active| == 128
    ensures r.0.offset > c.offset && |r.0.events| == |c.events| && |r.0.active| == 128
    ensures |c.out| <= |r.0.out| <= |c.out| + 16 * (r.0.offset - c.offset)
    ensures r.0.channel == c.channel && r.0.tpq == c.tpq && r.0.defaultLength == c.defaultLength
    ensures r.0.octave == c.octave && r.0.velocity == c.velocity && r.0.tempoUs == c.tempoUs
    ensures Relengthed(c.events, r.0.events)
  {
    var g := CollectF(c, [], 0);
    SoundF(g.0, g.1, g.2, lastTick)
  }

  /** `n` cleared flags (the `memset` of `active_notes`). */
  function Falses(n: nat): (r: seq<bool>)
    ensures |r| == n && forall k | 0 <= k < n :: !r[k]
  {
    if n == 0 then [] else Falses(n - 1) + [false]
  }

  /** The event loop of `process_track` from the context `c`: a note event
      starts a chord step, an End of Track event is consumed and ends the
      track, a control is applied, anything else is skipped, and the end of
      the sequence ends the track.  Returns the context, the last written
      tick and `false` where a control aborts. */
  function TrackF(c: Ctx, lastTick: Uint32): (r: (Ctx, Uint32, bool))
    requires c.offset <= |c.events| && |c.active| == 128 && TempoArgsPositive(c.events)
    ensures r.0.offset <= |r.0.events| && r.0.offset >= c.offset && |r.0.active| == 128
    ensures Relengthed(c.events, r.0.events) && TempoArgsPositive(r.0.events)
    ensures c.offset < |c.events| ==> r.0.offset > c.offset
    ensures |c.out| <= |r.0.out| <= |c.out| + 16 * (r.0.offset - c.offset)
    ensures r.0.channel == c.channel && r.0.tpq == c.tpq
    decreases |c.events| - c.offset
  {
    if c.offset == |c.events| then (c, lastTick, true)
    else
      match c.events[c.offset]
      case EndOfTrack => (c.(offset := c.offset + 1), lastTick, true)
      case Control(cmd, arg) =>
        (match ControlF(c.(offset := c.offset + 1), cmd, arg)
         case None => (c.(offset := c.offset + 1), lastTick, false)
         case Some(c2) => TrackF(c2, lastTick))
      case Note(_, _, _, _, _, _) =>
        var b := BatchF(c, lastTick);
        RelengthedTempoArgs(c.events, b.0.events);
        var r := TrackF(b.0, b.1);
        RelengthedTrans(c.events, b.0.events, r.0.events);
        r
  }

  /** The steps of the event loop, one per kind of event. */
  lemma TrackFAtEnd(c: Ctx, lastTick: Uint32)
    requires c.offset < |c.events| && c.events[c.offset].EndOfTrack? && |c.active| == 128 && TempoArgsPositive(c.events)
    ensures TrackF(c, lastTick) == (c.(offset := c.offset + 1), lastTick, true)
  {
  }

  lemma TrackFAtControl(c: Ctx, lastTick: Uint32)
    requires c.offset < |c.events| && c.events[c.offset].Control? && |c.active| == 128 && TempoArgsPositive(c.events)
    ensures var e := c.events[c.offset]; var c1 := c.(offset := c.offset + 1);
            e.cmd == 't' as int ==> e.value > 0
    ensures var e := c.events[c.offset]; var c1 := c.(offset := c.offset + 1);
            var r := ControlF(c1, e.cmd, e.value);
            TrackF(c, lastTick) == if r.None? then (c1, lastTick, false) else TrackF(r.value, lastTick)
  {
    var e := c.events[c.offset];
    assert e == Control(e.cmd, e.value);
  }

  lemma TrackFAtNote(c: Ctx, lastTick: Uint32)
    requires c.offset < |c.events| && c.events[c.offset].Note? && |c.active| == 128 && TempoArgsPositive(c.events)
    ensures var b := BatchF(c, lastTick); TempoArgsPositive(b.0.events) && TrackF(c, lastTick) == TrackF(b.0, b.1)
  {
    RelengthedTempoArgs(c.events, BatchF(c, lastTick).0.events);
  }

  /** `process_track`: all notes released, nothing written yet. */
  function ProcessTrackF(c: Ctx): (r: (Ctx, Uint32, bool))
    requires c.offset <= |c.events| && TempoArgsPositive(c.events)
    ensures r.0.offset <= |r.0.events| && r.0.offset >= c.offset && |r.0.active| == 128
    ensures Relengthed(c.events, r.0.events) && TempoArgsPositive(r.0.events)
    ensures c.offset < |c.events| ==> r.0.offset > c.offset
    ensures |c.out| <= |r.0.out| <= |c.out| + 16 * (r.0.offset - c.offset)
    ensures r.0.channel == c.channel && r.0.tpq == c.tpq
  {
    TrackF(c.(active := Falses(128)), 0)
  }

  /** The per-track reset of `mml_write_midi` and the tempo event at delta
      0 that opens every track. */
  function TrackStart(c: Ctx): (r: Ctx)
  {
    c.(currentTick := 0, defaultLength := DefaultLength, tempoUs := DefaultTempo, octave := DefaultOctave,
       velocity := DefaultVelocity, lastStatus := 0, out := TrackEventBytes(TempoEvent(0, DefaultTempo)).value)
  }

  /** One track of `mml_write_midi`: the reset, the tempo event,
      `process_track` and the End of Track event whose delta is the last
      written tick.  The context's `out` is then the track's data. */
  function OneTrackF(c: Ctx): (r: (Ctx, bool))
    requires c.offset < |c.events| && TempoArgsPositive(c.events)
    ensures r.0.offset <= |r.0.events| && r.0.offset > c.offset && r.0.channel == c.channel
    ensures Relengthed(c.events, r.0.events) && TempoArgsPositive(r.0.events)
  {
    var p := ProcessTrackF(TrackStart(c));
    (p.0.(out := p.0.out + TrackEventBytes(EndOfTrackEvent(p.1)).value), p.2)
  }

  /** The track loop of `mml_write_midi`: while events remain a track is
      written; the channel goes up by one per track (eight bits) and the
      loop stops when it reaches 16.  Returns the context, the track data
      and `false` where a control aborts. */
  function TracksF(c: Ctx, tracks: seq<seq<Byte>>): (r: (Ctx, seq<seq<Byte>>, bool))
    requires c.offset <= |c.events| && TempoArgsPositive(c.events) && c.channel < Channels
    ensures |r.1| <= |tracks| + Channels - c.channel
    ensures r.0.offset <= |r.0.events| && Relengthed(c.events, r.0.events)
    decreases |c.events| - c.offset
  {
    if c.offset == |c.events| then (c, tracks, true)
    else
      var t := OneTrackF(c);
      if !t.1 then (t.0, tracks, false)
      else
        // the channel is below 16 here, so its eight-bit increment does not wrap
        var c3 := t.0.(channel := c.channel + 1);
        if c3.channel >= Channels then (c3, tracks + [t.0.out], true)
        else
          var r := TracksF(c3, tracks + [t.0.out]);
          RelengthedTrans(c.events, t.0.events, r.0.events);
          r
  }

  /** The steps of the track loop: it ends when the events run out,
      and otherwise writes a track and goes on unless it aborted or the
      channels ran out. */
  lemma TracksFAtEnd(c: Ctx, tracks: seq<seq<Byte>>)
    requires c.offset == |c.events| && TempoArgsPositive(c.events) && c.channel < Channels
    ensures TracksF(c, tracks) == (c, tracks, true)
  {
  }

  lemma TracksFStep(c: Ctx, tracks: seq<seq<Byte>>)
    requires c.offset < |c.events| && TempoArgsPositive(c.events) && c.channel < Channels
    ensures var t := OneTrackF(c); var c3 := t.0.(channel := c.channel + 1);
            TracksF(c, tracks) == if !t.1 then (t.0, tracks, false)
                                  else if c3.channel >= Channels then (c3, tracks + [t.0.out], true)
                                  else TracksF(c3, tracks + [t.0.out])
  {
  }

  /** No note is linked to the next one in a chord (so a chord step holds
      at most one note). */
  predicate NoChordLinks(events: seq<Event>)
  {
    forall k | 0 <= k < |events| :: events[k].Note? ==> !events[k].chordLink
  }

  lemma RelengthedChordLinks(a: seq<Event>, b: seq<Event>)
    requires Relengthed(a, b) && NoChordLinks(a)
    ensures NoChordLinks(b)
  {
    forall k | 0 <= k < |b| && b[k].Note?
      ensures !b[k].chordLink
    {
      assert a[k].Note?;
    }
  }

  /** The context `mml_write_midi` starts from: the initialiser names the
      writer, the events, offset 0, running status 0 and 480 ticks per
      quarter note, and every other member is zero. */
  function InitialCtx(events: seq<Event>): Ctx
  {
    Ctx(events, 0, 0, 0, TicksPerQuarter, 0, 0, 0, 0, 0, Falses(128), [])
  }

  /** `mml_write_midi` on an event sequence: the track data of the file it
      writes, the event sequence with its rewritten lengths, and `false`
      where a control command aborts. */
  function Translation(events: seq<Event>): (r: (seq<seq<Byte>>, seq<Event>, bool))
    requires TempoArgsPositive(events)
    ensures |r.0| <= Channels && Relengthed(events, r.1)
  {
    var r := TracksF(InitialCtx(events), []);
    (r.1, r.0.events, r.2)
  }
}
