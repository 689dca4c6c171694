/** Properties of the translation of `mml-writer-midi.c`: tracks only grow,
    every track opens with the default tempo and closes with End of Track,
    a rest only moves time on, and a lone note is a Note-On followed by its
    release one duration later under running status. */
module TranslatorProps {
  import opened Bytes
  import opened Mml
  import opened MidiCodec
  import opened Translator

  // ---------------------------------------------------------------------------
  // The open track's data only grows
  // ---------------------------------------------------------------------------

  lemma {:induction false} OnsFExtends(c: Ctx, batch: seq<ChordNote>, i: nat, delta: Uint32)
    requires i <= |batch| && NotesInRange(batch) && |c.active| == 128
    ensures c.out <= OnsF(c, batch, i, delta).out
    decreases |batch| - i
  {
    if i < |batch| {
      var n := batch[i].note;
      if !c.active[n] {
        var c1 := WriteMidiF(c, if i == 0 then delta else 0, NoteOnEvent(c.channel, n, c.velocity));
        OnsFExtends(c1.(active := c1.active[n := true]), batch, i + 1, delta);
      } else {
        OnsFExtends(c, batch, i + 1, delta);
      }
    }
  }

  lemma {:induction false} OffsFExtends(c: Ctx, batch: seq<ChordNote>, i: nat, firstOff: bool, offDelta: Uint32,
                                        lastTick: Uint32)
    requires i <= |batch| && NotesInRange(batch) && |c.active| == 128
    ensures c.out <= OffsF(c, batch, i, firstOff, offDelta, lastTick).0.out
    decreases |batch| - i
  {
    if i < |batch| {
      var n := batch[i].note;
      if !batch[i].tied {
        var c1 := WriteMidiF(c, if firstOff then offDelta else 0, NoteOnEvent(c.channel, n, 0));
        OffsFExtends(c1.(active := c1.active[n := false]), batch, i + 1, false, offDelta,
                     if firstOff then c.currentTick % Two32 else lastTick);
      } else {
        OffsFExtends(c, batch, i + 1, firstOff, offDelta, lastTick);
      }
    }
  }

  lemma SoundFExtends(c: Ctx, batch: seq<ChordNote>, step: Uint32, lastTick: Uint32)
    requires NotesInRange(batch) && |c.active| == 128
    ensures c.out <= SoundF(c, batch, step, lastTick).0.out
  {
    var delta := (c.currentTick - lastTick) % Two32;
    var c2 := OnsF(c, batch, 0, delta);
    var lt: Uint32 := if |batch| > 0 then c2.currentTick % Two32 else lastTick;
    var c3 := c2.(currentTick := (c2.currentTick + step) % Two64);
    var r := OffsF(c3, batch, 0, true, (c3.currentTick - lt) % Two32, lt);
    assert c.out <= c3.out by {
      OnsFExtends(c, batch, 0, delta);
    }
    assert c3.out <= r.0.out by {
      OffsFExtends(c3, batch, 0, true, (c3.currentTick - lt) % Two32, lt);
    }
    assert SoundF(c, batch, step, lastTick) == r;
    PrefixTrans(c.out, c3.out, r.0.out);
  }

  lemma PrefixTrans(a: seq<Byte>, b: seq<Byte>, c: seq<Byte>)
    requires a <= b && b <= c
    ensures a <= c
  {
    assert c[..|b|][..|a|] == c[..|a|];
  }

  lemma BatchFExtends(c: Ctx, lastTick: Uint32)
    requires c.offset < |c.events| && c.events[c.offset].Note? && |c.active| == 128
    ensures c.out <= BatchF(c, lastTick).0.out
  {
    var g := CollectF(c, [], 0);
    assert g.0.out == c.out;
    SoundFExtends(g.0, g.1, g.2, lastTick);
  }

  /** The event loop of a track only appends to the track's data. */
  lemma {:induction false} TrackFExtends(c: Ctx, lastTick: Uint32)
    requires c.offset <= |c.events| && |c.active| == 128 && TempoArgsPositive(c.events)
    ensures c.out <= TrackF(c, lastTick).0.out
    decreases |c.events| - c.offset
  {
    if c.offset < |c.events| {
      var e := c.events[c.offset];
      if e.EndOfTrack? {
        TrackFAtEnd(c, lastTick);
      } else if e.Control? {
        TrackFAtControl(c, lastTick);
        var r := ControlF(c.(offset := c.offset + 1), e.cmd, e.value);
        if r.Some? {
          if e.cmd == 't' as int {
            TempoEventBytes(0, 60000000 / e.value);
          }
          TrackFExtends(r.value, lastTick);
        }
      } else {
        TrackFAtNote(c, lastTick);
        var b := BatchF(c, lastTick);
        BatchFExtends(c, lastTick);
        TrackFExtends(b.0, b.1);
      }
    }
  }

  // ---------------------------------------------------------------------------
  // The shape of every track
  // ---------------------------------------------------------------------------

  /** The Set Tempo event at delta 0 for 500000 microseconds per quarter
      note (120 beats per minute). */
  const DefaultTempoBytes: seq<Byte> := [0x00, 0xFF, 0x51, 0x03, 0x07, 0xA1, 0x20]

  /** A track's data opens with the default tempo event and closes with an
      End of Track meta event. */
  predicate Framed(t: seq<Byte>)
  {
    |t| >= 11 && t[..7] == DefaultTempoBytes && t[|t| - 3..] == [0xFF, 0x2F, 0x00]
  }

  lemma TrackStartTempo(c: Ctx)
    ensures TrackStart(c).out == DefaultTempoBytes
  {
    TempoEventBytes(0, DefaultTempo);
    assert VlqBytes(0) == [0];
    assert TempoData(DefaultTempo) == [0x07, 0xA1, 0x20];
  }

  lemma OneTrackFramed(c: Ctx)
    requires c.offset < |c.events| && TempoArgsPositive(c.events)
    ensures Framed(OneTrackF(c).0.out)
  {
    var s := TrackStart(c);
    TrackStartTempo(c);
    TrackFExtends(s.(active := Falses(128)), 0);
    var p := ProcessTrackF(s);
    EndOfTrackBytes(p.1);
    var eot := TrackEventBytes(EndOfTrackEvent(p.1)).value;
    var t := p.0.out + eot;
    assert |VlqBytes(p.1)| >= 1;
    assert t[|t| - 3..] == eot[|eot| - 3..];
    assert t[..7] == p.0.out[..7];
  }

  /** `all` is `tracks` followed by framed tracks. */
  predicate FramedAfter(tracks: seq<seq<Byte>>, all: seq<seq<Byte>>)
  {
    |tracks| <= |all| && all[..|tracks|] == tracks && forall k | |tracks| <= k < |all| :: Framed(all[k])
  }

  lemma FramedAfterCons(tracks: seq<seq<Byte>>, t: seq<Byte>, all: seq<seq<Byte>>)
    requires Framed(t) && FramedAfter(tracks + [t], all)
    ensures FramedAfter(tracks, all)
  {
    assert all[..|tracks|] == all[..|tracks| + 1][..|tracks|];
  }

  /** The track loop keeps the tracks it was given and adds only framed
      ones. */
  lemma {:induction false} TracksFFramed(c: Ctx, tracks: seq<seq<Byte>>)
    requires c.offset <= |c.events| && TempoArgsPositive(c.events) && c.channel < Channels
    ensures FramedAfter(tracks, TracksF(c, tracks).1)
    decreases |c.events| - c.offset
  {
    if c.offset == |c.events| {
      TracksFAtEnd(c, tracks);
    } else {
      TracksFStep(c, tracks);
      var t := OneTrackF(c);
      if t.1 {
        OneTrackFramed(c);
        var c3 := t.0.(channel := c.channel + 1);
        var ts := tracks + [t.0.out];
        if c3.channel < Channels {
          TracksFFramed(c3, ts);
          FramedAfterCons(tracks, t.0.out, TracksF(c3, ts).1);
        } else {
          assert ts[..|tracks|] == tracks;
        }
      }
    }
  }

  /** Every track of the file opens with the tempo event and closes with
      End of Track, and there is one track per channel at most. */
  lemma TranslationFramed(events: seq<Event>)
    requires TempoArgsPositive(events)
    ensures var r := Translation(events);
            |r.0| <= Channels && forall k | 0 <= k < |r.0| :: Framed(r.0[k])
  {
    TracksFFramed(InitialCtx(events), []);
    assert FramedAfter([], Translation(events).0);
  }

  /** Without events there is no track. */
  lemma TranslationEmpty()
    ensures Translation([]) == ([], [], true)
  {
  }

  // ---------------------------------------------------------------------------
  // One chord step
  // ---------------------------------------------------------------------------

  /** Shifting by a multiple of 2^32 keeps the 32-bit residue. */
  lemma ModShift(a: int, k: int)
    ensures (a + k * Two32) % Two32 == a % Two32
  {
    var q, m := a / Two32, a % Two32;
    assert a + k * Two32 == (q + k) * Two32 + m;
  }

  /** The cursor is a `size_t` and the last written tick a `uint32_t`: moved
      on by `d`, the cursor is `d` past its own 32-bit value in 32-bit
      arithmetic, and it truncates to 32 bits as the unbounded sum does. */
  lemma TickDifference(x: nat, d: Uint32)
    ensures (((x + d) % Two64) - x % Two32) % Two32 == d
    ensures ((x + d) % Two64) % Two32 == (x + d) % Two32
  {
    var q := (x + d) / Two64;
    var p := x / Two32;
    assert (x + d) % Two64 == x + d + (-q * Two32) * Two32;
    assert ((x + d) % Two64) - x % Two32 == d + (p - q * Two32) * Two32;
    ModShift(d, p - q * Two32);
    ModShift(x + d, -q * Two32);
  }

  /** The length a note event is given and its duration in the context. */
  function StepLength(c: Ctx, e: Event): Uint32
    requires e.Note?
  {
    if e.length == 0 then c.defaultLength else e.length
  }

  function StepTicks(c: Ctx, e: Event): Uint32
    requires e.Note?
  {
    DurationTicks(StepLength(c, e), e.dots % Two32, c.tpq)
  }

  /** A rest (a note event whose letter names no note) writes nothing,
      leaves the last written tick and the running status alone, and moves
      the cursor on by its duration. */
  lemma RestStep(c: Ctx, lastTick: Uint32)
    requires c.offset < |c.events| && |c.active| == 128
    requires var e := c.events[c.offset]; e.Note? && !e.chordLink && PitchToMidiNote(e.pitch, c.octave % 0x100, e.acc) < 0
    ensures var e := c.events[c.offset]; var r := BatchF(c, lastTick);
            && r.1 == lastTick
            && r.0 == c.(events := c.events[c.offset := e.(length := StepLength(c, e))], offset := c.offset + 1,
                         currentTick := (c.currentTick + StepTicks(c, e)) % Two64)
  {
    var g := CollectF(c, [], 0);
    assert g.1 == [];
  }

  /** The Note-On loop over a single note not sounding yet. */
  lemma OnsOne(c: Ctx, n: Byte, delta: Uint32)
    requires n < 128 && |c.active| == 128 && !c.active[n] && c.channel < 0x10
    ensures var status := 0x90 + c.channel;
            OnsF(c, [ChordNote(n, false)], 0, delta)
            == c.(out := c.out + VlqBytes(delta) + (if c.lastStatus == status then [] else [status]) + [n, c.velocity],
                  lastStatus := status, active := c.active[n := true])
  {
    var on := NoteOnEvent(c.channel, n, c.velocity);
    WriteMidiRunningStatus(c, delta, on);
    StatusByteValue(NoteOn, c.channel);
    OnsFStep(c, [ChordNote(n, false)], 0, delta);
  }

  /** The release loop over a single untied note. */
  lemma OffsOne(c: Ctx, n: Byte, offDelta: Uint32, lastTick: Uint32)
    requires n < 128 && |c.active| == 128 && c.channel < 0x10
    ensures var status := 0x90 + c.channel;
            OffsF(c, [ChordNote(n, false)], 0, true, offDelta, lastTick)
            == (c.(out := c.out + VlqBytes(offDelta) + (if c.lastStatus == status then [] else [status]) + [n, 0],
                   lastStatus := status, active := c.active[n := false]),
                c.currentTick % Two32)
  {
    var off := NoteOnEvent(c.channel, n, 0);
    WriteMidiRunningStatus(c, offDelta, off);
    StatusByteValue(NoteOn, c.channel);
    OffsFStep(c, [ChordNote(n, false)], 0, true, offDelta, lastTick);
  }

  /** A lone note's chord step releases it `step` ticks after its Note-On,
      the last written tick being the cursor at the Note-On. */
  lemma SoundOneSplit(c: Ctx, n: Byte, step: Uint32, lastTick: Uint32)
    requires n < 128 && |c.active| == 128
    ensures var c2 := OnsF(c, [ChordNote(n, false)], 0, (c.currentTick - lastTick) % Two32);
            SoundF(c, [ChordNote(n, false)], step, lastTick)
            == OffsF(c2.(currentTick := (c.currentTick + step) % Two64), [ChordNote(n, false)], 0, true, step, c.currentTick % Two32)
  {
    var c2 := OnsF(c, [ChordNote(n, false)], 0, (c.currentTick - lastTick) % Two32);
    assert c2.currentTick == c.currentTick;
    TickDifference(c.currentTick, step);
  }

  /** The Note-On half of a lone note's chord step. */
  lemma SoundOneOns(c: Ctx, n: Byte, step: Uint32, lastTick: Uint32)
    requires n < 128 && |c.active| == 128 && !c.active[n] && c.channel < 0x10
    ensures var delta := (c.currentTick - lastTick) % Two32;
            var status := 0x90 + c.channel;
            var c3 := c.(out := c.out + VlqBytes(delta) + (if c.lastStatus == status then [] else [status]) + [n, c.velocity],
                         lastStatus := status, active := c.active[n := true], currentTick := (c.currentTick + step) % Two64);
            SoundF(c, [ChordNote(n, false)], step, lastTick) == OffsF(c3, [ChordNote(n, false)], 0, true, step, c.currentTick % Two32)
  {
    SoundOneSplit(c, n, step, lastTick);
    OnsOne(c, n, (c.currentTick - lastTick) % Two32);
  }

  /** Under its channel's Note-On running status a single untied note is
      released by its pitch and velocity 0 alone. */
  lemma OffsRunning(d: Ctx, n: Byte, offDelta: Uint32, lastTick: Uint32)
    requires n < 128 && |d.active| == 128 && d.channel < 0x10 && d.lastStatus == 0x90 + d.channel
    ensures OffsF(d, [ChordNote(n, false)], 0, true, offDelta, lastTick)
            == (d.(out := d.out + VlqBytes(offDelta) + [n, 0], active := d.active[n := false]), d.currentTick % Two32)
  {
    OffsOne(d, n, offDelta, lastTick);
  }

  /** A batch of one untied note that is not sounding: its Note-On at the
      context's velocity `current_tick - last_tick` after the last written
      event (the status byte left out when it is the running one), then its
      release by a velocity-0 Note-On one step later under running status.
      The last written tick becomes the moved cursor, the running status the
      channel's Note-On, and the note no longer sounds. */
  lemma SoundOne(c: Ctx, n: Byte, step: Uint32, lastTick: Uint32)
    requires n < 128 && |c.active| == 128 && !c.active[n] && c.channel < 0x10
    ensures var status := 0x90 + c.channel;
            var r := SoundF(c, [ChordNote(n, false)], step, lastTick);
            && r.0.out == c.out + VlqBytes((c.currentTick - lastTick) % Two32)
                          + (if c.lastStatus == status then [] else [status]) + [n, c.velocity]
                          + VlqBytes(step) + [n, 0]
            && r.1 == (c.currentTick + step) % Two32
            && r.0 == c.(currentTick := (c.currentTick + step) % Two64, lastStatus := status, out := r.0.out)
  {
    var delta := (c.currentTick - lastTick) % Two32;
    var status := 0x90 + c.channel;
    var onBytes := c.out + VlqBytes(delta) + (if c.lastStatus == status then [] else [status]) + [n, c.velocity];
    var c3 := c.(out := onBytes, lastStatus := status, active := c.active[n := true],
                 currentTick := (c.currentTick + step) % Two64);
    SoundOneOns(c, n, step, lastTick);
    OffsRunning(c3, n, step, c.currentTick % Two32);
    TickDifference(c.currentTick, step);
    assert c.active[n := true][n := false] == c.active;
  }

  /** A lone untied note event, not sounding yet, is sounded and released
      one duration later, its length 0 rewritten to the default. */
  lemma NoteStep(c: Ctx, lastTick: Uint32)
    requires c.offset < |c.events| && |c.active| == 128 && c.channel < 0x10
    requires var e := c.events[c.offset]; e.Note? && !e.chordLink && !e.tie
    requires var e := c.events[c.offset]; var n := PitchToMidiNote(e.pitch, c.octave % 0x100, e.acc);
             n >= 0 && !c.active[n]
    ensures var e := c.events[c.offset];
            var n := PitchToMidiNote(e.pitch, c.octave % 0x100, e.acc);
            var c1 := c.(events := c.events[c.offset := e.(length := StepLength(c, e))], offset := c.offset + 1);
            BatchF(c, lastTick) == SoundF(c1, [ChordNote(n, false)], StepTicks(c, e), lastTick)
  {
    var g := CollectF(c, [], 0);
    assert g.1 == [ChordNote(PitchToMidiNote(c.events[c.offset].pitch, c.octave % 0x100, c.events[c.offset].acc), false)];
  }

  // ---------------------------------------------------------------------------
  // A whole translation
  // ---------------------------------------------------------------------------

  /** The events of `t120 o4 c4;`. */
  const TempoOctaveNote: seq<Event> :=
    [Control('t' as int, 120), Control('o' as int, 4), Note('c' as int, 4, 0, 0, false, false), EndOfTrack]

  /** Its one track: the default tempo, the tempo of `t120` (also 500000
      microseconds per quarter note), a Note-On of middle C at velocity 100
      on channel 0 at delta 0, its release 480 ticks (VLQ 83 60) later under
      running status, and End of Track with the last written tick, 480, as
      its delta. */
  const TempoOctaveNoteTrack: seq<Byte> :=
    DefaultTempoBytes + DefaultTempoBytes + [0x00, 0x90, 0x3C, 0x64] + [0x83, 0x60, 0x3C, 0x00] + [0x83, 0x60] + [0xFF, 0x2F, 0x00]

  /** The contexts the translation of `t120 o4 c4;` passes through: the
      start of the track, after `t120` (the same tempo again), after `o4`
      (the same octave again), after the note, and after End of Track. */
  const AtStart: Ctx := Ctx(TempoOctaveNote, 0, 0, DefaultTempo, TicksPerQuarter, 0, DefaultLength, DefaultOctave,
                            DefaultVelocity, 0, Falses(128), DefaultTempoBytes)
  const AfterTempo: Ctx := AtStart.(offset := 1, out := DefaultTempoBytes + DefaultTempoBytes)
  const AfterOctave: Ctx := AfterTempo.(offset := 2)
  const AfterNote: Ctx := AfterOctave.(offset := 3, currentTick := 480, lastStatus := 0x90,
                                       out := AfterOctave.out + [0x00, 0x90, 0x3C, 0x64] + [0x83, 0x60, 0x3C, 0x00])

  lemma ExampleStart()
    ensures TrackStart(InitialCtx(TempoOctaveNote)).(active := Falses(128)) == AtStart
  {
    TrackStartTempo(InitialCtx(TempoOctaveNote));
  }

  lemma ExampleTempoData()
    ensures 60000000 / 120 == DefaultTempo
    ensures TrackEventBytes(TempoEvent(0, DefaultTempo)).value == DefaultTempoBytes
  {
    TrackStartTempo(AtStart);
  }

  lemma ExampleTempo()
    ensures TrackF(AtStart, 0) == TrackF(AfterTempo, 0)
  {
    TrackFAtControl(AtStart, 0);
    ExampleTempoData();
  }

  lemma ExampleOctave()
    ensures TrackF(AfterTempo, 0) == TrackF(AfterOctave, 0)
  {
    TrackFAtControl(AfterTempo, 0);
  }

  lemma ExampleNoteFields()
    ensures VlqBytes(480) == [0x83, 0x60] && VlqBytes(0) == [0]
  {
  }

  lemma ExampleEventsUpdate()
    ensures TempoOctaveNote[2 := TempoOctaveNote[2]] == TempoOctaveNote
  {
  }

  /** At the note `c4` of the example, with octave 4 and the default
      length and resolution, one note is collected and lasts 480 ticks. */
  lemma ExampleNoteBatch(c: Ctx)
    requires c.events == TempoOctaveNote && c.offset == 2 && c.octave == 4 && c.defaultLength == 4
    requires c.tpq == TicksPerQuarter && |c.active| == 128 && !c.active[60] && c.channel < 0x10
    ensures BatchF(c, 0) == SoundF(c.(offset := 3), [ChordNote(60, false)], 480, 0)
  {
    var e := c.events[2];
    assert e == Note('c' as int, 4, 0, 0, false, false);
    assert Halved(480, 0) == 480;
    assert PitchToMidiNote(e.pitch, c.octave % 0x100, e.acc) == 60;
    assert StepTicks(c, e) == 480;
    NoteStep(c, 0);
    ExampleEventsUpdate();
    assert c.events[2 := e.(length := StepLength(c, e))] == c.events;
  }

  /** Regrouping the bytes of a lone note written at delta 0. */
  lemma OnOffRegroup(o: seq<Byte>, d: seq<Byte>, s: Byte, n: Byte, v: Byte, vs: seq<Byte>)
    requires d == [0]
    ensures o + d + [s] + [n, v] + vs + [n, 0] == o + [0x00, s, n, v] + (vs + [n, 0])
  {
    assert d + [s] + [n, v] == [0x00, s, n, v];
  }

  /** From tick 0 the first delta is 0 and the cursor moves to `step`. */
  lemma FromTickZero(t: nat, lastTick: Uint32, step: Uint32)
    requires t == 0 && lastTick == 0
    ensures (t - lastTick) % Two32 == 0
    ensures (t + step) % Two32 == step && (t + step) % Two64 == step
  {
  }

  /** A note sounded from tick 0, with no running status yet, starts at
      delta 0 with its status byte and ends `step` ticks later. */
  lemma SoundFirst(c: Ctx, n: Byte, step: Uint32, lastTick: Uint32)
    requires n < 128 && |c.active| == 128 && !c.active[n] && c.channel < 0x10
    requires c.currentTick == 0 && lastTick == 0 && c.lastStatus != 0x90 + c.channel
    ensures SoundF(c, [ChordNote(n, false)], step, lastTick)
            == (c.(currentTick := step, lastStatus := 0x90 + c.channel,
                   out := c.out + [0x00, 0x90 + c.channel, n, c.velocity] + (VlqBytes(step) + [n, 0])), step)
  {
    SoundOne(c, n, step, lastTick);
    FromTickZero(c.currentTick, lastTick, step);
    ExampleNoteFields();
    OnOffRegroup(c.out, VlqBytes(0), 0x90 + c.channel, n, c.velocity, VlqBytes(step));
  }

  /** Sounding middle C for 480 ticks at tick 0 with no running status. */
  lemma ExampleNoteSound(c1: Ctx)
    requires c1.currentTick == 0 && c1.lastStatus == 0 && c1.channel == 0 && c1.velocity == 100
    requires |c1.active| == 128 && !c1.active[60]
    ensures SoundF(c1, [ChordNote(60, false)], 480, 0)
            == (c1.(currentTick := 480, lastStatus := 0x90, out := c1.out + [0x00, 0x90, 0x3C, 0x64] + [0x83, 0x60, 0x3C, 0x00]), 480)
  {
    SoundFirst(c1, 60, 480, 0);
    ExampleNoteFields();
    assert VlqBytes(480) + [60, 0] == [0x83, 0x60, 0x3C, 0x00];
  }

  lemma ExampleEnd()
    ensures TrackF(AfterOctave, 0) == (AfterNote.(offset := 4), 480, true)
  {
    TrackFAtNote(AfterOctave, 0);
    ExampleNoteBatch(AfterOctave);
    ExampleNoteSound(AfterOctave.(offset := 3));
    assert AfterOctave.(offset := 3).(currentTick := 480, lastStatus := 0x90, out := AfterNote.out) == AfterNote;
    TrackFAtEnd(AfterNote, 480);
  }

  lemma ExampleProcess(c: Ctx)
    requires c == InitialCtx(TempoOctaveNote)
    ensures ProcessTrackF(TrackStart(c)) == (AfterNote.(offset := 4), 480, true)
  {
    ExampleStart();
    ExampleTempo();
    ExampleOctave();
    ExampleEnd();
  }

  lemma ExampleBytes()
    ensures AfterNote.out + VlqBytes(480) + [0xFF, 0x2F, 0x00] == TempoOctaveNoteTrack
  {
    ExampleNoteFields();
  }

  lemma ExampleOneTrack(c: Ctx)
    requires c == InitialCtx(TempoOctaveNote)
    ensures OneTrackF(c) == (AfterNote.(offset := 4, out := TempoOctaveNoteTrack), true)
  {
    ExampleProcess(c);
    var p := ProcessTrackF(TrackStart(c));
    EndOfTrackBytes(480);
    ExampleBytes();
    assert p.0.out + TrackEventBytes(EndOfTrackEvent(p.1)).value == TempoOctaveNoteTrack;
    assert p.0.(out := TempoOctaveNoteTrack) == AfterNote.(offset := 4, out := TempoOctaveNoteTrack);
  }

  /** `t120 o4 c4;` becomes the one track above, and its note keeps its
      length. */
  lemma TempoOctaveNoteTranslation()
    ensures Translation(TempoOctaveNote) == ([TempoOctaveNoteTrack], TempoOctaveNote, true)
  {
    var c0 := InitialCtx(TempoOctaveNote);
    ExampleOneTrack(c0);
    TracksFStep(c0, []);
    var t := OneTrackF(c0);
    var c3 := AfterNote.(offset := 4, out := TempoOctaveNoteTrack, channel := 1);
    assert t.0.(channel := c0.channel + 1) == c3;
    assert [] + [t.0.out] == [TempoOctaveNoteTrack];
    assert TracksF(c0, []) == TracksF(c3, [TempoOctaveNoteTrack]);
    assert c3.events == TempoOctaveNote;
    TracksFAtEnd(c3, [TempoOctaveNoteTrack]);
  }
}
