/** The translator as the source writes it: `mml_context` as a class whose
    methods update its fields, the writer and the 128 sounding-note flags in
    place, each proved to do what the corresponding function of `Translator`
    describes. */
module MmlWriterMidi {
  import opened Bytes
  import opened Mml
  import opened MidiCodec
  import opened MidiWriter
  import opened Translator

  /** `write_tempo`: a Set Tempo event built in a 16-byte buffer and appended
      to the open track. */
  method WriteTempo(mw: Writer, delta: Uint32, tempo: Uint32) returns (r: int)
    requires mw.InTrack() && mw.i + 11 < Two32
    modifies mw`i, mw`body, mw.dst
    ensures r == 0 && mw.InTrack() && mw.dst == old(mw.dst)
    ensures mw.body == old(mw.body) + TrackEventBytes(TempoEvent(delta, tempo)).value
    ensures mw.i == old(mw.i) + |mw.body| - |old(mw.body)|
  {
    var data := [tempo / 0x1_0000 % 0x100, tempo / 0x100 % 0x100, tempo % 0x100];
    var ev := Meta(delta, 0x51, 3, data);
    var buffer := new Byte[16](_ => 0);
    TempoEventBytes(delta, tempo);
    var result := TrackEventToBytes(ev, buffer, 0);
    assert buffer[..][..result] == TrackEventBytes(ev).value;
    r := mw.TrackAppend(buffer[..], result);
  }

  /** `write_end_of_track`: an End of Track event appended to the open track. */
  method WriteEndOfTrack(mw: Writer, delta: Uint32) returns (r: int)
    requires mw.InTrack() && mw.i + 8 < Two32
    modifies mw`i, mw`body, mw.dst
    ensures r == 0 && mw.InTrack() && mw.dst == old(mw.dst)
    ensures mw.body == old(mw.body) + TrackEventBytes(EndOfTrackEvent(delta)).value
    ensures mw.i == old(mw.i) + |mw.body| - |old(mw.body)|
  {
    var ev := Meta(delta, 0x2F, 0, []);
    var buffer := new Byte[16](_ => 0);
    EndOfTrackBytes(delta);
    var result := TrackEventToBytes(ev, buffer, 0);
    assert buffer[..][..result] == TrackEventBytes(ev).value;
    r := mw.TrackAppend(buffer[..], result);
  }

  /** The 16-byte buffer `write_midi` fills: the delta, then the message
      (without its status byte when `rolling`); -1 for a kind with no
      encoding. */
  method MidiBuffer(delta: Uint32, e: MidiEvent, rolling: bool) returns (buffer: array<Byte>, n: int)
    ensures fresh(buffer) && buffer.Length == 16
    ensures !KnownKind(e.kind) ==> n == -1
    ensures KnownKind(e.kind) ==> 0 <= n <= 8 && buffer[..n] == VlqBytes(delta) + EventBytes(e, rolling).value
  {
    buffer := new Byte[16](_ => 0);
    var k := VlqEncode(delta, buffer, 0);
    var result := EventToBytes(e, buffer, k, rolling);
    if result < 0 {
      return buffer, -1;
    }
    assert buffer[..][..k + result] == VlqBytes(delta) + EventBytes(e, rolling).value;
    n := k + result;
  }

  /** `mml_context`.  The writer, the event sequence and the flag array are
      fixed at construction; `Abs` is the context as a `Ctx` value whose
      `out` is the data of the writer's open track. */
  class Context {
    const mw: Writer
    var lastStatus: Byte
    const events: DynArray<Event>
    var offset: nat
    var tempoUs: Uint32
    var tpq: Uint32
    /** A `size_t`: kept modulo 2^64. */
    var currentTick: nat
    var defaultLength: Uint32
    var octave: int
    var velocity: Byte
    var channel: Byte
    const active: array<bool>

    ghost function Abs(): Ctx
      reads this, events, active, mw
    {
      Ctx(events.items, offset, lastStatus, tempoUs, tpq, currentTick, defaultLength, octave, velocity, channel,
          active[..], mw.body)
    }

    /** The initialiser of `mml_write_midi`. */
    constructor (w: Writer, evs: DynArray<Event>)
      ensures mw == w && events == evs && fresh(active) && active.Length == 128
      ensures Abs() == InitialCtx(evs.items).(out := w.body)
    {
      mw := w;
      events := evs;
      lastStatus := 0;
      offset := 0;
      tempoUs := 0;
      tpq := TicksPerQuarter;
      currentTick := 0;
      defaultLength := 0;
      octave := 0;
      velocity := 0;
      channel := 0;
      active := new bool[128](_ => false);
      new;
      assert active[..] == Falses(128);
    }

    /** `write_midi`: the delta and the message, its status byte left out
        when it is the running one, appended to the open track; a kind with
        no encoding writes nothing and gives -1. */
    method WriteMidi(delta: Uint32, e: MidiEvent) returns (n: int)
      requires mw.InTrack() && mw.i + 8 < Two32
      modifies this`lastStatus, mw`i, mw`body, mw.dst
      ensures mw.InTrack() && mw.i == old(mw.i) + |mw.body| - |old(mw.body)|
      ensures |mw.body| <= |old(mw.body)| + 8
      ensures !KnownKind(e.kind) ==> n == -1 && Abs() == old(Abs())
      ensures KnownKind(e.kind) ==> Abs() == WriteMidiF(old(Abs()), delta, e) && n == |mw.body| - |old(mw.body)|
    {
      var status := StatusKey(e);
      var buffer, len := MidiBuffer(delta, e, lastStatus == status);
      if len < 0 {
        return -1;
      }
      var _ := mw.TrackAppend(buffer[..], len);
      lastStatus := status;
      n := len;
    }

    /** `process_control`: one setting changed, a tempo event written for
        `t`; `false` for an unknown command, where the source aborts. */
    method ProcessControl(cmd: Byte, arg: Uint32) returns (ok: bool)
      requires mw.InTrack() && mw.i + 11 < Two32 && (cmd == 't' as int ==> arg > 0)
      modifies this`tempoUs, this`octave, this`velocity, this`defaultLength, mw`i, mw`body, mw.dst
      ensures mw.InTrack() && mw.i == old(mw.i) + |mw.body| - |old(mw.body)|
      ensures ok == ControlF(old(Abs()), cmd, arg).Some?
      ensures ok ==> Abs() == ControlF(old(Abs()), cmd, arg).value
      ensures !ok ==> Abs() == old(Abs())
    {
      ok := true;
      if cmd == 't' as int {
        tempoUs := 60000000 / arg;
        var _ := WriteTempo(mw, 0, tempoUs);
      } else if cmd == 'o' as int {
        octave := Int32Of(arg);
      } else if cmd == 'v' as int {
        velocity := arg % 127;
      } else if cmd == 'l' as int {
        defaultLength := arg;
      } else if cmd == '>' as int {
        octave := octave + 1;
      } else if cmd == '<' as int {
        octave := octave - 1;
      } else {
        ok := false;
      }
    }

    /** The loop of `process_track` that gathers a chord from the note at
        the offset into `batch`.  With no chord links it takes one note. */
    method Collect(batch: array<ChordNote>) returns (count: nat, step: Uint32)
      requires batch.Length == 128 && offset < |events.items| && events.items[offset].Note?
      requires NoChordLinks(events.items)
      modifies this`offset, events`items, batch
      ensures count <= offset - old(offset) && count <= batch.Length
      ensures var r := CollectF(old(Abs()), [], 0); Abs() == r.0 && batch[..count] == r.1 && step == r.2
    {
      count, step := 0, 0;
      var complete := false;
      ghost var start := offset;
      ghost var target := CollectF(Abs(), [], 0);
      while !complete && offset < |events.items|
        invariant start <= offset <= |events.items| && count <= offset - start && count <= 1
        invariant !complete ==> offset == start && events.items == old(events.items) && count == 0
        invariant !complete ==> CollectF(Abs(), batch[..count], step) == target
        invariant complete ==> (Abs(), batch[..count], step) == target
        decreases |events.items| - offset
      {
        var nev := events.items[offset];
        if !nev.Note? {
          break;
        }
        var note := PitchToMidiNote(nev.pitch, octave % 0x100, nev.acc);
        ghost var b0 := batch[..count];
        if note >= 0 {
          batch[count] := ChordNote(note, nev.tie);
          count := count + 1;
          assert batch[..count] == b0 + [ChordNote(note, nev.tie)];
        }
        if !nev.chordLink {
          var len := if nev.length == 0 then defaultLength else nev.length;
          events.items := events.items[offset := nev.(length := len)];
          step := CalculateDuration(len, nev.dots % Two32, tpq);
          complete := true;
        }
        offset := offset + 1;
      }
    }

    /** A Note-On message through `write_midi` followed by the update of
        the note's sounding flag (`velocity` 0 releases the note). */
    method WriteNoteOn(delta: Uint32, note: Byte, vel: Byte, sounding: bool)
      requires note < 128 && active.Length == 128 && mw.InTrack() && mw.i + 8 < Two32
      modifies this`lastStatus, active, mw`i, mw`body, mw.dst
      ensures mw.InTrack() && mw.i == old(mw.i) + |mw.body| - |old(mw.body)| && |mw.body| <= |old(mw.body)| + 8
      ensures var c1 := WriteMidiF(old(Abs()), delta, NoteOnEvent(channel, note, vel));
              Abs() == c1.(active := c1.active[note := sounding])
    {
      var _ := WriteMidi(delta, NoteOnEvent(channel, note, vel));
      ghost var c1 := Abs();
      active[note] := sounding;
      assert active[..] == c1.active[note := sounding];
    }

    /** The Note-On loop of `process_track`. */
    method Ons(batch: array<ChordNote>, count: nat, delta0: Uint32)
      requires count <= batch.Length && NotesInRange(batch[..count]) && active.Length == 128
      requires mw.InTrack() && mw.i + 8 * count < Two32
      modifies this`lastStatus, active, mw`i, mw`body, mw.dst
      ensures mw.InTrack() && mw.i == old(mw.i) + |mw.body| - |old(mw.body)|
      ensures |mw.body| <= |old(mw.body)| + 8 * count
      ensures Abs() == OnsF(old(Abs()), batch[..count], 0, delta0)
    {
      var delta := delta0;
      var i := 0;
      ghost var bs := batch[..count];
      ghost var target := OnsF(Abs(), bs, 0, delta0);
      while i < count
        invariant i <= count && (i == 0 ==> delta == delta0) && bs == batch[..count]
        invariant mw.InTrack() && mw.i == old(mw.i) + |mw.body| - |old(mw.body)|
        invariant |mw.body| <= |old(mw.body)| + 8 * i
        invariant OnsF(Abs(), bs, i, delta0) == target
      {
        ghost var c := Abs();
        OnsFStep(c, bs, i, delta0);
        var note := batch[i].note;
        if !active[note] {
          WriteNoteOn(if i == 0 then delta else 0, note, velocity, true);
          if i == 0 {
            delta := 0;
          }
        }
        i := i + 1;
      }
    }

    /** The release loop of `process_track`; returns the last written tick. */
    method Offs(batch: array<ChordNote>, count: nat, offDelta0: Uint32, lastTick0: Uint32) returns (lastTick: Uint32)
      requires count <= batch.Length && NotesInRange(batch[..count]) && active.Length == 128
      requires mw.InTrack() && mw.i + 8 * count < Two32
      modifies this`lastStatus, active, mw`i, mw`body, mw.dst
      ensures mw.InTrack() && mw.i == old(mw.i) + |mw.body| - |old(mw.body)|
      ensures |mw.body| <= |old(mw.body)| + 8 * count
      ensures (Abs(), lastTick) == OffsF(old(Abs()), batch[..count], 0, true, offDelta0, lastTick0)
    {
      var firstOff := true;
      var offDelta := offDelta0;
      lastTick := lastTick0;
      var i := 0;
      ghost var bs := batch[..count];
      ghost var target := OffsF(Abs(), bs, 0, true, offDelta0, lastTick0);
      while i < count
        invariant i <= count && (firstOff ==> offDelta == offDelta0) && bs == batch[..count]
        invariant mw.InTrack() && mw.i == old(mw.i) + |mw.body| - |old(mw.body)|
        invariant |mw.body| <= |old(mw.body)| + 8 * i
        invariant OffsF(Abs(), bs, i, firstOff, offDelta0, lastTick) == target
      {
        ghost var c := Abs();
        OffsFStep(c, bs, i, firstOff, offDelta0, lastTick);
        var note := batch[i].note;
        if !batch[i].tied {
          WriteNoteOn(if firstOff then offDelta else 0, note, 0, false);
          if firstOff {
            offDelta := 0;
            lastTick := currentTick % Two32;
            firstOff := false;
          }
        }
        i := i + 1;
      }
    }

    /** A gathered chord through the Note-On loop, the cursor move and the
        release loop of `process_track`; returns the last written tick. */
    method Sound(batch: array<ChordNote>, count: nat, step: Uint32, lastTick: Uint32) returns (lt: Uint32)
      requires count <= batch.Length && NotesInRange(batch[..count]) && active.Length == 128
      requires mw.InTrack() && mw.i + 16 * count < Two32
      modifies this`lastStatus, this`currentTick, active, mw`i, mw`body, mw.dst
      ensures mw.InTrack() && mw.i == old(mw.i) + |mw.body| - |old(mw.body)|
      ensures (Abs(), lt) == SoundF(old(Abs()), batch[..count], step, lastTick)
    {
      var delta: Uint32 := (currentTick - lastTick) % Two32;
      Ons(batch, count, delta);
      lt := if count > 0 then currentTick % Two32 else lastTick;
      currentTick := (currentTick + step) % Two64;
      lt := Offs(batch, count, (currentTick - lt) % Two32, lt);
    }

    /** One chord step of `process_track` at a note event; returns the last
        written tick. */
    method ChordStep(lastTick: Uint32) returns (lt: Uint32)
      requires offset < |events.items| && events.items[offset].Note? && NoChordLinks(events.items)
      requires active.Length == 128 && mw.InTrack() && mw.i + 16 * (|events.items| - offset) < Two32
      modifies this`offset, this`lastStatus, this`currentTick, events`items, active, mw`i, mw`body, mw.dst
      ensures mw.InTrack() && mw.i == old(mw.i) + |mw.body| - |old(mw.body)|
      ensures (Abs(), lt) == BatchF(old(Abs()), lastTick)
    {
      var batch := new ChordNote[128](_ => ChordNote(0, false));
      var count, step := Collect(batch);
      lt := Sound(batch, count, step, lastTick);
    }

    /** The `memset` of the sounding flags. */
    method ClearActive()
      requires active.Length == 128
      modifies active
      ensures Abs() == old(Abs()).(active := Falses(128))
    {
      forall k | 0 <= k < 128 {
        active[k] := false;
      }
      assert active[..] == Falses(128);
    }

    /** One pass of the event loop of `process_track` at the event at the
        offset: an End of Track event is consumed and ends the track (`more`
        false), a control is applied (`ok` false where it aborts), a note
        starts a chord step.  Either the loop goes on from an equivalent
        point or its outcome is reached. */
    method Event(lastTick: Uint32) returns (lt: Uint32, more: bool, ok: bool)
      requires active.Length == 128 && offset < |events.items|
      requires TempoArgsPositive(events.items) && NoChordLinks(events.items)
      requires mw.InTrack() && mw.i + 16 * (|events.items| - offset) < Two32
      modifies this`offset, this`lastStatus, this`currentTick, this`tempoUs, this`octave, this`velocity,
               this`defaultLength, events`items, active, mw`i, mw`body, mw.dst
      ensures mw.InTrack() && mw.i == old(mw.i) + |mw.body| - |old(mw.body)|
      ensures old(offset) < offset <= |events.items| && TempoArgsPositive(events.items) && NoChordLinks(events.items)
      ensures more ==> ok && mw.i + 16 * (|events.items| - offset) < Two32
      ensures more ==> TrackF(Abs(), lt) == TrackF(old(Abs()), lastTick)
      ensures !more ==> (Abs(), lt, ok) == TrackF(old(Abs()), lastTick)
    {
      var ev := events.items[offset];
      lt, more, ok := lastTick, true, true;
      if ev.EndOfTrack? {
        TrackFAtEnd(Abs(), lastTick);
        offset := offset + 1;
        more := false;
      } else if ev.Control? {
        TrackFAtControl(Abs(), lastTick);
        offset := offset + 1;
        ok := ProcessControl(ev.cmd, ev.value);
        more := ok;
      } else {
        ghost var e0 := events.items;
        TrackFAtNote(Abs(), lastTick);
        lt := ChordStep(lastTick);
        RelengthedChordLinks(e0, events.items);
      }
    }

    /** `process_track`: the sounding flags cleared, then the event loop;
        returns the last written tick, and `false` where a control command
        aborts. */
    method ProcessTrack() returns (lastTick: Uint32, ok: bool)
      requires active.Length == 128 && offset <= |events.items|
      requires TempoArgsPositive(events.items) && NoChordLinks(events.items)
      requires mw.InTrack() && mw.i + 16 * (|events.items| - offset) < Two32
      modifies this`offset, this`lastStatus, this`currentTick, this`tempoUs, this`octave, this`velocity,
               this`defaultLength, events`items, active, mw`i, mw`body, mw.dst
      ensures mw.InTrack() && mw.i == old(mw.i) + |mw.body| - |old(mw.body)|
      ensures (Abs(), lastTick, ok) == ProcessTrackF(old(Abs()))
    {
      ghost var target := ProcessTrackF(Abs());
      lastTick, ok := 0, true;
      ClearActive();
      while offset < |events.items|
        invariant offset <= |events.items| && TempoArgsPositive(events.items) && NoChordLinks(events.items)
        invariant mw.InTrack() && mw.i == old(mw.i) + |mw.body| - |old(mw.body)|
        invariant mw.i + 16 * (|events.items| - offset) < Two32
        invariant ok && TrackF(Abs(), lastTick) == target
        decreases |events.items| - offset
      {
        var more;
        lastTick, more, ok := Event(lastTick);
        if !more {
          return;
        }
      }
    }

    /** The start of a pass of the track loop of `mml_write_midi`: the
        per-track settings reset, a track opened and a tempo event at delta
        0 written. */
    method OpenTrack()
      requires mw.Between() && mw.i + 19 < Two32
      modifies this`lastStatus, this`currentTick, this`tempoUs, this`octave, this`velocity, this`defaultLength,
               mw`i, mw`body, mw`trackOffset, mw`prefix, mw.dst
      ensures mw.InTrack() && mw.Layout() && mw.dst == old(mw.dst) && mw.i == old(mw.i) + 8 + |mw.body|
      ensures Abs() == TrackStart(old(Abs()))
    {
      ghost var c0 := Abs();
      currentTick := 0;
      defaultLength := DefaultLength;
      tempoUs := DefaultTempo;
      octave := DefaultOctave;
      velocity := DefaultVelocity;
      lastStatus := 0;
      var _ := mw.TrackBegin();
      var _ := WriteTempo(mw, 0, tempoUs);
    }

    /** The end of a pass: an End of Track event whose delta is the last
        written tick, and the track closed. */
    method CloseTrack(lastTick: Uint32)
      requires mw.InTrack() && mw.Layout() && mw.i + 8 < Two32
      modifies mw`i, mw`body, mw`ntracks, mw`tracks, mw.dst
      ensures mw.Between() && mw.dst == old(mw.dst) && mw.tracks == old(mw.tracks) + [mw.body]
      ensures mw.body == old(mw.body) + TrackEventBytes(EndOfTrackEvent(lastTick)).value
      ensures mw.i == old(mw.i) + |mw.body| - |old(mw.body)|
    {
      var _ := WriteEndOfTrack(mw, lastTick);
      var _ := mw.TrackEnd();
    }

    /** One pass of the track loop of `mml_write_midi`: the per-track
        settings reset, a track opened with a tempo event, `process_track`,
        and the track closed with an End of Track event at the last written
        tick; `false` where a control command aborts. */
    method WriteTrack() returns (ok: bool)
      requires active.Length == 128 && offset < |events.items|
      requires TempoArgsPositive(events.items) && NoChordLinks(events.items)
      requires mw.Between() && mw.i + 27 + 16 * (|events.items| - offset) < Two32
      modifies this`offset, this`lastStatus, this`currentTick, this`tempoUs, this`octave, this`velocity,
               this`defaultLength, events`items, active,
               mw`i, mw`body, mw`trackOffset, mw`prefix, mw`ntracks, mw`tracks, mw.dst
      ensures var r := OneTrackF(old(Abs())); ok == r.1 && events.items == r.0.events
      ensures ok ==> Abs() == OneTrackF(old(Abs())).0
      ensures ok ==> mw.Between() && mw.dst == old(mw.dst) && mw.tracks == old(mw.tracks) + [mw.body]
      ensures ok ==> mw.i + 16 * (|events.items| - offset) <= old(mw.i) + 27 + 16 * (|old(events.items)| - old(offset))
    {
      OpenTrack();
      TempoEventBytes(0, DefaultTempo);
      var t;
      t, ok := ProcessTrack();
      if !ok {
        return;
      }
      EndOfTrackBytes(t);
      CloseTrack(t);
    }

    /** A pass of the track loop of `mml_write_midi` that writes a track:
        the track, then the next channel.  Either the loop goes on from an
        equivalent point (`more`) or its outcome is reached. */
    method Pass() returns (more: bool, ok: bool)
      requires active.Length == 128 && offset < |events.items| && channel < Channels
      requires TempoArgsPositive(events.items) && NoChordLinks(events.items)
      requires mw.Between() && mw.i + 27 * (Channels - channel) + 16 * (|events.items| - offset) < Two32
      modifies this`offset, this`lastStatus, this`currentTick, this`tempoUs, this`octave, this`velocity,
               this`defaultLength, this`channel, events`items, active,
               mw`i, mw`body, mw`trackOffset, mw`prefix, mw`ntracks, mw`tracks, mw.dst
      ensures ok ==> offset <= |events.items| && TempoArgsPositive(events.items) && NoChordLinks(events.items)
      ensures ok ==> mw.Between() && mw.dst == old(mw.dst)
      ensures more ==> ok && offset > old(offset) && channel < Channels
      ensures more ==> mw.i + 27 * (Channels - channel) + 16 * (|events.items| - offset) < Two32
      ensures more ==> TracksF(Abs(), mw.tracks) == TracksF(old(Abs()), old(mw.tracks))
      ensures !more ==> var t := TracksF(old(Abs()), old(mw.tracks));
                        ok == t.2 && events.items == t.0.events && (ok ==> mw.tracks == t.1)
    {
      ghost var c0, tracks0 := Abs(), mw.tracks;
      TracksFStep(c0, tracks0);
      ok := WriteTrack();
      if !ok {
        return false, false;
      }
      ghost var c1 := Abs();
      assert c1 == OneTrackF(c0).0 && mw.tracks == tracks0 + [c1.out];
      RelengthedChordLinks(c0.events, c1.events);
      channel := channel + 1;
      assert Abs() == c1.(channel := c0.channel + 1);
      more := channel < Channels;
    }

    /** The track loop of `mml_write_midi`: a track per pass while events
        remain, until the channels run out or a control command aborts. */
    method WriteTracks() returns (ok: bool)
      requires active.Length == 128 && offset <= |events.items| && channel < Channels
      requires TempoArgsPositive(events.items) && NoChordLinks(events.items)
      requires mw.Between() && mw.i + 27 * (Channels - channel) + 16 * (|events.items| - offset) < Two32
      modifies this`offset, this`lastStatus, this`currentTick, this`tempoUs, this`octave, this`velocity,
               this`defaultLength, this`channel, events`items, active,
               mw`i, mw`body, mw`trackOffset, mw`prefix, mw`ntracks, mw`tracks, mw.dst
      ensures var t := TracksF(old(Abs()), old(mw.tracks));
              ok == t.2 && events.items == t.0.events && (ok ==> mw.Between() && mw.dst == old(mw.dst) && mw.tracks == t.1)
    {
      ghost var target := TracksF(Abs(), mw.tracks);
      while true
        invariant mw.Between() && mw.dst == old(mw.dst)
        invariant offset <= |events.items| && channel < Channels
        invariant TempoArgsPositive(events.items) && NoChordLinks(events.items)
        invariant mw.i + 27 * (Channels - channel) + 16 * (|events.items| - offset) < Two32
        invariant TracksF(Abs(), mw.tracks) == target
        decreases |events.items| - offset
      {
        if offset >= |events.items| {
          TracksFAtEnd(Abs(), mw.tracks);
          return true;
        }
        var more;
        more, ok := Pass();
        if !more {
          return;
        }
      }
    }
  }

  /** `mml_write_midi` writing into an empty file: a multi-track header
      with 480 ticks per quarter note, then one track per channel while
      events remain, at most 16.  Gives 0 and the file of the tracks
      `Translation` describes, and rewrites the note lengths in place as
      it does; -1 where a control command aborts. */
  method MmlWriteMidi(events: DynArray<Event>, sink: Sink) returns (r: int)
    requires sink.data == [] && sink.pos == 0
    requires TempoArgsPositive(events.items) && NoChordLinks(events.items) && |events.items| < 0x0FFF_FF00
    modifies events`items, sink
    ensures var t := Translation(old(events.items));
            && events.items == t.1
            && (t.2 ==> r == 0 && Fits(t.0) && sink.data == SmfFile(FormatMultiTrack, TicksPerQuarter, t.0))
            && (!t.2 ==> r == -1)
  {
    var mw := new Writer();
    var ctx := new Context(mw, events);
    var _ := mw.Begin(sink, FormatMultiTrack, ctx.tpq);
    assert ctx.Abs() == InitialCtx(old(events.items));
    var ok := ctx.WriteTracks();
    if !ok {
      return -1;
    }
    var _ := mw.End();
    r := 0;
  }
}
