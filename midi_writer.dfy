/** The Standard MIDI File writer: a header chunk whose track count is
    patched at the end, and track chunks whose lengths are patched when each
    track ends (Standard MIDI Files 1.0, "Chunks").  The destination file is
    a seekable sink held in memory; every write and seek succeeds. */
module MidiWriter {
  import opened Bytes

  const FormatSingle: Uint16 := 0
  const FormatMultiTrack: Uint16 := 1
  const FormatMultiSong: Uint16 := 2

  /** "MThd" and "MTrk". */
  const HeaderMagic: Uint32 := 0x4D54_6864
  const TrackMagic: Uint32 := 0x4D54_726B

  /** The placeholders written before the real values are known. */
  const TrackCountPlaceholder: Uint16 := 0xAFAF
  const TrackLengthPlaceholder: Uint32 := 0xFAFA_FAFA

  // ---------------------------------------------------------------------------
  // File layout
  // ---------------------------------------------------------------------------

  /** The fourteen-byte header chunk. */
  function Header(format: Uint16, ntracks: Uint16, tickdiv: Uint16): (r: seq<Byte>)
    ensures |r| == 14
  {
    BE32(HeaderMagic) + BE32(6) + BE16(format) + BE16(ntracks) + BE16(tickdiv)
  }

  /** A track chunk: magic, 32-bit length, the event data. */
  function Chunk(body: seq<Byte>): (r: seq<Byte>)
    requires |body| < Two32
    ensures |r| == 8 + |body|
  {
    BE32(TrackMagic) + BE32(|body|) + body
  }

  predicate Fits(tracks: seq<seq<Byte>>)
  {
    forall k | 0 <= k < |tracks| :: |tracks[k]| < Two32
  }

  function Chunks(tracks: seq<seq<Byte>>): (r: seq<Byte>)
    requires Fits(tracks)
  {
    if tracks == [] then [] else Chunks(tracks[..|tracks| - 1]) + Chunk(tracks[|tracks| - 1])
  }

  /** The file the writer produces for `tracks`: the header with the
      16-bit track count, then one chunk per track. */
  function SmfFile(format: Uint16, tickdiv: Uint16, tracks: seq<seq<Byte>>): seq<Byte>
    requires Fits(tracks)
  {
    Header(format, |tracks| % 0x1_0000, tickdiv) + Chunks(tracks)
  }

  // ---------------------------------------------------------------------------
  // Reading a file back
  // ---------------------------------------------------------------------------

  /** Splits a byte string into track chunks; `None` when it is not one. */
  function ReadChunks(s: seq<Byte>): (r: Option<seq<seq<Byte>>>)
    decreases |s|
  {
    if |s| == 0 then Some([])
    else if |s| < 8 || FromBE32(s[..4]) != TrackMagic then None
    else
      var n := FromBE32(s[4..8]);
      if |s| < 8 + n then None
      else match ReadChunks(s[8 + n..])
        case None => None
        case Some(rest) => Some([s[8..8 + n]] + rest)
  }

  /** The format, track count, division and track bodies of a file. */
  function ReadSmf(s: seq<Byte>): Option<(Uint16, Uint16, Uint16, seq<seq<Byte>>)>
  {
    if |s| < 14 || FromBE32(s[..4]) != HeaderMagic || FromBE32(s[4..8]) != 6 then None
    else match ReadChunks(s[14..])
      case None => None
      case Some(tracks) => Some((FromBE16(s[8..10]), FromBE16(s[10..12]), FromBE16(s[12..14]), tracks))
  }

  /** A chunk in front of a readable tail is read first. */
  lemma ReadChunksFront(t: seq<Byte>, tail: seq<Byte>, rest: seq<seq<Byte>>)
    requires |t| < Two32 && ReadChunks(tail) == Some(rest)
    ensures ReadChunks(Chunk(t) + tail) == Some([t] + rest)
  {
    var s := Chunk(t) + tail;
    assert s[..4] == BE32(TrackMagic);
    assert s[4..8] == BE32(|t|);
    BE32RoundTrip(TrackMagic);
    BE32RoundTrip(|t|);
    assert s[8..8 + |t|] == t;
    assert s[8 + |t|..] == tail;
  }

  /** The chunks of `tracks` laid out front to back. */
  function ChunksFrom(tracks: seq<seq<Byte>>): seq<Byte>
    requires Fits(tracks)
  {
    if tracks == [] then [] else Chunk(tracks[0]) + ChunksFrom(tracks[1..])
  }

  lemma {:induction false} ReadChunksFrom(tracks: seq<seq<Byte>>)
    requires Fits(tracks)
    ensures ReadChunks(ChunksFrom(tracks)) == Some(tracks)
  {
    if tracks != [] {
      ReadChunksFrom(tracks[1..]);
      ReadChunksFront(tracks[0], ChunksFrom(tracks[1..]), tracks[1..]);
      assert [tracks[0]] + tracks[1..] == tracks;
    }
  }

  lemma {:induction false} ChunksSame(tracks: seq<seq<Byte>>)
    requires Fits(tracks)
    ensures Chunks(tracks) == ChunksFrom(tracks)
    decreases |tracks|
  {
    if |tracks| > 0 {
      var init := tracks[..|tracks| - 1];
      ChunksSame(init);
      ChunksFromAppend(init, tracks[|tracks| - 1]);
      assert init + [tracks[|tracks| - 1]] == tracks;
    }
  }

  lemma {:induction false} ChunksFromAppend(tracks: seq<seq<Byte>>, t: seq<Byte>)
    requires Fits(tracks) && |t| < Two32
    ensures Fits(tracks + [t]) && ChunksFrom(tracks + [t]) == ChunksFrom(tracks) + Chunk(t)
    decreases |tracks|
  {
    if tracks == [] {
      assert [] + [t] == [t];
    } else {
      ChunksFromAppend(tracks[1..], t);
      assert (tracks + [t])[1..] == tracks[1..] + [t];
    }
  }

  /** A header followed by chunks reads back field by field. */
  lemma ReadSmfHeader(format: Uint16, n: Uint16, tickdiv: Uint16, rest: seq<Byte>, tracks: seq<seq<Byte>>)
    requires ReadChunks(rest) == Some(tracks)
    ensures ReadSmf(Header(format, n, tickdiv) + rest) == Some((format, n, tickdiv, tracks))
  {
    var h := Header(format, n, tickdiv);
    var f := h + rest;
    assert f[..14] == h && f[14..] == rest;
    assert h[..4] == BE32(HeaderMagic) && h[4..8] == BE32(6);
    assert h[8..10] == BE16(format) && h[10..12] == BE16(n) && h[12..14] == BE16(tickdiv);
    assert f[..4] == h[..4] && f[4..8] == h[4..8];
    assert f[8..10] == h[8..10] && f[10..12] == h[10..12] && f[12..14] == h[12..14];
    BE32RoundTrip(HeaderMagic);
    BE32RoundTrip(6);
    BE16RoundTrip(format);
    BE16RoundTrip(n);
    BE16RoundTrip(tickdiv);
  }

  /** A written file reads back as the format, the track count modulo 2^16,
      the division and exactly the track bodies written. */
  lemma SmfRoundTrip(format: Uint16, tickdiv: Uint16, tracks: seq<seq<Byte>>)
    requires Fits(tracks)
    ensures ReadSmf(SmfFile(format, tickdiv, tracks)) == Some((format, |tracks| % 0x1_0000, tickdiv, tracks))
  {
    ChunksSame(tracks);
    ReadChunksFrom(tracks);
    ReadSmfHeader(format, |tracks| % 0x1_0000, tickdiv, Chunks(tracks), tracks);
  }

  // ---------------------------------------------------------------------------
  // The destination file
  // ---------------------------------------------------------------------------

  function Max(a: int, b: int): int { if a < b then b else a }

  /** The contents of a file holding `d` after storing byte `b` at offset
      `p`: an overwrite inside the file, otherwise the file grows, a gap left
      by seeking past the end reading as zeros. */
  function Put(d: seq<Byte>, p: nat, b: Byte): (r: seq<Byte>)
    ensures |r| == Max(|d|, p + 1)
  {
    if p < |d| then d[p := b] else d + Zeros(p - |d|) + [b]
  }

  /** The contents after writing `bs` at offset `p`, one byte after another. */
  function WriteAt(d: seq<Byte>, p: nat, bs: seq<Byte>): (r: seq<Byte>)
    ensures bs != [] ==> |r| == Max(|d|, p + |bs|)
    ensures bs == [] ==> r == d
    decreases |bs|
  {
    if bs == [] then d else WriteAt(Put(d, p, bs[0]), p + 1, bs[1..])
  }

  /** Writing at the end of a file appends. */
  lemma {:induction false} WriteAtEnd(d: seq<Byte>, p: nat, bs: seq<Byte>)
    requires p == |d|
    ensures WriteAt(d, p, bs) == d + bs
    decreases |bs|
  {
    if bs != [] {
      assert Put(d, |d|, bs[0]) == d + [bs[0]];
      WriteAtEnd(d + [bs[0]], p + 1, bs[1..]);
      assert d + [bs[0]] + bs[1..] == d + bs;
    }
  }

  /** Writing inside a file replaces exactly the bytes written. */
  lemma {:induction false} WriteAtInside(d: seq<Byte>, p: nat, bs: seq<Byte>)
    requires p + |bs| <= |d|
    ensures WriteAt(d, p, bs) == d[..p] + bs + d[p + |bs|..]
    decreases |bs|
  {
    if bs != [] {
      var d1 := Put(d, p, bs[0]);
      assert d1 == d[p := bs[0]];
      WriteAtInside(d1, p + 1, bs[1..]);
      assert d1[..p + 1] == d[..p] + [bs[0]];
      assert d1[p + 1 + |bs[1..]|..] == d[p + |bs|..];
      assert d[..p] + [bs[0]] + bs[1..] == d[..p] + bs;
    }
  }

  /** Two writes, the second where the first stopped, are one write of both. */
  lemma {:induction false} WriteAtThenWriteAt(d: seq<Byte>, p: nat, a: seq<Byte>, b: seq<Byte>)
    ensures WriteAt(WriteAt(d, p, a), p + |a|, b) == WriteAt(d, p, a + b)
    decreases |a|
  {
    if a == [] {
      assert a + b == b;
    } else {
      WriteAtThenWriteAt(Put(d, p, a[0]), p + 1, a[1..], b);
      assert (a + b)[0] == a[0] && (a + b)[1..] == a[1..] + b;
    }
  }

  /** The FILE the writer owns: its contents and its position. */
  class Sink {
    var data: seq<Byte>
    var pos: nat

    /** A newly created, empty file. */
    constructor ()
      ensures data == [] && pos == 0
    {
      data := [];
      pos := 0;
    }

    /** `fwrite`, which always writes every byte here. */
    method Write(bs: seq<Byte>)
      modifies this
      ensures data == WriteAt(old(data), old(pos), bs) && pos == old(pos) + |bs|
    {
      data := WriteAt(data, pos, bs);
      pos := pos + |bs|;
    }

    /** `fseek(dst, p, SEEK_SET)`. */
    method Seek(p: nat)
      modifies this`pos
      ensures pos == p
    {
      pos := p;
    }
  }

  // ---------------------------------------------------------------------------
  // Patching the placeholders
  // ---------------------------------------------------------------------------

  /** Overwriting the middle part of `a + b + c` with something as long. */
  lemma OverwriteMiddle(a: seq<Byte>, b: seq<Byte>, c: seq<Byte>, p: nat, x: seq<Byte>)
    requires p == |a| && |x| == |b|
    ensures WriteAt(a + b + c, p, x) == a + x + c
  {
    var d := a + b + c;
    WriteAtInside(d, |a|, x);
    assert d[..|a|] == a;
    assert d[|a| + |x|..] == c;
  }

  /** Overwriting the four placeholder bytes before a track's data with the
      data's length turns the open track into its chunk. */
  lemma PatchTrackLength(pre: seq<Byte>, placeholder: Uint32, body: seq<Byte>)
    requires |body| < Two32
    ensures WriteAt(pre + BE32(TrackMagic) + BE32(placeholder) + body, |pre| + 4, BE32(|body|))
            == pre + Chunk(body)
  {
    PatchFour(pre, BE32(TrackMagic), BE32(placeholder), body, |pre| + 4, BE32(|body|));
  }

  lemma PatchFour(pre: seq<Byte>, m: seq<Byte>, ph: seq<Byte>, body: seq<Byte>, p: nat, len: seq<Byte>)
    requires |m| == 4 && |ph| == 4 && |len| == 4 && p == |pre| + 4
    ensures WriteAt(pre + m + ph + body, p, len) == pre + (m + len + body)
  {
    OverwriteMiddle(pre + m, ph, body, p, len);
    assert (pre + m) + len + body == pre + (m + len + body);
  }

  /** Overwriting the track count at offset 10 of a header. */
  lemma PatchTrackCount(format: Uint16, n0: Uint16, tickdiv: Uint16, n: Uint16, rest: seq<Byte>)
    ensures WriteAt(Header(format, n0, tickdiv) + rest, 10, BE16(n)) == Header(format, n, tickdiv) + rest
  {
    var a := BE32(HeaderMagic) + BE32(6) + BE16(format);
    var c := BE16(tickdiv) + rest;
    assert Header(format, n0, tickdiv) + rest == a + BE16(n0) + c;
    OverwriteMiddle(a, BE16(n0), c, 10, BE16(n));
    assert a + BE16(n) + c == Header(format, n, tickdiv) + rest;
  }

  lemma ChunksAppend(tracks: seq<seq<Byte>>, t: seq<Byte>)
    requires Fits(tracks) && |t| < Two32
    ensures Fits(tracks + [t]) && Chunks(tracks + [t]) == Chunks(tracks) + Chunk(t)
  {
    assert (tracks + [t])[..|tracks|] == tracks;
  }

  // ---------------------------------------------------------------------------
  // The file between the writer's calls
  // ---------------------------------------------------------------------------

  /** No track open: the header with the placeholder count, then the
      finished tracks. */
  function Closed(format: Uint16, tickdiv: Uint16, tracks: seq<seq<Byte>>): seq<Byte>
    requires Fits(tracks)
  {
    Header(format, TrackCountPlaceholder, tickdiv) + Chunks(tracks)
  }

  /** A track just opened: its header with the length placeholder. */
  function OpenPrefix(format: Uint16, tickdiv: Uint16, tracks: seq<seq<Byte>>): seq<Byte>
    requires Fits(tracks)
  {
    Closed(format, tickdiv, tracks) + BE32(TrackMagic) + BE32(TrackLengthPlaceholder)
  }

  /** A track open, with its data so far. */
  function Open(format: Uint16, tickdiv: Uint16, tracks: seq<seq<Byte>>, body: seq<Byte>): seq<Byte>
    requires Fits(tracks)
  {
    OpenPrefix(format, tickdiv, tracks) + body
  }

  lemma Associative(a: seq<Byte>, b: seq<Byte>, c: seq<Byte>)
    ensures a + b + c == a + (b + c)
  {
  }

  /** Where `mw_track_end` seeks and what length it writes, when the open
      track's data starts 8 bytes after the finished part of the file. */
  lemma TrackEndOffsets(closed: nat, body: nat, trackOffset: int, i: int)
    requires trackOffset == closed + 8 && i == closed + 8 + body && i < Two32
    ensures (trackOffset + Two32 - 4) % Two32 == closed + 4
    ensures (i - trackOffset) % Two32 == body
  {
  }

  /** `mw_begin` on an empty file: the header, no tracks. */
  lemma BeginStep(format: Uint16, tickdiv: Uint16)
    ensures WriteAt([], 0, Header(format, TrackCountPlaceholder, tickdiv)) == Closed(format, tickdiv, [])
    ensures |Closed(format, tickdiv, [])| == 14
  {
    var h := Header(format, TrackCountPlaceholder, tickdiv);
    WriteAtEnd([], 0, h);
    assert [] + h == h + [];
  }

  /** `mw_track_begin` at the end of the file opens an empty track. */
  lemma TrackBeginStep(format: Uint16, tickdiv: Uint16, tracks: seq<seq<Byte>>, pos: int)
    requires Fits(tracks) && pos == |Closed(format, tickdiv, tracks)| && pos + 8 < Two32
    ensures WriteAt(Closed(format, tickdiv, tracks), pos, BE32(TrackMagic) + BE32(TrackLengthPlaceholder))
            == Open(format, tickdiv, tracks, [])
    ensures |Open(format, tickdiv, tracks, [])| == pos + 8 == (pos + 8) % Two32
  {
    var c, m, ph := Closed(format, tickdiv, tracks), BE32(TrackMagic), BE32(TrackLengthPlaceholder);
    WriteAtEnd(c, pos, m + ph);
    Associative(c, m, ph);
    ModSmall(pos + 8);
    assert c + m + ph == OpenPrefix(format, tickdiv, tracks) + [];
  }

  /** `mw_track_append` at the end of the file extends the open track. */
  lemma AppendStep(format: Uint16, tickdiv: Uint16, tracks: seq<seq<Byte>>, body: seq<Byte>, pos: int, x: seq<Byte>)
    requires Fits(tracks) && pos == |Open(format, tickdiv, tracks, body)| && pos + |x| < Two32
    ensures WriteAt(Open(format, tickdiv, tracks, body), pos, x) == Open(format, tickdiv, tracks, body + x)
    ensures |Open(format, tickdiv, tracks, body + x)| == pos + |x| == (pos + |x|) % Two32
  {
    AppendData(OpenPrefix(format, tickdiv, tracks), body, pos, x);
    ModSmall(pos + |x|);
  }

  lemma AppendData(c: seq<Byte>, body: seq<Byte>, pos: int, x: seq<Byte>)
    requires pos == |c + body|
    ensures WriteAt(c + body, pos, x) == c + (body + x)
    ensures |c + (body + x)| == pos + |x|
  {
    WriteAtEnd(c + body, pos, x);
    Associative(c, body, x);
  }

  /** `mw_track_end` with the track's data starting at `trackOffset` and
      the writer at its end: the length is patched and the track closed. */
  lemma TrackEndStep(format: Uint16, tickdiv: Uint16, tracks: seq<seq<Byte>>, body: seq<Byte>,
                     trackOffset: int, i: int)
    requires Fits(tracks) && trackOffset == |Closed(format, tickdiv, tracks)| + 8
    requires i == |Open(format, tickdiv, tracks, body)| && i < Two32
    ensures Fits(tracks + [body])
    ensures WriteAt(Open(format, tickdiv, tracks, body), (trackOffset + Two32 - 4) % Two32,
                    BE32((i - trackOffset) % Two32))
            == Closed(format, tickdiv, tracks + [body])
    ensures |Closed(format, tickdiv, tracks + [body])| == i
  {
    var pre := Closed(format, tickdiv, tracks);
    TrackEndOffsets(|pre|, |body|, trackOffset, i);
    PatchTrackLength(pre, TrackLengthPlaceholder, body);
    ChunksAppend(tracks, body);
    Associative(Header(format, TrackCountPlaceholder, tickdiv), Chunks(tracks), Chunk(body));
  }

  /** `mw_end` between tracks writes the real count: the file is complete. */
  lemma EndStep(format: Uint16, tickdiv: Uint16, tracks: seq<seq<Byte>>)
    requires Fits(tracks)
    ensures WriteAt(Closed(format, tickdiv, tracks), 10, BE16(|tracks| % 0x1_0000)) == SmfFile(format, tickdiv, tracks)
  {
    PatchTrackCount(format, TrackCountPlaceholder, tickdiv, |tracks| % 0x1_0000, Chunks(tracks));
  }

  /** The five fields `mw_begin` writes one after another make up the header. */
  lemma HeaderWrites(d0: seq<Byte>, p0: nat, d1: seq<Byte>, d2: seq<Byte>, d3: seq<Byte>, d4: seq<Byte>,
                     d5: seq<Byte>, format: Uint16, tickdiv: Uint16)
    requires d1 == WriteAt(d0, p0, BE32(HeaderMagic)) && d2 == WriteAt(d1, p0 + 4, BE32(6))
    requires d3 == WriteAt(d2, p0 + 8, BE16(format)) && d4 == WriteAt(d3, p0 + 10, BE16(TrackCountPlaceholder))
    requires d5 == WriteAt(d4, p0 + 12, BE16(tickdiv))
    ensures d5 == WriteAt(d0, p0, Header(format, TrackCountPlaceholder, tickdiv))
  {
    FiveWrites(d0, p0, BE32(HeaderMagic), BE32(6), BE16(format), BE16(TrackCountPlaceholder), BE16(tickdiv));
  }

  lemma FiveWrites(d: seq<Byte>, p: nat, a: seq<Byte>, b: seq<Byte>, c: seq<Byte>, e: seq<Byte>, f: seq<Byte>)
    requires |a| == 4 && |b| == 4 && |c| == 2 && |e| == 2
    ensures WriteAt(WriteAt(WriteAt(WriteAt(WriteAt(d, p, a), p + 4, b), p + 8, c), p + 10, e), p + 12, f)
            == WriteAt(d, p, a + b + c + e + f)
  {
    WriteAtThenWriteAt(d, p, a, b);
    WriteAtThenWriteAt(d, p, a + b, c);
    WriteAtThenWriteAt(d, p, a + b + c, e);
    WriteAtThenWriteAt(d, p, a + b + c + e, f);
  }

  // ---------------------------------------------------------------------------
  // The writer
  // ---------------------------------------------------------------------------

  /** `midi_writer_t`.  The ghost fields record what has been written so far:
      the header fields, the finished tracks and the data of the open one. */
  class Writer {
    var dst: Sink?
    /** The writer's own count of the file offset (32 bits, wrapping). */
    var i: Uint32
    var ntracks: Uint16
    var trackOffset: Uint32

    ghost var format: Uint16
    ghost var tickdiv: Uint16
    ghost var tracks: seq<seq<Byte>>
    ghost var body: seq<Byte>
    /** The file up to the open track's data. */
    ghost var prefix: seq<Byte>

    /** No track is open. */
    ghost predicate Between()
      reads this, dst
    {
      dst != null && Fits(tracks) && dst.data == Closed(format, tickdiv, tracks)
      && dst.pos == |dst.data| && i == |dst.data| && ntracks == |tracks| % 0x1_0000
    }

    /** A track is open: the file is the prefix and the track's data so far. */
    ghost predicate InTrack()
      reads this, dst
    {
      dst != null && dst.data == prefix + body && dst.pos == |dst.data| && i == |dst.data| && trackOffset == |prefix|
    }

    /** The prefix is the finished tracks and the open track's header. */
    ghost predicate Layout()
      reads this
    {
      Fits(tracks) && prefix == OpenPrefix(format, tickdiv, tracks) && ntracks == |tracks| % 0x1_0000
    }

    /** The zero-initialised writer. */
    constructor ()
      ensures dst == null && i == 0 && ntracks == 0 && trackOffset == 0
    {
      dst := null;
      i := 0;
      ntracks := 0;
      trackOffset := 0;
    }

    /** `_mw_write_u32`: four big-endian bytes, and the offset counter moves on. */
    method WriteU32(x: Uint32)
      requires dst != null
      modifies this`i, dst
      ensures dst.data == WriteAt(old(dst.data), old(dst.pos), BE32(x)) && dst.pos == old(dst.pos) + 4
      ensures i == (old(i) + 4) % Two32
      ensures old(i) + 4 < Two32 ==> i == old(i) + 4
    {
      dst.Write(BE32(x));
      i := (i + 4) % Two32;
    }

    /** `_mw_write_u16`. */
    method WriteU16(x: Uint16)
      requires dst != null
      modifies this`i, dst
      ensures dst.data == WriteAt(old(dst.data), old(dst.pos), BE16(x)) && dst.pos == old(dst.pos) + 2
      ensures i == (old(i) + 2) % Two32
      ensures old(i) + 2 < Two32 ==> i == old(i) + 2
    {
      dst.Write(BE16(x));
      i := (i + 2) % Two32;
    }

    /** The five writes of `mw_begin`: "MThd", the header length 6, the
        format, the placeholder track count and the time division. */
    method WriteHeaderChunk(fmt: Uint16, div: Uint16)
      requires dst != null && i == dst.pos && i + 14 < Two32
      modifies this`i, dst
      ensures dst.data == WriteAt(old(dst.data), old(dst.pos), Header(fmt, TrackCountPlaceholder, div))
      ensures dst.pos == old(dst.pos) + 14 && i == old(i) + 14
    {
      ghost var d0, p0 := dst.data, dst.pos;
      WriteU32(HeaderMagic);
      ghost var d1 := dst.data;
      assert i == p0 + 4;
      WriteU32(6);
      ghost var d2 := dst.data;
      assert i == p0 + 8;
      WriteU16(fmt);
      ghost var d3 := dst.data;
      assert i == p0 + 10;
      WriteU16(TrackCountPlaceholder);
      ghost var d4 := dst.data;
      assert i == p0 + 12;
      WriteU16(div);
      HeaderWrites(d0, p0, d1, d2, d3, d4, dst.data, fmt, div);
    }

    /** `mw_begin` on a newly created file: the header chunk with a
        placeholder track count, and no tracks yet. */
    method Begin(sink: Sink, fmt: Uint16, div: Uint16) returns (r: int)
      requires sink.data == [] && sink.pos == 0
      modifies this`dst, this`i, this`ntracks, this`format, this`tickdiv, this`tracks, this`body, sink
      ensures r == 0 && dst == sink && Between()
      ensures format == fmt && tickdiv == div && tracks == [] && body == []
    {
      dst := sink;
      i := 0;
      ntracks := 0;
      format, tickdiv, tracks, body := fmt, div, [], [];
      WriteHeaderChunk(fmt, div);
      BeginStep(fmt, div);
      r := 0;
    }

    /** `mw_track_begin` between tracks: a track header with a placeholder
        length; the track's data starts at the new offset. */
    method TrackBegin() returns (r: int)
      requires Between() && i + 8 < Two32
      modifies this`i, this`trackOffset, this`body, this`prefix, dst
      ensures r == 0 && InTrack() && Layout() && dst == old(dst) && body == [] && i == old(i) + 8
    {
      ghost var d0, p0, i0 := dst.data, dst.pos, i;
      TrackBeginStep(format, tickdiv, tracks, p0);
      WriteU32(TrackMagic);
      WriteU32(TrackLengthPlaceholder);
      WriteAtThenWriteAt(d0, p0, BE32(TrackMagic), BE32(TrackLengthPlaceholder));
      WrapAdd(i0 as int + 4, 4);
      trackOffset := i;
      body := [];
      prefix := OpenPrefix(format, tickdiv, tracks);
      r := 0;
    }

    /** `mw_track_append` in an open track: -1 for an empty buffer, which
        writes nothing; otherwise the `len` bytes extend the track's data. */
    method TrackAppend(data: seq<Byte>, len: Uint32) returns (r: int)
      requires InTrack() && len <= |data| && i + len < Two32
      modifies this`i, this`body, dst
      ensures r == (if len == 0 then -1 else 0)
      ensures InTrack() && dst == old(dst) && body == old(body) + data[..len] && i == old(i) + len
    {
      ghost var p0 := dst.pos;
      AppendData(prefix, body, p0, data[..len]);
      if len == 0 {
        return -1;
      }
      dst.Write(data[..len]);
      i := (i + len) % Two32;
      body := body + data[..len];
      r := 0;
    }

    /** `mw_track_end` in an open track: seeks back four bytes before the
        track's data, writes the data's length over the placeholder and
        returns to where the writer was; the track count goes up by one
        (16 bits, wrapping).  The open track joins the finished ones. */
    method TrackEnd() returns (r: int)
      requires InTrack() && Layout()
      modifies this`i, this`ntracks, this`tracks, dst
      ensures r == 0 && Between() && dst == old(dst) && tracks == old(tracks) + [old(body)] && i == old(i)
    {
      ghost var t0, b0 := tracks, body;
      var saved := i;
      var back := (trackOffset + Two32 - 4) % Two32;
      var trackLen := (saved - trackOffset) % Two32;
      TrackEndStep(format, tickdiv, t0, b0, trackOffset, saved);
      dst.Seek(back);
      WriteU32(trackLen);
      i := saved;
      dst.Seek(saved);
      WrapAdd16(|t0|, 1);
      ntracks := (ntracks + 1) % 0x1_0000;
      tracks := t0 + [b0];
      r := 0;
    }

    /** `mw_end` between tracks writes the real track count over the
        placeholder at offset 10 (nothing when no file was ever given): the
        file is then exactly `SmfFile` of the tracks written. */
    method End() returns (r: int)
      requires dst == null || Between()
      modifies this`i, dst
      ensures r == 0 && dst == old(dst)
      ensures dst != null ==> dst.data == SmfFile(format, tickdiv, tracks)
    {
      if dst != null {
        EndStep(format, tickdiv, tracks);
        dst.Seek(10);
        WriteU16(ntracks);
      }
      r := 0;
    }
  }
}
