/**
 AVI: the walk over RIFF chunks, and into the `hdrl` list, that looks for a usable `avih` block.

 The walk is compared with a tree of padded chunks: it returns the first usable `avih` in stream
 order, and no odd-sized chunk shifts it off the chunk boundaries.
 */
module Avi {
  import opened Bytes
  import opened Common
  import opened Options

  const RIFF: seq<byte> := [0x52, 0x49, 0x46, 0x46]
  const AVI: seq<byte> := [0x41, 0x56, 0x49, 0x20]
  const LIST: seq<byte> := [0x4c, 0x49, 0x53, 0x54]
  const HDRL: seq<byte> := [0x68, 0x64, 0x72, 0x6c]
  const AVIH: seq<byte> := [0x61, 0x76, 0x69, 0x68]

  /** Chunks of one level that are passed over before a walk gives up. */
  const MAX_SKIPPED: nat := 10_000

  lemma NamesAreSpelled()
    ensures Spells(RIFF, "RIFF") && Spells(AVI, "AVI ") && Spells(LIST, "LIST")
    ensures Spells(HDRL, "hdrl") && Spells(AVIH, "avih")
  {
  }

  /** Frame period in microseconds and frame count. */
  datatype Frames = Frames(period: nat, count: nat) {
    function Seconds(): real {
      (period * count) as real / 1_000_000.0
    }
  }

  /** The two fields of an `avih` block whose data starts here, unless one of them is zero. */
  function ParseAvih(b: seq<byte>, dataStart: nat): (r: Option<Frames>)
    ensures r.Some? ==> r.value.period > 0 && r.value.count > 0
  {
    if dataStart + 20 > |b| then None else
    var period := DecodeLE(b[dataStart..dataStart + 4]);
    var count := DecodeLE(b[dataStart + 16..dataStart + 20]);
    if period == 0 || count == 0 then None else Some(Frames(period, count))
  }

  function ChunkSize(b: seq<byte>, offset: nat): nat
    requires offset + 8 <= |b|
  {
    DecodeLE(b[offset + 4..offset + 8])
  }

  /** Chunks start on even positions. */
  function NextChunk(offset: nat, size: nat): nat {
    offset + 8 + size + size % 2
  }

  function HdrlWalk(b: seq<byte>, offset: nat, end: nat, skipped: nat): (r: Option<Frames>)
    requires end <= |b|
    ensures r.Some? ==> r.value.period > 0 && r.value.count > 0
    decreases if offset < end then end - offset else 0
  {
    if offset + 8 > end then None else
    var size := ChunkSize(b, offset);
    var own := if b[offset..offset + 4] == AVIH && size >= 20 then ParseAvih(b, offset + 8) else None;
    if own.Some? then own
    else if size == 0 || skipped + 1 > MAX_SKIPPED then None
    else HdrlWalk(b, NextChunk(offset, size), end, skipped + 1)
  }

  /** What one top-level chunk says: the frames of a `hdrl` list, or of an `avih` of its own. */
  function ChunkFrames(b: seq<byte>, offset: nat): (r: Option<Frames>)
    requires offset + 8 <= |b|
    ensures r.Some? ==> r.value.period > 0 && r.value.count > 0
  {
    var id, size, dataStart := b[offset..offset + 4], ChunkSize(b, offset), offset + 8;
    if id == LIST && dataStart + 4 <= |b| then
      if b[dataStart..dataStart + 4] == HDRL
      then HdrlWalk(b, dataStart + 4, Min(dataStart + size, |b|), 0) else None
    else if id == AVIH && size >= 20 then ParseAvih(b, dataStart)
    else None
  }

  function Walk(b: seq<byte>, offset: nat, skipped: nat): (r: Option<Frames>)
    ensures r.Some? ==> r.value.period > 0 && r.value.count > 0
    decreases if offset < |b| then |b| - offset else 0
  {
    if offset + 8 > |b| then None else
    var own := ChunkFrames(b, offset);
    var size := ChunkSize(b, offset);
    if own.Some? then own
    else if size == 0 || skipped + 1 > MAX_SKIPPED then None
    else Walk(b, NextChunk(offset, size), skipped + 1)
  }

  /** Seconds of an AVI file; its chunks follow the twelve-byte RIFF header. */
  function Duration(b: seq<byte>): Option<real> {
    var frames := Walk(b, 12, 0);
    if frames.None? then None else Some(frames.value.Seconds())
  }

  predicate IsAvi(b: seq<byte>) {
    |b| >= 12 && b[..4] == RIFF && b[8..12] == AVI
  }

  /** Any bytes: an AVI starts with the twelve bytes of its signature, whatever the four of the size in it. */
  lemma SignatureIsChecked(b: seq<byte>)
    ensures IsAvi(b) <==> |b| >= 12 && Spells(b[..4], "RIFF") && Spells(b[8..12], "AVI ")
  {
    NamesAreSpelled();
    if |b| >= 12 && Spells(b[..4], "RIFF") && Spells(b[8..12], "AVI ") {
      SameSpelling(b[..4], RIFF, "RIFF");
      SameSpelling(b[8..12], AVI, "AVI ");
    }
  }

  method ParseHdrl(b: seq<byte>, start: nat, end: nat) returns (r: Option<Frames>)
    requires end <= |b|
    ensures r == HdrlWalk(b, start, end, 0)
  {
    hide ParseAvih, ChunkSize;
    var offset, guard := start, 0;
    while offset + 8 <= end
      invariant HdrlWalk(b, offset, end, guard) == HdrlWalk(b, start, end, 0)
      decreases if offset < end then end - offset else 0
    {
      var size := ChunkSize(b, offset);
      if b[offset..offset + 4] == AVIH && size >= 20 {
        var frames := ParseAvih(b, offset + 8);
        if frames.Some? {
          return frames;
        }
      }
      if size == 0 {
        return None;
      }
      offset := offset + 8 + size + size % 2;
      guard := guard + 1;
      if guard > MAX_SKIPPED {
        return None;
      }
    }
    return None;
  }

  method ReadAviDuration(b: seq<byte>) returns (r: Option<real>)
    ensures r == Duration(b)
  {
    hide ChunkSize, HdrlWalk, ParseAvih, Frames.Seconds, DecodeLE;
    var offset, guard := 12, 0;
    while offset + 8 <= |b|
      invariant Walk(b, offset, guard) == Walk(b, 12, 0)
      decreases if offset < |b| then |b| - offset else 0
    {
      var id, size, dataStart := b[offset..offset + 4], ChunkSize(b, offset), offset + 8;
      if id == LIST && dataStart + 4 <= |b| {
        if b[dataStart..dataStart + 4] == HDRL {
          var frames := ParseHdrl(b, dataStart + 4, Min(dataStart + size, |b|));
          if frames.Some? {
            return Some(frames.value.Seconds());
          }
        }
      } else if id == AVIH && size >= 20 {
        var frames := ParseAvih(b, dataStart);
        if frames.Some? {
          return Some(frames.value.Seconds());
        }
      }
      if size == 0 {
        return None;
      }
      offset := dataStart + size + size % 2;
      guard := guard + 1;
      if guard > MAX_SKIPPED {
        return None;
      }
    }
    return None;
  }

  /** On any bytes: a chunk whose header just fits is looked at, and the fields of an `avih` may lie behind its list. */
  lemma LastHeaderIsLookedAt(b: seq<byte>, offset: nat, end: nat, skipped: nat)
    requires offset + 8 == end <= |b| && offset + 28 <= |b|
    requires b[offset..offset + 4] == AVIH && DecodeLE(b[offset + 4..offset + 8]) >= 20
    requires DecodeLE(b[offset + 8..offset + 12]) != 0 && DecodeLE(b[offset + 24..offset + 28]) != 0
    ensures HdrlWalk(b, offset, end, skipped) ==
            Some(Frames(DecodeLE(b[offset + 8..offset + 12]), DecodeLE(b[offset + 24..offset + 28])))
  {
  }

  /** On any bytes a duration that is read is positive. */
  lemma DurationIsPositive(b: seq<byte>)
    ensures Duration(b).Some? ==> Duration(b).value > 0.0
  {
    var frames := Walk(b, 12, 0);
    if frames.Some? {
      ProductPositive(frames.value.period, frames.value.count);
    }
  }

  lemma ProductPositive(x: nat, y: nat)
    requires x > 0 && y > 0
    ensures x * y > 0
  {
  }

  // ------------------------------------------------------------------ the chunk tree

  /** A chunk; `pad` is the byte that follows data of odd length. */
  datatype Chunk = Chunk(id: seq<byte>, data: seq<byte>, pad: byte) {
    ghost predicate WellFormed() {
      |id| == 4 && |data| < 0x1_0000_0000
    }

    function Written(): seq<byte> {
      id + EncodeLE(|data|, 4) + (data + if |data| % 2 == 1 then [pad] else [])
    }

    /** The usable frames this chunk carries as an `avih` block: none or one. */
    ghost function Usable(): seq<Frames> {
      if id == AVIH && |data| >= 20 && DecodeLE(data[..4]) != 0 && DecodeLE(data[16..20]) != 0
      then [Frames(DecodeLE(data[..4]), DecodeLE(data[16..20]))] else []
    }
  }

  /** A top-level chunk: one of its own, or the `hdrl` list of others. */
  datatype TopChunk = Single(chunk: Chunk) | HeaderList(chunks: seq<Chunk>) {
    ghost predicate WellFormed() {
      match this
      case Single(c) => c.WellFormed() && !(c.id == LIST && HDRL <= c.data)
      case HeaderList(chunks) =>
        (forall c :: c in chunks ==> c.WellFormed()) && 4 + |WrittenAll(chunks)| < 0x1_0000_0000
    }

    function AsChunk(): Chunk {
      match this
      case Single(c) => c
      case HeaderList(chunks) => Chunk(LIST, HDRL + WrittenAll(chunks), 0)
    }

    ghost function Usable(): seq<Frames> {
      match this
      case Single(c) => c.Usable()
      case HeaderList(chunks) => ListUsable(chunks, 10_001)
    }
  }

  function WrittenAll(chunks: seq<Chunk>): seq<byte> {
    if chunks == [] then [] else chunks[0].Written() + WrittenAll(chunks[1..])
  }

  function TopWritten(chunks: seq<TopChunk>): seq<byte> {
    if chunks == [] then [] else chunks[0].AsChunk().Written() + TopWritten(chunks[1..])
  }

  /** Usable `avih` blocks of a list in order, up to its first empty chunk and 10,001 chunks at most. */
  ghost function ListUsable(chunks: seq<Chunk>, budget: nat): seq<Frames> {
    if chunks == [] || budget == 0 then [] else
    chunks[0].Usable() + if chunks[0].data == [] then [] else ListUsable(chunks[1..], budget - 1)
  }

  /** Usable `avih` blocks of the stream in order, those inside `hdrl` lists included. */
  ghost function StreamUsable(chunks: seq<TopChunk>, budget: nat): seq<Frames> {
    if chunks == [] || budget == 0 then [] else
    chunks[0].Usable() + if chunks[0].AsChunk().data == [] then [] else StreamUsable(chunks[1..], budget - 1)
  }

  ghost function First(frames: seq<Frames>): Option<Frames> {
    if frames == [] then None else Some(frames[0])
  }

  lemma FirstOfConcat(xs: seq<Frames>, ys: seq<Frames>)
    ensures First(xs + ys) == if First(xs).Some? then First(xs) else First(ys)
    ensures First([]) == None
  {
  }

  /** A written chunk is read back, and the walk's next stop is where it ends. */
  lemma ReadChunk(b: seq<byte>, c: Chunk, offset: nat)
    requires At(b, offset, c.Written()) && c.WellFormed()
    ensures offset + 8 + |c.data| <= NextChunk(offset, |c.data|) == offset + |c.Written()| <= |b|
    ensures b[offset..offset + 4] == c.id && ChunkSize(b, offset) == |c.data|
    ensures At(b, offset + 8, c.data)
  {
    hide DecodeLE, EncodeLE;
    Widths();
    var pad := if |c.data| % 2 == 1 then [c.pad] else [];
    var size := EncodeLE(|c.data|, 4);
    AtSplit(b, offset, c.id + size, c.data + pad);
    AtSplit(b, offset, c.id, size);
    AtSplit(b, offset + 8, c.data, pad);
    DecodeEncodeLE(|c.data|, 4);
  }

  /** An `avih` block of full size yields exactly its usable frames. */
  lemma ReadAvih(b: seq<byte>, c: Chunk, offset: nat)
    requires At(b, offset + 8, c.data)
    ensures (if c.id == AVIH && |c.data| >= 20 then ParseAvih(b, offset + 8) else None) == First(c.Usable())
  {
    hide DecodeLE;
    if |c.data| >= 20 {
      AtSlice(b, offset + 8, c.data, 0, 4);
      AtSlice(b, offset + 8, c.data, 16, 20);
    }
  }

  lemma {:induction false} HdrlWalkFindsFirst(b: seq<byte>, chunks: seq<Chunk>, offset: nat, skipped: nat)
    requires At(b, offset, WrittenAll(chunks)) && skipped <= 10_000
    requires forall c :: c in chunks ==> c.WellFormed()
    ensures HdrlWalk(b, offset, offset + |WrittenAll(chunks)|, skipped) ==
            First(ListUsable(chunks, 10_001 - skipped))
    decreases |chunks|
  {
    hide ParseAvih, ChunkSize, NextChunk, At, Chunk.Usable, Chunk.Written, First;
    FirstOfConcat([], []);
    if chunks != [] {
      var c, rest := chunks[0], chunks[1..];
      AtSplit(b, offset, c.Written(), WrittenAll(rest));
      ReadChunk(b, c, offset);
      ReadAvih(b, c, offset);
      var later := if c.data == [] then [] else ListUsable(rest, 10_000 - skipped);
      FirstOfConcat(c.Usable(), later);
      if skipped < 10_000 {
        HdrlWalkFindsFirst(b, rest, offset + |c.Written()|, skipped + 1);
      }
    }
  }

  lemma HdrlTooShort(b: seq<byte>, offset: nat, end: nat)
    requires end <= |b| && end < offset + 8
    ensures HdrlWalk(b, offset, end, 0) == None
  {
  }

  /** A chunk of its own tells its frames, unless it is a list of another type. */
  lemma SingleTellsFirst(b: seq<byte>, c: Chunk, offset: nat)
    requires offset + 8 <= |b| && b[offset..offset + 4] == c.id && ChunkSize(b, offset) == |c.data|
    requires At(b, offset + 8, c.data) && !(c.id == LIST && HDRL <= c.data)
    ensures ChunkFrames(b, offset) == First(c.Usable())
  {
    hide ParseAvih, ChunkSize, HdrlWalk, First;
    ReadAvih(b, c, offset);
    FirstOfConcat([], []);
    assert LIST[0] != AVIH[0];
    if |c.data| >= 4 {
      AtSlice(b, offset + 8, c.data, 0, 4);
      assert c.data[0..4] == HDRL ==> HDRL <= c.data;
    } else {
      HdrlTooShort(b, offset + 12, Min(offset + 8 + |c.data|, |b|));
    }
  }

  /** An `hdrl` list tells the first usable frames of its chunks. */
  lemma ListTellsFirst(b: seq<byte>, chunks: seq<Chunk>, offset: nat)
    requires offset + 8 <= |b| && b[offset..offset + 4] == LIST
    requires ChunkSize(b, offset) == 4 + |WrittenAll(chunks)| && At(b, offset + 8, HDRL + WrittenAll(chunks))
    requires forall c :: c in chunks ==> c.WellFormed()
    ensures ChunkFrames(b, offset) == First(ListUsable(chunks, 10_001))
  {
    hide ParseAvih, ChunkSize, HdrlWalk, First, ListUsable, WrittenAll;
    AtSplit(b, offset + 8, HDRL, WrittenAll(chunks));
    HdrlWalkFindsFirst(b, chunks, offset + 12, 0);
  }

  /** A top-level chunk tells the first usable frames of its own subtree. */
  lemma ChunkTellsFirst(b: seq<byte>, top: TopChunk, offset: nat)
    requires At(b, offset, top.AsChunk().Written()) && top.WellFormed()
    ensures NextChunk(offset, |top.AsChunk().data|) == offset + |top.AsChunk().Written()| <= |b|
    ensures offset + 8 <= |b| && ChunkSize(b, offset) == |top.AsChunk().data|
    ensures ChunkFrames(b, offset) == First(top.Usable())
  {
    hide ChunkFrames, ChunkSize, Chunk.Usable, Chunk.Written, First, ListUsable, WrittenAll, At;
    ReadChunk(b, top.AsChunk(), offset);
    match top
    case Single(c) => SingleTellsFirst(b, c, offset);
    case HeaderList(chunks) => ListTellsFirst(b, chunks, offset);
  }

  /** The walk over a written stream, whatever short tail follows it, finds its first usable `avih`. */
  lemma {:induction false} WalkFindsFirst(b: seq<byte>, chunks: seq<TopChunk>, offset: nat, skipped: nat)
    requires At(b, offset, TopWritten(chunks)) && skipped <= 10_000
    requires |b| < offset + |TopWritten(chunks)| + 8
    requires forall c :: c in chunks ==> c.WellFormed()
    ensures Walk(b, offset, skipped) == First(StreamUsable(chunks, 10_001 - skipped))
    decreases |chunks|
  {
    hide ChunkFrames, ChunkSize, NextChunk, At, Chunk.Usable, TopChunk.Usable, Chunk.Written, First;
    FirstOfConcat([], []);
    if chunks != [] {
      var top, rest := chunks[0], chunks[1..];
      var c := top.AsChunk();
      AtSplit(b, offset, c.Written(), TopWritten(rest));
      ChunkTellsFirst(b, top, offset);
      var later := if c.data == [] then [] else StreamUsable(rest, 10_000 - skipped);
      FirstOfConcat(top.Usable(), later);
      if skipped < 10_000 {
        WalkFindsFirst(b, rest, offset + |c.Written()|, skipped + 1);
      }
    }
  }

  /** The duration of a written AVI file is that of its first usable `avih`. */
  lemma WrittenFileDuration(riffSize: seq<byte>, chunks: seq<TopChunk>, tail: seq<byte>)
    requires |riffSize| == 4 && |tail| < 8
    requires forall c :: c in chunks ==> c.WellFormed()
    ensures var b := RIFF + riffSize + AVI + TopWritten(chunks) + tail;
            var usable := StreamUsable(chunks, 10_001);
            && IsAvi(b)
            && Duration(b) == if usable == [] then None else Some(usable[0].Seconds())
  {
    hide Walk, TopWritten, StreamUsable;
    var header, w := RIFF + riffSize + AVI, TopWritten(chunks);
    var b := header + w + tail;
    assert b[12..12 + |w|] == w;
    WalkFindsFirst(b, chunks, 12, 0);
  }

  // ------------------------------------------------------------------ declared and read

  /** Every usable `avih` of a list, empty chunks and guards aside. */
  ghost function AllUsable(chunks: seq<Chunk>): seq<Frames> {
    if chunks == [] then [] else chunks[0].Usable() + AllUsable(chunks[1..])
  }

  /** The frames a file declares: the usable `avih` blocks inside its `hdrl` lists. */
  ghost function DeclaredUsable(chunks: seq<TopChunk>): seq<Frames> {
    if chunks == [] then [] else
    (if chunks[0].HeaderList? then AllUsable(chunks[0].chunks) else []) + DeclaredUsable(chunks[1..])
  }

  /** Where an `avih` block stands: the chunk of the stream, and its place in that chunk's list. */
  datatype Spot = Spot(chunk: nat, place: nat)

  ghost function OneFurther(place: Option<nat>): Option<nat> {
    if place.None? then None else Some(place.value + 1)
  }

  /** The place of the first usable `avih` of a list. */
  ghost function FirstPlace(chunks: seq<Chunk>): Option<nat> {
    if chunks == [] then None
    else if chunks[0].Usable() != [] then Some(0)
    else OneFurther(FirstPlace(chunks[1..]))
  }

  /** The place at which the walk over the list stops. */
  ghost function WalkPlace(chunks: seq<Chunk>, budget: nat): Option<nat> {
    if chunks == [] || budget == 0 then None
    else if chunks[0].Usable() != [] then Some(0)
    else if chunks[0].data == [] then None
    else OneFurther(WalkPlace(chunks[1..], budget - 1))
  }

  /** The first usable `avih` inside an `hdrl` list of a stream that starts with chunk `n`. */
  ghost function DeclaredSpot(chunks: seq<TopChunk>, n: nat): Option<Spot> {
    if chunks == [] then None else
    var place := if chunks[0].HeaderList? then FirstPlace(chunks[0].chunks) else None;
    if place.Some? then Some(Spot(n, place.value)) else DeclaredSpot(chunks[1..], n + 1)
  }

  /** The usable `avih` that the walk over the stream stops at. */
  ghost function WalkSpot(chunks: seq<TopChunk>, n: nat, budget: nat): Option<Spot> {
    if chunks == [] || budget == 0 then None else
    var place := if chunks[0].HeaderList? then WalkPlace(chunks[0].chunks, 10_001)
                 else if chunks[0].Usable() != [] then Some(0) else None;
    if place.Some? then Some(Spot(n, place.value))
    else if chunks[0].AsChunk().data == [] then None
    else WalkSpot(chunks[1..], n + 1, budget - 1)
  }

  /**
   In front of the first `hdrl` list with a usable `avih` there is none at the top level, and no empty
   chunk or guard stops the walk before that list or, inside it, before that `avih`.
   */
  ghost predicate ReadsDeclared(chunks: seq<TopChunk>, budget: nat) {
    if chunks == [] then true
    else if budget == 0 then DeclaredUsable(chunks) == []
    else match chunks[0]
      case HeaderList(list) =>
        if AllUsable(list) != [] then ListUsable(list, 10_001) != []
        else ReadsDeclared(chunks[1..], budget - 1)
      case Single(c) =>
        && c.Usable() == []
        && if c.data == [] then DeclaredUsable(chunks[1..]) == [] else ReadsDeclared(chunks[1..], budget - 1)
  }

  /** The walk over a list sees the usable blocks of a front part of it, and stops at the first. */
  lemma {:induction false} ListSeesAFrontPart(chunks: seq<Chunk>, budget: nat)
    ensures ListUsable(chunks, budget) <= AllUsable(chunks)
    ensures FirstPlace(chunks).Some? <==> AllUsable(chunks) != []
    ensures WalkPlace(chunks, budget).Some? <==> ListUsable(chunks, budget) != []
    ensures WalkPlace(chunks, budget).Some? ==> WalkPlace(chunks, budget) == FirstPlace(chunks)
    decreases |chunks|
  {
    hide Chunk.Usable;
    if chunks != [] {
      ListSeesAFrontPart(chunks[1..], if budget == 0 then 0 else budget - 1);
    }
  }

  lemma {:induction false} DeclaredSpotIsLater(chunks: seq<TopChunk>, n: nat)
    ensures DeclaredSpot(chunks, n).Some? <==> DeclaredUsable(chunks) != []
    ensures DeclaredSpot(chunks, n).Some? ==> DeclaredSpot(chunks, n).value.chunk >= n
    decreases |chunks|
  {
    hide FirstPlace, AllUsable;
    if chunks != [] {
      if chunks[0].HeaderList? {
        ListSeesAFrontPart(chunks[0].chunks, 0);
      }
      DeclaredSpotIsLater(chunks[1..], n + 1);
    }
  }

  lemma {:induction false} WalkSpotIsLater(chunks: seq<TopChunk>, n: nat, budget: nat)
    ensures WalkSpot(chunks, n, budget).Some? ==> WalkSpot(chunks, n, budget).value.chunk >= n
    decreases |chunks|
  {
    hide WalkPlace, TopChunk.Usable;
    if chunks != [] && budget > 0 {
      WalkSpotIsLater(chunks[1..], n + 1, budget - 1);
    }
  }

  /** The `avih` the walk stops at is the declared one exactly under ReadsDeclared. */
  lemma {:induction false} DeclaredIsReadExactly(chunks: seq<TopChunk>, n: nat, budget: nat)
    ensures WalkSpot(chunks, n, budget) == DeclaredSpot(chunks, n) <==> ReadsDeclared(chunks, budget)
    decreases |chunks|
  {
    hide WalkPlace, FirstPlace, Chunk.Usable, AllUsable, ListUsable;
    DeclaredSpotIsLater(chunks, n);
    if chunks != [] && budget > 0 {
      DeclaredSpotIsLater(chunks[1..], n + 1);
      WalkSpotIsLater(chunks[1..], n + 1, budget - 1);
      DeclaredIsReadExactly(chunks[1..], n + 1, budget - 1);
      if chunks[0].HeaderList? {
        ListSeesAFrontPart(chunks[0].chunks, 10_001);
        assert chunks[0].AsChunk().data != [];
      }
    }
  }

  /** The frames of the block at a spot of a stream that starts with chunk `n`. */
  ghost function FramesAt(chunks: seq<TopChunk>, n: nat, spot: Option<Spot>): Option<Frames> {
    if spot.None? || spot.value.chunk < n || spot.value.chunk - n >= |chunks| then None
    else match chunks[spot.value.chunk - n]
      case Single(c) => First(c.Usable())
      case HeaderList(list) => if spot.value.place < |list| then First(list[spot.value.place].Usable()) else None
  }

  lemma FramesBehind(chunks: seq<TopChunk>, n: nat, spot: Option<Spot>)
    requires chunks != [] && (spot.Some? ==> spot.value.chunk > n)
    ensures FramesAt(chunks, n, spot) == FramesAt(chunks[1..], n + 1, spot)
  {
    hide First, Chunk.Usable;
  }

  /** The first usable frames of a list, read and declared, are those of the chunks at the two places. */
  lemma {:induction false} PlacesHold(chunks: seq<Chunk>, budget: nat)
    ensures var place := FirstPlace(chunks);
            place.Some? ==> place.value < |chunks| && First(AllUsable(chunks)) == First(chunks[place.value].Usable())
    ensures WalkPlace(chunks, budget).Some? ==> First(ListUsable(chunks, budget)) == First(AllUsable(chunks))
    decreases |chunks|
  {
    hide Chunk.Usable, First;
    ListSeesAFrontPart(chunks, budget);
    FirstOfPrefix(ListUsable(chunks, budget), AllUsable(chunks));
    if chunks != [] {
      var c, rest := chunks[0], chunks[1..];
      FirstOfConcat(c.Usable(), AllUsable(rest));
      FirstOfSome(c.Usable());
      PlacesHold(rest, 0);
    }
  }

  lemma FirstOfPrefix(xs: seq<Frames>, ys: seq<Frames>)
    requires xs <= ys
    ensures xs != [] ==> First(xs) == First(ys)
  {
  }

  lemma FirstOfSome(frames: seq<Frames>)
    ensures First(frames).Some? <==> frames != []
  {
  }

  /** The frames that are read are those of the block the walk stops at. */
  lemma {:induction false} WalkSpotHolds(chunks: seq<TopChunk>, n: nat, budget: nat)
    ensures First(StreamUsable(chunks, budget)) == FramesAt(chunks, n, WalkSpot(chunks, n, budget))
    decreases |chunks|
  {
    hide Chunk.Usable, ListUsable, WalkPlace, First;
    FirstOfConcat([], []);
    if chunks != [] && budget > 0 {
      var top, rest := chunks[0], chunks[1..];
      FirstOfConcat(top.Usable(), if top.AsChunk().data == [] then [] else StreamUsable(rest, budget - 1));
      FirstOfSome(top.Usable());
      if top.HeaderList? {
        ListSeesAFrontPart(top.chunks, 10_001);
      }
      if top.Usable() == [] {
        WalkSpotHolds(rest, n + 1, budget - 1);
        WalkSpotIsLater(rest, n + 1, budget - 1);
        FramesBehind(chunks, n, WalkSpot(chunks, n, budget));
      } else if top.HeaderList? {
        PlacesHold(top.chunks, 10_001);
      }
    }
  }

  /** The frames that are declared are those of the first usable block inside an `hdrl` list. */
  lemma {:induction false} DeclaredSpotHolds(chunks: seq<TopChunk>, n: nat)
    ensures First(DeclaredUsable(chunks)) == FramesAt(chunks, n, DeclaredSpot(chunks, n))
    decreases |chunks|
  {
    hide Chunk.Usable, AllUsable, FirstPlace, First;
    FirstOfConcat([], []);
    if chunks != [] {
      var top, rest := chunks[0], chunks[1..];
      var own := if top.HeaderList? then AllUsable(top.chunks) else [];
      FirstOfConcat(own, DeclaredUsable(rest));
      FirstOfSome(own);
      if top.HeaderList? {
        ListSeesAFrontPart(top.chunks, 0);
      }
      if own == [] {
        DeclaredSpotHolds(rest, n + 1);
        DeclaredSpotIsLater(rest, n + 1);
        FramesBehind(chunks, n, DeclaredSpot(chunks, n));
      } else {
        PlacesHold(top.chunks, 0);
      }
    }
  }
}
