/**
 Families of files, each with its exact bound: WebM files whose Duration decides, and files that declare
 more than five minutes and are accepted, one family for each way this happens.
 */
module TooLongFiles {
  import opened Bytes
  import opened Options
  import opened VideoUpload
  import opened WebmElements
  import Avi
  import IsoBmff
  import Vints
  import Webm
  import WebmFiles

  // ------------------------------------------------------------------ MP4 and MOV

  function MovieHeaderBox(header: IsoBmff.MovieHeader): IsoBmff.Box {
    IsoBmff.Leaf(IsoBmff.Compact, IsoBmff.MVHD, header.Bytes())
  }

  /** Behind `ftyp` an `mvhd` of the top level, and then a `moov` with another one. */
  function StrayTail(stray: IsoBmff.MovieHeader, inside: IsoBmff.MovieHeader): IsoBmff.Forest {
    var movie := IsoBmff.Movie(IsoBmff.Compact, IsoBmff.Boxes(MovieHeaderBox(inside), IsoBmff.Empty));
    IsoBmff.Boxes(MovieHeaderBox(stray), IsoBmff.Boxes(movie, IsoBmff.Empty))
  }

  /** What such a file declares is the time inside `moov`, but the stray one decides. */
  lemma StrayHeaderDecides(brand: seq<byte>, stray: IsoBmff.MovieHeader, inside: IsoBmff.MovieHeader,
                           ieee: seq<byte> -> Webm.Float)
    requires 4 <= |brand| <= 100 && |stray.rest| <= 100 && |inside.rest| <= 100
    requires stray.WellFormed() && stray.time.Usable(stray.AllOnes())
    requires inside.WellFormed() && inside.time.Usable(inside.AllOnes())
    ensures var forest := IsoBmff.Boxes(IsoBmff.Leaf(IsoBmff.Compact, FTYP, brand), StrayTail(stray, inside));
            && IsoBmff.WellFormed(forest, true)
            && IsoBmff.DeclaredTime(forest) == Some(inside.time)
            && (Decide(Some(IsoBmff.Serialize(forest)), ieee).Accept? <==>
                stray.time.duration <= 300 * stray.time.timescale)
  {
    hide IsoBmff.MovieHeader.Bytes, IsoBmff.OwnTime, IsoBmff.MvhdBoxes, IsoBmff.Serialize, IsoBmff.WellFormed,
      IsoBmff.DeclaredTime, Decide;
    var forest := IsoBmff.Boxes(IsoBmff.Leaf(IsoBmff.Compact, FTYP, brand), StrayTail(stray, inside));
    MovieHeaderLength(stray);
    MovieHeaderLength(inside);
    StrayFile(brand, stray, inside);
    IsoBmff.OwnTimeOfHeader(inside);
    IsoHeaderGate(brand, StrayTail(stray, inside), stray, ieee);
  }

  lemma MovieHeaderLength(header: IsoBmff.MovieHeader)
    requires header.WellFormed()
    ensures |header.Bytes()| <= 32 + |header.rest|
  {
    hide EncodeBE;
  }

  lemma StrayFile(brand: seq<byte>, stray: IsoBmff.MovieHeader, inside: IsoBmff.MovieHeader)
    requires 4 <= |brand| <= 100 && |stray.Bytes()| <= 200 && |inside.Bytes()| <= 200
    ensures var forest := IsoBmff.Boxes(IsoBmff.Leaf(IsoBmff.Compact, FTYP, brand), StrayTail(stray, inside));
            var found := IsoBmff.MvhdBoxes(forest, 0, 10_001);
            && IsoBmff.WellFormed(forest, true) && |IsoBmff.Serialize(forest)| <= 52_428_800
            && IsoBmff.DeclaredTime(forest) == IsoBmff.OwnTime(inside.Bytes())
            && found != [] && found[0].payload == stray.Bytes()
  {
    hide IsoBmff.MovieHeader.Bytes, IsoBmff.OwnTime, IsoBmff.MvhdBoxes, IsoBmff.Serialize, IsoBmff.WellFormed,
      IsoBmff.DeclaredMvhd;
    var tail := StrayTail(stray, inside);
    var movie := IsoBmff.Movie(IsoBmff.Compact, IsoBmff.Boxes(MovieHeaderBox(inside), IsoBmff.Empty));
    var ftyp := IsoBmff.Leaf(IsoBmff.Compact, FTYP, brand);
    EmptyForest();
    BoxOnTop(MovieHeaderBox(inside), IsoBmff.Empty, true);
    BoxOnTop(movie, IsoBmff.Empty, true);
    BoxOnTop(MovieHeaderBox(stray), tail.tail, true);
    BoxOnTop(ftyp, tail, true);
    IsoBmff.ReadMvhdAtHead(ftyp, tail, 0, 10_001);
    IsoBmff.ReadMvhdAtHead(MovieHeaderBox(stray), tail.tail, 8 + |brand|, 10_000);
    DeclaredBehind(ftyp, tail, 0);
    DeclaredBehind(MovieHeaderBox(stray), tail.tail, 8 + |brand|);
    DeclaredAlone(movie, inside, 8 + |brand| + (8 + |stray.Bytes()|));
  }

  lemma DeclaredBehind(box: IsoBmff.Box, tail: IsoBmff.Forest, offset: nat)
    requires box.Leaf? && box.form == IsoBmff.Compact
    ensures IsoBmff.DeclaredMvhd(IsoBmff.Boxes(box, tail), offset) ==
            IsoBmff.DeclaredMvhd(tail, offset + 8 + |box.payload|)
  {
  }

  lemma DeclaredAlone(movie: IsoBmff.Box, inside: IsoBmff.MovieHeader, offset: nat)
    requires movie == IsoBmff.Movie(IsoBmff.Compact, IsoBmff.Boxes(MovieHeaderBox(inside), IsoBmff.Empty))
    ensures IsoBmff.DeclaredMvhd(IsoBmff.Boxes(movie, IsoBmff.Empty), offset) ==
            Some(IsoBmff.MvhdBox(offset + 8, inside.Bytes()))
  {
    hide IsoBmff.MovieHeader.Bytes, IsoBmff.Payload;
    assert IsoBmff.FirstMvhd(movie.children, offset + 8) == Some(IsoBmff.MvhdBox(offset + 8, inside.Bytes()));
  }

  lemma EmptyForest()
    ensures IsoBmff.WellFormed(IsoBmff.Empty, true)
    ensures IsoBmff.Serialize(IsoBmff.Empty) == []
  {
  }

  /** A small box in front of other boxes. */
  lemma BoxOnTop(box: IsoBmff.Box, tail: IsoBmff.Forest, endsFile: bool)
    requires box.form == IsoBmff.Compact && |IsoBmff.Payload(box)| <= 1000 && IsoBmff.WellFormed(tail, endsFile)
    requires match box
             case Leaf(_, kind, _) => |kind| == 4 && kind != IsoBmff.MOOV
             case Movie(_, children) => IsoBmff.WellFormed(children, endsFile && tail.Empty?)
    ensures IsoBmff.WellFormed(IsoBmff.Boxes(box, tail), endsFile)
    ensures |IsoBmff.Serialize(IsoBmff.Boxes(box, tail))| == 8 + |IsoBmff.Payload(box)| + |IsoBmff.Serialize(tail)|
  {
    hide IsoBmff.Serialize, IsoBmff.Payload;
    IsoBmff.SerializedLength(box, tail);
  }

  // ------------------------------------------------------------------ AVI

  /** The data of an `avih` block: the frame period, three fields the reader skips, and the frame count. */
  function AvihData(frames: Avi.Frames): seq<byte> {
    EncodeLE(frames.period, 4) + (EncodeLE(0, 12) + EncodeLE(frames.count, 4))
  }

  function AvihChunk(frames: Avi.Frames): Avi.Chunk {
    Avi.Chunk(Avi.AVIH, AvihData(frames), 0)
  }

  /** An `avih` of the top level, and then an `hdrl` list with another one. */
  function StrayStream(stray: Avi.Frames, inside: Avi.Frames): seq<Avi.TopChunk> {
    [Avi.Single(AvihChunk(stray)), Avi.HeaderList([AvihChunk(inside)])]
  }

  ghost predicate FramesFit(frames: Avi.Frames) {
    0 < frames.period < 0x1_0000_0000 && 0 < frames.count < 0x1_0000_0000
  }

  /** What such a file declares are the frames inside `hdrl`, but the stray ones decide. */
  lemma StrayFramesDecide(riffSize: seq<byte>, stray: Avi.Frames, inside: Avi.Frames, ieee: seq<byte> -> Webm.Float)
    requires |riffSize| == 4 && riffSize != FTYP && FramesFit(stray) && FramesFit(inside)
    ensures var chunks := StrayStream(stray, inside);
            var b := Avi.RIFF + riffSize + Avi.AVI + Avi.TopWritten(chunks) + [];
            && (forall c :: c in chunks ==> c.WellFormed())
            && Avi.DeclaredUsable(chunks) == [inside]
            && (Decide(Some(b), ieee) == Accept(VideoFormat.Avi) <==>
                stray.period * stray.count <= 300 * 1_000_000)
  {
    hide Decide, Avi.TopWritten, Avi.StreamUsable, Avi.DeclaredUsable, AvihData, Avi.TopChunk.WellFormed;
    var chunks := StrayStream(stray, inside);
    AvihIsUsable(stray);
    AvihIsUsable(inside);
    StrayStreamTells(stray, inside);
    AviGate(riffSize, chunks, [], ieee);
  }

  lemma AvihIsUsable(frames: Avi.Frames)
    requires FramesFit(frames)
    ensures |AvihData(frames)| == 20 && AvihChunk(frames).WellFormed() && AvihChunk(frames).Usable() == [frames]
  {
    hide EncodeLE, DecodeLE;
    Widths();
    DecodeEncodeLE(frames.period, 4);
    DecodeEncodeLE(frames.count, 4);
    assert AvihData(frames)[..4] == EncodeLE(frames.period, 4);
    assert AvihData(frames)[16..20] == EncodeLE(frames.count, 4);
  }

  lemma StrayStreamTells(stray: Avi.Frames, inside: Avi.Frames)
    requires |AvihData(stray)| == 20 && AvihChunk(stray).WellFormed() && AvihChunk(stray).Usable() == [stray]
    requires |AvihData(inside)| == 20 && AvihChunk(inside).WellFormed() && AvihChunk(inside).Usable() == [inside]
    ensures var chunks := StrayStream(stray, inside);
            && (forall c :: c in chunks ==> c.WellFormed())
            && |Avi.TopWritten(chunks)| <= 100
            && Avi.DeclaredUsable(chunks) == [inside]
            && Avi.StreamUsable(chunks, 10_001) != []
            && Avi.StreamUsable(chunks, 10_001)[0] == stray
  {
    hide AvihData, Avi.Chunk.Usable, EncodeLE;
    var chunks, list := StrayStream(stray, inside), [AvihChunk(inside)];
    assert chunks[1..] == [Avi.HeaderList(list)] && chunks[1..][1..] == [] && list[1..] == [];
    assert |Avi.WrittenAll(list)| == |AvihChunk(inside).Written() + Avi.WrittenAll([])| == 28;
    assert Avi.AllUsable(list) == [inside] + Avi.AllUsable([]) == [inside];
    assert Avi.DeclaredUsable(chunks[1..]) == [inside] + Avi.DeclaredUsable([]) == [inside];
    assert Avi.DeclaredUsable(chunks) == [] + Avi.DeclaredUsable(chunks[1..]);
    assert |Avi.TopWritten(chunks[1..])| == |chunks[1].AsChunk().Written() + Avi.TopWritten([])| == 40;
    assert Avi.LIST[0] != Avi.AVIH[0];
  }

  // ------------------------------------------------------------------ WebM

  /** A small WebM file. */
  function SmallFile(infoSize: Size, info: seq<Element>, rest: seq<byte>): WebmFiles.WebmFile {
    WebmFiles.WebmFile(
      Told(1), [Element(Webm.DOC_TYPE, Told(1), Webm.WEBM)], [], Told(1), [],
      infoSize, info, rest, [])
  }

  lemma SmallFileIsRecognised(infoSize: Size, info: seq<Element>, rest: seq<byte>)
    ensures IsRecognised(SmallFile(infoSize, info, rest))
    ensures |SmallFile(infoSize, info, rest).HeaderElement().Written()| == 12
    ensures SmallFile(infoSize, info, rest).HeaderElement().WellFormed()
    ensures AllWellFormed(SmallFile(infoSize, info, rest).header)
  {
    hide WebmFiles.WebmFile.AfterHeader, Element.Written;
    var file := SmallFile(infoSize, info, rest);
    var docType := file.header[0];
    assert Vints.Pow128(1) == 128;
    assert WrittenAll(file.header) == docType.Written() + WrittenAll([]);
    DocTypeWritten(docType);
    var header := file.HeaderElement();
    assert header.Written() == (Webm.EBML + Vints.EncodeVint(7, 1)) + header.payload by { WrittenIs(header); }
    OneByteSize(7);
    assert file.Bytes()[4] == header.Written()[4] == 135;
    assert FTYP[0] != 135;
    assert View(file.header, file.AfterHeader())[0] == Field(Webm.DOC_TYPE, Webm.WEBM);
  }

  lemma WrittenIs(e: Element)
    ensures e.Written() == (e.id + Vints.EncodeVint(e.size.Value(|e.payload|), e.size.bytes)) + e.payload
  {
  }

  lemma WrittenLength(e: Element)
    ensures |e.Written()| == |e.id| + e.size.bytes + |e.payload|
  {
  }

  lemma DocTypeWritten(e: Element)
    requires e == Element(Webm.DOC_TYPE, Told(1), Webm.WEBM)
    ensures |e.Written()| == 7
  {
    OneByteSize(4);
  }

  lemma OneByteSize(v: nat)
    requires v < 127
    ensures Vints.EncodeVint(v, 1) == [v + 128]
  {
    assert Vints.Pow128(1) == 128;
    assert EncodeBE((v + 128) / 256, 0) + [v + 128] == [v + 128];
  }

  /** Elements with a size of one byte. */
  function Short(id: seq<byte>, payload: seq<byte>): Element {
    Element(id, Told(1), payload)
  }

  lemma ShortWritten(id: seq<byte>, payload: seq<byte>)
    requires ValidId(id) && |payload| < 127
    ensures Short(id, payload).WellFormed() && |Short(id, payload).Written()| == |id| + 1 + |payload|
  {
    OneByteSize(|payload|);
    assert Vints.Pow128(1) == 128;
  }

  lemma InfoIds()
    ensures ValidId(Webm.TIMECODE_SCALE) && ValidId(Webm.DURATION)
  {
  }

  lemma SmallFileIsWellFormed(infoSize: Size, info: seq<Element>, rest: seq<byte>)
    requires AllWellFormed(info) && |WrittenAll(info)| + |rest| <= 40
    requires infoSize == Told(1) || infoSize == Told(8)
    ensures SmallFile(infoSize, info, rest).WellFormed()
    ensures |SmallFile(infoSize, info, rest).Bytes()| <= 100
    ensures WebmFiles.ReachesInfo(SmallFile(infoSize, info, rest))
  {
    hide AllWellFormed, Element.Written, WrittenAll, Swallows,
      ValidId, WebmFiles.WebmFile.HeaderElement;
    var file := SmallFile(infoSize, info, rest);
    SmallFileIsRecognised(infoSize, info, rest);
    WebmFiles.KnownIds();
    EmptyLevel();
    WrittenLength(file.InfoElement());
    WrittenLength(file.SegmentElement());
    SizesFit(|WrittenAll(info)|);
    SizesFit(|file.SegmentElement().payload|);
  }

  lemma SizesFit(n: nat)
    requires n < 127
    ensures Told(1).Fits(n) && Told(8).Fits(n)
  {
    assert Vints.Pow128(1) == 128;
    assert Vints.Pow128(8) == 128 * Vints.Pow128(7);
    assert Vints.Pow128(7) == 128 * Vints.Pow128(6);
  }

  lemma EmptyLevel()
    ensures AllWellFormed([]) && WrittenAll([]) == [] && !Swallows([])
  {
  }

  /** Info says a Duration and nothing else. */
  function PlainFile(duration: seq<byte>): WebmFiles.WebmFile {
    SmallFile(Told(1), [Short(Webm.DURATION, duration)], [])
  }

  lemma PlainFileFields(duration: seq<byte>)
    requires |duration| <= 8
    ensures var file := PlainFile(duration);
            && file.WellFormed() && |file.Bytes()| <= 100 && IsRecognised(file)
            && WebmFiles.SeenInfo(file) == Some([Field(Webm.DURATION, duration)])
  {
    hide WrittenAll, WebmFiles.WebmFile.WellFormed, WebmFiles.WebmFile.Bytes, Element.WellFormed,
      Element.Written, WebmFiles.ReachesInfo, IsRecognised;
    var file, e := PlainFile(duration), Short(Webm.DURATION, duration);
    InfoIds();
    ShortWritten(Webm.DURATION, duration);
    WrittenTwo(e, e);
    SmallFileIsWellFormed(Told(1), file.info, []);
    SmallFileIsRecognised(Told(1), file.info, []);
    WebmFiles.NarrowInfoIsPlain(file);
    PlainTwo(e, e);
  }

  lemma OneDuration(x: seq<byte>)
    ensures var a := Field(Webm.DURATION, x);
            && LastDuration([a], None) == (if |x| == 4 || |x| == 8 then Some(x) else None)
            && LastScale([a], Webm.DEFAULT_SCALE) == 1_000_000
  {
    var a := Field(Webm.DURATION, x);
    DurationIsReadExactly([a], None);
    assert |Webm.TIMECODE_SCALE| != |Webm.DURATION| && [a][..0] == [];
  }

  /**
   With the default rate a Duration of four or eight bytes decides: up to 300,000 ticks, each a
   thousandth of a second, are accepted. One of another size, or one that is not a positive number, is
   no duration.
   */
  lemma DurationDecides(duration: seq<byte>, ieee: seq<byte> -> Webm.Float)
    requires |duration| <= 8
    ensures Decide(Some(PlainFile(duration).Bytes()), ieee) ==
            if (|duration| == 4 || |duration| == 8) && ieee(duration).Finite? && ieee(duration).value > 0.0 then
              if ieee(duration).value <= 300_000.0 then Accept(VideoFormat.Webm) else Refuse(DurationExceeded)
            else Refuse(DurationInvalid)
  {
    hide IsRecognised, Decide, WebmFiles.WebmFile.Bytes, WebmFiles.WebmFile.WellFormed, WebmFiles.SeenInfo,
      Webm.ScaledSeconds, LastScale, LastDuration;
    PlainFileFields(duration);
    OneDuration(duration);
    WebmGate(PlainFile(duration), ieee);
    if ieee(duration).Finite? {
      Milliseconds(ieee(duration).value);
    }
  }

  /** Info says a TimecodeScale and then a Duration. */
  function ScaledFile(scale: seq<byte>, duration: seq<byte>): WebmFiles.WebmFile {
    SmallFile(Told(1), [Short(Webm.TIMECODE_SCALE, scale), Short(Webm.DURATION, duration)], [])
  }

  lemma ScaledFileFields(scale: seq<byte>, duration: seq<byte>)
    requires (|duration| == 4 || |duration| == 8) && 1 <= |scale| <= 8
    ensures var file := ScaledFile(scale, duration);
            && file.WellFormed() && |file.Bytes()| <= 100 && IsRecognised(file) && !WebmFiles.RunsOn(file)
            && WebmFiles.SeenInfo(file) == Some(Plain(file.info))
            && Plain(file.info) ==
               [Field(Webm.TIMECODE_SCALE, scale), Field(Webm.DURATION, duration)]
  {
    hide WrittenAll, WebmFiles.WebmFile.WellFormed, WebmFiles.WebmFile.Bytes, Element.WellFormed,
      Element.Written, WebmFiles.ReachesInfo, IsRecognised;
    var file := ScaledFile(scale, duration);
    var first, second := Short(Webm.TIMECODE_SCALE, scale), Short(Webm.DURATION, duration);
    InfoIds();
    ShortWritten(Webm.TIMECODE_SCALE, scale);
    ShortWritten(Webm.DURATION, duration);
    WrittenTwo(first, second);
    SmallFileIsWellFormed(Told(1), file.info, []);
    SmallFileIsRecognised(Told(1), file.info, []);
    WebmFiles.NarrowInfoIsPlain(file);
    PlainTwo(first, second);
  }

  lemma WrittenTwo(x: Element, y: Element)
    ensures WrittenAll([x, y]) == x.Written() + y.Written()
    ensures WrittenAll([y]) == y.Written()
  {
    assert [x, y][1..] == [y] && [y][1..] == [];
    assert WrittenAll([y]) == y.Written() + WrittenAll([]);
  }

  lemma PlainTwo(x: Element, y: Element)
    requires !x.size.ReadsToEnd() && !y.size.ReadsToEnd()
    ensures var fields := [Field(x.id, x.payload), Field(y.id, y.payload)];
            Plain([x, y]) == fields && View([x, y], []) == fields
    ensures Plain([x]) == [Field(x.id, x.payload)]
  {
    assert [x, y][1..] == [y] && [y][1..] == [] && [x][1..] == [];
    var f, g := Field(x.id, x.payload), Field(y.id, y.payload);
    assert Plain([]) == [] && View([], []) == [];
    assert Plain([y]) == [g] && View([y], []) == [g];
    assert [f] + [g] == [f, g];
  }

  lemma LastOfTwo(a: Field, b: Field)
    requires a.id == Webm.TIMECODE_SCALE && b.id == Webm.DURATION
    ensures LastDuration([a, b], None) == if Webm.IsDuration(b.id, |b.payload|) then Some(b.payload) else None
    ensures LastScale([a, b], Webm.DEFAULT_SCALE) ==
            if Webm.IsScale(a.id, |a.payload|) then DecodeBE(a.payload) else Webm.DEFAULT_SCALE
    ensures DeclaredScale([a, b], Webm.DEFAULT_SCALE) ==
            if IsDeclaredScale(a) then DecodeBE(a.payload) else Webm.DEFAULT_SCALE
    ensures OverlookedScale([a, b]) ==
            if IsDeclaredScale(a) && 5 <= |a.payload| <= 7 then Some(a) else None
  {
    hide DecodeBE;
    assert [a, b][..1] == [a] && [a][..0] == [];
    assert |Webm.TIMECODE_SCALE| != |Webm.DURATION|;
    assert LastDuration([a], None) == None && OverlookedScale([]) == None;
    assert LastScale([], Webm.DEFAULT_SCALE) == Webm.DEFAULT_SCALE;
    assert DeclaredScale([], Webm.DEFAULT_SCALE) == Webm.DEFAULT_SCALE;
  }

  /**
   With a zero scale any positive number of ticks is accepted. AcceptedDuration says that such files
   are the only ones accepted with no duration at all.
   */
  lemma ZeroScaleIsAccepted(duration: seq<byte>, ieee: seq<byte> -> Webm.Float)
    requires (|duration| == 4 || |duration| == 8) && ieee(duration).Finite? && ieee(duration).value > 0.0
    ensures Decide(Some(ScaledFile([0], duration).Bytes()), ieee) == Accept(VideoFormat.Webm)
  {
    hide LastScale, LastDuration, IsRecognised, Decide, WebmFiles.WebmFile.Bytes,
      WebmFiles.WebmFile.WellFormed, WebmFiles.SeenInfo, Plain;
    ScaledFileFields([0], duration);
    LastOfTwo(Field(Webm.TIMECODE_SCALE, [0]), Field(Webm.DURATION, duration));
    Vints.DecodeOne(0);
    assert Webm.ScaledSeconds(ieee(duration).value, 0) == 0.0;
    WebmGate(ScaledFile([0], duration), ieee);
  }

  /** One second, as a number of nanoseconds in five bytes. */
  const SECOND_IN_FIVE_BYTES: seq<byte> := [0, 0x3b, 0x9a, 0xca, 0]

  /** Ticks of one second, told in five bytes: up to 300,000 declared seconds are accepted, an hour among them. */
  lemma LongFileIsAccepted(duration: seq<byte>, ieee: seq<byte> -> Webm.Float)
    requires (|duration| == 4 || |duration| == 8) && ieee(duration).Finite? && 0.0 < ieee(duration).value
    ensures WebmFiles.DeclaredSeconds(ScaledFile(SECOND_IN_FIVE_BYTES, duration), ieee) == Some(ieee(duration).value)
    ensures ieee(duration).value > 300.0 ==>
              (Decide(Some(ScaledFile(SECOND_IN_FIVE_BYTES, duration).Bytes()), ieee) == Accept(VideoFormat.Webm)
               <==> ieee(duration).value <= 300_000.0)
  {
    hide LastScale, LastDuration, DeclaredScale, DeclaredDuration, OverlookedScale, IsRecognised, Decide,
      WebmFiles.WebmFile.Bytes, WebmFiles.WebmFile.WellFormed, WebmFiles.SeenInfo, Plain, WebmFiles.RunsOn;
    var file, ticks := ScaledFile(SECOND_IN_FIVE_BYTES, duration), ieee(duration).value;
    ScaledFileFields(SECOND_IN_FIVE_BYTES, duration);
    LastOfTwo(Field(Webm.TIMECODE_SCALE, SECOND_IN_FIVE_BYTES), Field(Webm.DURATION, duration));
    SecondInFiveBytes();
    DurationIsReadExactly(Plain(file.info), None);
    assert Webm.ScaledSeconds(ticks, 1_000_000_000) == ticks;
    Milliseconds(ticks);
    if ticks > 300.0 {
      WebmAcceptsTooLongExactly(file, ieee);
    }
  }

  lemma SecondInFiveBytes()
    ensures DecodeBE(SECOND_IN_FIVE_BYTES) == 1_000_000_000
  {
    Vints.DecodeOne(0);
    DecodeSnoc([0], 0x3b);
    DecodeSnoc([0, 0x3b], 0x9a);
    DecodeSnoc([0, 0x3b, 0x9a], 0xca);
    DecodeSnoc([0, 0x3b, 0x9a, 0xca], 0);
    assert [0] + [0x3b] == [0, 0x3b] && [0, 0x3b] + [0x9a] == [0, 0x3b, 0x9a];
    assert [0, 0x3b, 0x9a] + [0xca] == [0, 0x3b, 0x9a, 0xca];
    assert [0, 0x3b, 0x9a, 0xca] + [0] == SECOND_IN_FIVE_BYTES;
  }

  /** Info, with its size told in eight bytes, says a Duration; another Duration stands behind it. */
  function WideFile(inside: seq<byte>, behind: seq<byte>): WebmFiles.WebmFile {
    SmallFile(Told(8), [Short(Webm.DURATION, inside)], Short(Webm.DURATION, behind).Written())
  }

  /** What such a file declares is the Duration in Info, but the one behind it decides; there is no scale at all. */
  lemma WideInfoIsOverruled(inside: seq<byte>, behind: seq<byte>, ieee: seq<byte> -> Webm.Float)
    requires (|inside| == 4 || |inside| == 8) && ieee(inside).Finite? && ieee(inside).value > 0.0
    requires (|behind| == 4 || |behind| == 8) && ieee(behind).Finite? && ieee(behind).value > 0.0
    ensures var file := WideFile(inside, behind);
            && WebmFiles.DeclaredSeconds(file, ieee) == Some(ieee(inside).value / 1000.0)
            && OverlookedScale(Plain(file.info)).None?
            && (Decide(Some(file.Bytes()), ieee) == Accept(VideoFormat.Webm) <==> ieee(behind).value <= 300_000.0)
  {
    hide IsRecognised, Decide, WebmFiles.WebmFile.Bytes, WebmFiles.WebmFile.WellFormed, WebmFiles.SeenInfo,
      Plain, WebmFiles.RunsOn, LastScale, LastDuration, DeclaredScale, DeclaredDuration, OverlookedScale,
      Webm.ScaledSeconds;
    var file := WideFile(inside, behind);
    DurationIsReadExactly([Field(Webm.DURATION, inside)], None);
    WideFileFields(inside, behind);
    OnlyDurations(inside, behind);
    Milliseconds(ieee(inside).value);
    Milliseconds(ieee(behind).value);
    WebmGate(file, ieee);
  }

  lemma Milliseconds(ticks: real)
    ensures Webm.ScaledSeconds(ticks, Webm.DEFAULT_SCALE) == ticks / 1000.0
    ensures Webm.ScaledSeconds(ticks, Webm.DEFAULT_SCALE) > 300.0 <==> ticks > 300_000.0
  {
  }

  lemma WideFileFields(inside: seq<byte>, behind: seq<byte>)
    requires (|inside| == 4 || |inside| == 8) && (|behind| == 4 || |behind| == 8)
    ensures var file := WideFile(inside, behind);
            && file.WellFormed() && |file.Bytes()| <= 100 && IsRecognised(file)
            && Plain(file.info) == [Field(Webm.DURATION, inside)]
            && WebmFiles.SeenInfo(file) ==
               Some([Field(Webm.DURATION, inside), Field(Webm.DURATION, behind)])
  {
    hide WrittenAll, WebmFiles.WebmFile.WellFormed, WebmFiles.WebmFile.Bytes, Element.WellFormed,
      Element.Written, WebmFiles.ReachesInfo, IsRecognised, WebmFiles.FieldsOfInfo;
    var file := WideFile(inside, behind);
    var first, second := Short(Webm.DURATION, inside), Short(Webm.DURATION, behind);
    InfoIds();
    ShortWritten(Webm.DURATION, inside);
    ShortWritten(Webm.DURATION, behind);
    WrittenTwo(first, first);
    WrittenTwo(first, second);
    SmallFileIsWellFormed(Told(8), file.info, second.Written());
    SmallFileIsRecognised(Told(8), file.info, second.Written());
    assert second.Written() + [] == WrittenAll([second]);
    WebmFiles.WideInfoTakesIn(file, [second]);
    assert [first] + [second] == [first, second];
    PlainTwo(first, second);
  }

  lemma OnlyDurations(x: seq<byte>, y: seq<byte>)
    requires (|x| == 4 || |x| == 8) && (|y| == 4 || |y| == 8)
    ensures var a, b := Field(Webm.DURATION, x), Field(Webm.DURATION, y);
            && LastDuration([a], None) == Some(x) && LastDuration([a, b], None) == Some(y)
            && DeclaredScale([a], Webm.DEFAULT_SCALE) == Webm.DEFAULT_SCALE
            && LastScale([a, b], Webm.DEFAULT_SCALE) == Webm.DEFAULT_SCALE
            && OverlookedScale([a]).None?
  {
    var a, b := Field(Webm.DURATION, x), Field(Webm.DURATION, y);
    assert [a, b][..1] == [a] && [a][..0] == [];
    assert |Webm.TIMECODE_SCALE| != |Webm.DURATION|;
    assert LastScale([a], Webm.DEFAULT_SCALE) == Webm.DEFAULT_SCALE;
  }
}
