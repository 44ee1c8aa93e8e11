/**
 The upload decision for videos: which files are stored, and what every refused file is told.

 The duration gate is stated on the fields written in the file, for all three containers.
 */
module VideoUpload {
  import opened Bytes
  import opened Options
  import IsoBmff
  import Webm
  import WebmElements
  import WebmFiles
  import Avi

  const FTYP: seq<byte> := [0x66, 0x74, 0x79, 0x70]
  const QUICKTIME: seq<byte> := [0x71, 0x74, 0x20, 0x20]

  const MAX_SIZE_BYTES: nat := 50 * 1024 * 1024
  const MAX_SECONDS: nat := 300

  lemma NamesAreSpelled()
    ensures Spells(FTYP, "ftyp") && Spells(QUICKTIME, "qt  ")
  {
  }

  datatype VideoFormat = Mp4 | Mov | Webm | Avi

  /** The ISO container is told by its `ftyp` box alone, before the other signatures are looked at. */
  predicate LooksIso(b: seq<byte>) {
    |b| >= 12 && b[4..8] == FTYP
  }

  function FormatOf(b: seq<byte>): (r: Option<VideoFormat>)
  {
    if LooksIso(b) then Some(if b[8..12] == QUICKTIME then Mov else Mp4)
    else if Webm.IsWebm(b) then Some(Webm)
    else if Avi.IsAvi(b) then Some(Avi)
    else None
  }

  method DetectVideoFormat(b: seq<byte>) returns (r: Option<VideoFormat>)
    ensures r == FormatOf(b)
    ensures |b| >= 12 && b[4..8] == [0x66, 0x74, 0x79, 0x70] ==>
              r == Some(if b[8..12] == [0x71, 0x74, 0x20, 0x20] then Mov else Mp4)
    ensures |b| < 12 || b[4..8] != [0x66, 0x74, 0x79, 0x70] ==>
              r == if Webm.IsWebm(b) then Some(Webm) else if Avi.IsAvi(b) then Some(Avi) else None
  {
    if |b| >= 12 && b[4..8] == FTYP {
      return Some(if b[8..12] == QUICKTIME then Mov else Mp4);
    }
    var webm := Webm.DetectWebm(b);
    if webm {
      return Some(Webm);
    }
    return if Avi.IsAvi(b) then Some(Avi) else None;
  }

  ghost function DurationOf(b: seq<byte>, format: VideoFormat, ieee: seq<byte> -> Webm.Float): Option<real> {
    match format
    case Mp4 => IsoBmff.Duration(b)
    case Mov => IsoBmff.Duration(b)
    case Webm => Webm.Duration(b, ieee)
    case Avi => Avi.Duration(b)
  }

  method ReadVideoDuration(b: seq<byte>, format: VideoFormat, ieee: seq<byte> -> Webm.Float)
    returns (r: Option<real>)
    ensures r == DurationOf(b, format, ieee)
  {
    match format
    case Mp4 => r := IsoBmff.ReadIsoBmffDuration(b);
    case Mov => r := IsoBmff.ReadIsoBmffDuration(b);
    case Webm => r := Webm.ReadWebmDuration(b, ieee);
    case Avi => r := Avi.ReadAviDuration(b);
  }

  datatype UploadError =
    FileRequired | FileSizeExceeded | FileTypeInvalid | DurationInvalid | DurationExceeded | UploadFailed

  datatype Decision = Accept(format: VideoFormat) | Refuse(error: UploadError)

  /** What a video upload is told before anything is stored. */
  ghost function Decide(file: Option<seq<byte>>, ieee: seq<byte> -> Webm.Float): Decision {
    if file.None? || file.value == [] then Refuse(FileRequired)
    else if |file.value| > MAX_SIZE_BYTES then Refuse(FileSizeExceeded)
    else
      var format := FormatOf(file.value);
      if format.None? then Refuse(FileTypeInvalid) else
      var seconds := DurationOf(file.value, format.value, ieee);
      if seconds.None? then Refuse(DurationInvalid)
      else if seconds.value > MAX_SECONDS as real then Refuse(DurationExceeded)
      else Accept(format.value)
  }

  datatype Attachment = Attachment(format: VideoFormat, data: seq<byte>, sender: nat)

  datatype Upload = Stored(id: nat) | Failed(error: UploadError)

  /** The service and the attachment rows it inserts; a row's id is its position. */
  class FilesService {
    var attachments: seq<Attachment>

    constructor ()
      ensures attachments == []
    {
      attachments := [];
    }

    /** `insertFails` is the database's answer. A row is added exactly for an accepted file. */
    method UploadVideo(file: Option<seq<byte>>, sender: nat, ieee: seq<byte> -> Webm.Float, insertFails: bool)
      returns (r: Upload)
      modifies this
      ensures var decision := Decide(file, ieee);
              if decision.Accept? && !insertFails then
                r == Stored(|old(attachments)|) &&
                attachments == old(attachments) + [Attachment(decision.format, file.value, sender)]
              else
                r == Failed(if decision.Refuse? then decision.error else UploadFailed) &&
                attachments == old(attachments)
      ensures r.Stored? ==> file.Some? && |attachments| == r.id + 1 && attachments[r.id].data == file.value
                            && attachments[r.id].sender == sender && attachments[..r.id] == old(attachments)
      ensures r.Failed? ==>
                r.error ==
                  if file.None? || file.value == [] then FileRequired
                  else if |file.value| > 52_428_800 then FileSizeExceeded
                  else if FormatOf(file.value).None? then FileTypeInvalid
                  else if DurationOf(file.value, FormatOf(file.value).value, ieee).None? then DurationInvalid
                  else if DurationOf(file.value, FormatOf(file.value).value, ieee).value > 300.0 then DurationExceeded
                  else UploadFailed
      ensures r == Failed(UploadFailed) ==> insertFails
    {
      if file.None? || |file.value| == 0 {
        return Failed(FileRequired);
      }
      if |file.value| > MAX_SIZE_BYTES {
        return Failed(FileSizeExceeded);
      }
      var format := DetectVideoFormat(file.value);
      if format.None? {
        return Failed(FileTypeInvalid);
      }
      var seconds := ReadVideoDuration(file.value, format.value, ieee);
      if seconds.None? {
        return Failed(DurationInvalid);
      }
      if seconds.value > MAX_SECONDS as real {
        return Failed(DurationExceeded);
      }
      if insertFails {
        return Failed(UploadFailed);
      }
      attachments := attachments + [Attachment(format.value, file.value, sender)];
      return Stored(|attachments| - 1);
    }
  }

  // ------------------------------------------------------------------ the gate on written files

  /** The decision on a file whose format is recognised, by its size and its duration. */
  ghost function Gate(format: VideoFormat, size: nat, known: bool, tooLong: bool): Decision {
    if size > 52_428_800 then Refuse(FileSizeExceeded)
    else if !known then Refuse(DurationInvalid)
    else if tooLong then Refuse(DurationExceeded)
    else Accept(format)
  }

  lemma QuotientExceeds(duration: nat, timescale: nat, seconds: nat)
    requires timescale > 0
    ensures duration as real / timescale as real > seconds as real <==> duration > seconds * timescale
  {
    var q, t := duration as real / timescale as real, timescale as real;
    assert q * t == duration as real;
    if q > seconds as real {
      assert q * t > seconds as real * t;
    } else {
      assert q * t <= seconds as real * t;
    }
    assert seconds as real * t == (seconds * timescale) as real;
  }

  lemma StartsWithBrand(brand: seq<byte>, tail: IsoBmff.Forest)
    requires |brand| >= 4
    ensures var b := IsoBmff.Serialize(IsoBmff.Boxes(IsoBmff.Leaf(IsoBmff.Compact, FTYP, brand), tail));
            LooksIso(b) && b[8..12] == brand[..4]
  {
    hide EncodeBE;
    var box := IsoBmff.Leaf(IsoBmff.Compact, FTYP, brand);
    var size := EncodeBE(8 + |brand|, 4);
    assert IsoBmff.Payload(box) == brand;
    assert IsoBmff.Header(IsoBmff.Compact, FTYP, |brand|) == size + FTYP;
    var b := IsoBmff.Serialize(IsoBmff.Boxes(box, tail));
    assert b == size + FTYP + brand + IsoBmff.Serialize(tail);
  }

  /** A forest whose first box is `ftyp`, in whichever size form, is taken for ISO. */
  lemma FtypComesFirst(forest: IsoBmff.Forest)
    requires forest.Boxes? && IsoBmff.Kind(forest.head) == FTYP && |IsoBmff.Serialize(forest)| >= 12
    ensures LooksIso(IsoBmff.Serialize(forest))
  {
    hide EncodeBE;
    var box, b := forest.head, IsoBmff.Serialize(forest);
    var header := IsoBmff.Header(box.form, FTYP, |IsoBmff.Payload(box)|);
    assert b == header + (IsoBmff.Payload(box) + IsoBmff.Serialize(forest.tail));
    assert header[4..8] == FTYP && b[4..8] == header[4..8];
  }

  /**
   A written file that is taken for ISO passes exactly when the time behind the head of its first
   `mvhd` is usable and its duration is at most 300 times its timescale.
   */
  lemma IsoGate(forest: IsoBmff.Forest, ieee: seq<byte> -> Webm.Float)
    requires IsoBmff.WellFormed(forest, true) && LooksIso(IsoBmff.Serialize(forest))
    ensures var b := IsoBmff.Serialize(forest);
            var time := IsoBmff.FirstTime(forest);
            Decide(Some(b), ieee) ==
            Gate(if b[8..12] == QUICKTIME then Mov else Mp4, |b|, time.Some?,
                 time.Some? && time.value.duration > 300 * time.value.timescale)
    ensures var found := IsoBmff.MvhdBoxes(forest, 0, 10_001);
            found != [] && IsoBmff.TellsItsOwn(found[0].payload) ==>
              IsoBmff.FirstTime(forest) == IsoBmff.OwnTime(found[0].payload)
    ensures IsoBmff.FirstTime(forest).Some? ==> IsoBmff.FirstTime(forest).value.timescale != 0
  {
    hide IsoBmff.Duration, IsoBmff.MvhdBoxes, IsoBmff.WellFormed, IsoBmff.Serialize, IsoBmff.OwnTime;
    IsoBmff.AnyFileDuration(forest);
    var time := IsoBmff.FirstTime(forest);
    if time.Some? {
      QuotientExceeds(time.value.duration, time.value.timescale, 300);
    }
  }

  /**
   An ISO file that starts with its `ftyp` box passes exactly when the first `mvhd` of its box tree
   has a non-zero timescale, a duration that is neither zero nor all ones, and at most 300 seconds.
   */
  lemma IsoHeaderGate(brand: seq<byte>, tail: IsoBmff.Forest, header: IsoBmff.MovieHeader,
                      ieee: seq<byte> -> Webm.Float)
    requires |brand| >= 4 && header.WellFormed()
    requires var forest := IsoBmff.Boxes(IsoBmff.Leaf(IsoBmff.Compact, FTYP, brand), tail);
             && IsoBmff.WellFormed(forest, true)
             && var found := IsoBmff.MvhdBoxes(forest, 0, 10_001);
                found != [] ==> found[0].payload == header.Bytes()
    ensures var forest := IsoBmff.Boxes(IsoBmff.Leaf(IsoBmff.Compact, FTYP, brand), tail);
            var b := IsoBmff.Serialize(forest);
            var found := IsoBmff.MvhdBoxes(forest, 0, 10_001);
            Decide(Some(b), ieee) ==
            Gate(if brand[..4] == QUICKTIME then Mov else Mp4, |b|,
                 found != [] && header.time.Usable(header.AllOnes()),
                 header.time.duration > 300 * header.time.timescale)
  {
    hide IsoBmff.Duration, IsoBmff.MvhdBoxes, IsoBmff.WellFormed, IsoBmff.Serialize;
    var forest := IsoBmff.Boxes(IsoBmff.Leaf(IsoBmff.Compact, FTYP, brand), tail);
    StartsWithBrand(brand, tail);
    IsoBmff.WrittenFileDuration(forest, header);
    if header.time.timescale > 0 {
      QuotientExceeds(header.time.duration, header.time.timescale, 300);
    }
  }

  /**
   An ISO file that declares more than 300 seconds is accepted exactly when another `mvhd` is read in
   place of the declared one, and tells less.
   */
  lemma IsoAcceptsTooLongExactly(forest: IsoBmff.Forest, ieee: seq<byte> -> Webm.Float)
    requires IsoBmff.WellFormed(forest, true)
    ensures var b, declared := IsoBmff.Serialize(forest), IsoBmff.DeclaredTime(forest);
            declared.Some? && declared.value.duration > 300 * declared.value.timescale ==>
              (Decide(Some(b), ieee) == Accept(Mp4) || Decide(Some(b), ieee) == Accept(Mov) <==>
               && LooksIso(b) && |b| <= 52_428_800
               && !IsoBmff.ReadsDeclared(forest, 10_001)
               && var read := IsoBmff.FirstTime(forest);
                  read.Some? && read.value.duration <= 300 * read.value.timescale)
  {
    hide LooksIso, DurationOf, IsoBmff.Serialize, IsoBmff.WellFormed, IsoBmff.FirstTime, IsoBmff.DeclaredTime,
      IsoBmff.ReadsDeclared, IsoBmff.MvhdBoxes;
    IsoBmff.DeclaredTimeIsRead(forest);
    if LooksIso(IsoBmff.Serialize(forest)) {
      IsoGate(forest, ieee);
    }
  }

  /** The file is taken for WebM: not for ISO by its fifth to eighth byte, and the first DocType says so. */
  ghost predicate IsRecognised(file: WebmFiles.WebmFile) {
    !LooksIso(file.Bytes()) && WebmFiles.SaysWebm(file)
  }

  /** Seconds told by the last usable fields of what the reader sees as Info. */
  function ReadSeconds(file: WebmFiles.WebmFile, ieee: seq<byte> -> Webm.Float): Option<real> {
    var seen := WebmFiles.SeenInfo(file);
    if seen.None? then None else Webm.InfoSeconds(WebmFiles.FieldsRead(seen.value), ieee)
  }

  /** A written WebM file passes exactly when the walks reach an Info that is seen to tell at most 300 seconds. */
  lemma WebmGate(file: WebmFiles.WebmFile, ieee: seq<byte> -> Webm.Float)
    requires file.WellFormed()
    ensures FormatOf(file.Bytes()) == Some(Webm) <==> IsRecognised(file)
    ensures var seconds := ReadSeconds(file, ieee);
            IsRecognised(file) ==>
              Decide(Some(file.Bytes()), ieee) ==
              Gate(Webm, |file.Bytes()|, seconds.Some?, seconds.Some? && seconds.value > 300.0)
  {
    hide LooksIso, Webm.IsWebm, Webm.Duration, Webm.InfoSeconds, WebmFiles.SaysWebm, WebmFiles.SeenInfo,
      WebmFiles.WebmFile.Bytes, WebmFiles.WebmFile.WellFormed;
    WebmFiles.WrittenFileIsWebm(file);
    WebmFiles.WrittenFileDuration(file, ieee);
    WebmFiles.ReadsFileHeader(file);
  }

  /**
   A file whose Info declares more than 300 seconds is accepted exactly when the walks get to Info and
   what they see there tells less. When Info ends where it says, that takes a last TimecodeScale of a
   size the reader overlooks; when Info runs on to the end of the file, the last fields there decide.
   */
  lemma WebmAcceptsTooLongExactly(file: WebmFiles.WebmFile, ieee: seq<byte> -> Webm.Float)
    requires file.WellFormed()
    ensures var declared := WebmFiles.DeclaredSeconds(file, ieee);
            declared.Some? && declared.value > 300.0 ==>
              (Decide(Some(file.Bytes()), ieee) == Accept(Webm) <==>
               && IsRecognised(file) && |file.Bytes()| <= 52_428_800 && WebmFiles.SeenInfo(file).Some?
               && var read := WebmFiles.FieldsRead(WebmFiles.SeenInfo(file).value);
                  && (WebmFiles.RunsOn(file) || WebmElements.OverlookedScale(WebmElements.Plain(file.info)).Some?)
                  && WebmFiles.Tells(read, ieee)
                  && Webm.ScaledSeconds(ieee(read.duration.value).value, read.scale) <= 300.0)
    ensures WebmFiles.SeenInfo(file).Some? && !WebmFiles.RunsOn(file) ==>
              WebmFiles.SeenInfo(file).value == WebmElements.Plain(file.info)
  {
    hide IsRecognised, WebmElements.LastScale, WebmElements.LastDuration, WebmElements.DeclaredScale,
      WebmElements.DeclaredDuration, WebmElements.Plain, WebmElements.OverlookedScale, WebmFiles.FieldsOfInfo,
      WebmFiles.ReachesInfo, WebmFiles.RunsOn, Webm.ScaledSeconds, FormatOf, DurationOf, WebmFiles.WebmFile.Bytes,
      WebmFiles.WebmFile.WellFormed;
    WebmGate(file, ieee);
    if !WebmFiles.RunsOn(file) {
      WebmFiles.NarrowInfoIsPlain(file);
      WebmElements.ScaleIsReadExactly(WebmElements.Plain(file.info), Webm.DEFAULT_SCALE);
      WebmElements.DurationIsReadExactly(WebmElements.Plain(file.info), None);
    }
  }

  /** A written AVI file passes exactly when its first usable `avih` tells at most 300 seconds. */
  lemma AviGate(riffSize: seq<byte>, chunks: seq<Avi.TopChunk>, tail: seq<byte>, ieee: seq<byte> -> Webm.Float)
    requires |riffSize| == 4 && riffSize != FTYP && |tail| < 8
    requires forall c :: c in chunks ==> c.WellFormed()
    ensures var b := Avi.RIFF + riffSize + Avi.AVI + Avi.TopWritten(chunks) + tail;
            var usable := Avi.StreamUsable(chunks, 10_001);
            Decide(Some(b), ieee) ==
            Gate(Avi, |b|, usable != [],
                 usable != [] && usable[0].period * usable[0].count > 300 * 1_000_000)
  {
    hide Avi.Duration, Avi.TopWritten, Avi.StreamUsable;
    var b := Avi.RIFF + riffSize + Avi.AVI + Avi.TopWritten(chunks) + tail;
    var usable := Avi.StreamUsable(chunks, 10_001);
    assert b[4..8] == riffSize;
    assert b[0] == Avi.RIFF[0];
    Avi.WrittenFileDuration(riffSize, chunks, tail);
    if usable != [] {
      QuotientExceeds(usable[0].period * usable[0].count, 1_000_000, 300);
    }
  }

  /**
   An AVI file that declares more than 300 seconds is accepted exactly when another `avih` than the
   declared one is read, and tells less.
   */
  lemma AviAcceptsTooLongExactly(riffSize: seq<byte>, chunks: seq<Avi.TopChunk>, tail: seq<byte>,
                                 ieee: seq<byte> -> Webm.Float)
    requires |riffSize| == 4 && riffSize != FTYP && |tail| < 8
    requires forall c :: c in chunks ==> c.WellFormed()
    ensures var b := Avi.RIFF + riffSize + Avi.AVI + Avi.TopWritten(chunks) + tail;
            var declared, usable := Avi.DeclaredUsable(chunks), Avi.StreamUsable(chunks, 10_001);
            declared != [] && declared[0].period * declared[0].count > 300 * 1_000_000 ==>
              (Decide(Some(b), ieee) == Accept(Avi) <==>
               && |b| <= 52_428_800 && !Avi.ReadsDeclared(chunks, 10_001)
               && usable != [] && usable[0].period * usable[0].count <= 300 * 1_000_000)
  {
    hide Decide, Avi.TopWritten, Avi.StreamUsable, Avi.DeclaredUsable, Avi.ReadsDeclared;
    AviGate(riffSize, chunks, tail, ieee);
    if Avi.ReadsDeclared(chunks, 10_001) {
      Avi.WalkSpotHolds(chunks, 0, 10_001);
      Avi.DeclaredSpotHolds(chunks, 0);
      Avi.DeclaredIsReadExactly(chunks, 0, 10_001);
    }
  }

  /**
   Whatever the bytes, an accepted file has a duration of at most 300 seconds, and that duration is
   positive unless it was read from a WebM file whose TimecodeScale is zero.
   */
  lemma AcceptedDuration(b: seq<byte>, ieee: seq<byte> -> Webm.Float)
    requires Decide(Some(b), ieee).Accept?
    ensures var format := Decide(Some(b), ieee).format;
            var seconds := DurationOf(b, format, ieee).value;
            && 0.0 <= seconds <= 300.0
            && (seconds == 0.0 <==> format == Webm && Webm.FileInfo(b).value.scale == 0)
  {
    hide FormatOf, Webm.Duration, Webm.FileInfo, Avi.Duration, IsoBmff.Duration;
    match Decide(Some(b), ieee).format {
      case Mp4 => IsoBmff.DurationIsPositive(b);
      case Mov => IsoBmff.DurationIsPositive(b);
      case Webm => Webm.DurationSign(b, ieee); assert DurationOf(b, Webm, ieee) == Webm.Duration(b, ieee);
      case Avi => Avi.DurationIsPositive(b);
    }
  }
}
