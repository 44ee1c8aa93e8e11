/**
 JPEG: the walk over marker segments (ITU-T T.81, Annex B) that looks for the frame header.

 Walking written segments skips each of them whole, so that payload bytes are never taken for
 markers, and returns the size in the first frame header, or nothing when the scan comes first.
 */
module Jpeg {
  import opened Bytes
  import opened Options

  datatype Size = Size(width: nat, height: nat)

  /** SOF0 to SOF15 without the table and extension markers among them. */
  predicate IsFrameMarker(marker: byte) {
    0xc0 <= marker <= 0xcf && marker != 0xc4 && marker != 0xc8 && marker != 0xcc
  }

  /** Restart markers, start and end of image: no length follows. */
  predicate IsStandalone(marker: byte) {
    0xd0 <= marker <= 0xd9
  }

  const START_OF_SCAN: byte := 0xda

  /** The walk from `offset`; it looks only at offsets with at least ten bytes left. */
  function Walk(b: seq<byte>, offset: nat): (r: Option<Size>)
    ensures r.Some? ==> r.value.width > 0 && r.value.height > 0
    decreases |b| - offset
  {
    if offset + 9 >= |b| then None
    else if b[offset] != 0xff then Walk(b, offset + 1)
    else
      var marker := b[offset + 1];
      if IsStandalone(marker) then Walk(b, offset + 2)
      else if marker == START_OF_SCAN then None
      else
        var length := DecodeBE(b[offset + 2..offset + 4]);
        if IsFrameMarker(marker) then
          var height := DecodeBE(b[offset + 5..offset + 7]);
          var width := DecodeBE(b[offset + 7..offset + 9]);
          if width == 0 || height == 0 then None else Some(Size(width, height))
        else if length < 2 then None
        else Walk(b, offset + 2 + length)
  }

  function Inspect(b: seq<byte>): Option<Size> {
    if |b| < 4 || b[0] != 0xff || b[1] != 0xd8 || b[2] != 0xff then None else Walk(b, 2)
  }

  method InspectJpeg(b: seq<byte>) returns (r: Option<Size>)
    ensures r == Inspect(b)
  {
    hide DecodeBE;
    if |b| < 4 || b[0] != 0xff || b[1] != 0xd8 || b[2] != 0xff {
      return None;
    }
    var offset := 2;
    while offset + 9 < |b|
      invariant Walk(b, offset) == Walk(b, 2)
      decreases |b| - offset
    {
      if b[offset] != 0xff {
        offset := offset + 1;
        continue;
      }
      var marker := b[offset + 1];
      if marker == 0xd8 || marker == 0xd9 {
        offset := offset + 2;
        continue;
      }
      if 0xd0 <= marker && marker <= 0xd7 {
        offset := offset + 2;
        continue;
      }
      if marker == 0xda {
        break;
      }
      var length := DecodeBE(b[offset + 2..offset + 4]);
      var isStartOfFrame := 0xc0 <= marker && marker <= 0xcf && marker != 0xc4 && marker != 0xc8 && marker != 0xcc;
      if isStartOfFrame {
        var height := DecodeBE(b[offset + 5..offset + 7]);
        var width := DecodeBE(b[offset + 7..offset + 9]);
        if width == 0 || height == 0 {
          return None;
        }
        return Some(Size(width, height));
      }
      if length < 2 {
        break;
      }
      offset := offset + 2 + length;
    }
    return None;
  }

  // ------------------------------------------------------------------ the markers of the standard

  /** SOF0 to SOF3, SOF5 to SOF7, SOF9 to SOF11 and SOF13 to SOF15 (ITU-T T.81, Table B.1). */
  const FRAME_HEADERS: set<byte> :=
    {0xc0, 0xc1, 0xc2, 0xc3, 0xc5, 0xc6, 0xc7, 0xc9, 0xca, 0xcb, 0xcd, 0xce, 0xcf}

  /** RST0 to RST7, SOI and EOI: nothing follows them. */
  const BARE: set<byte> := {0xd0, 0xd1, 0xd2, 0xd3, 0xd4, 0xd5, 0xd6, 0xd7, 0xd8, 0xd9}

  /** DHT, JPG and DAC among the frame headers, DQT and all behind it, and the reserved ones below SOF0. */
  predicate StartsSegment(marker: byte) {
    marker < 0xc0 || marker == 0xc4 || marker == 0xc8 || marker == 0xcc || marker >= 0xdb
  }

  /** Every marker but the start of scan is one of the three, and the walk tells them apart. */
  lemma MarkersAreToldApart(marker: byte)
    ensures IsFrameMarker(marker) <==> marker in FRAME_HEADERS
    ensures IsStandalone(marker) <==> marker in BARE
    ensures StartsSegment(marker) <==> marker !in FRAME_HEADERS && marker !in BARE && marker != 0xda
  {
  }

  /** A size that is reported is written, not zero, behind some frame header marker of the buffer. */
  ghost predicate FrameAt(b: seq<byte>, p: nat, size: Size) {
    && p + 9 < |b| && b[p] == 0xff && b[p + 1] in FRAME_HEADERS
    && DecodeBE(b[p + 5..p + 7]) == size.height > 0
    && DecodeBE(b[p + 7..p + 9]) == size.width > 0
  }

  lemma {:induction false} ReportedSizeIsAFrame(b: seq<byte>, offset: nat)
    requires Walk(b, offset).Some?
    ensures exists p :: offset <= p && FrameAt(b, p, Walk(b, offset).value)
    decreases |b| - offset
  {
    hide DecodeBE;
    var marker := b[offset + 1];
    MarkersAreToldApart(marker);
    if b[offset] != 0xff {
      ReportedSizeIsAFrame(b, offset + 1);
    } else if IsStandalone(marker) {
      ReportedSizeIsAFrame(b, offset + 2);
    } else if IsFrameMarker(marker) {
      assert FrameAt(b, offset, Walk(b, offset).value);
    } else {
      ReportedSizeIsAFrame(b, offset + 2 + DecodeBE(b[offset + 2..offset + 4]));
    }
  }

  /** On any bytes: without the start-of-image signature there is no size. */
  lemma SignatureIsChecked(b: seq<byte>)
    ensures Inspect(b).Some? ==> |b| >= 4 && b[0] == 0xff && b[1] == 0xd8 && b[2] == 0xff
  {
  }

  /** On any bytes: a segment too short for its own length field ends the walk. */
  lemma ShortLengthEnds(b: seq<byte>, offset: nat)
    requires offset + 9 < |b| && b[offset] == 0xff && StartsSegment(b[offset + 1])
    requires b[offset + 2] == 0 && b[offset + 3] < 2
    ensures Walk(b, offset) == None
  {
    hide Walk;
    MarkersAreToldApart(b[offset + 1]);
    assert b[offset + 2..offset + 4] == [0] + [b[offset + 3]];
    DecodeSnoc([0], b[offset + 3]);
    DecodeSnoc([], 0);
    assert [] + [0] == [0];
    WalkAtShort(b, offset);
  }

  lemma WalkAtShort(b: seq<byte>, offset: nat)
    requires offset + 9 < |b| && b[offset] == 0xff && DecodeBE(b[offset + 2..offset + 4]) < 2
    requires !IsStandalone(b[offset + 1]) && !IsFrameMarker(b[offset + 1])
    ensures Walk(b, offset) == None
  {
    hide DecodeBE;
  }

  // ------------------------------------------------------------------ written segments

  /** A marker without a length, or a marker, its length and a payload of any bytes. */
  datatype Segment = Standalone(marker: byte) | Sized(marker: byte, payload: seq<byte>) {
    ghost predicate WellFormed() {
      match this
      case Standalone(marker) => marker in BARE
      case Sized(marker, payload) => StartsSegment(marker) && 2 + |payload| < 0x1_0000
    }

    function Written(): seq<byte> {
      match this
      case Standalone(marker) => [0xff, marker]
      case Sized(marker, payload) => [0xff, marker] + EncodeBE(2 + |payload|, 2) + payload
    }
  }

  function WrittenAll(segments: seq<Segment>): seq<byte> {
    if segments == [] then [] else segments[0].Written() + WrittenAll(segments[1..])
  }

  /** A frame header up to its first component byte, or the start of the scan. */
  datatype Ending = Frame(marker: byte, precision: byte, size: Size, components: byte) | Scan(header: seq<byte>) {
    ghost predicate WellFormed() {
      match this
      case Frame(marker, _, size, _) => marker in FRAME_HEADERS && size.width < 0x1_0000 && size.height < 0x1_0000
      case Scan(header) => |header| >= 8
    }

    function Written(length: nat): seq<byte> {
      match this
      case Frame(marker, precision, size, components) =>
        [0xff, marker] + EncodeBE(length, 2) + [precision] + EncodeBE(size.height, 2) + EncodeBE(size.width, 2)
        + [components]
      case Scan(header) => [0xff, 0xda] + header
    }
  }

  lemma AtByte(b: seq<byte>, offset: nat, s: seq<byte>, k: nat)
    requires At(b, offset, s) && k < |s|
    ensures b[offset + k] == s[k]
  {
    assert b[offset..offset + |s|][k] == s[k];
  }

  /** A written segment is stepped over whole. */
  lemma SkipSegment(b: seq<byte>, segment: Segment, offset: nat)
    requires At(b, offset, segment.Written()) && segment.WellFormed()
    requires offset + 9 < |b|
    ensures Walk(b, offset) == Walk(b, offset + |segment.Written()|)
  {
    hide DecodeBE, EncodeBE;
    MarkersAreToldApart(segment.marker);
    AtByte(b, offset, segment.Written(), 0);
    AtByte(b, offset, segment.Written(), 1);
    if segment.Sized? {
      Widths();
      var size := EncodeBE(2 + |segment.payload|, 2);
      AtSplit(b, offset, [0xff, segment.marker] + size, segment.payload);
      AtSplit(b, offset, [0xff, segment.marker], size);
      DecodeEncodeBE(2 + |segment.payload|, 2);
    }
  }

  /** Any run of written segments is stepped over, as long as enough bytes follow it. */
  lemma {:induction false} SkipSegments(b: seq<byte>, segments: seq<Segment>, offset: nat)
    requires At(b, offset, WrittenAll(segments))
    requires forall s :: s in segments ==> s.WellFormed()
    requires offset + |WrittenAll(segments)| + 9 < |b|
    ensures Walk(b, offset) == Walk(b, offset + |WrittenAll(segments)|)
    decreases |segments|
  {
    hide Walk, At, EncodeBE, Segment.Written, Segment.WellFormed;
    if segments != [] {
      AtSplit(b, offset, segments[0].Written(), WrittenAll(segments[1..]));
      SkipSegment(b, segments[0], offset);
      SkipSegments(b, segments[1..], offset + |segments[0].Written()|);
    }
  }

  lemma ReadEnding(b: seq<byte>, ending: Ending, length: nat, offset: nat)
    requires At(b, offset, ending.Written(length)) && ending.WellFormed()
    ensures offset + 9 < |b|
    ensures Walk(b, offset) ==
            if ending.Frame? && ending.size.width > 0 && ending.size.height > 0 then Some(ending.size) else None
  {
    hide DecodeBE, EncodeBE;
    AtByte(b, offset, ending.Written(length), 0);
    AtByte(b, offset, ending.Written(length), 1);
    if ending.Frame? {
      MarkersAreToldApart(ending.marker);
      Widths();
      var start := [0xff, ending.marker] + EncodeBE(length, 2) + [ending.precision];
      var height, width := EncodeBE(ending.size.height, 2), EncodeBE(ending.size.width, 2);
      AtSplit(b, offset, start + height + width, [ending.components]);
      AtSplit(b, offset, start + height, width);
      AtSplit(b, offset, start, height);
      DecodeEncodeBE(ending.size.height, 2);
      DecodeEncodeBE(ending.size.width, 2);
    }
  }

  lemma StartsWithMarker(segments: seq<Segment>, ending: Ending, length: nat)
    ensures ending.Written(length) != [] && (WrittenAll(segments) + ending.Written(length))[0] == 0xff
  {
    hide EncodeBE;
    if segments != [] {
      assert WrittenAll(segments)[0] == segments[0].Written()[0];
    }
  }

  /** The size of a written image is the one in its frame header, whatever its segments carry. */
  lemma WrittenImageSize(segments: seq<Segment>, ending: Ending, length: nat, rest: seq<byte>)
    requires forall s :: s in segments ==> s.WellFormed()
    requires ending.WellFormed()
    ensures Inspect([0xff, 0xd8] + (WrittenAll(segments) + (ending.Written(length) + rest))) ==
            if ending.Frame? && ending.size.width > 0 && ending.size.height > 0 then Some(ending.size) else None
  {
    hide Walk, WrittenAll, Ending.Written, Ending.WellFormed, Segment.WellFormed;
    var w, e := WrittenAll(segments), ending.Written(length);
    var b := [0xff, 0xd8] + (w + (e + rest));
    AtSplit(b, 0, [0xff, 0xd8], w + (e + rest));
    AtSplit(b, 2, w, e + rest);
    AtSplit(b, 2 + |w|, e, rest);
    ReadEnding(b, ending, length, 2 + |w|);
    SkipSegments(b, segments, 2);
    StartsWithMarker(segments, ending, length);
    assert b[2] == (w + e)[0];
  }
}
