/**
 WebM: the element reader, and the walk from the EBML header through Segment and Info to Duration
 and TimecodeScale (RFC 8794 for the framing, RFC 9559, section 5.1.2, for Info).

 IEEE 754 decoding of the Duration payload is a parameter of the statements: any function from the
 payload bytes to a finite number or to none.
 */
module Webm {
  import opened Bytes
  import opened Common
  import opened Options
  import opened Vints

  const EBML: seq<byte> := [0x1a, 0x45, 0xdf, 0xa3]
  const DOC_TYPE: seq<byte> := [0x42, 0x82]
  const SEGMENT: seq<byte> := [0x18, 0x53, 0x80, 0x67]
  const INFO: seq<byte> := [0x15, 0x49, 0xa9, 0x66]
  const TIMECODE_SCALE: seq<byte> := [0x2a, 0xd7, 0xb1]
  const DURATION: seq<byte> := [0x44, 0x89]
  const WEBM: seq<byte> := [0x77, 0x65, 0x62, 0x6d]

  const DEFAULT_SCALE: nat := 1_000_000

  /** The identifiers as numbers (RFC 8794, section 11.2; RFC 9559, section 5.1), and the document type. */
  lemma HeaderIds()
    ensures EBML == EncodeBE(0x1A45DFA3, 4) && DOC_TYPE == EncodeBE(0x4282, 2) && Spells(WEBM, "webm")
  {
  }

  lemma SegmentIds()
    ensures SEGMENT == EncodeBE(0x18538067, 4) && INFO == EncodeBE(0x1549A966, 4)
  {
  }

  lemma InfoIds()
    ensures TIMECODE_SCALE == EncodeBE(0x2AD7B1, 3) && DURATION == EncodeBE(0x4489, 2)
  {
  }

  /** Elements of one level that are passed over before a walk gives up. */
  const MAX_SKIPPED: nat := 1000

  // ------------------------------------------------------------------ reading one element

  datatype EbmlElement = EbmlElement(id: seq<byte>, dataStart: nat, dataLength: nat, next: nat)

  /** The element at `offset`; one of unknown size reaches to the end of the buffer. */
  function ElementAt(b: seq<byte>, offset: nat): (r: Option<EbmlElement>)
    ensures r.Some? ==> offset + 2 <= r.value.dataStart <= r.value.next && r.value.dataStart <= |b|
    ensures r.Some? ==> r.value.next == r.value.dataStart + r.value.dataLength
  {
    if offset >= |b| || b[offset] == 0 then None else
    var idLength := LeadingZeros(b[offset]) + 1;
    if offset + idLength > |b| then None else
    var size := VintAt(b, offset + idLength);
    if size.None? then None else
    var dataStart := offset + idLength + size.value.length;
    var dataLength := if IsUnknownSize(size.value) then |b| - dataStart else size.value.value;
    Some(EbmlElement(b[offset..offset + idLength], dataStart, dataLength, dataStart + dataLength))
  }

  method ReadEbmlElement(b: seq<byte>, offset: nat) returns (r: Option<EbmlElement>)
    ensures r == ElementAt(b, offset)
  {
    if offset >= |b| {
      return None;
    }
    var first := b[offset];
    if first == 0 {
      return None;
    }
    var idLength := LeadingZeroBits(first);
    idLength := idLength + 1;
    if offset + idLength > |b| {
      return None;
    }
    var id := b[offset..offset + idLength];
    var size := ReadVintSize(b, offset + idLength);
    if size.None? {
      return None;
    }
    var dataStart := offset + idLength + size.value.length;
    var dataLength := if IsUnknownSize(size.value) then |b| - dataStart else size.value.value;
    return Some(EbmlElement(id, dataStart, dataLength, dataStart + dataLength));
  }

  // ------------------------------------------------------------------ the walks

  /** The first element with this id in `[offset, end)`, when `skipped` others lie behind. */
  function Seek(b: seq<byte>, offset: nat, end: nat, id: seq<byte>, skipped: nat): (r: Option<EbmlElement>)
    ensures r.Some? ==> offset + 2 <= r.value.dataStart <= r.value.next && r.value.dataStart <= |b|
    ensures r.Some? ==> r.value.next == r.value.dataStart + r.value.dataLength && r.value.id == id
    decreases if offset < end then end - offset else 0
  {
    if offset + 2 > end || offset + 2 > |b| then None else
    var element := ElementAt(b, offset);
    if element.None? then None
    else if element.value.id == id then element
    else if skipped + 1 > MAX_SKIPPED then None
    else Seek(b, element.value.next, end, id, skipped + 1)
  }

  /** What Info has said so far: ticks in nanoseconds, and the bytes of the last usable Duration. */
  datatype InfoFields = InfoFields(scale: nat, duration: Option<seq<byte>>)

  predicate IsScale(id: seq<byte>, size: nat) {
    id == TIMECODE_SCALE && (1 <= size <= 4 || size == 8)
  }

  predicate IsDuration(id: seq<byte>, size: nat) {
    id == DURATION && (size == 4 || size == 8)
  }

  function Note(fields: InfoFields, id: seq<byte>, payload: seq<byte>): InfoFields {
    if IsScale(id, |payload|) then fields.(scale := DecodeBE(payload))
    else if IsDuration(id, |payload|) then fields.(duration := Some(payload))
    else fields
  }

  function InfoWalk(b: seq<byte>, offset: nat, end: nat, skipped: nat, fields: InfoFields): Option<InfoFields>
    decreases if offset < end then end - offset else 0
  {
    if offset + 2 > end || offset + 2 > |b| then Some(fields) else
    var element := ElementAt(b, offset);
    if element.None? || element.value.next > |b| then None else
    var noted := Note(fields, element.value.id, b[element.value.dataStart..element.value.next]);
    if skipped + 1 > MAX_SKIPPED then None
    else InfoWalk(b, element.value.next, end, skipped + 1, noted)
  }

  /** A decoded IEEE 754 number: finite, or an infinity or NaN. */
  datatype Float = Finite(value: real) | NotFinite

  /** Ticks of `scale` nanoseconds, in seconds. */
  function ScaledSeconds(ticks: real, scale: nat): real {
    ticks * scale as real / 1_000_000_000.0
  }

  /** Seconds told by the fields of Info: a finite positive Duration in scaled ticks. */
  function InfoSeconds(fields: InfoFields, ieee: seq<byte> -> Float): Option<real> {
    if fields.duration.None? then None else
    match ieee(fields.duration.value)
    case NotFinite => None
    case Finite(ticks) => if ticks <= 0.0 then None else Some(ScaledSeconds(ticks, fields.scale))
  }

  /** The fields of the Info element the file leads to. */
  function FileInfo(b: seq<byte>): Option<InfoFields> {
    var header := ElementAt(b, 0);
    if header.None? || header.value.id != EBML then None else
    var segment := Seek(b, Min(header.value.next, |b|), |b|, SEGMENT, 0);
    if segment.None? then None else
    var info := Seek(b, segment.value.dataStart, Min(segment.value.next, |b|), INFO, 0);
    if info.None? then None else
    InfoWalk(b, info.value.dataStart, Min(info.value.next, |b|), 0, InfoFields(DEFAULT_SCALE, None))
  }

  /** Seconds of a WebM file. */
  function Duration(b: seq<byte>, ieee: seq<byte> -> Float): Option<real> {
    var fields := FileInfo(b);
    if fields.None? then None else InfoSeconds(fields.value, ieee)
  }

  method ReadInfoDuration(b: seq<byte>, start: nat, end: nat, ieee: seq<byte> -> Float) returns (r: Option<real>)
    ensures var fields := InfoWalk(b, start, end, 0, InfoFields(DEFAULT_SCALE, None));
            r == if fields.None? then None else InfoSeconds(fields.value, ieee)
  {
    hide ElementAt, DecodeBE, ScaledSeconds;
    var timecodeScale: nat := DEFAULT_SCALE;
    var duration: Option<Float> := None;
    ghost var fields := InfoFields(DEFAULT_SCALE, None);
    var offset, guard := start, 0;
    while offset + 2 <= end && offset + 2 <= |b|
      invariant fields.scale == timecodeScale
      invariant duration == if fields.duration.None? then None else Some(ieee(fields.duration.value))
      invariant InfoWalk(b, offset, end, guard, fields) == InfoWalk(b, start, end, 0, InfoFields(DEFAULT_SCALE, None))
      decreases end - offset
    {
      var element := ReadEbmlElement(b, offset);
      if element.None? {
        return None;
      }
      var EbmlElement(id, dataStart, dataLength, next) := element.value;
      if next > |b| {
        return None;
      }
      var payload := b[dataStart..next];
      fields := Note(fields, id, payload);
      if id == TIMECODE_SCALE && dataLength >= 1 {
        if dataLength <= 4 || dataLength == 8 {
          timecodeScale := DecodeBE(payload);
        }
      } else if id == DURATION {
        if dataLength == 8 || dataLength == 4 {
          duration := Some(ieee(payload));
        }
      }
      guard := guard + 1;
      if guard > MAX_SKIPPED {
        return None;
      }
      offset := next;
    }
    if duration.None? || duration.value.NotFinite? || duration.value.value <= 0.0 {
      return None;
    }
    return Some(ScaledSeconds(duration.value.value, timecodeScale));
  }

  method ReadSegmentDuration(b: seq<byte>, start: nat, end: nat, ieee: seq<byte> -> Float)
    returns (r: Option<real>)
    ensures var info := Seek(b, start, end, INFO, 0);
            var fields := if info.None? then None else
              InfoWalk(b, info.value.dataStart, Min(info.value.next, |b|), 0, InfoFields(DEFAULT_SCALE, None));
            r == if fields.None? then None else InfoSeconds(fields.value, ieee)
  {
    hide ElementAt, InfoWalk, InfoSeconds;
    var offset, guard := start, 0;
    while offset + 2 <= end && offset + 2 <= |b|
      invariant Seek(b, offset, end, INFO, guard) == Seek(b, start, end, INFO, 0)
      decreases end - offset
    {
      var element := ReadEbmlElement(b, offset);
      if element.None? {
        return None;
      }
      if element.value.id == INFO {
        r := ReadInfoDuration(b, element.value.dataStart, Min(element.value.next, |b|), ieee);
        return;
      }
      guard := guard + 1;
      if guard > MAX_SKIPPED {
        return None;
      }
      offset := element.value.next;
    }
    return None;
  }

  method ReadWebmDuration(b: seq<byte>, ieee: seq<byte> -> Float) returns (r: Option<real>)
    ensures r == Duration(b, ieee)
  {
    hide ElementAt, InfoWalk, InfoSeconds;
    var header := ReadEbmlElement(b, 0);
    if header.None? || header.value.id != EBML {
      return None;
    }
    var offset, guard := Min(header.value.next, |b|), 0;
    while offset + 2 <= |b|
      invariant Seek(b, offset, |b|, SEGMENT, guard) == Seek(b, Min(header.value.next, |b|), |b|, SEGMENT, 0)
      decreases |b| - offset
    {
      var element := ReadEbmlElement(b, offset);
      if element.None? {
        return None;
      }
      if element.value.id == SEGMENT {
        r := ReadSegmentDuration(b, element.value.dataStart, Min(element.value.next, |b|), ieee);
        return;
      }
      guard := guard + 1;
      if guard > MAX_SKIPPED {
        return None;
      }
      offset := element.value.next;
    }
    return None;
  }

  /** The header names the document type "webm". */
  function IsWebm(b: seq<byte>): bool {
    if |b| < 4 || b[..4] != EBML then false else
    var header := ElementAt(b, 0);
    if header.None? || header.value.id != EBML then false else
    var docType := Seek(b, header.value.dataStart, Min(header.value.next, |b|), DOC_TYPE, 0);
    docType.Some? && b[docType.value.dataStart..Min(docType.value.next, |b|)] == WEBM
  }

  method DetectWebm(b: seq<byte>) returns (r: bool)
    ensures r == IsWebm(b)
  {
    hide ElementAt;
    if |b| < 4 || b[..4] != EBML {
      return false;
    }
    var header := ReadEbmlElement(b, 0);
    if header.None? || header.value.id != EBML {
      return false;
    }
    var end := Min(header.value.next, |b|);
    var offset, guard := header.value.dataStart, 0;
    while offset + 2 <= end
      invariant Seek(b, offset, end, DOC_TYPE, guard) == Seek(b, header.value.dataStart, end, DOC_TYPE, 0)
      decreases if offset < end then end - offset else 0
    {
      var element := ReadEbmlElement(b, offset);
      if element.None? {
        return false;
      }
      if element.value.id == DOC_TYPE {
        return b[element.value.dataStart..Min(element.value.next, |b|)] == WEBM;
      }
      guard := guard + 1;
      if guard > MAX_SKIPPED {
        return false;
      }
      offset := element.value.next;
    }
    return false;
  }

  /** On any bytes: a zero byte starts no element. */
  lemma NoIdWithoutMarker(b: seq<byte>, offset: nat)
    requires offset < |b| && b[offset] == 0
    ensures ElementAt(b, offset) == None
  {
  }

  /** On any bytes: an element of Info that is cut off leaves no duration. */
  lemma CutElementEndsInfo(b: seq<byte>, offset: nat, end: nat, skipped: nat, fields: InfoFields)
    requires offset + 2 <= end <= |b| && ElementAt(b, offset).Some? && ElementAt(b, offset).value.next > |b|
    ensures InfoWalk(b, offset, end, skipped, fields) == None
  {
    hide ElementAt;
  }

  /** On any bytes: there is no duration without an EBML header. */
  lemma DurationNeedsHeader(b: seq<byte>, ieee: seq<byte> -> Float)
    ensures Duration(b, ieee).Some? ==> ElementAt(b, 0).Some? && ElementAt(b, 0).value.id == EBML
  {
    hide ElementAt, Seek, InfoWalk;
  }

  /** A DocType element of the buffer that says "webm". */
  ghost predicate SaysWebmAt(b: seq<byte>, p: nat) {
    var element := ElementAt(b, p);
    && element.Some? && element.value.id == DOC_TYPE
    && b[element.value.dataStart..Min(element.value.next, |b|)] == WEBM
  }

  lemma {:induction false} SoughtIsThere(b: seq<byte>, offset: nat, end: nat, id: seq<byte>, skipped: nat)
    returns (p: nat)
    requires Seek(b, offset, end, id, skipped).Some?
    ensures offset <= p && ElementAt(b, p) == Seek(b, offset, end, id, skipped)
    decreases if offset < end then end - offset else 0
  {
    hide ElementAt;
    p := offset;
    if ElementAt(b, offset).value.id != id {
      p := SoughtIsThere(b, ElementAt(b, offset).value.next, end, id, skipped + 1);
    }
  }

  /** On any bytes: what is taken for WebM starts with an EBML header and has a DocType that says so behind it. */
  lemma WebmSaysSo(b: seq<byte>)
    requires IsWebm(b)
    ensures ElementAt(b, 0).Some? && ElementAt(b, 0).value.id == EBML
    ensures exists p :: p >= ElementAt(b, 0).value.dataStart && SaysWebmAt(b, p)
  {
    hide ElementAt, Seek;
    var header := ElementAt(b, 0).value;
    var p := SoughtIsThere(b, header.dataStart, Min(header.next, |b|), DOC_TYPE, 0);
    assert SaysWebmAt(b, p);
  }

  /** On any bytes a duration is never negative, and it is zero exactly when Info set the scale to zero. */
  lemma DurationSign(b: seq<byte>, ieee: seq<byte> -> Float)
    ensures Duration(b, ieee).Some? ==>
              && FileInfo(b).Some?
              && Duration(b, ieee).value >= 0.0
              && (Duration(b, ieee).value == 0.0 <==> FileInfo(b).value.scale == 0)
  {
    hide FileInfo;
    if Duration(b, ieee).Some? {
      var fields := FileInfo(b).value;
      ScaledSign(ieee(fields.duration.value).value, fields.scale);
    }
  }

  lemma ScaledSign(ticks: real, scale: nat)
    requires ticks > 0.0
    ensures ScaledSeconds(ticks, scale) >= 0.0
    ensures ScaledSeconds(ticks, scale) == 0.0 <==> scale == 0
  {
    if scale > 0 {
      assert scale as real >= 1.0;
      assert ticks * scale as real > 0.0;
    }
  }
}
