/**
 MP4 and MOV: the walk over ISO base-media boxes that looks for `mvhd`, and the duration in it.

 The walk is compared with a box tree (ISO/IEC 14496-12, section 4.2): writing any well-formed
 forest to bytes and walking the bytes finds what a search of the forest itself finds.
 */
module IsoBmff {
  import opened Bytes
  import opened Options

  const MOOV: seq<byte> := [0x6d, 0x6f, 0x6f, 0x76]
  const MVHD: seq<byte> := [0x6d, 0x76, 0x68, 0x64]

  /** Boxes of one nesting level that are skipped before the walk gives up. */
  const MAX_SKIPPED: nat := 10_000

  lemma NamesAreSpelled()
    ensures Spells(MOOV, "moov") && Spells(MVHD, "mvhd")
  {
  }

  datatype IsoBox = IsoBox(kind: seq<byte>, dataStart: nat, dataEnd: nat, next: nat)

  /** The box header at `offset`, unless it is truncated or its size does not fit the buffer. */
  function ReadIsoBox(b: seq<byte>, offset: nat): (r: Option<IsoBox>)
    ensures r.Some? ==> offset + 8 <= r.value.dataStart <= r.value.dataEnd == r.value.next <= |b|
  {
    if offset + 8 > |b| then None else
    var size32 := DecodeBE(b[offset..offset + 4]);
    var kind := b[offset + 4..offset + 8];
    if size32 == 1 then
      if offset + 16 > |b| then None else
      var size := DecodeBE(b[offset + 8..offset + 16]);
      if size < 16 || offset + size > |b| then None
      else Some(IsoBox(kind, offset + 16, offset + size, offset + size))
    else
      var size := if size32 == 0 then |b| - offset else size32;
      if size < 8 || offset + size > |b| then None
      else Some(IsoBox(kind, offset + 8, offset + size, offset + size))
  }

  /** What the walk over `[offset, end)` finds when `skipped` boxes of this level lie behind it. */
  function Walk(b: seq<byte>, offset: nat, end: nat, skipped: nat): (r: Option<nat>)
    decreases if offset < end then end - offset else 0
  {
    if offset + 8 > end || offset + 8 > |b| then None else
    var box := ReadIsoBox(b, offset);
    if box.None? || box.value.next > end then None else
    var nested := if box.value.kind == MOOV then Walk(b, box.value.dataStart, box.value.dataEnd, 0) else None;
    if nested.Some? then nested
    else if box.value.kind == MVHD then Some(box.value.dataStart - 8)
    else if skipped + 1 > MAX_SKIPPED then None
    else Walk(b, box.value.next, end, skipped + 1)
  }

  /** On any bytes: a box that reaches beyond the box around it ends the walk, whatever it is. */
  lemma OverrunEndsTheWalk(b: seq<byte>, offset: nat, end: nat, skipped: nat)
    requires ReadIsoBox(b, offset).Some? && ReadIsoBox(b, offset).value.next > end
    ensures Walk(b, offset, end, skipped) == None
  {
    hide ReadIsoBox;
  }

  /** The position eight bytes before the data of the first `mvhd` in `[start, end)`. */
  method FindMvhd(b: seq<byte>, start: nat, end: nat) returns (r: Option<nat>)
    ensures r == Walk(b, start, end, 0)
    decreases if start < end then end - start else 0
  {
    hide ReadIsoBox;
    var offset, guard := start, 0;
    while offset + 8 <= end && offset + 8 <= |b|
      invariant start <= offset && guard <= MAX_SKIPPED
      invariant Walk(b, offset, end, guard) == Walk(b, start, end, 0)
      decreases end - offset
    {
      var box := ReadIsoBox(b, offset);
      if box.None? || box.value.next > end {
        return None;
      }
      if box.value.kind == MOOV {
        var mvhd := FindMvhd(b, box.value.dataStart, box.value.dataEnd);
        if mvhd.Some? {
          return mvhd;
        }
      } else if box.value.kind == MVHD {
        return Some(box.value.dataStart - 8);
      }
      guard := guard + 1;
      if guard > MAX_SKIPPED {
        return None;
      }
      offset := box.value.next;
    }
    return None;
  }

  /** Units of the movie header: the clock rate and the length counted in its ticks. */
  datatype MovieTime = MovieTime(timescale: nat, duration: nat) {
    ghost predicate Usable(allOnes: nat) {
      timescale != 0 && duration != 0 && duration != allOnes
    }

    function Seconds(): real
      requires timescale != 0
    {
      duration as real / timescale as real
    }
  }

  /** The duration fields behind an `mvhd` position; only the buffer bounds the reads. */
  function ReadMovieTime(b: seq<byte>, mvhd: nat): (r: Option<MovieTime>)
    ensures r.Some? ==> r.value.timescale != 0 && r.value.duration != 0
  {
    if mvhd + 8 < |b| && b[mvhd + 8] == 1 then
      if mvhd + 40 > |b| then None else
      var timescale := DecodeBE(b[mvhd + 28..mvhd + 32]);
      var duration := DecodeBE(b[mvhd + 32..mvhd + 40]);
      if timescale == 0 || duration == 0 || duration == 0xffff_ffff_ffff_ffff then None
      else Some(MovieTime(timescale, duration))
    else
      if mvhd + 28 > |b| then None else
      var timescale := DecodeBE(b[mvhd + 20..mvhd + 24]);
      var duration := DecodeBE(b[mvhd + 24..mvhd + 28]);
      if timescale == 0 || duration == 0 || duration == 0xffff_ffff then None
      else Some(MovieTime(timescale, duration))
  }

  /** Seconds of an MP4 or MOV file. */
  ghost function Duration(b: seq<byte>): (r: Option<real>) {
    var mvhd := Walk(b, 0, |b|, 0);
    if mvhd.None? then None else
    var time := ReadMovieTime(b, mvhd.value);
    if time.None? then None else Some(time.value.Seconds())
  }

  method ReadIsoBmffDuration(b: seq<byte>) returns (r: Option<real>)
    ensures r == Duration(b)
  {
    var mvhd := FindMvhd(b, 0, |b|);
    if mvhd.None? {
      return None;
    }
    var time := ReadMovieTime(b, mvhd.value);
    return if time.None? then None else Some(time.value.Seconds());
  }

  /** On any bytes a duration that is read is positive. */
  lemma DurationIsPositive(b: seq<byte>)
    ensures Duration(b).Some? ==> Duration(b).value > 0.0
  {
    hide Walk;
    if Duration(b).Some? {
      var time := ReadMovieTime(b, Walk(b, 0, |b|, 0).value).value;
      QuotientIsPositive(time.duration as real, time.timescale as real);
    }
  }

  lemma QuotientIsPositive(x: real, y: real)
    requires x > 0.0 && y > 0.0
    ensures x / y > 0.0
  {
  }

  // ------------------------------------------------------------------ the box tree

  /** How a box writes its size: 32 bits, 64 bits, or the zero that means "up to the end of file". */
  datatype SizeForm = Compact | Extended | ToEnd

  datatype Box =
    | Leaf(form: SizeForm, kind: seq<byte>, payload: seq<byte>)
    | Movie(form: SizeForm, children: Forest)

  /** The boxes of one nesting level, in file order. */
  datatype Forest = Empty | Boxes(head: Box, tail: Forest)

  function HeaderSize(form: SizeForm): nat {
    if form == Extended then 16 else 8
  }

  function Header(form: SizeForm, kind: seq<byte>, payloadSize: nat): seq<byte> {
    match form
    case Compact => EncodeBE(8 + payloadSize, 4) + kind
    case Extended => EncodeBE(1, 4) + kind + EncodeBE(16 + payloadSize, 8)
    case ToEnd => EncodeBE(0, 4) + kind
  }

  function Kind(box: Box): seq<byte> {
    if box.Leaf? then box.kind else MOOV
  }

  function Payload(box: Box): seq<byte> {
    match box
    case Leaf(_, _, payload) => payload
    case Movie(_, children) => Serialize(children)
  }

  function Serialize(forest: Forest): seq<byte> {
    match forest
    case Empty => []
    case Boxes(box, tail) => Header(box.form, Kind(box), |Payload(box)|) + Payload(box) + Serialize(tail)
  }

  /** The size fits its field, and only the box that ends the file may leave it open. */
  ghost predicate WellFormedBox(box: Box, endsFile: bool) {
    && (box.form == Compact ==> 8 + |Payload(box)| < 0x1_0000_0000)
    && (box.form == Extended ==> 16 + |Payload(box)| < 0x1_0000_0000_0000_0000)
    && (box.form == ToEnd ==> endsFile)
    && match box
       case Leaf(_, kind, _) => |kind| == 4 && kind != MOOV
       case Movie(_, children) => WellFormed(children, endsFile)
  }

  ghost predicate WellFormed(forest: Forest, endsFile: bool) {
    match forest
    case Empty => true
    case Boxes(box, tail) => WellFormedBox(box, endsFile && tail.Empty?) && WellFormed(tail, endsFile)
  }

  /** An `mvhd` box of a forest: the position eight bytes before its data, and the data. */
  datatype MvhdBox = MvhdBox(position: nat, payload: seq<byte>)

  /**
   Every `mvhd` of a forest written at `offset`, in pre-order and descending only into `moov`,
   that lies among the first `budget` boxes of its level (the first 10,001 of each nested one).
   */
  ghost function MvhdBoxes(forest: Forest, offset: nat, budget: nat): seq<MvhdBox> {
    if forest.Empty? || budget == 0 then [] else
    var Boxes(box, tail) := forest;
    var dataStart := offset + HeaderSize(box.form);
    MvhdBoxesOf(box, dataStart) + MvhdBoxes(tail, dataStart + |Payload(box)|, budget - 1)
  }

  ghost function MvhdBoxesOf(box: Box, dataStart: nat): seq<MvhdBox>
    requires dataStart >= 8
  {
    match box
    case Leaf(_, kind, payload) => if kind == MVHD then [MvhdBox(dataStart - 8, payload)] else []
    case Movie(_, children) => MvhdBoxes(children, dataStart, 10_001)
  }

  ghost function First(found: seq<MvhdBox>): Option<nat> {
    if found == [] then None else Some(found[0].position)
  }

  /** A written header is read back: its kind, and a data range as long as the payload. */
  lemma ReadHeader(b: seq<byte>, offset: nat, form: SizeForm, kind: seq<byte>, n: nat)
    requires At(b, offset, Header(form, kind, n)) && |kind| == 4
    requires offset + HeaderSize(form) + n <= |b|
    requires form == Compact ==> 8 + n < 0x1_0000_0000
    requires form == Extended ==> 16 + n < 0x1_0000_0000_0000_0000
    requires form == ToEnd ==> offset + 8 + n == |b|
    ensures |Header(form, kind, n)| == HeaderSize(form)
    ensures var end := offset + HeaderSize(form) + n;
            ReadIsoBox(b, offset) == Some(IsoBox(kind, offset + HeaderSize(form), end, end))
  {
    hide DecodeBE, EncodeBE;
    Widths();
    match form {
      case Compact =>
        AtSplit(b, offset, EncodeBE(8 + n, 4), kind);
        DecodeEncodeBE(8 + n, 4);
      case Extended =>
        AtSplit(b, offset, EncodeBE(1, 4) + kind, EncodeBE(16 + n, 8));
        AtSplit(b, offset, EncodeBE(1, 4), kind);
        DecodeEncodeBE(1, 4);
        DecodeEncodeBE(16 + n, 8);
      case ToEnd =>
        AtSplit(b, offset, EncodeBE(0, 4), kind);
        DecodeEncodeBE(0, 4);
    }
  }

  /** Reading the head of a written forest leaves its payload and the other boxes in place. */
  lemma ReadHead(b: seq<byte>, forest: Forest, offset: nat, end: nat)
    requires At(b, offset, Serialize(forest)) && end == offset + |Serialize(forest)|
    requires forest.Boxes? && WellFormed(forest, end == |b|)
    ensures var box := forest.head;
            var dataStart := offset + HeaderSize(box.form);
            var next := dataStart + |Payload(box)|;
            && ReadIsoBox(b, offset) == Some(IsoBox(Kind(box), dataStart, next, next))
            && next + |Serialize(forest.tail)| == end
            && (next == |b| <==> end == |b| && forest.tail.Empty?)
            && At(b, dataStart, Payload(box))
            && At(b, next, Serialize(forest.tail))
  {
    hide ReadIsoBox, DecodeBE, EncodeBE, Payload, At, Header;
    var box := forest.head;
    var header := Header(box.form, Kind(box), |Payload(box)|);
    AtSplit(b, offset, header + Payload(box), Serialize(forest.tail));
    AtSplit(b, offset, header, Payload(box));
    HeaderLength(box.form, Kind(box), |Payload(box)|);
    if forest.tail.Boxes? {
      SerializedNonEmpty(forest.tail);
    }
    ReadHeader(b, offset, box.form, Kind(box), |Payload(box)|);
  }

  lemma HeaderLength(form: SizeForm, kind: seq<byte>, n: nat)
    requires |kind| == 4
    ensures |Header(form, kind, n)| == HeaderSize(form)
  {
    hide EncodeBE;
  }

  lemma SerializedNonEmpty(forest: Forest)
    requires forest.Boxes?
    ensures Serialize(forest) != []
  {
    var box := forest.head;
    assert |Header(box.form, Kind(box), |Payload(box)|)| >= 4;
  }

  /** Headers and payloads of the forest are read back from `[offset, end)`, level by level. */
  ghost predicate Carries(b: seq<byte>, forest: Forest, offset: nat, end: nat)
    decreases forest
  {
    match forest
    case Empty => offset == end
    case Boxes(box, tail) =>
      var dataStart := offset + HeaderSize(box.form);
      var next := dataStart + |Payload(box)|;
      && next <= end
      && ReadIsoBox(b, offset) == Some(IsoBox(Kind(box), dataStart, next, next))
      && (box.Movie? ==> Carries(b, box.children, dataStart, next))
      && (box.Leaf? ==> box.kind != MOOV && At(b, dataStart, box.payload))
      && Carries(b, tail, next, end)
  }

  lemma {:induction false} SerializedIsCarried(b: seq<byte>, forest: Forest, offset: nat, end: nat)
    requires At(b, offset, Serialize(forest)) && end == offset + |Serialize(forest)|
    requires WellFormed(forest, end == |b|)
    ensures Carries(b, forest, offset, end)
  {
    hide ReadIsoBox, At, Header, HeaderSize, Kind;
    if forest.Boxes? {
      var box := forest.head;
      var dataStart := offset + HeaderSize(box.form);
      var next := dataStart + |Payload(box)|;
      ReadHead(b, forest, offset, end);
      if box.Movie? {
        SerializedIsCarried(b, box.children, dataStart, next);
      }
      SerializedIsCarried(b, forest.tail, next, end);
    }
  }

  lemma FirstOfConcat(xs: seq<MvhdBox>, ys: seq<MvhdBox>)
    ensures First(xs + ys) == if xs == [] then First(ys) else First(xs)
  {
  }

  /** At the first box of a carried forest the walk descends, stops, gives up, or goes on. */
  lemma WalkAtHead(b: seq<byte>, forest: Forest, offset: nat, end: nat, skipped: nat)
    requires Carries(b, forest, offset, end) && forest.Boxes?
    ensures var box := forest.head;
            var dataStart := offset + HeaderSize(box.form);
            var next := dataStart + |Payload(box)|;
            var nested := if box.Movie? then Walk(b, dataStart, next, 0) else None;
            Walk(b, offset, end, skipped) ==
            if nested.Some? then nested
            else if box.Leaf? && box.kind == MVHD then Some(dataStart - 8)
            else if skipped + 1 > 10_000 then None
            else Walk(b, next, end, skipped + 1)
  {
    hide ReadIsoBox, Payload, HeaderSize, At;
  }

  lemma WalkAtEnd(b: seq<byte>, offset: nat)
    ensures forall skipped :: Walk(b, offset, offset, skipped) == None
  {
  }

  /** The search of the forest takes the first box for the answer, or looks into it, before it goes on. */
  lemma FirstAtHead(box: Box, tail: Forest, offset: nat, budget: nat)
    requires budget > 0
    ensures var dataStart := offset + HeaderSize(box.form);
            var here := if box.Movie? then First(MvhdBoxes(box.children, dataStart, 10_001))
                        else if box.kind == MVHD then Some(dataStart - 8) else None;
            First(MvhdBoxes(Boxes(box, tail), offset, budget)) ==
            if here.Some? then here else First(MvhdBoxes(tail, dataStart + |Payload(box)|, budget - 1))
  {
    hide Payload, First, HeaderSize, MvhdBoxes, MvhdBoxesOf;
    var dataStart := offset + HeaderSize(box.form);
    var later := MvhdBoxes(tail, dataStart + |Payload(box)|, budget - 1);
    HeaderIsThere(box.form);
    BoxesAtHead(box, tail, offset, budget);
    FirstOfConcat(MvhdBoxesOf(box, dataStart), later);
    FirstOfBox(box, dataStart);
  }

  lemma HeaderIsThere(form: SizeForm)
    ensures HeaderSize(form) >= 8
  {
  }

  lemma BoxesAtHead(box: Box, tail: Forest, offset: nat, budget: nat)
    requires budget > 0
    ensures var dataStart := offset + HeaderSize(box.form);
            MvhdBoxes(Boxes(box, tail), offset, budget) ==
            MvhdBoxesOf(box, dataStart) + MvhdBoxes(tail, dataStart + |Payload(box)|, budget - 1)
  {
    hide Payload;
  }

  lemma FirstOfBox(box: Box, dataStart: nat)
    requires dataStart >= 8
    ensures First(MvhdBoxesOf(box, dataStart)) ==
            if box.Movie? then First(MvhdBoxes(box.children, dataStart, 10_001))
            else if box.kind == MVHD then Some(dataStart - 8) else None
    ensures MvhdBoxesOf(box, dataStart) == [] <==> First(MvhdBoxesOf(box, dataStart)).None?
  {
    hide MvhdBoxes;
  }

  lemma NothingFound(forest: Forest, offset: nat, budget: nat)
    requires forest.Empty? || budget == 0
    ensures First(MvhdBoxes(forest, offset, budget)) == None
  {
  }

  /** The walk finds the first `mvhd` of the forest the bytes carry. */
  lemma {:induction false} WalkFindsFirst(b: seq<byte>, forest: Forest, offset: nat, end: nat, skipped: nat)
    requires Carries(b, forest, offset, end) && skipped <= 10_000
    ensures Walk(b, offset, end, skipped) == First(MvhdBoxes(forest, offset, 10_001 - skipped))
  {
    hide ReadIsoBox, Walk, Payload, HeaderSize, At, Serialize, MvhdBoxes, First;
    if forest.Empty? {
      WalkAtEnd(b, offset);
      NothingFound(forest, offset, 10_001 - skipped);
    } else {
      var box := forest.head;
      var dataStart := offset + HeaderSize(box.form);
      var next := dataStart + |Payload(box)|;
      WalkAtHead(b, forest, offset, end, skipped);
      FirstAtHead(box, forest.tail, offset, 10_001 - skipped);
      if box.Movie? {
        WalkFindsFirst(b, box.children, dataStart, next, 0);
      }
      if skipped < 10_000 {
        WalkFindsFirst(b, forest.tail, next, end, skipped + 1);
      } else {
        NothingFound(forest.tail, next, 0);
      }
    }
  }

  /** Every `mvhd` the search of the tree reports is where it says, with the data it says. */
  lemma {:induction false} MvhdBoxesAreInPlace(b: seq<byte>, forest: Forest, offset: nat, end: nat, budget: nat)
    requires Carries(b, forest, offset, end)
    ensures forall found :: found in MvhdBoxes(forest, offset, budget) ==>
              At(b, found.position + 8, found.payload)
  {
    hide ReadIsoBox, Serialize, At;
    if forest.Boxes? && budget > 0 {
      var box := forest.head;
      var dataStart := offset + HeaderSize(box.form);
      var next := dataStart + |Payload(box)|;
      if box.Movie? {
        MvhdBoxesAreInPlace(b, box.children, dataStart, next, 10_001);
      }
      MvhdBoxesAreInPlace(b, forest.tail, next, end, budget - 1);
    }
  }

  // ------------------------------------------------------------------ the movie header

  /** The payload of an `mvhd` box (ISO/IEC 14496-12, section 8.2.2) up to its duration, and the rest. */
  datatype MovieHeader =
    | Version0(tag: byte, flags: seq<byte>, dates: seq<byte>, time: MovieTime, rest: seq<byte>)
    | Version1(flags: seq<byte>, dates: seq<byte>, time: MovieTime, rest: seq<byte>)
  {
    function Bytes(): seq<byte> {
      match this
      case Version0(tag, flags, dates, time, rest) =>
        [tag] + flags + dates + EncodeBE(time.timescale, 4) + EncodeBE(time.duration, 4) + rest
      case Version1(flags, dates, time, rest) =>
        [1] + flags + dates + EncodeBE(time.timescale, 4) + EncodeBE(time.duration, 8) + rest
    }

    /** The duration that means "unknown" in this version. */
    function AllOnes(): nat {
      if Version0? then 0xffff_ffff else 0xffff_ffff_ffff_ffff
    }

    ghost predicate WellFormed() {
      && (Version0? ==> tag != 1)
      && |flags| == 3 && |dates| == (if Version0? then 8 else 16)
      && time.timescale <= 0xffff_ffff && time.duration <= AllOnes()
    }
  }

  /** A written movie header is read back, and is refused exactly when it says nothing. */
  lemma ReadWrittenMovieHeader(b: seq<byte>, mvhd: nat, header: MovieHeader)
    requires At(b, mvhd + 8, header.Bytes()) && header.WellFormed()
    ensures ReadMovieTime(b, mvhd) ==
            if header.time.Usable(header.AllOnes()) then Some(header.time) else None
  {
    hide DecodeBE, EncodeBE;
    Widths();
    var time, rest := header.time, header.rest;
    var start := (if header.Version0? then [header.tag] else [1]) + header.flags + header.dates;
    var scale := EncodeBE(time.timescale, 4);
    var length := EncodeBE(time.duration, if header.Version0? then 4 else 8);
    AtSplit(b, mvhd + 8, start + scale + length, rest);
    AtSplit(b, mvhd + 8, start + scale, length);
    AtSplit(b, mvhd + 8, start, scale);
    assert b[mvhd + 8] == b[mvhd + 8..mvhd + 8 + |start|][0];
    DecodeEncodeBE(time.timescale, 4);
    DecodeEncodeBE(time.duration, |length|);
  }

  /** What a payload tells when nothing follows it. */
  function OwnTime(payload: seq<byte>): Option<MovieTime> {
    ReadMovieTime(ZEROS + payload, 0)
  }

  const ZEROS: seq<byte> := [0, 0, 0, 0, 0, 0, 0, 0]

  /** Bytes that make every field they end non-zero and known. */
  function Ones(): (s: seq<byte>)
    ensures |s| == 32 && forall i :: 0 <= i < |s| ==> s[i] == 1
  {
    seq(32, _ => 1)
  }

  /** Where the duration field of a payload starts, behind its timescale; the first byte is the version. */
  function DurationStart(payload: seq<byte>): nat {
    if payload != [] && payload[0] == 1 then 24 else 16
  }

  function DurationEnd(payload: seq<byte>): nat {
    if payload != [] && payload[0] == 1 then 32 else 20
  }

  /** The payload holds both fields, or at least a timescale that is zero. */
  predicate TellsItsOwn(payload: seq<byte>) {
    || |payload| >= DurationEnd(payload)
    || (|payload| >= DurationStart(payload)
        && DecodeBE(payload[DurationStart(payload) - 4..DurationStart(payload)]) == 0)
  }

  /** The fields of a payload that holds them are read from it, wherever it lies. */
  lemma ReadsOwnTime(b: seq<byte>, mvhd: nat, payload: seq<byte>)
    requires At(b, mvhd + 8, payload) && TellsItsOwn(payload)
    ensures ReadMovieTime(b, mvhd) == OwnTime(payload)
  {
    hide DecodeBE;
    var own := ZEROS + payload;
    assert own[8..8 + |payload|] == payload;
    var start, end := DurationStart(payload), DurationEnd(payload);
    AtSlice(b, mvhd + 8, payload, 0, 1);
    AtSlice(own, 8, payload, 0, 1);
    assert b[mvhd + 8] == b[mvhd + 8 + 0..mvhd + 8 + 1][0] && own[8] == own[8 + 0..8 + 1][0];
    AtSlice(b, mvhd + 8, payload, start - 4, start);
    AtSlice(own, 8, payload, start - 4, start);
    if |payload| >= end {
      AtSlice(b, mvhd + 8, payload, start, end);
      AtSlice(own, 8, payload, start, end);
    }
  }

  lemma LastByte(s: seq<byte>)
    requires s != []
    ensures DecodeBE(s) % 256 == s[|s| - 1]
  {
  }

  /** A payload that holds both fields tells them, unless it says nothing. */
  lemma OwnFields(payload: seq<byte>)
    requires |payload| >= DurationEnd(payload)
    ensures var start, end := DurationStart(payload), DurationEnd(payload);
            var time := MovieTime(DecodeBE(payload[start - 4..start]), DecodeBE(payload[start..end]));
            var allOnes := if end == 20 then 0xffff_ffff else 0xffff_ffff_ffff_ffff;
            OwnTime(payload) == if time.Usable(allOnes) then Some(time) else None
  {
    hide DecodeBE;
    var b := ZEROS + payload;
    assert b[8..8 + |payload|] == payload && b[8] == payload[0];
    AtSlice(b, 8, payload, DurationStart(payload) - 4, DurationStart(payload));
    AtSlice(b, 8, payload, DurationStart(payload), DurationEnd(payload));
  }

  lemma ShortIsUnread(payload: seq<byte>)
    requires |payload| < DurationEnd(payload)
    ensures OwnTime(payload).None?
  {
    hide DecodeBE;
    assert payload != [] ==> (ZEROS + payload)[8] == payload[0];
  }

  /** A field that ends in a one is neither zero nor all ones. */
  lemma EndsInOne(s: seq<byte>)
    requires s != [] && s[|s| - 1] == 1
    ensures EndsUsably(s)
  {
    LastByte(s);
  }

  predicate EndsUsably(s: seq<byte>) {
    DecodeBE(s) != 0 && DecodeBE(s) != 0xffff_ffff && DecodeBE(s) != 0xffff_ffff_ffff_ffff
  }

  /** Behind a shorter payload the bytes that follow decide: the file may end there, or go on usably. */
  lemma NeighboursDecide(payload: seq<byte>)
    requires !TellsItsOwn(payload)
    ensures OwnTime(payload).None?
    ensures OwnTime(payload + Ones()).Some?
  {
    hide DecodeBE, OwnTime, Ones;
    var longer := payload + Ones();
    ShortIsUnread(payload);
    OnesBehind(payload);
    OwnFields(longer);
  }

  lemma OnesBehind(payload: seq<byte>)
    requires !TellsItsOwn(payload)
    ensures var longer := payload + Ones();
            var start, end := DurationStart(longer), DurationEnd(longer);
            && end <= |longer| && EndsUsably(longer[start..end]) && DecodeBE(longer[start - 4..start]) != 0
  {
    hide DecodeBE, Ones;
    var longer := payload + Ones();
    assert longer[0] == (if payload == [] then 1 else payload[0]);
    var start, end := DurationStart(longer), DurationEnd(longer);
    assert longer[start..end][end - start - 1] == longer[end - 1] == 1;
    EndsInOne(longer[start..end]);
    if |payload| >= start {
      assert longer[start - 4..start] == payload[start - 4..start];
    } else {
      assert longer[start - 4..start][3] == longer[start - 1] == 1;
      EndsInOne(longer[start - 4..start]);
    }
  }

  /** What is read is settled by the payload alone exactly when it holds both fields, or a timescale of zero. */
  lemma MovieTimeIsLocalExactly(payload: seq<byte>)
    ensures TellsItsOwn(payload) <==>
            forall b: seq<byte>, p: nat, c: seq<byte>, q: nat ::
              At(b, p + 8, payload) && At(c, q + 8, payload) ==> ReadMovieTime(b, p) == ReadMovieTime(c, q)
  {
    hide ReadMovieTime, TellsItsOwn, OwnTime;
    if TellsItsOwn(payload) {
      forall b: seq<byte>, p: nat, c: seq<byte>, q: nat | At(b, p + 8, payload) && At(c, q + 8, payload)
        ensures ReadMovieTime(b, p) == ReadMovieTime(c, q)
      {
        ReadsOwnTime(b, p, payload);
        ReadsOwnTime(c, q, payload);
      }
    } else {
      NeighboursDiffer(payload);
    }
  }

  lemma NeighboursDiffer(payload: seq<byte>)
    requires !TellsItsOwn(payload)
    ensures var b, c := ZEROS + payload, ZEROS + (payload + Ones());
            At(b, 0 + 8, payload) && At(c, 0 + 8, payload) && ReadMovieTime(b, 0) != ReadMovieTime(c, 0)
  {
    hide ReadMovieTime, TellsItsOwn;
    var b, c := ZEROS + payload, ZEROS + (payload + Ones());
    assert b[8..8 + |payload|] == payload && c[8..8 + |payload|] == payload;
    NeighboursDecide(payload);
  }

  /** The time in the first `mvhd` of a forest, as the reader finds it in the written file. */
  ghost function FirstTime(forest: Forest): Option<MovieTime> {
    var found := MvhdBoxes(forest, 0, 10_001);
    if found == [] then None else ReadMovieTime(Serialize(forest), found[0].position)
  }

  /**
   The duration of any written file is read behind the head of its first `mvhd`; it is that box's own
   whenever the payload holds the fields, and whatever follows a shorter payload takes part otherwise.
   */
  lemma AnyFileDuration(forest: Forest)
    requires WellFormed(forest, true)
    ensures Duration(Serialize(forest)) ==
            if FirstTime(forest).None? then None else Some(FirstTime(forest).value.Seconds())
    ensures var found := MvhdBoxes(forest, 0, 10_001);
            found != [] && TellsItsOwn(found[0].payload) ==> FirstTime(forest) == OwnTime(found[0].payload)
  {
    hide ReadIsoBox, Walk, ReadMovieTime, Serialize, Carries, MvhdBoxes, WellFormed, OwnTime, TellsItsOwn;
    var b := Serialize(forest);
    var found := MvhdBoxes(forest, 0, 10_001);
    SerializedIsCarried(b, forest, 0, |b|);
    WalkFindsFirst(b, forest, 0, |b|, 0);
    if found != [] && TellsItsOwn(found[0].payload) {
      MvhdBoxesAreInPlace(b, forest, 0, |b|, 10_001);
      assert found[0] in found;
      ReadsOwnTime(b, found[0].position, found[0].payload);
    }
  }

  /**
   The duration of a whole written file is the one in the first `mvhd` of its box tree, when that
   header is usable; without an `mvhd`, or with an unusable first one, there is no duration.
   */
  lemma WrittenFileDuration(forest: Forest, header: MovieHeader)
    requires WellFormed(forest, true) && header.WellFormed()
    requires var found := MvhdBoxes(forest, 0, 10_001);
             found != [] ==> found[0].payload == header.Bytes()
    ensures Duration(Serialize(forest)) ==
            if MvhdBoxes(forest, 0, 10_001) != [] && header.time.Usable(header.AllOnes())
            then Some(header.time.Seconds()) else None
  {
    hide ReadIsoBox, Walk, ReadMovieTime, Serialize, Carries, MvhdBoxes, WellFormed;
    var b := Serialize(forest);
    var found := MvhdBoxes(forest, 0, 10_001);
    SerializedIsCarried(b, forest, 0, |b|);
    WalkFindsFirst(b, forest, 0, |b|, 0);
    if found != [] {
      MvhdBoxesAreInPlace(b, forest, 0, |b|, 10_001);
      assert found[0] in found;
      ReadWrittenMovieHeader(b, found[0].position, header);
    }
  }

  // ------------------------------------------------------------------ declared and read

  /** Somewhere in the forest, or in a `moov` of it, there is an `mvhd`. */
  predicate HasMvhd(forest: Forest) {
    match forest
    case Empty => false
    case Boxes(box, tail) => (if box.Movie? then HasMvhd(box.children) else box.kind == MVHD) || HasMvhd(tail)
  }

  /** Some `moov` of the top level has an `mvhd`. */
  predicate Declares(forest: Forest) {
    match forest
    case Empty => false
    case Boxes(box, tail) => (box.Movie? && HasMvhd(box.children)) || Declares(tail)
  }

  /** The first `mvhd` of a forest written at `offset`, however many boxes stand before it. */
  ghost function FirstMvhd(forest: Forest, offset: nat): Option<MvhdBox> {
    match forest
    case Empty => None
    case Boxes(box, tail) =>
      var dataStart := offset + HeaderSize(box.form);
      var here := if box.Movie? then FirstMvhd(box.children, dataStart)
                  else if box.kind == MVHD then Some(MvhdBox(dataStart - 8, box.payload)) else None;
      if here.Some? then here else FirstMvhd(tail, dataStart + |Payload(box)|)
  }

  /** The `mvhd` that declares the duration: the first one inside a `moov`. */
  ghost function DeclaredMvhd(forest: Forest, offset: nat): Option<MvhdBox> {
    match forest
    case Empty => None
    case Boxes(box, tail) =>
      var dataStart := offset + HeaderSize(box.form);
      var here := if box.Movie? then FirstMvhd(box.children, dataStart) else None;
      if here.Some? then here else DeclaredMvhd(tail, dataStart + |Payload(box)|)
  }

  /** The `mvhd` that is read. */
  ghost function ReadMvhd(forest: Forest, offset: nat, budget: nat): Option<MvhdBox> {
    var found := MvhdBoxes(forest, offset, budget);
    if found == [] then None else Some(found[0])
  }

  /** The reader takes the first box for the answer, or looks into it, before it goes on. */
  lemma ReadMvhdAtHead(box: Box, tail: Forest, offset: nat, budget: nat)
    requires budget > 0
    ensures var dataStart := offset + HeaderSize(box.form);
            var here := if box.Movie? then ReadMvhd(box.children, dataStart, 10_001)
                        else if box.kind == MVHD then Some(MvhdBox(dataStart - 8, box.payload)) else None;
            ReadMvhd(Boxes(box, tail), offset, budget) ==
            if here.Some? then here else ReadMvhd(tail, dataStart + |Payload(box)|, budget - 1)
  {
    hide Payload;
    BoxesAtHead(box, tail, offset, budget);
  }

  /** No level on the way to the first `mvhd` is too long for its walk. */
  predicate GuardsReach(forest: Forest, budget: nat) {
    match forest
    case Empty => true
    case Boxes(box, tail) =>
      if budget == 0 then !HasMvhd(forest)
      else if box.Leaf? && box.kind == MVHD then true
      else if box.Movie? && HasMvhd(box.children) then GuardsReach(box.children, 10_001)
      else GuardsReach(tail, budget - 1)
  }

  /**
   In front of the first `moov` with an `mvhd` there is no `mvhd` at the top level, and the guards reach
   that `moov` and its first `mvhd`. Without such a `moov`, no `mvhd` is reached at all.
   */
  predicate ReadsDeclared(forest: Forest, budget: nat) {
    match forest
    case Empty => true
    case Boxes(box, tail) =>
      if budget == 0 then !Declares(forest)
      else if box.Leaf? && box.kind == MVHD then false
      else if box.Movie? && HasMvhd(box.children) then GuardsReach(box.children, 10_001)
      else ReadsDeclared(tail, budget - 1)
  }

  /** A box that is found lies inside the bytes of its forest. */
  ghost predicate Inside(found: Option<MvhdBox>, offset: nat, forest: Forest) {
    found.Some? ==> offset <= found.value.position < offset + |Serialize(forest)|
  }

  lemma NothingIsRead(forest: Forest, offset: nat, budget: nat)
    requires forest.Empty? || budget == 0
    ensures ReadMvhd(forest, offset, budget).None?
  {
  }

  lemma SerializedLength(box: Box, tail: Forest)
    requires box.Leaf? ==> |box.kind| == 4
    ensures |Serialize(Boxes(box, tail))| == HeaderSize(box.form) + |Payload(box)| + |Serialize(tail)|
  {
    hide EncodeBE;
  }

  lemma {:induction false} FirstMvhdInside(forest: Forest, offset: nat, endsFile: bool)
    requires WellFormed(forest, endsFile)
    ensures Inside(FirstMvhd(forest, offset), offset, forest) && (FirstMvhd(forest, offset).Some? <==> HasMvhd(forest))
  {
    hide Serialize;
    if forest.Boxes? {
      var Boxes(box, tail) := forest;
      var dataStart := offset + HeaderSize(box.form);
      SerializedLength(box, tail);
      if box.Movie? {
        FirstMvhdInside(box.children, dataStart, endsFile && tail.Empty?);
      }
      FirstMvhdInside(tail, dataStart + |Payload(box)|, endsFile);
    }
  }

  lemma {:induction false} ReadMvhdInside(forest: Forest, offset: nat, budget: nat, endsFile: bool)
    requires WellFormed(forest, endsFile)
    ensures Inside(ReadMvhd(forest, offset, budget), offset, forest)
    ensures ReadMvhd(forest, offset, budget).Some? ==> HasMvhd(forest)
  {
    hide Serialize, ReadMvhd;
    if forest.Empty? || budget == 0 {
      NothingIsRead(forest, offset, budget);
    } else {
      var Boxes(box, tail) := forest;
      var dataStart := offset + HeaderSize(box.form);
      SerializedLength(box, tail);
      ReadMvhdAtHead(box, tail, offset, budget);
      if box.Movie? {
        ReadMvhdInside(box.children, dataStart, 10_001, endsFile && tail.Empty?);
      }
      ReadMvhdInside(tail, dataStart + |Payload(box)|, budget - 1, endsFile);
    }
  }

  lemma {:induction false} DeclaredMvhdInside(forest: Forest, offset: nat, endsFile: bool)
    requires WellFormed(forest, endsFile)
    ensures DeclaredMvhd(forest, offset).Some? ==> offset <= DeclaredMvhd(forest, offset).value.position
    ensures DeclaredMvhd(forest, offset).Some? <==> Declares(forest)
  {
    hide Serialize;
    if forest.Boxes? {
      var Boxes(box, tail) := forest;
      var dataStart := offset + HeaderSize(box.form);
      if box.Movie? {
        FirstMvhdInside(box.children, dataStart, endsFile && tail.Empty?);
      }
      DeclaredMvhdInside(tail, dataStart + |Payload(box)|, endsFile);
    }
  }

  /** The walk over a level gets to its first `mvhd` exactly when the guards reach it. */
  lemma {:induction false} FirstIsReadExactly(forest: Forest, offset: nat, budget: nat, endsFile: bool)
    requires WellFormed(forest, endsFile)
    ensures ReadMvhd(forest, offset, budget) == FirstMvhd(forest, offset) <==> GuardsReach(forest, budget)
  {
    hide Serialize, Inside, ReadMvhd, HeaderSize;
    FirstMvhdInside(forest, offset, endsFile);
    if forest.Empty? || budget == 0 {
      NothingIsRead(forest, offset, budget);
    } else {
      var Boxes(box, tail) := forest;
      ReadMvhdAtHead(box, tail, offset, budget);
      var dataStart := offset + HeaderSize(box.form);
      var next := dataStart + |Payload(box)|;
      FirstIsReadExactly(tail, next, budget - 1, endsFile);
      if box.Movie? {
        FirstIsReadExactly(box.children, dataStart, 10_001, endsFile && tail.Empty?);
        MovieComesFirst(box, tail, dataStart, budget - 1, endsFile);
      }
    }
  }

  /** What is found in a `moov` is nothing that is found behind it. */
  lemma MovieComesFirst(box: Box, tail: Forest, dataStart: nat, budget: nat, endsFile: bool)
    requires box.Movie? && WellFormed(Boxes(box, tail), endsFile)
    ensures var inside := FirstMvhd(box.children, dataStart);
            var behind := ReadMvhd(tail, dataStart + |Payload(box)|, budget);
            && (inside.Some? <==> HasMvhd(box.children))
            && (inside.Some? ==> inside != behind)
            && (inside.None? ==> ReadMvhd(box.children, dataStart, 10_001).None?)
  {
    hide MvhdBoxes, FirstMvhd, Serialize;
    FirstMvhdInside(box.children, dataStart, endsFile && tail.Empty?);
    ReadMvhdInside(box.children, dataStart, 10_001, endsFile && tail.Empty?);
    ReadMvhdInside(tail, dataStart + |Payload(box)|, budget, endsFile);
  }

  /** The `mvhd` that is read is the one that declares the duration, exactly under ReadsDeclared. */
  lemma {:induction false} DeclaredIsReadExactly(forest: Forest, offset: nat, budget: nat)
    requires WellFormed(forest, true)
    ensures ReadMvhd(forest, offset, budget) == DeclaredMvhd(forest, offset) <==> ReadsDeclared(forest, budget)
  {
    hide Serialize, ReadMvhd, HeaderSize;
    DeclaredMvhdInside(forest, offset, true);
    if forest.Empty? || budget == 0 {
      NothingIsRead(forest, offset, budget);
    } else {
      var Boxes(box, tail) := forest;
      ReadMvhdAtHead(box, tail, offset, budget);
      var dataStart := offset + HeaderSize(box.form);
      var next := dataStart + |Payload(box)|;
      DeclaredIsReadExactly(tail, next, budget - 1);
      DeclaredMvhdInside(tail, next, true);
      if box.Movie? {
        FirstIsReadExactly(box.children, dataStart, 10_001, tail.Empty?);
        MovieComesFirst(box, tail, dataStart, budget - 1, true);
      }
    }
  }

  /** The time the file declares. */
  ghost function DeclaredTime(forest: Forest): Option<MovieTime> {
    var box := DeclaredMvhd(forest, 0);
    if box.None? then None else OwnTime(box.value.payload)
  }

  /** A declared time is read, unless another `mvhd` is read or none. */
  lemma DeclaredTimeIsRead(forest: Forest)
    requires WellFormed(forest, true)
    ensures ReadsDeclared(forest, 10_001) && DeclaredTime(forest).Some? ==>
              FirstTime(forest) == DeclaredTime(forest)
  {
    hide ReadMovieTime, Serialize, MvhdBoxes, WellFormed, OwnTime, TellsItsOwn, DeclaredMvhd, ReadsDeclared, FirstTime;
    AnyFileDuration(forest);
    DeclaredIsReadExactly(forest, 0, 10_001);
    if ReadsDeclared(forest, 10_001) && DeclaredTime(forest).Some? {
      ToldIsOwn(DeclaredMvhd(forest, 0).value.payload);
    }
  }

  lemma ToldIsOwn(payload: seq<byte>)
    requires OwnTime(payload).Some?
    ensures TellsItsOwn(payload)
  {
    hide OwnTime;
    if |payload| < DurationEnd(payload) {
      ShortIsUnread(payload);
    }
  }

  /** A written header tells its own time. */
  lemma OwnTimeOfHeader(header: MovieHeader)
    requires header.WellFormed() && header.time.Usable(header.AllOnes())
    ensures OwnTime(header.Bytes()) == Some(header.time)
  {
    hide ReadMovieTime, MovieHeader.Bytes;
    var b := ZEROS + header.Bytes();
    assert b[8..8 + |header.Bytes()|] == header.Bytes();
    ReadWrittenMovieHeader(b, 0, header);
  }
}
