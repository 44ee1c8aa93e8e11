/**
 WebM files as trees: writing the tree to bytes and reading its duration and its document type back
 gives what the reader sees of the tree, and that is compared with what the tree declares.
 */
module WebmFiles {
  import opened Bytes
  import opened Common
  import opened Options
  import opened Vints
  import opened Webm
  import opened WebmElements

  /**
   A WebM file: the header's elements, elements before the Segment, the Segment with its elements
   before the first Info, that Info, the rest of the Segment and what follows it. Where the Segment
   ends only matters to its own size.
   */
  datatype WebmFile = WebmFile(
    headerSize: Size, header: seq<Element>, before: seq<Element>, segmentSize: Size,
    lead: seq<Element>, infoSize: Size, info: seq<Element>, rest: seq<byte>, after: seq<byte>)
  {
    function HeaderElement(): Element {
      Element(EBML, headerSize, WrittenAll(header))
    }

    function InfoElement(): Element {
      Element(INFO, infoSize, WrittenAll(info))
    }

    function SegmentElement(): Element {
      Element(SEGMENT, segmentSize, WrittenAll(lead) + (InfoElement().Written() + rest))
    }

    function AfterHeader(): seq<byte> {
      WrittenAll(before) + (SegmentElement().Written() + after)
    }

    function Bytes(): seq<byte> {
      HeaderElement().Written() + AfterHeader()
    }

    ghost predicate WellFormed() {
      && AllWellFormed(header) && AllWellFormed(before) && AllWellFormed(lead) && AllWellFormed(info)
      && HeaderElement().WellFormed() && InfoElement().WellFormed() && SegmentElement().WellFormed()
      && (forall e :: e in before ==> e.id != SEGMENT)
      && (forall e :: e in lead ==> e.id != INFO)
    }

    /** Where the header ends. */
    function HeaderEnd(): nat {
      |HeaderElement().Written()|
    }

    /** Where the Segment's data begins. */
    function SegmentStart(): nat {
      HeaderEnd() + |WrittenAll(before)| + |SegmentElement().Header()|
    }

    /** Where the data of Info begins. */
    function InfoStart(): nat {
      SegmentStart() + |WrittenAll(lead)| + |InfoElement().Header()|
    }
  }

  lemma KnownIds()
    ensures ValidId(EBML) && ValidId(SEGMENT) && ValidId(INFO) && ValidId(DOC_TYPE)
  {
  }

  lemma SegmentWritten(file: WebmFile)
    ensures var late := WrittenAll(file.info) + (file.rest + file.after);
            file.SegmentElement().Written() + file.after ==
            file.SegmentElement().Header() + (WrittenAll(file.lead) + (file.InfoElement().Header() + late))
  {
    hide EncodeVint, WrittenAll, Element.Header;
  }

  /** Byte strings written one behind the other. */
  lemma InARow(b: seq<byte>, offset: nat, u: seq<byte>, v: seq<byte>, w: seq<byte>)
    requires Ends(b, offset, u + (v + w))
    ensures At(b, offset, u) && Ends(b, offset + |u|, v + w)
    ensures At(b, offset + |u|, v) && Ends(b, offset + |u| + |v|, w)
  {
    hide At, Ends;
    EndsSplit(b, offset, u, v + w);
    EndsSplit(b, offset + |u|, v, w);
  }

  /** The parts of a written file lie one behind the other. */
  lemma Layout(file: WebmFile)
    ensures var b := file.Bytes();
            var late := WrittenAll(file.info) + (file.rest + file.after);
            && At(b, 0, file.HeaderElement().Written())
            && Ends(b, file.HeaderEnd(), file.AfterHeader())
            && At(b, file.HeaderEnd() + |WrittenAll(file.before)|, file.SegmentElement().Written())
            && Ends(b, file.SegmentStart(), WrittenAll(file.lead) + (file.InfoElement().Header() + late))
            && At(b, file.SegmentStart() + |WrittenAll(file.lead)|, file.InfoElement().Written())
            && Ends(b, file.InfoStart(), late)
  {
    hide WrittenAll, At, Ends, Element.Header, Element.Written, WebmFile.HeaderElement, WebmFile.SegmentElement,
      WebmFile.InfoElement;
    var b := file.Bytes();
    var header, before, segment := file.HeaderElement(), WrittenAll(file.before), file.SegmentElement();
    var lead, info, behind := WrittenAll(file.lead), file.InfoElement(), file.rest + file.after;
    WholeEnds(b);
    InARow(b, 0, header.Written(), before, segment.Written() + file.after);
    EndsSplit(b, |header.Written()| + |before|, segment.Written(), file.after);
    SegmentWritten(file);
    InARow(b, |header.Written()| + |before|, segment.Header(), lead,
           info.Header() + (WrittenAll(file.info) + behind));
    InfoWritten(file);
    EndsSplit(b, file.SegmentStart() + |lead|, info.Header(), WrittenAll(file.info) + behind);
    EndsSplit(b, file.SegmentStart() + |lead|, info.Written(), behind);
  }

  lemma InfoWritten(file: WebmFile)
    ensures file.InfoElement().Header() + (WrittenAll(file.info) + (file.rest + file.after)) ==
            file.InfoElement().Written() + (file.rest + file.after)
  {
    hide WrittenAll, Element.Header;
  }

  lemma WholeEnds(b: seq<byte>)
    ensures Ends(b, 0, b)
  {
  }

  /** A seek over a level of written elements, none of them with the id, ends behind them or nowhere. */
  lemma SeekOver(b: seq<byte>, elements: seq<Element>, offset: nat, end: nat, behind: seq<byte>, id: seq<byte>)
    requires Ends(b, offset, WrittenAll(elements) + behind) && AllWellFormed(elements)
    requires offset + |WrittenAll(elements)| <= end <= |b|
    requires forall e :: e in elements ==> e.id != id
    ensures Seek(b, offset, end, id, 0) ==
            if Swallows(elements) || |elements| > 1000 then None
            else Seek(b, offset + |WrittenAll(elements)|, end, id, |elements|)
  {
    hide ElementAt, WrittenAll, Ends, Element.WellFormed;
    var stop := if Swallows(elements) then |b| else offset + |WrittenAll(elements)|;
    WrittenIsRead(b, elements, offset, end, behind);
    ViewKeepsIds(elements, behind);
    SeekPast(b, View(elements, behind), offset, end, stop, id, 0);
    if !Swallows(elements) {
      ViewLength(elements, behind);
    }
  }

  lemma ViewLength(elements: seq<Element>, behind: seq<byte>)
    requires !Swallows(elements)
    ensures |View(elements, behind)| == |elements|
  {
    ViewIsPlain(elements, behind);
    PlainLength(elements);
  }

  lemma {:induction false} ViewKeepsIds(elements: seq<Element>, behind: seq<byte>)
    ensures forall f :: f in View(elements, behind) ==> exists e :: e in elements && e.id == f.id
  {
    if elements != [] {
      assert elements[0] in elements && forall e :: e in elements[1..] ==> e in elements;
      ViewKeepsIds(elements[1..], behind);
    }
  }

  lemma {:induction false} PlainLength(elements: seq<Element>)
    ensures |Plain(elements)| == |elements|
  {
    if elements != [] {
      PlainLength(elements[1..]);
    }
  }

  /** From the end of the header the walk reaches the Segment, unless an element before it is in the way. */
  lemma FindsSegment(file: WebmFile)
    requires file.WellFormed()
    ensures var b := file.Bytes();
            var start := file.HeaderEnd();
            var next := if file.segmentSize.ReadsToEnd() then |b|
                        else file.SegmentStart() + |file.SegmentElement().payload|;
            && start <= |b| && file.SegmentStart() <= next <= |b|
            && file.InfoStart() + |WrittenAll(file.info)| <= next
            && Seek(b, start, |b|, SEGMENT, 0) ==
               if Swallows(file.before) || |file.before| > 1000 then None
               else Some(EbmlElement(SEGMENT, file.SegmentStart(), next - file.SegmentStart(), next))
  {
    hide ElementAt, EncodeVint, Pow128, WrittenAll, At, Ends, Swallows, WebmFile.Bytes, Element.WellFormed;
    var b := file.Bytes();
    KnownIds();
    Layout(file);
    EndsBounds(b, file.HeaderEnd(), file.AfterHeader());
    SeekOver(b, file.before, file.HeaderEnd(), |b|, file.SegmentElement().Written() + file.after, SEGMENT);
    ReadWritten(b, file.HeaderEnd() + |WrittenAll(file.before)|, file.SegmentElement());
  }

  lemma EndsBounds(b: seq<byte>, offset: nat, s: seq<byte>)
    requires Ends(b, offset, s)
    ensures offset + |s| == |b|
  {
  }

  /** From the start of the Segment the walk reaches Info, unless an element before it is in the way. */
  lemma FindsInfo(file: WebmFile, end: nat)
    requires file.WellFormed()
    requires file.InfoStart() + |WrittenAll(file.info)| <= end <= |file.Bytes()|
    ensures var b := file.Bytes();
            var next := if file.infoSize.ReadsToEnd() then |b| else file.InfoStart() + |WrittenAll(file.info)|;
            && Seek(b, file.SegmentStart(), end, INFO, 0) ==
               if Swallows(file.lead) || |file.lead| > 1000 then None
               else Some(EbmlElement(INFO, file.InfoStart(), next - file.InfoStart(), next))
  {
    hide ElementAt, EncodeVint, Pow128, WrittenAll, At, Ends, Swallows, WebmFile.Bytes, Element.WellFormed;
    var b := file.Bytes();
    KnownIds();
    Layout(file);
    SeekOver(b, file.lead, file.SegmentStart(), end,
             file.InfoElement().Header() + (WrittenAll(file.info) + (file.rest + file.after)), INFO);
    ReadWritten(b, file.SegmentStart() + |WrittenAll(file.lead)|, file.InfoElement());
  }

  /** The walks get from the start of the file to Info. */
  predicate ReachesInfo(file: WebmFile) {
    && !file.headerSize.ReadsToEnd()
    && !Swallows(file.before) && |file.before| <= 1000
    && !Swallows(file.lead) && |file.lead| <= 1000
  }

  /** Info, or an element in it, goes on to the end of the file for the reader. */
  predicate RunsOn(file: WebmFile) {
    file.infoSize.ReadsToEnd() || Swallows(file.info)
  }

  /** What the reader sees as the fields of Info, if it can read them. */
  function FieldsOfInfo(file: WebmFile): Option<seq<Field>> {
    if Swallows(file.info) || !file.infoSize.ReadsToEnd() then Some(View(file.info, file.rest + file.after)) else
    var late := SeenFrom(file.Bytes(), file.InfoStart() + |WrittenAll(file.info)|);
    if late.None? then None else Some(Plain(file.info) + late.value)
  }

  /** The fields the duration is read from. */
  function SeenInfo(file: WebmFile): Option<seq<Field>> {
    var seen := FieldsOfInfo(file);
    if ReachesInfo(file) && seen.Some? && |seen.value| <= 1000 then seen else None
  }

  lemma {:induction false} NoteAllConcat(fields: InfoFields, xs: seq<Field>, ys: seq<Field>)
    ensures NoteAll(fields, xs + ys) == NoteAll(NoteAll(fields, xs), ys)
    decreases |xs|
  {
    hide Note;
    if xs == [] {
      assert [] + ys == ys;
    } else {
      assert (xs + ys)[1..] == xs[1..] + ys;
      NoteAllConcat(Note(fields, xs[0].id, xs[0].payload), xs[1..], ys);
    }
  }

  /** Walking Info notes what the reader sees of it. */
  lemma WalksInfo(file: WebmFile, fields: InfoFields)
    requires file.WellFormed()
    ensures var b := file.Bytes();
            var infoEnd := file.InfoStart() + |WrittenAll(file.info)|;
            var seen := FieldsOfInfo(file);
            && infoEnd <= |b|
            && InfoWalk(b, file.InfoStart(), if file.infoSize.ReadsToEnd() then |b| else infoEnd, 0, fields) ==
               if seen.Some? && |seen.value| <= 1000 then Some(NoteAll(fields, seen.value)) else None
  {
    hide ElementAt, EncodeVint, Pow128, WrittenAll, At, Ends, Swallows, WebmFile.Bytes, Element.WellFormed;
    hide NoteAll, Reads, SeenFrom, View, Plain, Note;
    var b := file.Bytes();
    var behind := file.rest + file.after;
    var infoEnd := file.InfoStart() + |WrittenAll(file.info)|;
    var end := if file.infoSize.ReadsToEnd() then |b| else infoEnd;
    var stop := if Swallows(file.info) then |b| else infoEnd;
    Layout(file);
    EndsBounds(b, file.InfoStart(), WrittenAll(file.info) + behind);
    WrittenIsRead(b, file.info, file.InfoStart(), end, behind);
    var seen := View(file.info, behind);
    InfoWalkNotesAll(b, seen, file.InfoStart(), end, stop, 0, fields);
    if !Swallows(file.info) && file.infoSize.ReadsToEnd() {
      ViewIsPlain(file.info, behind);
      var late := SeenFrom(b, infoEnd);
      if |seen| <= 1000 {
        InfoWalkNotesSeen(b, infoEnd, |seen|, NoteAll(fields, seen));
      }
      if late.Some? {
        NoteAllConcat(fields, seen, late.value);
      }
    }
  }

  /** The fields the file leads to are those the reader sees. */
  lemma FindsFields(file: WebmFile)
    requires file.WellFormed()
    ensures FileInfo(file.Bytes()) ==
            var seen := SeenInfo(file);
            if seen.None? then None else Some(NoteAll(InfoFields(DEFAULT_SCALE, None), seen.value))
  {
    hide ElementAt, Seek, InfoWalk, WrittenAll, Ends, NoteAll, FieldsOfInfo, Swallows, WebmFile.Bytes,
      WebmFile.WellFormed;
    var b := file.Bytes();
    ReadsFileHeader(file);
    FindsSegment(file);
    if file.headerSize.ReadsToEnd() {
      NothingLeft(b, |b|, |b|, SEGMENT, 0);
    } else if !Swallows(file.before) && |file.before| <= 1000 {
      FindsInfo(file, if file.segmentSize.ReadsToEnd() then |b|
                      else file.SegmentStart() + |file.SegmentElement().payload|);
      WalksInfo(file, InfoFields(DEFAULT_SCALE, None));
    }
  }

  /**
   The duration of a written file: the last usable Duration times the last usable TimecodeScale of
   what the reader sees as Info. There is none when an element in front of Info, or the header itself,
   goes on to the end of the file, or a level is too long for its walk.
   */
  lemma WrittenFileDuration(file: WebmFile, ieee: seq<byte> -> Float)
    requires file.WellFormed()
    ensures Duration(file.Bytes(), ieee) ==
            var seen := SeenInfo(file);
            if seen.None? then None
            else InfoSeconds(InfoFields(LastScale(seen.value, DEFAULT_SCALE), LastDuration(seen.value, None)), ieee)
  {
    hide FileInfo, InfoSeconds, LastScale, LastDuration, NoteAll, SeenInfo, WebmFile.Bytes, WebmFile.WellFormed;
    FindsFields(file);
    if SeenInfo(file).Some? {
      NoteAllKeepsLast(InfoFields(DEFAULT_SCALE, None), SeenInfo(file).value);
    }
  }

  /** The EBML header of a written file is read back whole, or up to the end of the file. */
  lemma ReadsFileHeader(file: WebmFile)
    requires file.WellFormed()
    ensures var b := file.Bytes();
            var dataStart := |EBML| + file.headerSize.bytes;
            var next := if file.headerSize.ReadsToEnd() then |b| else file.HeaderEnd();
            && file.HeaderEnd() <= |b| && |b| >= 4 && b[..4] == EBML
            && dataStart + |WrittenAll(file.header)| == file.HeaderEnd()
            && ElementAt(b, 0) == Some(EbmlElement(EBML, dataStart, next - dataStart, next))
            && Ends(b, dataStart, WrittenAll(file.header) + file.AfterHeader())
  {
    hide ElementAt, EncodeVint, Pow128, WrittenAll, At, Ends, WebmFile.Bytes, WebmFile.AfterHeader;
    var b := file.Bytes();
    var header := file.HeaderElement();
    KnownIds();
    Layout(file);
    ReadWritten(b, 0, header);
    StartsWithId(b, header);
    WholeEnds(b);
    assert b == header.Header() + (WrittenAll(file.header) + file.AfterHeader()) by { HeaderWritten(file); }
    EndsSplit(b, 0, header.Header(), WrittenAll(file.header) + file.AfterHeader());
  }

  lemma HeaderWritten(file: WebmFile)
    ensures file.Bytes() == file.HeaderElement().Header() + (WrittenAll(file.header) + file.AfterHeader())
  {
    hide WrittenAll, Element.Header, WebmFile.AfterHeader;
  }

  lemma StartsWithId(b: seq<byte>, e: Element)
    requires At(b, 0, e.Written())
    ensures |e.id| <= |b| && b[..|e.id|] == e.id
  {
    hide EncodeVint;
    AtSplit(b, 0, e.Header(), e.payload);
    AtSplit(b, 0, e.id, EncodeVint(e.size.Value(|e.payload|), e.size.bytes));
  }

  /** An Info that ends where it says is seen as it is. */
  lemma NarrowInfoIsPlain(file: WebmFile)
    requires !RunsOn(file)
    ensures FieldsOfInfo(file) == Some(Plain(file.info))
  {
    ViewIsPlain(file.info, file.rest + file.after);
  }

  /** An Info that runs on takes in the elements behind it. */
  lemma WideInfoTakesIn(file: WebmFile, later: seq<Element>)
    requires file.WellFormed() && RunsOn(file)
    requires AllWellFormed(later) && file.rest + file.after == WrittenAll(later)
    ensures FieldsOfInfo(file) == Some(View(file.info + later, []))
  {
    hide EncodeVint, WrittenAll, At, Ends, Swallows, WebmFile.Bytes, Element.WellFormed, View, Plain;
    ViewConcat(file.info, later);
    if !Swallows(file.info) {
      Layout(file);
      EndsSplit(file.Bytes(), file.InfoStart(), WrittenAll(file.info), file.rest + file.after);
      ViewIsSeen(file.Bytes(), later, file.InfoStart() + |WrittenAll(file.info)|);
    }
  }

  lemma {:induction false} ViewConcat(elements: seq<Element>, later: seq<Element>)
    ensures View(elements + later, []) ==
            if Swallows(elements) then View(elements, WrittenAll(later)) else Plain(elements) + View(later, [])
  {
    hide EncodeVint, Swallows, WrittenAll;
    if elements == [] {
      assert elements + later == later;
      assert [] + View(later, []) == View(later, []);
      NothingIsRead([], 0, 0);
    } else {
      var e, rest := elements[0], elements[1..];
      assert (elements + later)[1..] == rest + later && (elements + later)[0] == e;
      SwallowsFirst(elements);
      if e.size.ReadsToEnd() {
        WrittenConcat(rest, later);
        assert WrittenAll(rest + later) + [] == WrittenAll(rest + later);
      } else {
        ViewConcat(rest, later);
        var f := Field(e.id, e.payload);
        assert ([f] + Plain(rest)) + View(later, []) == [f] + (Plain(rest) + View(later, []));
      }
    }
  }

  lemma {:induction false} WrittenConcat(xs: seq<Element>, ys: seq<Element>)
    ensures WrittenAll(xs + ys) == WrittenAll(xs) + WrittenAll(ys)
  {
    hide Element.Written;
    if xs == [] {
      assert xs + ys == ys;
    } else {
      assert (xs + ys)[1..] == xs[1..] + ys;
      WrittenConcat(xs[1..], ys);
    }
  }

  /** Fields seen later win over the earlier ones, as far as they tell anything. */
  lemma {:induction false} LaterFieldsWin(xs: seq<Field>, ys: seq<Field>, scale: nat, duration: Option<seq<byte>>)
    ensures LastScale(xs + ys, scale) == LastScale(ys, LastScale(xs, scale))
    ensures LastDuration(xs + ys, duration) == LastDuration(ys, LastDuration(xs, duration))
    decreases |ys|
  {
    hide DecodeBE;
    if ys == [] {
      assert xs + ys == xs;
    } else {
      var n := |xs + ys| - 1;
      assert (xs + ys)[..n] == xs + ys[..|ys| - 1];
      LaterFieldsWin(xs, ys[..|ys| - 1], scale, duration);
    }
  }

  // ------------------------------------------------------------------ declared and read

  /** The fields of Info by the file's own sizes, whatever the size of a TimecodeScale. */
  function DeclaredFields(file: WebmFile): InfoFields {
    InfoFields(DeclaredScale(Plain(file.info), DEFAULT_SCALE), DeclaredDuration(Plain(file.info), None))
  }

  function FieldsRead(seen: seq<Field>): InfoFields {
    InfoFields(LastScale(seen, DEFAULT_SCALE), LastDuration(seen, None))
  }

  /** Seconds the Info of a file declares. */
  function DeclaredSeconds(file: WebmFile, ieee: seq<byte> -> Float): Option<real> {
    InfoSeconds(DeclaredFields(file), ieee)
  }

  /** The fields tell a duration at all. */
  predicate Tells(fields: InfoFields, ieee: seq<byte> -> Float) {
    && fields.duration.Some?
    && ieee(fields.duration.value).Finite? && ieee(fields.duration.value).value > 0.0
  }

  /** The scale that is read is the declared one: none is overlooked, or the overlooked one says the same. */
  predicate ScaleIsRead(info: seq<Field>) {
    OverlookedScale(info).None?
    || DecodeBE(OverlookedScale(info).value.payload) == LastScale(info, DEFAULT_SCALE)
  }

  /**
   The duration that is read is the declared one exactly when the walks get to Info and, if Info ends
   where it says, no scale is overlooked that says something else; if it runs on, when the last fields
   up to the end of the file tell as many nanoseconds as those of Info.
   */
  lemma DurationIsDeclaredExactly(file: WebmFile, ieee: seq<byte> -> Float)
    requires file.WellFormed()
    ensures Duration(file.Bytes(), ieee) == DeclaredSeconds(file, ieee) <==>
            var seen, declared := SeenInfo(file), DeclaredFields(file);
            if !Tells(declared, ieee) then seen.None? || !Tells(FieldsRead(seen.value), ieee)
            else if seen.None? then false
            else if !RunsOn(file) then ScaleIsRead(Plain(file.info))
            else var read := FieldsRead(seen.value);
              && Tells(read, ieee)
              && ieee(read.duration.value).value * read.scale as real ==
                 ieee(declared.duration.value).value * declared.scale as real
  {
    hide Duration, DecodeBE, LastScale, LastDuration, DeclaredScale, DeclaredDuration, OverlookedScale, FieldsOfInfo,
      ReachesInfo, RunsOn, WebmFile.Bytes, WebmFile.WellFormed, ScaledSeconds;
    WrittenFileDuration(file, ieee);
    var seen, declared := SeenInfo(file), DeclaredFields(file);
    if Tells(declared, ieee) && seen.Some? {
      if !RunsOn(file) {
        NarrowInfoIsPlain(file);
        ScaleIsReadExactly(Plain(file.info), DEFAULT_SCALE);
        DurationIsReadExactly(Plain(file.info), None);
        ScalesTellApart(ieee(declared.duration.value).value, FieldsRead(seen.value).scale, declared.scale);
      } else if Tells(FieldsRead(seen.value), ieee) {
        SecondsTellApart(ieee(declared.duration.value).value, declared.scale,
                         ieee(FieldsRead(seen.value).duration.value).value, FieldsRead(seen.value).scale);
      }
    }
  }

  lemma ScalesTellApart(ticks: real, x: nat, y: nat)
    requires ticks > 0.0
    ensures ScaledSeconds(ticks, x) == ScaledSeconds(ticks, y) <==> x == y
  {
    if ScaledSeconds(ticks, x) == ScaledSeconds(ticks, y) {
      assert ticks * x as real == ticks * y as real;
    }
  }

  lemma SecondsTellApart(ticks: real, x: nat, others: real, y: nat)
    ensures ScaledSeconds(ticks, x) == ScaledSeconds(others, y) <==> ticks * x as real == others * y as real
  {
  }

  // ------------------------------------------------------------------ the document type

  /** The first field with this id among the first `budget`. */
  ghost function FirstWithId(seen: seq<Field>, id: seq<byte>, budget: nat): Option<Field> {
    if seen == [] || budget == 0 then None
    else if seen[0].id == id then Some(seen[0])
    else FirstWithId(seen[1..], id, budget - 1)
  }

  /** A seek finds the first field with the id; if there is none it goes on behind the fields. */
  lemma {:induction false} SeekFindsFirst(b: seq<byte>, seen: seq<Field>, offset: nat, end: nat, stop: nat,
                                          id: seq<byte>, skipped: nat)
    requires Reads(b, seen, offset, end, stop) && end <= |b| && skipped <= 1000
    ensures var found := Seek(b, offset, end, id, skipped);
            var first := FirstWithId(seen, id, 1001 - skipped);
            if first.Some? then
              found.Some? && found.value.next <= |b|
              && b[found.value.dataStart..found.value.next] == first.value.payload
            else found == if skipped + |seen| <= 1000 then Seek(b, stop, end, id, skipped + |seen|) else None
    decreases |seen|
  {
    hide ElementAt;
    if seen != [] && seen[0].id != id && skipped < 1000 {
      SeekFindsFirst(b, seen[1..], ElementAt(b, offset).value.next, end, stop, id, skipped + 1);
    }
  }

  /** Behind a header that reaches to the end of the file, the search goes on. */
  predicate DocTypeIsBehind(file: WebmFile) {
    && file.headerSize.ReadsToEnd() && !Swallows(file.header) && |file.header| <= 1000
    && var b := file.Bytes();
       var found := Seek(b, file.HeaderEnd(), |b|, DOC_TYPE, |file.header|);
       found.Some? && b[found.value.dataStart..Min(found.value.next, |b|)] == WEBM
  }

  /** The first DocType the reader sees in the header says "webm", or it sees none there and one behind it does. */
  ghost predicate SaysWebm(file: WebmFile) {
    var docType := FirstWithId(View(file.header, file.AfterHeader()), DOC_TYPE, 1001);
    if docType.Some? then docType.value.payload == WEBM else DocTypeIsBehind(file)
  }

  /** The search for a DocType from the start of the header. */
  lemma FindsDocType(file: WebmFile)
    requires file.WellFormed()
    ensures var b := file.Bytes();
            var end := if file.headerSize.ReadsToEnd() then |b| else file.HeaderEnd();
            var found := Seek(b, |EBML| + file.headerSize.bytes, end, DOC_TYPE, 0);
            SaysWebm(file) <==> found.Some? && b[found.value.dataStart..Min(found.value.next, |b|)] == WEBM
  {
    hide ElementAt, WrittenAll, FirstWithId, Reads, Seek, Ends, View, Swallows, WebmFile.Bytes, Element.WellFormed,
      WebmFile.AfterHeader;
    var b := file.Bytes();
    var dataStart := |EBML| + file.headerSize.bytes;
    var end := if file.headerSize.ReadsToEnd() then |b| else file.HeaderEnd();
    var stop := if Swallows(file.header) then |b| else file.HeaderEnd();
    var seen := View(file.header, file.AfterHeader());
    ReadsFileHeader(file);
    WrittenIsRead(b, file.header, dataStart, end, file.AfterHeader());
    SeekFindsFirst(b, seen, dataStart, end, stop, DOC_TYPE, 0);
    if stop + 2 > end {
      NothingLeft(b, stop, end, DOC_TYPE, |seen|);
    } else {
      ViewLength(file.header, file.AfterHeader());
    }
  }

  /** A written file is taken for WebM exactly when its first DocType says "webm". */
  lemma WrittenFileIsWebm(file: WebmFile)
    requires file.WellFormed()
    ensures IsWebm(file.Bytes()) <==> SaysWebm(file)
  {
    hide ElementAt, WrittenAll, Seek, Ends, SaysWebm, WebmFile.Bytes, WebmFile.WellFormed, WebmFile.AfterHeader;
    ReadsFileHeader(file);
    FindsDocType(file);
  }

  lemma NothingLeft(b: seq<byte>, offset: nat, end: nat, id: seq<byte>, skipped: nat)
    requires offset + 2 > end
    ensures Seek(b, offset, end, id, skipped) == None
  {
  }
}
