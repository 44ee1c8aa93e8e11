/**
 WebM elements as they are written, and what the reader makes of a level of them.

 Every element may have its size told in one to eight bytes, or left open. The reader takes an open
 size, and any size of seven or eight bytes, for one that reaches to the end of the file.
 */
module WebmElements {
  import opened Bytes
  import opened Options
  import opened Vints
  import opened Webm

  /** How an element writes its size: the number of payload bytes, or the all-ones value for "unknown". */
  datatype Size = Told(bytes: nat) | Open(bytes: nat) {
    /** The reader does not use the number. */
    predicate ReadsToEnd() {
      Open? || bytes >= 7
    }

    ghost predicate Fits(payloadSize: nat) {
      1 <= bytes <= 8 && (Told? ==> payloadSize < Pow128(bytes) - 1)
    }

    function Value(payloadSize: nat): nat {
      if Told? then payloadSize else Pow128(bytes) - 1
    }
  }

  datatype Element = Element(id: seq<byte>, size: Size, payload: seq<byte>) {
    ghost predicate WellFormed() {
      ValidId(id) && size.Fits(|payload|)
    }

    function Header(): seq<byte> {
      id + EncodeVint(size.Value(|payload|), size.bytes)
    }

    function Written(): seq<byte> {
      Header() + payload
    }
  }

  /** An identifier announces its own length in its first byte (RFC 8794, section 5). */
  ghost predicate ValidId(id: seq<byte>) {
    id != [] && id[0] != 0 && |id| == LeadingZeros(id[0]) + 1
  }

  function WrittenAll(elements: seq<Element>): seq<byte> {
    if elements == [] then [] else elements[0].Written() + WrittenAll(elements[1..])
  }

  ghost predicate AllWellFormed(elements: seq<Element>) {
    forall e :: e in elements ==> e.WellFormed()
  }

  /** Some element of the level reaches to the end of the file for the reader. */
  predicate Swallows(elements: seq<Element>) {
    exists e :: e in elements && e.size.ReadsToEnd()
  }

  // ------------------------------------------------------------------ what the reader sees of a level

  /** An element as the reader sees it. */
  datatype Field = Field(id: seq<byte>, payload: seq<byte>)

  /** What the file itself says: each element with its own payload. */
  function Plain(elements: seq<Element>): seq<Field> {
    if elements == [] then [] else [Field(elements[0].id, elements[0].payload)] + Plain(elements[1..])
  }

  /**
   What the reader sees of elements with the bytes `behind` them up to the end of the file: the first
   one that reaches to the end is seen with all that follows as its payload, and nothing after it.
   */
  function View(elements: seq<Element>, behind: seq<byte>): seq<Field> {
    if elements == [] then [] else
    var e, rest := elements[0], elements[1..];
    if e.size.ReadsToEnd() then [Field(e.id, e.payload + (WrittenAll(rest) + behind))]
    else [Field(e.id, e.payload)] + View(rest, behind)
  }

  lemma {:induction false} ViewIsPlain(elements: seq<Element>, behind: seq<byte>)
    requires !Swallows(elements)
    ensures View(elements, behind) == Plain(elements)
  {
    if elements != [] {
      assert elements[0] in elements && forall e :: e in elements[1..] ==> e in elements;
      ViewIsPlain(elements[1..], behind);
    }
  }

  lemma ReadHeader(b: seq<byte>, offset: nat, id: seq<byte>, value: nat, n: nat)
    requires At(b, offset, id + EncodeVint(value, n))
    requires ValidId(id) && 1 <= n <= 8 && value < Pow128(n)
    ensures var dataStart := offset + |id| + n;
            var size := if n >= 7 || value == Pow128(n) - 1 then |b| - dataStart else value;
            && dataStart <= |b|
            && ElementAt(b, offset) == Some(EbmlElement(id, dataStart, size, dataStart + size))
  {
    hide LeadingZeros, VintAt, EncodeVint, Pow128;
    AtSplit(b, offset, id, EncodeVint(value, n));
    assert b[offset] == b[offset..offset + |id|][0];
    VintRoundTrip(b, offset + |id|, value, n);
  }

  /** A written element is read back up to its payload, or up to the end of the file. */
  lemma ReadWritten(b: seq<byte>, offset: nat, e: Element)
    requires At(b, offset, e.Written()) && e.WellFormed()
    ensures var dataStart := offset + |e.id| + e.size.bytes;
            var next := if e.size.ReadsToEnd() then |b| else dataStart + |e.payload|;
            && dataStart + |e.payload| == offset + |e.Written()| <= |b| && At(b, dataStart, e.payload)
            && ElementAt(b, offset) == Some(EbmlElement(e.id, dataStart, next - dataStart, next))
  {
    hide ElementAt, EncodeVint, Pow128, At;
    AtBounds(b, offset, e.Written());
    AtSplit(b, offset, e.Header(), e.payload);
    ReadHeader(b, offset, e.id, e.size.Value(|e.payload|), e.size.bytes);
  }

  lemma AtWhole(b: seq<byte>)
    ensures At(b, 0, b)
  {
  }

  lemma AtBounds(b: seq<byte>, offset: nat, s: seq<byte>)
    requires At(b, offset, s)
    ensures offset + |s| <= |b|
  {
  }

  /** The bytes up to the end of the file are exactly these. */
  ghost predicate Ends(b: seq<byte>, offset: nat, s: seq<byte>) {
    offset + |s| == |b| && b[offset..] == s
  }

  lemma EndsSplit(b: seq<byte>, offset: nat, s: seq<byte>, t: seq<byte>)
    requires Ends(b, offset, s + t)
    ensures At(b, offset, s) && Ends(b, offset + |s|, t)
  {
    assert b[offset..] == s + t;
    assert b[offset..offset + |s|] == (s + t)[..|s|] == s;
    assert b[offset + |s|..] == (s + t)[|s|..] == t;
  }

  /**
   The fields are read one after the other from `offset` on; each starts before `end`, and the last
   one leads to `stop`.
   */
  ghost predicate Reads(b: seq<byte>, seen: seq<Field>, offset: nat, end: nat, stop: nat)
    decreases |seen|
  {
    if seen == [] then offset == stop else
    var element := ElementAt(b, offset);
    && element.Some? && element.value.id == seen[0].id
    && element.value.dataStart <= end && element.value.next <= |b|
    && b[element.value.dataStart..element.value.next] == seen[0].payload
    && Reads(b, seen[1..], element.value.next, end, stop)
  }

  lemma ReadsCons(b: seq<byte>, f: Field, rest: seq<Field>, offset: nat, end: nat, stop: nat)
    requires var element := ElementAt(b, offset);
             && element.Some? && element.value.id == f.id
             && element.value.dataStart <= end && element.value.next <= |b|
             && b[element.value.dataStart..element.value.next] == f.payload
             && Reads(b, rest, element.value.next, end, stop)
    ensures Reads(b, [f] + rest, offset, end, stop)
  {
    hide ElementAt;
    assert ([f] + rest)[1..] == rest;
  }

  /** Written elements are read back as the reader's view of them. */
  lemma {:induction false} WrittenIsRead(b: seq<byte>, elements: seq<Element>, offset: nat, end: nat, behind: seq<byte>)
    requires Ends(b, offset, WrittenAll(elements) + behind) && AllWellFormed(elements)
    requires offset + |WrittenAll(elements)| <= end
    ensures Reads(b, View(elements, behind), offset, end,
                  if Swallows(elements) then |b| else offset + |WrittenAll(elements)|)
    decreases |elements|
  {
    hide ElementAt, Element.WellFormed, Element.Written, At, Ends, Reads, Swallows;
    if elements == [] {
      NothingIsRead(b, offset, end);
    } else {
      var e, rest := elements[0], elements[1..];
      var dataStart := offset + |e.id| + e.size.bytes;
      assert WrittenAll(elements) + behind == e.Written() + (WrittenAll(rest) + behind);
      EndsSplit(b, offset, e.Written(), WrittenAll(rest) + behind);
      assert e in elements && forall x :: x in rest ==> x in elements;
      ReadWritten(b, offset, e);
      SwallowsFirst(elements);
      if e.size.ReadsToEnd() {
        PayloadToEnd(b, dataStart, e.payload, WrittenAll(rest) + behind);
        NothingIsRead(b, |b|, end);
        ReadsCons(b, Field(e.id, e.payload + (WrittenAll(rest) + behind)), [], offset, end, |b|);
        assert View(elements, behind) == [Field(e.id, e.payload + (WrittenAll(rest) + behind))] + [];
      } else {
        AtIsSlice(b, dataStart, e.payload);
        WrittenIsRead(b, rest, offset + |e.Written()|, end, behind);
        ReadsCons(b, Field(e.id, e.payload), View(rest, behind), offset, end,
                  if Swallows(elements) then |b| else offset + |WrittenAll(elements)|);
      }
    }
  }

  lemma NothingIsRead(b: seq<byte>, offset: nat, end: nat)
    ensures Reads(b, [], offset, end, offset) && !Swallows([])
  {
  }

  lemma SwallowsFirst(elements: seq<Element>)
    requires elements != []
    ensures Swallows(elements) <==> elements[0].size.ReadsToEnd() || Swallows(elements[1..])
  {
    assert elements == [elements[0]] + elements[1..];
    assert elements[0] in elements;
  }

  lemma AtIsSlice(b: seq<byte>, offset: nat, s: seq<byte>)
    requires At(b, offset, s)
    ensures offset + |s| <= |b| && b[offset..offset + |s|] == s
  {
  }

  lemma PayloadToEnd(b: seq<byte>, offset: nat, payload: seq<byte>, behind: seq<byte>)
    requires At(b, offset, payload) && Ends(b, offset + |payload|, behind)
    ensures b[offset..|b|] == payload + behind
  {
    assert b[offset..|b|] == b[offset..offset + |payload|] + b[offset + |payload|..];
  }

  /** A seek passes over fields with other ids, at most a thousand of them. */
  lemma {:induction false} SeekPast(b: seq<byte>, seen: seq<Field>, offset: nat, end: nat, stop: nat,
                                    id: seq<byte>, skipped: nat)
    requires Reads(b, seen, offset, end, stop) && skipped <= 1000
    requires forall f :: f in seen ==> f.id != id
    ensures Seek(b, offset, end, id, skipped) ==
            if skipped + |seen| <= 1000 then Seek(b, stop, end, id, skipped + |seen|) else None
    decreases |seen|
  {
    hide ElementAt;
    if seen != [] {
      assert seen[0] in seen && forall f :: f in seen[1..] ==> f in seen;
      if skipped < 1000 {
        SeekPast(b, seen[1..], ElementAt(b, offset).value.next, end, stop, id, skipped + 1);
      }
    }
  }

  /** The fields from `offset` to the end of the file, unless one of them cannot be read. */
  function SeenFrom(b: seq<byte>, offset: nat): Option<seq<Field>>
    decreases if offset < |b| then |b| - offset else 0
  {
    if offset + 2 > |b| then Some([]) else
    var element := ElementAt(b, offset);
    if element.None? || element.value.next > |b| then None else
    var rest := SeenFrom(b, element.value.next);
    if rest.None? then None
    else Some([Field(element.value.id, b[element.value.dataStart..element.value.next])] + rest.value)
  }

  /** Elements at the end of the file are seen as their view. */
  lemma {:induction false} ViewIsSeen(b: seq<byte>, elements: seq<Element>, offset: nat)
    requires Ends(b, offset, WrittenAll(elements)) && AllWellFormed(elements)
    ensures SeenFrom(b, offset) == Some(View(elements, []))
  {
    hide ElementAt, EncodeVint;
    assert WrittenAll(elements) + [] == WrittenAll(elements);
    WrittenIsRead(b, elements, offset, |b|, []);
    ReadsIsSeen(b, View(elements, []), offset);
  }

  lemma {:induction false} ReadsIsSeen(b: seq<byte>, seen: seq<Field>, offset: nat)
    requires Reads(b, seen, offset, |b|, |b|)
    ensures SeenFrom(b, offset) == Some(seen)
    decreases |seen|
  {
    hide ElementAt;
    if seen != [] {
      ReadsIsSeen(b, seen[1..], ElementAt(b, offset).value.next);
      assert seen == [seen[0]] + seen[1..];
    }
  }

  // ------------------------------------------------------------------ what Info says

  function NoteAll(fields: InfoFields, seen: seq<Field>): InfoFields
    decreases |seen|
  {
    if seen == [] then fields else NoteAll(Note(fields, seen[0].id, seen[0].payload), seen[1..])
  }

  /** Walking over fields notes all of them in order, or gives up after a thousand. */
  lemma {:induction false} InfoWalkNotesAll(b: seq<byte>, seen: seq<Field>, offset: nat, end: nat, stop: nat,
                                            skipped: nat, fields: InfoFields)
    requires Reads(b, seen, offset, end, stop) && skipped <= 1000
    ensures InfoWalk(b, offset, end, skipped, fields) ==
            if skipped + |seen| <= 1000 then InfoWalk(b, stop, end, skipped + |seen|, NoteAll(fields, seen))
            else None
    decreases |seen|
  {
    hide ElementAt, Note;
    if seen != [] && skipped < 1000 {
      InfoWalkNotesAll(b, seen[1..], ElementAt(b, offset).value.next, end, stop, skipped + 1,
                       Note(fields, seen[0].id, seen[0].payload));
    }
  }

  /** Walking to the end of the file notes whatever is seen there. */
  lemma {:induction false} InfoWalkNotesSeen(b: seq<byte>, offset: nat, skipped: nat, fields: InfoFields)
    requires skipped <= 1000
    ensures InfoWalk(b, offset, |b|, skipped, fields) ==
            var seen := SeenFrom(b, offset);
            if seen.Some? && skipped + |seen.value| <= 1000 then Some(NoteAll(fields, seen.value)) else None
    decreases if offset < |b| then |b| - offset else 0
  {
    hide Note, Webm.ElementAt;
    var element := ElementAt(b, offset);
    if offset + 2 <= |b| && element.Some? && element.value.next <= |b| && skipped < 1000 {
      var payload := b[element.value.dataStart..element.value.next];
      ElementIsAhead(b, offset);
      InfoWalkNotesSeen(b, element.value.next, skipped + 1, Note(fields, element.value.id, payload));
    }
  }

  lemma ElementIsAhead(b: seq<byte>, offset: nat)
    requires ElementAt(b, offset).Some?
    ensures ElementAt(b, offset).value.next >= offset + 2
  {
  }

  /** The clock rate in force: the last TimecodeScale of a usable size, else the default. */
  function LastScale(seen: seq<Field>, default: nat): nat {
    if seen == [] then default else
    var e := seen[|seen| - 1];
    if IsScale(e.id, |e.payload|) then DecodeBE(e.payload) else LastScale(seen[..|seen| - 1], default)
  }

  /** The payload of the last Duration of a usable size. */
  function LastDuration(seen: seq<Field>, default: Option<seq<byte>>): Option<seq<byte>> {
    if seen == [] then default else
    var e := seen[|seen| - 1];
    if IsDuration(e.id, |e.payload|) then Some(e.payload) else LastDuration(seen[..|seen| - 1], default)
  }

  /** A TimecodeScale as the format knows it: an unsigned integer of one to eight bytes. */
  predicate IsDeclaredScale(e: Field) {
    e.id == TIMECODE_SCALE && 1 <= |e.payload| <= 8
  }

  /** The clock rate the file declares: its last TimecodeScale, else the default. */
  function DeclaredScale(seen: seq<Field>, default: nat): nat {
    if seen == [] then default else
    var e := seen[|seen| - 1];
    if IsDeclaredScale(e) then DecodeBE(e.payload) else DeclaredScale(seen[..|seen| - 1], default)
  }

  /** The last TimecodeScale, if its size of five to seven bytes is one the reader has no branch for. */
  function OverlookedScale(seen: seq<Field>): Option<Field> {
    if seen == [] then None else
    var e := seen[|seen| - 1];
    if !IsDeclaredScale(e) then OverlookedScale(seen[..|seen| - 1])
    else if 5 <= |e.payload| <= 7 then Some(e) else None
  }

  /** A Duration as the format knows it: a float of four or eight bytes. */
  predicate IsDeclaredDuration(e: Field) {
    e.id == DURATION && (|e.payload| == 4 || |e.payload| == 8)
  }

  /** The Duration the file declares: its last one. */
  function DeclaredDuration(seen: seq<Field>, default: Option<seq<byte>>): Option<seq<byte>> {
    if seen == [] then default else
    var e := seen[|seen| - 1];
    if IsDeclaredDuration(e) then Some(e.payload) else DeclaredDuration(seen[..|seen| - 1], default)
  }

  /** Every declared Duration is read, in both of its sizes. */
  lemma {:induction false} DurationIsReadExactly(seen: seq<Field>, default: Option<seq<byte>>)
    ensures LastDuration(seen, default) == DeclaredDuration(seen, default)
    decreases |seen|
  {
    if seen != [] {
      DurationIsReadExactly(seen[..|seen| - 1], default);
    }
  }

  /** The rate in force is the declared one unless an overlooked scale declares another. */
  lemma {:induction false} ScaleIsReadExactly(seen: seq<Field>, default: nat)
    ensures DeclaredScale(seen, default) ==
            if OverlookedScale(seen).Some? then DecodeBE(OverlookedScale(seen).value.payload)
            else LastScale(seen, default)
    decreases |seen|
  {
    hide DecodeBE;
    if seen != [] {
      ScaleIsReadExactly(seen[..|seen| - 1], default);
    }
  }

  lemma {:induction false} NoteAllSnoc(fields: InfoFields, seen: seq<Field>, e: Field)
    ensures NoteAll(fields, seen + [e]) == Note(NoteAll(fields, seen), e.id, e.payload)
    decreases |seen|
  {
    hide Note;
    if seen == [] {
      assert [] + [e] == [e];
      assert NoteAll(Note(fields, e.id, e.payload), [e][1..]) == Note(fields, e.id, e.payload);
    } else {
      assert (seen + [e])[1..] == seen[1..] + [e];
      NoteAllSnoc(Note(fields, seen[0].id, seen[0].payload), seen[1..], e);
    }
  }

  /** Reading Info front to back keeps the last word on each of the two fields. */
  lemma {:induction false} NoteAllKeepsLast(fields: InfoFields, seen: seq<Field>)
    ensures NoteAll(fields, seen) ==
            InfoFields(LastScale(seen, fields.scale), LastDuration(seen, fields.duration))
    decreases |seen|
  {
    hide DecodeBE;
    if seen != [] {
      var front, e := seen[..|seen| - 1], seen[|seen| - 1];
      assert seen == front + [e];
      NoteAllSnoc(fields, front, e);
      NoteAllKeepsLast(fields, front);
    }
  }

  function ScalesOf(seen: seq<Field>): seq<Field> {
    if seen == [] then [] else
    var e := seen[|seen| - 1];
    ScalesOf(seen[..|seen| - 1]) + if IsScale(e.id, |e.payload|) then [e] else []
  }

  function DurationsOf(seen: seq<Field>): seq<Field> {
    if seen == [] then [] else
    var e := seen[|seen| - 1];
    DurationsOf(seen[..|seen| - 1]) + if IsDuration(e.id, |e.payload|) then [e] else []
  }

  lemma {:induction false} LastScaleIsSelected(seen: seq<Field>, scale: nat)
    ensures LastScale(seen, scale) ==
            if ScalesOf(seen) == [] then scale else DecodeBE(ScalesOf(seen)[|ScalesOf(seen)| - 1].payload)
    decreases |seen|
  {
    hide DecodeBE, IsScale;
    if seen != [] {
      LastScaleIsSelected(seen[..|seen| - 1], scale);
    }
  }

  lemma {:induction false} LastDurationIsSelected(seen: seq<Field>, duration: Option<seq<byte>>)
    ensures LastDuration(seen, duration) ==
            if DurationsOf(seen) == [] then duration
            else Some(DurationsOf(seen)[|DurationsOf(seen)| - 1].payload)
    decreases |seen|
  {
    hide IsDuration;
    if seen != [] {
      LastDurationIsSelected(seen[..|seen| - 1], duration);
    }
  }

  /** How scales and durations are interleaved, and what stands between them, does not matter. */
  lemma InfoOrderIsIrrelevant(xs: seq<Field>, ys: seq<Field>, fields: InfoFields)
    requires ScalesOf(xs) == ScalesOf(ys) && DurationsOf(xs) == DurationsOf(ys)
    ensures NoteAll(fields, xs) == NoteAll(fields, ys)
  {
    hide NoteAll, LastScale, LastDuration, ScalesOf, DurationsOf, DecodeBE;
    NoteAllKeepsLast(fields, xs);
    NoteAllKeepsLast(fields, ys);
    LastScaleIsSelected(xs, fields.scale);
    LastScaleIsSelected(ys, fields.scale);
    LastDurationIsSelected(xs, fields.duration);
    LastDurationIsSelected(ys, fields.duration);
  }
}
