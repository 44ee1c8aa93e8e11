# Email Chat Pro: verified models

This project models the parts of the chat application that hold real algorithms or state machines,
and proves what they do for every input, every run or every interleaving. `dafny verify dfyconfig.toml`
checks all of it.

## What is modelled

**Container headers** (`Bytes`, `IsoBmff`, `Vints`, `Webm`, `WebmElements`, `WebmFiles`, `Avi`,
`Jpeg`, `VideoUpload`, `TooLongFiles`).
The hand-written readers over an uploaded buffer. Each source loop is a method proved equal, on every
buffer, to a recursive walk; the walk is then compared with an independent tree of the format (ISO/IEC
14496-12, sections 4.2 and 8.2.2; RFC 8794, sections 4, 5 and 6.2; RFC 9559, section 5.1.2; RIFF
chunks; ITU-T T.81, Annex B): writing any well-formed tree and walking the bytes finds the field the
tree says. The walks terminate on the bytes left, without help from the guard counters. The upload
decision is stated on the written fields, and what is read is compared with what the file declares.

**Attachment cache** (`FetchSlots`, `AttachmentCache`, `CacheHits`, `AttachmentClient`,
`StrandedUrls`, `FetchIdentity`). The semaphore with its waiter queue, and the per-user URL cache with shared fetches, eviction and session
changes, as transition systems with one step per stretch between awaits. The classes hold the module
variables; their methods are the stretches and are proved to be the steps. `evicted`, `homes`, `epoch`
and the numbering of maps and flights are history: they let the theorems speak about what was evicted,
where a URL was inserted and which session a fetch belongs to, and no branch reads them. `FetchIdentity`
adds the stored token and the moment a request is sent, after its wait for a slot.

**Contacts, chats and messages** (`ContactTables`, `ContactProtocol`, `ContactRefinement`,
`ChatServer`, `ChatRuns`, `ChatDatabase`, `PostProtocol`, `ReadProtocol`). Contact requests, posts and
read marks, once with every call cut at its awaits and once with service calls atomic, the two related
by a refinement; uploads with service calls atomic. Tables are sequences whose positions are the ids; the unique
and check constraints of the migrations are enforced by the store, and each transaction is one step.

**Presence** (`Presence`). Sockets of users under connects, lookups that answer later, joins and
disconnects. `clients` and `log` are history.

**Client caches** (`Paging`, `HistoryCache`, `ConversationList`, `QueryCache`). What the server sends
as pages, how the client walks them, and how cached pages and the conversation list follow the server
when messages are pushed.

**Verification tokens** (`Verification`, `VerificationProtocol`) and **user search** (`LikeSearch`).
Tokens are fresh, their hash is an injective constructor; the calls are modelled as atomic and cut at
their awaits, where a save writes the whole row a call has loaded. LIKE is read as section 9.7.1 of
the PostgreSQL documentation says.

## Where the code is narrower than its comments

The model follows the code. Each of these has a theorem with the exact condition.

- A cached object URL is revoked by eviction and by a session change whatever its consumer count, and
  never by its last release, although the header of `attachment-cache.ts` (lines 22-23) says the
  opposite: `AttachmentCache.RevokedExactly`, with a run in `StrandedUrls.UsedUrlIsRevoked`. Some URLs
  are never revoked at all: `StrandedUrls.NeverRevokedExactly`, with a run in `StrandedUrls.UrlGetsStranded`.
- A request carries the token of the moment it is sent. A call that waits while another user signs in
  and out again returns what was requested as that user: `FetchIdentity.OnlyLateAnswersAreForeign`, with a
  run in `FetchIdentity.ForeignAnswerIsReached`. What is cached is not affected while token and session
  change together: `FetchIdentity.VisibleAreRequestedAsTheUser`.
- The comment on `acquireAfterFlight` (lines 192-196) lets a caller of a failed shared fetch fall back
  to its own; the `await pending` at line 163 rethrows first: `AttachmentCache.JoinersFailWithTheFlight`,
  with a run in `AttachmentCache.JoinerFailsWithoutFallback`.
- An acquisition between a release and the resumption of the woken waiter passes the cap of four
  fetches: `FetchSlots.CapFailsOnlyByOvertaking`, with a run in `FetchSlots.FiveAtOnce`.
- `video-file.ts` (lines 24-27) promises that the five-minute limit cannot be bypassed. A file that
  declares more is accepted exactly when what is read is not what is declared, and tells less. In MP4
  and MOV an `mvhd` at the top level is read, although the header (lines 12-13) wants the one inside
  `moov`: `IsoBmff.DeclaredIsReadExactly`, `VideoUpload.IsoAcceptsTooLongExactly`. In AVI an `avih` at the
  top level is read, although the header (lines 17-18) wants the one inside `hdrl`:
  `Avi.DeclaredIsReadExactly`, `VideoUpload.AviAcceptsTooLongExactly`. In WebM a last TimecodeScale of 5
  to 7 bytes is overlooked, and an Info whose size takes 7 or 8 bytes or is left open, or with such an
  element, is read on to the end of the file: `WebmFiles.DurationIsDeclaredExactly`,
  `VideoUpload.WebmAcceptsTooLongExactly`. `TooLongFiles` has accepted files of every kind, hours long. A
  file with a zero TimecodeScale has duration 0 and is accepted whatever Duration it declares; it is the
  only accepted file without a positive duration: `VideoUpload.AcceptedDuration`,
  `TooLongFiles.ZeroScaleIsAccepted`.
- The fields of `mvhd` are bounded by the buffer, not by their box, so the bytes behind a short box
  take part: `IsoBmff.MovieTimeIsLocalExactly`. The guards count after a box was looked at, so 10,001
  boxes and 1,001 elements of a level are looked at, and an Info of more than 1,000 elements has no
  duration; the walk theorems state these limits exactly.
- Between awaits accepting a request is not final: `ContactProtocol.AcceptanceIsFinalExactly`, with a
  run in `ContactProtocol.AcceptanceCanBeLost`. With calls atomic it is: `ChatRuns.NothingIsTakenBack`.
- One upload can be shown by two messages, and is then served to the second chat only:
  `PostProtocol.UploadsAreShownOnceExactly`, `PostProtocol.StaleCommitMovesTheLink`, with a run in
  `PostProtocol.OneUploadInTwoChats`. With calls atomic it cannot: `ChatRuns.AttachmentsStayBetweenContacts`.
- `markRead` promises the ids that were actually marked (`messages.service.ts`, lines 326-327); it looks
  them up before it marks: `ReadProtocol.ReportsWhatItMarksExactly`, `ReadProtocol.LateMessageIsNotReported`.
- A verified account can become unverified when a call saves the row it had loaded before:
  `VerificationProtocol.VerificationIsFinalExactly`, with a run in
  `VerificationProtocol.VerificationCanBeLost`. With calls atomic it cannot: `Verification.VerifiedForGood`.
- A verification token is accepted by every call that looks it up before the first of them saves:
  `VerificationProtocol.LookupsDoNotExclude`, with a run in `VerificationProtocol.TokenIsAcceptedTwice`; by
  none afterwards: `VerificationProtocol.UsedIsDead`.
- A socket that closes during its handshake lookup leaves its user online for good:
  `Presence.OnlineExactly`, `Presence.ClosingDuringLookupHauntsForever`.
- `prependMessageToHistory` promises to leave deeper pages untouched, but `applyIncomingMessage`
  prepends to every cached page of the chat: `HistoryCache.DeeperPagesGoStale`. In the infinite list
  the message pushed off a full first page is shown nowhere: `HistoryCache.InfiniteListDropsTheBoundary`.
- The comparator of the conversation list contradicts itself on ties:
  `ConversationList.ComparatorIsConsistentExactlyOffTies`.

## Model

| member | source | states |
|---|---|---|
| `IsoBmff.ReadIsoBox` | apps/backend/src/modules/files/video-file.ts:110-125 | a box header is read only when it is complete and its data lies inside the buffer; the next box starts beyond this one |
| `IsoBmff.FindMvhd` | apps/backend/src/modules/files/video-file.ts:128-145 | the nested loops, with their guard, compute the recursive walk that the box-tree theorems are about, on every buffer |
| `IsoBmff.OverrunEndsTheWalk` | apps/backend/src/modules/files/video-file.ts:128-145 | on any bytes: a box that reaches beyond its parent ends the walk with nothing |
| `IsoBmff.ReadIsoBmffDuration` | apps/backend/src/modules/files/video-file.ts:149-175 | the duration read is that of the first `mvhd` the walk finds, on every buffer |
| `IsoBmff.DurationIsPositive` | apps/backend/src/modules/files/video-file.ts:149-175 | on any bytes, a duration that is read is positive |
| `IsoBmff.ReadHeader` | apps/backend/src/modules/files/video-file.ts:110-125 | each of the three size encodings (32-bit, 64-bit, zero for "to the end of file") is read back as written |
| `IsoBmff.SerializedIsCarried` | apps/backend/src/modules/files/video-file.ts:110-145 | every box of a written forest, at every depth, is read back where it was written |
| `IsoBmff.WalkFindsFirst` | apps/backend/src/modules/files/video-file.ts:128-145 | the walk finds the first `mvhd` in pre-order, descending only into `moov`, exactly up to the guard of 10,001 boxes a level |
| `IsoBmff.MvhdBoxesAreInPlace` | apps/backend/src/modules/files/video-file.ts:128-145 | each `mvhd` the tree search reports lies at the reported position with its payload |
| `IsoBmff.ReadWrittenMovieHeader` | apps/backend/src/modules/files/video-file.ts:152-174 | both versions of the movie header are read back; refused exactly when timescale or duration is zero or the duration is all ones |
| `IsoBmff.OwnFields` | apps/backend/src/modules/files/video-file.ts:152-174 | a payload that holds both fields tells them, unless they are unusable |
| `IsoBmff.MovieTimeIsLocalExactly` | apps/backend/src/modules/files/video-file.ts:149-175 | what is read is settled by the `mvhd` payload alone iff it holds both fields, or a zero timescale; the bytes behind a shorter payload decide otherwise |
| `IsoBmff.AnyFileDuration` | apps/backend/src/modules/files/video-file.ts:128-175 | parse-of-serialize for every well-formed forest: the duration is read behind the head of the first `mvhd`, from its own payload whenever that settles it |
| `IsoBmff.WrittenFileDuration` | apps/backend/src/modules/files/video-file.ts:128-175 | parse-of-serialize for whole files: with a complete header in the first `mvhd`, the duration is the written one, or none exactly when it is unusable |
| `IsoBmff.DeclaredIsReadExactly` | apps/backend/src/modules/files/video-file.ts:128-145 | the `mvhd` that is read is the declared one, the first inside a `moov`, iff none stands at the top level before it and the guards reach it |
| `IsoBmff.DeclaredTimeIsRead` | apps/backend/src/modules/files/video-file.ts:12-13 | under that condition a declared time is the one that is read |
| `Vints.LeadingZeroBits` | apps/backend/src/modules/files/video-file.ts:183-190 | the bit loop counts the zero bits above the highest set bit |
| `Vints.MarkerLength` | apps/backend/src/modules/files/video-file.ts:197-201 | the marker loop finds the announced length, 9 when there is no marker bit |
| `Vints.ReadVintSize` | apps/backend/src/modules/files/video-file.ts:197-209 | the byte loop computes the number the bytes spell minus its marker bit, or nothing exactly when it is truncated |
| `Vints.MarkerBelow` | apps/backend/src/modules/files/video-file.ts:197-209 | a byte string announces its own length iff the number it spells has its top bit exactly at the marker position |
| `Vints.VintRoundTrip` | apps/backend/src/modules/files/video-file.ts:197-209 | write-then-read identity for every length from 1 to 8 |
| `Vints.VintReadIsWritten` | apps/backend/src/modules/files/video-file.ts:197-209 | read-then-write identity: whatever is read is what writing the value at that length produces |
| `Webm.ReadEbmlElement` | apps/backend/src/modules/files/video-file.ts:226-240 | identifier, size and data range of an element; unknown sizes reach to the end of the buffer |
| `Webm.DetectWebm` | apps/backend/src/modules/files/video-file.ts:251-274 | true iff the first DocType in the EBML header, within the guard, is "webm" |
| `Webm.WebmSaysSo` | apps/backend/src/modules/files/video-file.ts:251-274 | on any bytes: what is taken for WebM starts with an EBML header and has a DocType "webm" behind it |
| `Webm.ReadWebmDuration` | apps/backend/src/modules/files/video-file.ts:276-293 | the chain header, Segment, Info yields the duration function on every buffer |
| `Webm.ReadSegmentDuration` | apps/backend/src/modules/files/video-file.ts:295-312 | the loop goes to the first Info of the Segment and to no later one |
| `Webm.ReadInfoDuration` | apps/backend/src/modules/files/video-file.ts:314-347 | the loop keeps scale and duration as the walk over Info does, IEEE decoding being any function |
| `Webm.DurationSign` | apps/backend/src/modules/files/video-file.ts:331-346 | on any bytes the duration is never negative, and zero iff the scale read is zero |
| `WebmElements.ReadHeader` | apps/backend/src/modules/files/video-file.ts:212-240 | a written header is read back; its size counts as unknown exactly when all value bits are set or it takes 7 or 8 bytes |
| `WebmElements.WrittenIsRead` | apps/backend/src/modules/files/video-file.ts:226-240 | a run of written elements is read back one by one; the first whose size takes 7 or 8 bytes, or is left open, is read with everything behind it and is the last |
| `WebmElements.SeekPast` | apps/backend/src/modules/files/video-file.ts:283-291 | a walk passes exactly up to 1000 other elements and gives up beyond that |
| `WebmElements.InfoWalkNotesAll` | apps/backend/src/modules/files/video-file.ts:314-343 | walking over fields notes all of them in order, and gives up beyond 1000 |
| `WebmElements.NoteAllKeepsLast` | apps/backend/src/modules/files/video-file.ts:328-341 | the last usable TimecodeScale and the last usable Duration count |
| `WebmElements.ScaleIsReadExactly` | apps/backend/src/modules/files/video-file.ts:331-336 | the rate in force is the declared one, except that a last TimecodeScale of 5 to 7 bytes is overlooked |
| `WebmElements.DurationIsReadExactly` | apps/backend/src/modules/files/video-file.ts:337-341 | the Duration in force is the last one of four or eight bytes, the two sizes the format declares |
| `WebmElements.InfoWalkNotesSeen` | apps/backend/src/modules/files/video-file.ts:314-343 | a walk that goes on to the end of the file notes whatever fields stand there, or nothing when one is cut off or there are too many |
| `WebmFiles.FindsFields` | apps/backend/src/modules/files/video-file.ts:276-343 | the walks lead to exactly the fields the reader sees of the tree, and nowhere when the header or an element before Info reaches to the end of the file or a level is too long |
| `WebmFiles.WideInfoTakesIn` | apps/backend/src/modules/files/video-file.ts:212-240 | an Info, or an element of it, that reaches to the end of the file is seen with the elements behind it |
| `WebmFiles.LaterFieldsWin` | apps/backend/src/modules/files/video-file.ts:328-341 | fields behind Info overrule those in it as far as they tell anything |
| `WebmFiles.DurationIsDeclaredExactly` | apps/backend/src/modules/files/video-file.ts:276-347 | for every written file: the duration read is the declared one iff Info is reached and, when it ends where it says, no scale is overlooked that says something else; when it runs on, the last fields of the file tell as many nanoseconds |
| `WebmElements.InfoOrderIsIrrelevant` | apps/backend/src/modules/files/video-file.ts:328-341 | the interleaving of scales and durations, and whatever else stands between, does not matter |
| `WebmFiles.WrittenFileDuration` | apps/backend/src/modules/files/video-file.ts:276-347 | parse-of-serialize for whole files, every element with a size of 1 to 8 bytes or an open one: last Duration times last TimecodeScale of what is seen as Info, over 10^9 |
| `WebmFiles.SeekFindsFirst` | apps/backend/src/modules/files/video-file.ts:251-274 | a walk finds the first field with an id and its payload within the guard, and goes on behind the fields otherwise |
| `WebmFiles.WrittenFileIsWebm` | apps/backend/src/modules/files/video-file.ts:251-274 | a written file is taken for WebM iff the first DocType of what is seen as its header is "webm"; behind a header that reaches to the end of the file the search goes on |
| `Avi.ParseHdrl` | apps/backend/src/modules/files/video-file.ts:388-405 | the loop over `hdrl` computes the recursive walk, on every buffer |
| `Avi.ReadAviDuration` | apps/backend/src/modules/files/video-file.ts:361-386 | the loop over RIFF chunks computes the recursive walk, on every buffer |
| `Avi.DurationIsPositive` | apps/backend/src/modules/files/video-file.ts:361-414 | on any bytes, a duration that is read is positive |
| `Avi.ReadChunk` | apps/backend/src/modules/files/video-file.ts:364-384 | a written chunk is read back and the walk's next stop is its padded end, for odd and even sizes |
| `Avi.HdrlWalkFindsFirst` | apps/backend/src/modules/files/video-file.ts:388-405 | the walk over a written list finds its first usable `avih` |
| `Avi.ChunkTellsFirst` | apps/backend/src/modules/files/video-file.ts:361-386 | a top-level chunk tells the first usable frames of its own subtree |
| `Avi.WalkFindsFirst` | apps/backend/src/modules/files/video-file.ts:361-386 | the walk over a written stream finds its first usable `avih` in stream order, exactly up to the guard and the first empty chunk |
| `Avi.WrittenFileDuration` | apps/backend/src/modules/files/video-file.ts:353-414 | parse-of-serialize for whole files: microseconds per frame times frames over 10^6 |
| `Avi.WalkSpotHolds` | apps/backend/src/modules/files/video-file.ts:361-405 | the frames that are read are those of the block at which the walk stops |
| `Avi.DeclaredSpotHolds` | apps/backend/src/modules/files/video-file.ts:17-18 | the declared frames are those of the first usable block inside an `hdrl` list |
| `Avi.DeclaredIsReadExactly` | apps/backend/src/modules/files/video-file.ts:361-405 | the block the walk stops at is the declared one iff no usable `avih` stands at the top level before it and no empty chunk or guard stops the walk first |
| `Avi.SignatureIsChecked` | apps/backend/src/modules/files/video-file.ts:353-359 | on any bytes: an AVI is what starts with RIFF, a size and `AVI ` |
| `Jpeg.InspectJpeg` | apps/backend/src/modules/files/image-file.ts:81-125 | the marker loop computes the recursive walk; every read is in bounds and it terminates |
| `Jpeg.MarkersAreToldApart` | apps/backend/src/modules/files/image-file.ts:97-115 | the tests on the marker byte single out exactly the frame headers, the bare markers and the sized segments of Table B.1 |
| `Jpeg.ReportedSizeIsAFrame` | apps/backend/src/modules/files/image-file.ts:81-125 | on any bytes a reported size is non-zero and stands behind one of the thirteen frame header markers |
| `Jpeg.SkipSegments` | apps/backend/src/modules/files/image-file.ts:87-122 | written segments are stepped over whole, so payload bytes are never taken for markers |
| `Jpeg.ShortLengthEnds` | apps/backend/src/modules/files/image-file.ts:87-122 | on any bytes: a segment too short for its own length field ends the walk |
| `Jpeg.WrittenImageSize` | apps/backend/src/modules/files/image-file.ts:81-125 | the size of a written image is that of its frame header, and none when the scan comes first or a side is zero |
| `VideoUpload.DetectVideoFormat` | apps/backend/src/modules/files/video-file.ts:54-62 | `ftyp` first, then EBML, then RIFF; what the three tests mean for written files is in `FtypComesFirst`, `WebmFiles.WrittenFileIsWebm` and `Avi.WrittenFileDuration` |
| `VideoUpload.ReadVideoDuration` | apps/backend/src/modules/files/video-file.ts:68-78 | each format is read by its own walk, whose meaning for written files the gate theorems state |
| `VideoUpload.FilesService.UploadVideo` | apps/backend/src/modules/files/files.service.ts:97-153 | the guards in order, their errors, and the row inserted exactly for an accepted file |
| `VideoUpload.FtypComesFirst` | apps/backend/src/modules/files/video-file.ts:54-58 | a file whose first box is `ftyp`, in any size form, is taken for ISO |
| `VideoUpload.IsoGate` | apps/backend/src/modules/files/files.service.ts:112-132 | every written file taken for ISO passes iff the time in its first `mvhd` is usable and duration <= 300 * timescale |
| `VideoUpload.IsoHeaderGate` | apps/backend/src/modules/files/files.service.ts:112-132 | the same on the written header fields: neither is zero, the duration is not all ones and at most 300 * timescale |
| `VideoUpload.WebmGate` | apps/backend/src/modules/files/files.service.ts:112-132 | every written WebM passes iff the walks reach Info and what is seen of it tells at most 300 seconds |
| `VideoUpload.AviGate` | apps/backend/src/modules/files/files.service.ts:112-132 | a written AVI passes iff its first usable `avih` tells at most 300 seconds |
| `VideoUpload.AcceptedDuration` | apps/backend/src/modules/files/files.service.ts:120-132 | whatever the bytes, an accepted file has 0 to 300 seconds, and zero only from a zero TimecodeScale |
| `VideoUpload.IsoAcceptsTooLongExactly` | apps/backend/src/modules/files/video-file.ts:128-175 | an MP4 or MOV that declares more than 300 seconds is accepted iff another `mvhd` is read in place of the declared one and tells at most 300 |
| `VideoUpload.WebmAcceptsTooLongExactly` | apps/backend/src/modules/files/video-file.ts:276-347 | a WebM that declares more than 300 seconds is accepted iff Info is reached, what is seen of it tells at most 300, and either Info runs on or its last TimecodeScale is overlooked |
| `VideoUpload.AviAcceptsTooLongExactly` | apps/backend/src/modules/files/video-file.ts:361-414 | an AVI that declares more than 300 seconds is accepted iff another `avih` is read than the declared one and tells at most 300 |
| `TooLongFiles.DurationDecides` | apps/backend/src/modules/files/video-file.ts:314-347 | small files with one Duration: with four or eight bytes that spell a positive number it decides, up to 300,000 ticks are accepted; any other has no duration |
| `TooLongFiles.StrayHeaderDecides` | apps/backend/src/modules/files/video-file.ts:128-145 | files with an `mvhd` before `moov`: what is declared is the one inside, what decides is the stray one |
| `TooLongFiles.StrayFramesDecide` | apps/backend/src/modules/files/video-file.ts:361-386 | files with an `avih` before the `hdrl` list: what is declared is the one inside, what decides is the stray one |
| `TooLongFiles.WideInfoIsOverruled` | apps/backend/src/modules/files/video-file.ts:212-240 | files whose Info has a size of eight bytes: what is declared is the Duration in it, what decides is the one behind it |
| `TooLongFiles.LongFileIsAccepted` | apps/backend/src/modules/files/video-file.ts:331-336 | with ticks of one second told in five bytes, up to 300,000 declared seconds are accepted and no more |
| `TooLongFiles.ZeroScaleIsAccepted` | apps/backend/src/modules/files/video-file.ts:331-346 | a WebM with a zero TimecodeScale is accepted whatever finite positive duration it declares |
| `FetchSlots.Semaphore.AcquireSlot` | apps/frontend/src/lib/api/attachment-cache.ts:81-87 | the call up to its await: takes a slot below the cap, queues otherwise |
| `FetchSlots.Semaphore.ResumeAcquire` | apps/frontend/src/lib/api/attachment-cache.ts:83-86 | a woken call counts itself only when it resumes |
| `FetchSlots.Semaphore.ReleaseSlot` | apps/frontend/src/lib/api/attachment-cache.ts:87-93 | a second release of the same slot does nothing; otherwise the first waiter is woken |
| `FetchSlots.ReachableStates` | apps/frontend/src/lib/api/attachment-cache.ts:69-94 | in every run the counter equals the unreleased holders, and waiters mean active plus woken >= 4 |
| `FetchSlots.WokenInOrder` | apps/frontend/src/lib/api/attachment-cache.ts:81-94 | no wakeup is lost, repeated or out of turn: woken plus waiting is who queued, in order |
| `FetchSlots.EverybodyIsServed` | apps/frontend/src/lib/api/attachment-cache.ts:81-94 | without new arrivals every schedule ends, and only with everybody served |
| `FetchSlots.CapHoldsWithoutOvertaking` | apps/frontend/src/lib/api/attachment-cache.ts:81-94 | unless an acquisition overtakes a woken call, never more than four fetches |
| `FetchSlots.CapFailsOnlyByOvertaking` | apps/frontend/src/lib/api/attachment-cache.ts:81-94 | a step makes more than four fetches possible iff it is an acquisition that overtakes |
| `FetchSlots.FiveAtOnce` | apps/frontend/src/lib/api/attachment-cache.ts:81-94 | a run in which five fetches are active |
| `AttachmentCache.StepKeepsInv` | apps/frontend/src/lib/api/attachment-cache.ts:106-229 | every stretch between awaits keeps the invariant of maps, sessions, flights and URLs |
| `AttachmentCache.ReachableCache` | apps/frontend/src/lib/api/attachment-cache.ts:106-229 | in every interleaving: only the current user has entries, at most 100; visible entries work and were fetched for this user and session; survivors are newer than everything evicted |
| `AttachmentCache.AnswersAreSafe` | apps/frontend/src/lib/api/attachment-cache.ts:134-211 | no call returns a revoked URL, nor a shared one fetched for another user or attachment |
| `AttachmentCache.RevokedExactly` | apps/frontend/src/lib/api/attachment-cache.ts:106-229 | exactly what a step revokes: a dropped session's URLs, or the oldest of a full map; never by release |
| `AttachmentCache.StaleFetchStaysOutside` | apps/frontend/src/lib/api/attachment-cache.ts:161-189 | a blob whose session ended during the fetch never shows, even after the same user signs in again |
| `AttachmentCache.RequestsShareFlights` | apps/frontend/src/lib/api/attachment-cache.ts:147-160 | a second request for a pending attachment opens no fetch, and joins one of the same user and attachment |
| `AttachmentCache.JoinersFailWithTheFlight` | apps/frontend/src/lib/api/attachment-cache.ts:161-165 | a call that joined a flight ends without a URL iff the flight failed |
| `AttachmentCache.JoinerFailsWithoutFallback` | apps/frontend/src/lib/api/attachment-cache.ts:161-165 | a run in which the second of two calls ends so, without a fetch of its own |
| `CacheHits.InsertedIsVisible` | apps/frontend/src/lib/api/attachment-cache.ts:181-189 | an insertion answers with a fresh URL, leaves it in the map with one consumer, and removes the oldest of a hundred others |
| `CacheHits.FoundUntilDisplaced` | apps/frontend/src/lib/api/attachment-cache.ts:118-153 | a step leaves a cached attachment under its URL iff it neither changes the session nor replaces it nor evicts it as the oldest of a hundred |
| `CacheHits.InsertedIsReturned` | apps/frontend/src/lib/api/attachment-cache.ts:134-189 | from its insertion on every fetch of an attachment is answered with that URL, over every run that does none of the three |
| `CacheHits.HitsAreAnswered` | apps/frontend/src/lib/api/attachment-cache.ts:148-152 | a hit is answered at once with the URL of the entry; a miss is not answered |
| `CacheHits.MissesWait` | apps/frontend/src/lib/api/attachment-cache.ts:134-169 | a miss waits for its own fetch without a session, for the flight under way, or for a new flight |
| `CacheHits.ConsumersAreCounted` | apps/frontend/src/lib/api/attachment-cache.ts:148-152 | an entry gains a consumer with each answer of its URL and loses one with each release, and nothing else changes it |
| `StrandedUrls.StrandedForGood` | apps/frontend/src/lib/api/attachment-cache.ts:166-229 | an inserted URL in no map, or in one neither current nor awaited, is never revoked and never found again, in any continuation |
| `StrandedUrls.NeverRevokedExactly` | apps/frontend/src/lib/api/attachment-cache.ts:106-229 | exactly the stranded URLs are never revoked, for maps that are current or awaited by no call |
| `StrandedUrls.ReplacedIsStranded` | apps/frontend/src/lib/api/attachment-cache.ts:183-189 | a second flight of the same attachment strands the URL it replaces |
| `StrandedUrls.LateInsertIsStranded` | apps/frontend/src/lib/api/attachment-cache.ts:166-189 | a URL inserted into a dropped map is stranded at once, unless another call will insert there |
| `StrandedUrls.UrlGetsStranded` | apps/frontend/src/lib/api/attachment-cache.ts:118-189 | a run from the loaded module that strands a URL: the user changes and changes back while an attachment is fetched |
| `StrandedUrls.UsedUrlIsRevoked` | apps/frontend/src/lib/api/attachment-cache.ts:101-124 | a run in which a URL with one consumer is revoked by signing out |
| `FetchIdentity.NoneForeignExactly` | apps/frontend/src/lib/api/client.ts:69-75 | a move makes a flight of the session carry another user's token exactly when it sends one while the token is not the session user's |
| `FetchIdentity.OwnRunHasNoneForeign` | apps/frontend/src/lib/api/attachment-cache.ts:118-124 | in every run without such a send no flight of the current session carries another user's token |
| `FetchIdentity.VisibleAreRequestedAsTheUser` | apps/frontend/src/lib/api/attachment-cache.ts:145-153 | what lookups see was then never requested with another user's token |
| `FetchIdentity.OnlyLateAnswersAreForeign` | apps/frontend/src/lib/api/attachment-cache.ts:173-189 | nor was what a call answers, unless it started the fetch in an earlier session of its user |
| `FetchIdentity.ForeignAnswerIsReached` | apps/frontend/src/lib/api/attachment-cache.ts:173-189 | a run in which token and session change together and a call still returns what was requested as another user |
| `AttachmentClient.AttachmentModule.InvalidateUser` | apps/frontend/src/lib/api/attachment-cache.ts:106-115 | revokes the URLs of the user's map one by one and drops map and trackers |
| `AttachmentClient.AttachmentModule.SetSessionUser` | apps/frontend/src/lib/api/attachment-cache.ts:118-124 | a session change drops the previous user's cache, an unchanged user nothing |
| `AttachmentClient.AttachmentModule.FetchAttachmentBlob` | apps/frontend/src/lib/api/attachment-cache.ts:134-160 | the call up to its first await: a cached attachment is answered at once with its URL and opens and suspends nothing, any other waits |
| `AttachmentClient.AttachmentModule.ResumeFetch` | apps/frontend/src/lib/api/attachment-cache.ts:163-189 | what follows the await of a flight is the modelled step, and returns what the step answers |
| `AttachmentClient.AttachmentModule.AcquireAfterFlight` | apps/frontend/src/lib/api/attachment-cache.ts:197-211 | a joined call claims the visible entry or falls back to a fetch of its own |
| `AttachmentClient.AttachmentModule.FindOldest` | apps/frontend/src/lib/api/attachment-cache.ts:215-222 | the scan finds an entry with the smallest sequence number |
| `AttachmentClient.AttachmentModule.EvictOldest` | apps/frontend/src/lib/api/attachment-cache.ts:214-229 | removes the oldest entry and revokes its URL; an empty map is left alone |
| `AttachmentClient.AttachmentModule.MakeRoom` | apps/frontend/src/lib/api/attachment-cache.ts:172-229 | evicting until there is room removes the oldest entries and revokes exactly their URLs |
| `AttachmentClient.AttachmentModule.ReleaseAttachment` | apps/frontend/src/lib/api/attachment-cache.ts:300-308 | counts a consumer down, not below zero, and revokes nothing |
| `AttachmentClient.AttachmentModule.GetCachedObjectUrl` | apps/frontend/src/lib/api/attachment-cache.ts:240-245 | the URL of a lookup is unrevoked and shows the user's own attachment |
| `ContactTables.CommitKeepsInv` | apps/backend/src/modules/contacts/contacts.service.ts:188-195 | the response transaction keeps the constraints of both tables and a chat behind every acceptance |
| `ContactProtocol.StepKeepsInv` | apps/backend/src/modules/contacts/contacts.service.ts:75-199 | every stretch of every call keeps the constraints, whatever runs in between |
| `ContactProtocol.EveryInterleaving` | apps/backend/src/modules/contacts/contacts.service.ts:75-280 | in every interleaving: one request per ordered pair, none to oneself, one chat per unordered pair stored in order, a chat for every acceptance |
| `ContactProtocol.AcceptanceLostOnlyByStaleWrite` | apps/backend/src/modules/contacts/contacts.service.ts:93-199 | one stretch undoes an acceptance iff it runs a suspended re-send or refusal of that request, and no stretch makes a new one |
| `ContactProtocol.AcceptanceIsFinalExactly` | apps/backend/src/modules/contacts/contacts.service.ts:93-199 | an accepted request stays accepted in every continuation iff no suspended call holds such a write, so it must have looked before the acceptance |
| `ContactProtocol.AcceptanceCanBeLost` | apps/backend/src/modules/contacts/contacts.service.ts:160-199 | a run in which an accepted request ends up declined while its chat stays |
| `ContactRefinement.UninterruptedSend` | apps/backend/src/modules/contacts/contacts.service.ts:75-126 | a send that runs without interruption is the atomic service call |
| `ContactRefinement.UninterruptedRespond` | apps/backend/src/modules/contacts/contacts.service.ts:160-199 | a response that runs without interruption is the atomic service call |
| `ChatDatabase.Database.SendRequest` | apps/backend/src/modules/contacts/contacts.service.ts:75-126 | guards, errors, reactivation or insertion; refused calls change nothing |
| `ChatDatabase.Database.RespondToRequest` | apps/backend/src/modules/contacts/contacts.service.ts:160-199 | guards, errors, the new status and on acceptance the pair's chat |
| `ChatDatabase.Database.CreateChat` | apps/backend/src/modules/contacts/contacts.service.ts:263-280 | creates the normalized pair's chat unless it exists |
| `ChatDatabase.Database.GetContacts` | apps/backend/src/modules/contacts/contacts.service.ts:213-233 | the loop and the sort yield exactly the contacts, each once, in the order of their usernames |
| `ChatDatabase.Database.SendMessage` | apps/backend/src/modules/messages/messages.service.ts:80-262 | which posts succeed, which error each other one gets, and field by field the row and the link of its upload; refused calls change nothing |
| `ChatDatabase.Database.MarkRead` | apps/backend/src/modules/messages/messages.service.ts:332-389 | reports the unread ids of the counterpart and marks exactly those |
| `ChatRuns.StepKeepsInv` | apps/backend/src/modules/messages/messages.service.ts:80-389 | every service call keeps the cross-table invariant and takes nothing back |
| `ChatRuns.NothingIsTakenBack` | apps/backend/src/modules/contacts/contacts.service.ts:93-193 | in every run: accepted is terminal, chats stay, messages change only by one read mark, links are final |
| `ChatRuns.ChatIffAccepted` | apps/backend/src/modules/contacts/contacts.service.ts:188-280 | a chat exists for a pair iff one accepted the other |
| `ChatRuns.ContactsAreMutual` | apps/backend/src/modules/contacts/contacts.service.ts:213-255 | areContacts(a, b) iff b in getContacts(a) iff a in getContacts(b); nobody is their own contact |
| `ChatRuns.ConversationsShowContacts` | apps/backend/src/modules/chats/chats.service.ts:74-117 | the conversation list shows every contact once and nobody else |
| `ChatRuns.PostsAreGatedByMembership` | apps/backend/src/modules/messages/messages.service.ts:80-222 | the contact check never refuses a participant; a post succeeds iff membership, draft and upload rules hold |
| `ChatRuns.PostRaisesOneBadge` | apps/backend/src/modules/chats/chats.service.ts:149-166 | a post raises the counterpart's count of that chat by one message and no other count |
| `ChatRuns.DraftsThatPass` | apps/backend/src/modules/messages/messages.service.ts:117-222 | which drafts pass, by type: a text with a character that is not white space, a free upload of the sender under its own path, a web address |
| `ChatRuns.PostsAreKept` | apps/backend/src/modules/messages/messages.service.ts:137-230 | chat, sender, type, text and media of a post stay as they were drafted, over every continuation |
| `ChatRuns.PostsStartUnread` | apps/backend/src/modules/messages/messages.service.ts:224-230 | a post adds one unread message behind the others |
| `ChatRuns.ReportedIsTheBadge` | apps/backend/src/modules/chats/chats.service.ts:149-166 | markRead's query and the badge's query, which differ, select the same messages for a participant |
| `ChatRuns.MarkReadClearsOneBadge` | apps/backend/src/modules/messages/messages.service.ts:332-389 | markRead returns exactly the counted messages, empties that count and leaves every other count unchanged |
| `ChatRuns.ReadMarksAreReceipts` | apps/backend/src/modules/messages/messages.service.ts:359-375 | a message changes only when the counterpart of its sender opens its chat, and only its read mark |
| `ChatRuns.UploadsAreTakenOnce` | apps/backend/src/modules/messages/messages.service.ts:190-242 | a second post of an upload is refused after the first; two commits that were both checked before show it twice |
| `ChatRuns.AttachmentsStayBetweenContacts` | apps/backend/src/modules/files/attachments.controller.ts:38-76 | an attached upload is served to its owner and the one contact it was sent to, and to nobody else |
| `ChatRuns.FreeUploadsAreServedToAll` | apps/backend/src/modules/files/attachments.controller.ts:46-55 | an upload that is not linked is served to everybody, one that is gone to nobody |
| `PostProtocol.StepKeepsInv` | apps/backend/src/modules/messages/messages.service.ts:80-242 | every stretch of every post, between any other calls, keeps chats, senders, uploads and links in step |
| `PostProtocol.CommitStoresTheDraft` | apps/backend/src/modules/messages/messages.service.ts:224-242 | a commit adds exactly the drafted message, and no other stretch of a post touches any |
| `PostProtocol.CommitShowsTwiceExactly` | apps/backend/src/modules/messages/messages.service.ts:190-242 | a commit makes its upload shown twice iff another post committed it since this one looked it up, iff it is linked already |
| `PostProtocol.UploadsAreShownOnceExactly` | apps/backend/src/modules/messages/messages.service.ts:190-242 | over every interleaving: each upload is shown at most once iff no commit was stale |
| `PostProtocol.StaleCommitMovesTheLink` | apps/backend/src/modules/files/attachments.controller.ts:38-76 | after a stale commit the upload is served to the new chat only; the other side of the first chat is refused what its chat still shows |
| `PostProtocol.TwoPostsRace` | apps/backend/src/modules/messages/messages.service.ts:80-242 | wherever a user may post an upload to two chats, two interleaved posts put it in both |
| `PostProtocol.OneUploadInTwoChats` | apps/backend/src/modules/messages/messages.service.ts:80-242 | a run from the empty system that ends so |
| `PostProtocol.UninterruptedPost` | apps/backend/src/modules/messages/messages.service.ts:80-242 | a post that runs without interruption is the atomic service call, refusals included |
| `ReadProtocol.StepKeepsInv` | apps/backend/src/modules/messages/messages.service.ts:332-391 | every stretch of every reading call, and every other call, keeps the state invariant and what suspended calls have found |
| `ReadProtocol.ReportsWhatItMarksExactly` | apps/backend/src/modules/messages/messages.service.ts:325-331 | a call returns exactly the messages it marks iff, since it looked, the counterpart has posted nothing to the chat and nobody has marked what it found |
| `ReadProtocol.ReportedOnceMarked` | apps/backend/src/modules/messages/messages.service.ts:325-331 | what a call returns is read in every continuation and found by no later lookup |
| `ReadProtocol.UninterruptedRead` | apps/backend/src/modules/messages/messages.service.ts:332-391 | undisturbed, a call returns its badge, marks just that and is the atomic service call |
| `ReadProtocol.LateMessageIsNotReported` | apps/backend/src/modules/messages/messages.service.ts:353-382 | a message posted between lookup and update is marked as read and not reported |
| `Presence.WebSocketService.RegisterOnline` | apps/backend/src/modules/websocket/websocket.service.ts:61-83 | adds the socket; online is announced iff the user had none |
| `Presence.WebSocketService.UnregisterOnline` | apps/backend/src/modules/websocket/websocket.service.ts:92-113 | removes the socket; offline is announced iff it was the last |
| `Presence.WebSocketService.EmitToContacts` | apps/backend/src/modules/websocket/websocket.service.ts:162-177 | the event goes to every socket of every online contact, and to none twice |
| `Presence.WebSocketService.SendCurrentPresence` | apps/backend/src/modules/websocket/websocket.service.ts:134-155 | a new socket is told the contacts with an open socket, each where the contact list has it, and each once |
| `Presence.ChatGateway.LookupFinished` | apps/backend/src/modules/websocket/websocket.gateway.ts:95-113 | a lookup that lets the client in records and registers the socket |
| `Presence.ChatGateway.HandleDisconnect` | apps/backend/src/modules/websocket/websocket.gateway.ts:147-166 | a known socket is forgotten and unregistered, an unknown one ignored |
| `Presence.UnregisteringAStranger` | apps/backend/src/modules/websocket/websocket.service.ts:92-103 | unregistering an unregistered socket changes nothing |
| `Presence.StepKeepsInv` | apps/backend/src/modules/websocket/websocket.gateway.ts:81-199 | every connection event keeps sockets, lookups and decisions in step |
| `Presence.TransitionsAlternate` | apps/backend/src/modules/websocket/websocket.service.ts:49-113 | in every run: no empty set is stored, decisions alternate per user, and online minus offline is 1 iff online |
| `Presence.OnlineExactly` | apps/backend/src/modules/websocket/websocket.gateway.ts:81-166 | online iff some socket of the user was let in and did not close after that |
| `Presence.OnlineMeansConnected` | apps/backend/src/modules/websocket/websocket.gateway.ts:81-166 | if no socket closes during its own lookup: online iff a fully connected socket is open |
| `Presence.RefusedNeverCounts` | apps/backend/src/modules/websocket/websocket.gateway.ts:95-113 | a socket whose lookup was refused never counts for its user, whatever follows |
| `Presence.ToldAreCounted` | apps/backend/src/modules/websocket/websocket.service.ts:134-155 | in every run that is exactly the contacts with a socket that was let in and did not close after that |
| `Presence.ClosingDuringLookupHauntsForever` | apps/backend/src/modules/websocket/websocket.gateway.ts:95-154 | a socket that closes during its lookup leaves its user online at every later point |
| `Presence.SocketsBelongToOneUser` | apps/backend/src/modules/websocket/websocket.service.ts:61-113 | the socket sets of two users never overlap |
| `Paging.PagesCoverHistory` | apps/backend/src/modules/messages/messages.service.ts:294-308 | pages 1 to the page count concatenate to the history; all but the last are full, none is empty, later ones are |
| `Paging.WalkFetchesTheRest` | apps/frontend/src/hooks/use-chat-history-infinite.ts:21-25 | from any page the walk fetches exactly the remaining pages in order |
| `Paging.WalkShowsHistory` | apps/frontend/src/hooks/use-chat-history-infinite.ts:21-25 | from page 1 the walk fetches page 1 and then exactly the others, and shows the history |
| `Paging.PageCountBounds` | apps/backend/src/modules/messages/messages.controller.ts:103 | the page count is the least number of pages that hold the total |
| `Paging.NumbersAreClamped` | apps/backend/src/modules/messages/messages.service.ts:273-310 | page and limit out of range are moved to the nearest allowed number, from 1 and from 1 to 100 |
| `HistoryCache.PrependAgreesExactly` | apps/frontend/src/hooks/use-chat-query.ts:41-55 | on page 1 prepending agrees with the server iff the message is on the page, or new and newest |
| `HistoryCache.CacheFollowsServer` | apps/frontend/src/hooks/use-chat-query.ts:41-55 | any run of newer messages with timely redeliveries leaves the cache at the server's page 1 |
| `HistoryCache.DeeperPagesGoStale` | apps/frontend/src/hooks/use-chat-query.ts:144-152 | prepending a new message to a cached page agrees with the server iff it is page 1 |
| `HistoryCache.InfiniteListDropsTheBoundary` | apps/frontend/src/hooks/use-chat-query.ts:154-172 | what the infinite list shows after a new message; with a full first page the message pushed off it is in no page |
| `ConversationList.SortIsMostRecentFirst` | apps/frontend/src/hooks/use-chat-query.ts:85-87 | what ECMA-262 promises of a sort with this comparator is a strictly descending list whenever the activity times differ |
| `ConversationList.SortSorts` | apps/frontend/src/hooks/use-chat-query.ts:87 | insertion meets that promise, so it can be met |
| `ConversationList.ComparatorIsConsistentExactlyOffTies` | apps/frontend/src/hooks/use-chat-query.ts:87 | the comparator contradicts itself exactly on equal activity times |
| `ConversationList.NewestBecomesPreview` | apps/frontend/src/hooks/use-chat-query.ts:75-83 | folding any messages leaves the newest one as preview and its time as activity |
| `ConversationList.LatestArrivalIsShown` | apps/frontend/src/hooks/use-chat-query.ts:75-83 | of messages sent at the same time the last to arrive is shown; older ones never are |
| `ConversationList.DeliveriesPatchEach` | apps/frontend/src/hooks/use-chat-query.ts:69-88 | after any deliveries every conversation is there exactly once |
| `ConversationList.DeliveriesConverge` | apps/frontend/src/hooks/use-chat-query.ts:69-88 | the same messages in any order with any repetitions leave the same conversations, and the same descending list when activity times differ |
| `QueryCache.QueryClient.ApplyIncomingMessage` | apps/frontend/src/hooks/use-chat-query.ts:140-177 | every cached page of the chat, the first page of its infinite list and the conversation list are updated, and nothing else |
| `Verification.AuthService.Register` | apps/backend/src/modules/auth/auth.service.ts:74-122 | a new account with a fresh token, withdrawn when its email cannot be sent |
| `Verification.AuthService.SendVerificationEmail` | apps/backend/src/modules/auth/auth.service.ts:137-149 | a failed delivery clears hash and expiry of that account only |
| `Verification.AuthService.ResendVerification` | apps/backend/src/modules/auth/auth.service.ts:222-238 | a fresh token for an active unverified account; otherwise nothing |
| `Verification.AuthService.VerifyEmail` | apps/backend/src/modules/auth/auth.service.ts:172-204 | an unexpired stored token verifies its account and is cleared |
| `Verification.StepKeepsInv` | apps/backend/src/modules/auth/auth.service.ts:74-238 | every call keeps stored tokens equal to the live ones of the history |
| `Verification.AcceptedWereLive` | apps/backend/src/modules/auth/auth.service.ts:172-204 | an accepted token was the last one issued to its account, delivered, and under 24 hours old |
| `Verification.AcceptedOnce` | apps/backend/src/modules/auth/auth.service.ts:196-201 | no token is accepted twice and no account verified twice |
| `Verification.AcceptsExactlyTheLive` | apps/backend/src/modules/auth/auth.service.ts:172-204 | at any point a token is accepted iff it is the live token of some account in its first 24 hours |
| `Verification.VerifiedForGood` | apps/backend/src/modules/auth/auth.service.ts:196-201 | a verified account stays verified at every later point |
| `Verification.ResendEndsTheOld` | apps/backend/src/modules/auth/auth.service.ts:231-234 | a resend ends the previous token |
| `Verification.UseEndsIt` | apps/backend/src/modules/auth/auth.service.ts:196-199 | using a token ends it |
| `Verification.UndeliveredIsDead` | apps/backend/src/modules/auth/auth.service.ts:137-149 | a token whose delivery failed is dead from the start |
| `Verification.TheDeadStayDead` | apps/backend/src/modules/auth/auth.service.ts:172-182 | a dead token is refused at every later point of every run |
| `VerificationProtocol.AddressesStayUnique` | apps/backend/src/modules/auth/auth.service.ts:74-113 | in every interleaving no address has two accounts, and every suspended copy is of an existing row |
| `VerificationProtocol.VerificationIsFinalExactly` | apps/backend/src/modules/auth/auth.service.ts:137-234 | a verified account stays verified in every continuation iff no suspended call holds a copy of its row from before |
| `VerificationProtocol.VerificationCanBeLost` | apps/backend/src/modules/auth/auth.service.ts:137-149 | a run in which an account is verified and a failed delivery makes it unverified again |
| `VerificationProtocol.TokenIsDeadExactly` | apps/backend/src/modules/auth/auth.service.ts:172-182 | a token is found by no lookup in any continuation iff no account stores it and no suspended call will write it |
| `VerificationProtocol.TokensStep` | apps/backend/src/modules/auth/auth.service.ts:74-234 | in every interleaving each token is in one place: one account, or one copy that is going to be written |
| `VerificationProtocol.GoneIsGone` | apps/backend/src/modules/auth/auth.service.ts:172-234 | a token that has gone from the accounts, used, superseded or withdrawn, comes back in no continuation |
| `VerificationProtocol.UsedIsDead` | apps/backend/src/modules/auth/auth.service.ts:172-201 | once the first call accepted with a token has saved, no continuation accepts it again |
| `VerificationProtocol.LookupsDoNotExclude` | apps/backend/src/modules/auth/auth.service.ts:172-195 | until then, a lookup by one call takes nothing from another |
| `VerificationProtocol.TokenIsAcceptedTwice` | apps/backend/src/modules/auth/auth.service.ts:172-201 | a run in which two calls are accepted with one token |
| `VerificationProtocol.UninterruptedRegister` | apps/backend/src/modules/auth/auth.service.ts:74-149 | a registration that runs without interruption is the atomic service call |
| `VerificationProtocol.UninterruptedResend` | apps/backend/src/modules/auth/auth.service.ts:222-238 | a resend that runs without interruption is the atomic service call |
| `VerificationProtocol.UninterruptedVerify` | apps/backend/src/modules/auth/auth.service.ts:172-204 | a verification that runs without interruption is the atomic service call |
| `LikeSearch.EscapedMatchesPrefix` | apps/backend/src/modules/users/users.service.ts:285-287 | an escaped query before `%` matches exactly the strings that start with the query |
| `LikeSearch.SearchFindsOccurrences` | apps/backend/src/modules/users/users.service.ts:255-287 | the search pattern matches exactly the strings that contain the query |
| `LikeSearch.SearchIgnoresCase` | apps/backend/src/modules/users/users.service.ts:260-272 | lower-casing both sides makes it exactly case-insensitive containment |
| `LikeSearch.UnescapedWouldOvermatch` | apps/backend/src/modules/users/users.service.ts:284-287 | without escaping, a wildcard query finds names that do not contain it |

## Left out

- IEEE 754 decoding of the WebM Duration is a parameter of the statements (any function from the
  payload to a finite number, or to none). Durations are exact reals: the rounding of the JavaScript
  division is not modelled. On integer fields the comparison with 300 seconds has the same outcome: a
  quotient above 300 exceeds it by at least 1/timescale, more than 2^-32, where doubles near 300 are 2^-44
  apart; integers near that border are exact, and rounding never lifts a quotient of at most 300 above it.
- `Number(readBigUInt64BE)` and variable-length sizes above 2^53 are not modelled as inexact: such
  sizes never fit a buffer, and the code treats lengths of 7 and 8 bytes as unknown.
- IsoBmff.WrittenFileDuration: is about a first `mvhd` that holds a complete movie header;
  `IsoBmff.AnyFileDuration` covers every forest, and `IsoBmff.MovieTimeIsLocalExactly` says when the
  bytes behind the box take part.
- VideoUpload.IsoHeaderGate: is about files that start with a compact `ftyp` box and hold a complete
  movie header; `VideoUpload.IsoGate` covers every written file.
- PNG, GIF, WebP and MIME detection: single-branch reads. JPEG fill bytes and TEM markers are not
  special to the walk and are covered by the statements on arbitrary bytes only.
- Suspended calls of the attachment cache take their slot in `FetchSlots`; the two state machines are
  not composed, since neither reads the other's variables: `FetchIdentity` lets a request go out at any
  moment before its flight settles, and again after a refusal. The wait after HTTP 429, downloads and the
  blob contents are not part of the model.
- AttachmentCache.AnswersAreSafe: the user of a flight is the one it was called for. Whose token the
  request carries is in `FetchIdentity`, for flights; a URL from a call's own direct fetch is fresh and
  unrevoked, and that request carries whatever token is stored when it is sent.
- StrandedUrls.NeverRevokedExactly: leaves out URLs held by a dropped map into which a suspended call
  will still insert; whether an eviction reaches them depends on how many such calls there are and on
  the order in which they resume.
- Requests, chats and messages are never deleted by the modelled calls. Account deletion and profile
  updates are not modelled; `receiverActive` is a parameter. The order of usernames is a parameter of
  `GetContacts`.
- An insert that loses a race inside the response transaction is not modelled: the transaction is one
  step, so the unique violation that `createChatForPair` absorbs cannot arise.
- Of the avatar calls only the deletion of an upload's row is modelled, for any row at any time.
- ChatRuns.ConversationsShowContacts: states which counterparts the conversation list shows. Message
  and chat times are not modelled, hence neither the last message nor the order of that list on the
  server; nor is the filter for counterparts whose account is gone.
- Pages are cut from a fixed order, as the query leaves the order of equal creation times open.
- Between the stretches of posts all other calls are atomic, and so they are between those of reading
  calls. A save of a verification call is taken to write every column of the loaded row, as the
  mapper does when they differ from the stored ones. Addresses are already in lower case; bcrypt, mail
  transport and SHA-256 are success, failure and an injective constructor.
- Presence announcements follow their decisions after two more awaits; that two announcements about
  one user may overtake each other is not modelled. Rooms and broadcasts are not modelled.
- Presence.WebSocketService.EmitToContacts: takes the sockets of a user in any order, where the code
  takes them in order of registration. That nobody gets an event twice needs distinct contacts and
  sockets of one user each, which `ChatDatabase.Database.GetContacts` and `Presence.SocketsBelongToOneUser` provide.
- ConversationList.SortSorts: shows that the promise made by ECMA-262 can be met; that the engine keeps
  it is assumed.
- `pagination.pages` of a cached page stays as fetched, in the code and in the model, and the
  statements about cached pages do not speak about it. A cache whose data is not an array cannot be written
  down in the model.
- LikeSearch.SearchIgnoresCase: lower-casing works character by character and leaves wildcards and
  backslashes alone; locale rules that change lengths are not modelled. Trimming, the length limits
  of the query, the e-mail branch and the result limit are not modelled.
- React components, stores, routing, validation pipes, exception filters, throttling and migrations
  have no state machine of their own. The migrations are the source of the constraints only.
