# Verified model of the native bridge

A Dafny model of the algorithms and protocols in the native half of a Telegram client bridge: a Rust
library that JVM threads call concurrently, and a Python generator for its raw API manifest. Each part is
a model of what the code does and a set of theorems about every input, every run or every interleaving.

`dafny verify dfyconfig.toml` checks the whole project.

| modules | what they model |
|---|---|
| `Wrappers`, `Strings` | outcome types, bytes, concatenation, cutting strings where something first occurs |
| `Base64` | the base64 encoder and the strict, whitespace-tolerant decoder, as loops proved against functions |
| `UploadReader` | the reader of a streamed upload: a bounded channel, partial chunks, end of file, the progress counter |
| `UploadSystem` | the streamed-upload protocol as a labelled transition system; an action is one atomic step of one thread or one poll of an upload task |
| `UploadInvariant`, `UploadSteps` | the inductive invariant of that system and the proof that every step keeps it |
| `UploadTheorems` | conservation, safety of finishing, ids and handles |
| `UploadOutcomes` | every refusal has its cause, and what has none is answered: a finish of a full stream returns a handle |
| `UploadPossible` | for every file, an interleaving that uploads it |
| `UploadLiveness` | nothing gets stuck: runs of productive steps end, and with every call returned |
| `UploadEndToEnd` | the end-to-end theorem from file to uploader |
| `UploadRegistry` | the registry object, what any list of uses of it is answered, and the accepted counter |
| `ProgressSlots` | one progress slot shared by the uploads that count into it and the threads that poll it |
| `Walks`, `DialogPaging`, `OffsetWalks`, `BlockedPeers` | the listings: cursor pages, index pages, pages of blocked peers and the walk over them |
| `Login` | the login handlers one at a time, and every interleaving of them |
| `LoginRaces` | exactly when concurrent login calls lose a token or bring one back |
| `SchemaParser` | the TL schema parser, with the Python string operations it uses written out |
| `SchemaComments` | what that parser reads out of any text: characters, words, lines, comments, heads and errors |
| `Utf8` | which octets are UTF-8, and that these are the encodings of texts |
| `Markup` | building reply markups from specs, projecting them, and reading the projection back |
| `MarkupFields` | what the document of a markup keeps of it, kind by kind and field by field |
| `InviteLinks`, `InviteParts` | the two readers of invite links, and what they take for schemes, hosts, paths and slugs |
| `PeerIds` | the decoding of Bot API dialog ids |

How to read the upload theorems. A state holds every stream and every call ever made; nothing is removed
from either, so a statement about a state is a statement about its history. The ghost fields of a stream
(`log`, `delivered`, `discarded`, `failed`) record where its bytes went. `Interleaving(actions)` says that
the list of actions is possible from the empty state and draws at most 2^64 ids, the exact point where the
`i64` counter repeats. `Safe` says that the declared size leaves room below 2^64 for the longest chunk a text
can decode to, the exact bound (5*2^61 + 2) below which the `u64` addition in the reservation cannot wrap.

## Findings

Where the code and its own documentation or intent disagree, the model follows the code.

- `native/src/ops/chats.rs:607`: the second channel range is written high-to-low and so holds no id. Every
  dialog id it was meant to admit is refused (`PeerIds.SecondRangeIsRefused`).
- `native/src/client.rs:215`: `current + len` is `u64` arithmetic. A chunk's base64 text is shorter than 2^63
  bytes; for every chunk such a text can carry the reservation is exact if and only if the declared size is
  at most 5*2^61 + 2, and above that a chunk that does not fit can wrap and be accepted
  (`UploadTheorems.ReservationIsExactIff`).
- `native/src/ops/auth.rs:94-109`: a sign-in that stores a token after its take can overwrite a newer one, which
  is then lost (`Login.PutBackMayLoseANewerCode`). In every interleaving it does if and only if another call
  stored a token in between that was neither taken nor cleared since (`LoginRaces.PutBackDiscardsIff`).
  When no code request and no sign-in is begun before it stores, that is possible if and only if one that
  can store is in flight when it takes its own token (`LoginRaces.PutBackMayDiscardIff`).
- `native/src/ops/auth.rs:135-150`: the comment on `sign_out` says the login state is cleared because a token
  from before the sign-out is no longer valid. A sign-in in flight can put its old token back after the clear
  (`LoginRaces.PutBackUndoesSignOut`); no later state has an old token in it if and only if no code request
  about to store and no sign-in past its take is in flight at the clear (`LoginRaces.SignOutIsFinalIff`).
- `native/src/ops/files.rs:239-247`: a path upload counts into whatever slot its progress id names, also one that
  another upload counts into, and also a stream's, whose id is a progress id; then a poll can report more
  bytes sent than the total. The reports about a slot of `begin_progress` are bounded in all runs with at most
  so many path uploads if and only if that is at most one (`ProgressSlots.SnapshotsAreBoundedIff`,
  `ProgressSlots.TwoUploadsOverrun`); those about a stream if and only if no path upload names it, or one an
  empty stream (`ProgressSlots.StreamSnapshotsAreBoundedIff`, `ProgressSlots.PathUploadOverrunsStream`).
- `native/src/dto/markup.rs:85-88`: the comment says a plain poll is `Some(false)`; the builder leaves the
  flag unset, as the tests say, and a received `Some(false)` comes back without it
  (`Markup.ExplicitPollIsNotResentUnchanged`).
- `native/src/ops/dialogs.rs:112-114`: chained pages tile the list exactly when every dialog has all three
  cursor values and no two have the same; a dialog without a last message can be no cursor
  (`DialogPaging.PagesTileIff`).
- `tools/generate_raw_schema.py:29-31`: an id of nine hexadecimal digits is not refused and can collide with a
  shorter one (`SchemaParser.NineDigitsCollide`). The id is the digits' two's complement if and only if at
  most eight are significant (`SchemaParser.IdIsTwosComplementIff`), and two ids of any length are equal if
  and only if their significant digits are, or one is the other's eight with a ninth, a one, before them and
  the first of the eight below 8 (`SchemaParser.IdsCollideIff`).
- `native/src/dto/chatlists.rs:282-296`: a `/+` in the query of a `joinchat` link is taken for the marker, so the
  two readers can disagree (`InviteLinks.ReadersDifferAfterPlus`). They agree on `joinchat/h` if and only if
  `h` is not empty and either no `/+` follows the word or what stands between the first and its next
  delimiter is `h` (`InviteLinks.ReadersAgreeOnJoinchatIff`).
- `native/src/dto/contacts.rs:170-171`: groups and channels are looked up by bare id alone, so with a basic group
  and a channel of one bare id a channel's entry can become the group (`BlockedPeers.BareIdsCollide`). An
  entry resolves to the peer it names if and only if the first chat with its bare id is of its kind
  (`BlockedPeers.ResolvesToItsPeerIff`).

## Model

| member | source | states |
|---|---|---|
| `Base64.Encode` | native/src/dto/files.rs:143-165 | the encoder's loops compute the grouping function that the theorems below are about |
| `Base64.PushGroup` | native/src/dto/files.rs:146-163 | one chunk appends exactly its four-character group, padding included |
| `Base64.FoldGroup` | native/src/dto/files.rs:149-151 | the shifting fold packs up to three bytes into the 24-bit group, missing ones as zero |
| `Base64.StripLoop` | native/src/dto/files.rs:174-177 | filtering leaves the characters that are not ASCII whitespace, in order |
| `Base64.ScanChunk` | native/src/dto/files.rs:187-203 | the scan of a chunk gives its value and padding or the first error, left to right |
| `Base64.DecodeChunk` | native/src/dto/files.rs:186-213 | one chunk decodes to its bytes, fewer by its padding, or fails as the scan does |
| `Base64.DecodeChunks` | native/src/dto/files.rs:184-214 | the loop over chunks fails at the first bad one and otherwise concatenates them, padding allowed only in the last |
| `Base64.Decode` | native/src/dto/files.rs:173-215 | the whole decoder, including the refusal of a length that is no multiple of four |
| `Base64.ScanAccepts` | native/src/dto/files.rs:187-203 | the stateful scan accepts exactly the groups described position by position, with their value and padding |
| `Base64.GroupRoundTrip` | native/src/dto/files.rs:146-213 | unpacking a packed chunk gives the chunk back |
| `Base64.DecodeUndoesEncode` | native/src/dto/files.rs:139-215 | every byte sequence survives encoding, any wrapping in whitespace, and decoding |
| `Base64.WhitespaceIsIgnored` | native/src/dto/files.rs:167-177 | a tab, line feed, form feed, carriage return or space inserted anywhere in any text changes nothing, accepted or refused |
| `Base64.DecoderAccepts` | native/src/dto/files.rs:169-215 | the decoder accepts a text if and only if what is left without whitespace is whole groups of the alphabet with at most two pads, at the very end |
| `Base64.ReencodesIffCanonical` | native/src/dto/files.rs:143-215 | encoding what was decoded gives the stripped text back if and only if the discarded pad bits are zero (section 3.5 of RFC 4648) |
| `Base64.EncoderOutput` | native/src/dto/files.rs:139-165 | the output has length 4*ceil(n/3), is in the alphabet of section 4 of RFC 4648, padded and canonical |
| `Base64.SymbolsAreTheAlphabet` | native/src/dto/files.rs:143-144 | the encoder writes the character that the alphabet of section 4 of RFC 4648 has at a value, and the decoder reads it as that value |
| `Base64.AlphabetIff` | native/src/dto/files.rs:217-227 | the decoder reads a character as a value if and only if the alphabet has it there |
| `Base64.EncodedAt` | native/src/dto/files.rs:143-165 | each character of an encoding is the alphabet's at the six bits of the input it covers, and `=` where it covers none |
| `Base64.DecodeFailsIff` | native/src/dto/files.rs:173-215 | a text is refused with an error if and only if it is that of its length, or that of its first character at fault from the left |
| `Base64.StripIsFilter` | native/src/dto/files.rs:174-177 | every byte but tabs, line feeds, form feeds, carriage returns and spaces is kept as often as it occurs |
| `Base64.DecodedLength` | native/src/dto/files.rs:184-185 | whatever is decoded fits in the three bytes reserved for every four characters |
| `UploadReader.PollRefinesByteQueue` | native/src/upload.rs:123-156 | a poll takes a prefix off the concatenated chunks; with room an empty answer means closed and drained, and pending means open and drained |
| `UploadReader.PollRetains` | native/src/upload.rs:96-105 | what the reader retains is never more than before or than one queued chunk |
| `UploadReader.PollTakes` | native/src/upload.rs:123-156 | a poll hands over as much as fits of what is retained, or else of the first chunk that is not empty, and takes no other chunk |
| `UploadReader.DrainIsAPrefix` | native/src/upload.rs:123-156 | for any buffer sizes the bytes collected, followed by what is left, are the concatenated chunks |
| `UploadReader.DrainReadsEverything` | native/src/upload.rs:123-156 | after the channel closes, enough reads with non-empty buffers return every byte |
| `UploadReader.DrainMakesRoom` | native/src/upload.rs:22-26 | while chunks wait, reading one byte more than is retained frees a slot for the producer |
| `UploadReader.Channel.TrySend` | native/src/upload.rs:189-193 | a chunk enters at the back exactly when fewer than four wait |
| `UploadReader.Channel.PollRecv` | native/src/upload.rs:142-152 | chunks leave in order; empty and closed reads as closed, empty and open as pending |
| `UploadReader.ReadBuf.PutSlice` | native/src/upload.rs:134 | the bytes are appended to the filled part and nothing else of the buffer changes |
| `UploadReader.ChannelReader.PollRead` | native/src/upload.rs:123-156 | the loop with its buffer, position and skipped empty chunks does to reader, channel and buffer what one poll does on values |
| `ProgressSlots.CounterIsBytesRead` | native/src/upload.rs:72-75 | in every run the counter is all the bytes its uploads have read, modulo 2^64, however their additions interleave |
| `ProgressSlots.PollReports` | native/src/upload.rs:77-93 | in every run a poll answers, for good, all that had been read when it loaded the one counter and the total as it stood when it loaded the other |
| `ProgressSlots.SingleUploadIsBounded` | native/src/client.rs:234-257 | a slot of `begin_progress` that one upload counts into never reports more sent than total, whenever the length is announced and whenever it is polled; what was read whole is reported whole |
| `ProgressSlots.TwoUploadsOverrun` | native/src/ops/files.rs:239-247 | two path uploads that name one slot can make a poll report more sent than total |
| `ProgressSlots.SnapshotsAreBoundedIff` | native/src/upload.rs:67-80 | polls of a slot of `begin_progress` are bounded in all runs with at most so many path uploads if and only if that is at most one |
| `ProgressSlots.PathUploadOverrunsStream` | native/src/ops/files.rs:239-247 | a path upload of one byte that names a stream's id can make a poll report all the stream's bytes and one, of a total of one |
| `ProgressSlots.StreamSnapshotsAreBoundedIff` | native/src/client.rs:191-193 | polls of a stream's slot are bounded in all runs with at most so many path uploads naming it if and only if that is none, or one and the stream is empty |
| `UploadReader.ProgressReader.PollRead` | native/src/upload.rs:170-187 | the wrapped reader's answer and state, and the counter grown by exactly the bytes put in the buffer |
| `UploadSystem.HandlesAreDistinctExactlyFor` | native/src/client.rs:76-80 | ids drawn from the wrapping counter are pairwise distinct for as many draws as there are `i64` values and not one more |
| `UploadSteps.StepChunkReserving` | native/src/client.rs:212-221 | the compare-and-swap reservation keeps the invariant, refused or accepted |
| `UploadSteps.StepChunkSending` | native/src/client.rs:222-224 | sending into the channel, or failing because its reader is gone, keeps the invariant |
| `UploadSteps.StepChunkLeaving` | native/src/client.rs:212-224 | dropping a call's sender clone keeps the invariant |
| `UploadSteps.StepFinishStart` | native/src/client.rs:137-144 | taking a stream out of the registry, or finding none, keeps the invariant |
| `UploadSteps.StepFinishTaken` | native/src/ops/files.rs:312-320 | dropping the stream's own sender keeps the invariant |
| `UploadSteps.StepKeepsInv` | native/src/client.rs:167-226 | every atomic step of every call and every poll or end of a task keeps the invariant |
| `UploadSteps.RunKeepsInv` | native/src/client.rs:167-226 | the invariant holds after every interleaving |
| `UploadTheorems.ReservationIsExactIff` | native/src/client.rs:213-216 | the `u64` reservation is the comparison it means, for every count and every chunk a base64 text can carry, if and only if the declared size is at most 5*2^61 + 2, which leaves room below 2^64 for the longest such chunk |
| `UploadTheorems.Conservation` | native/src/client.rs:213-224 | in every reachable state accepted bytes = reserved + queued + retained + delivered + discarded + failed, delivered <= accepted <= size, at most four chunks wait, and the sent counter is what was delivered and counted plus what path uploads naming the stream counted, modulo 2^64; with no such upload, sent + not yet counted = delivered |
| `UploadTheorems.SnapshotsAreBounded` | native/src/upload.rs:77-93 | no progress answer about a stream that no path upload has named exceeds the total it reports, which is the declared size |
| `UploadTheorems.AloneIff` | native/src/ops/files.rs:239-247 | a stream's counters are its own exactly when no path upload of the interleaving named its id |
| `UploadTheorems.FullStreamIsFrozen` | native/src/ops/files.rs:313-320 | once the accepted count is the size, no later step changes it |
| `UploadTheorems.EndOfFileIsComplete` | native/src/ops/files.rs:297-312 | the reader sees end-of-file only when a finish let go and no chunk call holds a sender clone, with every accepted byte delivered |
| `UploadTheorems.FinishedUploadIsWhole` | native/src/ops/files.rs:302-323 | a finish that answers a handle means the uploader read the chunks sent, whole, in channel order, exactly the declared size, none pending or lost |
| `UploadTheorems.LogIsAcceptedCalls` | native/src/client.rs:208-225 | what entered a stream's channel is the chunks of exactly the calls told they are accepted, each once, whoever sends them and however many at a time |
| `UploadTheorems.NothingIsGivenTwice` | native/src/client.rs:58-80 | no two calls are ever answered the same id or handle |
| `UploadTheorems.IdsAreApart` | native/src/client.rs:60-67 | in every reachable state stream ids are progress ids and no handle is either |
| `UploadTheorems.OneFinishPerStream` | native/src/ops/files.rs:302-323 | over a run and any extension of it, at most one finish call ever gets past the lookup of a stream, also when it is refused afterwards, and the stream is listed no more |
| `UploadTheorems.HandlesKeepResolving` | native/src/client.rs:156-164 | a returned handle resolves to the same upload in every later state |
| `UploadOutcomes.RefusedForCause` | native/src/client.rs:112-226 | in every interleaving a call is refused only for its cause: a chunk as too much only if it does not fit, then or ever after, or as not accepted only after the upload task ended; a finish as short only after it took the stream, as failed only if the upload task failed; a text as malformed only if it is; a begin never |
| `UploadOutcomes.ListedIff` | native/src/client.rs:122-144 | a stream is listed under an id exactly from the answer of its begin to the finish that takes it |
| `UploadOutcomes.UnknownStreamIff` | native/src/client.rs:122-144 | a chunk or a finish is told its stream is unknown if and only if none is open under that id |
| `UploadOutcomes.ChunkAcceptedIff` | native/src/client.rs:205-226 | a chunk is reserved if and only if it fits, and accepted if and only if the upload task still runs as it is sent |
| `UploadOutcomes.FinishOfFullStream` | native/src/ops/files.rs:302-323 | in every interleaving, a finish that took a stream and had not been told it is short when every declared byte was accepted returns a handle, unless the upload task failed; never that it is short |
| `UploadOutcomes.FullFinishSucceeds` | native/src/ops/files.rs:302-323 | from every invariant state with a full stream, a task that has not failed and a pending finish that took it, a run of productive steps returns that finish a handle |
| `UploadOutcomes.ReturnsAHandle` | native/src/ops/files.rs:302-323 | and whichever productive steps are chosen from there, the finish returns nothing else |
| `UploadOutcomes.AnsweredIdsAreKnown` | native/src/client.rs:60-110 | an id a begin answered is never unknown to a poll, and names what was begun under it |
| `UploadOutcomes.SnapshotIsCurrent` | native/src/upload.rs:77-93 | in every interleaving what a poll reports sent about a stream of its own lies between what was counted when the poll began and what is counted when it has returned |
| `UploadLiveness.WaitingProducerIsServed` | native/src/client.rs:205-224 | when a chunk call waits for room, which is when four chunks wait, the reader can be polled, once it has counted its last read, and any poll with room hands over at least one byte |
| `UploadLiveness.SomethingMoves` | native/src/client.rs:205-226 | in every invariant state with a pending call some step that is not a failure makes progress |
| `UploadLiveness.EveryCallCanReturn` | native/src/ops/files.rs:302-323 | from every invariant state a run of such steps, without new calls, returns every pending call |
| `UploadLiveness.ProductiveRunIsBounded` | native/src/client.rs:205-226 | every run of productive steps is finite: no longer than what calls and tasks had left to do |
| `UploadLiveness.MaximalRunReturnsAll` | native/src/ops/files.rs:302-323 | whichever productive steps are chosen, where none is left every call has returned |
| `UploadEndToEnd.OrderedUpload` | native/src/client.rs:205-225 | with chunk calls made one at a time, the uploader read the sent chunks in call order |
| `UploadEndToEnd.UploadedIsTheFile` | native/src/ops/files.rs:280-323 | for every file, split, wrapping of the base64 texts and interleaving, a finish that answers a handle means the uploader consumed exactly the file, of the declared length |
| `UploadPossible.EveryFileCanBeUploaded` | native/src/ops/files.rs:280-323 | for every file, every split of it and every texts that carry the chunks, some interleaving begins a stream of its size, has every text accepted in turn, and returns from the finish a handle that resolves to exactly the file |
| `UploadRegistry.Uploads.Next` | native/src/client.rs:76-80 | answers the counter and advances it, wrapping from the largest `i64` to the smallest |
| `UploadRegistry.Uploads.InsertStream` | native/src/client.rs:82-89 | the stream is stored under its id; ids, progress and uploads are untouched |
| `UploadRegistry.Uploads.InsertProgress` | native/src/client.rs:91-102 | the slot is stored under its id and nothing else changes |
| `UploadRegistry.Uploads.BeginProgress` | native/src/client.rs:104-110 | one draw, and a slot of that total under the id answered |
| `UploadRegistry.Uploads.TakeStream` | native/src/client.rs:137-144 | the stream once, an error afterwards; every other entry stays |
| `UploadRegistry.Uploads.Register` | native/src/client.rs:146-154 | one draw, and the upload under the handle answered |
| `UploadRegistry.AcceptedCounter.TryReserve` | native/src/client.rs:213-216 | within the bound the whole chunk is reserved exactly when it fits, and the counter never passes the declared size |
| `UploadRegistry.Uploads.StartStream` | native/src/client.rs:191-202 | the three operations of a begin list the slot and the stream under one drawn id |
| `UploadRegistry.AnsweredIdsDifferExactlyFor` | native/src/client.rs:58-80 | in every list of uses no id is answered twice, by whichever uses, if and only if at most 2^64 are drawn |
| `UploadRegistry.StreamAnsweredIff` | native/src/client.rs:122-144 | in every list of uses a chunk or a finish is answered the stream begun under an id if and only if no finish has taken it since |
| `UploadRegistry.HandleResolves` | native/src/client.rs:146-164 | in every list of uses a registered upload is what its handle resolves to ever after, and the handle is never a stream or a slot |
| `UploadRegistry.PollAnsweredIff` | native/src/client.rs:91-120 | in every list of uses a poll is answered a slot if and only if an earlier use opened it under that id, a stream's included, and otherwise the id is unknown |
| `UploadRegistry.HandleAnsweredIff` | native/src/client.rs:146-164 | in every list of uses a handle resolves to an upload if and only if one was registered under it, and is otherwise unknown |
| `UploadRegistry.StreamAnsweredWasBegun` | native/src/client.rs:122-144 | no chunk or finish is answered a stream but one begun under its id |
| `Walks.Walk.CollectPage` | native/src/ops/dialogs.rs:158-164 | collecting stops at the limit or at the end: exactly the next rows, in order |
| `Walks.Walk.CollectAll` | native/src/ops/dialogs.rs:167-171 | everything the iterator has left |
| `Walks.Walk.Skip` | native/src/ops/files.rs:366-370 | skipping drops that many rows, or all of them |
| `DialogPaging.SkipPastCursor` | native/src/ops/dialogs.rs:117-137 | the iterator stands right after the first dialog that matches all three values, or at the end |
| `DialogPaging.GetDialogs` | native/src/ops/dialogs.rs:139-175 | the whole list for `all`, otherwise the next rows after the cursor up to the clamped limit |
| `DialogPaging.AllWins` | native/src/ops/dialogs.rs:69-80 | `all` answers the whole list, whatever limit and cursor come with it |
| `DialogPaging.PageIs` | native/src/ops/dialogs.rs:67-107 | a page is the first rows of what its cursor leaves: as many as the limit if that is 1 to 100, 50 without one, one for 0 and 100 for more, or all there are |
| `DialogPaging.ResumesAfterIff` | native/src/ops/dialogs.rs:109-137 | a cursor resumes right after its own dialog if and only if no earlier dialog has the same key |
| `DialogPaging.StaleCursorEndsListing` | native/src/ops/dialogs.rs:117-123 | a cursor that matches nothing gives an empty page |
| `DialogPaging.PartialCursorRestarts` | native/src/ops/dialogs.rs:83-107 | a cursor with a value missing is no cursor at all |
| `DialogPaging.PagesTileFrom` | native/src/ops/dialogs.rs:67-175 | for any limits, chained pages from any position are the following rows, none lost, repeated or moved |
| `DialogPaging.PagesTileIff` | native/src/ops/dialogs.rs:83-137 | chained pages tile the list for all limits if and only if every dialog has a whole key and the keys are distinct |
| `DialogPaging.PagesEqualAll` | native/src/ops/dialogs.rs:139-175 | enough chained pages are exactly the `all` walk |
| `OffsetWalks.GetParticipants` | native/src/ops/chats.rs:137-167 | the loops answer the participants page of the payload's limit and offset, and the total |
| `OffsetWalks.IterProfilePhotos` | native/src/ops/files.rs:355-390 | the whole list for `all`, otherwise the photos page of the payload's limit and offset |
| `OffsetWalks.ParticipantsPageIs` | native/src/ops/chats.rs:140-165 | from an offset within the list the page is a prefix of what is left, of as many rows as the limit if that is 1 to 200, 100 without one, one for less and 200 for more, or all there are; past the end it is empty, and an absent or negative offset reads from the top |
| `OffsetWalks.PhotosPageIs` | native/src/ops/files.rs:136-148 | the same of photos, 50 without a limit and 100 at most |
| `OffsetWalks.IndexPagesTile` | native/src/ops/files.rs:361-381 | for any limits, absent and out of range ones too, pages asked for one after the other at the offset reached are the list from the first offset on, in order, nothing lost or repeated |
| `OffsetWalks.PagesReachTheEnd` | native/src/ops/chats.rs:140-165 | as many requests as there are rows read either list whole |
| `BlockedPeers.ProjectBlocked` | native/src/ops/contacts.rs:377-396 | the entries that resolve, in order, with their dates in milliseconds |
| `BlockedPeers.WalkBlocked` | native/src/ops/contacts.rs:345-372 | the loop collects the whole list in floor(n/100)+1 requests and its offset stays an `i32` |
| `BlockedPeers.GetAllBlocked` | native/src/ops/contacts.rs:339-375 | the rows are the whole list resolved against every object any page carried |
| `BlockedPeers.GetBlockedPage` | native/src/ops/contacts.rs:314-337 | the entries of that offset and clamped limit that resolve against what came along, in order, and the total for an answer that is a slice |
| `BlockedPeers.ResolvesToFirstIff` | native/src/dto/contacts.rs:149-181 | an entry resolves to an object if and only if it is the first with its bare id, among the users for a user and among the chats otherwise |
| `BlockedPeers.ResolvesToItsPeerIff` | native/src/dto/contacts.rs:149-181 | an entry resolves to the peer it names, kind and id, if and only if a user with its id came along, or the first chat with its bare id is of its kind |
| `BlockedPeers.BareIdsCollide` | native/src/dto/contacts.rs:170-171 | a channel's entry resolved to the basic group that shares its bare id |
| `BlockedPeers.MoreObjectsResolve` | native/src/dto/contacts.rs:149-181 | against more objects at least as many entries resolve |
| `BlockedPeers.SameRowIff` | native/src/dto/contacts.rs:149-181 | two lots of objects that both resolve an entry give one row, and one peer, if and only if the first chats with its bare id in each are of one kind |
| `BlockedPeers.WalkResolves` | native/src/ops/contacts.rs:345-372 | whatever the offset and the limit, an entry its page resolves is resolved in the walk |
| `BlockedPeers.WalkKeepsPage` | native/src/ops/contacts.rs:314-375 | for every offset and limit, every entry a page resolves has its row in the walk's answer, in its place and in order, and these are the page's own rows if and only if the first chats with each bare id are of one kind on the page and in the walk |
| `Login.NativeClient.RequestLoginCode` | native/src/ops/auth.rs:63-75 | the field holds the new token on success and is untouched on failure |
| `Login.NativeClient.SignIn` | native/src/ops/auth.rs:77-113 | the field and the outcome for each of the server's four answers, and for a call out of order |
| `Login.NativeClient.CheckPassword` | native/src/ops/auth.rs:115-133 | the token is used up whatever the answer; out of order the field is left idle |
| `Login.NativeClient.SignOut` | native/src/ops/auth.rs:140-150 | the field is cleared only when the server agreed |
| `Login.StateFollowsLastChange` | native/src/ops/auth.rs:63-150 | after any calls in sequence the field holds a login token if and only if the last call that changed it asked for a code or had a wrong one, and a password token if and only if it was told a password is needed |
| `Login.ReachesTheServerIff` | native/src/ops/auth.rs:77-133 | `signIn` and `checkPassword` reach the server if and only if the history's last change allows it; out of order they leave the flow idle |
| `Login.OutcomeIff` | native/src/ops/auth.rs:63-150 | what a call returns, by the history and the server's answer: authorized if and only if it reached the server and the server said yes, and each other outcome likewise |
| `Login.StepKeepsInv` | native/src/ops/auth.rs:63-150 | every lock, request and answer of every concurrent call keeps each token in one place |
| `Login.RunKeepsInv` | native/src/ops/auth.rs:63-150 | so does every interleaving |
| `Login.TokensAreLinear` | native/src/client.rs:259-264 | in every interleaving no token is both in the field and with a call, or with two calls |
| `Login.NothingIsSubmittedTwice` | native/src/ops/auth.rs:77-133 | no password token is ever submitted twice, and a login token only again after the server called its code wrong in between |
| `Login.PutBackMayLoseANewerCode` | native/src/ops/auth.rs:102-109 | a concrete interleaving in which the put-back overwrites a newer code request's token |
| `LoginRaces.StoreDiscards` | native/src/ops/auth.rs:69-109 | storing a token discards exactly the one the field holds |
| `LoginRaces.PutBackDiscardsIff` | native/src/ops/auth.rs:77-109 | in every interleaving a sign-in's store discards a token if and only if the field is not idle, and that if and only if another call stored one since its take that was neither taken nor cleared |
| `LoginRaces.PutBackMayDiscardIff` | native/src/ops/auth.rs:77-109 | with no code request or sign-in begun meanwhile, a put-back can discard a token if and only if one that can store is in flight at its take |
| `LoginRaces.PutBackUndoesSignOut` | native/src/ops/auth.rs:102-109 | a concrete interleaving in which a put-back stores a code token after a sign-out cleared the field |
| `LoginRaces.SignOutIsFinalIff` | native/src/ops/auth.rs:135-150 | in every interleaving a sign-out keeps older tokens out of the field for good if and only if no code request about to store and no sign-in past its take is in flight at its clear |
| `Login.UninterruptedCall` | native/src/ops/auth.rs:63-150 | a call whose steps nothing interrupts does what its handler does, which ties the two models together |
| `SchemaParser.ParseDeclarations` | tools/generate_raw_schema.py:18-45 | the loop over candidates computes the parse of the whole source: the records in order, the first bad declaration, or the error for none |
| `SchemaParser.ParseDeclaration` | tools/generate_raw_schema.py:25-42 | one turn of the loop: name, sign-adjusted id, parameters, result and text of a declaration, or its error |
| `SchemaParser.BeforeCommentHasNone` | tools/generate_raw_schema.py:19 | what is kept of a line is a prefix of it without `//` |
| `SchemaComments.BeforeCommentIs` | tools/generate_raw_schema.py:19 | of a line with a comment all that stands before the first `//` is kept, and nothing after |
| `SchemaComments.CommentIsIgnored` | tools/generate_raw_schema.py:18-24 | a comment at the end of any line of any source changes no declaration, whatever ends the line, also when nothing else stands on it |
| `SchemaComments.LinesConcat` | tools/generate_raw_schema.py:19 | the lines of a text that ends its last line, and of any text after it, are those of both |
| `SchemaComments.PartsAre` | tools/generate_raw_schema.py:21 | the candidates are what stands between semicolons |
| `SchemaComments.KeptIsFilter` | tools/generate_raw_schema.py:22-24 | a candidate is kept, normalised and in its place, if and only if it has an equals sign |
| `SchemaComments.WordsConcat` | tools/generate_raw_schema.py:22 | whitespace anywhere in a text separates its words |
| `SchemaComments.CharacterClasses` | tools/generate_raw_schema.py:19-26 | which characters are whitespace, line breaks and hexadecimal digits, one by one |
| `SchemaComments.NameCharacters` | tools/generate_raw_schema.py:26 | a name is letters, decimal digits, underscores and dots |
| `SchemaComments.NameMatchIff` | tools/generate_raw_schema.py:26 | the head matches if and only if it is a name, `#`, hexadecimal digits, and then the end or whitespace |
| `SchemaComments.RefusedIff` | tools/generate_raw_schema.py:25-28 | a declaration is refused if and only if what stands before its first equals sign has no such head |
| `SchemaComments.ParseFailsIff` | tools/generate_raw_schema.py:18-45 | a source fails if and only if it has no declaration, or with the first declaration that is refused |
| `SchemaParser.CleanIsNormal` | tools/generate_raw_schema.py:22 | normalising changes nothing in a text with single inner spaces and none at the ends |
| `SchemaParser.DeclarationsAreClean` | tools/generate_raw_schema.py:19-24 | no declaration of any source holds a comment mark, a semicolon, a line break or more than single spaces |
| `SchemaParser.TextReadsBack` | tools/generate_raw_schema.py:19-24 | clean declarations written one a line are exactly the declarations read from that text |
| `SchemaParser.ReparseGivesTheSameRecords` | tools/generate_raw_schema.py:18-45 | whatever a source parses to, its emitted `declaration` strings joined by newlines parse to the same records |
| `SchemaParser.WrittenParsesBack` | tools/generate_raw_schema.py:25-42 | a declaration written from any well-formed name, id, parameters and result parses to exactly those |
| `SchemaParser.CanonicalTextParses` | tools/generate_raw_schema.py:18-45 | so does a whole text of them |
| `SchemaParser.FieldsDetermineDeclarationsIff` | tools/generate_raw_schema.py:35-43 | what any source parses to, written afresh from the four fields, parses to the same if and only if the ids fit in 32 bits |
| `SchemaParser.EightDigitIds` | tools/generate_raw_schema.py:29-32 | up to eight digits the id is the two's-complement reading, and ids are equal if and only if the digits are but for leading zeros |
| `SchemaParser.NineDigitsCollide` | tools/generate_raw_schema.py:29-32 | two different digit strings with one id, the longer of nine digits |
| `SchemaParser.IdIsTwosComplementIff` | tools/generate_raw_schema.py:29-32 | for digits of any number, the id is their two's complement if and only if at most eight are significant |
| `SchemaParser.IdsCollideIff` | tools/generate_raw_schema.py:29-32 | for digits of any number, two ids are equal if and only if their significant digits are or one is the other's eight behind a ninth, a one |
| `Markup.CollectErrIff` | native/src/ops/markup.rs:274-283 | collecting a row fails with an error if and only if it is that of the first entry refused |
| `Markup.BuildRowsOkIff` | native/src/ops/markup.rs:266-284 | rows are built if and only if there is one, none is empty and each button is built, into a matrix of the same shape |
| `Markup.ButtonFaults` | native/src/ops/markup.rs:226-309 | what a button is refused for: an empty label first, then callback data that is empty or over 64 bytes |
| `Markup.BuildFailsIff` | native/src/ops/markup.rs:149-309 | a spec fails with an error if and only if it is the first fault in row-major order |
| `Markup.BuildsIff` | native/src/ops/markup.rs:149-309 | a spec is built if and only if rows, labels and callback data are within the bounds |
| `Markup.InlineButtonRoundTrip` | native/src/dto/markup.rs:208-266 | a built inline button projects to a document that reads back as its spec, an absent `samePeer` written out |
| `Markup.KeyRoundTrip` | native/src/dto/markup.rs:268-297 | a built keyboard button projects to a document that reads back as its spec |
| `Markup.BuildProjectsBack` | native/src/ops/markup.rs:690-768 | for every spec that builds, the projection reads back as that spec and rebuilds the same markup |
| `Markup.ResendIff` | native/src/dto/markup.rs:147-299 | any markup a message carries can be read back and built if and only if its buttons are of kinds and bounds a spec has, and the result is then the markup with exactly style, persistence, placeholder, password flag, peer types and `quiz: false` dropped |
| `Markup.ResentUnchangedIff` | native/src/ops/markup.rs:690-768 | a received markup comes back the same if and only if some spec builds it |
| `Markup.ExplicitPollIsNotResentUnchanged` | native/src/dto/markup.rs:277-282 | a poll button that says `quiz: false` comes back without the flag, and no spec builds it |
| `Utf8.ValidUtf8Iff` | native/src/dto/markup.rs:217 | octets are accepted as UTF-8 if and only if they encode a sequence of Unicode scalar values (section 3 of RFC 3629) |
| `MarkupFields.InlineKindIff` | native/src/dto/markup.rs:201-262 | an inline button's document says a kind if and only if the button is of it |
| `MarkupFields.KeyKindIff` | native/src/dto/markup.rs:268-299 | so does a keyboard button's |
| `MarkupFields.InlineTextsIff` | native/src/dto/markup.rs:54-98 | which texts an inline button's document has, field by field, if and only if of which kind |
| `MarkupFields.InlineFlagsIff` | native/src/dto/markup.rs:54-98 | which flags, ids and peer types it has |
| `MarkupFields.KeyFieldsIff` | native/src/dto/markup.rs:54-98 | which fields a keyboard button's document has |
| `MarkupFields.ReadsBack` | native/src/dto/markup.rs:146-299 | every received markup can be read whole out of its document, but for style, callback data that is not UTF-8, and the bot, user or peer type that no document says |
| `MarkupFields.SameDocumentIff` | native/src/dto/markup.rs:146-299 | two received markups have one document if and only if they differ in nothing but these |
| `InviteLinks.HashOfUrl` | native/src/ops/chats.rs:529-570 | the hash of a link is that of its path, if scheme and host are listed ones |
| `InviteLinks.HashOnlyOfUrls` | native/src/ops/chats.rs:529-570 | every text that has a hash is such a link, taken apart into its four parts |
| `InviteLinks.TailIsIgnored` | native/src/ops/chats.rs:534-535 | for every text, appending a query or a fragment never changes the answer |
| `InviteLinks.CaseIsIgnored` | native/src/ops/chats.rs:531-552 | for every text, letter case up to the end of the authority never matters |
| `InviteLinks.HashHasNoDelimiters` | native/src/ops/chats.rs:554-569 | a hash consists of characters of the link and has no `/`, `?` or `#` |
| `InviteLinks.ReadersOnPlusLinks` | native/src/dto/chatlists.rs:282-296 | on `/+h` links the hash is `h` without plus signs and the slug is `h`; they agree if and only if `h` is not empty and has no plus sign |
| `InviteLinks.JoinchatSlug` | native/src/dto/chatlists.rs:282-296 | on `joinchat/` links the slug is read after the first `/+` from there on if there is one, and after the word if not |
| `InviteLinks.ReadersOnJoinchatLinks` | native/src/ops/chats.rs:529-570 | on `/joinchat/h` links with no later `/+` both readers answer `h`, if not empty |
| `InviteLinks.ReadersDifferAfterPlus` | native/src/dto/chatlists.rs:282-296 | a `/+` in the query makes them differ |
| `InviteLinks.ReadersAgreeOnJoinchatIff` | native/src/dto/chatlists.rs:282-296 | on every `joinchat/h` link the readers agree if and only if `h` is not empty and either no `/+` follows the word or what follows the first, up to the next delimiter, is `h` |
| `InviteParts.HashOfLink` | native/src/ops/chats.rs:529-570 | the hash of a link is that of its path if and only if the scheme is `http` or `https` and the host one of the five, in any case; credentials and port never matter |
| `InviteParts.HostOfIff` | native/src/ops/chats.rs:541-544 | the host is what stands between the last `@` and the next `:` |
| `InviteParts.HashOfOneSegment` | native/src/ops/chats.rs:556-561 | a path of one segment has the hash after its plus sign, or none |
| `InviteParts.HashOfTwoSegments` | native/src/ops/chats.rs:562-569 | of a longer path the second segment is the hash after one that begins with `joinchat`, and a first one that begins with a plus sign otherwise |
| `InviteParts.SlugIff` | native/src/dto/chatlists.rs:282-297 | of every text the slug is what stands after the first `/+`, or without one after the first `joinchat/`, up to the next delimiter, if that is something; there is none otherwise |
| `PeerIds.DecodesIff` | native/src/ops/chats.rs:598-613 | over every `i64`, an id decodes to a peer if and only if the peer's bare id is in its kind's range and the id is its dialog id |
| `PeerIds.DialogIdsAreDistinct` | native/src/dto/chatlists.rs:416-431 | no two such peers share a dialog id, across kinds too |
| `PeerIds.SecondRangeIsRefused` | native/src/ops/chats.rs:605-612 | every channel the second range was meant for is refused |

## Left out

- grammers, Tokio, JNI, serde and the network: the channel is a FIFO of four chunks that closes when no sender is left, an upload task answers Ok only after reading exactly the declared number of bytes and may otherwise fail at any point, an iterator runs over a fixed list, a server answers pages of a fixed list, and the login server may answer anything.
- Relaxed atomics are modelled as sequentially consistent; a failed and repeated compare-and-swap is not a step of its own.
- `task.abort()` after a short stream: an upload task may fail at any point, so an abort is one of the ways it does; that it must is not modelled.
- Poisoned mutexes: locks never fail.
- `u64` overflow panics of a debug build: the addition in the reservation wraps, as in a release build.
- UploadTheorems.Conservation: the equation on counters needs the declared size to leave room for the longest chunk, because above that the reservation can wrap; the bound is shown exact by UploadTheorems.ReservationIsExactIff, for texts shorter than 2^63 bytes without the few bytes of the payload around them.
- UploadTheorems.FullStreamIsFrozen: needs the same bound, because above it a full stream can accept a wrapping chunk.
- UploadEndToEnd.UploadedIsTheFile: chunk calls on the stream are made one at a time, because calls that run side by side race for the channel and the source promises no order among them.
- UploadOutcomes.FinishOfFullStream: needs the same bound, because above it a full stream can accept a wrapping chunk and be short again.
- UploadLiveness.MaximalRunReturnsAll: about runs of productive steps, with declared sizes in that bound and enough ids left to draw; a schedule that forever polls a reader with nothing to hand over is not ruled out.
- UploadTheorems.SnapshotsAreBounded: about streams that no path upload has named, because one that has makes it false (ProgressSlots.StreamSnapshotsAreBoundedIff), and in the bound on declared sizes; the slots of `begin_progress` are ProgressSlots.SingleUploadIsBounded. Files keep their length while they are read.
- BlockedPeers.WalkKeepsPage: needs objects of one kind with one id to be equal, because the walk takes the first match among all pages, and a server on which an entry that one page holding it resolves is resolved on every such page; BlockedPeers.OwnPageIsResolved shows that the pages of the walk itself need no such server. A negative offset is the server's to answer.
- InviteLinks.ReadersOnJoinchatLinks: needs a listed host without credentials and without a port spelled `joinchat`, because the slug reader searches the whole text for its markers.
- PeerIds.DecodesIff: the layer's own constructors are taken to accept every bare id the guards before them let through.
- Markup.BuildProjectsBack: the kind strings of a document are constructors of a datatype, and a document is a value rather than JSON text.
- SchemaComments.CommentIsIgnored: about lines that do not end in `/`, because after one the comment mark begins a character earlier.
- `generate`: the layer number, the section marker, the digest and the JSON of the manifest.
- `uploadBytes`, downloads and what `uploadFile` answers; elapsed time and rate of a progress readout.
- The update pump, whose source is not part of this model.
- The copies of the base64 encoder in `native/src/dto/message.rs` and `native/src/dto/update.rs`.
- The handles that projected peers register, and the `users` list and count beside the blocked rows.
- The other projections (accounts, messages, media, stickers, folders, notifications, permissions) and the name tables.
- Dispatch, payload parsing beyond what a round trip needs, library loading and the Kotlin side.
