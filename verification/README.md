# music_jam song queue, dispatcher and player text — a Dafny model

music_jam is a shared-queue music app. A host opens a jam. Users join it,
add songs looked up at the music provider and vote on them. Every
connection sees the queue ranked by votes. This project models three
parts of it:

- **Song store operations** (`songs.dfy`, module `Songs`):
  - `remove_song` and `add_song` are methods of a `Store` class whose
    fields are the four tables: jams, users, songs and votes.
  - The ranking query of `get_songs` and its per-viewer shaping are pure
    functions of a snapshot of those tables.
  - The narrowing casts of the source (`as i16`, `as i32`, `as u32`) are
    written out as two's-complement truncations. The `as u64` of a vote
    COUNT (src/general/functions/song.rs:66 and :84) is the identity on a
    non-negative count, so vote counts are plain `nat`s.
- **Per-connection command dispatcher** (`dispatch.dfy`, module `Dispatch`):
  - `read` is a method with a `while` loop over the inbound items.
  - `only_host` and `only_user` are methods that put a fatal Forbidden
    frame on the connection's outbound queue, a field of a `Sender` object.
  - The loop is proved equal to a specification function `Run`. The
    lemmas about `Run` state what the loop guarantees.
- **Player component's text** (`player.dfy`, module `Player`):
  - `millis_to_min_sec`, with a parser that reads the text back.
  - The song-length default.
  - The title and artist lines, doubled when they overflow.

Shared types (`jam_types.dfy`, module `JamTypes`):

- the connection identity `IdType` (Host or User, with own id and jam id)
- the `Error` enum
- the change signal
- the per-viewer `Song` record

The order on song ids (`collation.dfy`, module `Collation`) is
lexicographic on code points.

## Model

| member | source | states |
|---|---|---|
| Collation.Irreflexive | src/general/functions/song.rs:53 | no id sorts before itself |
| Collation.Asymmetric | src/general/functions/song.rs:53 | two ids never sort before each other |
| Collation.Transitive | src/general/functions/song.rs:53 | the id order is transitive |
| Collation.Total | src/general/functions/song.rs:53 | any two distinct ids are ordered one way or the other |
| Collation.NotLessTransitive | src/general/functions/song.rs:53 | "not before" is transitive, so `ORDER BY ... s.id DESC` is a total preorder |
| Songs.AsI16 | src/general/functions/song.rs:150 | `as i16` lands in [-2^15, 2^15), differs from its input by a multiple of 2^16 (keeps the low 16 bits), and is the identity inside the range |
| Songs.AsI32 | src/general/functions/song.rs:168 | `as i32` lands in [-2^31, 2^31), differs from its input by a multiple of 2^32 (keeps the low 32 bits), and is the identity inside the range |
| Songs.AsU32 | src/general/functions/song.rs:120 | `as u32` is the identity on non-negative u32 values and adds 2^32 to a negative i32 |
| Songs.DeleteSong | src/general/functions/song.rs:27-29 | the DELETE removes exactly the rows with the given id and keeps every other row; afterwards no row has that id |
| Songs.DeleteSongKeepsKey | src/general/functions/song.rs:27-29 | the delete keeps the songs table's primary key (ids stay distinct) |
| Songs.CountOwned | src/general/functions/song.rs:139-143 | the COUNT is at most the number of rows, and zero exactly when the user owns no row |
| Songs.CountOwnedAppend | src/general/functions/song.rs:159-177 | inserting a row raises its owner's count by one and leaves every other user's count unchanged |
| Songs.CountVotes | src/general/functions/song.rs:47-50 | `COUNT(v.id)` of the left join is zero exactly when no vote row names the song |
| Songs.VotedSongs | src/general/functions/song.rs:73-78 | a song id is in the user's voted list exactly when a vote row (user, song) exists |
| Songs.QuotaIsPlainComparison | src/general/functions/song.rs:150 | below 2^15 songs the truncated quota test is the plain `count >= max` |
| Songs.NewRow | src/general/functions/song.rs:159-175 | the inserted row is the INSERT's column list: the song id, the caller's user id, the track name, the album name, the duration in milliseconds cut to i32, the first album image's url and the artist names |
| Songs.JamRows | src/general/functions/song.rs:45-52 | the query selects exactly the songs whose owner is a user of the jam, each with its vote count, one row per song id |
| Songs.NotBelowTotal | src/general/functions/song.rs:53 | of two rows, one may always precede the other under `votes DESC, s.id DESC` |
| Songs.NotBelowTransitive | src/general/functions/song.rs:53 | the ordering relation is transitive |
| Songs.Insert | src/general/functions/song.rs:53 | inserting into a ranked sequence gives a ranked permutation of it plus the new row |
| Songs.Sort | src/general/functions/song.rs:53 | the ORDER BY result is ranked and a permutation of the selected rows |
| Songs.InsertKeepsDistinct | src/general/functions/song.rs:52 | inserting a row with a new id keeps ids distinct |
| Songs.SortKeepsDistinct | src/general/functions/song.rs:52 | ordering keeps one row per song id |
| Songs.RankedRowsSelection | src/general/functions/song.rs:45-57 | the query's rows are ranked, one per song id, and are exactly the jam's songs with their vote counts |
| Songs.RankedUnique | src/general/functions/song.rs:53 | two orderings of the same rows with distinct ids under `votes DESC, s.id DESC` are the same sequence |
| Songs.JamRowsMultiplicity | src/general/functions/song.rs:45-52 | the query selects a row as often as its song is stored, when the song is in the jam and the count is its own, and never otherwise |
| Songs.RankingIgnoresStorageOrder | src/general/functions/song.rs:45-57 | the ranked rows do not depend on the order in which the songs table stores its rows |
| Songs.VoteTable | src/general/functions/song.rs:59-91 | the id-to-vote map has an entry for every row; with distinct ids each entry is that row's count, with no flag for a host and the "you voted" flag for a user |
| Songs.GetSongs | src/general/functions/song.rs:93-125 | the result has one entry per query row, in query order |
| Songs.GetSongsEntries | src/general/functions/song.rs:93-123 | every entry is a row of the viewer's jam, shaped for the viewer: vote count, vote flag, owner id shown only to the owner, placeholder artist for a null column, duration cast to u32 |
| Songs.GetSongsSelection | src/general/functions/song.rs:45-57 | the queue holds exactly the songs of the viewer's jam, each once |
| Songs.GetSongsOrder | src/general/functions/song.rs:53 | the queue is by vote count descending, then by song id descending |
| Songs.GetSongsIgnoresStorageOrder | src/general/functions/song.rs:33-126 | what a viewer is shown does not depend on the order in which the songs table stores its rows |
| Songs.GetSongsNeverFallsBack | src/general/functions/song.rs:96-102 | the map lookup always finds the row's own entry, so the zero-vote default is never used |
| Songs.Store.RemoveSong | src/general/functions/song.rs:7-31 | a user who does not own the song gets Forbidden and nothing changes; otherwise (a host, or the owner) the song's rows are deleted and the songs change is signalled; other tables unchanged, primary key kept |
| Songs.Store.AddSong | src/general/functions/song.rs:128-180 | errors in the source's order (missing jam, quota, provider lookup, empty album images, duplicate id), nothing changes on error; success exactly when none applies; on success one row is appended, the user's count rises by one and no other user's count changes |
| Dispatch.HandleError | src/app/socket/read.rs:29 | reporting an error appends exactly one frame with that error and fatal flag to the outbound queue |
| Dispatch.OnlyHost | src/app/socket/read.rs:98-111 | a host gets its ids and nothing is sent; a user gets nothing and one fatal Forbidden frame is queued |
| Dispatch.OnlyUser | src/app/socket/read.rs:113-126 | a user gets its ids and nothing is sent; a host gets nothing and one fatal Forbidden frame is queued |
| Dispatch.Report | src/app/socket/read.rs:41-43 | a handler error is queued as one non-fatal frame; a success queues nothing |
| Dispatch.Execute | src/app/socket/read.rs:34-92 | a command for the other role stops the loop with one fatal Forbidden frame and no call; a permitted command calls its handler with the connection's ids and queues the handler's error, if any |
| Dispatch.Read | src/app/socket/read.rs:8-94 | the loop's queued frames, handler calls and consumed items are those of `Run` |
| Dispatch.RunCallsFit | src/app/socket/read.rs:35-88 | every handler called is one the connection's role may call, with the connection's own ids |
| Dispatch.RunFatalIsLast | src/app/socket/read.rs:28-30 | handler errors are non-fatal, decode and role errors fatal, and a fatal frame is always the last frame sent |
| Dispatch.RunSplit | src/app/socket/read.rs:14 | up to the first stopping item the run is the prefix's run followed by the rest's; the prefix is consumed whole and sends nothing fatal |
| Dispatch.RunEndsAtFirstStop | src/app/socket/read.rs:15-32 | the loop ends at the first transport error, undecodable frame or command for the wrong role, after sending what that item sends |
| Dispatch.RunIgnoresLaterItems | src/app/socket/read.rs:19-30 | nothing received after a stopping item affects the run |
| Dispatch.HandlerErrorIsNonFatal | src/app/socket/read.rs:41-43 | a failing handler of a permitted command yields one non-fatal frame and the loop goes on with the next item |
| Dispatch.UpdateChangesNothing | src/app/socket/read.rs:89-91 | an Update command sends and calls nothing; it is only consumed |
| Player.Decimal | src/components/user/player.rs:171 | `{}` of a number is a non-empty digit string without leading zero that denotes the number |
| Player.ZeroPad | src/components/user/player.rs:171 | zero padding reaches the width, keeps the digits at the end and puts only zeros in front |
| Player.ZeroPadValue | src/components/user/player.rs:171 | padding does not change the number a digit string denotes |
| Player.MinutesOfMillis | src/components/user/player.rs:168-170 | minutes of whole seconds are `millis / 60000`, and minutes * 60 + leftover seconds = whole seconds |
| Player.FieldsIffSameSecond | src/components/user/player.rs:168-170 | two durations have the same minutes and leftover seconds exactly when they have the same whole seconds |
| Player.MinSecText | src/components/user/player.rs:171 | the text is digits, ':', two digits; the first field denotes the minutes, has no leading zero and the second denotes the seconds |
| Player.MinSecTextParses | src/components/user/player.rs:171 | the text reads back as the minutes and seconds it was made of |
| Player.MillisToMinSec | src/components/user/player.rs:167-172 | the text is that of the whole minutes `millis / 60000` and the seconds left over `(millis / 1000) % 60` |
| Player.MillisRoundTrip | src/components/user/player.rs:167-172 | the text of a duration reads back as its whole minutes and leftover seconds |
| Player.SameTextIffSameSecond | src/components/user/player.rs:167-172 | two durations show the same text exactly when they have the same whole seconds |
| Player.SongLength | src/components/user/player.rs:22 | the length is the song's duration, or 0 when no song is playing |
| Player.NoSongShowsZero | src/components/user/player.rs:97 | with no song the length reads "0:00" |
| Player.Repeat | src/components/user/player.rs:54 | `repeat(n)` is n copies of its input: n times as long, and character i is character i mod the input's length |
| Player.TitleText | src/components/user/player.rs:51-54 | the title line is the song's name, twice when it overflows, and empty with no song |
| Player.ArtistText | src/components/user/player.rs:72-80 | the artist line is the names joined by ", ", twice when it overflows, and empty with no song |
| Player.SplitJoin | src/components/user/player.rs:73 | while no name holds a comma, splitting the joined line at ", " gives back the names |

Notes on the model:

- **Role mismatch.** The dispatcher is modelled as the code behaves.
  A command for the other role is reported as a fatal Forbidden frame,
  and the loop ends (src/app/socket/read.rs:107 and :122, then `break`).
  It is not a non-fatal error after which reading continues.
- **RemoveSong is host-only.** RemoveSong passes the dispatcher only for
  a host, so the ownership check in `remove_song` is never reached from
  this loop.
- **Handler calls.** Handler calls are recorded as `Call` values with
  the arguments the call sites pass: src/app/socket/read.rs:41, 51, 62,
  72 and 84. The handlers themselves are abstract. `replies[i]` is what
  the handler returns if item `i` reaches one.

## Left out

- Database connection failures are not modelled. The `?` exits on a
  failed connection or statement are left out. The only failures modelled
  are those the data causes: a missing jam row (`fetch_one` finds nothing)
  and a duplicate song id on INSERT. Both are `Database`.
- Songs.Store.AddSong: the provider token fetch, the track id parse and
  the track lookup are one parameter `lookup: Result<Track>`. Network
  access is outside the model.
- Songs.Store.AddSong: indexing `images[0]` on a track with no album
  images panics in the source; here that is the error value `Panic`, and
  nothing is inserted.
- Songs.Store.RemoveSong: deleting a song's votes by cascade is a schema
  rule that is not visible in the source, so it is not modelled.
- Songs.Sort: the tie-break `s.id DESC` is taken in the C collation
  (code-point order). Under any other collation of the id column, such as
  a locale collation like en_US.UTF-8, songs with equal votes may be
  ordered differently, even for ASCII ids that differ in letter case
  ("B" before "a" by code point, "a" before "B" in en_US).
- The ranking query is modelled on a snapshot. Interleaving with other
  connections' writes is not modelled.
- Error message strings (the `Forbidden` texts) and logging are not
  modelled.
- Handlers are abstract: `kick_user`, `add_vote` and `remove_vote` are
  represented by their replies. The handlers the loop calls live in a
  module that is not part of this model.
- MessagePack decoding is abstract: each inbound item is already
  classified as a transport error, undecodable, or a decoded command.
- The change feed that pushes the queue to subscribers is not part of
  this model (src/app/socket/write.rs).
- Player: the progress bar and the elapsed-time text use floating point
  (`position() * song_length() as f32`, src/components/user/player.rs:90
  and :95). They are not modelled.
- Player: whether a line overflows its box is measured in the browser's
  DOM, so it is a boolean input here. Setting the background image is
  not modelled.
- The host player component (src/app/components/host_only/player.rs) and
  src/app/components/general.rs are not part of this model.
