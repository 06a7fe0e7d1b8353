/** Song mutation and the ranked queue view over the relational store.

    The store is four tables: jams (id -> max_song_count), users
    (id -> jam_id), songs (rows keyed by the provider track id) and votes
    (one row per (user, song) edge).  `RemoveSong` and `AddSong` change the
    songs table in place; the queue query is a pure function of a snapshot. */
module Songs {
  import opened JamTypes
  import Collation

  /** A row of the songs table; `artists` is a nullable column. */
  datatype SongRow = SongRow(
    id: string,
    userId: string,
    name: string,
    album: string,
    duration: int,
    imageUrl: string,
    artists: Option<seq<string>>)

  /** A row of the votes table. */
  datatype VoteRow = VoteRow(userId: string, songId: string)

  /** The store's tables at one instant. */
  datatype Tables = Tables(
    jams: map<string, int>,
    users: map<string, string>,
    songs: seq<SongRow>,
    votes: seq<VoteRow>)

  /** What the provider's track lookup returns. */
  datatype Track = Track(
    name: string,
    albumName: string,
    durationMs: int,
    imageUrls: seq<string>,
    artists: seq<string>)

  /** The artists shown for a row whose artists column is null. */
  const NoArtist := "no artist found in cache, this is a bug"

  // ---------------------------------------------------------------------
  // Integer casts of the source, written out

  /** `x as i16`: keeps the low 16 bits, read as two's complement. */
  function AsI16(x: int): (r: int)
    ensures -0x8000 <= r < 0x8000
    ensures (x - r) % 0x1_0000 == 0
    ensures -0x8000 <= x < 0x8000 ==> r == x
  {
    (x + 0x8000) % 0x1_0000 - 0x8000
  }

  /** `x as i32`: keeps the low 32 bits, read as two's complement. */
  function AsI32(x: int): (r: int)
    ensures -0x8000_0000 <= r < 0x8000_0000
    ensures (x - r) % 0x1_0000_0000 == 0
    ensures -0x8000_0000 <= x < 0x8000_0000 ==> r == x
  {
    (x + 0x8000_0000) % 0x1_0000_0000 - 0x8000_0000
  }

  /** `x as u32` of a signed value: keeps the low 32 bits. */
  function AsU32(x: int): (r: U32)
    ensures 0 <= x < 0x1_0000_0000 ==> r == x
    ensures -0x8000_0000 <= x < 0 ==> r == x + 0x1_0000_0000
  {
    x % 0x1_0000_0000
  }

  // ---------------------------------------------------------------------
  // Queries on the songs table

  /** No two rows share an id: the primary key of the songs table. */
  predicate UniqueIds(songs: seq<SongRow>)
  {
    forall i, j :: 0 <= i < j < |songs| ==> songs[i].id != songs[j].id
  }

  /** Some row has this id. */
  predicate HasSong(songs: seq<SongRow>, songId: string)
  {
    exists i :: 0 <= i < |songs| && songs[i].id == songId
  }

  /** `SELECT * FROM songs WHERE id=$1 AND user_id=$2` finds a row. */
  predicate OwnedBy(songs: seq<SongRow>, songId: string, userId: string)
  {
    exists i :: 0 <= i < |songs| && songs[i].id == songId && songs[i].userId == userId
  }

  /** `DELETE FROM songs WHERE id=$1`: every row with that id goes, every
      other row stays, in its place. */
  function DeleteSong(songs: seq<SongRow>, songId: string): (r: seq<SongRow>)
    ensures forall row :: row in r <==> row in songs && row.id != songId
    ensures !HasSong(r, songId)
    ensures |r| <= |songs|
  {
    if songs == [] then []
    else
      var rest := DeleteSong(songs[1..], songId);
      assert forall row :: row in songs <==> row == songs[0] || row in songs[1..] by {
        assert songs == [songs[0]] + songs[1..];
      }
      if songs[0].id == songId then rest else [songs[0]] + rest
  }

  /** The delete keeps the primary key: no two surviving rows share an id. */
  lemma {:induction false} DeleteSongKeepsKey(songs: seq<SongRow>, songId: string)
    requires UniqueIds(songs)
    ensures UniqueIds(DeleteSong(songs, songId))
  {
    if songs != [] {
      var rest := DeleteSong(songs[1..], songId);
      DeleteSongKeepsKey(songs[1..], songId);
      if songs[0].id != songId {
        var r := [songs[0]] + rest;
        forall i, j | 0 <= i < j < |r| ensures r[i].id != r[j].id {
          if i == 0 {
            assert rest[j - 1] in rest;
            var k :| 0 <= k < |songs[1..]| && songs[1..][k] == rest[j - 1];
            assert songs[k + 1] == r[j];
          } else {
            assert r[i] == rest[i - 1] && r[j] == rest[j - 1];
          }
        }
      }
    }
  }

  /** `SELECT COUNT(*) FROM songs WHERE user_id=$1`. */
  function CountOwned(songs: seq<SongRow>, userId: string): (n: nat)
    ensures n <= |songs|
    ensures n == 0 <==> forall row :: row in songs ==> row.userId != userId
  {
    if songs == [] then 0
    else (if songs[0].userId == userId then 1 else 0) + CountOwned(songs[1..], userId)
  }

  /** Appending a row raises its owner's count by one and no one else's. */
  lemma {:induction false} CountOwnedAppend(songs: seq<SongRow>, row: SongRow, userId: string)
    ensures CountOwned(songs + [row], userId)
         == CountOwned(songs, userId) + (if row.userId == userId then 1 else 0)
  {
    if songs == [] {
      assert songs + [row] == [row];
    } else {
      assert (songs + [row])[1..] == songs[1..] + [row];
      CountOwnedAppend(songs[1..], row, userId);
    }
  }

  /** `COUNT(v.id)` of the left join: the vote rows for one song. */
  function CountVotes(votes: seq<VoteRow>, songId: string): (n: nat)
    ensures n <= |votes|
    ensures n == 0 <==> forall v :: v in votes ==> v.songId != songId
  {
    if votes == [] then 0
    else (if votes[0].songId == songId then 1 else 0) + CountVotes(votes[1..], songId)
  }

  /** `SELECT song_id FROM votes WHERE user_id=$1`. */
  function VotedSongs(votes: seq<VoteRow>, userId: string): (r: seq<string>)
    ensures forall songId :: songId in r <==> VoteRow(userId, songId) in votes
  {
    if votes == [] then []
    else
      var rest := VotedSongs(votes[1..], userId);
      if votes[0].userId == userId then [votes[0].songId] + rest else rest
  }

  // ---------------------------------------------------------------------
  // The per-user quota of add_song

  /** The quota test as written: the count is cut to 16 bits first. */
  predicate QuotaReached(count: nat, max: int)
  {
    AsI16(count) >= max
  }

  /** Below 2^15 songs the cut is invisible: the test is `count >= max`. */
  lemma QuotaIsPlainComparison(count: nat, max: int)
    requires count < 0x8000
    ensures QuotaReached(count, max) <==> count >= max
  {
  }

  /** The row add_song inserts for a looked-up track: the INSERT's column
      list, with the first album image and the duration cut to 32 bits. */
  function NewRow(songId: string, userId: string, track: Track): (row: SongRow)
    requires |track.imageUrls| > 0
    ensures row.id == songId && row.userId == userId
    ensures row.name == track.name && row.album == track.albumName
    ensures row.duration == AsI32(track.durationMs)
    ensures row.imageUrl == track.imageUrls[0]
    ensures row.artists == Some(track.artists)
  {
    SongRow(songId, userId, track.name, track.albumName, AsI32(track.durationMs),
            track.imageUrls[0], Some(track.artists))
  }

  // ---------------------------------------------------------------------
  // The ranking query of get_songs

  /** A result row of the ranking query: a song and its vote count. */
  datatype QueueRow = QueueRow(song: SongRow, votes: nat)

  /** The song's owner is a user of this jam (`JOIN users ... WHERE u.jam_id = $1`). */
  predicate InJam(users: map<string, string>, row: SongRow, jamId: string)
  {
    row.userId in users && users[row.userId] == jamId
  }

  /** The rows the query selects, before ordering. */
  function JamRows(songs: seq<SongRow>, users: map<string, string>, votes: seq<VoteRow>, jamId: string)
    : (r: seq<QueueRow>)
    ensures forall q :: q in r ==>
              q.song in songs && InJam(users, q.song, jamId) && q.votes == CountVotes(votes, q.song.id)
    ensures forall row :: row in songs && InJam(users, row, jamId) ==>
              QueueRow(row, CountVotes(votes, row.id)) in r
    ensures UniqueIds(songs) ==> DistinctIds(r)
  {
    if songs == [] then []
    else
      var rest := JamRows(songs[1..], users, votes, jamId);
      if InJam(users, songs[0], jamId) then
        assert forall j :: 0 <= j < |rest| ==> rest[j] in rest;
        [QueueRow(songs[0], CountVotes(votes, songs[0].id))] + rest
      else rest
  }

  /** No two queue rows share a song id. */
  predicate DistinctIds(rows: seq<QueueRow>)
  {
    forall i, j :: 0 <= i < j < |rows| ==> rows[i].song.id != rows[j].song.id
  }

  /** `a` may precede `b` under `ORDER BY votes DESC, s.id DESC`. */
  predicate NotBelow(a: QueueRow, b: QueueRow)
  {
    a.votes > b.votes || (a.votes == b.votes && !Collation.Less(a.song.id, b.song.id))
  }

  /** Ordered by vote count descending, then by id descending. */
  predicate Ranked(rows: seq<QueueRow>)
  {
    forall i, j :: 0 <= i < j < |rows| ==> NotBelow(rows[i], rows[j])
  }

  lemma NotBelowTotal(a: QueueRow, b: QueueRow)
    ensures NotBelow(a, b) || NotBelow(b, a)
  {
    if a.votes == b.votes && Collation.Less(a.song.id, b.song.id) {
      Collation.Asymmetric(a.song.id, b.song.id);
    }
  }

  lemma NotBelowTransitive(a: QueueRow, b: QueueRow, c: QueueRow)
    requires NotBelow(a, b) && NotBelow(b, c)
    ensures NotBelow(a, c)
  {
    if a.votes == b.votes == c.votes {
      Collation.NotLessTransitive(a.song.id, b.song.id, c.song.id);
    }
  }

  /** Puts `x` into a ranked sequence at its place. */
  function Insert(x: QueueRow, s: seq<QueueRow>): (r: seq<QueueRow>)
    requires Ranked(s)
    ensures Ranked(r)
    ensures multiset(r) == multiset(s) + multiset{x}
  {
    if s == [] then [x]
    else if NotBelow(x, s[0]) then
      assert forall k :: 0 <= k < |s| ==> NotBelow(x, s[k]) by {
        forall k | 0 <= k < |s| ensures NotBelow(x, s[k]) {
          if k > 0 { NotBelowTransitive(x, s[0], s[k]); }
        }
      }
      [x] + s
    else
      NotBelowTotal(x, s[0]);
      assert s == [s[0]] + s[1..];
      var rest := Insert(x, s[1..]);
      assert forall k :: 0 <= k < |rest| ==> NotBelow(s[0], rest[k]) by {
        forall k | 0 <= k < |rest| ensures NotBelow(s[0], rest[k]) {
          assert rest[k] in multiset(rest);
        }
      }
      [s[0]] + rest
  }

  /** The query's ordering: a ranked permutation of its input. */
  function Sort(rows: seq<QueueRow>): (r: seq<QueueRow>)
    ensures Ranked(r)
    ensures multiset(r) == multiset(rows)
  {
    if rows == [] then []
    else
      assert rows == [rows[0]] + rows[1..];
      Insert(rows[0], Sort(rows[1..]))
  }

  /** Inserting a row whose id is new keeps the ids distinct. */
  lemma {:induction false} InsertKeepsDistinct(x: QueueRow, s: seq<QueueRow>)
    requires Ranked(s) && DistinctIds(s)
    requires forall k :: 0 <= k < |s| ==> s[k].song.id != x.song.id
    ensures DistinctIds(Insert(x, s))
  {
    if s != [] && !NotBelow(x, s[0]) {
      var rest := Insert(x, s[1..]);
      InsertKeepsDistinct(x, s[1..]);
      forall k | 0 <= k < |rest| ensures rest[k].song.id != s[0].song.id {
        assert rest[k] in multiset(rest);
        if rest[k] != x {
          assert rest[k] in multiset(s[1..]);
          var m :| 0 <= m < |s[1..]| && s[1..][m] == rest[k];
          assert s[m + 1] == rest[k];
        }
      }
      assert Insert(x, s) == [s[0]] + rest;
    }
  }

  /** Sorting rows with distinct ids keeps them distinct. */
  lemma {:induction false} SortKeepsDistinct(rows: seq<QueueRow>)
    requires DistinctIds(rows)
    ensures DistinctIds(Sort(rows))
  {
    if rows != [] {
      var sorted := Sort(rows[1..]);
      SortKeepsDistinct(rows[1..]);
      forall k | 0 <= k < |sorted| ensures sorted[k].song.id != rows[0].song.id {
        assert sorted[k] in multiset(rows[1..]);
        var m :| 0 <= m < |rows[1..]| && rows[1..][m] == sorted[k];
        assert rows[m + 1] == sorted[k];
      }
      InsertKeepsDistinct(rows[0], sorted);
    }
  }

  /** The rows of the ranking query for a jam, in query order. */
  function RankedRows(t: Tables, jamId: string): seq<QueueRow>
  {
    Sort(JamRows(t.songs, t.users, t.votes, jamId))
  }

  /** The position of a row in a sequence that holds it. */
  function IndexOf(rows: seq<QueueRow>, q: QueueRow): (i: nat)
    requires q in rows
    ensures i < |rows| && rows[i] == q
  {
    if rows[0] == q then 0 else 1 + IndexOf(rows[1..], q)
  }

  /** The query's rows are exactly the jam's songs with their vote counts,
      ranked, one row per song id. */
  lemma RankedRowsSelection(t: Tables, jamId: string)
    requires UniqueIds(t.songs)
    ensures var rows := RankedRows(t, jamId);
            && Ranked(rows)
            && DistinctIds(rows)
            && (forall q :: q in rows ==>
                  q.song in t.songs && InJam(t.users, q.song, jamId) && q.votes == CountVotes(t.votes, q.song.id))
            && (forall row :: row in t.songs && InJam(t.users, row, jamId) ==>
                  QueueRow(row, CountVotes(t.votes, row.id)) in rows)
  {
    var jr := JamRows(t.songs, t.users, t.votes, jamId);
    var rows := RankedRows(t, jamId);
    SortKeepsDistinct(jr);
    assert forall q :: q in rows <==> q in jr by {
      forall q ensures q in rows <==> q in jr {
        assert q in rows <==> q in multiset(rows);
        assert q in jr <==> q in multiset(jr);
      }
    }
  }

  /** Two ranked orderings of the same rows with distinct ids are the same
      sequence: the order leaves no ties to break. */
  lemma {:induction false} RankedUnique(a: seq<QueueRow>, b: seq<QueueRow>)
    requires Ranked(a) && Ranked(b) && DistinctIds(a)
    requires multiset(a) == multiset(b)
    ensures a == b
  {
    if a == [] {
      assert |b| == |multiset(b)| == 0;
    } else {
      HeadsAgree(a, b);
      DropHead(a);
      DropHead(b);
      RankedUnique(a[1..], b[1..]);
      assert a == [a[0]] + a[1..] && b == [b[0]] + b[1..];
    }
  }

  /** Both orderings start with the same row. */
  lemma HeadsAgree(a: seq<QueueRow>, b: seq<QueueRow>)
    requires Ranked(a) && Ranked(b) && DistinctIds(a)
    requires multiset(a) == multiset(b) && a != []
    ensures b != [] && a[0] == b[0]
  {
    assert a[0] in multiset(b);
    assert b != [] && b[0] in multiset(a);
    var i :| 0 <= i < |a| && a[i] == b[0];
    var j :| 0 <= j < |b| && b[j] == a[0];
    if a[0] != b[0] {
      assert NotBelow(a[0], a[i]) && NotBelow(b[0], b[j]);
      Collation.Total(a[0].song.id, b[0].song.id);
      assert false;
    }
  }

  lemma DropHead(a: seq<QueueRow>)
    requires a != []
    ensures multiset(a[1..]) == multiset(a) - multiset{a[0]}
  {
    assert a == [a[0]] + a[1..];
  }

  /** How often the query selects a given row: as often as its song is in
      the table, when the song is in the jam and the count is its own. */
  lemma {:induction false} JamRowsMultiplicity(songs: seq<SongRow>, users: map<string, string>,
                                               votes: seq<VoteRow>, jamId: string, q: QueueRow)
    ensures multiset(JamRows(songs, users, votes, jamId))[q]
         == if InJam(users, q.song, jamId) && q.votes == CountVotes(votes, q.song.id)
            then multiset(songs)[q.song] else 0
  {
    if songs != [] {
      JamRowsMultiplicity(songs[1..], users, votes, jamId, q);
      assert songs == [songs[0]] + songs[1..];
    }
  }

  /** The queue does not depend on the order in which the songs table
      stores its rows. */
  lemma RankingIgnoresStorageOrder(t1: Tables, t2: Tables, jamId: string)
    requires UniqueIds(t1.songs)
    requires t1.users == t2.users && t1.votes == t2.votes
    requires multiset(t1.songs) == multiset(t2.songs)
    ensures RankedRows(t1, jamId) == RankedRows(t2, jamId)
  {
    var j1 := JamRows(t1.songs, t1.users, t1.votes, jamId);
    var j2 := JamRows(t2.songs, t2.users, t2.votes, jamId);
    forall q ensures multiset(j1)[q] == multiset(j2)[q] {
      JamRowsMultiplicity(t1.songs, t1.users, t1.votes, jamId, q);
      JamRowsMultiplicity(t2.songs, t2.users, t2.votes, jamId, q);
    }
    assert multiset(j1) == multiset(j2);
    SortKeepsDistinct(j1);
    RankedUnique(Sort(j1), Sort(j2));
  }

  // ---------------------------------------------------------------------
  // Per-viewer shaping of get_songs

  /** The vote entry get_songs builds for one row. */
  function VoteOf(row: QueueRow, viewer: IdType, voted: seq<string>): Vote
  {
    Vote(row.votes, if viewer.Host? then None else Some(row.song.id in voted))
  }

  /** The id -> vote map collected from the rows (a later row with the same
      id replaces an earlier one). */
  function VoteTable(rows: seq<QueueRow>, viewer: IdType, voted: seq<string>): (m: map<string, Vote>)
    ensures forall i :: 0 <= i < |rows| ==> rows[i].song.id in m
    ensures DistinctIds(rows) ==>
              forall i :: 0 <= i < |rows| ==> m[rows[i].song.id] == VoteOf(rows[i], viewer, voted)
  {
    if rows == [] then map[]
    else
      var last := rows[|rows| - 1];
      VoteTable(rows[..|rows| - 1], viewer, voted)[last.song.id := VoteOf(last, viewer, voted)]
  }

  /** The entry used when the map has no key for a row. */
  function FallbackVote(viewer: IdType): Vote
  {
    Vote(0, if viewer.Host? then None else Some(false))
  }

  /** The record sent to the viewer for one query row. */
  function ShapeSong(row: QueueRow, viewer: IdType, table: map<string, Vote>): Song
  {
    Song(
      row.song.id,
      if viewer.User? && viewer.id.id == row.song.userId then Some(row.song.userId) else None,
      row.song.name,
      match row.song.artists
      case Some(names) => names
      case None => [NoArtist],
      row.song.album,
      AsU32(row.song.duration),
      row.song.imageUrl,
      if row.song.id in table then table[row.song.id] else FallbackVote(viewer))
  }

  /** The queue as one viewer sees it. */
  function GetSongs(t: Tables, viewer: IdType): (r: seq<Song>)
    ensures |r| == |RankedRows(t, viewer.JamId())|
    ensures forall i :: 0 <= i < |r| ==> r[i].id == RankedRows(t, viewer.JamId())[i].song.id
  {
    var rows := RankedRows(t, viewer.JamId());
    var voted := if viewer.Host? then [] else VotedSongs(t.votes, viewer.id.id);
    var table := VoteTable(rows, viewer, voted);
    seq(|rows|, i requires 0 <= i < |rows| => ShapeSong(rows[i], viewer, table))
  }

  /** `s` is what the viewer is shown for table row `row`. */
  ghost predicate Describes(s: Song, row: SongRow, viewer: IdType, votes: seq<VoteRow>)
  {
    && s.id == row.id
    && s.name == row.name
    && s.album == row.album
    && s.imageUrl == row.imageUrl
    && s.duration == AsU32(row.duration)
    && s.artists == (if row.artists.Some? then row.artists.value else [NoArtist])
    && s.userId == (if viewer.User? && viewer.id.id == row.userId then Some(row.userId) else None)
    && s.votes.votes == CountVotes(votes, row.id)
    && s.votes.haveYouVoted
       == (if viewer.Host? then None else Some(VoteRow(viewer.id.id, row.id) in votes))
  }

  /** Every entry is the shaped image of a row of the viewer's jam: the vote
      count is the number of vote rows, the flag is absent for a host and
      tells a user whether they voted, the owner is disclosed only to the
      owner, a null artists column becomes the placeholder. */
  lemma GetSongsEntries(t: Tables, viewer: IdType)
    requires UniqueIds(t.songs)
    ensures var r := GetSongs(t, viewer);
            forall i :: 0 <= i < |r| ==>
              exists row :: row in t.songs && InJam(t.users, row, viewer.JamId())
                         && Describes(r[i], row, viewer, t.votes)
  {
    var jamId := viewer.JamId();
    var rows := RankedRows(t, jamId);
    RankedRowsSelection(t, jamId);
    var voted := if viewer.Host? then [] else VotedSongs(t.votes, viewer.id.id);
    var table := VoteTable(rows, viewer, voted);
    var r := GetSongs(t, viewer);
    forall i | 0 <= i < |r|
      ensures exists row :: row in t.songs && InJam(t.users, row, jamId)
                         && Describes(r[i], row, viewer, t.votes)
    {
      assert rows[i] in rows;
      assert r[i] == ShapeSong(rows[i], viewer, table);
      assert table[rows[i].song.id] == VoteOf(rows[i], viewer, voted);
      assert Describes(r[i], rows[i].song, viewer, t.votes);
    }
  }

  /** The queue holds exactly the songs whose owner is in the viewer's jam,
      each once. */
  lemma GetSongsSelection(t: Tables, viewer: IdType)
    requires UniqueIds(t.songs)
    ensures forall i, j :: 0 <= i < j < |GetSongs(t, viewer)| ==>
              GetSongs(t, viewer)[i].id != GetSongs(t, viewer)[j].id
    ensures forall i :: 0 <= i < |GetSongs(t, viewer)| ==>
              exists row :: row in t.songs && row.id == GetSongs(t, viewer)[i].id
                         && InJam(t.users, row, viewer.JamId())
    ensures forall row :: row in t.songs && InJam(t.users, row, viewer.JamId()) ==>
              exists i :: 0 <= i < |GetSongs(t, viewer)| && GetSongs(t, viewer)[i].id == row.id
  {
    var jamId := viewer.JamId();
    var rows := RankedRows(t, jamId);
    RankedRowsSelection(t, jamId);
    var r := GetSongs(t, viewer);
    forall i | 0 <= i < |r|
      ensures exists row :: row in t.songs && row.id == r[i].id && InJam(t.users, row, jamId)
    {
      assert rows[i] in rows;
    }
    forall row | row in t.songs && InJam(t.users, row, jamId)
      ensures exists i :: 0 <= i < |r| && r[i].id == row.id
    {
      var i := IndexOf(rows, QueueRow(row, CountVotes(t.votes, row.id)));
      assert r[i].id == rows[i].song.id;
    }
  }

  /** The queue is ordered by vote count descending and, among equal
      counts, by song id descending. */
  lemma GetSongsOrder(t: Tables, viewer: IdType)
    requires UniqueIds(t.songs)
    ensures var r := GetSongs(t, viewer);
            forall i, j :: 0 <= i < j < |r| ==>
              r[i].votes.votes > r[j].votes.votes
              || (r[i].votes.votes == r[j].votes.votes && Collation.Less(r[j].id, r[i].id))
  {
    var jamId := viewer.JamId();
    var rows := RankedRows(t, jamId);
    RankedRowsSelection(t, jamId);
    var voted := if viewer.Host? then [] else VotedSongs(t.votes, viewer.id.id);
    var table := VoteTable(rows, viewer, voted);
    var r := GetSongs(t, viewer);
    forall i, j | 0 <= i < j < |r|
      ensures r[i].votes.votes > r[j].votes.votes
              || (r[i].votes.votes == r[j].votes.votes && Collation.Less(r[j].id, r[i].id))
    {
      assert NotBelow(rows[i], rows[j]);
      assert r[i].votes == VoteOf(rows[i], viewer, voted);
      assert r[j].votes == VoteOf(rows[j], viewer, voted);
      Collation.Total(rows[i].song.id, rows[j].song.id);
    }
  }

  /** What a viewer is shown does not depend on the order in which the
      songs table stores its rows. */
  lemma GetSongsIgnoresStorageOrder(t1: Tables, t2: Tables, viewer: IdType)
    requires UniqueIds(t1.songs)
    requires t1.users == t2.users && t1.votes == t2.votes
    requires multiset(t1.songs) == multiset(t2.songs)
    ensures GetSongs(t1, viewer) == GetSongs(t2, viewer)
  {
    RankingIgnoresStorageOrder(t1, t2, viewer.JamId());
  }

  /** The map lookup never falls back: every row finds its own entry. */
  lemma GetSongsNeverFallsBack(t: Tables, viewer: IdType)
    requires UniqueIds(t.songs)
    ensures var rows := RankedRows(t, viewer.JamId());
            var voted := if viewer.Host? then [] else VotedSongs(t.votes, viewer.id.id);
            var table := VoteTable(rows, viewer, voted);
            forall i :: 0 <= i < |rows| ==>
              rows[i].song.id in table && table[rows[i].song.id] == VoteOf(rows[i], viewer, voted)
  {
    RankedRowsSelection(t, viewer.JamId());
  }

  // ---------------------------------------------------------------------
  // The store and its two mutations

  class Store {
    var jams: map<string, int>
    var users: map<string, string>
    var songs: seq<SongRow>
    var votes: seq<VoteRow>

    ghost predicate Valid()
      reads this
    {
      UniqueIds(songs)
    }

    function Snapshot(): Tables
      reads this
    {
      Tables(jams, users, songs, votes)
    }

    constructor (jams: map<string, int>, users: map<string, string>,
                 songs: seq<SongRow>, votes: seq<VoteRow>)
      requires UniqueIds(songs)
      ensures Valid()
      ensures Snapshot() == Tables(jams, users, songs, votes)
    {
      this.jams := jams;
      this.users := users;
      this.songs := songs;
      this.votes := votes;
    }

    /** remove_song: a user may remove only a song they own; a host may
        remove any song. */
    method RemoveSong(songId: string, id: IdType) returns (r: Result<Changed>)
      requires Valid()
      modifies this
      ensures Valid()
      ensures jams == old(jams) && users == old(users) && votes == old(votes)
      ensures id.User? && !OwnedBy(old(songs), songId, id.id.id) ==>
                r == Err(Forbidden) && songs == old(songs)
      ensures id.Host? || OwnedBy(old(songs), songId, id.id.id) ==>
                r == Ok(SongsChanged) && songs == DeleteSong(old(songs), songId)
    {
      if id.User? {
        if !OwnedBy(songs, songId, id.id.id) {
          return Err(Forbidden);
        }
      }
      DeleteSongKeepsKey(songs, songId);
      songs := DeleteSong(songs, songId);
      return Ok(SongsChanged);
    }

    /** add_song: checks the user's quota against the jam's maximum, looks
        the track up, then inserts one row. */
    method AddSong(songId: string, userId: string, jamId: string, lookup: Result<Track>)
      returns (r: Result<Changed>)
      requires Valid()
      modifies this
      ensures Valid()
      ensures jams == old(jams) && users == old(users) && votes == old(votes)
      ensures r.Err? ==> songs == old(songs)
      ensures jamId !in old(jams) ==> r == Err(Database)
      ensures jamId in old(jams) && QuotaReached(CountOwned(old(songs), userId), old(jams)[jamId]) ==>
                r == Err(UserHasTooTheMaxSongAmount)
      ensures jamId in old(jams) && !QuotaReached(CountOwned(old(songs), userId), old(jams)[jamId]) ==>
                (lookup.Err? ==> r == Err(lookup.error))
                && (lookup.Ok? && |lookup.value.imageUrls| == 0 ==> r == Err(Panic))
                && (lookup.Ok? && |lookup.value.imageUrls| > 0 && HasSong(old(songs), songId) ==>
                      r == Err(Database))
      ensures r.Ok? <==>
                jamId in old(jams) && !QuotaReached(CountOwned(old(songs), userId), old(jams)[jamId])
                && lookup.Ok? && |lookup.value.imageUrls| > 0 && !HasSong(old(songs), songId)
      ensures r.Ok? ==>
                r.value == SongsChanged
                && songs == old(songs) + [NewRow(songId, userId, lookup.value)]
                && CountOwned(songs, userId) == CountOwned(old(songs), userId) + 1
                && forall u :: u != userId ==> CountOwned(songs, u) == CountOwned(old(songs), u)
    {
      var amountOfSongs := CountOwned(songs, userId);
      if jamId !in jams {
        return Err(Database);
      }
      var maxAmountOfSongs := jams[jamId];
      if QuotaReached(amountOfSongs, maxAmountOfSongs) {
        return Err(UserHasTooTheMaxSongAmount);
      }
      if lookup.Err? {
        return Err(lookup.error);
      }
      var track := lookup.value;
      if |track.imageUrls| == 0 {
        return Err(Panic);
      }
      var row := NewRow(songId, userId, track);
      if HasSong(songs, songId) {
        return Err(Database);
      }
      ghost var before := songs;
      songs := songs + [row];
      forall u | true
        ensures CountOwned(songs, u) == CountOwned(before, u) + (if u == userId then 1 else 0)
      {
        CountOwnedAppend(before, row, u);
      }
      assert forall i, j :: 0 <= i < j < |songs| ==> songs[i].id != songs[j].id by {
        forall i, j | 0 <= i < j < |songs| ensures songs[i].id != songs[j].id {
          if j == |before| {
            assert songs[i] == before[i];
          }
        }
      }
      return Ok(SongsChanged);
    }
  }
}
