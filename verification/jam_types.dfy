/** Types shared by the song store, the command dispatcher and the player:
    the connection identity, the error enum, the change signal and the
    per-viewer song record that the queue query returns. */
module JamTypes {

  /** A Rust `u32`. */
  type U32 = x: int | 0 <= x < 0x1_0000_0000

  datatype Option<+T> = None | Some(value: T)

  datatype Result<+T> = Ok(value: T) | Err(error: Error)

  /** An authenticated connection's own id and the jam it belongs to. */
  datatype Id = Id(id: string, jamId: string)

  /** The role a connection resolved to; fixed for the connection's lifetime. */
  datatype IdType = Host(id: Id) | User(id: Id)
  {
    function JamId(): string { id.jamId }
  }

  /** The errors the song operations return. */
  datatype Error =
    | Forbidden                   // caller may not touch this row
    | Database                    // a store statement failed
    | UserHasTooTheMaxSongAmount  // per-user song quota reached
    | Spotify                     // token fetch, track id parse or track lookup failed
    | Panic                       // the operation panicked (an index out of bounds)

  /** The change signal a successful mutation returns: which tables changed. */
  datatype Changed = Changed(songs: bool)

  const SongsChanged := Changed(true)

  /** Vote information on a queued song, as one viewer sees it. */
  datatype Vote = Vote(votes: nat, haveYouVoted: Option<bool>)

  /** A queued song as delivered to one viewer. */
  datatype Song = Song(
    id: string,
    userId: Option<string>,
    name: string,
    artists: seq<string>,
    album: string,
    duration: U32,
    imageUrl: string,
    votes: Vote)
}
