/** The per-connection command dispatcher.

    The inbound loop takes frames from the connection one at a time.  A
    transport error ends it silently; a frame that does not decode is
    reported as a fatal Decode error and ends it; a decoded command is checked
    against the connection's role, which is fixed for the whole loop.  A
    command for the other role is reported as a fatal Forbidden error and
    ends the loop; a permitted command calls its handler, and a handler error
    is reported as a non-fatal error and the loop goes on.  Every report goes
    onto the connection's outbound queue. */
module Dispatch {
  import opened JamTypes

  /** The commands a client can send. */
  datatype Request =
    | RemoveUser(userId: string)
    | AddSong(songId: string)
    | RemoveSong(songId: string)
    | AddVote(songId: string)
    | RemoveVote(songId: string)
    | Update

  /** One item the receiving half yields. */
  datatype Inbound = TransportError | Undecodable | Decoded(request: Request)

  /** The error kinds the dispatcher reports. */
  datatype WireError = Decode | Forbidden | Handler(cause: Error)

  /** An error frame on the outbound queue; `fatal` tells the client the
      connection is over. */
  datatype ErrorFrame = ErrorFrame(error: WireError, fatal: bool)

  /** A handler invocation with the arguments the call site passes. */
  datatype Call =
    | KickUser(userId: string, hostId: string)
    | AddSongCall(songId: string, userId: string, jamId: string)
    | RemoveSongCall(songId: string, jamId: string)
    | AddVoteCall(songId: string, userId: string, jamId: string)
    | RemoveVoteCall(songId: string, hostId: string, jamId: string)

  /** What a handler returns when it is called. */
  datatype Reply = Done | Failed(error: Error)

  /** What a run of the loop produces: the frames it sent, the handlers it
      called and how many inbound items it took. */
  datatype Trace = Trace(sent: seq<ErrorFrame>, calls: seq<Call>, consumed: nat)

  function Then(a: Trace, b: Trace): Trace
  {
    Trace(a.sent + b.sent, a.calls + b.calls, a.consumed + b.consumed)
  }

  /** Commands only a host may send. */
  predicate HostOnly(req: Request)
  {
    req.RemoveUser? || req.RemoveSong? || req.RemoveVote?
  }

  /** Commands only a user may send. */
  predicate UserOnly(req: Request)
  {
    req.AddSong? || req.AddVote?
  }

  predicate Permitted(id: IdType, req: Request)
  {
    (HostOnly(req) ==> id.Host?) && (UserOnly(req) ==> id.User?)
  }

  /** The handler call a permitted command makes. */
  function CallFor(id: IdType, req: Request): Call
    requires !req.Update?
  {
    match req
    case RemoveUser(userId) => KickUser(userId, id.id.id)
    case AddSong(songId) => AddSongCall(songId, id.id.id, id.id.jamId)
    case RemoveSong(songId) => RemoveSongCall(songId, id.id.jamId)
    case AddVote(songId) => AddVoteCall(songId, id.id.id, id.id.jamId)
    case RemoveVote(songId) => RemoveVoteCall(songId, id.id.id, id.id.jamId)
  }

  /** The call is one the connection's role may make, with the
      connection's own ids as arguments. */
  predicate CallFits(id: IdType, c: Call)
  {
    match c
    case KickUser(_, hostId) => id.Host? && hostId == id.id.id
    case AddSongCall(_, userId, jamId) => id.User? && userId == id.id.id && jamId == id.id.jamId
    case RemoveSongCall(_, jamId) => id.Host? && jamId == id.id.jamId
    case AddVoteCall(_, userId, jamId) => id.User? && userId == id.id.id && jamId == id.id.jamId
    case RemoveVoteCall(_, hostId, jamId) => id.Host? && hostId == id.id.id && jamId == id.id.jamId
  }

  /** The item ends the loop. */
  predicate Stops(id: IdType, f: Inbound)
  {
    f.TransportError? || f.Undecodable? || !Permitted(id, f.request)
  }

  /** What an item that ends the loop sends. */
  function StopFrames(id: IdType, f: Inbound): seq<ErrorFrame>
    requires Stops(id, f)
  {
    if f.TransportError? then []
    else if f.Undecodable? then [ErrorFrame(Decode, true)]
    else [ErrorFrame(WireError.Forbidden, true)]
  }

  /** What a handler's reply sends. */
  function ReplyFrames(reply: Reply): seq<ErrorFrame>
  {
    if reply.Failed? then [ErrorFrame(Handler(reply.error), false)] else []
  }

  /** The effect of an item that does not end the loop. */
  function Continue(id: IdType, f: Inbound, reply: Reply): Trace
    requires !Stops(id, f)
  {
    if f.request.Update? then Trace([], [], 1)
    else Trace(ReplyFrames(reply), [CallFor(id, f.request)], 1)
  }

  /** The loop over the inbound items; `replies[i]` is what the handler
      returns if item `i` reaches one. */
  function Run(id: IdType, frames: seq<Inbound>, replies: seq<Reply>): Trace
    requires |replies| == |frames|
    decreases |frames|
  {
    if frames == [] then Trace([], [], 0)
    else if Stops(id, frames[0]) then Trace(StopFrames(id, frames[0]), [], 1)
    else Then(Continue(id, frames[0], replies[0]), Run(id, frames[1..], replies[1..]))
  }

  lemma ThenAssociative(a: Trace, b: Trace, c: Trace)
    ensures Then(a, Then(b, c)) == Then(Then(a, b), c)
  {
    assert a.sent + (b.sent + c.sent) == (a.sent + b.sent) + c.sent;
    assert a.calls + (b.calls + c.calls) == (a.calls + b.calls) + c.calls;
  }

  lemma RunAt(id: IdType, frames: seq<Inbound>, replies: seq<Reply>, k: nat)
    requires |replies| == |frames| && k < |frames|
    ensures Run(id, frames[k..], replies[k..])
         == if Stops(id, frames[k]) then Trace(StopFrames(id, frames[k]), [], 1)
            else Then(Continue(id, frames[k], replies[k]), Run(id, frames[k + 1..], replies[k + 1..]))
  {
    assert frames[k..][1..] == frames[k + 1..];
    assert replies[k..][1..] == replies[k + 1..];
  }

  // ---------------------------------------------------------------------
  // The outbound queue and the guards

  /** The sending half of the connection's outbound queue. */
  class Sender {
    var queue: seq<ErrorFrame>

    constructor ()
      ensures queue == []
    {
      queue := [];
    }
  }

  /** handle_error: puts one error frame on the queue. */
  method HandleError(error: WireError, fatal: bool, sender: Sender)
    modifies sender
    ensures sender.queue == old(sender.queue) + [ErrorFrame(error, fatal)]
  {
    sender.queue := sender.queue + [ErrorFrame(error, fatal)];
  }

  /** only_host: a host's ids, or a fatal Forbidden frame for a user. */
  method OnlyHost(id: IdType, sender: Sender) returns (r: Option<Id>)
    modifies sender
    ensures id.Host? ==> r == Some(id.id) && sender.queue == old(sender.queue)
    ensures id.User? ==> r == None && sender.queue == old(sender.queue) + [ErrorFrame(WireError.Forbidden, true)]
  {
    match id
    case Host(hostId) =>
      r := Some(hostId);
    case User(_) =>
      HandleError(WireError.Forbidden, true, sender);
      r := None;
  }

  /** only_user: a user's ids, or a fatal Forbidden frame for a host. */
  method OnlyUser(id: IdType, sender: Sender) returns (r: Option<Id>)
    modifies sender
    ensures id.User? ==> r == Some(id.id) && sender.queue == old(sender.queue)
    ensures id.Host? ==> r == None && sender.queue == old(sender.queue) + [ErrorFrame(WireError.Forbidden, true)]
  {
    match id
    case User(userId) =>
      r := Some(userId);
    case Host(_) =>
      HandleError(WireError.Forbidden, true, sender);
      r := None;
  }

  /** Reports a handler's error, if any, as non-fatal. */
  method Report(reply: Reply, sender: Sender)
    modifies sender
    ensures sender.queue == old(sender.queue) + ReplyFrames(reply)
  {
    if reply.Failed? {
      HandleError(Handler(reply.error), false, sender);
    }
  }

  // ---------------------------------------------------------------------
  // The loop

  /** The body of the `match message` arm of read for one decoded command:
      the role guard, then the handler call and its error report.  `stop`
      is the guard's `break`. */
  method Execute(request: Request, reply: Reply, id: IdType, sender: Sender)
    returns (call: Option<Call>, stop: bool)
    modifies sender
    ensures stop <==> !Permitted(id, request)
    ensures stop ==> call == None && sender.queue == old(sender.queue) + [ErrorFrame(WireError.Forbidden, true)]
    ensures !stop ==> sender.queue == old(sender.queue) + Continue(id, Decoded(request), reply).sent
    ensures !stop ==> call == (if request.Update? then None else Some(CallFor(id, request)))
  {
    call, stop := None, false;
    match request {
      case RemoveUser(userId) =>
        var host := OnlyHost(id, sender);
        if host.None? {
          return None, true;
        }
        call := Some(KickUser(userId, host.value.id));
        Report(reply, sender);
      case AddSong(songId) =>
        var user := OnlyUser(id, sender);
        if user.None? {
          return None, true;
        }
        call := Some(AddSongCall(songId, user.value.id, user.value.jamId));
        Report(reply, sender);
      case RemoveSong(songId) =>
        var host := OnlyHost(id, sender);
        if host.None? {
          return None, true;
        }
        call := Some(RemoveSongCall(songId, host.value.jamId));
        Report(reply, sender);
      case AddVote(songId) =>
        var user := OnlyUser(id, sender);
        if user.None? {
          return None, true;
        }
        call := Some(AddVoteCall(songId, user.value.id, user.value.jamId));
        Report(reply, sender);
      case RemoveVote(songId) =>
        var host := OnlyHost(id, sender);
        if host.None? {
          return None, true;
        }
        call := Some(RemoveVoteCall(songId, host.value.id, host.value.jamId));
        Report(reply, sender);
      case Update =>
    }
  }

  /** read: the inbound loop of one connection. */
  method Read(frames: seq<Inbound>, replies: seq<Reply>, id: IdType, sender: Sender)
    returns (calls: seq<Call>, consumed: nat)
    requires |replies| == |frames|
    modifies sender
    ensures sender.queue == old(sender.queue) + Run(id, frames, replies).sent
    ensures calls == Run(id, frames, replies).calls
    ensures consumed == Run(id, frames, replies).consumed
  {
    ghost var total := Run(id, frames, replies);
    ghost var sent: seq<ErrorFrame> := [];
    calls := [];
    var i := 0;
    while i < |frames|
      invariant 0 <= i <= |frames|
      invariant sender.queue == old(sender.queue) + sent
      invariant Then(Trace(sent, calls, i), Run(id, frames[i..], replies[i..])) == total
    {
      RunAt(id, frames, replies, i);
      ghost var done := Trace(sent, calls, i);
      var message := frames[i];
      var reply := replies[i];
      i := i + 1;
      match message {
        case TransportError =>
          assert Then(done, Trace([], [], 1)) == Trace(sent, calls, i);
          break;
        case Undecodable =>
          HandleError(Decode, true, sender);
          sent := sent + [ErrorFrame(Decode, true)];
          break;
        case Decoded(request) =>
          var call, stop := Execute(request, reply, id, sender);
          if stop {
            sent := sent + [ErrorFrame(WireError.Forbidden, true)];
            break;
          }
          ghost var step := Continue(id, message, reply);
          ThenAssociative(done, step, Run(id, frames[i..], replies[i..]));
          sent := sent + step.sent;
          if call.Some? {
            calls := calls + [call.value];
          }
          assert Then(done, step) == Trace(sent, calls, i);
      }
    }
    if i == |frames| {
      assert Then(Trace(sent, calls, i), Run(id, frames[i..], replies[i..])) == Trace(sent, calls, i);
    }
    assert total == Trace(sent, calls, i);
    consumed := i;
  }

  // ---------------------------------------------------------------------
  // What the loop guarantees

  /** Every handler the loop calls is one the connection's role may call,
      and it is called with the connection's own ids: host commands reach
      their handlers only for a host, user commands only for a user. */
  lemma {:induction false} RunCallsFit(id: IdType, frames: seq<Inbound>, replies: seq<Reply>)
    requires |replies| == |frames|
    ensures forall c :: c in Run(id, frames, replies).calls ==> CallFits(id, c)
  {
    if frames != [] && !Stops(id, frames[0]) {
      RunCallsFit(id, frames[1..], replies[1..]);
    }
  }

  /** Handler errors are sent as non-fatal, decode and role errors as fatal,
      and a fatal frame is always the last one sent. */
  lemma {:induction false} RunFatalIsLast(id: IdType, frames: seq<Inbound>, replies: seq<Reply>)
    requires |replies| == |frames|
    ensures forall f :: f in Run(id, frames, replies).sent ==> (f.fatal <==> !f.error.Handler?)
    ensures forall i :: 0 <= i < |Run(id, frames, replies).sent| - 1 ==> !Run(id, frames, replies).sent[i].fatal
  {
    if frames != [] && !Stops(id, frames[0]) {
      RunFatalIsLast(id, frames[1..], replies[1..]);
      var head := Continue(id, frames[0], replies[0]).sent;
      var rest := Run(id, frames[1..], replies[1..]).sent;
      assert forall i :: 0 <= i < |head| ==> !head[i].fatal;
      assert Run(id, frames, replies).sent == head + rest;
    }
  }

  /** Up to an item that ends the loop, the run is the run of the prefix
      followed by the run of the rest; the prefix is taken whole and sends
      nothing fatal. */
  lemma {:induction false} RunSplit(id: IdType, frames: seq<Inbound>, replies: seq<Reply>, k: nat)
    requires |replies| == |frames| && k <= |frames|
    requires forall i :: 0 <= i < k ==> !Stops(id, frames[i])
    ensures Run(id, frames, replies)
         == Then(Run(id, frames[..k], replies[..k]), Run(id, frames[k..], replies[k..]))
    ensures Run(id, frames[..k], replies[..k]).consumed == k
    ensures forall f :: f in Run(id, frames[..k], replies[..k]).sent ==> !f.fatal
  {
    if k == 0 {
      assert frames[k..] == frames && replies[k..] == replies;
      assert Run(id, frames, replies).sent == [] + Run(id, frames, replies).sent;
      assert Run(id, frames, replies).calls == [] + Run(id, frames, replies).calls;
    } else {
      var head := Continue(id, frames[0], replies[0]);
      RunSplit(id, frames[1..], replies[1..], k - 1);
      assert frames[..k][1..] == frames[1..][..k - 1];
      assert replies[..k][1..] == replies[1..][..k - 1];
      assert frames[1..][k - 1..] == frames[k..];
      assert replies[1..][k - 1..] == replies[k..];
      ThenAssociative(head, Run(id, frames[1..][..k - 1], replies[1..][..k - 1]), Run(id, frames[k..], replies[k..]));
    }
  }

  /** The loop ends at the first item that ends it: a transport error sends
      nothing more, an undecodable frame one fatal Decode frame, a command
      for the other role one fatal Forbidden frame and no handler call. */
  lemma RunEndsAtFirstStop(id: IdType, frames: seq<Inbound>, replies: seq<Reply>, k: nat)
    requires |replies| == |frames| && k < |frames|
    requires Stops(id, frames[k]) && forall i :: 0 <= i < k ==> !Stops(id, frames[i])
    ensures Run(id, frames, replies)
         == Then(Run(id, frames[..k], replies[..k]), Trace(StopFrames(id, frames[k]), [], 1))
    ensures Run(id, frames, replies).consumed == k + 1
  {
    RunSplit(id, frames, replies, k);
    RunAt(id, frames, replies, k);
  }

  /** Once an item has ended the loop, nothing received after it matters. */
  lemma {:induction false} RunIgnoresLaterItems(id: IdType, frames: seq<Inbound>, replies: seq<Reply>,
                                                more: seq<Inbound>, moreReplies: seq<Reply>, k: nat)
    requires |replies| == |frames| && |moreReplies| == |more|
    requires k < |frames| && Stops(id, frames[k])
    ensures Run(id, frames + more, replies + moreReplies) == Run(id, frames, replies)
  {
    assert (frames + more)[0] == frames[0];
    if !Stops(id, frames[0]) {
      assert (frames + more)[1..] == frames[1..] + more;
      assert (replies + moreReplies)[1..] == replies[1..] + moreReplies;
      RunIgnoresLaterItems(id, frames[1..], replies[1..], more, moreReplies, k - 1);
    }
  }

  /** A permitted command whose handler fails is reported with fatal = false,
      and the loop goes on with the next item. */
  lemma HandlerErrorIsNonFatal(id: IdType, frames: seq<Inbound>, replies: seq<Reply>, k: nat)
    requires |replies| == |frames| && k < |frames|
    requires forall i :: 0 <= i < k ==> !Stops(id, frames[i])
    requires frames[k].Decoded? && Permitted(id, frames[k].request) && !frames[k].request.Update?
    requires replies[k].Failed?
    ensures Run(id, frames, replies).sent
         == Run(id, frames[..k], replies[..k]).sent + [ErrorFrame(Handler(replies[k].error), false)]
            + Run(id, frames[k + 1..], replies[k + 1..]).sent
    ensures Run(id, frames, replies).calls
         == Run(id, frames[..k], replies[..k]).calls + [CallFor(id, frames[k].request)]
            + Run(id, frames[k + 1..], replies[k + 1..]).calls
  {
    RunSplit(id, frames, replies, k);
    RunAt(id, frames, replies, k);
    var prefix := Run(id, frames[..k], replies[..k]);
    var rest := Run(id, frames[k + 1..], replies[k + 1..]);
    var step := Continue(id, frames[k], replies[k]);
    assert step == Trace([ErrorFrame(Handler(replies[k].error), false)], [CallFor(id, frames[k].request)], 1);
    assert Run(id, frames, replies) == Then(prefix, Then(step, rest));
    assert prefix.sent + (step.sent + rest.sent) == prefix.sent + step.sent + rest.sent;
    assert prefix.calls + (step.calls + rest.calls) == prefix.calls + step.calls + rest.calls;
  }

  /** An Update command sends nothing and calls nothing: the run is that of
      the items without it, one item longer. */
  lemma UpdateChangesNothing(id: IdType, frames: seq<Inbound>, replies: seq<Reply>, k: nat)
    requires |replies| == |frames| && k < |frames|
    requires forall i :: 0 <= i < k ==> !Stops(id, frames[i])
    requires frames[k] == Decoded(Update)
    ensures var without := Run(id, frames[..k] + frames[k + 1..], replies[..k] + replies[k + 1..]);
            && Run(id, frames, replies).sent == without.sent
            && Run(id, frames, replies).calls == without.calls
            && Run(id, frames, replies).consumed == without.consumed + 1
  {
    var frames' := frames[..k] + frames[k + 1..];
    var replies' := replies[..k] + replies[k + 1..];
    var prefix := Run(id, frames[..k], replies[..k]);
    var rest := Run(id, frames[k + 1..], replies[k + 1..]);
    RunSplit(id, frames, replies, k);
    RunAt(id, frames, replies, k);
    assert Run(id, frames[k..], replies[k..]) == Then(Trace([], [], 1), rest);
    assert forall i :: 0 <= i < k ==> frames'[i] == frames[i];
    RunSplit(id, frames', replies', k);
    assert frames'[..k] == frames[..k] && replies'[..k] == replies[..k];
    assert frames'[k..] == frames[k + 1..] && replies'[k..] == replies[k + 1..];
    assert Run(id, frames', replies') == Then(prefix, rest);
    assert Then(Trace([], [], 1), rest) == Trace(rest.sent, rest.calls, rest.consumed + 1);
  }
}
