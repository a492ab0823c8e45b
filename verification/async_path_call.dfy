/**
  The asynchronous path call (the AsyncPathCall record): do_async_path_call
  fills it in, do_async_path_call_callback sends the message once the mount is
  found, async_path_call_done hands a reply to the operation's callback, and
  async_path_call_free releases it. The operation's result completes exactly
  once and the record is freed exactly once on every route.
*/
module AsyncCalls {
  import opened Wrappers
  import opened PathSpec
  import opened DaemonFile
  import opened Messages
  import opened PathCalls

  /** What an operation's result carries on success. */
  datatype Payload = InputStream(stream: InStream) | MountedFile(file: File)

  /** The operation callback a successful reply is handed to. */
  datatype Handler = ReadHandler | MountMountableHandler

  /** A caller's GCancellable. */
  datatype Cancellable = Cancellable(id: nat)

  /**
    Where a pending call is: waiting for its mount, waiting for the reply,
    waiting for an operation's follow-up (a descriptor, or the mount of a
    location) that holds the result, or freed.
  */
  datatype Stage = Resolving | AwaitingReply | Continuing | Released

  class PendingCall {
    // The AsyncPathCall record.
    var holdsResult: bool                  // data->result is set
    const file: File
    const op: MountOp
    var cancellable: Option<Cancellable>
    const args: Option<seq<Arg>>           // the extra arguments; none when the caller gave none
    const handler: Handler
    const hasNotify: bool                  // data->notify is set

    // The GSimpleAsyncResult the call created.
    var outcome: Option<Result<Payload, Error>>
    var completions: nat
    var resultRefs: nat
    var freeWithResult: bool               // the record is freed when the result's last reference goes

    // GetFDData.can_seek while a descriptor is awaited.
    var canSeek: bool

    // What has happened so far.
    var stage: Stage
    var frees: nat
    var notifications: nat
    var sent: seq<Message>

    ghost predicate Valid()
      reads this
    {
      && cancellable == None
      && (stage == Resolving ==> sent == [])
      && (stage == Resolving || stage == AwaitingReply ==>
            && holdsResult && resultRefs == 1 && !freeWithResult && outcome == None
            && completions == 0 && frees == 0 && notifications == 0)
      && (stage == Continuing ==>
            && !holdsResult && resultRefs == 1 && freeWithResult
            && (outcome.Some? <==> handler == MountMountableHandler)
            && completions == 0 && frees == 0 && notifications == 0)
      && (stage == Released ==>
            && !holdsResult && resultRefs == 0 && outcome.Some?
            && completions == 1 && frees == 1 && notifications == (if hasNotify then 1 else 0))
    }

    /** The arguments after the path in the message the call sends. */
    function Extra(): seq<Arg> {
      if args.None? then [] else args.value
    }

    /**
      do_async_path_call: create the result, remember the operation and its
      extra arguments, then ask for the mount. The guard on the cancellable
      tests the freshly zeroed field, not the argument, so the caller's
      cancellable is never stored.
    */
    constructor (file: File, op: MountOp, cancellable: Option<Cancellable>, handler: Handler, hasNotify: bool, extra: seq<Arg>)
      ensures Valid() && stage == Resolving
      ensures this.file == file && this.op == op && this.handler == handler && this.hasNotify == hasNotify
      ensures Extra() == extra && (args.None? <==> extra == [])
      ensures this.cancellable == None
    {
      holdsResult := true;
      resultRefs := 1;
      this.file := file;
      this.op := op;
      var stored: Option<Cancellable> := None;
      if stored.Some? {
        stored := cancellable;
      }
      this.cancellable := stored;
      this.handler := handler;
      this.hasNotify := hasNotify;
      this.args := if extra == [] then None else Some(extra);
      outcome := None;
      completions := 0;
      freeWithResult := false;
      canSeek := false;
      stage := Resolving;
      frees := 0;
      notifications := 0;
      sent := [];
    }

    /** async_path_call_free: run the notify callback, drop the result if still held, free the record. */
    method Free()
      requires frees == 0 && (holdsResult ==> resultRefs > 0)
      modifies this
      ensures frees == 1 && stage == Released && !holdsResult
      ensures notifications == old(notifications) + (if hasNotify then 1 else 0)
      ensures resultRefs == if old(holdsResult) then old(resultRefs) - 1 else old(resultRefs)
      ensures outcome == old(outcome) && completions == old(completions) && sent == old(sent)
      ensures cancellable == old(cancellable) && freeWithResult == old(freeWithResult) && canSeek == old(canSeek)
    {
      if hasNotify {
        notifications := notifications + 1;
      }
      if holdsResult {
        resultRefs := resultRefs - 1;
        holdsResult := false;
      }
      frees := frees + 1;
      stage := Released;
    }

    /** g_object_unref on the handed-off result: the last reference frees the record. */
    method DropResultRef()
      requires resultRefs > 0 && !holdsResult && freeWithResult && frees == 0
      modifies this
      ensures resultRefs == old(resultRefs) - 1 && !holdsResult
      ensures old(resultRefs) == 1 ==>
        frees == 1 && stage == Released && notifications == old(notifications) + (if hasNotify then 1 else 0)
      ensures old(resultRefs) > 1 ==>
        frees == 0 && stage == old(stage) && notifications == old(notifications)
      ensures outcome == old(outcome) && completions == old(completions) && sent == old(sent)
      ensures cancellable == old(cancellable) && freeWithResult == old(freeWithResult) && canSeek == old(canSeek)
    {
      resultRefs := resultRefs - 1;
      if resultRefs == 0 {
        Free();
      }
    }

    /**
      do_async_path_call_callback: a failed lookup completes the result with
      its error and frees the record; a found mount gets the message with the
      resolved path followed by the extra arguments.
    */
    method MountResolved(env: Env, found: Result<MountRef, Error>)
      requires Valid() && stage == Resolving
      modifies this
      ensures Valid()
      ensures found.Failure? ==> stage == Released && outcome == Some(Failure(found.error)) && sent == []
      ensures found.Success? ==>
        stage == AwaitingReply && sent == [PathMessage(env, found.value, file, op, Extra())]
    {
      if found.Failure? {
        outcome := Some(Failure(found.error));
        completions := completions + 1;
        Free();
      } else {
        var m := PathMessage(env, found.value, file, op, Extra());
        sent := sent + [m];
        stage := AwaitingReply;
      }
    }

    /**
      async_path_call_done: a transport error completes the result and frees
      the record. Otherwise the record lets go of the result, arranges to be
      freed with it, and hands it to the operation's callback, which either
      completes it or keeps a reference for a follow-up; dropping the
      callback's reference then frees the record unless a follow-up holds one.
    */
    method ReplyArrived(reply: Result<seq<Arg>, Error>)
      requires Valid() && stage == AwaitingReply
      modifies this
      ensures Valid() && sent == old(sent)
      ensures stage == Continuing <==> Continues(handler, reply)
      ensures stage == Released <==> !Continues(handler, reply)
      ensures outcome == AfterReply(handler, reply)
      ensures stage == Continuing && handler == ReadHandler ==> canSeek == ReadReply(reply.value).value.1
    {
      if reply.Failure? {
        outcome := Some(Failure(reply.error));
        completions := completions + 1;
        Free();
        return;
      }
      freeWithResult := true;
      holdsResult := false;
      stage := Continuing;
      match handler {
        case ReadHandler => ReadReplied(reply.value);
        case MountMountableHandler => MountableReplied(reply.value);
      }
      DropResultRef();
    }

    /**
      read_async_cb: a reply without a descriptor id and a seek flag completes
      the result with an error; otherwise the result is kept for the
      descriptor request.
    */
    method ReadReplied(replyArgs: seq<Arg>)
      requires resultRefs == 1 && completions == 0 && outcome == None
      modifies this
      ensures ReadReply(replyArgs).None? ==>
        outcome == Some(Failure(IOError(Failed, InvalidOpen))) && completions == 1 && resultRefs == 1
      ensures ReadReply(replyArgs).Some? ==>
        outcome == None && completions == 0 && resultRefs == 2 && canSeek == ReadReply(replyArgs).value.1
      ensures holdsResult == old(holdsResult) && freeWithResult == old(freeWithResult) && stage == old(stage)
      ensures frees == old(frees) && notifications == old(notifications) && sent == old(sent) && cancellable == old(cancellable)
    {
      var decoded := ReadReply(replyArgs);
      if decoded.None? {
        outcome := Some(Failure(IOError(Failed, InvalidOpen)));
        completions := completions + 1;
      } else {
        canSeek := decoded.value.1;
        resultRefs := resultRefs + 1;
      }
    }

    /**
      mount_mountable_async_cb: a malformed reply completes the result with an
      error; otherwise the result carries a new file for the returned mount and
      path, and completes at once unless the location must be mounted first.
    */
    method MountableReplied(replyArgs: seq<Arg>)
      requires resultRefs == 1 && completions == 0 && outcome == None
      modifies this
      ensures MountableReply(replyArgs).None? ==>
        outcome == Some(Failure(IOError(Failed, InvalidCall))) && completions == 1 && resultRefs == 1
      ensures MountableReply(replyArgs).Some? ==>
        var (spec, path, mustMount) := MountableReply(replyArgs).value;
        && outcome == Some(Success(MountedFile(FileFor(spec, path))))
        && completions == (if mustMount then 0 else 1)
        && resultRefs == (if mustMount then 2 else 1)
      ensures holdsResult == old(holdsResult) && freeWithResult == old(freeWithResult) && stage == old(stage)
      ensures frees == old(frees) && notifications == old(notifications) && sent == old(sent) && cancellable == old(cancellable)
    {
      var decoded := MountableReply(replyArgs);
      if decoded.None? {
        outcome := Some(Failure(IOError(Failed, InvalidCall)));
        completions := completions + 1;
      } else {
        var mounted := New(decoded.value.0, decoded.value.1);
        outcome := Some(Success(MountedFile(mounted)));
        if decoded.value.2 {
          resultRefs := resultRefs + 1;
        } else {
          completions := completions + 1;
        }
      }
    }

    /** read_async_get_fd_cb: -1 is an error, any other descriptor opens the stream; then complete and let go. */
    method DescriptorArrived(fd: int)
      requires Valid() && stage == Continuing && handler == ReadHandler
      modifies this
      ensures Valid() && stage == Released && sent == old(sent)
      ensures outcome == Some(DescriptorOutcome(fd, old(canSeek)))
    {
      outcome := Some(DescriptorOutcome(fd, canSeek));
      completions := completions + 1;
      DropResultRef();
    }

    /** mount_mountable_location_mounted_cb: an error replaces the file; then complete and let go. */
    method LocationMounted(mounted: Result<(), Error>)
      requires Valid() && stage == Continuing && handler == MountMountableHandler
      modifies this
      ensures Valid() && stage == Released && sent == old(sent)
      ensures outcome == if mounted.Failure? then Some(Failure(mounted.error)) else old(outcome)
    {
      if mounted.Failure? {
        outcome := Some(Failure(mounted.error));
      }
      completions := completions + 1;
      DropResultRef();
    }
  }

  /** Whether an operation callback keeps the result for a follow-up after this reply. */
  predicate Continues(handler: Handler, reply: Result<seq<Arg>, Error>) {
    && reply.Success?
    && match handler
       case ReadHandler => ReadReply(reply.value).Some?
       case MountMountableHandler => MountableReply(reply.value).Some? && MountableReply(reply.value).value.2
  }

  /** The result's outcome once the reply has been handled: none yet while a descriptor is awaited. */
  function AfterReply(handler: Handler, reply: Result<seq<Arg>, Error>): Option<Result<Payload, Error>> {
    match reply
    case Failure(e) => Some(Failure(e))
    case Success(replyArgs) =>
      match handler
      case ReadHandler =>
        if ReadReply(replyArgs).None? then Some(Failure(IOError(Failed, InvalidOpen))) else None
      case MountMountableHandler =>
        match MountableReply(replyArgs)
        case None => Some(Failure(IOError(Failed, InvalidCall)))
        case Some((spec, path, _)) => Some(Success(MountedFile(FileFor(spec, path))))
  }

  /** The stream a received descriptor opens, or the error for a descriptor that did not arrive. */
  function DescriptorOutcome(fd: int, canSeek: bool): Result<Payload, Error> {
    if fd == -1 then Failure(IOError(Failed, NoDescriptorAsync)) else Success(InputStream(InStream(fd, canSeek)))
  }

  /** The outcome of a whole asynchronous call, event by event. */
  function AsyncOutcome(handler: Handler, found: Result<MountRef, Error>, reply: Result<seq<Arg>, Error>,
                        fd: int, mounted: Result<(), Error>): Result<Payload, Error>
  {
    if found.Failure? then Failure(found.error)
    else if !Continues(handler, reply) then AfterReply(handler, reply).value
    else match handler
      case ReadHandler => DescriptorOutcome(fd, ReadReply(reply.value).value.1)
      case MountMountableHandler =>
        if mounted.Failure? then Failure(mounted.error) else AfterReply(handler, reply).value
  }

  /**
    One asynchronous call driven through its events: the mount lookup, the
    reply, and the follow-up the operation callback waits for. Whichever route
    it takes, the result completes exactly once, the record is freed exactly
    once, and the notify callback runs once when there is one.
  */
  method RunAsyncPathCall(env: Env, file: File, op: MountOp, cancellable: Option<Cancellable>, handler: Handler,
                          hasNotify: bool, extra: seq<Arg>, found: Result<MountRef, Error>,
                          reply: Result<seq<Arg>, Error>, fd: int, mounted: Result<(), Error>)
    returns (outcome: Result<Payload, Error>, completions: nat, frees: nat, notifications: nat, sent: seq<Message>)
    ensures completions == 1 && frees == 1 && notifications == (if hasNotify then 1 else 0)
    ensures outcome == AsyncOutcome(handler, found, reply, fd, mounted)
    ensures sent == if found.Success? then [PathMessage(env, found.value, file, op, extra)] else []
  {
    var call := new PendingCall(file, op, cancellable, handler, hasNotify, extra);
    call.MountResolved(env, found);
    if call.stage == AwaitingReply {
      call.ReplyArrived(reply);
      if call.stage == Continuing {
        if handler == ReadHandler {
          call.DescriptorArrived(fd);
        } else {
          call.LocationMounted(mounted);
        }
      }
    }
    outcome, completions, frees, notifications, sent := call.outcome.value, call.completions, call.frees, call.notifications, call.sent;
  }

  /** The asynchronous call sends the same message as the synchronous one for the same mount. */
  lemma AsyncSendsSyncMessage(env: Env, file: File, op: MountOp, extra: seq<Arg>)
    requires env.mountRefFor(file.spec, file.path).Success?
    ensures SyncPathCall(env, file, op, extra).sent
            == Some(PathMessage(env, env.mountRefFor(file.spec, file.path).value, file, op, extra))
  {
  }

  /**
    A failed mount lookup: the asynchronous call passes the lookup's error on,
    while the synchronous call fails without one.
  */
  lemma MountFailureReporting(env: Env, file: File, op: MountOp, extra: seq<Arg>, handler: Handler,
                              reply: Result<seq<Arg>, Error>, fd: int, mounted: Result<(), Error>)
    requires env.mountRefFor(file.spec, file.path).Failure?
    ensures AsyncOutcome(handler, env.mountRefFor(file.spec, file.path), reply, fd, mounted)
            == Failure(env.mountRefFor(file.spec, file.path).error)
    ensures SyncPathCall(env, file, op, extra).reply == Failure(NotReported)
  {
  }
}
