/**
  The operations of a daemon file built on the path calls: the arguments each
  one sends after the path, and what it makes of the reply.
*/
module Operations {
  import opened Wrappers
  import opened PathSpec
  import opened DaemonFile
  import opened Messages
  import opened PathCalls
  import opened AsyncCalls

  /** A synchronous operation on one file: the message it sent, if any, and what it returned. */
  datatype Call<T> = Call(sent: Option<Message>, result: Result<T, Error>)

  /** The enumerator an enumeration hands back, reached at the object path it was given. */
  datatype Enumerator = Enumerator(objectPath: string)

  /** An output stream on a received descriptor (g_daemon_file_output_stream_new). */
  datatype OutStream = OutStream(fd: int, canSeek: bool, initialOffset: u64)

  /** What set_display_name returns: a file (possibly the original one) and an error, each possibly absent. */
  datatype Renamed = Renamed(sent: Option<Message>, file: Option<File>, error: Option<Error>)

  /**
    `sent` is what do_sync_path_call sends for `op` on `f` with `extra` after
    the path: nothing when the mount is unknown, otherwise the path message.
  */
  ghost predicate SendsPathCall(env: Env, f: File, op: MountOp, extra: seq<Arg>, sent: Option<Message>) {
    match env.mountRefFor(f.spec, f.path)
    case Failure(_) => sent == None
    case Success(ref) => sent == Some(PathMessage(env, ref, f, op, extra))
  }

  /** The reply a synchronous call on one path ends in: the daemon's, or an unreported failure when nothing was sent. */
  function Outcome(env: Env, sent: Option<Message>): Result<seq<Arg>, Error> {
    if sent.None? then Failure(NotReported) else env.call(sent.value, None)
  }

  /** The message do_sync_path_call sends and the reply it returns, in the terms above. */
  lemma SyncPathCallSends(env: Env, f: File, op: MountOp, extra: seq<Arg>)
    ensures SendsPathCall(env, f, op, extra, SyncPathCall(env, f, op, extra).sent)
    ensures SyncPathCall(env, f, op, extra).reply == Outcome(env, SyncPathCall(env, f, op, extra).sent)
  {
  }

  /** A caller's attribute list; a missing one is sent as the empty string. */
  function AttributesArg(attributes: Option<string>): (a: Arg)
    ensures a.Str?
    ensures attributes.Some? ==> a.s == attributes.value
    ensures attributes.None? ==> a.s == ""
  {
    Str(if attributes.None? then "" else attributes.value)
  }

  // ---------------------------------------------------------------------
  // Enumeration and information

  /**
    enumerate_children: the enumerator's object path, the attributes and the
    flags follow the path; any reply yields the enumerator.
  */
  function EnumerateChildren(env: Env, f: File, attributes: Option<string>, flags: u32, enumeratorPath: string): (r: Call<Enumerator>)
    ensures SendsPathCall(env, f, Enumerate, [Str(enumeratorPath), AttributesArg(attributes), U32(flags)], r.sent)
    ensures r.result.Success? <==> Outcome(env, r.sent).Success?
    ensures r.result.Success? ==> r.result.value == Enumerator(enumeratorPath)
    ensures r.result.Failure? ==> r.result.error == Outcome(env, r.sent).error
  {
    var x := SyncPathCall(env, f, Enumerate, [Str(enumeratorPath), AttributesArg(attributes), U32(flags)]);
    SyncPathCallSends(env, f, Enumerate, [Str(enumeratorPath), AttributesArg(attributes), U32(flags)]);
    Call(x.sent, match x.reply case Failure(e) => Failure(e) case Success(_) => Success(Enumerator(enumeratorPath)))
  }

  /** get_info: the attributes and flags follow the path; the reply must start with a structure. */
  function QueryInfo(env: Env, f: File, attributes: Option<string>, flags: u32): (r: Call<FileInfo>)
    ensures SendsPathCall(env, f, GetInfo, [AttributesArg(attributes), U32(flags)], r.sent)
    ensures Outcome(env, r.sent).Failure? ==> r.result == Failure(Outcome(env, r.sent).error)
    ensures Outcome(env, r.sent).Success? ==> r.result == InfoReply(env, Outcome(env, r.sent).value, InvalidGetInfo)
  {
    var x := SyncPathCall(env, f, GetInfo, [AttributesArg(attributes), U32(flags)]);
    SyncPathCallSends(env, f, GetInfo, [AttributesArg(attributes), U32(flags)]);
    Call(x.sent, match x.reply case Failure(e) => Failure(e) case Success(args) => InfoReply(env, args, InvalidGetInfo))
  }

  /** get_filesystem_info: the attributes follow the path; the reply must start with a structure. */
  function QueryFilesystemInfo(env: Env, f: File, attributes: Option<string>): (r: Call<FileInfo>)
    ensures SendsPathCall(env, f, GetFilesystemInfo, [AttributesArg(attributes)], r.sent)
    ensures Outcome(env, r.sent).Failure? ==> r.result == Failure(Outcome(env, r.sent).error)
    ensures Outcome(env, r.sent).Success? ==> r.result == InfoReply(env, Outcome(env, r.sent).value, InvalidFilesystemInfo)
  {
    var x := SyncPathCall(env, f, GetFilesystemInfo, [AttributesArg(attributes)]);
    SyncPathCallSends(env, f, GetFilesystemInfo, [AttributesArg(attributes)]);
    Call(x.sent, match x.reply case Failure(e) => Failure(e) case Success(args) => InfoReply(env, args, InvalidFilesystemInfo))
  }

  /** A reply without a leading structure fails get_info and get_filesystem_info, each with its own message. */
  lemma MalformedInfoReply(env: Env, f: File, attributes: Option<string>, flags: u32)
    requires var args := Outcome(env, QueryInfo(env, f, attributes, flags).sent);
      args.Success? && (args.value == [] || !args.value[0].Struct?)
    requires var args := Outcome(env, QueryFilesystemInfo(env, f, attributes).sent);
      args.Success? && (args.value == [] || !args.value[0].Struct?)
    ensures QueryInfo(env, f, attributes, flags).result == Failure(IOError(Failed, "Invalid return value from get_info"))
    ensures QueryFilesystemInfo(env, f, attributes).result
            == Failure(IOError(Failed, "Invalid return value from get_filesystem_info"))
  {
  }

  // ---------------------------------------------------------------------
  // Opening

  /**
    The synchronous read's handling of its reply: a descriptor id and a seek
    flag are required, and the descriptor they name must arrive.
  */
  function ReadStream(env: Env, reply: Result<seq<Arg>, Error>): (r: Result<InStream, Error>)
    ensures reply.Failure? ==> r == Failure(reply.error)
    ensures reply.Success? && ReadReply(reply.value).None? ==> r == Failure(IOError(Failed, InvalidOpen))
    ensures r.Success? <==> reply.Success? && ReadReply(reply.value).Some? && env.fdFor(ReadReply(reply.value).value.0) != -1
    ensures r.Success? ==> r.value == InStream(env.fdFor(ReadReply(reply.value).value.0), ReadReply(reply.value).value.1)
    ensures reply.Success? && ReadReply(reply.value).Some? && env.fdFor(ReadReply(reply.value).value.0) == -1 ==>
      r == Failure(IOError(Failed, NoDescriptorSync))
  {
    match reply
    case Failure(e) => Failure(e)
    case Success(args) =>
      match ReadReply(args)
      case None => Failure(IOError(Failed, InvalidOpen))
      case Some((id, canSeek)) =>
        var fd := env.fdFor(id);
        if fd == -1 then Failure(IOError(Failed, NoDescriptorSync)) else Success(InStream(fd, canSeek))
  }

  /** read: nothing follows the path. */
  function ReadFile(env: Env, f: File): (r: Call<InStream>)
    ensures SendsPathCall(env, f, OpenForRead, [], r.sent)
    ensures r.result == ReadStream(env, Outcome(env, r.sent))
  {
    var x := SyncPathCall(env, f, OpenForRead, []);
    SyncPathCallSends(env, f, OpenForRead, []);
    Call(x.sent, ReadStream(env, x.reply))
  }

  /**
    The writing opens' handling of their reply: a descriptor id, a seek flag
    and the initial offset are required, and the descriptor must arrive.
  */
  function WriteStream(env: Env, reply: Result<seq<Arg>, Error>): (r: Result<OutStream, Error>)
    ensures reply.Failure? ==> r == Failure(reply.error)
    ensures reply.Success? && WriteReply(reply.value).None? ==> r == Failure(IOError(Failed, InvalidOpen))
    ensures r.Success? <==> reply.Success? && WriteReply(reply.value).Some? && env.fdFor(WriteReply(reply.value).value.0) != -1
    ensures r.Success? ==>
      var (id, canSeek, offset) := WriteReply(reply.value).value;
      r.value == OutStream(env.fdFor(id), canSeek, offset)
    ensures reply.Success? && WriteReply(reply.value).Some? && env.fdFor(WriteReply(reply.value).value.0) == -1 ==>
      r == Failure(IOError(Failed, NoDescriptorSync))
  {
    match reply
    case Failure(e) => Failure(e)
    case Success(args) =>
      match WriteReply(args)
      case None => Failure(IOError(Failed, InvalidOpen))
      case Some((id, canSeek, offset)) =>
        var fd := env.fdFor(id);
        if fd == -1 then Failure(IOError(Failed, NoDescriptorSync)) else Success(OutStream(fd, canSeek, offset))
  }

  /** The open-for-write call: the mode, the expected modification time and the backup flag follow the path. */
  function OpenForWriteCall(env: Env, f: File, mode: u16, mtime: u64, makeBackup: bool): (r: Call<OutStream>)
    ensures SendsPathCall(env, f, OpenForWrite, [U16(mode), U64(mtime), Bool(makeBackup)], r.sent)
    ensures r.result == WriteStream(env, Outcome(env, r.sent))
  {
    var x := SyncPathCall(env, f, OpenForWrite, [U16(mode), U64(mtime), Bool(makeBackup)]);
    SyncPathCallSends(env, f, OpenForWrite, [U16(mode), U64(mtime), Bool(makeBackup)]);
    Call(x.sent, WriteStream(env, x.reply))
  }

  /** append_to: mode 1, no modification time, no backup. */
  function AppendTo(env: Env, f: File): (r: Call<OutStream>)
    ensures SendsPathCall(env, f, OpenForWrite, [U16(1), U64(0), Bool(false)], r.sent)
    ensures r.result == WriteStream(env, Outcome(env, r.sent))
  {
    OpenForWriteCall(env, f, 1, 0, false)
  }

  /** create: mode 0, no modification time, no backup. */
  function Create(env: Env, f: File): (r: Call<OutStream>)
    ensures SendsPathCall(env, f, OpenForWrite, [U16(0), U64(0), Bool(false)], r.sent)
    ensures r.result == WriteStream(env, Outcome(env, r.sent))
  {
    OpenForWriteCall(env, f, 0, 0, false)
  }

  /** A time_t converted to the unsigned 64-bit integer the replace call sends. */
  function TimeBits(mtime: i64): (t: u64)
    ensures mtime >= 0 ==> t as int == mtime as int
    ensures mtime < 0 ==> t as int == mtime as int + 0x1_0000_0000_0000_0000
  {
    (mtime as int % 0x1_0000_0000_0000_0000) as u64
  }

  /** replace: mode 2, with the caller's modification time and backup flag. */
  function Replace(env: Env, f: File, mtime: i64, makeBackup: bool): (r: Call<OutStream>)
    ensures SendsPathCall(env, f, OpenForWrite, [U16(2), U64(TimeBits(mtime)), Bool(makeBackup)], r.sent)
    ensures r.result == WriteStream(env, Outcome(env, r.sent))
  {
    OpenForWriteCall(env, f, 2, TimeBits(mtime), makeBackup)
  }

  /** The three writing opens reach the daemon as the same call, told apart only by the mode. */
  lemma OpenModesDiffer(env: Env, f: File, mtime: i64, makeBackup: bool)
    requires env.mountRefFor(f.spec, f.path).Success?
    ensures Create(env, f).sent.value.args[1] == U16(0)
    ensures AppendTo(env, f).sent.value.args[1] == U16(1)
    ensures Replace(env, f, mtime, makeBackup).sent.value.args[1] == U16(2)
    ensures Create(env, f).sent.value.args[2..] == AppendTo(env, f).sent.value.args[2..] == [U64(0), Bool(false)]
  {
  }

  /**
    The synchronous and the asynchronous read agree on every reply: the same
    stream, and the same error except for the wording when the descriptor
    does not arrive.
  */
  lemma ReadAgreesWithReadAsync(env: Env, found: Result<MountRef, Error>, reply: Result<seq<Arg>, Error>, mounted: Result<(), Error>)
    requires found.Success?
    ensures var fd := if reply.Success? && ReadReply(reply.value).Some? then env.fdFor(ReadReply(reply.value).value.0) else -1;
      var sync := ReadStream(env, reply);
      var async := AsyncOutcome(ReadHandler, found, reply, fd, mounted);
      && (sync.Success? <==> async.Success?)
      && (sync.Success? ==> async.value == InputStream(sync.value))
      && (reply.Failure? || ReadReply(reply.value).None? ==> async == Failure(sync.error))
      && (sync == Failure(IOError(Failed, NoDescriptorSync)) && reply.Success? && ReadReply(reply.value).Some? ==>
            async == Failure(IOError(Failed, NoDescriptorAsync)))
  {
  }

  // ---------------------------------------------------------------------
  // Renaming and the simple operations

  /**
    set_display_name: the new name follows the path. A reply that starts with
    a path yields a new file for it on the same mount; a reply that does not
    yields the original file together with an error.
  */
  function Rename(env: Env, f: File, displayName: string): (r: Renamed)
    ensures SendsPathCall(env, f, SetDisplayName, [Str(displayName)], r.sent)
    ensures Outcome(env, r.sent).Failure? ==> r.file == None && r.error == Some(Outcome(env, r.sent).error)
    ensures Outcome(env, r.sent).Success? ==>
      var args := Outcome(env, r.sent).value;
      if args != [] && args[0].CString?
      then r.file == Some(FileFor(f.spec, args[0].bytes)) && r.error == None
      else r.file == Some(f) && r.error == Some(IOError(Failed, InvalidFilesystemInfo))
  {
    var x := SyncPathCall(env, f, SetDisplayName, [Str(displayName)]);
    SyncPathCallSends(env, f, SetDisplayName, [Str(displayName)]);
    match x.reply
    case Failure(e) => Renamed(x.sent, None, Some(e))
    case Success(args) =>
      if args != [] && args[0].CString? then Renamed(x.sent, Some(FileFor(f.spec, args[0].bytes)), None)
      else Renamed(x.sent, Some(f), Some(IOError(Failed, InvalidFilesystemInfo)))
  }

  /** A renamed file stays on the mount of the original and gets the canonical form of the returned path. */
  lemma RenamedFileIsCanonical(env: Env, f: File, displayName: string)
    requires Rename(env, f, displayName).error == None
    ensures var g := Rename(env, f, displayName).file.value;
      g.spec == f.spec && IsCanonical(g.path) && g.path == CanonicalPath(Outcome(env, Rename(env, f, displayName).sent).value[0].bytes)
  {
  }

  /** delete, trash and make_directory: nothing follows the path, and any reply is success. */
  function PlainCall(env: Env, f: File, op: MountOp): (r: Call<()>)
    ensures SendsPathCall(env, f, op, [], r.sent)
    ensures r.result.Success? <==> Outcome(env, r.sent).Success?
    ensures r.result.Failure? ==> r.result.error == Outcome(env, r.sent).error
  {
    var x := SyncPathCall(env, f, op, []);
    SyncPathCallSends(env, f, op, []);
    Call(x.sent, match x.reply case Failure(e) => Failure(e) case Success(_) => Success(()))
  }

  function DeleteFile(env: Env, f: File): (r: Call<()>)
    ensures SendsPathCall(env, f, Delete, [], r.sent)
    ensures r.result.Success? <==> Outcome(env, r.sent).Success?
    ensures r.result.Failure? ==> r.result.error == Outcome(env, r.sent).error
  {
    PlainCall(env, f, Delete)
  }

  function TrashFile(env: Env, f: File): (r: Call<()>)
    ensures SendsPathCall(env, f, Trash, [], r.sent)
    ensures r.result.Success? <==> Outcome(env, r.sent).Success?
    ensures r.result.Failure? ==> r.result.error == Outcome(env, r.sent).error
  {
    PlainCall(env, f, Trash)
  }

  function MakeDir(env: Env, f: File): (r: Call<()>)
    ensures SendsPathCall(env, f, MakeDirectory, [], r.sent)
    ensures r.result.Success? <==> Outcome(env, r.sent).Success?
    ensures r.result.Failure? ==> r.result.error == Outcome(env, r.sent).error
  {
    PlainCall(env, f, MakeDirectory)
  }

  // ---------------------------------------------------------------------
  // Copy and move

  /** The object path copy and move cannot leave empty: it stands for "no progress callback". */
  const VoidPath: string := "/org/gtk/vfs/void"

  /** The object path sent for progress reports: the registered callback path, or the placeholder. */
  function ProgressEndpoint(progress: Option<string>): (p: string)
    ensures progress.Some? ==> p == progress.value
    ensures progress.None? ==> p == VoidPath
  {
    if progress.Some? then progress.value else VoidPath
  }

  /**
    copy and move: the flags and the progress endpoint follow both paths;
    `progress` is the fresh callback path when the caller gave a progress
    callback. The call succeeds exactly when a reply arrives.
  */
  function Transfer(env: Env, source: File, destination: File, op: MountOp, flags: u32, progress: Option<string>): (r: Call<()>)
    requires op == Copy || op == Move
    ensures r.sent == TwoPathCall(env, source, destination, op, progress, [U32(flags), ObjectPath(ProgressEndpoint(progress))]).sent
    ensures r.result.Success? <==> r.sent.Some? && env.call(r.sent.value, progress).Success?
    ensures r.result.Failure? ==>
      r.result.error == TwoPathCall(env, source, destination, op, progress, [U32(flags), ObjectPath(ProgressEndpoint(progress))]).reply.error
  {
    var x := TwoPathCall(env, source, destination, op, progress, [U32(flags), ObjectPath(ProgressEndpoint(progress))]);
    Call(x.sent, match x.reply case Failure(e) => Failure(e) case Success(_) => Success(()))
  }

  /**
    Copy or move between files on two different mounts sends nothing and fails
    with NotSupported, the error that makes a copy fall back to reading and
    writing the data.
  */
  lemma TransferAcrossMounts(env: Env, source: File, destination: File, op: MountOp, flags: u32, progress: Option<string>)
    requires op == Copy || op == Move
    requires env.mountRefFor(source.spec, source.path).Success? && env.mountRefFor(destination.spec, destination.path).Success?
    requires env.mountRefFor(source.spec, source.path).value.id != env.mountRefFor(destination.spec, destination.path).value.id
    ensures var r := Transfer(env, source, destination, op, flags, progress);
      r.sent == None && r.result == Failure(IOError(NotSupported, DifferentMounts))
  {
    DifferentMountsNotSupported(env, source, destination, op, progress, [U32(flags), ObjectPath(ProgressEndpoint(progress))]);
  }

  /**
    Without a progress callback nothing is registered and the placeholder is
    sent; with one, the same fresh path is registered and sent. The flags come
    before the endpoint, after both paths.
  */
  lemma ProgressEndpointChoice(env: Env, source: File, destination: File, op: MountOp, flags: u32, progress: Option<string>)
    requires op == Copy || op == Move
    requires env.mountRefFor(source.spec, source.path).Success?
    requires env.mountRefFor(destination.spec, destination.path).Success?
    requires env.mountRefFor(destination.spec, destination.path).value.id == env.mountRefFor(source.spec, source.path).value.id
    ensures var x := TwoPathCall(env, source, destination, op, progress, [U32(flags), ObjectPath(ProgressEndpoint(progress))]);
      && x.sent.Some? && x.sent.value.args[2..] == [U32(flags), ObjectPath(ProgressEndpoint(progress))]
      && (progress.None? ==> x.registered == None && x.sent.value.args[3] == ObjectPath("/org/gtk/vfs/void"))
      && (progress.Some? ==> x.registered == progress && x.sent.value.args[3] == ObjectPath(progress.value))
  {
    SameMountArguments(env, source, destination, op, progress, [U32(flags), ObjectPath(ProgressEndpoint(progress))]);
  }

  /** What progress_callback_message does with a message to the callback object. */
  datatype ProgressAction = Report(current: u64, total: u64) | Ignore | Warn

  /**
    progress_callback_message: a progress call with two unsigned 64-bit
    arguments reaches the caller's callback; a progress call without them is
    ignored; any other message draws a warning. Every message counts as handled.
  */
  function ProgressCallbackMessage(m: Message): (a: ProgressAction)
    ensures a.Report? <==> m.member == ProgressReport && |m.args| >= 2 && m.args[0].U64? && m.args[1].U64?
    ensures a.Report? ==> m.args[..2] == [U64(a.current), U64(a.total)]
    ensures a.Warn? <==> m.member != ProgressReport
  {
    if m.member != ProgressReport then Warn
    else if |m.args| >= 2 && m.args[0].U64? && m.args[1].U64? then Report(m.args[0].u64, m.args[1].u64)
    else Ignore
  }

  // ---------------------------------------------------------------------
  // Asynchronous operations and mounting

  /** read_async: an asynchronous open for reading, nothing after the path. */
  method ReadAsync(env: Env, f: File, cancellable: Option<Cancellable>, found: Result<MountRef, Error>,
                   reply: Result<seq<Arg>, Error>, fd: int)
    returns (outcome: Result<Payload, Error>, completions: nat, frees: nat, sent: seq<Message>)
    ensures completions == 1 && frees == 1
    ensures sent == if found.Success? then [PathMessage(env, found.value, f, OpenForRead, [])] else []
    ensures outcome.Success? ==> outcome.value.InputStream?
    ensures outcome == AsyncOutcome(ReadHandler, found, reply, fd, Success(()))
  {
    var notifications;
    outcome, completions, frees, notifications, sent :=
      RunAsyncPathCall(env, f, OpenForRead, cancellable, ReadHandler, false, [], found, reply, fd, Success(()));
  }

  /**
    mount_mountable: an asynchronous call carrying the mount source after the
    path; the mount operation, when there is one, is released exactly once
    with the call.
  */
  method MountMountableAsync(env: Env, f: File, source: MountSource, hasOperation: bool, cancellable: Option<Cancellable>,
                        found: Result<MountRef, Error>, reply: Result<seq<Arg>, Error>, mounted: Result<(), Error>)
    returns (outcome: Result<Payload, Error>, completions: nat, frees: nat, releases: nat, sent: seq<Message>)
    ensures completions == 1 && frees == 1 && releases == (if hasOperation then 1 else 0)
    ensures sent == if found.Success? then [PathMessage(env, found.value, f, MountMountable, SourceArgs(source))] else []
    ensures outcome.Success? ==> outcome.value.MountedFile?
    ensures outcome == AsyncOutcome(MountMountableHandler, found, reply, -1, mounted)
  {
    outcome, completions, frees, releases, sent :=
      RunAsyncPathCall(env, f, MountMountable, cancellable, MountMountableHandler, hasOperation, SourceArgs(source),
                       found, reply, -1, mounted);
  }

  /**
    mount_mountable_async_cb: a well-formed reply yields the file for the
    returned mount and path; when the location must be mounted first, the
    call ends as that mount does, otherwise it ends at once with the file.
  */
  lemma MountableChainsOrCompletes(found: Result<MountRef, Error>, args: seq<Arg>, mounted: Result<(), Error>)
    requires found.Success? && MountableReply(args).Some?
    ensures var (spec, path, mustMount) := MountableReply(args).value;
      var outcome := AsyncOutcome(MountMountableHandler, found, Success(args), -1, mounted);
      && (!mustMount ==> outcome == Success(MountedFile(FileFor(spec, path))))
      && (mustMount && mounted.Success? ==> outcome == Success(MountedFile(FileFor(spec, path))))
      && (mustMount && mounted.Failure? ==> outcome == Failure(mounted.error))
  {
  }

  /** The bus name of the main daemon and the object path of its mount tracker. */
  const DaemonBusName: string := "org.gtk.vfs.Daemon"
  const TrackerPath: string := "/org/gtk/vfs/mounttracker"

  /**
    mount_for_location: ask the mount tracker to mount the file's location,
    sending the file's mount specification with the file's path as its mount
    prefix, then the mount source.
  */
  function MountForLocation(f: File, source: MountSource): (m: Message)
    ensures m.destination == DaemonBusName && m.objectPath == TrackerPath && m.member == MountLocation
    ensures |m.args| == 3 && m.args[0].Spec?
    ensures m.args[0].spec.items == f.spec.items && m.args[0].spec.mountPrefix == f.path
    ensures m.args[1..] == SourceArgs(source)
  {
    Message(DaemonBusName, TrackerPath, MountLocation, [Spec(f.spec.(mountPrefix := f.path))] + SourceArgs(source))
  }

  /** mount_reply: the mount succeeds exactly when a reply arrives, else it fails with the call's error. */
  function MountReply(reply: Result<seq<Arg>, Error>): (r: Result<(), Error>)
    ensures r.Success? <==> reply.Success?
    ensures r.Failure? ==> r.error == reply.error
  {
    match reply
    case Failure(e) => Failure(e)
    case Success(_) => Success(())
  }
}
