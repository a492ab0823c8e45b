/**
  What the file object exchanges with a mount daemon: typed message arguments,
  method calls, the errors a call can end in, and the services it uses whose
  code is not part of this model (mount lookup, path translation, the bus,
  descriptor passing, file-info decoding), given as functions of an
  environment.
*/
module Messages {
  import opened Wrappers
  import opened PathSpec
  import opened DaemonFile

  newtype u16 = x: int | 0 <= x < 0x1_0000
  newtype u32 = x: int | 0 <= x < 0x1_0000_0000
  newtype u64 = x: int | 0 <= x < 0x1_0000_0000_0000_0000
  newtype i64 = x: int | -0x8000_0000_0000_0000 <= x < 0x8000_0000_0000_0000

  /** A byte string as G_DBUS_TYPE_CSTRING carries it: it holds no NUL. */
  type CPath = p: Path | '\0' !in p

  /** A typed argument of a bus message. */
  datatype Arg =
    | Str(s: string)              // DBUS_TYPE_STRING
    | CString(bytes: CPath)       // G_DBUS_TYPE_CSTRING, used for paths
    | ObjectPath(name: string)    // DBUS_TYPE_OBJECT_PATH
    | U16(u16: u16)
    | U32(u32: u32)
    | U64(u64: u64)
    | Bool(b: bool)
    | Struct(fields: seq<Arg>)    // DBUS_TYPE_STRUCT, as file info travels
    | Spec(spec: MountSpec)       // a mount specification, as g_mount_spec_to_dbus writes it

  /** The operations of the mount interface a daemon file calls. */
  datatype MountOp =
    | Enumerate | GetInfo | GetFilesystemInfo | OpenForRead | OpenForWrite
    | SetDisplayName | Delete | Trash | MakeDirectory | Copy | Move | MountMountable

  /** The member a message calls, with the interface it belongs to. */
  datatype Member =
    | MountMember(op: MountOp)    // G_VFS_DBUS_MOUNT_INTERFACE
    | MountLocation               // the mount tracker's mount-location call
    | ProgressReport              // G_VFS_DBUS_PROGRESS_INTERFACE, progress operation
    | OtherMember(name: string)

  /** A method call on the bus. */
  datatype Message = Message(destination: string, objectPath: string, member: Member, args: seq<Arg>)

  /**
    A reference to a live mount: the bus name and object path of its daemon.
    References are shared objects; `id` stands for the pointer the source
    compares.
  */
  datatype MountRef = MountRef(id: nat, dbusId: string, objectPath: string)

  /** The bus name and object path through which a mount operation is reached. */
  datatype MountSource = MountSource(dbusId: string, objectPath: string)

  /** g_mount_source_to_dbus and the mount-mountable call: the source's bus name, then its object path. */
  function SourceArgs(source: MountSource): seq<Arg> {
    [Str(source.dbusId), ObjectPath(source.objectPath)]
  }

  /** An input stream on a received descriptor (g_daemon_file_input_stream_new). */
  datatype InStream = InStream(fd: int, canSeek: bool)

  /** File information, as _g_dbus_get_file_info builds it from a reply. */
  datatype FileInfo = FileInfo(attributes: seq<Arg>)

  datatype ErrorCode = Failed | NotSupported

  /** How an operation fails. */
  datatype Error =
    | IOError(code: ErrorCode, message: string)  // set by the daemon file itself
    | Passed(detail: string)                      // set by a service and passed on unchanged
    | NotReported                                 // failed without setting any error

  const DifferentMounts: string := "Operation not supported, files on different mounts"
  const InvalidOpen: string := "Invalid return value from open"
  const InvalidGetInfo: string := "Invalid return value from get_info"
  const InvalidFilesystemInfo: string := "Invalid return value from get_filesystem_info"
  const InvalidCall: string := "Invalid return value from call"
  const NoDescriptorSync: string := "Didn't get stream file descriptor"
  const NoDescriptorAsync: string := "Couldn't get stream file descriptor"

  /**
    The services behind the file object, as functions:
      mountRefFor   _g_daemon_vfs_get_mount_ref_sync
      resolvePath   _g_mount_ref_resolve_path
      call          _g_vfs_daemon_call_sync, given the callback object path it registers
      fdFor         _g_dbus_connection_get_fd_sync (-1 on failure)
      fileInfo      _g_dbus_get_file_info
  */
  datatype Env = Env(
    mountRefFor: (MountSpec, Path) -> Result<MountRef, Error>,
    resolvePath: (MountRef, Path) -> CPath,
    call: (Message, Option<string>) -> Result<seq<Arg>, Error>,
    fdFor: u32 -> int,
    fileInfo: Arg -> Result<FileInfo, Error>)

  // ---------------------------------------------------------------------
  // Replies

  /** dbus_message_get_args (reply, UINT32, BOOLEAN): a descriptor id and whether the stream can seek. */
  function ReadReply(args: seq<Arg>): (r: Option<(u32, bool)>)
    ensures r.Some? <==> |args| >= 2 && args[0].U32? && args[1].Bool?
    ensures r.Some? ==> args[..2] == [U32(r.value.0), Bool(r.value.1)]
  {
    if |args| >= 2 && args[0].U32? && args[1].Bool? then Some((args[0].u32, args[1].b)) else None
  }

  /** A reply that starts with a descriptor id and a seek flag decodes to them. */
  lemma ReadReplyRoundTrip(id: u32, canSeek: bool, rest: seq<Arg>)
    ensures ReadReply([U32(id), Bool(canSeek)] + rest) == Some((id, canSeek))
  {
  }

  /** dbus_message_get_args (reply, UINT32, BOOLEAN, UINT64): a descriptor id, a seek flag and the initial offset. */
  function WriteReply(args: seq<Arg>): (r: Option<(u32, bool, u64)>)
    ensures r.Some? <==> |args| >= 3 && args[0].U32? && args[1].Bool? && args[2].U64?
    ensures r.Some? ==> args[..3] == [U32(r.value.0), Bool(r.value.1), U64(r.value.2)]
  {
    if |args| >= 3 && args[0].U32? && args[1].Bool? && args[2].U64?
    then Some((args[0].u32, args[1].b, args[2].u64))
    else None
  }

  lemma WriteReplyRoundTrip(id: u32, canSeek: bool, offset: u64, rest: seq<Arg>)
    ensures WriteReply([U32(id), Bool(canSeek), U64(offset)] + rest) == Some((id, canSeek, offset))
  {
  }

  /**
    The get_info and get_filesystem_info replies: the first argument must be a
    structure, else the call fails with `invalid`; the structure is decoded by
    the file-info service.
  */
  function InfoReply(env: Env, args: seq<Arg>, invalid: string): (r: Result<FileInfo, Error>)
    ensures args == [] || !args[0].Struct? ==> r == Failure(IOError(Failed, invalid))
    ensures args != [] && args[0].Struct? ==> r == env.fileInfo(args[0])
  {
    if args == [] || !args[0].Struct? then Failure(IOError(Failed, invalid)) else env.fileInfo(args[0])
  }

  /** The reply to mount_mountable: a mount specification, a path and whether the location must be mounted. */
  function MountableReply(args: seq<Arg>): (r: Option<(MountSpec, CPath, bool)>)
    ensures r.Some? <==> |args| >= 3 && args[0].Spec? && args[1].CString? && args[2].Bool?
    ensures r.Some? ==> args[..3] == [Spec(r.value.0), CString(r.value.1), Bool(r.value.2)]
  {
    if |args| >= 3 && args[0].Spec? && args[1].CString? && args[2].Bool?
    then Some((args[0].spec, args[1].bytes, args[2].b))
    else None
  }

  lemma MountableReplyRoundTrip(spec: MountSpec, path: CPath, mustMount: bool, rest: seq<Arg>)
    ensures MountableReply([Spec(spec), CString(path), Bool(mustMount)] + rest) == Some((spec, path, mustMount))
  {
  }
}
