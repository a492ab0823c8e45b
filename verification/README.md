# gvfs daemon file, modelled in Dafny

This project models the client-side file object of gvfs (`GDaemonFile`, in
`client/gdaemonfile.c`). A daemon file is a mount specification plus a path
inside that mount. Every operation on it becomes a method call sent to the
daemon that serves the mount. The model covers the following:

- **Path canonicalisation.** `canonicalize_path` runs on a NUL-terminated
  character array and rewrites it in place. It is proved equal to a
  segment-stack specification (`PathSpec.CanonicalPath`). The path algebra is
  built on that specification: basename, parent, equality, duplication and
  resolution of relative paths. Resolution uses `g_build_path`, modelled for
  two elements.
- **Message construction for one path and for two paths.** A message carries
  the resolved path or paths first and the operation's own arguments after
  them. The two-path call refuses files on different mounts.
- **The lifecycle of an asynchronous call.** The `AsyncPathCall` record is the
  class `AsyncCalls.PendingCall`. The operation's result completes exactly
  once and the record is freed exactly once on every route. The route can end
  at a failed mount lookup or a transport error. Otherwise the reply is
  handed to the operation's callback, and that callback may keep the result
  for a follow-up.
- **Each operation's arguments and its reply decoding.** This covers:
  - enumerate, get_info and get_filesystem_info;
  - read, both sync and async;
  - append_to, create and replace;
  - set_display_name, delete, trash and make_directory;
  - copy and move, with their progress endpoint, and the progress message
    filter;
  - mount_mountable, mount_for_location and mount_reply.

The services the file object calls but that are not part of this model are
functions in an environment (`Messages.Env`):

- mount lookup (`_g_daemon_vfs_get_mount_ref_sync`);
- mount path translation (`_g_mount_ref_resolve_path`);
- the synchronous bus call (`_g_vfs_daemon_call_sync`);
- descriptor passing (`_g_dbus_connection_get_fd_sync`);
- file-info decoding (`_g_dbus_get_file_info`).

Asynchronous events are parameters of the methods that receive them: the
found mount, the reply, the received descriptor and the result of mounting a
location.

Behaviour modelled as the code has it, where a reader might expect otherwise:

- **A leading doubled slash survives canonicalisation.** `//a` stays `//a`,
  and `///a/` becomes `//a`. An input that begins with `//` keeps the doubled
  root when at least one segment survives (`//a/../b` becomes `//b`, but
  `//a/..` and `//` become `/`); a slash that `.` or `..` removal moves to
  that position is removed like any other (`/./a` becomes `/a`)
  (`PathSpec.DoubleRoot`, `PathSpec.CanonicalExampleDoubleRoot`).
- **Parents of one-segment paths.** The parent of `/a` is none, because the
  last slash is at index 0. The parent of `//a` is `/`.
- **Equality ignores the mount specification.** Two files compare equal when
  their paths do.
- **Single-path synchronous calls do not report a failed mount lookup.**
  `create_empty_message` passes no error location to the lookup, so such a
  call fails without setting any error (`Messages.Error.NotReported`). The
  two-path call and the asynchronous call pass the lookup's error on.
- **A malformed reply to set_display_name still returns a file.** It returns
  the original file together with an error. The error text is "Invalid return
  value from get_filesystem_info".
- **The caller's cancellable is never stored.** `do_async_path_call` tests the
  freshly zeroed field rather than the argument, so the pending call never
  holds the cancellable and the asynchronous call goes out without one.
- **The two reads word the missing-descriptor error differently.** The sync
  read says "Didn't get stream file descriptor" and the async read says
  "Couldn't get stream file descriptor".
- **replace converts the modification time as unsigned.** It sends its
  `time_t` modification time as an unsigned 64-bit integer, so a negative
  time wraps modulo 2^64 (`Operations.TimeBits`).

## Model

| member | source | states |
|---|---|---|
| PathSpec.CanonicalPath | client/gdaemonfile.c:72-75 | the canonical path always starts with `/` |
| Canonicalize.CanonicalizePath | client/gdaemonfile.c:67-125 | the in-place rewrite of the character array yields exactly `CanonicalPath` of the input |
| PathSpec.CanonicalForm | client/gdaemonfile.c:67-125 | a canonical path is a root (`/`, or `//` for a doubled root) followed by the resolved segments joined by single slashes, none of them empty, `.` or `..` |
| PathSpec.DotIsDropped | client/gdaemonfile.c:83-86 | a `.` segment changes nothing |
| PathSpec.DotDotRemovesLastSegment | client/gdaemonfile.c:87-99 | a `..` segment removes the nearest preceding segment |
| PathSpec.DotDotAtRootIsDropped | client/gdaemonfile.c:90-93 | a `..` at the root is dropped, so the result never climbs above `/` |
| PathSpec.DotAndDotDot | client/gdaemonfile.c:83-99 | `a/./b/..` followed by more resolves like `a` followed by the same |
| PathSpec.ResolveAppend | client/gdaemonfile.c:80-118 | resolving `x/y` is resolving `x` and then `y` on the resulting stack |
| PathSpec.ResolveTrailingSlashes | client/gdaemonfile.c:111-122 | trailing separators add no segment |
| PathSpec.CanonicalSeparators | client/gdaemonfile.c:111-122 | no trailing slash unless the result is `/`, no doubled slash after the root, and a doubled root exactly when the input starts with two slashes and the result is not `/` |
| PathSpec.CanonicalComponents | client/gdaemonfile.c:80-122 | every component after the root is a valid segment |
| PathSpec.CanonicalIdempotent | client/gdaemonfile.c:67-125 | canonicalising a canonical path changes nothing |
| PathSpec.CanonicalExampleRelative | client/gdaemonfile.c:72-99 | `a/./b/../c` becomes `/a/c` |
| PathSpec.CanonicalExampleAboveRoot | client/gdaemonfile.c:87-99 | `../../x` becomes `/x` |
| PathSpec.CanonicalExampleDoubleRoot | client/gdaemonfile.c:77-118 | `//a` stays `//a` |
| DaemonFile.FileFor | client/gdaemonfile.c:127-139 | a new file keeps the mount specification and holds a canonical absolute path |
| DaemonFile.New | client/gdaemonfile.c:127-139 | g_daemon_file_new canonicalises the path with the in-place rewrite |
| DaemonFile.Dup | client/gdaemonfile.c:231-238 | dup builds a new file from the same specification and path |
| DaemonFile.DupOfNewIsSame | client/gdaemonfile.c:231-238 | the duplicate of a file equals it |
| DaemonFile.Equal | client/gdaemonfile.c:250-258 | equal exactly when the paths are; on one mount specification that is exactly when the files are the same |
| DaemonFile.EqualIgnoresMountSpec | client/gdaemonfile.c:250-258 | two files are equal exactly when their canonical paths are, whatever their mount specifications |
| DaemonFile.LastSlash | client/gdaemonfile.c:155 | the index of the last `/`, or none when there is no `/` |
| DaemonFile.Basename | client/gdaemonfile.c:147-162 | without a `/`, or with a trailing `/`, the whole path; otherwise the non-empty text after the last `/` |
| DaemonFile.BasenameOfCanonical | client/gdaemonfile.c:147-162 | the basename of a file is its last segment, and `/` for the root |
| DaemonFile.GetParent | client/gdaemonfile.c:200-229 | the backwards pointer walk computes `Parent`: none when the last `/` is at index 0, else the prefix before it without trailing slashes, with the same mount specification |
| DaemonFile.ParentOfRoot | client/gdaemonfile.c:210-212 | the root has no parent |
| DaemonFile.ParentOfOneSegment | client/gdaemonfile.c:210-222 | `/a` has no parent, and `//a` has parent `/` |
| DaemonFile.ParentOfSegments | client/gdaemonfile.c:210-226 | the parent of a path of two or more segments is the path without its last segment |
| DaemonFile.BuildPathSegments | client/gdaemonfile.c:271 | the joined path resolves to the segments of the first element followed by those of the second |
| DaemonFile.BuildPathRoot | client/gdaemonfile.c:271 | joining a relative element to an absolute path keeps the path's root |
| DaemonFile.ResolveRelative | client/gdaemonfile.c:260-276 | an absolute relative path names a new file by itself; any other is joined onto the file's path; the mount specification is kept |
| DaemonFile.ResolveRelativePath | client/gdaemonfile.c:260-276 | the resolved file's path is the file's segments extended by resolving the relative path on them |
| Messages.ReadReply | client/gdaemonfile.c:704-714 | a read reply decodes exactly when it starts with a descriptor id and a seek flag |
| Messages.ReadReplyRoundTrip | client/gdaemonfile.c:704-706 | decoding an encoded read reply gives back its values |
| Messages.WriteReply | client/gdaemonfile.c:825-834 | a write reply decodes exactly when it starts with a descriptor id, a seek flag and an offset |
| Messages.WriteReplyRoundTrip | client/gdaemonfile.c:825-829 | decoding an encoded write reply gives back its values |
| Messages.InfoReply | client/gdaemonfile.c:647-656 | a reply that does not start with a structure fails with the given message; a structure is decoded as file information |
| Messages.MountableReply | client/gdaemonfile.c:993-1000 | a mount_mountable reply decodes exactly when it holds a mount specification, a path and a flag |
| Messages.MountableReplyRoundTrip | client/gdaemonfile.c:993-1000 | decoding an encoded mount_mountable reply gives back its values |
| PathCalls.CreateEmptyMessage | client/gdaemonfile.c:278-305 | no message without a mount; otherwise a call to the mount's daemon whose only argument is the resolved path |
| PathCalls.SyncPathCall | client/gdaemonfile.c:307-336 | the resolved path comes before the extra arguments; a failed lookup sends nothing and fails without an error |
| PathCalls.TwoPathCall | client/gdaemonfile.c:338-410 | the first failed lookup ends the call with its error; a message is sent exactly when both mounts are found and are the same mount reference (compared by identity) |
| PathCalls.DifferentMountsNotSupported | client/gdaemonfile.c:370-376 | files whose mount references differ fail with NOT_SUPPORTED and nothing is sent or registered |
| PathCalls.SameMountArguments | client/gdaemonfile.c:378-404 | on one mount the arguments are the first path, then the second, both resolved against the first mount, then the extra arguments |
| AsyncCalls.PendingCall.constructor | client/gdaemonfile.c:523-574 | the new call holds its result, keeps the extra arguments only when there are some, and never stores the caller's cancellable |
| AsyncCalls.PendingCall.Free | client/gdaemonfile.c:430-445 | freeing runs the notify callback when there is one and drops the result if the record still holds it |
| AsyncCalls.PendingCall.DropResultRef | client/gdaemonfile.c:464-474 | dropping the last reference to the handed-off result frees the record |
| AsyncCalls.PendingCall.MountResolved | client/gdaemonfile.c:478-521 | a failed lookup completes with its error and frees; a found mount gets the path message with the extra arguments after the path |
| AsyncCalls.PendingCall.ReplyArrived | client/gdaemonfile.c:447-476 | a transport error completes and frees; otherwise the callback decides, and the record survives exactly while a follow-up holds the result |
| AsyncCalls.PendingCall.ReadReplied | client/gdaemonfile.c:693-722 | a malformed open reply completes with "Invalid return value from open"; otherwise the result is kept for the descriptor |
| AsyncCalls.PendingCall.MountableReplied | client/gdaemonfile.c:977-1026 | a malformed reply completes with "Invalid return value from call"; otherwise the result holds the new file and completes at once unless the location must be mounted |
| AsyncCalls.PendingCall.DescriptorArrived | client/gdaemonfile.c:668-691 | descriptor -1 completes with "Couldn't get stream file descriptor", any other opens the stream; the record is then freed |
| AsyncCalls.PendingCall.LocationMounted | client/gdaemonfile.c:958-975 | a failed location mount replaces the file with its error; the record is then freed |
| AsyncCalls.RunAsyncPathCall | client/gdaemonfile.c:419-574 | on every route the result completes exactly once, the record is freed exactly once and the notify callback runs once when there is one |
| AsyncCalls.AsyncSendsSyncMessage | client/gdaemonfile.c:478-521 | the asynchronous call sends the same message as the synchronous one |
| AsyncCalls.MountFailureReporting | client/gdaemonfile.c:489-495 | a failed lookup reaches the asynchronous caller as its error, while the synchronous call reports none |
| Operations.SyncPathCallSends | client/gdaemonfile.c:307-336 | the synchronous call sends the path message and returns its reply, or sends nothing and fails unreported |
| Operations.AttributesArg | client/gdaemonfile.c:593-594 | a missing attribute list is sent as the empty string |
| Operations.EnumerateChildren | client/gdaemonfile.c:577-620 | the enumerator path, attributes and flags follow the path; any reply yields the enumerator, errors pass through |
| Operations.QueryInfo | client/gdaemonfile.c:622-661 | attributes and flags follow the path; the reply is decoded with "Invalid return value from get_info" |
| Operations.QueryFilesystemInfo | client/gdaemonfile.c:1173-1208 | attributes follow the path; the reply is decoded with "Invalid return value from get_filesystem_info" |
| Operations.MalformedInfoReply | client/gdaemonfile.c:647-653 | a reply without a leading structure fails each info call with its own message |
| Operations.ReadStream | client/gdaemonfile.c:770-794 | a stream exactly when the reply decodes and its descriptor arrives; otherwise the reply's error, "Invalid return value from open" or "Didn't get stream file descriptor" |
| Operations.ReadFile | client/gdaemonfile.c:755-795 | nothing follows the path, and the reply is decoded as above |
| Operations.WriteStream | client/gdaemonfile.c:825-847 | an output stream exactly when the reply decodes and its descriptor arrives, with the reply's seek flag and offset |
| Operations.OpenForWriteCall | client/gdaemonfile.c:815-821 | mode, modification time and backup flag follow the path |
| Operations.AppendTo | client/gdaemonfile.c:797-848 | mode 1, time 0, no backup |
| Operations.Create | client/gdaemonfile.c:850-901 | mode 0, time 0, no backup |
| Operations.TimeBits | client/gdaemonfile.c:920 | a time_t becomes its value modulo 2^64 |
| Operations.Replace | client/gdaemonfile.c:903-956 | mode 2 with the caller's time, as unsigned, and backup flag |
| Operations.OpenModesDiffer | client/gdaemonfile.c:811-922 | the three opens differ in the mode; create and append send the same defaults |
| Operations.ReadAgreesWithReadAsync | client/gdaemonfile.c:668-795 | sync and async read give the same stream and the same errors, except for the wording of the missing-descriptor error |
| Operations.Rename | client/gdaemonfile.c:1210-1248 | the new name follows the path; a returned path gives a new file on the same mount; a malformed reply gives the original file and an error |
| Operations.RenamedFileIsCanonical | client/gdaemonfile.c:1242 | a renamed file keeps the mount and gets the canonical form of the returned path |
| Operations.PlainCall | client/gdaemonfile.c:1250-1311 | nothing follows the path; any reply is success and errors pass through |
| Operations.DeleteFile | client/gdaemonfile.c:1250-1269 | the delete call with nothing after the path, succeeding when a reply arrives and otherwise failing with the call's error |
| Operations.TrashFile | client/gdaemonfile.c:1271-1290 | the trash call with nothing after the path, succeeding when a reply arrives and otherwise failing with the call's error |
| Operations.MakeDir | client/gdaemonfile.c:1292-1311 | the make_directory call with nothing after the path, succeeding when a reply arrives and otherwise failing with the call's error |
| Operations.ProgressEndpoint | client/gdaemonfile.c:1406-1416 | the callback path when there is a progress callback, else `/org/gtk/vfs/void` |
| Operations.Transfer | client/gdaemonfile.c:1388-1488 | copy and move send flags and endpoint after both paths, succeed exactly when a reply arrives, and otherwise fail with the error of the two-path call |
| Operations.TransferAcrossMounts | client/gdaemonfile.c:370-376 | copy or move between different mounts sends nothing and fails with NOT_SUPPORTED |
| Operations.ProgressEndpointChoice | client/gdaemonfile.c:1406-1428 | without a callback nothing is registered and the placeholder is sent; with one the same fresh path is registered and sent, after the flags |
| Operations.ProgressCallbackMessage | client/gdaemonfile.c:1363-1386 | the callback fires exactly for a progress call with two 64-bit arguments, which it receives; other progress calls are ignored; any other message draws a warning |
| Operations.ReadAsync | client/gdaemonfile.c:724-737 | the asynchronous read sends nothing after the path and completes and frees once, with an input stream on success |
| Operations.MountMountableAsync | client/gdaemonfile.c:1028-1057 | the mount source follows the path; the mount operation is released exactly once when there is one |
| Operations.MountableChainsOrCompletes | client/gdaemonfile.c:977-1026 | a well-formed reply ends with the new file at once, or after mounting the location, whose failure becomes the result |
| Operations.MountForLocation | client/gdaemonfile.c:1118-1162 | the tracker is asked to mount the file's specification with the file's path as mount prefix, other items unchanged, then the mount source |
| Operations.MountReply | client/gdaemonfile.c:1087-1116 | the mount succeeds exactly when a reply arrives and fails with the call's error otherwise |

## Left out

- The bus transport, message marshalling, mount lookup and path translation,
  descriptor passing and file-info decoding are not part of this model. They
  are functions of `Messages.Env` or parameters, and only their results
  matter here.
- A mount specification travels as one argument (`Messages.Arg.Spec`); its
  serialisation (`g_mount_spec_to_dbus`, `g_mount_spec_from_dbus`) is not part
  of this model.
- The bus name and tracker path of the main daemon are fixed constants
  (`Operations.DaemonBusName`, `Operations.TrackerPath`) copied from
  `gvfsdaemonprotocol.h`; the other definitions of that header are not part of
  this model. Interface and member names are enumerations (`Messages.Member`,
  `Messages.MountOp`).
- get_uri, get_parse_name and hash call URI encoding and hashing code that is
  not part of this model. get_path always returns NULL and is_native always
  returns FALSE; neither is modelled.
- The `_finish` functions only read the result back; the model's outcome is
  what they return.
- GObject machinery and stream and enumerator objects: a stream or enumerator
  is the record of what it was built from.
- set_attribute: its body is compiled out, so it always succeeds without
  sending anything.
- Reference counts are modelled for the asynchronous result only. References
  to mounts, files and messages are not. In particular the two mount
  references `do_sync_2_path_call` drops only once the message has been sent
  (and so leaks on its early returns) are not modelled.
- The callback object path of copy and move comes from a pointer value
  (`%p`). It is the parameter `progress`, a fresh path chosen by the caller.
- mount_for_location ignores its cancellable and has a timeout. Neither is
  modelled.
- Cancellation and I/O priorities have no effect in the model.
- The mount operation wrapped into a mount source (`g_mount_operation_dbus_wrap`)
  is not part of this model; the source is a parameter.
- Operations.MountMountableAsync: the follow-up mount of the location is an
  event result (`mounted`), not a call into `Operations.MountForLocation`,
  because it goes through GIO's generic `g_mount_for_location`.
- DaemonFile.BuildPath: only the two-element case of `g_build_path` is
  modelled, since that is the only one the file uses.
