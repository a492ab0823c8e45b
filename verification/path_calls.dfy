/**
  Building and sending the method calls of a daemon file: create_empty_message,
  do_sync_path_call and do_sync_2_path_call.
*/
module PathCalls {
  import opened Wrappers
  import opened PathSpec
  import opened DaemonFile
  import opened Messages

  /**
    What a synchronous call did: the message it sent (none when it stopped
    before sending), the callback object path it registered for the call, and
    the reply or the error.
  */
  datatype Exchange = Exchange(sent: Option<Message>, registered: Option<string>, reply: Result<seq<Arg>, Error>)

  /** The call on the mount interface that create_empty_message starts, with more arguments after the path. */
  function PathMessage(env: Env, ref: MountRef, f: File, op: MountOp, extra: seq<Arg>): Message {
    Message(ref.dbusId, ref.objectPath, MountMember(op), [CString(env.resolvePath(ref, f.path))] + extra)
  }

  /**
    create_empty_message: look the mount up; without a mount there is no
    message (and no error is set, since the lookup is given none).
  */
  function CreateEmptyMessage(env: Env, f: File, op: MountOp): (m: Option<Message>)
    ensures m.None? <==> env.mountRefFor(f.spec, f.path).Failure?
    ensures m.Some? ==> var ref := env.mountRefFor(f.spec, f.path).value;
      && m.value.destination == ref.dbusId && m.value.objectPath == ref.objectPath
      && m.value.member == MountMember(op)
      && m.value.args == [CString(env.resolvePath(ref, f.path))]
  {
    match env.mountRefFor(f.spec, f.path)
    case Failure(_) => None
    case Success(ref) => Some(PathMessage(env, ref, f, op, []))
  }

  /**
    do_sync_path_call: the message of create_empty_message with the extra
    arguments appended after the path, sent without a callback object. When
    the mount lookup fails nothing is sent and the call fails without an error.
  */
  function SyncPathCall(env: Env, f: File, op: MountOp, extra: seq<Arg>): (x: Exchange)
    ensures x.registered == None
    ensures x.sent.None? <==> env.mountRefFor(f.spec, f.path).Failure?
    ensures x.sent.None? ==> x.reply == Failure(NotReported)
    ensures x.sent.Some? ==> var ref := env.mountRefFor(f.spec, f.path).value;
      && x.sent.value.destination == ref.dbusId && x.sent.value.objectPath == ref.objectPath
      && x.sent.value.member == MountMember(op)
      && x.sent.value.args == [CString(env.resolvePath(ref, f.path))] + extra
      && x.reply == env.call(x.sent.value, None)
  {
    match CreateEmptyMessage(env, f, op)
    case None => Exchange(None, None, Failure(NotReported))
    case Some(m) =>
      var full := m.(args := m.args + extra);
      Exchange(Some(full), None, env.call(full, None))
  }

  /**
    do_sync_2_path_call: look up both mounts, in order, stopping at the first
    failure with its error. Two different mount references (compared by `id`,
    the pointer) fail with NotSupported before
    any message is built. Otherwise both paths are resolved against the first
    mount and sent before the extra arguments, and the callback object is
    registered for the call.
  */
  function TwoPathCall(env: Env, f1: File, f2: File, op: MountOp, callback: Option<string>, extra: seq<Arg>): (x: Exchange)
    ensures env.mountRefFor(f1.spec, f1.path).Failure? ==>
      x == Exchange(None, None, Failure(env.mountRefFor(f1.spec, f1.path).error))
    ensures env.mountRefFor(f1.spec, f1.path).Success? && env.mountRefFor(f2.spec, f2.path).Failure? ==>
      x == Exchange(None, None, Failure(env.mountRefFor(f2.spec, f2.path).error))
    ensures x.sent.Some? <==>
      && env.mountRefFor(f1.spec, f1.path).Success? && env.mountRefFor(f2.spec, f2.path).Success?
      && env.mountRefFor(f1.spec, f1.path).value.id == env.mountRefFor(f2.spec, f2.path).value.id
  {
    match env.mountRefFor(f1.spec, f1.path)
    case Failure(e) => Exchange(None, None, Failure(e))
    case Success(ref1) =>
      match env.mountRefFor(f2.spec, f2.path)
      case Failure(e) => Exchange(None, None, Failure(e))
      case Success(ref2) =>
        if ref1.id != ref2.id then Exchange(None, None, Failure(IOError(NotSupported, DifferentMounts)))
        else
          var m := Message(ref1.dbusId, ref1.objectPath, MountMember(op),
                           [CString(env.resolvePath(ref1, f1.path)), CString(env.resolvePath(ref1, f2.path))] + extra);
          Exchange(Some(m), callback, env.call(m, callback))
  }

  /** Files on two different mounts: NotSupported, and nothing is sent or registered. */
  lemma DifferentMountsNotSupported(env: Env, f1: File, f2: File, op: MountOp, callback: Option<string>, extra: seq<Arg>)
    requires env.mountRefFor(f1.spec, f1.path).Success? && env.mountRefFor(f2.spec, f2.path).Success?
    requires env.mountRefFor(f1.spec, f1.path).value.id != env.mountRefFor(f2.spec, f2.path).value.id
    ensures TwoPathCall(env, f1, f2, op, callback, extra) == Exchange(None, None, Failure(IOError(NotSupported, DifferentMounts)))
  {
  }

  /**
    Files on the same mount: the message carries the first path, then the
    second, both resolved against that mount, then the extra arguments in
    order; its reply is the call's result.
  */
  lemma SameMountArguments(env: Env, f1: File, f2: File, op: MountOp, callback: Option<string>, extra: seq<Arg>)
    requires env.mountRefFor(f1.spec, f1.path).Success?
    requires env.mountRefFor(f2.spec, f2.path).Success?
    requires env.mountRefFor(f2.spec, f2.path).value.id == env.mountRefFor(f1.spec, f1.path).value.id
    ensures var ref := env.mountRefFor(f1.spec, f1.path).value;
      var x := TwoPathCall(env, f1, f2, op, callback, extra);
      && x.sent.Some? && x.registered == callback
      && x.sent.value.destination == ref.dbusId && x.sent.value.member == MountMember(op)
      && |x.sent.value.args| == 2 + |extra|
      && x.sent.value.args[0] == CString(env.resolvePath(ref, f1.path))
      && x.sent.value.args[1] == CString(env.resolvePath(ref, f2.path))
      && x.sent.value.args[2..] == extra
      && x.reply == env.call(x.sent.value, callback)
  {
  }
}
