/**
 * The C# wrapper class atframe.gw.inner.ClientProtocol around one native
 * atgateway inner-protocol context: lazy creation of the native context and
 * the one-time installation of the shared callback trampolines, the
 * handle-to-wrapper registry the trampolines dispatch through, the
 * allocate/copy/commit receive path, the empty-message guard of
 * PostMessage, and the crypt type list.
 */
module Protocol {
  import opened Wrappers
  import opened Native
  import opened ErrorCodes
  import opened ReadLoop
  import opened CryptNames

  /** What a host write callback answers: its status and whether the write already finished. */
  datatype WriteReply = WriteReply(status: int, isDone: bool)

  /** What a new-session callback answers: its status and the session id it chose. */
  datatype SessionReply = SessionReply(status: int, sessionId: u64)

  /** What the write-start trampoline hands back to the native side: status and the int flag is_done. */
  datatype WriteStartResult = WriteStartResult(status: int, isDone: int)

  // The host callback types. The first argument stands for the wrapper the
  // callback is called on, named by its native context.
  type OnWriteDataFunction = (Handle, seq<byte>) -> WriteReply
  type OnReceiveMessageFunction = (Handle, seq<byte>) -> int
  type OnInitNewSessionFunction = Handle -> SessionReply
  type OnInitReconnectSessionFunction = (Handle, u64) -> int
  type OnCloseFunction = (Handle, int) -> int
  type OnHandshakeDoneFunction = (Handle, int) -> int
  type OnErrorFunction = (Handle, string, int, int, string) -> int

  /** Which shared trampolines have been installed (the delegates of _shared_callbacks that are non-null). */
  datatype ProtoCallbacks = ProtoCallbacks(
    onWriteStart: bool, onMessage: bool, onInitNewSession: bool, onInitReconnect: bool,
    onClose: bool, onHandshakeDone: bool, onHandshakeUpdate: bool, onError: bool)

  const NoneInstalled := ProtoCallbacks(false, false, false, false, false, false, false, false)
  const AllInstalled := ProtoCallbacks(true, true, true, true, true, true, true, true)

  /** The gset_on_*_fn calls of a first creation, in the order the NativeProtocol getter makes them. */
  const InstallAll: seq<NativeCall> :=
    [CallbackSet(WriteStart), CallbackSet(Message), CallbackSet(InitNewSession), CallbackSet(InitReconnect),
     CallbackSet(Close), CallbackSet(HandshakeDone), CallbackSet(HandshakeUpdate), CallbackSet(Error)]

  /**
   * The static state of ClientProtocol: the registry _binder_manager from
   * native context to wrapper, the record _shared_callbacks of which
   * trampolines have been installed, and the static members that read them.
   */
  class Statics {
    var binderManager: map<Handle, ClientProtocol>
    var sharedCallbacks: ProtoCallbacks

    constructor ()
      ensures binderManager == map[] && sharedCallbacks == NoneInstalled
    {
      binderManager := map[];
      sharedCallbacks := NoneInstalled;
    }

    /**
     * The shared trampolines are installed all together, by the first
     * creation of a native context, or not at all.
     */
    predicate InstalledAllOrNone()
      reads this
    {
      sharedCallbacks == NoneInstalled || sharedCallbacks == AllInstalled
    }

    /** Every registered wrapper sits under its own non-null native context and shares these statics. */
    ghost predicate Consistent()
      reads this, binderManager.Values
    {
      forall h | h in binderManager :: h != NULL && binderManager[h].nativeProtocol == h && binderManager[h].statics == this
    }

    /** The wrapper registered for a native context, or null. */
    function GetClientProtocol(key: Handle): (r: ClientProtocol?)
      reads this
      ensures r != null <==> key in binderManager
      ensures r != null ==> r == binderManager[key]
    {
      if key in binderManager then binderManager[key] else null
    }

    function ProtoOnWriteStart(context: Handle, data: seq<byte>): (r: WriteStartResult)
      reads this, binderManager.Values
      ensures context !in binderManager ==> r == WriteStartResult(EN_ECT_HANDLE_NOT_FOUND, 1)
      ensures context in binderManager && binderManager[context].onWriteData.None? ==>
                r == WriteStartResult(EN_ECT_MISS_CALLBACKS, 1)
      ensures context in binderManager && binderManager[context].onWriteData.Some? ==>
                var reply := binderManager[context].onWriteData.value(binderManager[context].nativeProtocol, data);
                r.status == reply.status && (r.isDone == 1 <==> reply.isDone) && (r.isDone == 0 <==> !reply.isDone)
    {
      var self := GetClientProtocol(context);
      if self == null then WriteStartResult(EN_ECT_HANDLE_NOT_FOUND, 1)
      else match self.onWriteData
        case Some(f) =>
          var reply := f(self.nativeProtocol, data);
          WriteStartResult(reply.status, if reply.isDone then 1 else 0)
        case None => WriteStartResult(EN_ECT_MISS_CALLBACKS, 1)
    }

    function ProtoOnMessage(context: Handle, data: seq<byte>): (r: int)
      reads this, binderManager.Values
      ensures context !in binderManager ==> r == EN_ECT_HANDLE_NOT_FOUND
      ensures context in binderManager && binderManager[context].onReceiveMessage.None? ==> r == 0
      ensures context in binderManager && binderManager[context].onReceiveMessage.Some? ==>
                r == binderManager[context].onReceiveMessage.value(binderManager[context].nativeProtocol, data)
    {
      var self := GetClientProtocol(context);
      if self == null then EN_ECT_HANDLE_NOT_FOUND
      else match self.onReceiveMessage
        case Some(f) => f(self.nativeProtocol, data)
        case None => 0
    }

    function ProtoOnInitNewSession(context: Handle): (r: SessionReply)
      reads this, binderManager.Values
      ensures context !in binderManager ==> r == SessionReply(EN_ECT_HANDLE_NOT_FOUND, 0)
      ensures context in binderManager && binderManager[context].onInitNewSession.None? ==>
                r == SessionReply(EN_ECT_MISS_CALLBACKS, 0)
      ensures context in binderManager && binderManager[context].onInitNewSession.Some? ==>
                r == binderManager[context].onInitNewSession.value(binderManager[context].nativeProtocol)
    {
      var self := GetClientProtocol(context);
      if self == null then SessionReply(EN_ECT_HANDLE_NOT_FOUND, 0)
      else match self.onInitNewSession
        case Some(f) => f(self.nativeProtocol)
        case None => SessionReply(EN_ECT_MISS_CALLBACKS, 0)
    }

    function ProtoOnInitReconnect(context: Handle, sessionId: u64): (r: int)
      reads this, binderManager.Values
      ensures context !in binderManager ==> r == EN_ECT_HANDLE_NOT_FOUND
      ensures context in binderManager && binderManager[context].onInitReconnectSession.None? ==>
                r == EN_ECT_MISS_CALLBACKS
      ensures context in binderManager && binderManager[context].onInitReconnectSession.Some? ==>
                r == binderManager[context].onInitReconnectSession.value(binderManager[context].nativeProtocol, sessionId)
    {
      var self := GetClientProtocol(context);
      if self == null then EN_ECT_HANDLE_NOT_FOUND
      else match self.onInitReconnectSession
        case Some(f) => f(self.nativeProtocol, sessionId)
        case None => EN_ECT_MISS_CALLBACKS
    }

    function ProtoOnClose(context: Handle, reason: int): (r: int)
      reads this, binderManager.Values
      ensures context !in binderManager ==> r == EN_ECT_HANDLE_NOT_FOUND
      ensures context in binderManager && binderManager[context].onClose.None? ==> r == 0
      ensures context in binderManager && binderManager[context].onClose.Some? ==>
                r == binderManager[context].onClose.value(binderManager[context].nativeProtocol, reason)
    {
      var self := GetClientProtocol(context);
      if self == null then EN_ECT_HANDLE_NOT_FOUND
      else match self.onClose
        case Some(f) => f(self.nativeProtocol, reason)
        case None => 0
    }

    function ProtoOnHandshakeDone(context: Handle, status: int): (r: int)
      reads this, binderManager.Values
      ensures context !in binderManager ==> r == EN_ECT_HANDLE_NOT_FOUND
      ensures context in binderManager && binderManager[context].onHandshakeDone.None? ==> r == 0
      ensures context in binderManager && binderManager[context].onHandshakeDone.Some? ==>
                r == binderManager[context].onHandshakeDone.value(binderManager[context].nativeProtocol, status)
    {
      var self := GetClientProtocol(context);
      if self == null then EN_ECT_HANDLE_NOT_FOUND
      else match self.onHandshakeDone
        case Some(f) => f(self.nativeProtocol, status)
        case None => 0
    }

    function ProtoOnHandshakeUpdate(context: Handle, status: int): (r: int)
      reads this, binderManager.Values
      ensures context !in binderManager ==> r == EN_ECT_HANDLE_NOT_FOUND
      ensures context in binderManager && binderManager[context].onHandshakeUpdate.None? ==> r == 0
      ensures context in binderManager && binderManager[context].onHandshakeUpdate.Some? ==>
                r == binderManager[context].onHandshakeUpdate.value(binderManager[context].nativeProtocol, status)
    {
      var self := GetClientProtocol(context);
      if self == null then EN_ECT_HANDLE_NOT_FOUND
      else match self.onHandshakeUpdate
        case Some(f) => f(self.nativeProtocol, status)
        case None => 0
    }

    /** The file and message strings are the ones the native side points at. */
    function ProtoOnError(context: Handle, fileName: string, line: int, errorCode: int, message: string): (r: int)
      reads this, binderManager.Values
      ensures context !in binderManager ==> r == EN_ECT_HANDLE_NOT_FOUND
      ensures context in binderManager && binderManager[context].onError.None? ==> r == 0
      ensures context in binderManager && binderManager[context].onError.Some? ==>
                r == binderManager[context].onError.value(binderManager[context].nativeProtocol, fileName, line, errorCode, message)
    {
      var self := GetClientProtocol(context);
      if self == null then EN_ECT_HANDLE_NOT_FOUND
      else match self.onError
        case Some(f) => f(self.nativeProtocol, fileName, line, errorCode, message)
        case None => 0
    }
  }

  /** A native context no wrapper is registered for is refused by every trampoline, with the default out-values. */
  lemma UnregisteredIsRefused(statics: Statics, context: Handle, data: seq<byte>, sessionId: u64, n: int,
                              fileName: string, line: int, errorCode: int, message: string)
    requires statics.GetClientProtocol(context) == null
    ensures statics.ProtoOnWriteStart(context, data) == WriteStartResult(EN_ECT_HANDLE_NOT_FOUND, 1)
    ensures statics.ProtoOnMessage(context, data) == EN_ECT_HANDLE_NOT_FOUND
    ensures statics.ProtoOnInitNewSession(context) == SessionReply(EN_ECT_HANDLE_NOT_FOUND, 0)
    ensures statics.ProtoOnInitReconnect(context, sessionId) == EN_ECT_HANDLE_NOT_FOUND
    ensures statics.ProtoOnClose(context, n) == EN_ECT_HANDLE_NOT_FOUND
    ensures statics.ProtoOnHandshakeDone(context, n) == EN_ECT_HANDLE_NOT_FOUND
    ensures statics.ProtoOnHandshakeUpdate(context, n) == EN_ECT_HANDLE_NOT_FOUND
    ensures statics.ProtoOnError(context, fileName, line, errorCode, message) == EN_ECT_HANDLE_NOT_FOUND
  {
  }

  /**
   * A registered wrapper with every host callback set gets each callback's
   * answer back unchanged: the trampolines add no status of their own.
   */
  lemma RegisteredWithCallbacksPassesThrough(statics: Statics, p: ClientProtocol, data: seq<byte>, sessionId: u64, n: int,
                                             fileName: string, line: int, errorCode: int, message: string)
    requires statics.GetClientProtocol(p.nativeProtocol) == p
    requires p.onWriteData.Some? && p.onReceiveMessage.Some? && p.onInitNewSession.Some? && p.onInitReconnectSession.Some?
    requires p.onClose.Some? && p.onHandshakeDone.Some? && p.onHandshakeUpdate.Some? && p.onError.Some?
    ensures var reply := p.onWriteData.value(p.nativeProtocol, data);
            statics.ProtoOnWriteStart(p.nativeProtocol, data) == WriteStartResult(reply.status, if reply.isDone then 1 else 0)
    ensures statics.ProtoOnMessage(p.nativeProtocol, data) == p.onReceiveMessage.value(p.nativeProtocol, data)
    ensures statics.ProtoOnInitNewSession(p.nativeProtocol) == p.onInitNewSession.value(p.nativeProtocol)
    ensures statics.ProtoOnInitReconnect(p.nativeProtocol, sessionId) == p.onInitReconnectSession.value(p.nativeProtocol, sessionId)
    ensures statics.ProtoOnClose(p.nativeProtocol, n) == p.onClose.value(p.nativeProtocol, n)
    ensures statics.ProtoOnHandshakeDone(p.nativeProtocol, n) == p.onHandshakeDone.value(p.nativeProtocol, n)
    ensures statics.ProtoOnHandshakeUpdate(p.nativeProtocol, n) == p.onHandshakeUpdate.value(p.nativeProtocol, n)
    ensures statics.ProtoOnError(p.nativeProtocol, fileName, line, errorCode, message)
            == p.onError.value(p.nativeProtocol, fileName, line, errorCode, message)
  {
  }

  /** The wrapper around one native protocol context. */
  class ClientProtocol {
    const lib: Library
    const statics: Statics
    var nativeProtocol: Handle
    var lastAlloc: Addr
    var onWriteData: Option<OnWriteDataFunction>
    var onReceiveMessage: Option<OnReceiveMessageFunction>
    var onInitNewSession: Option<OnInitNewSessionFunction>
    var onInitReconnectSession: Option<OnInitReconnectSessionFunction>
    var onClose: Option<OnCloseFunction>
    var onHandshakeDone: Option<OnHandshakeDoneFunction>
    var onHandshakeUpdate: Option<OnHandshakeDoneFunction>
    var onError: Option<OnErrorFunction>

    /** The field initialisers, run before the body of the C# constructor (see Construct). */
    constructor (lib: Library, statics: Statics)
      ensures this.lib == lib && this.statics == statics
      ensures nativeProtocol == NULL && lastAlloc == NULL
      ensures onWriteData.None? && onReceiveMessage.None? && onInitNewSession.None? && onInitReconnectSession.None?
      ensures onClose.None? && onHandshakeDone.None? && onHandshakeUpdate.None? && onError.None?
    {
      this.lib := lib;
      this.statics := statics;
      nativeProtocol := NULL;
      lastAlloc := NULL;
      onWriteData := None;
      onReceiveMessage := None;
      onInitNewSession := None;
      onInitReconnectSession := None;
      onClose := None;
      onHandshakeDone := None;
      onHandshakeUpdate := None;
      onError := None;
    }

    /** A wrapper whose construction succeeded holds a non-null native context. */
    predicate Constructed()
      reads this
    {
      nativeProtocol != NULL
    }

    /** The installation block of the NativeProtocol getter: each trampoline not installed yet is installed. */
    method InstallSharedCallbacks()
      requires statics.InstalledAllOrNone()
      modifies lib`calls, statics`sharedCallbacks
      ensures lib.calls == old(lib.calls) + (if old(statics.sharedCallbacks) == NoneInstalled then InstallAll else [])
      ensures statics.sharedCallbacks == AllInstalled
    {
      ghost var before := lib.calls;
      ghost var installed: seq<NativeCall> := [];
      if !statics.sharedCallbacks.onWriteStart {
        statics.sharedCallbacks := statics.sharedCallbacks.(onWriteStart := true);
        lib.SetCallback(WriteStart);
        installed := installed + [CallbackSet(WriteStart)];
      }
      assert lib.calls == before + installed;
      if !statics.sharedCallbacks.onMessage {
        statics.sharedCallbacks := statics.sharedCallbacks.(onMessage := true);
        lib.SetCallback(Message);
        installed := installed + [CallbackSet(Message)];
      }
      assert lib.calls == before + installed;
      if !statics.sharedCallbacks.onInitNewSession {
        statics.sharedCallbacks := statics.sharedCallbacks.(onInitNewSession := true);
        lib.SetCallback(InitNewSession);
        installed := installed + [CallbackSet(InitNewSession)];
      }
      assert lib.calls == before + installed;
      if !statics.sharedCallbacks.onInitReconnect {
        statics.sharedCallbacks := statics.sharedCallbacks.(onInitReconnect := true);
        lib.SetCallback(InitReconnect);
        installed := installed + [CallbackSet(InitReconnect)];
      }
      assert lib.calls == before + installed;
      if !statics.sharedCallbacks.onClose {
        statics.sharedCallbacks := statics.sharedCallbacks.(onClose := true);
        lib.SetCallback(Close);
        installed := installed + [CallbackSet(Close)];
      }
      assert lib.calls == before + installed;
      if !statics.sharedCallbacks.onHandshakeDone {
        statics.sharedCallbacks := statics.sharedCallbacks.(onHandshakeDone := true);
        lib.SetCallback(HandshakeDone);
        installed := installed + [CallbackSet(HandshakeDone)];
      }
      assert lib.calls == before + installed;
      if !statics.sharedCallbacks.onHandshakeUpdate {
        statics.sharedCallbacks := statics.sharedCallbacks.(onHandshakeUpdate := true);
        lib.SetCallback(HandshakeUpdate);
        installed := installed + [CallbackSet(HandshakeUpdate)];
      }
      assert lib.calls == before + installed;
      if !statics.sharedCallbacks.onError {
        statics.sharedCallbacks := statics.sharedCallbacks.(onError := true);
        lib.SetCallback(Error);
        installed := installed + [CallbackSet(Error)];
      }
      assert lib.calls == before + installed;
    }

    /**
     * The NativeProtocol getter: the cached context if there is one; otherwise
     * create one, then install each shared trampoline not yet installed.
     * Creation is retried on the next call when it gave NULL.
     */
    method NativeProtocol() returns (h: Handle)
      requires statics.InstalledAllOrNone()
      modifies this`nativeProtocol, lib`calls, statics`sharedCallbacks
      ensures h == nativeProtocol && statics.InstalledAllOrNone()
      ensures old(nativeProtocol) != NULL ==>
                nativeProtocol == old(nativeProtocol) && lib.calls == old(lib.calls)
                && statics.sharedCallbacks == old(statics.sharedCallbacks)
      ensures old(nativeProtocol) == NULL ==>
                && nativeProtocol == lib.createReply(old(lib.calls) + [Created])
                && lib.calls == old(lib.calls) + [Created] + (if old(statics.sharedCallbacks) == NoneInstalled then InstallAll else [])
                && statics.sharedCallbacks == AllInstalled
    {
      if nativeProtocol == NULL {
        nativeProtocol := lib.Create();
        InstallSharedCallbacks();
        return nativeProtocol;
      }
      return nativeProtocol;
    }

    /**
     * Construction: run the field initialisers, obtain the native context
     * and register the wrapper under it. Null stands for the two ways the C#
     * constructor throws: create gave NULL (OutOfMemoryException, nothing
     * registered) or the context is already registered (Dictionary.Add throws).
     * The object is allocated either way and comes back as instance: the
     * runtime finalizes it, with Finalize, even when construction threw.
     */
    static method Construct(lib: Library, statics: Statics) returns (p: ClientProtocol?, instance: ClientProtocol)
      requires statics.Consistent() && statics.InstalledAllOrNone()
      modifies lib`calls, statics
      ensures statics.Consistent()
      ensures lib.calls == old(lib.calls) + [Created] + (if old(statics.sharedCallbacks) == NoneInstalled then InstallAll else [])
      ensures statics.sharedCallbacks == AllInstalled
      ensures var h := lib.createReply(old(lib.calls) + [Created]);
              && (p == null <==> h == NULL || h in old(statics.binderManager))
              && fresh(instance) && instance.lib == lib && instance.statics == statics
              && instance.nativeProtocol == h
              && (p == null ==> statics.binderManager == old(statics.binderManager))
              && (p != null ==> p == instance)
              && (p != null ==>
                    && fresh(p) && p.lib == lib && p.statics == statics && p.nativeProtocol == h
                    && p.lastAlloc == NULL
                    && p.onWriteData.None? && p.onReceiveMessage.None? && p.onInitNewSession.None?
                    && p.onInitReconnectSession.None? && p.onClose.None? && p.onHandshakeDone.None?
                    && p.onHandshakeUpdate.None? && p.onError.None?
                    && statics.binderManager == old(statics.binderManager)[h := p]
                    && statics.GetClientProtocol(h) == p)
    {
      instance := new ClientProtocol(lib, statics);
      var native := instance.NativeProtocol();
      if native == NULL {
        return null, instance;
      }
      var key := instance.NativeProtocol();
      if key in statics.binderManager {
        return null, instance;
      }
      statics.binderManager := statics.binderManager[key := instance];
      p := instance;
    }

    /**
     * The finalizer: destroy the native context and drop its registry entry.
     * Its guard compares the IntPtr with null and so always holds.
     */
    method Finalize()
      modifies lib`calls, statics`binderManager
      ensures lib.calls == old(lib.calls) + [Destroyed(nativeProtocol)]
      ensures statics.binderManager == old(statics.binderManager) - {nativeProtocol}
      ensures statics.GetClientProtocol(nativeProtocol) == null
    {
      lib.Destroy(nativeProtocol);
      statics.binderManager := statics.binderManager - {nativeProtocol};
    }

    /** read_alloc on the native context; the block's address is remembered for ReadDone. */
    method AllocForRead(suggestSize: u64) returns (addr: Addr, len: u64)
      requires Constructed()
      modifies this`lastAlloc, lib`calls
      ensures lib.calls == old(lib.calls) + [ReadAllocated(nativeProtocol, suggestSize)]
      ensures Block(addr, len) == lib.readAllocReply(lib.calls)
      ensures lastAlloc == addr
    {
      var b := lib.ReadAlloc(nativeProtocol, suggestSize);
      lastAlloc := b.addr;
      return b.addr, b.len;
    }

    /** Commit readSize bytes of the last allocated block; nothing to commit is a success. */
    method ReadDone(readSize: u64) returns (ret: int)
      requires Constructed()
      modifies lib`calls
      ensures readSize == 0 ==> ret == 0 && lib.calls == old(lib.calls)
      ensures readSize != 0 ==>
                && lib.calls == old(lib.calls) + [ReadCommitted(nativeProtocol, Int32Of(readSize), lastAlloc, readSize)]
                && ret == lib.readReply(lib.calls)
    {
      if readSize == 0 {
        return 0;
      }
      ret := lib.Read(nativeProtocol, Int32Of(readSize), lastAlloc, readSize);
    }

    /**
     * One iteration of the ReadFrom loop at offset: allocate a block for what
     * remains, stop with EN_ECT_MALLOC on an empty or null block, else copy
     * as much as fits into it and commit that. It runs ReadLoop.FirstRound.
     */
    method ReadRound(buf: seq<byte>, offset: u64, len: u64) returns (ret: int, next: u64, ghost r: Round)
      requires Constructed() && offset < len <= |buf|
      modifies this`lastAlloc, lib`calls
      ensures r == FirstRound(lib.readAllocReply, lib.readReply, nativeProtocol, old(lib.calls), buf, offset, len)
      ensures lib.calls == old(lib.calls) + RoundCalls(nativeProtocol, r)
      ensures ret == Status(r) && next == offset + |DataOf(r)| <= len
      ensures lastAlloc == r.block.addr
    {
      ghost var hist := lib.calls;
      r := FirstRound(lib.readAllocReply, lib.readReply, nativeProtocol, hist, buf, offset, len);
      FirstRoundStarts(lib.readAllocReply, lib.readReply, nativeProtocol, hist, buf, offset, len);
      FirstRoundReplies(lib.readAllocReply, lib.readReply, nativeProtocol, hist, buf, offset, len);
      var allocBuf, allocLen := AllocForRead(len - offset);
      if 0 == allocLen || NULL == allocBuf {
        return EN_ECT_MALLOC, offset, r;
      }
      if allocLen >= len - offset {
        lib.CopyTo(allocBuf, buf[offset..len]);
        ret := ReadDone(len - offset);
        next := len;
      } else {
        lib.CopyTo(allocBuf, buf[offset..offset + allocLen]);
        ret := ReadDone(allocLen);
        next := offset + allocLen;
      }
      assert lib.calls == hist + RoundCalls(nativeProtocol, r);
    }

    /**
     * Hand buf[0..len) to the receive buffer manager in allocate/copy/commit
     * rounds. It runs exactly the rounds of ReadLoop.Run against the native
     * library's replies, and returns what Run returns.
     */
    method ReadFrom(buf: seq<byte>, len: u64) returns (ret: int, ghost o: Outcome)
      requires Constructed() && len <= |buf|
      modifies this`lastAlloc, lib`calls
      ensures o == Run(lib.readAllocReply, lib.readReply, nativeProtocol, old(lib.calls), buf, 0, len, 0)
      ensures lib.calls == old(lib.calls) + Calls(nativeProtocol, o.rounds)
      ensures ret == o.ret
      ensures o.rounds == [] ==> lastAlloc == old(lastAlloc)
      ensures o.rounds != [] ==> lastAlloc == o.rounds[|o.rounds| - 1].block.addr
    {
      o := Run(lib.readAllocReply, lib.readReply, nativeProtocol, lib.calls, buf, 0, len, 0);
      ResumeStart(lib.readAllocReply, lib.readReply, nativeProtocol, lib.calls, buf, len);
      ret := ReadRounds(buf, len, o);
    }

    /** The loop of ReadFrom, run until the rounds of full are done. */
    method ReadRounds(buf: seq<byte>, len: u64, ghost full: Outcome) returns (ret: int)
      requires Constructed() && len <= |buf|
      requires Resumes(lib.readAllocReply, lib.readReply, nativeProtocol, lib.calls, lib.calls, buf, 0, len, 0, full, [])
      modifies this`lastAlloc, lib`calls
      ensures lib.calls == old(lib.calls) + Calls(nativeProtocol, full.rounds)
      ensures ret == full.ret
      ensures full.rounds == [] ==> lastAlloc == old(lastAlloc)
      ensures full.rounds != [] ==> lastAlloc == full.rounds[|full.rounds| - 1].block.addr
    {
      ghost var done: seq<Round> := [];
      ret := 0;
      var offset: u64 := 0;
      while offset < len
        invariant offset <= len
        invariant Resumes(lib.readAllocReply, lib.readReply, nativeProtocol, old(lib.calls), lib.calls, buf, offset, len, ret, full, done)
        invariant done == [] ==> lastAlloc == old(lastAlloc)
        invariant done != [] ==> lastAlloc == done[|done| - 1].block.addr
        decreases len - offset
      {
        ghost var hist, before, last := lib.calls, offset, ret;
        ghost var r;
        ret, offset, r := ReadRound(buf, offset, len);
        ResumeStep(lib.readAllocReply, lib.readReply, nativeProtocol, old(lib.calls), hist, buf, before, len, last, full, done, r,
                   lib.calls, offset, ret);
        done := done + [r];
        if ret < 0 {
          return;
        }
      }
      ResumeEnd(lib.readAllocReply, lib.readReply, nativeProtocol, old(lib.calls), lib.calls, buf, offset, len, ret, full, done);
    }

    /** post_msg on the native context; a null or empty message is a success that posts nothing. */
    method PostMessage(buf: Option<seq<byte>>) returns (ret: int)
      requires Constructed()
      modifies lib`calls
      ensures buf.None? || |buf.value| == 0 ==> ret == 0 && lib.calls == old(lib.calls)
      ensures buf.Some? && |buf.value| != 0 ==>
                lib.calls == old(lib.calls) + [MessagePosted(nativeProtocol, buf.value)] && ret == lib.postMsgReply(lib.calls)
    {
      if buf.None? || 0 == |buf.value| {
        return 0;
      }
      ret := lib.PostMsg(nativeProtocol, buf.value);
    }

    /**
     * The AvailableCryptTypes getter: an array as long as the native table,
     * the non-null names packed at its front in index order, nulls after.
     */
    static method AvailableCryptTypes(lib: Library) returns (ret: array<Option<string>>)
      ensures ret[..] == Packed(lib.cryptNames)
    {
      var names := lib.cryptNames;
      var sz := |names|;
      ret := new Option<string>[sz](_ => None);
      var realSz := 0;
      for idx := 0 to sz
        invariant realSz == |Compact(names[..idx])| <= idx
        invariant forall k :: 0 <= k < realSz ==> ret[k] == Some(Compact(names[..idx])[k])
        invariant forall k :: realSz <= k < sz ==> ret[k].None?
      {
        assert names[..idx + 1][..idx] == names[..idx];
        var val := names[idx];
        if val.None? {
          continue;
        }
        ret[realSz] := val;
        realSz := realSz + 1;
      }
      assert names[..sz] == names;
    }
  }
}
