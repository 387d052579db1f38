# atgateway inner-protocol client wrapper, modelled in Dafny

`atframe.gw.inner.ClientProtocol` is the C# wrapper around one context of the
native atgateway inner protocol library (`atgw_inner_v1_c`). The native side
owns the handshake, framing, encryption, write queue and ping timing, and is
reached through P/Invoke. The wrapper itself carries a small amount of logic,
and that logic is what this project models and proves:

- **Lazy creation.** The native context is created on first use. The first
  creation in the process installs the eight shared callback trampolines
  exactly once.
- **Registry.** A static registry maps a native context to its wrapper.
  Construction registers the wrapper and the finalizer removes it.
- **Trampolines.** The native side calls eight trampolines. Each looks its
  wrapper up and forwards to the host callback, or answers with
  `EN_ECT_HANDLE_NOT_FOUND` or `EN_ECT_MISS_CALLBACKS` plus default
  out-values.
- **Receive path.** `ReadFrom` hands a byte array to the native receive
  buffer manager in rounds: allocate a block for what remains, copy as much
  as fits, commit it with `ReadDone` against the block `AllocForRead`
  remembered.
- **Guards.** `ReadDone` and `PostMessage` treat empty input as a success
  that does nothing.
- **Crypt types.** `AvailableCryptTypes` packs the non-null crypt type names
  at the front of an array.

Modules:

- **`Wrappers`.** `Option`, for null references and unset host callbacks.
- **`ErrorCodes`.** The `error_code_t` and `close_reason_t` enumerators as
  integer constants.
- **`Native`.** The native library as a class `Library`. It holds the
  history `calls` of every call made to it. Its replies (`create`,
  `read_alloc`, `read`, `post_msg`) are fixed functions of that history,
  which is how the model stays agnostic about what the native code does.
  Copying managed bytes into a native block is recorded as an event too, so
  the history says which bytes each commit hands over.
- **`ReadLoop`.** `Run`, the reference definition of the `ReadFrom` loop, is
  one `Round` per iteration, computed against the library's replies. The
  lemmas about `Run` state:
  - the loop terminates;
  - each round asks for what remains and commits `min(block length,
    remaining)` bytes;
  - the committed bytes are consecutive slices whose concatenation is
    exactly `buf[0..len)` when no round fails;
  - the first failure ends the loop with its status.
- **`CryptNames`.** The compaction `AvailableCryptTypes` performs, with its
  properties.
- **`Protocol`.** Two classes, each mirroring part of the C# class:
  - `Statics` holds the C# static state: the registry `_binder_manager` and
    `_shared_callbacks`. It also holds the trampolines and
    `GetClientProtocol`, which read that state.
  - `ClientProtocol` holds the per-wrapper fields, construction, the
    finalizer, the `NativeProtocol` getter and the receive, post and
    crypt-type members. `ReadFrom` is proved to perform exactly the rounds of
    `ReadLoop.Run`.

## Model

Source paths are relative to the repository root.

| member | source | states |
|---|---|---|
| Native.Int32OfWraps | AtgwInnerCli/atframe/gw/inner/ClientProtocol.cs:812 | the `(int)read_sz` cast passed as `ssz` is the Int32 congruent to `read_sz` modulo 2^32, and `read_sz` itself below 2^31 |
| Native.Library.Create | AtgwInnerCli/atframe/gw/inner/ClientProtocol.cs:495-496 | `create` is recorded and its handle is the library's reply to the history |
| Native.Library.Destroy | AtgwInnerCli/atframe/gw/inner/ClientProtocol.cs:502-503 | `destroy(ctx)` is recorded |
| Native.Library.SetCallback | AtgwInnerCli/atframe/gw/inner/ClientProtocol.cs:283-333 | each `gset_on_*_fn` call is recorded with the trampoline it installs |
| Native.Library.ReadAlloc | AtgwInnerCli/atframe/gw/inner/ClientProtocol.cs:569-571 | `read_alloc(ctx, suggested)` is recorded; the block (address, length) is the library's reply |
| Native.Library.CopyTo | AtgwInnerCli/atframe/gw/inner/ClientProtocol.cs:839-845 | `Marshal.Copy` of bytes into a native block is recorded with the address and the bytes |
| Native.Library.Read | AtgwInnerCli/atframe/gw/inner/ClientProtocol.cs:573-574 | `read(ctx, ssz, addr, len)` is recorded; `errcode` is the library's reply |
| Native.Library.PostMsg | AtgwInnerCli/atframe/gw/inner/ClientProtocol.cs:579-580 | `post_msg(ctx, data)` is recorded; its result is the library's reply |
| ReadLoop.FirstRoundStarts | AtgwInnerCli/atframe/gw/inner/ClientProtocol.cs:826-848 | a round asks `AllocForRead` for exactly `len - offset` bytes. An empty or null block fails the round. Otherwise the round commits `min(block length, len - offset)` bytes, at least one, which are `buf[offset..]` |
| ReadLoop.RunReplies | AtgwInnerCli/atframe/gw/inner/ClientProtocol.cs:826-854 | over a whole run, round i's block is `read_alloc`'s reply to that round's request, made after exactly the native calls of rounds 0..i-1. A committing round commits into that same block, so `ReadDone` commits against the block just allocated, and its status is `read`'s reply to that commit |
| ReadLoop.RunShape | AtgwInnerCli/atframe/gw/inner/ClientProtocol.cs:822-857 | the loop runs no round (returns 0, allocates nothing) exactly when `len` is 0; at most one round per byte; every round is well formed; only the last round can fail, so nothing is allocated after a failure; the result is the last round's status (`EN_ECT_MALLOC` for a failed allocation, else the last `ReadDone` result) |
| ReadLoop.RunSlices | AtgwInnerCli/atframe/gw/inner/ClientProtocol.cs:837-847 | every round's bytes are the slice of `buf` that starts where the previous rounds' bytes end |
| ReadLoop.RunPrefix | AtgwInnerCli/atframe/gw/inner/ClientProtocol.cs:822-857 | the bytes committed by a run, concatenated, are a prefix of `buf[offset..len)` |
| ReadLoop.RunCovers | AtgwInnerCli/atframe/gw/inner/ClientProtocol.cs:826-856 | a run that returns a non-negative status commits all `len - offset` bytes |
| ReadLoop.RunPartition | AtgwInnerCli/atframe/gw/inner/ClientProtocol.cs:822-857 | the committed chunks always concatenate to a prefix of `buf[0..len)`, and to exactly `buf[0..len)` when `ReadFrom` does not fail |
| ReadLoop.ResumeStep | AtgwInnerCli/atframe/gw/inner/ClientProtocol.cs:826-854 | one iteration keeps the loop invariant: a failed round ends the run with every round done, any other round leaves the rest of the run pending from the new offset, history and status |
| CryptNames.Compact | AtgwInnerCli/atframe/gw/inner/ClientProtocol.cs:671-679 | the compacted names are no more than the table's entries and each is a non-null entry of the table |
| CryptNames.Packed | AtgwInnerCli/atframe/gw/inner/ClientProtocol.cs:666-683 | the array is as long as the table; slot k holds a name exactly when k is below the number of names kept, and that name is the k-th kept name |
| CryptNames.CompactLength | AtgwInnerCli/atframe/gw/inner/ClientProtocol.cs:671-679 | nothing is dropped: one name is kept per non-null entry |
| CryptNames.CompactKeepsOrder | AtgwInnerCli/atframe/gw/inner/ClientProtocol.cs:671-679 | a non-null entry at index i lands in the slot counting the non-null entries before i, so names keep their index order |
| CryptNames.CompactInventsNothing | AtgwInnerCli/atframe/gw/inner/ClientProtocol.cs:671-679 | every slot holds the non-null entry that is sent there |
| Protocol.Statics.constructor | AtgwInnerCli/atframe/gw/inner/ClientProtocol.cs:139-140 | the registry starts empty and no trampoline is installed |
| Protocol.Statics.GetClientProtocol | AtgwInnerCli/atframe/gw/inner/ClientProtocol.cs:339-346 | the lookup is non-null exactly when the context is registered, and then it is the registered wrapper |
| Protocol.Statics.ProtoOnWriteStart | AtgwInnerCli/atframe/gw/inner/ClientProtocol.cs:348-369 | unregistered context: `EN_ECT_HANDLE_NOT_FOUND`, `is_done` 1. No `OnWriteData`: `EN_ECT_MISS_CALLBACKS`, `is_done` 1. Otherwise the callback's status, and `is_done` is 1 exactly when the callback's flag is set, else 0 |
| Protocol.Statics.ProtoOnMessage | AtgwInnerCli/atframe/gw/inner/ClientProtocol.cs:371-387 | unregistered: `EN_ECT_HANDLE_NOT_FOUND`; no callback: 0; otherwise the callback's answer on the data |
| Protocol.Statics.ProtoOnInitNewSession | AtgwInnerCli/atframe/gw/inner/ClientProtocol.cs:389-406 | unregistered: `EN_ECT_HANDLE_NOT_FOUND` with session id 0. No callback: `EN_ECT_MISS_CALLBACKS` with session id 0. Otherwise the callback's status and session id |
| Protocol.Statics.ProtoOnInitReconnect | AtgwInnerCli/atframe/gw/inner/ClientProtocol.cs:408-422 | unregistered: `EN_ECT_HANDLE_NOT_FOUND`; no callback: `EN_ECT_MISS_CALLBACKS`; otherwise the callback's answer for the session id |
| Protocol.Statics.ProtoOnClose | AtgwInnerCli/atframe/gw/inner/ClientProtocol.cs:424-438 | unregistered: `EN_ECT_HANDLE_NOT_FOUND`; no callback: 0; otherwise the callback's answer for the reason |
| Protocol.Statics.ProtoOnHandshakeDone | AtgwInnerCli/atframe/gw/inner/ClientProtocol.cs:440-454 | unregistered: `EN_ECT_HANDLE_NOT_FOUND`; no callback: 0; otherwise the callback's answer for the status |
| Protocol.Statics.ProtoOnHandshakeUpdate | AtgwInnerCli/atframe/gw/inner/ClientProtocol.cs:456-470 | unregistered: `EN_ECT_HANDLE_NOT_FOUND`; no `OnHandshakeUpdate`: 0; otherwise that callback's answer for the status |
| Protocol.Statics.ProtoOnError | AtgwInnerCli/atframe/gw/inner/ClientProtocol.cs:472-486 | unregistered: `EN_ECT_HANDLE_NOT_FOUND`; no callback: 0; otherwise the callback's answer for file name, line, error code and message |
| Protocol.UnregisteredIsRefused | AtgwInnerCli/atframe/gw/inner/ClientProtocol.cs:339-478 | when the lookup gives null, all eight trampolines refuse with `EN_ECT_HANDLE_NOT_FOUND` and the default out-values (`is_done` 1, session id 0) |
| Protocol.RegisteredWithCallbacksPassesThrough | AtgwInnerCli/atframe/gw/inner/ClientProtocol.cs:356-485 | for a registered wrapper with every host callback set, all eight trampolines return the callback's answer unchanged |
| Protocol.ClientProtocol.constructor | AtgwInnerCli/atframe/gw/inner/ClientProtocol.cs:143-152 | the field initialisers: no native context, no last allocation, no host callback |
| Protocol.ClientProtocol.InstallSharedCallbacks | AtgwInnerCli/atframe/gw/inner/ClientProtocol.cs:161-216 | if no trampoline was installed, all eight `gset_on_*_fn` calls are made in source order; if all were, none is made; afterwards all are installed |
| Protocol.ClientProtocol.NativeProtocol | AtgwInnerCli/atframe/gw/inner/ClientProtocol.cs:154-224 | a cached context is returned with no native call. Otherwise `create` is called once, its reply becomes the context, and the trampolines are installed once per process |
| Protocol.ClientProtocol.Construct | AtgwInnerCli/atframe/gw/inner/ClientProtocol.cs:226-239 | construction fails (null) exactly when `create` gives a null context or the context is already registered, leaving the registry unchanged. Otherwise the new wrapper is registered under its context and the lookup returns that same instance. That wrapper has no last allocation and no host callback set, as the field initialisers leave it. The object is allocated in every case and is also returned as `instance`, holding the context `create` gave (NULL on the first failure, the already registered context on the second); it is the wrapper itself on success. The registry stays consistent |
| Protocol.ClientProtocol.Finalize | AtgwInnerCli/atframe/gw/inner/ClientProtocol.cs:241-251 | the native context is destroyed and its entry removed, so the lookup then returns null |
| Protocol.ClientProtocol.AllocForRead | AtgwInnerCli/atframe/gw/inner/ClientProtocol.cs:779-791 | one `read_alloc` call; the block returned is its reply; its address becomes `_last_alloc` |
| Protocol.ClientProtocol.ReadDone | AtgwInnerCli/atframe/gw/inner/ClientProtocol.cs:798-814 | `ReadDone(0)` returns 0 and calls nothing. Any other size is one `read` against `_last_alloc`, with `ssz` the Int32 cast of the size, and returns `read`'s status |
| Protocol.ClientProtocol.ReadRound | AtgwInnerCli/atframe/gw/inner/ClientProtocol.cs:828-853 | one iteration of the loop performs exactly the native calls of `ReadLoop.FirstRound`, returns its status and the new offset, and leaves `_last_alloc` at its block |
| Protocol.ClientProtocol.ReadFrom | AtgwInnerCli/atframe/gw/inner/ClientProtocol.cs:822-857 | `ReadFrom` performs exactly the rounds of `ReadLoop.Run` against the library's replies, makes exactly their native calls, returns `Run`'s result, and leaves `_last_alloc` at the last round's block |
| Protocol.ClientProtocol.ReadRounds | AtgwInnerCli/atframe/gw/inner/ClientProtocol.cs:824-856 | the loop, with its invariant: all the rounds of the run are done, with their native calls, and the loop returns the run's status |
| Protocol.ClientProtocol.PostMessage | AtgwInnerCli/atframe/gw/inner/ClientProtocol.cs:875-889 | a null or empty message returns 0 and calls nothing; otherwise one `post_msg` of the message, whose reply is returned |
| Protocol.ClientProtocol.AvailableCryptTypes | AtgwInnerCli/atframe/gw/inner/ClientProtocol.cs:662-684 | the array is `CryptNames.Packed` of the native name table: as long as the table, with the non-null names first in index order, and nulls after |

## Left out

- Everything behind the `DllImport` declarations other than the calls above is not modelled. That covers the sessions, `write_done`, ping, `close`, the `is_*` flags, the secret, key-bits and crypt getters, `Information`, the buffer limits and `GlobalInitialize`. Their logic lives in the native library, which is not part of this model.
- The native library's replies are arbitrary fixed functions of the call history; nothing about native behaviour is assumed.
- `Marshal.GetFunctionPointerForDelegate` and `Marshal.PtrToStringAnsi` are raw interop; the trampolines receive the strings and byte sequences directly.
- The `lock (_binder_manager)` blocks and the timing of garbage collection and finalization are concurrency and runtime behaviour; the registry is a plain map updated in sequence.
- AtgwInnerCliHelloTest/Program.cs is a socket-driven demo with console output and is not part of this model.
- Host callbacks are modelled as pure functions. Their first argument is the wrapper's native context rather than the wrapper object. A callback that re-enters the wrapper or mutates state is not modelled.
- `OnWriteData`'s `ref bool is_done` is modelled as part of the callback's answer; its initial value `false` is not modelled.
- Protocol.Statics.ProtoOnWriteStart: buffers of 2^31 bytes or more are not modelled; for them the allocation `new byte[buffer_length]` throws before `Marshal.Copy` is reached. The same holds for `ProtoOnMessage`.
- Protocol.Statics.ProtoOnError: a null `file_name` or `message` pointer, which `PtrToStringAnsi` turns into a null string, is not modelled; the strings are always present.
- Protocol.ClientProtocol.ReadFrom: requires `len <= buf.Length` and does not model the exception `Marshal.Copy` throws otherwise, or when `offset` or a length no longer fits the `(int)` casts (2^31 or more), after the round's allocation. A null `buf` is not modelled either: the source then returns 0 when `len` is 0. Otherwise it makes the first `read_alloc` call and returns `EN_ECT_MALLOC` if that block is empty or null; if not, `Marshal.Copy` throws.
- Protocol.ClientProtocol.AllocForRead, Protocol.ClientProtocol.ReadDone and Protocol.ClientProtocol.PostMessage require a constructed wrapper (a non-null native context). Such a wrapper never reaches the source's null-context branches, which return `EN_ECT_HANDLE_NOT_FOUND` or a null block, because its getter returns the cached context. A wrapper whose construction threw reaches only its finalizer, which calls none of them.
- Protocol.ClientProtocol.NativeProtocol and Protocol.ClientProtocol.Construct require that the shared trampolines are all installed or none. Every reachable state has this property, since only the installation block sets them, all eight in one go.
- Protocol.ClientProtocol.Finalize: the source's guard compares an `IntPtr` with `null` and is always true, so the model destroys unconditionally. The runtime also finalizes a wrapper whose construction threw (the `instance` that `Construct` returns beside null). Finalize's contract then applies to it. When `create` gave NULL, this means `destroy(NULL)` and removing the absent key NULL. When the context was already registered, it destroys that context, which the registered wrapper still uses, and removes that wrapper's entry, so every trampoline answers `EN_ECT_HANDLE_NOT_FOUND` for that context until a later construction registers it again. Only when the finalizer runs, which the garbage collector decides, is left out; `Construct`'s unchanged registry holds until then. The static registry holds every registered wrapper by a strong reference, so the runtime never finalizes a registered wrapper before shutdown, and its native context is never destroyed. Only wrappers whose construction threw are finalized earlier. The model lets `Finalize` run on any wrapper, which allows more behaviour than the source can show.
- Protocol.ClientProtocol.AvailableCryptTypes reads the table of crypt names as a fixed part of the library (`get_crypt_size` and `get_crypt_name`) rather than as recorded calls.
- The close-reason constants are declared but no modelled member uses them, because `Close` is native.
