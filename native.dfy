/**
 * The boundary to the native library atgw_inner_v1_c. Its source is not part
 * of this model: every native entry point the wrapper uses is an oracle. The
 * library is described by the calls it has received so far (including the
 * bytes the wrapper copies into blocks it handed out), and each reply is an
 * arbitrary, fixed function of that history. Nothing more is assumed about it.
 */
module Native {
  import opened Wrappers

  newtype byte = b: int | 0 <= b < 0x100

  /** C# ulong. */
  type u64 = x: int | 0 <= x < 0x1_0000_0000_0000_0000

  /** An IntPtr naming a native protocol context; NULL is IntPtr.Zero. */
  type Handle = nat

  /** An IntPtr naming native memory; NULL is IntPtr.Zero. */
  type Addr = nat

  const NULL: nat := 0

  /** A receive block handed out by read_alloc: its address and capacity. */
  datatype Block = Block(addr: Addr, len: u64)

  /** The eight global callbacks the wrapper installs into the native library. */
  datatype CallbackKind =
    | WriteStart | Message | InitNewSession | InitReconnect
    | Close | HandshakeDone | HandshakeUpdate | Error

  /** What the native side has observed, one entry per call or memory write. */
  datatype NativeCall =
    | Created                                               // libatgw_inner_v1_c_create()
    | Destroyed(ctx: Handle)                                // libatgw_inner_v1_c_destroy(ctx)
    | CallbackSet(kind: CallbackKind)                       // libatgw_inner_v1_c_gset_on_*_fn(fn)
    | ReadAllocated(ctx: Handle, suggested: nat)            // libatgw_inner_v1_c_read_alloc(ctx, suggested, ...)
    | Copied(addr: Addr, data: seq<byte>)                   // Marshal.Copy of data into a native block
    | ReadCommitted(ctx: Handle, ssz: int, addr: Addr, len: nat) // libatgw_inner_v1_c_read(ctx, ssz, addr, len, ...)
    | MessagePosted(ctx: Handle, data: seq<byte>)           // libatgw_inner_v1_c_post_msg(ctx, data, |data|)

  /**
   * C#'s unchecked cast `(int)x` of a non-negative integral value: the low
   * 32 bits read as a two's-complement Int32.
   */
  function Int32Of(x: nat): int
  {
    var low := x % 0x1_0000_0000;
    if low < 0x8000_0000 then low else low - 0x1_0000_0000
  }

  /** Int32Of is the int32 congruent to x modulo 2^32, and x itself when x fits. */
  lemma Int32OfWraps(x: nat)
    ensures -0x8000_0000 <= Int32Of(x) < 0x8000_0000
    ensures (x - Int32Of(x)) % 0x1_0000_0000 == 0
    ensures x < 0x8000_0000 ==> Int32Of(x) == x
  {
  }

  /** The loaded native library, seen only through its replies. */
  class Library {
    const createReply: seq<NativeCall> -> Handle
    const readAllocReply: seq<NativeCall> -> Block
    const readReply: seq<NativeCall> -> int
    const postMsgReply: seq<NativeCall> -> int
    /** get_crypt_name(idx) for idx < get_crypt_size(); None is a null pointer. */
    const cryptNames: seq<Option<string>>

    var calls: seq<NativeCall>

    constructor (createReply: seq<NativeCall> -> Handle, readAllocReply: seq<NativeCall> -> Block,
                 readReply: seq<NativeCall> -> int, postMsgReply: seq<NativeCall> -> int,
                 cryptNames: seq<Option<string>>)
      ensures this.createReply == createReply && this.readAllocReply == readAllocReply
      ensures this.readReply == readReply && this.postMsgReply == postMsgReply
      ensures this.cryptNames == cryptNames && calls == []
    {
      this.createReply := createReply;
      this.readAllocReply := readAllocReply;
      this.readReply := readReply;
      this.postMsgReply := postMsgReply;
      this.cryptNames := cryptNames;
      calls := [];
    }

    method Create() returns (h: Handle)
      modifies this`calls
      ensures calls == old(calls) + [Created] && h == createReply(calls)
    {
      calls := calls + [Created];
      h := createReply(calls);
    }

    method Destroy(ctx: Handle)
      modifies this`calls
      ensures calls == old(calls) + [Destroyed(ctx)]
    {
      calls := calls + [Destroyed(ctx)];
    }

    method SetCallback(kind: CallbackKind)
      modifies this`calls
      ensures calls == old(calls) + [CallbackSet(kind)]
    {
      calls := calls + [CallbackSet(kind)];
    }

    method ReadAlloc(ctx: Handle, suggested: u64) returns (b: Block)
      modifies this`calls
      ensures calls == old(calls) + [ReadAllocated(ctx, suggested)] && b == readAllocReply(calls)
    {
      calls := calls + [ReadAllocated(ctx, suggested)];
      b := readAllocReply(calls);
    }

    /** Marshal.Copy from managed bytes into native memory at addr. */
    method CopyTo(addr: Addr, data: seq<byte>)
      modifies this`calls
      ensures calls == old(calls) + [Copied(addr, data)]
    {
      calls := calls + [Copied(addr, data)];
    }

    method Read(ctx: Handle, ssz: int, addr: Addr, len: u64) returns (errcode: int)
      modifies this`calls
      ensures calls == old(calls) + [ReadCommitted(ctx, ssz, addr, len)] && errcode == readReply(calls)
    {
      calls := calls + [ReadCommitted(ctx, ssz, addr, len)];
      errcode := readReply(calls);
    }

    method PostMsg(ctx: Handle, data: seq<byte>) returns (r: int)
      modifies this`calls
      ensures calls == old(calls) + [MessagePosted(ctx, data)] && r == postMsgReply(calls)
    {
      calls := calls + [MessagePosted(ctx, data)];
      r := postMsgReply(calls);
    }
  }
}
