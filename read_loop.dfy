/**
 * The allocate/copy/commit rounds that ClientProtocol.ReadFrom performs to
 * hand a managed byte array to the native receive buffer manager. Run is the
 * reference definition of the loop (one round per iteration); the lemmas
 * below state what the rounds are: consecutive slices of the input, each
 * asked for the remaining count, each cut to what the block can hold, the
 * first failure ending the loop with its status.
 */
module ReadLoop {
  import opened Native
  import opened ErrorCodes

  /** A block the wrapper may copy into: non-empty and non-null. */
  predicate Usable(b: Block)
  {
    b.len != 0 && b.addr != NULL
  }

  function Min(a: nat, b: nat): nat
  {
    if a <= b then a else b
  }

  /** One iteration of the ReadFrom loop. */
  datatype Round =
    | AllocFailed(requested: nat, block: Block)
    | Committed(requested: nat, block: Block, data: seq<byte>, status: int)

  /** The rounds ReadFrom runs and the value it returns. */
  datatype Outcome = Outcome(rounds: seq<Round>, ret: int)

  /** What the round contributes to ReadFrom's result when it is the last. */
  function Status(r: Round): int
  {
    match r
    case AllocFailed(_, _) => EN_ECT_MALLOC
    case Committed(_, _, _, s) => s
  }

  /** A round after which ReadFrom returns at once. */
  predicate Failed(r: Round)
  {
    Status(r) < 0
  }

  /** The shape every round has: the allocation fails, or the commit is min(capacity, request). */
  predicate WellFormed(r: Round)
  {
    match r
    case AllocFailed(q, b) => 0 < q && !Usable(b)
    case Committed(q, b, d, _) => 0 < q && Usable(b) && 0 < |d| == Min(b.len, q)
  }

  /** The bytes a round hands to ReadDone. */
  function DataOf(r: Round): seq<byte>
  {
    if r.Committed? then r.data else []
  }

  /** The bytes handed to ReadDone by a sequence of rounds, in order. */
  function Data(rs: seq<Round>): seq<byte>
  {
    if rs == [] then [] else DataOf(rs[0]) + Data(rs[1..])
  }

  /** The native calls one round issues on context ctx. */
  function RoundCalls(ctx: Handle, r: Round): seq<NativeCall>
  {
    match r
    case AllocFailed(q, _) => [ReadAllocated(ctx, q)]
    case Committed(q, b, d, _) =>
      [ReadAllocated(ctx, q), Copied(b.addr, d), ReadCommitted(ctx, Int32Of(|d|), b.addr, |d|)]
  }

  function Calls(ctx: Handle, rs: seq<Round>): seq<NativeCall>
  {
    if rs == [] then [] else RoundCalls(ctx, rs[0]) + Calls(ctx, rs[1..])
  }

  lemma {:induction false} CallsAppend(ctx: Handle, a: seq<Round>, b: seq<Round>)
    ensures Calls(ctx, a + b) == Calls(ctx, a) + Calls(ctx, b)
  {
    if a == [] {
      assert a + b == b;
    } else {
      assert (a + b)[1..] == a[1..] + b;
      CallsAppend(ctx, a[1..], b);
    }
  }

  lemma CallsSnoc(ctx: Handle, rs: seq<Round>, r: Round)
    ensures Calls(ctx, rs + [r]) == Calls(ctx, rs) + RoundCalls(ctx, r)
  {
    CallsAppend(ctx, rs, [r]);
    assert [r][1..] == [];
  }

  /**
   * The round ReadFrom runs at position offset: ask read_alloc for the
   * remaining count; on an empty or null block stop; otherwise copy as much
   * as fits and commit it with ReadDone against that block.
   */
  function FirstRound(alloc: seq<NativeCall> -> Block, read: seq<NativeCall> -> int, ctx: Handle,
                      hist: seq<NativeCall>, buf: seq<byte>, offset: nat, len: nat): (r: Round)
    requires offset < len <= |buf|
  {
    var remaining := len - offset;
    var b := alloc(hist + [ReadAllocated(ctx, remaining)]);
    // The test and the minimum are written out rather than through Usable and
    // Min: every proof about Run unfolds this body, and the inline form keeps
    // those proofs cheap. FirstRoundStarts states the round in their terms.
    if b.len == 0 || b.addr == NULL then AllocFailed(remaining, b)
    else
      var n := if b.len >= remaining then remaining else b.len;
      var d := buf[offset..offset + n];
      Committed(remaining, b, d,
                read(hist + [ReadAllocated(ctx, remaining), Copied(b.addr, d), ReadCommitted(ctx, Int32Of(n), b.addr, n)]))
  }

  /** The first round asks for what remains and commits the next bytes of buf. */
  lemma FirstRoundStarts(alloc: seq<NativeCall> -> Block, read: seq<NativeCall> -> int, ctx: Handle,
                         hist: seq<NativeCall>, buf: seq<byte>, offset: nat, len: nat)
    requires offset < len <= |buf|
    ensures var r := FirstRound(alloc, read, ctx, hist, buf, offset, len);
            WellFormed(r) && StartsAt(r, buf, offset, len)
  {
  }

  /**
   * The first round's block is read_alloc's reply to the request for what
   * remains, and its status is read's reply once the round's calls are made:
   * the commit goes to that block.
   */
  lemma FirstRoundReplies(alloc: seq<NativeCall> -> Block, read: seq<NativeCall> -> int, ctx: Handle,
                          hist: seq<NativeCall>, buf: seq<byte>, offset: nat, len: nat)
    requires offset < len <= |buf|
    ensures var r := FirstRound(alloc, read, ctx, hist, buf, offset, len);
            && r.block == alloc(hist + [ReadAllocated(ctx, len - offset)])
            && RoundCalls(ctx, r)[0] == ReadAllocated(ctx, len - offset)
            && (r.Committed? ==> r.status == read(hist + RoundCalls(ctx, r))
                                 && RoundCalls(ctx, r)[2] == ReadCommitted(ctx, Int32Of(|r.data|), r.block.addr, |r.data|))
  {
    var r := FirstRound(alloc, read, ctx, hist, buf, offset, len);
    if r.Committed? {
      var n := |r.data|;
      assert hist + RoundCalls(ctx, r)
          == hist + [ReadAllocated(ctx, len - offset), Copied(r.block.addr, r.data), ReadCommitted(ctx, Int32Of(n), r.block.addr, n)];
    }
  }

  /**
   * The loop of ReadFrom from position offset, with last the status of the
   * previous ReadDone, against a native library whose read_alloc and read
   * answer the history hist of calls made so far.
   */
  function Run(alloc: seq<NativeCall> -> Block, read: seq<NativeCall> -> int, ctx: Handle,
               hist: seq<NativeCall>, buf: seq<byte>, offset: nat, len: nat, last: int): Outcome
    requires offset <= len <= |buf|
    decreases len - offset
  {
    if offset >= len then Outcome([], last)
    else
      var r := FirstRound(alloc, read, ctx, hist, buf, offset, len);
      FirstRoundStarts(alloc, read, ctx, hist, buf, offset, len);
      if Failed(r) then Outcome([r], Status(r))
      else
        var rest := Run(alloc, read, ctx, hist + RoundCalls(ctx, r), buf, offset + |r.data|, len, r.status);
        Outcome([r] + rest.rounds, rest.ret)
  }

  /**
   * The loop stops: it runs no round when nothing remains and at most one
   * round per remaining byte; every round is well formed; only the last round
   * can fail, so nothing is allocated after a failure; and the result is the
   * status of the last round (EN_ECT_MALLOC for a failed allocation, else the
   * last ReadDone result).
   */
  lemma {:induction false} RunShape(alloc: seq<NativeCall> -> Block, read: seq<NativeCall> -> int, ctx: Handle,
                                    hist: seq<NativeCall>, buf: seq<byte>, offset: nat, len: nat, last: int,
                                    o: Outcome)
    requires offset <= len <= |buf|
    requires o == Run(alloc, read, ctx, hist, buf, offset, len, last)
    ensures o.rounds == [] <==> offset == len
    ensures o.rounds == [] ==> o.ret == last
    ensures o.rounds != [] ==> o.ret == Status(o.rounds[|o.rounds| - 1])
    ensures |o.rounds| <= len - offset
    ensures forall i :: 0 <= i < |o.rounds| ==> WellFormed(o.rounds[i])
    ensures forall i :: 0 <= i < |o.rounds| - 1 ==> !Failed(o.rounds[i])
    decreases len - offset
  {
    if offset < len {
      var r := FirstRound(alloc, read, ctx, hist, buf, offset, len);
      FirstRoundStarts(alloc, read, ctx, hist, buf, offset, len);
      if !Failed(r) {
        var rest := Run(alloc, read, ctx, hist + RoundCalls(ctx, r), buf, offset + |r.data|, len, r.status);
        RunShape(alloc, read, ctx, hist + RoundCalls(ctx, r), buf, offset + |r.data|, len, r.status, rest);
        assert o.rounds == [r] + rest.rounds;
      }
    }
  }

  /** One step of Run: a round that did not fail is followed by the run from where it stopped. */
  lemma RunStep(alloc: seq<NativeCall> -> Block, read: seq<NativeCall> -> int, ctx: Handle,
                hist: seq<NativeCall>, buf: seq<byte>, offset: nat, len: nat, last: int,
                r: Round, rest: Outcome, o: Outcome)
    requires offset < len <= |buf|
    requires r == FirstRound(alloc, read, ctx, hist, buf, offset, len) && !Failed(r)
    requires offset + |r.data| <= len
    requires rest == Run(alloc, read, ctx, hist + RoundCalls(ctx, r), buf, offset + |r.data|, len, r.status)
    requires o == Run(alloc, read, ctx, hist, buf, offset, len, last)
    ensures o.rounds == [r] + rest.rounds && o.ret == rest.ret
  {
  }

  lemma DataCons(r: Round, rs: seq<Round>)
    ensures Data([r] + rs) == DataOf(r) + Data(rs)
  {
    assert ([r] + rs)[1..] == rs;
  }

  /** A round that starts at offset: asked for all that remains, committing the next bytes of buf. */
  predicate StartsAt(r: Round, buf: seq<byte>, offset: nat, len: nat)
    requires len <= |buf|
  {
    && offset < len
    && r.requested == len - offset
    && (r.Committed? ==> offset + |r.data| <= len && r.data == buf[offset..offset + |r.data|])
  }

  /** Round i of rs starts where rounds 0..i stopped. */
  predicate SliceAt(rs: seq<Round>, i: nat, buf: seq<byte>, offset: nat, len: nat)
    requires i < |rs| && len <= |buf|
  {
    StartsAt(rs[i], buf, offset + |Data(rs[..i])|, len)
  }

  lemma SlicesCons(r: Round, rest: seq<Round>, buf: seq<byte>, offset: nat, next: nat, len: nat)
    requires len <= |buf| && StartsAt(r, buf, offset, len) && next == offset + |DataOf(r)|
    requires forall j :: 0 <= j < |rest| ==> SliceAt(rest, j, buf, next, len)
    ensures forall i :: 0 <= i < |[r] + rest| ==> SliceAt([r] + rest, i, buf, offset, len)
  {
    var rs := [r] + rest;
    forall i | 0 <= i < |rs|
      ensures SliceAt(rs, i, buf, offset, len)
    {
      if i == 0 {
        assert rs[..i] == [];
      } else {
        assert SliceAt(rest, i - 1, buf, next, len);
        assert rs[..i] == [r] + rest[..i - 1];
        DataCons(r, rest[..i - 1]);
      }
    }
  }

  /**
   * Round i starts where the previous rounds stopped: it asks read_alloc for
   * exactly the remaining count, and the bytes it commits are the next slice
   * of buf, inside [offset, len).
   */
  lemma {:induction false} RunSlices(alloc: seq<NativeCall> -> Block, read: seq<NativeCall> -> int, ctx: Handle,
                                     hist: seq<NativeCall>, buf: seq<byte>, offset: nat, len: nat, last: int,
                                     o: Outcome)
    requires offset <= len <= |buf|
    requires o == Run(alloc, read, ctx, hist, buf, offset, len, last)
    ensures forall i :: 0 <= i < |o.rounds| ==> SliceAt(o.rounds, i, buf, offset, len)
    decreases len - offset
  {
    if offset < len {
      var r := FirstRound(alloc, read, ctx, hist, buf, offset, len);
      FirstRoundStarts(alloc, read, ctx, hist, buf, offset, len);
      if !Failed(r) {
        var next := offset + |DataOf(r)|;
        assert offset < next <= len;
        var rest := Run(alloc, read, ctx, hist + RoundCalls(ctx, r), buf, next, len, r.status);
        RunSlices(alloc, read, ctx, hist + RoundCalls(ctx, r), buf, next, len, r.status, rest);
        RunStep(alloc, read, ctx, hist, buf, offset, len, last, r, rest, o);
        SlicesCons(r, rest.rounds, buf, offset, next, len);
      } else {
        assert o.rounds == [r] + [];
        SlicesCons(r, [], buf, offset, offset + |DataOf(r)|, len);
      }
    }
  }

  /**
   * Round i of rs is answered by the native library at the history its
   * predecessors left behind: its block is read_alloc's reply to its own
   * request, and a commit's status is read's reply once the round's calls
   * (a commit into that very block) are made.
   */
  predicate Answered(alloc: seq<NativeCall> -> Block, read: seq<NativeCall> -> int, ctx: Handle,
                     start: seq<NativeCall>, rs: seq<Round>, i: nat)
    requires i < |rs|
  {
    var before := start + Calls(ctx, rs[..i]);
    && rs[i].block == alloc(before + [ReadAllocated(ctx, rs[i].requested)])
    && (rs[i].Committed? ==> rs[i].status == read(before + RoundCalls(ctx, rs[i])))
  }

  /** The history after a first round r and then rounds rs. */
  lemma HistoryCons(ctx: Handle, start: seq<NativeCall>, r: Round, rs: seq<Round>)
    ensures start + Calls(ctx, [r] + rs) == (start + RoundCalls(ctx, r)) + Calls(ctx, rs)
  {
    assert ([r] + rs)[1..] == rs;
  }

  lemma AnsweredCons(alloc: seq<NativeCall> -> Block, read: seq<NativeCall> -> int, ctx: Handle,
                     start: seq<NativeCall>, r: Round, rest: seq<Round>)
    requires r.block == alloc(start + [ReadAllocated(ctx, r.requested)])
    requires r.Committed? ==> r.status == read(start + RoundCalls(ctx, r))
    requires forall j :: 0 <= j < |rest| ==> Answered(alloc, read, ctx, start + RoundCalls(ctx, r), rest, j)
    ensures forall i :: 0 <= i < |[r] + rest| ==> Answered(alloc, read, ctx, start, [r] + rest, i)
  {
    var rs := [r] + rest;
    forall i | 0 <= i < |rs|
      ensures Answered(alloc, read, ctx, start, rs, i)
    {
      if i == 0 {
        assert rs[..i] == [] && start + Calls(ctx, []) == start;
      } else {
        assert Answered(alloc, read, ctx, start + RoundCalls(ctx, r), rest, i - 1);
        assert rs[..i] == [r] + rest[..i - 1];
        HistoryCons(ctx, start, r, rest[..i - 1]);
      }
    }
  }

  /**
   * Over a whole run, every round's block is read_alloc's reply to that
   * round's request, made after exactly the calls of the rounds before it,
   * and every commit's status is read's reply to the commit into that block.
   */
  lemma {:induction false} RunReplies(alloc: seq<NativeCall> -> Block, read: seq<NativeCall> -> int, ctx: Handle,
                                      hist: seq<NativeCall>, buf: seq<byte>, offset: nat, len: nat, last: int,
                                      o: Outcome)
    requires offset <= len <= |buf|
    requires o == Run(alloc, read, ctx, hist, buf, offset, len, last)
    ensures forall i :: 0 <= i < |o.rounds| ==> Answered(alloc, read, ctx, hist, o.rounds, i)
    decreases len - offset
  {
    if offset < len {
      var r := FirstRound(alloc, read, ctx, hist, buf, offset, len);
      FirstRoundStarts(alloc, read, ctx, hist, buf, offset, len);
      FirstRoundReplies(alloc, read, ctx, hist, buf, offset, len);
      if !Failed(r) {
        var next := offset + |DataOf(r)|;
        assert offset < next <= len;
        var rest := Run(alloc, read, ctx, hist + RoundCalls(ctx, r), buf, next, len, r.status);
        RunReplies(alloc, read, ctx, hist + RoundCalls(ctx, r), buf, next, len, r.status, rest);
        RunStep(alloc, read, ctx, hist, buf, offset, len, last, r, rest, o);
        AnsweredCons(alloc, read, ctx, hist, r, rest.rounds);
      } else {
        assert o.rounds == [r] + [];
        AnsweredCons(alloc, read, ctx, hist, r, []);
      }
    }
  }

  lemma SliceSplit(buf: seq<byte>, i: nat, j: nat, k: nat)
    requires i <= j <= k <= |buf|
    ensures buf[i..k] == buf[i..j] + buf[j..k]
  {
  }

  lemma {:induction false} DataSnoc(rs: seq<Round>, r: Round)
    ensures Data(rs + [r]) == Data(rs) + DataOf(r)
  {
    if rs == [] {
      assert rs + [r] == [r] + [];
      DataCons(r, []);
    } else {
      assert rs + [r] == [rs[0]] + (rs[1..] + [r]);
      DataCons(rs[0], rs[1..] + [r]);
      DataSnoc(rs[1..], r);
      DataCons(rs[0], rs[1..]);
      assert [rs[0]] + rs[1..] == rs;
    }
  }

  /** Rounds that each start where the previous ones stopped commit a prefix of buf[offset..len). */
  lemma {:induction false} SlicesPrefix(rs: seq<Round>, buf: seq<byte>, offset: nat, len: nat)
    requires offset <= len <= |buf|
    requires forall i :: 0 <= i < |rs| ==> SliceAt(rs, i, buf, offset, len)
    ensures offset + |Data(rs)| <= len
    ensures Data(rs) == buf[offset..offset + |Data(rs)|]
    decreases |rs|
  {
    if rs == [] {
    } else {
      var n := |rs| - 1;
      var init, last := rs[..n], rs[n];
      forall i | 0 <= i < |init|
        ensures SliceAt(init, i, buf, offset, len)
      {
        assert init[..i] == rs[..i];
        assert SliceAt(rs, i, buf, offset, len);
      }
      SlicesPrefix(init, buf, offset, len);
      assert SliceAt(rs, n, buf, offset, len);
      assert rs == init + [last];
      DataSnoc(init, last);
      var mid := offset + |Data(init)|;
      SliceSplit(buf, offset, mid, mid + |DataOf(last)|);
    }
  }

  /** The committed bytes are always a prefix of buf[offset..len). */
  lemma RunPrefix(alloc: seq<NativeCall> -> Block, read: seq<NativeCall> -> int, ctx: Handle,
                  hist: seq<NativeCall>, buf: seq<byte>, offset: nat, len: nat, last: int,
                  o: Outcome)
    requires offset <= len <= |buf|
    requires o == Run(alloc, read, ctx, hist, buf, offset, len, last)
    ensures offset + |Data(o.rounds)| <= len
    ensures Data(o.rounds) == buf[offset..offset + |Data(o.rounds)|]
  {
    RunSlices(alloc, read, ctx, hist, buf, offset, len, last, o);
    SlicesPrefix(o.rounds, buf, offset, len);
  }

  /** A run that ends without an error has committed all of [offset, len). */
  lemma {:induction false} RunCovers(alloc: seq<NativeCall> -> Block, read: seq<NativeCall> -> int, ctx: Handle,
                                     hist: seq<NativeCall>, buf: seq<byte>, offset: nat, len: nat, last: int,
                                     o: Outcome)
    requires offset <= len <= |buf|
    requires o == Run(alloc, read, ctx, hist, buf, offset, len, last)
    ensures o.ret >= 0 ==> offset + |Data(o.rounds)| == len
    decreases len - offset
  {
    if offset < len {
      var r := FirstRound(alloc, read, ctx, hist, buf, offset, len);
      FirstRoundStarts(alloc, read, ctx, hist, buf, offset, len);
      if !Failed(r) {
        var rest := Run(alloc, read, ctx, hist + RoundCalls(ctx, r), buf, offset + |r.data|, len, r.status);
        RunCovers(alloc, read, ctx, hist + RoundCalls(ctx, r), buf, offset + |r.data|, len, r.status, rest);
        RunStep(alloc, read, ctx, hist, buf, offset, len, last, r, rest, o);
        DataCons(r, rest.rounds);
      }
    }
  }

  /**
   * The committed bytes are always a prefix of buf[offset..len), and when
   * the run succeeds they are exactly buf[offset..len).
   */
  lemma RunPartition(alloc: seq<NativeCall> -> Block, read: seq<NativeCall> -> int, ctx: Handle,
                     hist: seq<NativeCall>, buf: seq<byte>, offset: nat, len: nat, last: int,
                     o: Outcome)
    requires offset <= len <= |buf|
    requires o == Run(alloc, read, ctx, hist, buf, offset, len, last)
    ensures offset + |Data(o.rounds)| <= len
    ensures Data(o.rounds) == buf[offset..offset + |Data(o.rounds)|]
    ensures o.ret >= 0 ==> Data(o.rounds) == buf[offset..len]
  {
    RunPrefix(alloc, read, ctx, hist, buf, offset, len, last, o);
    RunCovers(alloc, read, ctx, hist, buf, offset, len, last, o);
  }

  /**
   * A run split into the rounds done so far and the run still to come from
   * offset against history hist, with last the status of the latest round.
   */
  ghost predicate Pending(alloc: seq<NativeCall> -> Block, read: seq<NativeCall> -> int, ctx: Handle,
                          hist: seq<NativeCall>, buf: seq<byte>, offset: nat, len: nat, last: int,
                          full: Outcome, done: seq<Round>)
  {
    && offset <= len <= |buf|
    && var rest := Run(alloc, read, ctx, hist, buf, offset, len, last);
       full.rounds == done + rest.rounds && full.ret == rest.ret
  }

  /**
   * The loop invariant of ReadFrom: the rounds done brought the history from
   * start to hist, and the rest of the run is still pending.
   */
  ghost predicate Resumes(alloc: seq<NativeCall> -> Block, read: seq<NativeCall> -> int, ctx: Handle,
                          start: seq<NativeCall>, hist: seq<NativeCall>, buf: seq<byte>, offset: nat, len: nat, last: int,
                          full: Outcome, done: seq<Round>)
  {
    hist == start + Calls(ctx, done) && Pending(alloc, read, ctx, hist, buf, offset, len, last, full, done)
  }

  /** A whole run from the first byte resumes with nothing done. */
  lemma ResumeStart(alloc: seq<NativeCall> -> Block, read: seq<NativeCall> -> int, ctx: Handle,
                    hist: seq<NativeCall>, buf: seq<byte>, len: nat)
    requires len <= |buf|
    ensures Resumes(alloc, read, ctx, hist, hist, buf, 0, len, 0, Run(alloc, read, ctx, hist, buf, 0, len, 0), [])
  {
    assert hist + [] == hist;
  }

  /** Once offset reaches len, the rounds done are the whole run. */
  lemma ResumeEnd(alloc: seq<NativeCall> -> Block, read: seq<NativeCall> -> int, ctx: Handle,
                  start: seq<NativeCall>, hist: seq<NativeCall>, buf: seq<byte>, offset: nat, len: nat, last: int,
                  full: Outcome, done: seq<Round>)
    requires Resumes(alloc, read, ctx, start, hist, buf, offset, len, last, full, done) && len <= offset
    ensures full.rounds == done && full.ret == last && hist == start + Calls(ctx, done)
  {
  }

  /** The calls of one more round extend the history of the rounds done. */
  lemma ResumeHistory(ctx: Handle, start: seq<NativeCall>, hist: seq<NativeCall>, done: seq<Round>, r: Round)
    requires hist == start + Calls(ctx, done)
    ensures hist + RoundCalls(ctx, r) == start + Calls(ctx, done + [r])
  {
    CallsSnoc(ctx, done, r);
  }

  /**
   * One iteration of the ReadFrom loop: after the round at offset, a failed
   * round ends the run, otherwise the rest of the run is pending after the
   * bytes it committed, with its status.
   */
  lemma PendingStep(alloc: seq<NativeCall> -> Block, read: seq<NativeCall> -> int, ctx: Handle,
                    hist: seq<NativeCall>, buf: seq<byte>, offset: nat, len: nat, last: int,
                    full: Outcome, done: seq<Round>, r: Round)
    requires Pending(alloc, read, ctx, hist, buf, offset, len, last, full, done) && offset < len
    requires r == FirstRound(alloc, read, ctx, hist, buf, offset, len)
    ensures offset + |DataOf(r)| <= len
    ensures Failed(r) ==> full.rounds == done + [r] && full.ret == Status(r)
    ensures !Failed(r) ==>
              Pending(alloc, read, ctx, hist + RoundCalls(ctx, r), buf, offset + |DataOf(r)|, len, Status(r),
                      full, done + [r])
  {
    FirstRoundStarts(alloc, read, ctx, hist, buf, offset, len);
    var rest := Run(alloc, read, ctx, hist, buf, offset, len, last);
    if Failed(r) {
      assert rest.rounds == [r];
    } else {
      var next := Run(alloc, read, ctx, hist + RoundCalls(ctx, r), buf, offset + |r.data|, len, r.status);
      RunStep(alloc, read, ctx, hist, buf, offset, len, last, r, next, rest);
      assert (done + [r]) + next.rounds == done + ([r] + next.rounds);
    }
  }

  /**
   * The loop invariant of ReadFrom is kept by one round: given the history,
   * offset and status after the round at offset, a failed round ends the run
   * with all of it done, any other round leaves the rest of it pending.
   */
  lemma ResumeStep(alloc: seq<NativeCall> -> Block, read: seq<NativeCall> -> int, ctx: Handle,
                   start: seq<NativeCall>, hist: seq<NativeCall>, buf: seq<byte>, offset: nat, len: nat, last: int,
                   full: Outcome, done: seq<Round>, r: Round,
                   hist': seq<NativeCall>, offset': nat, last': int)
    requires Resumes(alloc, read, ctx, start, hist, buf, offset, len, last, full, done) && offset < len
    requires r == FirstRound(alloc, read, ctx, hist, buf, offset, len)
    requires hist' == hist + RoundCalls(ctx, r) && offset' == offset + |DataOf(r)| && last' == Status(r)
    ensures offset' <= len
    ensures last' < 0 ==> full.rounds == done + [r] && full.ret == last' && hist' == start + Calls(ctx, done + [r])
    ensures last' >= 0 ==> Resumes(alloc, read, ctx, start, hist', buf, offset', len, last', full, done + [r])
  {
    PendingStep(alloc, read, ctx, hist, buf, offset, len, last, full, done, r);
    ResumeHistory(ctx, start, hist, done, r);
  }
}
