/** One client connection of the server: receiving, dispatching and answering. */
module ClientUnit {
  import opened WireCodec
  import opened RawCache
  import opened Framing

  datatype DecodeStatus = FatalError | DataError | WaitHead | WaitContent | Done | DisconnectByUser

  datatype ConnState = Idle | ConnFatalError | ConnDataError | Disconnect
                     | DataSending | DataReceiving | SendDone | RecvDone

  // The number of DataSending, which send() returns after a passing error.
  const DATA_SENDING_CODE := 6

  // The outcome of the system calls: an error, passing or not, or some bytes.
  datatype Received = RecvError(again: bool) | Bytes(data: seq<byte>)

  datatype SendOutcome = SendError(again: bool) | Wrote(n: nat)

  const MAX_SEND_ERRORS := 50

  function Text(s: string): seq<byte> {
    seq(|s|, i requires 0 <= i < |s| => s[i] as int % 256)
  }

  const POLICY_REQUEST := "<policy-file-request/>\0"

  // The chunks that proc_pkg takes for a policy request.
  predicate PolicyChunk(c: seq<byte>) {
    |c| == 23 && c[0] == '<' as int && c[1] == 'p' as int
  }

  class Unit {
    const handler: Handler
    const policy: seq<byte>
    const r: Cache
    const w: Cache
    var decodeStatus: DecodeStatus
    var stage: ConnState
    var sendErrorTimes: nat
    var input: bool
    var output: bool
    var log: seq<seq<byte>>
    ghost var appended: seq<byte>
    ghost var sent: seq<byte>
    ghost var cleared: bool
    ghost var chunks: seq<seq<byte>>
    ghost var open: bool

    // While the connection is open, it stands where the run over the chunks received so far has come to.
    ghost predicate Running()
      reads this, r, w, r.pool, r.mem, w.mem
      requires Valid()
    {
      open ==> Run(handler, chunks) == State(log, r.Contents(), false)
    }

    ghost predicate Valid()
      reads this, r, w, r.pool, r.mem, w.mem
    {
      && r != w && r.pool == w.pool && r.Valid() && w.Valid()
      && (r.mem != null ==> r.mem != w.mem)
      && (!cleared ==> sent + w.Contents() == appended)
    }

    constructor (h: Handler, pool: MemPool, answer: seq<byte>)
      requires pool.Valid()
      ensures Valid() && handler == h && r.pool == pool && log == [] && appended == [] && sent == [] && !cleared
      ensures r.Contents() == [] && w.Contents() == [] && open && chunks == [] && Running()
    {
      handler, policy := h, answer;
      r := new Cache(pool);
      w := new Cache(pool);
      decodeStatus, stage, sendErrorTimes := WaitHead, Idle, 0;
      input, output := true, false;
      log, appended, sent, cleared := [], [], [], false;
      chunks, open := [], true;
    }

    // ---- the two buffers ----

    method SkipRead(n: nat)
      requires Valid()
      modifies r, r.pool
      ensures Valid() && w.Contents() == old(w.Contents())
      ensures r.Contents() == if n <= |old(r.Contents())| then old(r.Contents())[n..] else []
    {
      r.Skip(n);
    }

    // Bytes leave the front of the write buffer: sent, or dropped for good.
    method SkipWritten(n: nat, ghost drop: bool)
      requires Valid() && n <= |w.Contents()|
      modifies this`sent, this`cleared, w, w.pool
      ensures Valid() && r.Contents() == old(r.Contents()) && r.mem == old(r.mem) && r.len == old(r.len)
      ensures w.Contents() == old(w.Contents())[n..]
      ensures if drop then cleared && sent == old(sent)
              else cleared == old(cleared) && sent == old(sent) + old(w.Contents())[..n]
    {
      hide Cache.Contents, MemPool.Valid, MemPool.Blocks, Run, Dispatch;
      ghost var waiting := w.Contents();
      ghost var more := if drop then sent else sent + waiting[..n];
      SentFirst(sent, waiting, n);
      w.Skip(n);
      cleared, sent := cleared || drop, more;
    }

    method AppendRead(chunk: seq<byte>) returns (ok: bool)
      requires Valid()
      modifies r, r.pool, r.mem, r.pool.Blocks()
      ensures Valid() && w.Contents() == old(w.Contents())
      ensures r.Contents() == if ok then old(r.Contents()) + chunk else old(r.Contents())
    {
      ok := r.Append(chunk);
    }

    method Lengths() returns (reading: nat, writing: nat)
      requires Valid()
      ensures reading == |r.Contents()| && writing == |w.Contents()|
    {
      reading, writing := r.len, w.len;
    }

    // ---- sending ----

    method AddRspBuf(data: seq<byte>) returns (ok: bool)
      requires Valid()
      modifies this`appended, w, w.pool, w.mem, w.pool.Blocks()
      ensures Valid() && r.Contents() == old(r.Contents()) && r.mem == old(r.mem) && (Running() <==> old(Running()))
      ensures ok ==> appended == old(appended) + data && w.Contents() == old(w.Contents()) + data
      ensures !ok ==> appended == old(appended) && w.Contents() == old(w.Contents())
      ensures w.pool.Blocks() <= old(w.pool.Blocks()) + old(w.Block())
      ensures w.Block() <= old(w.Block()) + old(w.pool.Blocks()) || fresh(w.Block())
    {
      hide Cache.Contents, MemPool.Valid, MemPool.Blocks, Run, Dispatch;
      KeptApart(r, w);
      ok := w.Append(data);
      if ok {
        Appended(sent, old(w.Contents()), data);
        appended := appended + data;
      }
    }

    // A fatal error of send(): both buffers are emptied and no more events wanted.
    method GiveUp(reading: nat, writing: nat)
      requires Valid() && reading == |r.Contents()| && writing == |w.Contents()|
      modifies this`input, this`output, this`stage, this`sent, this`cleared, this`open, w, r, w.pool
      ensures Valid() && Running() && !open && cleared && !input && !output && stage == ConnFatalError
      ensures r.Contents() == [] && w.Contents() == []
    {
      hide Cache.Valid, Cache.Contents, MemPool.Valid, MemPool.Blocks, Cache.Block, Run, Dispatch;
      input, output := false, false;
      SkipWritten(writing, true);
      SkipRead(reading);
      open := false;
      stage := ConnFatalError;
    }

    // send(): the system call wrote some of what is waiting, or failed.
    method Send(outcome: SendOutcome) returns (ret: int)
      requires Valid() && (outcome.Wrote? ==> outcome.n <= |w.Contents()|)
      requires Running()
      modifies this`sendErrorTimes, this`input, this`output, this`stage, this`sent, this`cleared, this`open, w, r,
               w.pool
      ensures Valid() && Running() && (stage != ConnFatalError ==> open == old(open))
      ensures var waiting := old(w.Contents());
              if waiting == []
                 || (outcome.SendError? && !(outcome.again && old(sendErrorTimes) + 1 < MAX_SEND_ERRORS)) then
                ret == -1 && stage == ConnFatalError && !output
              else if outcome.SendError? then
                && w.Contents() == waiting && stage == DataSending && output && ret == DATA_SENDING_CODE
                  && sendErrorTimes == old(sendErrorTimes) + 1
              else
                && w.Contents() == waiting[outcome.n..] && sent == old(sent) + waiting[..outcome.n] && ret == outcome.n
                && sendErrorTimes == 0 && output == (w.Contents() != [])
                && stage == if w.Contents() == [] then SendDone else DataSending
      // Until a fatal error, write interest is on exactly when bytes remain.
      ensures stage != ConnFatalError ==> output == (w.Contents() != []) && cleared == old(cleared)
      ensures stage != ConnFatalError || old(w.Contents()) == [] ==>
                r.Contents() == old(r.Contents()) && input == old(input)
    {
      hide Cache.Valid, Cache.Contents, MemPool.Valid, MemPool.Blocks, Cache.Block, Run, Dispatch;
      var reading, writing := Lengths();
      if writing != 0 {
        if outcome.SendError? {
          if outcome.again {
            sendErrorTimes := sendErrorTimes + 1;
            if sendErrorTimes < MAX_SEND_ERRORS {
              output := true;
              stage := DataSending;
              return DATA_SENDING_CODE;
            }
          }
          GiveUp(reading, writing);
          return -1;
        }
        ret := outcome.n;
        output := ret != writing;
        stage := if ret == writing then SendDone else DataSending;
        SkipWritten(ret, false);
        sendErrorTimes := 0;
        return;
      }
      output := false;
      stage := ConnFatalError;
      ret := -1;
    }

    // ---- receiving ----

    // The loop of proc_pkg.
    method DispatchBuffer() returns (status: DecodeStatus)
      requires Valid()
      modifies this`log, r, r.pool
      ensures Valid()
      ensures var s := Dispatch(handler, old(log), old(r.Contents()));
              && log == s.packets && r.Contents() == s.rest && w.Contents() == old(w.Contents())
              && status == if s.fatal then FatalError else if s.rest == [] then WaitHead else WaitContent
    {
      hide Cache.Valid, Cache.Contents, MemPool.Valid, MemPool.Blocks, Cache.Block;
      ghost var s := Dispatch(handler, log, r.Contents());
      var reading, writing := Lengths();
      while reading > 0
        invariant Valid() && reading == |r.Contents()| && Dispatch(handler, log, r.Contents()) == s
                  && w.Contents() == old(w.Contents())
        decreases |r.Contents()|
      {
        var data := r.Data();
        var n := HandleInput(data);
        if n < 0 {
          return FatalError;
        } else if n == 0 {
          return WaitContent;
        }
        var accepted := handler(log, data[..n]);
        log := log + [data[..n]];
        if !accepted {
          return FatalError;
        }
        SkipRead(n);
        reading, writing := Lengths();
      }
      status := WaitHead;
    }

    // proc_pkg; `threw` when the pool had no block.
    method ProcPkg(received: Received, outcome: SendOutcome) returns (threw: bool)
      requires Valid() && Running() && (outcome.Wrote? ==> outcome.n <= |w.Contents()| + |policy|)
      modifies this, r, w, r.pool, r.mem, w.mem, r.pool.Blocks()
      ensures Valid() && Running()
      ensures received.RecvError? ==> decodeStatus == if received.again then old(decodeStatus) else FatalError
      ensures received == Bytes([]) ==> decodeStatus == DisconnectByUser
      ensures received.Bytes? && PolicyChunk(received.data) ==> threw || decodeStatus == FatalError
      ensures received.Bytes? && received.data != [] && !PolicyChunk(received.data) && !threw ==>
                var s := Dispatch(handler, old(log), old(r.Contents()) + received.data);
                && log == s.packets && r.Contents() == s.rest
                && decodeStatus == (if s.fatal then FatalError else if s.rest == [] then WaitHead else WaitContent)
                && chunks == old(chunks) + [received.data] && open == (old(open) && !s.fatal)
                && (old(open) ==> log == Run(handler, chunks).packets && s.fatal == Run(handler, chunks).fatal)
      ensures !(received.Bytes? && received.data != [] && !PolicyChunk(received.data)) ==> log == old(log)
    {
      hide Cache.Valid, Cache.Contents, MemPool.Valid, MemPool.Blocks, Cache.Block, Run, Dispatch;
      threw := false;
      if received.RecvError? {
        if !received.again {
          decodeStatus := FatalError;
        }
        return;
      }
      var chunk := received.data;
      if |chunk| == 0 {
        decodeStatus := DisconnectByUser;
        return;
      }
      if PolicyChunk(chunk) {
        threw := AnswerPolicy(chunk, outcome);
        if !threw {
          decodeStatus := FatalError;
        }
      } else {
        threw := TakeChunk(chunk);
      }
    }

    // The policy branch of proc_pkg.
    method AnswerPolicy(chunk: seq<byte>, outcome: SendOutcome) returns (threw: bool)
      requires Valid() && Running() && (outcome.Wrote? ==> outcome.n <= |w.Contents()| + |policy|)
      modifies this, r, w, w.pool, w.mem, w.pool.Blocks()
      ensures Valid() && Running() && log == old(log)
    {
      hide Cache.Valid, Cache.Contents, MemPool.Valid, MemPool.Blocks, Cache.Block, Run, Dispatch, Running;
      threw := false;
      if chunk == Text(POLICY_REQUEST) {
        var ok := AddRspBuf(policy);
        if !ok {
          return true;
        }
        var ret := Send(outcome);
      }
    }

    // The rest of proc_pkg, for a chunk that is not taken for a policy request.
    method TakeChunk(chunk: seq<byte>) returns (threw: bool)
      requires Valid() && Running()
      modifies this`log, this`decodeStatus, this`chunks, this`open, r, r.pool, r.mem, r.pool.Blocks()
      ensures Valid() && Running() && w.Contents() == old(w.Contents())
      ensures threw ==> log == old(log) && r.Contents() == old(r.Contents())
      ensures !threw ==>
                var s := Dispatch(handler, old(log), old(r.Contents()) + chunk);
                && log == s.packets && r.Contents() == s.rest
                && decodeStatus == (if s.fatal then FatalError else if s.rest == [] then WaitHead else WaitContent)
                && chunks == old(chunks) + [chunk] && open == (old(open) && !s.fatal)
                && (old(open) ==> log == Run(handler, chunks).packets && s.fatal == Run(handler, chunks).fatal)
    {
      hide Cache.Valid, Cache.Contents, MemPool.Valid, MemPool.Blocks, Cache.Block, Dispatch;
      var ok := AppendRead(chunk);
      if !ok {
        return true;
      }
      decodeStatus := DispatchBuffer();
      chunks := chunks + [chunk];
      open := open && decodeStatus != FatalError;
      assert chunks[..|chunks| - 1] == old(chunks);
      threw := false;
    }

    // recv()
    method Recv(received: Received, outcome: SendOutcome) returns (ret: int, threw: bool)
      requires Valid() && Running() && (outcome.Wrote? ==> outcome.n <= |w.Contents()| + |policy|)
      modifies this, r, w, r.pool, r.mem, w.mem, r.pool.Blocks()
      ensures Valid() && Running()
      ensures !threw ==> (ret == -1 <==> decodeStatus == FatalError) && (ret == -1 || ret == 0)
      ensures !threw ==> match decodeStatus
                         case FatalError => stage == ConnFatalError && !input
                         case DataError => stage == ConnDataError && !input
                         case WaitHead => stage == DataReceiving
                         case WaitContent => stage == DataReceiving
                         case Done => stage == RecvDone
                         case DisconnectByUser => stage == Disconnect && !input
    {
      hide Cache.Valid, Cache.Contents, MemPool.Valid, MemPool.Blocks, Cache.Block, Dispatch, Run;
      ret := 0;
      threw := ProcPkg(received, outcome);
      if threw {
        return;
      }
      match decodeStatus
      case FatalError =>
        input := false;
        stage := ConnFatalError;
        ret := -1;
      case DataError =>
        input := false;
        stage := ConnDataError;
      case WaitHead =>
        stage := DataReceiving;
      case WaitContent =>
        stage := DataReceiving;
      case Done =>
        stage := RecvDone;
      case DisconnectByUser =>
        input := false;
        stage := Disconnect;
    }
  }

  // A block in use is not on the free list of the pool.
  lemma KeptApart(r: Cache, w: Cache)
    requires r.Valid() && r.pool == w.pool
    ensures r.mem != null ==> r.mem in r.pool.held && r.mem !in r.pool.Blocks()
  {
  }

  lemma SentFirst(sent: seq<byte>, waiting: seq<byte>, n: nat)
    requires n <= |waiting|
    ensures sent + waiting[..n] + waiting[n..] == sent + waiting
  {
  }

  lemma Appended(sent: seq<byte>, pending: seq<byte>, data: seq<byte>)
    ensures sent + (pending + data) == sent + pending + data
  {
  }
}
