/**
 The block-wise transfers of the Temboo CoAP client (RFC 7959): a request sent in blocks
 whose size the server may reduce, and a response collected from numbered blocks.
 */
module CoapClient {
  import opened Basics
  import opened Bytes

  const MAX_BLOCK_SIZE: nat := 64
  const MAX_DATA_SIZE: nat := 1000

  datatype State = Idle | SendRequest | WaitingForResponse | ResponseStarted | ResponseReady | Error

  datatype Result = NoError | RequestFailed | ReceivingResponse | SendingMsg | BufferFull

  /** A block of the request as it is handed to the layer below. */
  datatype Block = Block(num: nat, size: nat, payload: seq<Byte>, more: bool)

  datatype Code = Continue | RequestEntityIncomplete | RequestEntityTooLarge | Empty | Other

  /** The number and the size of a Block1 option; size 0 if it is none of the standard's. */
  datatype Block1 = Block1(num: nat, size: nat)

  datatype Block2 = Block2(num: nat, more: bool)

  datatype Msg = Msg(code: Code, block1: Option<Block1>, block2: Option<Block2>, payload: seq<Byte>)

  /** What the layer below reports. */
  datatype Event = Nothing | Response(msg: Msg) | Failed

  /** What the client does in turn: a block of the request, or a request for a response block. */
  datatype Output = Silent | SendBlock(block: Block) | AskFor(num: nat)

  /** `data` stands for the first dataLen bytes of the data buffer, `resp` for the first respLen of the
      response buffer, txByteCount also for txIndex, which is always the same. */
  datatype Client = Client(state: State, blockSize: nat, data: seq<Byte>, txByteCount: nat,
                           txBlockNum: nat, rxBlockNum: nat, resp: seq<Byte>, lastResult: Result)

  function Min(a: int, b: int): int { if a < b then a else b }

  // ---------- sending ----------

  function PayloadLength(c: Client): int { Min(|c.data| - c.txByteCount, c.blockSize) }

  /** Integer division; the block size is never zero. */
  function Divided(n: nat, d: nat): nat
    decreases n, d
  {
    if d == 0 || n < d then 0 else 1 + Divided(n - d, d)
  }

  lemma {:induction false} DividedIsQuotient(n: nat, d: nat)
    requires d > 0
    ensures Divided(n, d) == n / d
    decreases n
  {
    if n < d {
      Quotient(n, d, 0, n);
    } else {
      DividedIsQuotient(n - d, d);
      Grows((n - d) / d, d);
      Quotient(n, d, (n - d) / d + 1, (n - d) % d);
    }
  }

  /** What sendChoreoRequest sends. */
  function NextBlock(c: Client): Block
    requires c.txByteCount <= |c.data|
  {
    var n := PayloadLength(c);
    var end := c.txByteCount + n;
    Block(Divided(c.txByteCount, c.blockSize), c.blockSize, c.data[c.txByteCount..end], end < |c.data|)
  }

  /** sendChoreoRequest, when the layer below takes the block or does not. */
  function AfterSend(c: Client, ok: bool): Client
    requires c.txByteCount <= |c.data|
  {
    var n := PayloadLength(c);
    var c1 := c.(txBlockNum := Divided(c.txByteCount, c.blockSize));
    if ok then c1.(state := SendRequest, txByteCount := c.txByteCount + n)
    else c1.(state := Error)
  }

  // ---------- receiving ----------

  function Reset(c: Client): Client {
    c.(data := [], resp := [], txByteCount := 0, rxBlockNum := 0)
  }

  /** A smaller size than the present one is adopted. */
  function Adjust(c: Client, b: Option<Block1>): Client {
    if b.Some? && 0 < b.value.size < c.blockSize then c.(blockSize := b.value.size) else c
  }

  /** saveResponse: one byte of the buffer is kept free. */
  function Truncated(s: seq<Byte>): seq<Byte> { if |s| <= MAX_DATA_SIZE - 1 then s else s[..MAX_DATA_SIZE - 1] }

  function Save(c: Client, payload: seq<Byte>): Client
  {
    var resp := Truncated(c.resp + payload);
    c.(resp := resp, lastResult := if |resp| > |c.resp| then NoError else BufferFull)
  }

  /** A response block. */
  function TakeBlock(c: Client, b: Block2, payload: seq<Byte>): (Client, Output)
  {
    if b.num > c.rxBlockNum then (Reset(c).(lastResult := ReceivingResponse, state := Idle), Silent)
    else if b.num < c.rxBlockNum then (c.(lastResult := NoError, state := ResponseStarted), AskFor(c.rxBlockNum))
    else
      var c1 := Save(c, payload);
      if b.more then (c1.(rxBlockNum := b.num + 1, state := ResponseStarted), AskFor(b.num + 1))
      else (c1.(state := ResponseReady), Silent)
  }

  /** The switch on the response code. */
  function TakeCode(c: Client, msg: Msg, ok: bool): (Client, Output)
  {
    match msg.code
    case Continue =>
      if c.txByteCount >= |c.data| then
        (Reset(c).(lastResult := RequestFailed, state := Idle), Silent)
      else if ok then (AfterSend(c, true), SendBlock(NextBlock(c)))
      else (Reset(AfterSend(c, false)).(lastResult := RequestFailed, state := Idle), Silent)
    case RequestEntityIncomplete => (Reset(c).(lastResult := RequestFailed, state := Idle), Silent)
    case RequestEntityTooLarge => (Reset(c).(lastResult := RequestFailed, state := Idle), Silent)
    case _ =>
      var c1 := c.(data := []);
      if msg.block2.Some? then TakeBlock(c1, msg.block2.value, msg.payload)
      else if msg.code.Empty? then (c1.(state := WaitingForResponse), Silent)
      else (Save(c1, msg.payload).(state := ResponseReady), Silent)
  }

  /** The end of the case: a block of the number still expected. */
  function AfterCode(c: Client, msg: Msg): Client {
    if msg.block2.Some? && msg.block2.value.num == c.rxBlockNum then
      Adjust(c, msg.block1).(rxBlockNum := c.rxBlockNum + 1)
    else c
  }

  function Respond(c: Client, msg: Msg, ok: bool): (Client, Output)
  {
    if msg.block1.Some? && msg.block1.value.num != c.txBlockNum then
      (Reset(c).(lastResult := ReceivingResponse), Silent)
    else
      var (c1, out) := TakeCode(Adjust(c, msg.block1), msg, ok);
      (AfterCode(c1, msg), out)
  }

  /** One call of loop. */
  function Step(c: Client, e: Event, ok: bool): (Client, Output)
  {
    var c0 := c.(lastResult := NoError);
    if c.state.SendRequest? || c.state.ResponseStarted? || c.state.WaitingForResponse? then
      match e
      case Nothing => (c0, Silent)
      case Response(msg) => Respond(c0, msg, ok)
      case Failed => (c0.(lastResult := RequestFailed, state := Idle), Silent)
    else (c0, Silent)
  }

  // ---------- the client ----------

  class TembooCoAPClient {
    var state: State
    var blockSize: nat
    var dataLen: nat
    const dataBuffer: array<Byte>
    const respBuffer: array<Byte>
    var respLen: nat
    var txIndex: nat
    var txByteCount: nat
    var txBlockNum: nat
    var rxBlockNum: nat
    var lastResult: Result

    ghost predicate Valid()
      reads this
    {
      && dataBuffer.Length == respBuffer.Length == MAX_DATA_SIZE && dataBuffer != respBuffer
      && dataLen <= MAX_DATA_SIZE && respLen < MAX_DATA_SIZE && txIndex == txByteCount && blockSize > 0
    }

    ghost function Value(): Client
      requires Valid()
      reads this, dataBuffer, respBuffer
    {
      Client(state, blockSize, dataBuffer[..dataLen], txByteCount, txBlockNum, rxBlockNum, respBuffer[..respLen],
          lastResult)
    }

    constructor ()
      ensures Valid() && fresh(dataBuffer) && fresh(respBuffer)
      ensures Value() == Client(Idle, MAX_BLOCK_SIZE, [], 0, 0, 0, [], NoError)
    {
      state, blockSize, lastResult := Idle, MAX_BLOCK_SIZE, NoError;
      dataLen, respLen, txIndex, txByteCount, txBlockNum, rxBlockNum := 0, 0, 0, 0, 0, 0;
      dataBuffer := new Byte[MAX_DATA_SIZE](_ => 0);
      respBuffer := new Byte[MAX_DATA_SIZE](_ => 0);
    }

    /** A byte of the request. */
    method Write(value: Byte) returns (r: Result)
      requires Valid()
      modifies this`dataLen, this`txByteCount, this`txIndex, dataBuffer
      ensures Valid()
      ensures var c := old(Value());
        if |c.data| < MAX_DATA_SIZE then r == NoError && Value() == c.(data := c.data + [value], txByteCount := 0)
        else r == BufferFull && Value() == c
    {
      if dataLen >= MAX_DATA_SIZE { return BufferFull; }
      dataBuffer[dataLen] := value;
      dataLen := dataLen + 1;
      txByteCount := 0;
      txIndex := 0;
      return NoError;
    }

    method ResetChoreo()
      requires Valid()
      modifies this`dataLen, this`respLen, this`txIndex, this`txByteCount, this`rxBlockNum
      ensures Valid() && Value() == Reset(old(Value()))
    {
      dataLen := 0;
      respLen := 0;
      txIndex := 0;
      txByteCount := 0;
      rxBlockNum := 0;
    }

    /** The number and the payload of the next block, and whether more will follow. */
    method ComposeBlock() returns (num: nat, payload: seq<Byte>, more: bool)
      requires Valid() && txByteCount <= dataLen
      ensures Block(num, blockSize, payload, more) == NextBlock(Value())
    {
      var from, end := txByteCount, if dataLen - txByteCount < blockSize then dataLen else txByteCount + blockSize;
      DividedIsQuotient(from, blockSize);
      num := from / blockSize;
      payload := dataBuffer[..dataLen][from..end];
      more := end < dataLen;
    }

    /** One block of the request, the next ones being asked for by the server. */
    method SendChoreoRequest(ok: bool) returns (block: Block)
      requires Valid() && txByteCount <= dataLen
      modifies this`state, this`txIndex, this`txByteCount, this`txBlockNum
      ensures Valid() && Value() == AfterSend(old(Value()), ok) && block == NextBlock(old(Value()))
    {
      var num, payload, more := ComposeBlock();
      block := Block(num, blockSize, payload, more);
      txBlockNum := num;
      if ok {
        state := SendRequest;
        txIndex := txIndex + |payload|;
        txByteCount := txByteCount + |payload|;
      } else {
        state := Error;
      }
    }

    method SaveResponse(values: seq<Byte>)
      requires Valid()
      modifies this`respLen, this`lastResult, respBuffer
      ensures Valid() && Value() == Save(old(Value()), values)
    {
      var at := respLen;
      var room := MAX_DATA_SIZE - at - 1;
      var len := if |values| < room then |values| else room;
      ghost var c := Value();
      TruncatedAppend(c.resp, values);
      for i := 0 to len
        invariant respBuffer[..at + i] == c.resp + values[..i]
        invariant dataBuffer[..dataLen] == c.data && respLen == at && lastResult == c.lastResult
      {
        respBuffer[at + i] := values[i];
      }
      if len > 0 {
        respLen := respLen + len;
        lastResult := NoError;
      } else {
        lastResult := BufferFull;
      }
    }

    method AdjustRequestBlockSize(b: Option<Block1>)
      requires Valid()
      modifies this`blockSize
      ensures Valid() && Value() == Adjust(old(Value()), b)
    {
      match b
      case None =>
      case Some(option) =>
        var newBlockSize := option.size;
        if newBlockSize > 0 && newBlockSize < blockSize { blockSize := newBlockSize; }
    }

    method Abort(r: Result)
      requires Valid()
      modifies this
      ensures Valid() && Value() == Reset(old(Value())).(lastResult := r, state := Idle)
    {
      ResetChoreo();
      lastResult := r;
      state := Idle;
    }

    method TakeResponseBlock(b: Block2, payload: seq<Byte>) returns (out: Output)
      requires Valid()
      modifies this, respBuffer
      ensures Valid() && (Value(), out) == TakeBlock(old(Value()), b, payload)
    {
      if b.num > rxBlockNum {
        Abort(ReceivingResponse);
        return Silent;
      } else if b.num < rxBlockNum {
        lastResult := NoError;
        state := ResponseStarted;
        return AskFor(rxBlockNum);
      } else {
        SaveResponse(payload);
        if b.more {
          rxBlockNum := rxBlockNum + 1;
          state := ResponseStarted;
          return AskFor(rxBlockNum);
        } else {
          state := ResponseReady;
          return Silent;
        }
      }
    }

    /** The cases of the response code. */
    method TakeResponse(msg: Msg, ok: bool) returns (out: Output)
      requires Valid()
      modifies this, respBuffer
      ensures Valid() && (Value(), out) == TakeCode(old(Value()), msg, ok)
    {
      if msg.code == Continue {
        if txIndex >= dataLen {
          Abort(RequestFailed);
          return Silent;
        }
        var block := SendChoreoRequest(ok);
        if !ok {
          Abort(RequestFailed);
          return Silent;
        }
        return SendBlock(block);
      } else if msg.code == RequestEntityIncomplete || msg.code == RequestEntityTooLarge {
        Abort(RequestFailed);
        return Silent;
      }
      dataLen := 0;
      if msg.block2.Some? {
        out := TakeResponseBlock(msg.block2.value, msg.payload);
        return;
      }
      if msg.code == Empty {
        state := WaitingForResponse;
      } else {
        SaveResponse(msg.payload);
        state := ResponseReady;
      }
      return Silent;
    }

    method TakeMessage(msg: Msg, ok: bool) returns (out: Output)
      requires Valid()
      modifies this, respBuffer
      ensures Valid() && (Value(), out) == Respond(old(Value()), msg, ok)
    {
      hide TakeCode;
      if msg.block1.Some? {
        if msg.block1.value.num != txBlockNum {
          ResetChoreo();
          lastResult := ReceivingResponse;
          return Silent;
        }
        AdjustRequestBlockSize(msg.block1);
      }
      out := TakeResponse(msg, ok);
      if msg.block2.Some? && msg.block2.value.num == rxBlockNum {
        AdjustRequestBlockSize(msg.block1);
        rxBlockNum := rxBlockNum + 1;
      }
    }

    method Loop(e: Event, ok: bool) returns (out: Output)
      requires Valid()
      modifies this, respBuffer
      ensures Valid() && (Value(), out) == Step(old(Value()), e, ok)
    {
      lastResult := NoError;
      out := Silent;
      if state.SendRequest? || state.ResponseStarted? || state.WaitingForResponse? {
        match e
        case Nothing =>
        case Response(msg) => out := TakeMessage(msg, ok);
        case Failed =>
          lastResult := RequestFailed;
          state := Idle;
      }
    }
  }

  lemma TruncatedAppend(s: seq<Byte>, values: seq<Byte>)
    requires |s| < MAX_DATA_SIZE
    ensures var n := Min(|values|, MAX_DATA_SIZE - |s| - 1);
      Truncated(s + values) == s + values[..n]
  {
  }
}
