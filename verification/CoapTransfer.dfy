/**
 Whole transfers of the CoAP client: what all blocks of a request, and all blocks of a
 response, add up to, whatever the server sends and however the layer below fails.
 */
module CoapTransfer {
  import opened Basics
  import opened Bytes
  import opened CoapOption
  import opened CoapClient

  // ---------- the request ----------

  /** The sizes that the client can come to use. */
  predicate Usable(size: nat) { size == 16 || size == 32 || size == 64 }

  /** A whole number of blocks of this size. */
  predicate Whole(n: nat, size: nat)
    requires Usable(size)
  {
    if size == 16 then n % 16 == 0 else if size == 32 then n % 32 == 0 else n % 64 == 0
  }

  lemma OneLess(n: nat, size: nat)
    requires Usable(size) && Whole(n, size) && n > 0
    ensures n >= size && Whole(n - size, size)
  {
  }

  lemma {:induction false} WholeDivides(n: nat, size: nat)
    requires Usable(size) && Whole(n, size)
    ensures Divided(n, size) * size == n
    decreases n
  {
    if n > 0 {
      OneLess(n, size);
      WholeDivides(n - size, size);
      var q := Divided(n - size, size);
      assert (1 + q) * size == q * size + size;
    }
  }

  lemma OneMore(n: nat, size: nat)
    requires Usable(size) && Whole(n, size)
    ensures Whole(n + size, size)
  {
    AddMultiple(n, size, 16);
    AddMultiple(n, size, 32);
    AddMultiple(n, size, 64);
  }

  lemma AddMultiple(n: nat, size: nat, d: nat)
    requires d > 0
    ensures size == d ==> (n + size) % d == n % d
  {
    Grows(n / d, d);
    Quotient(n + d, d, n / d + 1, n % d);
  }

  /** Whole blocks of one size are whole blocks of a smaller one. */
  lemma SmallerWhole(n: nat, size: nat, smaller: nat)
    requires Usable(size) && Usable(smaller) && smaller <= size && Whole(n, size)
    ensures Whole(n, smaller)
  {
  }

  function Total(blocks: seq<Block>): nat
    decreases |blocks|
  {
    if blocks == [] then 0 else Total(blocks[..|blocks| - 1]) + |blocks[|blocks| - 1].payload|
  }

  function Payloads(blocks: seq<Block>): (p: seq<Byte>)
    ensures |p| == Total(blocks)
    decreases |blocks|
  {
    if blocks == [] then [] else Payloads(blocks[..|blocks| - 1]) + blocks[|blocks| - 1].payload
  }

  /** The block of the data at an offset: its number times its size is the offset. */
  ghost predicate BlockAt(b: Block, data: seq<Byte>, offset: nat) {
    && Usable(b.size) && offset <= |data| && b.num * b.size == offset
    && b.payload == data[offset..offset + Min(|data| - offset, b.size)]
    && (b.more <==> offset + |b.payload| < |data|)
  }

  /** Each block begins where the ones before it end. */
  ghost predicate InOrder(blocks: seq<Block>, data: seq<Byte>)
    decreases |blocks|
  {
    blocks == [] ||
    var front := blocks[..|blocks| - 1];
    InOrder(front, data) && BlockAt(blocks[|blocks| - 1], data, Total(front))
  }

  lemma {:induction false} InOrderPayloads(blocks: seq<Block>, data: seq<Byte>)
    requires InOrder(blocks, data)
    ensures Total(blocks) <= |data| && Payloads(blocks) == data[..Total(blocks)]
    decreases |blocks|
  {
    if blocks != [] {
      var front, b := blocks[..|blocks| - 1], blocks[|blocks| - 1];
      InOrderPayloads(front, data);
      assert data[..Total(front)] + data[Total(front)..Total(blocks)] == data[..Total(blocks)];
    }
  }

  lemma InOrderAppend(blocks: seq<Block>, b: Block, data: seq<Byte>)
    requires InOrder(blocks, data) && BlockAt(b, data, Total(blocks))
    ensures InOrder(blocks + [b], data) && Total(blocks + [b]) == Total(blocks) + |b.payload|
  {
    assert (blocks + [b])[..|blocks|] == blocks;
  }

  /** In the middle of a request, or after its end or failure, when the client has forgotten the data. */
  ghost predicate Uploading(c: Client, blocks: seq<Block>, data: seq<Byte>) {
    && InOrder(blocks, data) && Usable(c.blockSize) && |c.resp| < MAX_DATA_SIZE
    && (c.data == [] ||
        (c.data == data && c.txByteCount == Total(blocks) &&
         (c.txByteCount < |data| ==> Whole(c.txByteCount, c.blockSize))))
  }

  ghost predicate Sensible(msg: Msg) {
    msg.block1.Some? ==> msg.block1.value.size == 0 || Standard(msg.block1.value.size)
  }

  lemma AdjustKeeps(c: Client, blocks: seq<Block>, data: seq<Byte>, b: Option<Block1>)
    requires Uploading(c, blocks, data) && (b.Some? ==> b.value.size == 0 || Standard(b.value.size))
    ensures Uploading(Adjust(c, b), blocks, data)
  {
    if b.Some? && 0 < b.value.size < c.blockSize && c.txByteCount < |data| && c.data != [] {
      SmallerWhole(c.txByteCount, c.blockSize, b.value.size);
    }
  }

  /** The next block is the one that belongs at the offset reached. */
  lemma NextBlockFits(c: Client, data: seq<Byte>, offset: nat)
    requires c.data == data && c.txByteCount == offset <= |data| && Usable(c.blockSize) && Whole(offset, c.blockSize)
    ensures BlockAt(NextBlock(c), data, offset)
    ensures offset + |NextBlock(c).payload| < |data| ==> Whole(offset + |NextBlock(c).payload|, c.blockSize)
  {
    WholeDivides(offset, c.blockSize);
    OneMore(offset, c.blockSize);
    assert |NextBlock(c).payload| == Min(|data| - offset, c.blockSize);
  }

  lemma SendKeeps(c: Client, blocks: seq<Block>, data: seq<Byte>)
    requires Uploading(c, blocks, data) && c.data == data && c.txByteCount < |data|
    ensures Uploading(AfterSend(c, true), blocks + [NextBlock(c)], data)
  {
    NextBlockFits(c, data, c.txByteCount);
    InOrderAppend(blocks, NextBlock(c), data);
  }

  /** The blocks so far, and the one just sent if there is one. */
  function Sent(blocks: seq<Block>, out: Output): seq<Block> {
    match out case SendBlock(b) => blocks + [b] case _ => blocks
  }

  /** What does not matter for the request. */
  lemma SameUpload(c: Client, c': Client, blocks: seq<Block>, data: seq<Byte>)
    requires Uploading(c, blocks, data)
    requires c'.data == c.data && c'.txByteCount == c.txByteCount && c'.blockSize == c.blockSize && c'.resp == c.resp
    ensures Uploading(c', blocks, data)
  {
  }

  lemma ForgottenUpload(c: Client, c': Client, blocks: seq<Block>, data: seq<Byte>)
    requires Uploading(c, blocks, data) && c'.data == [] && c'.blockSize == c.blockSize && |c'.resp| < MAX_DATA_SIZE
    ensures Uploading(c', blocks, data)
  {
  }

  lemma CodeKeeps(c: Client, blocks: seq<Block>, data: seq<Byte>, msg: Msg, ok: bool)
    requires Uploading(c, blocks, data)
    ensures var (c', out) := TakeCode(c, msg, ok); Uploading(c', Sent(blocks, out), data)
  {
    hide InOrder, Whole, Total, NextBlock, BlockAt, Usable;
    var (c', out) := TakeCode(c, msg, ok);
    if msg.code.Continue? && c.txByteCount < |c.data| && ok {
      SendKeeps(c, blocks, data);
    } else {
      assert Sent(blocks, out) == blocks;
      ForgottenUpload(c, c', blocks, data);
    }
  }

  lemma AfterCodeKeeps(c: Client, blocks: seq<Block>, data: seq<Byte>, msg: Msg)
    requires Uploading(c, blocks, data) && Sensible(msg)
    ensures Uploading(AfterCode(c, msg), blocks, data)
  {
    AdjustKeeps(c, blocks, data, msg.block1);
    if AfterCode(c, msg) != c { SameUpload(Adjust(c, msg.block1), AfterCode(c, msg), blocks, data); }
  }

  lemma RespondUploads(c: Client, blocks: seq<Block>, data: seq<Byte>, msg: Msg, ok: bool)
    requires Uploading(c, blocks, data) && Sensible(msg)
    ensures var (c', out) := Respond(c, msg, ok); Uploading(c', Sent(blocks, out), data)
  {
    if msg.block1.Some? && msg.block1.value.num != c.txBlockNum {
      ForgottenUpload(c, Reset(c).(lastResult := ReceivingResponse), blocks, data);
    } else {
      var c1 := Adjust(c, msg.block1);
      AdjustKeeps(c, blocks, data, msg.block1);
      CodeKeeps(c1, blocks, data, msg, ok);
      var (c2, out) := TakeCode(c1, msg, ok);
      AfterCodeKeeps(c2, Sent(blocks, out), data, msg);
    }
  }

  /** Every call of loop keeps the request in order. */
  lemma StepKeeps(c: Client, blocks: seq<Block>, data: seq<Byte>, e: Event, ok: bool)
    requires Uploading(c, blocks, data) && (e.Response? ==> Sensible(e.msg))
    ensures var (c', out) := Step(c, e, ok); Uploading(c', Sent(blocks, out), data)
  {
    var c0 := c.(lastResult := NoError);
    SameUpload(c, c0, blocks, data);
    SameUpload(c, c0.(lastResult := RequestFailed, state := Idle), blocks, data);
    if e.Response? { RespondUploads(c0, blocks, data, e.msg, ok); }
  }

  /** What comes from below at one call of loop, and whether a block can be sent. */
  datatype Turn = Turn(event: Event, ok: bool)

  /** The client after some calls of loop, and the blocks it has sent. */
  function Run(c: Client, blocks: seq<Block>, turns: seq<Turn>): (Client, seq<Block>)
    decreases |turns|
  {
    if turns == [] then (c, blocks)
    else
      var last := turns[|turns| - 1];
      var (c1, blocks1) := Run(c, blocks, turns[..|turns| - 1]);
      var (c2, out) := Step(c1, last.event, last.ok);
      (c2, Sent(blocks1, out))
  }

  lemma {:induction false} RunUploads(c: Client, blocks: seq<Block>, data: seq<Byte>, turns: seq<Turn>)
    requires Uploading(c, blocks, data)
    requires forall t :: t in turns && t.event.Response? ==> Sensible(t.event.msg)
    ensures var (c', blocks') := Run(c, blocks, turns); Uploading(c', blocks', data)
    decreases |turns|
  {
    if turns != [] {
      var n := |turns| - 1;
      RunUploads(c, blocks, data, turns[..n]);
      var (c1, blocks1) := Run(c, blocks, turns[..n]);
      StepKeeps(c1, blocks1, data, turns[n].event, turns[n].ok);
    }
  }

  /** A request that has been written and not yet sent. */
  ghost predicate Written(c: Client, data: seq<Byte>) {
    c.data == data && c.txByteCount == 0 && Usable(c.blockSize) && |c.resp| < MAX_DATA_SIZE
  }

  /** What the first call of sendChoreoRequest sends. */
  function FirstBlock(c: Client, ok: bool): seq<Block>
    requires c.txByteCount <= |c.data|
  {
    if ok then [NextBlock(c)] else []
  }

  /** The first block of a request is in order. */
  lemma RequestBegins(c: Client, data: seq<Byte>, ok: bool)
    requires Written(c, data)
    ensures Uploading(AfterSend(c, ok), FirstBlock(c, ok), data)
  {
    NextBlockFits(c, data, 0);
    InOrderAppend([], NextBlock(c), data);
    assert [] + [NextBlock(c)] == [NextBlock(c)];
  }

  /**
     A request: from the first block on, whatever the server answers and whenever it asks
     for smaller blocks, each block's number times its size is the number of bytes sent
     before it, the payloads are the data in order, and the whole of it once a block
     says that no more will follow.
   */
  lemma RequestInOrder(c: Client, data: seq<Byte>, ok: bool, turns: seq<Turn>)
    requires Written(c, data)
    requires forall t :: t in turns && t.event.Response? ==> Sensible(t.event.msg)
    ensures var all := Run(AfterSend(c, ok), FirstBlock(c, ok), turns).1;
      && InOrder(all, data) && Payloads(all) <= data
      && (all != [] && !all[|all| - 1].more ==> Payloads(all) == data)
  {
    var all := Run(AfterSend(c, ok), FirstBlock(c, ok), turns).1;
    RequestBegins(c, data, ok);
    RunUploads(AfterSend(c, ok), FirstBlock(c, ok), data, turns);
    InOrderPayloads(all, data);
    if all != [] && !all[|all| - 1].more { assert data[..|data|] == data; }
  }

  // ---------- the Block1 options of a request ----------

  /** The option that goes with a block when there is more than one, and what the server reads in it. */
  function OptionOf(b: Block): seq<Byte> { Encode(b.num, b.more, SizeExponent(b.size)) }

  ghost predicate OptionRight(b: Block) {
    && b.num < 63 && b.size <= MAX_BLOCK_SIZE
    && BlockNum(OptionOf(b)) == b.num && (BlockMore(OptionOf(b)) <==> b.more) && SizeOf(BlockSzx(OptionOf(b))) == b.size
  }

  lemma BlockOption(b: Block, data: seq<Byte>, offset: nat)
    requires |data| <= MAX_DATA_SIZE && BlockAt(b, data, offset)
    ensures OptionRight(b)
  {
    assert b.num < 63 by {
      if b.size == 16 {} else if b.size == 32 {} else {}
    }
    ExponentRight(b.size);
    OptionRoundTrip(b.num, b.more, SizeExponent(b.size));
  }

  lemma {:induction false} InOrderOptions(blocks: seq<Block>, data: seq<Byte>)
    requires |data| <= MAX_DATA_SIZE && InOrder(blocks, data)
    ensures forall b :: b in blocks ==> OptionRight(b)
    decreases |blocks|
  {
    if blocks != [] {
      var front, last := blocks[..|blocks| - 1], blocks[|blocks| - 1];
      InOrderOptions(front, data);
      BlockOption(last, data, Total(front));
      assert blocks == front + [last];
    }
  }

  /** Over every run the option of each block sent decodes to that block's number, flag and size. */
  lemma RequestOptions(c: Client, data: seq<Byte>, ok: bool, turns: seq<Turn>)
    requires Written(c, data) && |data| <= MAX_DATA_SIZE
    requires forall t :: t in turns && t.event.Response? ==> Sensible(t.event.msg)
    ensures forall b :: b in Run(AfterSend(c, ok), FirstBlock(c, ok), turns).1 ==> OptionRight(b)
  {
    RequestInOrder(c, data, ok, turns);
    InOrderOptions(Run(AfterSend(c, ok), FirstBlock(c, ok), turns).1, data);
  }

  // ---------- the response ----------

  /** The blocks of a response, each always the same; the last one has number `last`. */
  datatype Server = Server(payloads: nat -> seq<Byte>, last: nat)

  /** Blocks 0 to n - 1, in order. */
  function Collected(s: Server, n: nat): seq<Byte> {
    if n == 0 then [] else Collected(s, n - 1) + s.payloads(n - 1)
  }

  /** A message that this server can send: any of its blocks at any time, an only block also
      without a Block2 option, an empty acknowledgement, a request to go on with the next
      block, or an error. */
  ghost predicate FromServer(msg: Msg, s: Server) {
    match msg.block2
    case None => msg.code == Other ==> s.last == 0 && msg.payload == s.payloads(0)
    case Some(b) =>
      msg.code == Other && b.num <= s.last && msg.payload == s.payloads(b.num) && (b.more <==> b.num < s.last)
  }

  ghost predicate Active(c: Client) {
    c.state.SendRequest? || c.state.WaitingForResponse? || c.state.ResponseStarted?
  }

  /** What the buffer holds, and that a finished response is complete. */
  ghost predicate Downloading(c: Client, s: Server) {
    && c.blockSize > 0 && |c.resp| < MAX_DATA_SIZE
    && (Active(c) ==> c.rxBlockNum <= s.last && c.resp == Truncated(Collected(s, c.rxBlockNum)))
    && (c.state.ResponseReady? ==> c.resp == Truncated(Collected(s, s.last + 1)))
  }

  lemma TruncatedOnce(a: seq<Byte>, b: seq<Byte>)
    ensures Truncated(Truncated(a) + b) == Truncated(a + b)
  {
  }

  lemma BlockKeeps(c: Client, s: Server, b: Block2, msg: Msg)
    requires Downloading(c, s) && Active(c) && FromServer(msg, s) && msg.block2 == Some(b)
    ensures var (c1, out) := TakeBlock(c, b, msg.payload);
      && Downloading(AfterCode(c1, msg), s)
      && (out.AskFor? ==> out.num == AfterCode(c1, msg).rxBlockNum)
  {
    if b.num == c.rxBlockNum {
      TruncatedOnce(Collected(s, b.num), msg.payload);
    }
  }

  lemma RespondKeeps(c: Client, s: Server, msg: Msg, ok: bool)
    requires Downloading(c, s) && Active(c) && FromServer(msg, s)
    ensures var (c', out) := Respond(c, msg, ok);
      Downloading(c', s) && (out.AskFor? ==> out.num == c'.rxBlockNum)
  {
    var c1 := Adjust(c, msg.block1).(data := []);
    if msg.block2.Some? {
      hide TakeBlock, Truncated, Collected, AfterCode;
      BlockKeeps(c1, s, msg.block2.value, msg);
    } else if msg.code == Other {
      WholeAtOnce(c1, s, msg);
    } else {
      hide Truncated, Collected;
    }
  }

  /** An only block without a Block2 option. */
  lemma WholeAtOnce(c: Client, s: Server, msg: Msg)
    requires Downloading(c, s) && Active(c) && FromServer(msg, s) && msg.block2.None? && msg.code == Other
    ensures Downloading(Save(c, msg.payload).(state := ResponseReady), s)
  {
    assert Collected(s, 1) == Collected(s, 0) + s.payloads(0) == s.payloads(0);
    assert c.resp == [] && c.resp + msg.payload == msg.payload;
  }

  /**
     Every call of loop keeps this: while a response is being received, the buffer holds
     the server's blocks 0 to rxBlockNum - 1, each once and in order, cut off at 999 bytes,
     however often old blocks are repeated; and it is ready only with all of them in.
   */
  lemma LoopKeeps(c: Client, s: Server, e: Event, ok: bool)
    requires Downloading(c, s) && (e.Response? ==> FromServer(e.msg, s))
    ensures var (c', out) := Step(c, e, ok);
      Downloading(c', s) && (out.AskFor? ==> out.num == c'.rxBlockNum)
  {
    if Active(c) && e.Response? { RespondKeeps(c.(lastResult := NoError), s, e.msg, ok); }
  }

  /** The client after some calls of loop. */
  function Receive(c: Client, turns: seq<Turn>): Client
    decreases |turns|
  {
    if turns == [] then c
    else
      var last := turns[|turns| - 1];
      Step(Receive(c, turns[..|turns| - 1]), last.event, last.ok).0
  }

  /** A request is under way and nothing has been received. */
  ghost predicate Awaiting(c: Client) {
    Active(c) && c.blockSize > 0 && c.resp == [] && c.rxBlockNum == 0
  }

  lemma ResponseBegins(c: Client, s: Server)
    requires Awaiting(c)
    ensures Downloading(c, s)
  {
    assert Truncated(Collected(s, 0)) == [];
  }

  lemma {:induction false} ReceiveKeeps(c: Client, s: Server, turns: seq<Turn>)
    requires Downloading(c, s)
    requires forall t :: t in turns && t.event.Response? ==> FromServer(t.event.msg, s)
    ensures Downloading(Receive(c, turns), s)
    decreases |turns|
  {
    if turns != [] {
      var n := |turns| - 1;
      ReceiveKeeps(c, s, turns[..n]);
      LoopKeeps(Receive(c, turns[..n]), s, turns[n].event, turns[n].ok);
    }
  }

  /** From the request on: a response that is ready is the whole response, cut off at 999 bytes. */
  lemma ResponseComplete(c: Client, s: Server, turns: seq<Turn>)
    requires Awaiting(c)
    requires forall t :: t in turns && t.event.Response? ==> FromServer(t.event.msg, s)
    ensures var c' := Receive(c, turns);
      && (c'.state.ResponseReady? ==> c'.resp == Truncated(Collected(s, s.last + 1)))
      && (Active(c') ==> c'.resp == Truncated(Collected(s, c'.rxBlockNum)) && c'.rxBlockNum <= s.last)
  {
    ResponseBegins(c, s);
    ReceiveKeeps(c, s, turns);
  }
}
