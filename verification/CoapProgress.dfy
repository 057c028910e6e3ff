/**
 What the CoAP client gets done: with a server that goes on asking, the whole request is
 sent, and with one that delivers its blocks, the whole response is reported.
 */
module CoapProgress {
  import opened Basics
  import opened Bytes
  import opened CoapClient
  import opened CoapTransfer

  // ---------- the request ----------

  /** A turn in which nothing comes, or the server, told that there is more, asks for the next
      block: with or without the number of the block just sent, and a smaller size or none. */
  ghost predicate Asks(c: Client, t: Turn) {
    match t.event
    case Nothing => true
    case Failed => false
    case Response(msg) =>
      && t.ok && msg.code == Continue && c.txByteCount < |c.data| && Sensible(msg)
      && (msg.block1.Some? ==> msg.block1.value.num == c.txBlockNum)
  }

  ghost predicate AsksOn(c: Client, turns: seq<Turn>)
    decreases |turns|
  {
    turns == [] ||
    var n := |turns| - 1;
    AsksOn(c, turns[..n]) && Asks(Run(c, [], turns[..n]).0, turns[n])
  }

  /** How often the server has asked. */
  function Asked(turns: seq<Turn>): nat
    decreases |turns|
  {
    if turns == [] then 0 else Asked(turns[..|turns| - 1]) + if turns[|turns| - 1].event.Response? then 1 else 0
  }

  /** The smaller of a block size and the one asked for; a size of 0 is none. */
  function Adopted(size: nat, t: Turn): nat {
    if t.event.Response? && t.event.msg.block1.Some? && t.event.msg.block1.value.size > 0 then
      Min(size, t.event.msg.block1.value.size)
    else
      size
  }

  /** The smallest block size that there was or that has been asked for. */
  function Smallest(size: nat, turns: seq<Turn>): nat
    decreases |turns|
  {
    if turns == [] then size else Adopted(Smallest(size, turns[..|turns| - 1]), turns[|turns| - 1])
  }

  /** Under way, and no block smaller than the present size allows. */
  ghost predicate Going(c: Client, blocks: seq<Block>, data: seq<Byte>) {
    && Uploading(c, blocks, data) && c.state.SendRequest? && c.data == data && blocks != []
    && c.txByteCount == Total(blocks) && c.txBlockNum == blocks[|blocks| - 1].num
    && Total(blocks) >= Min(|data|, |blocks| * c.blockSize)
    && (|blocks| > 1 ==> 16 * (|blocks| - 1) < |data|)
  }

  lemma SmallerProduct(k: nat, s: nat, s': nat)
    requires s' <= s
    ensures k * s' <= k * s
  {
  }

  /** One more block of at most the size before. */
  lemma OneMoreBlock(c: Client, c1: Client, blocks: seq<Block>, data: seq<Byte>)
    requires Going(c, blocks, data) && Uploading(c1, blocks, data) && c1.data == data && c.txByteCount < |data|
    requires c1.txByteCount == c.txByteCount && c1.blockSize <= c.blockSize
    ensures Going(AfterSend(c1, true), blocks + [NextBlock(c1)], data)
  {
    hide InOrder, Whole, Payloads, BlockAt, Divided;
    SendKeeps(c1, blocks, data);
    NextBlockFits(c1, data, c1.txByteCount);
    InOrderAppendTotal(blocks, NextBlock(c1));
    SmallerProduct(|blocks|, c.blockSize, c1.blockSize);
    SmallerProduct(|blocks|, c.blockSize, 16);
    Grows(|blocks|, c1.blockSize);
  }

  lemma InOrderAppendTotal(blocks: seq<Block>, b: Block)
    ensures Total(blocks + [b]) == Total(blocks) + |b.payload|
  {
    assert (blocks + [b])[..|blocks|] == blocks;
  }

  predicate Numbered(msg: Msg, n: nat) { msg.block2.Some? && msg.block2.value.num == n }

  /** A question is answered with the next block, in the size asked for. */
  lemma StepSends(c: Client, msg: Msg)
    requires c.state.SendRequest? && c.txByteCount < |c.data| && Asks(c, Turn(Response(msg), true))
    ensures var c1 := Adjust(c.(lastResult := NoError), msg.block1);
      && c1.blockSize == Adopted(c.blockSize, Turn(Response(msg), true))
      && Step(c, Response(msg), true) == (AfterCode(AfterSend(c1, true), msg), SendBlock(NextBlock(c1)))
  {
    hide AfterCode, AfterSend, NextBlock;
  }

  /** What a turn of this server leads to: every question is answered with a block. */
  lemma AskedStep(c: Client, blocks: seq<Block>, data: seq<Byte>, t: Turn)
    requires Going(c, blocks, data) && Asks(c, t)
    ensures var (c', out) := Step(c, t.event, t.ok);
      && Going(c', Sent(blocks, out), data)
      && (out.SendBlock? <==> t.event.Response?)
      && c'.rxBlockNum == c.rxBlockNum + (if t.event.Response? && Numbered(t.event.msg, c.rxBlockNum) then 1 else 0)
      && c'.resp == c.resp && c'.blockSize == Adopted(c.blockSize, t)
      && (out.SendBlock? ==> out.block.size == c'.blockSize)
  {
    hide InOrder, Whole, Total, BlockAt, TakeCode, Respond;
    if t.event.Response? {
      var c0 := c.(lastResult := NoError);
      var c1 := Adjust(c0, t.event.msg.block1);
      StepSends(c, t.event.msg);
      SameUpload(c, c0, blocks, data);
      AdjustKeeps(c0, blocks, data, t.event.msg.block1);
      OneMoreBlock(c, c1, blocks, data);
      var c2 := AfterSend(c1, true);
      AfterCodeKeeps(c2, blocks + [NextBlock(c1)], data, t.event.msg);
      assert Adjust(c2, t.event.msg.block1) == c2;
    } else {
      SameUpload(c, c.(lastResult := NoError), blocks, data);
    }
  }

  /** The blocks sent before do not matter to what the client does. */
  lemma {:induction false} RunClient(c: Client, blocks: seq<Block>, turns: seq<Turn>)
    ensures Run(c, blocks, turns).0 == Run(c, [], turns).0
    decreases |turns|
  {
    if turns != [] { RunClient(c, blocks, turns[..|turns| - 1]); }
  }

  lemma {:induction false} RunGoes(c: Client, blocks: seq<Block>, data: seq<Byte>, turns: seq<Turn>)
    requires Going(c, blocks, data) && AsksOn(c, turns)
    ensures var (c', blocks') := Run(c, blocks, turns);
      && Going(c', blocks', data) && |blocks'| == |blocks| + Asked(turns) && c'.resp == c.resp
      && c'.blockSize == Smallest(c.blockSize, turns)
      && ((forall t :: t in turns && t.event.Response? ==> t.event.msg.block2.None?) ==> c'.rxBlockNum == c.rxBlockNum)
    decreases |turns|
  {
    if turns != [] {
      hide Going, Step, Asks, Adopted;
      var n := |turns| - 1;
      RunGoes(c, blocks, data, turns[..n]);
      RunClient(c, blocks, turns[..n]);
      var (c1, blocks1) := Run(c, blocks, turns[..n]);
      AskedStep(c1, blocks1, data, turns[n]);
      assert turns[n] in turns && forall t :: t in turns[..n] ==> t in turns;
    }
  }

  lemma FirstGoes(c: Client, data: seq<Byte>)
    requires Written(c, data)
    ensures Going(AfterSend(c, true), [NextBlock(c)], data) && AfterSend(c, true).blockSize == c.blockSize
  {
    RequestBegins(c, data, true);
    NextBlockFits(c, data, 0);
    InOrderAppendTotal([], NextBlock(c));
    assert [] + [NextBlock(c)] == [NextBlock(c)];
  }

  /**
     Progress of a request: one block for every question, none smaller than it has to be, and
     so, after no more questions than that takes, the last one says that no more will follow
     and the payloads are the data. No server that asks only when told that there is more can
     ask more than that. The sizes are the smallest ones asked for.
   */
  lemma RequestCompletes(c: Client, data: seq<Byte>, turns: seq<Turn>)
    requires Written(c, data) && AsksOn(AfterSend(c, true), turns)
    ensures var (c', blocks) := Run(AfterSend(c, true), [NextBlock(c)], turns);
      && |blocks| == 1 + Asked(turns) && c'.state.SendRequest?
      && Usable(c'.blockSize) && c'.blockSize == Smallest(c.blockSize, turns)
      && (Payloads(blocks) == data <==> !blocks[|blocks| - 1].more)
      && (|blocks| * c'.blockSize >= |data| ==> Payloads(blocks) == data)
      && (|blocks| > 1 ==> 16 * (|blocks| - 1) < |data|)
  {
    hide Run, NextBlock, AfterSend, Going, AsksOn, Payloads, Usable;
    FirstGoes(c, data);
    RunGoes(AfterSend(c, true), [NextBlock(c)], data, turns);
    var (c', blocks) := Run(AfterSend(c, true), [NextBlock(c)], turns);
    GoingSent(c', blocks, data);
  }

  lemma GoingSent(c: Client, blocks: seq<Block>, data: seq<Byte>)
    requires Going(c, blocks, data)
    ensures blocks != [] && c.state.SendRequest? && Usable(c.blockSize)
    ensures |blocks| > 1 ==> 16 * (|blocks| - 1) < |data|
    ensures Payloads(blocks) == data <==> !blocks[|blocks| - 1].more
    ensures |blocks| * c.blockSize >= |data| ==> Payloads(blocks) == data
  {
    hide Whole, Usable;
    InOrderPayloads(blocks, data);
    assert data[..|data|] == data;
  }

  // ---------- the response ----------

  /** A turn in which nothing comes, or this server acknowledges, or delivers the block expected or an old one. */
  ghost predicate Delivers(c: Client, s: Server, e: Event) {
    match e
    case Nothing => true
    case Failed => false
    case Response(msg) =>
      && (msg.code == Other || msg.code == Empty) && FromServer(msg, s)
      && (msg.block1.Some? ==> msg.block1.value.num == c.txBlockNum)
      && (msg.block2.Some? ==> msg.block2.value.num <= c.rxBlockNum)
  }

  /** The block expected, or the only one. */
  ghost predicate IsNew(c: Client, e: Event) {
    && Active(c) && e.Response? && e.msg.code == Other
    && (e.msg.block2.Some? ==> e.msg.block2.value.num == c.rxBlockNum)
  }

  /** Until the response is ready; what comes afterwards does not matter. */
  ghost predicate DeliversOn(c: Client, s: Server, turns: seq<Turn>)
    decreases |turns|
  {
    turns == [] ||
    var n := |turns| - 1;
    var c1 := Receive(c, turns[..n]);
    DeliversOn(c, s, turns[..n]) && (Active(c1) ==> Delivers(c1, s, turns[n].event))
  }

  /** How many turns have brought a new block. */
  ghost function News(c: Client, turns: seq<Turn>): nat
    decreases |turns|
  {
    if turns == [] then 0
    else
      var n := |turns| - 1;
      News(c, turns[..n]) + if IsNew(Receive(c, turns[..n]), turns[n].event) then 1 else 0
  }

  /** So many blocks of the response are in. */
  ghost predicate Has(c: Client, s: Server, n: nat) {
    && Downloading(c, s) && n <= s.last + 1
    && if n <= s.last then Active(c) && c.rxBlockNum == n else c.state.ResponseReady?
  }

  /** A new block is taken, and the next one asked for unless it was the last; an old one is answered
      with the number of the one expected. */
  lemma DeliveredStep(c: Client, s: Server, e: Event, ok: bool)
    requires Downloading(c, s) && Active(c) && Delivers(c, s, e)
    ensures var (c', out) := Step(c, e, ok);
      && Has(c', s, c.rxBlockNum + if IsNew(c, e) then 1 else 0)
      && (e.Response? && e.msg.block2.Some? && Active(c') ==> out == AskFor(c'.rxBlockNum))
      && (e.Response? && e.msg.block2.Some? ==> c'.rxBlockNum == c.rxBlockNum + if IsNew(c, e) then 1 else 0)
  {
    hide Truncated, Collected;
    LoopKeeps(c, s, e, ok);
  }

  lemma {:induction false} ReceiveHas(c: Client, s: Server, turns: seq<Turn>)
    requires Has(c, s, 0) && DeliversOn(c, s, turns)
    ensures Has(Receive(c, turns), s, News(c, turns))
    decreases |turns|
  {
    if turns != [] {
      hide Delivers, Downloading;
      var n := |turns| - 1;
      ReceiveHas(c, s, turns[..n]);
      var c1 := Receive(c, turns[..n]);
      if Active(c1) {
        DeliveredStep(c1, s, turns[n].event, turns[n].ok);
      } else {
        LoopIdle(c1, s, turns[n].event, turns[n].ok);
      }
    }
  }

  /** A response that is ready stays so. */
  lemma LoopIdle(c: Client, s: Server, e: Event, ok: bool)
    requires Downloading(c, s) && !Active(c)
    ensures Step(c, e, ok).0.state == c.state && Downloading(Step(c, e, ok).0, s) && Step(c, e, ok).1 == Silent
  {
  }

  /** A payload that does not fit as a whole is cut off, and that is reported only if nothing of it fits. */
  lemma CutOff(c: Client, payload: seq<Byte>)
    requires |c.resp| < MAX_DATA_SIZE
    ensures var c' := Save(c, payload);
      && (c'.resp == c.resp + payload <==> |c.resp| + |payload| < MAX_DATA_SIZE)
      && (c'.lastResult.BufferFull? <==> payload == [] || |c.resp| == MAX_DATA_SIZE - 1)
      && c.resp <= c'.resp <= c.resp + payload
  {
  }

  /**
     Progress of a response: it is ready if and only if all its blocks have been delivered,
     however often old ones were repeated in between, and then it is the whole response, cut
     off at 999 bytes.
   */
  lemma ResponseArrives(c: Client, s: Server, turns: seq<Turn>)
    requires Awaiting(c) && DeliversOn(c, s, turns)
    ensures var c' := Receive(c, turns);
      && News(c, turns) <= s.last + 1
      && (c'.state.ResponseReady? <==> News(c, turns) == s.last + 1)
      && (c'.state.ResponseReady? ==> c'.resp == Truncated(Collected(s, s.last + 1)))
      && (!c'.state.ResponseReady? ==> Active(c') && c'.rxBlockNum == News(c, turns))
  {
    hide Receive, News;
    ResponseBegins(c, s);
    ReceiveHas(c, s, turns);
  }

  /** A block of this server as it is sent with a Block2 option. */
  function BlockMsg(s: Server, n: nat): Msg { Msg(Other, None, Some(Block2(n, n < s.last)), s.payloads(n)) }

  /** The first n blocks in order. */
  function InTurn(s: Server, n: nat): seq<Turn> {
    if n == 0 then [] else InTurn(s, n - 1) + [Turn(Response(BlockMsg(s, n - 1)), true)]
  }

  lemma InTurnStep(c: Client, s: Server, n: nat)
    requires Active(c) && c.rxBlockNum == n <= s.last
    ensures Delivers(c, s, Response(BlockMsg(s, n))) && IsNew(c, Response(BlockMsg(s, n)))
  {
  }

  lemma {:induction false} InTurnDelivers(c: Client, s: Server, n: nat)
    requires Awaiting(c) && n <= s.last + 1
    ensures DeliversOn(c, s, InTurn(s, n)) && News(c, InTurn(s, n)) == n
    decreases n
  {
    if n > 0 {
      hide Receive, Step, Delivers, IsNew, BlockMsg, Truncated, Collected;
      InTurnDelivers(c, s, n - 1);
      ResponseArrives(c, s, InTurn(s, n - 1));
      InTurnStep(Receive(c, InTurn(s, n - 1)), s, n - 1);
      var front, last := InTurn(s, n - 1), Turn(Response(BlockMsg(s, n - 1)), true);
      assert InTurn(s, n)[..|InTurn(s, n)| - 1] == front && InTurn(s, n)[|InTurn(s, n)| - 1] == last;
    }
  }

  /** Blocks delivered one after the other: the whole response is ready with the last one. */
  lemma InTurnArrives(c: Client, s: Server)
    requires Awaiting(c)
    ensures var c' := Receive(c, InTurn(s, s.last + 1));
      c'.state.ResponseReady? && c'.resp == Truncated(Collected(s, s.last + 1))
  {
    InTurnDelivers(c, s, s.last + 1);
    ResponseArrives(c, s, InTurn(s, s.last + 1));
  }

  // ---------- both ----------

  /** From the request to its response: the server has the data, and then the client the response. */
  lemma RequestAndResponse(c: Client, data: seq<Byte>, asking: seq<Turn>, s: Server, delivering: seq<Turn>)
    requires Written(c, data) && c.resp == [] && c.rxBlockNum == 0
    requires AsksOn(AfterSend(c, true), asking)
    requires forall t :: t in asking && t.event.Response? ==> t.event.msg.block2.None?
    requires var (c1, blocks) := Run(AfterSend(c, true), [NextBlock(c)], asking);
      blocks != [] && !blocks[|blocks| - 1].more && DeliversOn(c1, s, delivering) && News(c1, delivering) == s.last + 1
    ensures var (c1, blocks) := Run(AfterSend(c, true), [NextBlock(c)], asking);
      var c2 := Receive(c1, delivering);
      Payloads(blocks) == data && c2.state.ResponseReady? && c2.resp == Truncated(Collected(s, s.last + 1))
  {
    hide Run, NextBlock, News, DeliversOn;
    FirstGoes(c, data);
    RequestCompletes(c, data, asking);
    RunGoes(AfterSend(c, true), [NextBlock(c)], data, asking);
    ResponseArrives(Run(AfterSend(c, true), [NextBlock(c)], asking).0, s, delivering);
  }

  // ---------- after giving up ----------

  /** A refusal, a question when all has been sent or that cannot be answered, or a response block
      that comes too early. */
  ghost predicate Refused(c: Client, msg: Msg, ok: bool) {
    match msg.code
    case Continue => c.txByteCount >= |c.data| || !ok
    case RequestEntityIncomplete => true
    case RequestEntityTooLarge => true
    case _ => msg.block2.Some? && msg.block2.value.num > c.rxBlockNum
  }

  predicate OtherBlock(c: Client, msg: Msg) { msg.block1.Some? && msg.block1.value.num != c.txBlockNum }

  /** What ends a request: that, the number of another block, or a failure below. */
  ghost predicate Ends(c: Client, t: Turn) {
    match t.event
    case Nothing => false
    case Failed => true
    case Response(msg) => OtherBlock(c, msg) || Refused(c, msg, t.ok)
  }

  ghost predicate Reports(c: Client) { c.lastResult.RequestFailed? || c.lastResult.ReceivingResponse? }

  ghost predicate Forgotten(c: Client) { c.data == [] && c.resp == [] && c.txByteCount == 0 }

  lemma BlockEnds(c: Client, b: Block2, payload: seq<Byte>)
    requires Active(c) && !Reports(c)
    ensures var (c', out) := TakeBlock(c, b, payload);
      if b.num > c.rxBlockNum then
        Reports(c') && c'.state.Idle? && out == Silent && c'.resp == [] && c'.txByteCount == 0
      else
        !Reports(c') && (Active(c') || c'.state.ResponseReady?)
    ensures TakeBlock(c, b, payload).0.data == if b.num > c.rxBlockNum then [] else c.data
  {
    hide Truncated;
  }

  lemma CodeEnds(c: Client, msg: Msg, ok: bool)
    requires Active(c) && !Reports(c)
    ensures var (c', out) := TakeCode(c, msg, ok);
      if Refused(c, msg, ok) then Reports(c') && c'.state.Idle? && out == Silent && Forgotten(c')
      else !Reports(c') && (Active(c') || c'.state.ResponseReady?)
  {
    hide Truncated, NextBlock, PayloadLength, Divided, TakeBlock;
    if msg.block2.Some? { BlockEnds(c.(data := []), msg.block2.value, msg.payload); }
  }

  /** Exactly that is reported as an error, and answered with silence. The client is idle then, except
      that after the number of another block it goes on listening, with everything forgotten. */
  lemma GivesUp(c: Client, t: Turn)
    requires Active(c)
    ensures var (c', out) := Step(c, t.event, t.ok);
      && (Ends(c, t) <==> Reports(c'))
      && (Ends(c, t) ==> out == Silent)
      && (c'.state.Idle? <==> Ends(c, t) && !(t.event.Response? && OtherBlock(c, t.event.msg)))
      && (Ends(c, t) && t.event.Response? ==> Forgotten(c'))
      && (!c'.state.Idle? ==> Active(c') || c'.state.ResponseReady?)
  {
    if t.event.Response? {
      hide TakeCode;
      CodeEnds(Adjust(c.(lastResult := NoError), t.event.msg.block1), t.event.msg, t.ok);
    }
  }

  /** And from then on, whatever comes, nothing is sent or reported until there is a new request. */
  lemma {:induction false} StaysIdle(c: Client, blocks: seq<Block>, turns: seq<Turn>)
    requires c.state.Idle?
    ensures var (c', blocks') := Run(c, blocks, turns);
      blocks' == blocks && c' == if turns == [] then c else c.(lastResult := NoError)
    decreases |turns|
  {
    if turns != [] { StaysIdle(c, blocks, turns[..|turns| - 1]); }
  }
}
