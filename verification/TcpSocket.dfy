/** The socket object itself: two physical send buffers that swap roles, a fixed
    receive buffer parsed in place, and one method per strand handler. Each
    handler is shown to perform the corresponding step of `SocketModel` on the
    abstract value of the object. */
module TcpSockets {
  import opened Arithmetic
  import opened Wrappers

  import opened Wire
  import opened Buffers
  import M = SocketModel

  /** Writes one packet: room is made first, then head and body are copied in. */
  method PutPacket(buf: Buffer, m: Message, counter: nat)
    requires buf.Valid() && buf.curIndex == 0 && |m.body| <= BODY_MAX
    requires !GrowthWraps(buf.maxSize, buf.rearIndex, HEAD_SIZE + |m.body|)
    modifies buf, buf.data
    ensures buf.Valid() && buf.curIndex == 0
    ensures buf.data == old(buf.data) || fresh(buf.data)
    ensures buf.content == old(buf.content) + Encode(PacketOf(m, counter))
  {
    var len := |m.body|;
    buf.Reserve(HEAD_SIZE + len);
    var head := [m.cmd % 0x100, m.cmd / 0x100, len % 0x100, len / 0x100,
                 counter % 0x100, if m.zip then FLAG_ZIP else 0];
    buf.Append(head);
    buf.Append(m.body);
    assert buf.content == old(buf.content) + (head + m.body);
  }

  /** The outcome of one turn of the parse loop. */
  datatype Turn = Starved | Refused | Took(m: Message, counter: nat)

  /** The counter after a packet with this index, unless the index is refused. */
  method CheckIndex(counter: nat, index: byte) returns (next: Option<nat>)
    ensures next == Admit(counter, index)
  {
    var n := counter;
    if index > 0 && n == 0 {
      n := index;
    }
    if n != 0 {
      if index != n {
        return None;
      }
      n := n + 1;
      if n == 0xFF {
        n := 1;
      }
    }
    return Some(n);
  }

  /** One turn: takes the packet at the read position, if it is complete and
      admitted; otherwise leaves the buffer alone. */
  method TakePacket(buf: Buffer, counter: nat) returns (turn: Turn)
    requires buf.Valid()
    modifies buf`curIndex, buf`content
    ensures buf.Valid()
    ensures turn.Took? ==> |buf.content| < |old(buf.content)|
    ensures turn.Took? ==> Parse(counter, old(buf.content)) == Prepend(turn.m, Parse(turn.counter, buf.content))
    ensures !turn.Took? ==> buf.content == old(buf.content) && buf.curIndex == old(buf.curIndex)
    ensures !turn.Took? ==> Parse(counter, buf.content) == Parsed([], counter, buf.content, turn.Starved?)
  {
    hide Parse;
    ghost var s := buf.content;
    if !Ready(counter, s) { ParseStops(counter, s); }
    if buf.ReadSize() < HEAD_SIZE {
      return Starved;
    }
    var unread := buf.data[buf.curIndex..buf.rearIndex];
    var head := unread[..HEAD_SIZE];
    var len := (head[2] as int) + 0x100 * (head[3] as int);
    assert len == BodyLen(s);
    var msgSize := HEAD_SIZE + len;
    if msgSize > PACKET_MAX {
      return Refused;
    }
    if msgSize > buf.ReadSize() {
      return Starved;
    }
    var body := unread[HEAD_SIZE..msgSize];
    var m := Message((head[0] as int) + 0x100 * (head[1] as int), body, HasZip(head[5]));
    var next := CheckIndex(counter, head[4]);
    if next.None? {
      return Refused;
    }
    ParseTurn(counter, s);
    buf.AddReadLen(msgSize);
    return Took(m, next.value);
  }

  ghost function Onto(ms: seq<Message>, r: Parsed): Parsed {
    r.(msgs := ms + r.msgs)
  }

  lemma OntoNil(r: Parsed)
    ensures Onto([], r) == r
  {
  }

  lemma OntoPrepend(ms: seq<Message>, m: Message, r: Parsed)
    ensures Onto(ms, Prepend(m, r)) == Onto(ms + [m], r)
  {
    assert ms + ([m] + r.msgs) == (ms + [m]) + r.msgs;
  }

  /** The parse loop with its final refit: afterwards the unread bytes are at
      the front of the buffer, and messages, counter and verdict are those of
      the one-pass parser. */
  method ReadParse(buf: Buffer, counter: nat, chunk: seq<byte>) returns (msgs: seq<Message>, next: nat, ok: bool)
    requires buf.Valid() && buf.curIndex == 0 && |chunk| <= buf.WriteSize()
    modifies buf, buf.data
    ensures buf.Valid() && buf.curIndex == 0
    ensures buf.data == old(buf.data) && buf.maxSize == old(buf.maxSize)
    ensures Parse(counter, old(buf.content) + chunk) == Parsed(msgs, next, buf.content, ok)
  {
    buf.Append(chunk);
    ghost var whole := Parse(counter, buf.content);
    var recvCount := 0;
    msgs, next := [], counter;
    OntoNil(whole);
    while true
      invariant buf.Valid()
      invariant recvCount == 0 ==> buf.curIndex == 0
      invariant whole == Onto(msgs, Parse(next, buf.content))
      modifies buf`curIndex, buf`content
      decreases |buf.content|
    {
      var turn := TakePacket(buf, next);
      if !turn.Took? {
        ok := turn.Starved?;
        break;
      }
      OntoPrepend(msgs, turn.m, Parse(turn.counter, buf.content));
      msgs, next := msgs + [turn.m], turn.counter;
      recvCount := recvCount + 1;
    }
    assert msgs + [] == msgs;
    if recvCount > 0 {
      buf.RefitBuffer();
    }
  }

  class TcpSocket {
    const recvBuffer: Buffer
    const sendBuffer0: Buffer
    const sendBuffer1: Buffer
    var idleIndex: nat
    var asyncWriting: bool
    var notifyCallback: bool
    var msgIndex: nat
    var closeFlag: bool

    // the asio side: whether the descriptor is open, which operations are
    // outstanding, and the strand's queue
    var isOpen: bool
    var sendPending: bool
    var readPending: bool
    var tasks: seq<M.Task>

    // the calls made on the logic layer
    var delivered: seq<Message>
    var passiveCloses: nat

    // what the network has taken and what callers have posted
    ghost var wire: seq<byte>
    ghost var lost: nat
    ghost var accepted: seq<Packet>
    ghost var posted: seq<Message>
    ghost var closePosted: bool

    /** The buffer that collects packets, and the one being sent. */
    function Idle(): Buffer
      reads this
    {
      if idleIndex == 0 then sendBuffer0 else sendBuffer1
    }

    function Flight(): Buffer
      reads this
    {
      if idleIndex == 0 then sendBuffer1 else sendBuffer0
    }

    ghost function Arrays(): set<object>
      reads recvBuffer, sendBuffer0, sendBuffer1
    {
      {recvBuffer.data, sendBuffer0.data, sendBuffer1.data}
    }

    /** Three separate buffers with separate storage, each read from its front. */
    ghost predicate Shape()
      reads this, recvBuffer, sendBuffer0, sendBuffer1, Arrays()
    {
      && idleIndex < 2
      && sendBuffer0 != sendBuffer1 && recvBuffer != sendBuffer0 && recvBuffer != sendBuffer1
      && sendBuffer0.data != sendBuffer1.data
      && recvBuffer.data != sendBuffer0.data && recvBuffer.data != sendBuffer1.data
      && recvBuffer.Valid() && sendBuffer0.Valid() && sendBuffer1.Valid()
      && recvBuffer.maxSize == M.RECV_CAPACITY
      && recvBuffer.curIndex == sendBuffer0.curIndex == sendBuffer1.curIndex == 0
    }

    ghost function TxView(): M.Tx
      reads this, sendBuffer0, sendBuffer1
    {
      M.Tx(Idle().content, Flight().content, asyncWriting, sendPending, wire, lost, accepted)
    }

    ghost function RxView(): M.Rx
      reads this, recvBuffer
    {
      M.Rx(recvBuffer.content, msgIndex, readPending, delivered)
    }

    /** The abstract value of the socket. */
    ghost function View(): M.Sock
      reads this, recvBuffer, sendBuffer0, sendBuffer1
    {
      M.Sock(TxView(), RxView(), isOpen, closeFlag, notifyCallback, passiveCloses, tasks, posted, closePosted)
    }

    ghost predicate Valid()
      reads this, recvBuffer, sendBuffer0, sendBuffer1, Arrays()
    {
      Shape() && M.Settled(TxView())
    }

    constructor (index: nat)
      ensures Valid() && fresh(recvBuffer) && fresh(sendBuffer0) && fresh(sendBuffer1) && fresh(Arrays())
      ensures View() == M.Made(index)
    {
      recvBuffer := new Buffer();
      sendBuffer0 := new Buffer();
      sendBuffer1 := new Buffer();
      idleIndex := 0;
      asyncWriting, notifyCallback, closeFlag := false, true, false;
      msgIndex := index;
      isOpen, sendPending, readPending := true, false, false;
      tasks, delivered, passiveCloses := [], [], 0;
      wire, lost, accepted, posted, closePosted := [], 0, [], [], false;
    }

    /** Starts the first read. */
    method Read()
      requires Valid() && !readPending
      modifies this`readPending
      ensures Valid() && View() == M.StartRead(old(View()))
    {
      readPending := true;
    }

    method DoClose()
      requires Valid()
      modifies this`isOpen, this`passiveCloses
      ensures Valid() && View() == M.Shut(old(View()))
    {
      if isOpen {
        isOpen := false;
        if notifyCallback {
          passiveCloses := passiveCloses + 1;
        }
      }
    }

    method Launch()
      requires Shape() && !asyncWriting && Idle().content != []
      modifies this`idleIndex, this`asyncWriting, this`sendPending
      ensures Shape() && TxView() == M.Launch(old(TxView()))
    {
      asyncWriting := true;
      idleIndex := 1 - idleIndex;
      sendPending := true;
    }

    /** Starts the one outstanding send: the idle buffer becomes the buffer in
        flight and the other one, empty by now, becomes idle. */
    method DoWrite()
      requires Shape() && (sendPending ==> asyncWriting)
      requires !asyncWriting ==> Flight().content == []
      modifies this`idleIndex, this`asyncWriting, this`sendPending, this`tasks
      ensures Valid() && View() == M.StartWrite(old(View()))
    {
      if asyncWriting {
        return;
      }
      if Idle().IsReadOver() {
        if closeFlag {
          tasks := tasks + [M.DoClose];
        }
        return;
      }
      Launch();
    }

    /** The 32-bit length of the idle buffer does not wrap when the packet is added. */
    ghost predicate Room(m: Message)
      requires Shape()
      reads this, recvBuffer, sendBuffer0, sendBuffer1, Arrays()
    {
      !GrowthWraps(Idle().maxSize, Idle().rearIndex, HEAD_SIZE + |m.body|)
    }

    /** Appends a packet to the idle buffer; the buffer in flight is not touched. */
    method Enqueue(m: Message)
      requires Shape() && |m.body| <= BODY_MAX && Room(m)
      modifies this`accepted, Idle(), Idle().data
      ensures Shape() && TxView() == M.Push(old(TxView()), PacketOf(m, msgIndex))
      ensures fresh(Arrays() - old(Arrays()))
    {
      PutPacket(Idle(), m, msgIndex);
      accepted := accepted + [PacketOf(m, msgIndex)];
    }

    /** It does not while the unsent backlog stays one block short of 4 GiB. */
    lemma RoomEnough(m: Message)
      requires Shape() && |m.body| <= BODY_MAX
      requires |Idle().content| + HEAD_SIZE + |m.body| <= UINT32 - BASE_SIZE
      ensures Room(m)
    {
      WrapExactly(Idle().maxSize, Idle().rearIndex, HEAD_SIZE + |m.body|);
    }

    /** The write handler. The only demand on the caller is that a packet that is
        going to be added does not make the 32-bit length wrap. */
    method WriteHandler(m: Message)
      requires Valid() && (!closeFlag && |m.body| <= BODY_MAX ==> Room(m))
      modifies this`idleIndex, this`asyncWriting, this`sendPending, this`tasks, this`accepted
      modifies Idle(), Idle().data
      ensures Valid() && View() == M.OnWrite(old(View()), m)
      ensures fresh(Arrays() - old(Arrays()))
    {
      if closeFlag || |m.body| > BODY_MAX {
        return;
      }
      Enqueue(m);
      DoWrite();
    }

    method CloseHandler()
      requires Valid()
      modifies this`closeFlag, this`notifyCallback, this`isOpen, this`passiveCloses
      ensures Valid() && View() == M.OnClose(old(View()))
    {
      closeFlag := true;
      if !asyncWriting {
        notifyCallback := false;
        DoClose();
      }
    }

    method DoCloseHandler()
      requires Valid()
      modifies this`notifyCallback, this`isOpen, this`passiveCloses
      ensures Valid() && View() == M.OnDoClose(old(View()))
    {
      notifyCallback := false;
      DoClose();
    }

    /** Marks the whole buffer in flight as read, whatever number n of bytes the
        network reports. */
    method ClearFlight(n: nat)
      requires Shape() && n <= |Flight().content|
      modifies this`asyncWriting, this`sendPending, this`wire, this`lost, Flight(), Flight().data
      ensures Shape() && TxView() == M.Land(old(TxView()), n)
      ensures Arrays() == old(Arrays())
    {
      var buf: Buffer := Flight();
      wire := wire + buf.content[..n];
      lost := lost + |buf.content| - n;
      buf.AddReadLen(buf.ReadSize());
      buf.RefitBuffer();
      asyncWriting, sendPending := false, false;
    }

    /** The successful send completion. */
    method SentHandler(n: nat)
      requires Valid() && sendPending && n <= |Flight().content|
      modifies this`idleIndex, this`asyncWriting, this`sendPending, this`tasks, this`wire, this`lost
      modifies Flight(), Flight().data
      ensures Valid() && View() == M.OnSent(old(View()), M.Sent(n))
      ensures Arrays() == old(Arrays())
    {
      ClearFlight(n);
      DoWrite();
    }

    /** The failed send completion; nothing happens when the send was cancelled. */
    method SendFailedHandler(aborted: bool)
      requires Valid() && sendPending
      modifies this`sendPending, this`isOpen, this`passiveCloses
      ensures Valid() && View() == M.OnSent(old(View()), if aborted then M.SendAborted else M.SendFailed)
    {
      sendPending := false;
      if !aborted {
        DoClose();
      }
    }

    /** Parses into the receive buffer, which leaves the send side alone. */
    method ParseChunk(chunk: seq<byte>) returns (msgs: seq<Message>, next: nat, ok: bool)
      requires Valid() && |chunk| <= M.RECV_CAPACITY - |recvBuffer.content|
      modifies recvBuffer, recvBuffer.data
      ensures Valid() && TxView() == old(TxView()) && Arrays() == old(Arrays())
      ensures Parse(msgIndex, old(recvBuffer.content) + chunk) == Parsed(msgs, next, recvBuffer.content, ok)
    {
      msgs, next, ok := ReadParse(recvBuffer, msgIndex, chunk);
    }

    /** Parses what has arrived, delivers its messages, and asks for the next
        read if the stream is still acceptable. */
    method Absorb(chunk: seq<byte>) returns (ok: bool)
      requires Valid() && |chunk| <= M.RECV_CAPACITY - |recvBuffer.content|
      modifies this`readPending, this`msgIndex, this`delivered, recvBuffer, recvBuffer.data
      ensures Valid() && RxView() == M.Receive(old(RxView()), chunk) && ok == readPending
      ensures TxView() == old(TxView()) && Arrays() == old(Arrays())
    {
      hide Parse;
      hide M.Settled;
      var msgs, next;
      msgs, next, ok := ParseChunk(chunk);
      delivered := delivered + msgs;
      msgIndex := next;
      readPending := ok;
    }

    /** The read completion: nothing after a close; a failed or unacceptable
        read closes; otherwise the next read is started. */
    method ReadHandler(r: M.ReadResult)
      requires Valid() && readPending
      requires r.Bytes? ==> |r.chunk| <= M.RECV_CAPACITY - |recvBuffer.content|
      modifies this`readPending, this`msgIndex, this`delivered, this`isOpen, this`passiveCloses
      modifies recvBuffer, recvBuffer.data
      ensures Valid() && View() == M.OnRead(old(View()), r)
      ensures Arrays() == old(Arrays())
    {
      if closeFlag || !r.Bytes? {
        readPending := false;
        if !closeFlag && r.ReadFailed? {
          DoClose();
        }
        return;
      }
      var ok := Absorb(r.chunk);
      if !ok {
        DoClose();
      }
    }

    /** Keeps the record of what was posted before the first close. */
    ghost method Note(t: M.Task)
      requires Valid() && !t.DoClose?
      modifies this`posted, this`closePosted
      ensures Valid()
      ensures View() == M.Enqueue(old(View()), t).(tasks := tasks)
    {
      hide M.Settled;
      if t.Close? {
        closePosted := true;
      } else if !closePosted {
        posted := posted + [t.m];
      }
    }

    method Post(t: M.Task)
      requires Valid() && !t.DoClose?
      modifies this`tasks, this`posted, this`closePosted
      ensures Valid() && View() == M.Enqueue(old(View()), t)
    {
      hide M.Settled;
      tasks := tasks + [t];
      Note(t);
    }

    /** The strand runs the oldest posted task. */
    method RunTask()
      requires Valid() && tasks != []
      requires tasks[0].Write? && !closeFlag && |tasks[0].m.body| <= BODY_MAX ==> Room(tasks[0].m)
      modifies this, Idle(), Idle().data
      ensures Valid() && View() == M.Step(old(View()), M.RunTask)
      ensures fresh(Arrays() - old(Arrays()))
    {
      hide M.OnWrite;
      hide M.OnClose;
      hide M.OnDoClose;
      hide M.Settled;
      hide GrowthWraps;
      var t := tasks[0];
      tasks := tasks[1..];
      match t
      case Write(m) => WriteHandler(m);
      case Close => CloseHandler();
      case DoClose => DoCloseHandler();
    }
  }
}
