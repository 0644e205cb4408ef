/** The packet format of the socket layer: a packed 6-byte head (command, body
    length, index, flag; both 16-bit fields little-endian) followed by the body,
    the counter rule for packet indices, and the greedy stream parser that the
    receive handler implements chunk by chunk. */
module Wire {
  import opened Wrappers

  type byte = b: int | 0 <= b < 0x100
  type uint16 = n: int | 0 <= n < 0x1_0000

  const HEAD_SIZE := 6
  const PACKET_MAX := 65535
  const BODY_MAX := PACKET_MAX - HEAD_SIZE
  const FLAG_ZIP: byte := 0x02

  /** A packet as it travels, with every head field. */
  datatype Packet = Packet(cmd: uint16, index: byte, flag: byte, body: seq<byte>)

  /** What the logic layer is handed, or hands over: a command, a body and the zip bit. */
  datatype Message = Message(cmd: uint16, body: seq<byte>, zip: bool)

  predicate Sendable(p: Packet) {
    |p.body| <= BODY_MAX
  }

  function Encode(p: Packet): (s: seq<byte>)
    requires Sendable(p)
    ensures |s| == HEAD_SIZE + |p.body|
  {
    var len := |p.body|;
    [p.cmd % 0x100, p.cmd / 0x100, len % 0x100, len / 0x100, p.index, p.flag] + p.body
  }

  function EncodeAll(ps: seq<Packet>): seq<byte>
    requires forall p <- ps :: Sendable(p)
  {
    if ps == [] then [] else Encode(ps[0]) + EncodeAll(ps[1..])
  }

  /** Bit 0x02 of the flag byte. */
  predicate HasZip(flag: byte) {
    flag / FLAG_ZIP % 2 == 1
  }

  function MessageOf(p: Packet): Message {
    Message(p.cmd, p.body, HasZip(p.flag))
  }

  function MessagesOf(ps: seq<Packet>): (ms: seq<Message>)
    ensures |ms| == |ps|
    ensures forall k :: 0 <= k < |ps| ==> ms[k] == MessageOf(ps[k])
  {
    seq(|ps|, k requires 0 <= k < |ps| => MessageOf(ps[k]))
  }

  /** The packet `write` builds: the zip bit is the only flag it ever sets, and
      the 32-bit counter is stored in one byte. */
  function PacketOf(m: Message, counter: nat): Packet {
    Packet(m.cmd, counter % 0x100, if m.zip then FLAG_ZIP else 0, m.body)
  }

  /** The index rule for one received packet: the new counter, or None for a
      rejected packet. Counter 0 means "not counting"; a non-zero first index is
      adopted; 255 is skipped. */
  function Admit(counter: nat, index: byte): Option<nat> {
    var c := if index > 0 && counter == 0 then index else counter;
    if c == 0 then Some(0)
    else if index == c then Some(if c + 1 == 0xFF then 1 else c + 1)
    else None
  }

  function BodyLen(s: seq<byte>): nat
    requires |s| >= HEAD_SIZE
  {
    (s[2] as int) + 0x100 * (s[3] as int)
  }

  function PacketAt(s: seq<byte>): (p: Packet)
    requires |s| >= HEAD_SIZE && |s| >= HEAD_SIZE + BodyLen(s)
    ensures |p.body| == BodyLen(s)
  {
    Packet((s[0] as int) + 0x100 * (s[1] as int), s[4], s[5], s[HEAD_SIZE..HEAD_SIZE + BodyLen(s)])
  }

  /** Messages delivered, the counter, the bytes left unread, and whether the
      stream is still acceptable. */
  datatype Parsed = Parsed(msgs: seq<Message>, counter: nat, rest: seq<byte>, ok: bool)

  /** The whole-stream parser: one pass over everything received so far. */
  function Parse(counter: nat, s: seq<byte>): Parsed
    decreases |s|
  {
    if |s| < HEAD_SIZE then Parsed([], counter, s, true)
    else
      var size := HEAD_SIZE + BodyLen(s);
      if size > PACKET_MAX then Parsed([], counter, s, false)
      else if size > |s| then Parsed([], counter, s, true)
      else
        match Admit(counter, s[4])
        case None => Parsed([], counter, s, false)
        case Some(next) =>
          var tail := Parse(next, s[size..]);
          tail.(msgs := [MessageOf(PacketAt(s))] + tail.msgs)
  }

  /** Nothing more can be taken from `s`, and `ok` says whether that is because
      bytes are missing (true) or because the next packet is unacceptable. */
  ghost predicate Stuck(counter: nat, s: seq<byte>, ok: bool) {
    if |s| < HEAD_SIZE then ok
    else if BodyLen(s) > BODY_MAX then !ok
    else if |s| < HEAD_SIZE + BodyLen(s) then ok
    else !ok && Admit(counter, s[4]) == None
  }

  /** The counter after a row of packet indices, or None if one is rejected. */
  function AdmitAll(counter: nat, indices: seq<byte>): Option<nat>
    decreases |indices|
  {
    if indices == [] then Some(counter)
    else
      match Admit(counter, indices[0])
      case None => None
      case Some(next) => AdmitAll(next, indices[1..])
  }

  function IndicesOf(ps: seq<Packet>): (row: seq<byte>)
    ensures |row| == |ps|
    ensures forall k :: 0 <= k < |ps| ==> row[k] == ps[k].index
  {
    seq(|ps|, k requires 0 <= k < |ps| => ps[k].index)
  }

  /** A stream that is some acceptable packets followed by a stuck remainder. */
  ghost predicate Framing(counter: nat, s: seq<byte>, ps: seq<Packet>, r: Parsed) {
    && (forall p <- ps :: Sendable(p))
    && s == EncodeAll(ps) + r.rest
    && AdmitAll(counter, IndicesOf(ps)) == Some(r.counter)
    && r.msgs == MessagesOf(ps)
    && Stuck(r.counter, r.rest, r.ok)
  }

  // ---------- encoding one packet is invertible ----------

  lemma EncodeHead(p: Packet, more: seq<byte>)
    requires Sendable(p)
    ensures var s := Encode(p) + more;
            && BodyLen(s) == |p.body|
            && PacketAt(s) == p
            && s[HEAD_SIZE + |p.body|..] == more
            && s[4] == p.index
  {
    var s := Encode(p) + more;
    assert s[2] == |p.body| % 0x100 && s[3] == |p.body| / 0x100;
    assert s[HEAD_SIZE..HEAD_SIZE + |p.body|] == p.body;
  }

  lemma DecodedPacketEncodes(s: seq<byte>)
    requires |s| >= HEAD_SIZE && |s| >= HEAD_SIZE + BodyLen(s) && BodyLen(s) <= BODY_MAX
    ensures Encode(PacketAt(s)) == s[..HEAD_SIZE + BodyLen(s)]
  {
    var p := PacketAt(s);
    var n := |p.body|;
    assert n == (s[2] as int) + 0x100 * (s[3] as int);
    assert n % 0x100 == s[2] && n / 0x100 == s[3];
    assert p.cmd % 0x100 == s[0] && p.cmd / 0x100 == s[1];
    assert Encode(p)[..HEAD_SIZE] == s[..HEAD_SIZE];
  }

  lemma {:induction false} EncodeAllAppend(ps: seq<Packet>, qs: seq<Packet>)
    requires forall p <- ps :: Sendable(p)
    requires forall q <- qs :: Sendable(q)
    ensures forall p <- ps + qs :: Sendable(p)
    ensures EncodeAll(ps + qs) == EncodeAll(ps) + EncodeAll(qs)
  {
    if ps == [] {
      assert ps + qs == qs;
    } else {
      EncodeAllAppend(ps[1..], qs);
      assert (ps + qs)[1..] == ps[1..] + qs && (ps + qs)[0] == ps[0];
      var a, b, c := Encode(ps[0]), EncodeAll(ps[1..]), EncodeAll(qs);
      assert EncodeAll(ps + qs) == a + (b + c);
      assert a + (b + c) == (a + b) + c;
    }
  }

  lemma EncodeAllSnoc(ps: seq<Packet>, p: Packet)
    requires forall q <- ps :: Sendable(q)
    requires Sendable(p)
    ensures forall q <- ps + [p] :: Sendable(q)
    ensures EncodeAll(ps + [p]) == EncodeAll(ps) + Encode(p)
  {
    EncodeAllAppend(ps, [p]);
    assert EncodeAll([p]) == Encode(p) + EncodeAll([]);
  }

  /** The bytes of a packet, in numbers: command and body length low byte first, then
      index and flag, then the body. */
  lemma HeadBytes(p: Packet)
    requires |p.body| <= 65529
    ensures var s := Encode(p);
            && |s| == 6 + |p.body|
            && (s[0] as int) + 256 * (s[1] as int) == p.cmd && (s[2] as int) + 256 * (s[3] as int) == |p.body|
            && s[4] == p.index && s[5] == p.flag && s[6..] == p.body
  {
  }

  /** What a message keeps of a packet: the flag's bit of value 2, and nothing else of
      the head but the command. */
  lemma MessageKeeps(p: Packet)
    ensures MessageOf(p).cmd == p.cmd && MessageOf(p).body == p.body
    ensures MessageOf(p).zip <==> p.flag % 4 >= 2
  {
  }

  // ---------- chunking ----------

  /** The parser's loop guard: `s` starts with a whole packet that is admitted. */
  predicate Ready(counter: nat, s: seq<byte>) {
    HEAD_SIZE <= |s| && HEAD_SIZE + BodyLen(s) <= |s| && BodyLen(s) <= BODY_MAX && Admit(counter, s[4]).Some?
  }

  function Prepend(m: Message, r: Parsed): Parsed {
    r.(msgs := [m] + r.msgs)
  }

  function Continue(r: Parsed, b: seq<byte>): Parsed {
    if r.ok then var q := Parse(r.counter, r.rest + b); q.(msgs := r.msgs + q.msgs)
    else r.(rest := r.rest + b)
  }

  lemma ParseTurn(counter: nat, s: seq<byte>)
    requires Ready(counter, s)
    ensures Parse(counter, s)
         == Prepend(MessageOf(PacketAt(s)), Parse(Admit(counter, s[4]).value, s[HEAD_SIZE + BodyLen(s)..]))
  {
  }

  lemma ParseStops(counter: nat, s: seq<byte>)
    requires !Ready(counter, s)
    ensures Parse(counter, s) == Parsed([], counter, s, Parse(counter, s).ok)
    ensures Stuck(counter, s, Parse(counter, s).ok)
  {
  }

  lemma ReadyAppend(counter: nat, a: seq<byte>, b: seq<byte>)
    requires Ready(counter, a)
    ensures Ready(counter, a + b)
    ensures (a + b)[4] == a[4] && BodyLen(a + b) == BodyLen(a) && PacketAt(a + b) == PacketAt(a)
    ensures (a + b)[HEAD_SIZE + BodyLen(a)..] == a[HEAD_SIZE + BodyLen(a)..] + b
  {
    var size := HEAD_SIZE + BodyLen(a);
    assert (a + b)[HEAD_SIZE..size] == a[HEAD_SIZE..size];
  }

  lemma RejectAppend(counter: nat, a: seq<byte>, b: seq<byte>)
    requires !Ready(counter, a) && !Parse(counter, a).ok
    ensures !Ready(counter, a + b) && !Parse(counter, a + b).ok
  {
    assert (a + b)[2] == a[2] && (a + b)[3] == a[3] && (a + b)[4] == a[4];
  }

  lemma ContinuePrepend(m: Message, r: Parsed, b: seq<byte>)
    ensures Continue(Prepend(m, r), b) == Prepend(m, Continue(r, b))
  {
    if r.ok {
      var q := Parse(r.counter, r.rest + b);
      assert ([m] + r.msgs) + q.msgs == [m] + (r.msgs + q.msgs);
    }
  }

  /** Parsing a longer stream continues where the shorter one stopped; a
      rejected stream stays rejected whatever follows. */
  lemma {:induction false} ParseAppend(counter: nat, a: seq<byte>, b: seq<byte>)
    ensures Parse(counter, a + b) == Continue(Parse(counter, a), b)
    decreases |a|
  {
    if Ready(counter, a) {
      var next, tail := Admit(counter, a[4]).value, a[HEAD_SIZE + BodyLen(a)..];
      ParseAppend(next, tail, b);
      ReadyAppend(counter, a, b);
      ParseTurn(counter, a);
      ParseTurn(counter, a + b);
      ContinuePrepend(MessageOf(PacketAt(a)), Parse(next, tail), b);
    } else {
      ParseStops(counter, a);
      if Parse(counter, a).ok {
        var q := Parse(counter, a + b);
        assert [] + q.msgs == q.msgs;
      } else {
        RejectAppend(counter, a, b);
        ParseStops(counter, a + b);
      }
    }
  }

  lemma EncodeCons(p: Packet, ps: seq<Packet>, s: seq<byte>, rest: seq<byte>)
    requires Sendable(p) && forall q <- ps :: Sendable(q)
    ensures forall q <- [p] + ps :: Sendable(q)
    ensures Encode(p) + s == EncodeAll([p] + ps) + rest <==> s == EncodeAll(ps) + rest
  {
    assert ([p] + ps)[1..] == ps;
    hide Encode;
    assert EncodeAll([p] + ps) + rest == Encode(p) + (EncodeAll(ps) + rest);
    assert (Encode(p) + s)[|Encode(p)|..] == s;
    assert (Encode(p) + (EncodeAll(ps) + rest))[|Encode(p)|..] == EncodeAll(ps) + rest;
  }

  lemma SameMessages(p: Packet, ps: seq<Packet>, ms: seq<Message>)
    ensures [MessageOf(p)] + ms == MessagesOf([p] + ps) <==> ms == MessagesOf(ps)
  {
    assert MessagesOf([p] + ps) == [MessageOf(p)] + MessagesOf(ps);
    assert ([MessageOf(p)] + ms)[1..] == ms;
    assert ([MessageOf(p)] + MessagesOf(ps))[1..] == MessagesOf(ps);
  }

  lemma IndicesCons(ps: seq<Packet>)
    requires ps != []
    ensures IndicesOf(ps)[0] == ps[0].index && IndicesOf(ps)[1..] == IndicesOf(ps[1..])
  {
  }

  lemma FramingCons(counter: nat, p: Packet, s: seq<byte>, ps: seq<Packet>, r: Parsed)
    requires Sendable(p) && Admit(counter, p.index).Some?
    requires forall q <- ps :: Sendable(q)
    ensures Framing(counter, Encode(p) + s, [p] + ps, Prepend(MessageOf(p), r))
       <==> Framing(Admit(counter, p.index).value, s, ps, r)
  {
    EncodeCons(p, ps, s, r.rest);
    SameMessages(p, ps, r.msgs);
    IndicesCons([p] + ps);
    assert ([p] + ps)[1..] == ps;
    hide Encode;
    hide EncodeAll;
    hide MessageOf;
    hide MessagesOf;
    hide IndicesOf;
    hide Stuck;
    hide Admit;
  }

  lemma FramingNil(counter: nat, s: seq<byte>, r: Parsed)
    ensures Framing(counter, s, [], r)
       <==> r == Parsed([], counter, s, r.ok) && Stuck(counter, s, r.ok)
  {
    assert EncodeAll([]) + r.rest == r.rest;
    assert IndicesOf([]) == [] && MessagesOf([]) == [];
  }

  /** Soundness: what the parser took off the stream re-encodes to exactly the
      bytes it consumed, and what it left is stuck. */
  lemma {:induction false} ParseFrames(counter: nat, s: seq<byte>) returns (ps: seq<Packet>)
    ensures Framing(counter, s, ps, Parse(counter, s))
    decreases |s|
  {
    if Ready(counter, s) {
      var size := HEAD_SIZE + BodyLen(s);
      var p, next := PacketAt(s), Admit(counter, s[4]).value;
      var qs := ParseFrames(next, s[size..]);
      DecodedPacketEncodes(s);
      assert s == s[..size] + s[size..];
      FramingCons(counter, p, s[size..], qs, Parse(next, s[size..]));
      ParseTurn(counter, s);
      ps := [p] + qs;
    } else {
      ps := [];
      ParseStops(counter, s);
      FramingNil(counter, s, Parse(counter, s));
    }
  }

  lemma StreamHead(ps: seq<Packet>, rest: seq<byte>)
    requires ps != [] && forall p <- ps :: Sendable(p)
    ensures EncodeAll(ps) + rest == Encode(ps[0]) + (EncodeAll(ps[1..]) + rest)
  {
    hide Encode;
    assert (Encode(ps[0]) + EncodeAll(ps[1..])) + rest == Encode(ps[0]) + (EncodeAll(ps[1..]) + rest);
  }

  lemma HeadReady(counter: nat, p: Packet, more: seq<byte>)
    requires Sendable(p) && Admit(counter, p.index).Some?
    ensures Ready(counter, Encode(p) + more) && PacketAt(Encode(p) + more) == p
    ensures (Encode(p) + more)[HEAD_SIZE + |p.body|..] == more
  {
    EncodeHead(p, more);
    hide Encode;
    hide PacketAt;
    hide BodyLen;
    hide Admit;
  }

  /** What a framing with a first packet says about it. */
  lemma FramingFirst(counter: nat, s: seq<byte>, ps: seq<Packet>, r: Parsed)
    requires Framing(counter, s, ps, r) && ps != []
    ensures Sendable(ps[0]) && (forall q <- ps[1..] :: Sendable(q)) && Admit(counter, ps[0].index).Some?
    ensures s == Encode(ps[0]) + (EncodeAll(ps[1..]) + r.rest)
    ensures r.msgs != [] && r.msgs[0] == MessageOf(ps[0])
  {
    hide Encode;
    hide Stuck;
    hide Admit;
    hide MessageOf;
    StreamHead(ps, r.rest);
    IndicesCons(ps);
  }

  /** A framing with a first packet starts with that packet, and is a framing of what
      follows it. */
  lemma FramingHead(counter: nat, s: seq<byte>, ps: seq<Packet>, r: Parsed)
    requires Framing(counter, s, ps, r) && ps != []
    ensures var p, size := ps[0], HEAD_SIZE + |ps[0].body|;
            && Ready(counter, s) && PacketAt(s) == p && Admit(counter, p.index).Some?
            && r.msgs != [] && r.msgs[0] == MessageOf(p)
            && Framing(Admit(counter, p.index).value, s[size..], ps[1..], r.(msgs := r.msgs[1..]))
  {
    var p, qs := ps[0], ps[1..];
    var more := EncodeAll(qs) + r.rest;
    var tail := r.(msgs := r.msgs[1..]);
    FramingFirst(counter, s, ps, r);
    HeadReady(counter, p, more);
    assert ps == [p] + qs && r == Prepend(MessageOf(p), tail);
    FramingCons(counter, p, more, qs, tail);
    hide *;
  }

  /** Completeness: a stream has only one framing, and the parser finds it. */
  lemma {:induction false} FramingUnique(counter: nat, s: seq<byte>, ps: seq<Packet>, r: Parsed)
    requires Framing(counter, s, ps, r)
    ensures Parse(counter, s) == r
    decreases |ps|
  {
    if ps == [] {
      FramingNil(counter, s, r);
    } else {
      var tail := r.(msgs := r.msgs[1..]);
      FramingHead(counter, s, ps, r);
      hide Framing;
      hide MessageOf;
      FramingUnique(Admit(counter, ps[0].index).value, s[HEAD_SIZE + |ps[0].body|..], ps[1..], tail);
      ParseTurn(counter, s);
      assert r == Prepend(MessageOf(ps[0]), tail);
    }
  }

  function Flatten(chunks: seq<seq<byte>>): seq<byte> {
    if chunks == [] then [] else Flatten(chunks[..|chunks| - 1]) + chunks[|chunks| - 1]
  }

  /** The receive side as it runs: each chunk is appended to the bytes left
      over and parsed at once; nothing is read after a rejection. */
  function Feed(counter: nat, chunks: seq<seq<byte>>): Parsed {
    if chunks == [] then Parsed([], counter, [], true)
    else
      var before := Feed(counter, chunks[..|chunks| - 1]);
      if !before.ok then before
      else
        var now := Parse(before.counter, before.rest + chunks[|chunks| - 1]);
        now.(msgs := before.msgs + now.msgs)
  }

  /** Chunking does not matter: for every byte stream, well-formed or not, and
      every way of cutting it, the chunk-by-chunk receiver delivers the same
      messages with the same counter and verdict as one pass over the whole. */
  lemma {:induction false} ChunkingInvariance(counter: nat, chunks: seq<seq<byte>>)
    ensures var whole := Parse(counter, Flatten(chunks));
            var fed := Feed(counter, chunks);
            && fed.msgs == whole.msgs
            && fed.counter == whole.counter
            && fed.ok == whole.ok
            && (whole.ok ==> fed.rest == whole.rest)
  {
    if chunks == [] {
    } else {
      var front, last := chunks[..|chunks| - 1], chunks[|chunks| - 1];
      ChunkingInvariance(counter, front);
      ParseAppend(counter, Flatten(front), last);
    }
  }

  /** What is left unread after an acceptable parse is shorter than one packet. */
  lemma {:induction false} LeftoverBound(counter: nat, s: seq<byte>)
    requires Parse(counter, s).ok
    ensures |Parse(counter, s).rest| < 65535
  {
    var ps := ParseFrames(counter, s);
  }

  // ---------- round trip ----------

  lemma MessagesCons(ps: seq<Packet>)
    requires ps != []
    ensures MessagesOf(ps) == [MessageOf(ps[0])] + MessagesOf(ps[1..])
  {
  }

  lemma PrefixCons<T>(x: T, a: seq<T>, b: seq<T>)
    requires a <= b
    ensures [x] + a <= [x] + b
  {
  }

  /** A cut of a stream that starts with packet p. Short of the whole packet it is
      waited for; with the whole packet there, p is taken or refused by its index. */
  lemma CutPacket(c: nat, p: Packet, more: seq<byte>, w: seq<byte>)
    requires Sendable(p)
    requires w <= Encode(p) + more
    ensures var size := HEAD_SIZE + |p.body|;
            && (|w| < size ==> Parse(c, w) == Parsed([], c, w, true))
            && (|w| >= size ==> PacketAt(w) == p && w[4] == p.index && w[size..] <= more)
            && (|w| >= size && Admit(c, p.index).None? ==> Parse(c, w) == Parsed([], c, w, false))
            && (|w| >= size && Admit(c, p.index).Some? ==> Ready(c, w))
            && (w == Encode(p) + more ==> |w| >= size && w[size..] == more)
  {
    var all := Encode(p) + more;
    EncodeHead(p, more);
    if |w| >= HEAD_SIZE {
      assert w[2] == all[2] && w[3] == all[3] && w[4] == all[4];
      assert BodyLen(w) == |p.body|;
      if |w| >= HEAD_SIZE + |p.body| {
        assert w[HEAD_SIZE..HEAD_SIZE + |p.body|] == all[HEAD_SIZE..HEAD_SIZE + |p.body|];
        assert w[0] == all[0] && w[1] == all[1] && w[5] == all[5];
      }
    }
  }

  /** Any cut of a stream of packets whose indices the receiver admits is
      acceptable and delivers a prefix of the messages, with the counter that
      belongs to it; the whole stream delivers all of them. */
  lemma {:induction false} RoundTrip(c: nat, ps: seq<Packet>, w: seq<byte>)
    requires forall p <- ps :: Sendable(p)
    requires AdmitAll(c, IndicesOf(ps)).Some? && w <= EncodeAll(ps)
    ensures var r := Parse(c, w);
            && r.ok && r.msgs <= MessagesOf(ps)
            && AdmitAll(c, IndicesOf(ps[..|r.msgs|])) == Some(r.counter)
            && (w == EncodeAll(ps) ==> r.msgs == MessagesOf(ps) && r.rest == [])
    decreases |ps|
  {
    if ps == [] {
      assert w == [];
      assert ps[..0] == [] && IndicesOf([]) == [];
    } else {
      var p, qs := ps[0], ps[1..];
      IndicesCons(ps);
      CutPacket(c, p, EncodeAll(qs), w);
      if |w| >= HEAD_SIZE + |p.body| {
        var next, tail := Admit(c, p.index).value, w[HEAD_SIZE + |p.body|..];
        RoundTrip(next, qs, tail);
        ParseTurn(c, w);
        var r := Parse(next, tail);
        assert Parse(c, w) == Prepend(MessageOf(p), r);
        MessagesCons(ps);
        PrefixCons(MessageOf(p), r.msgs, MessagesOf(qs));
        var taken := ps[..|r.msgs| + 1];
        assert taken[0] == p && taken[1..] == qs[..|r.msgs|];
        IndicesCons(taken);
      } else {
        assert ps[..0] == [] && IndicesOf([]) == [];
      }
    }
  }

  /** A row of zero indices does not start the counter. */
  lemma {:induction false} ZeroIndices(indices: seq<byte>)
    requires forall k :: 0 <= k < |indices| ==> indices[k] == 0
    ensures AdmitAll(0, indices) == Some(0)
    decreases |indices|
  {
    if indices != [] { ZeroIndices(indices[1..]); }
  }

  // ---------- the index counter ----------

  /** The counter after an accepted packet: 255 is skipped. */
  function Succ(c: nat): nat {
    if c == 254 then 1 else c + 1
  }

  function Walk(c: nat, k: nat): nat
    decreases k
  {
    if k == 0 then c else Walk(Succ(c), k - 1)
  }

  /** The k-th index that must follow counter c: c, c+1, ..., 254, 1, 2, ... */
  function Cycle(c: nat, k: nat): nat
    requires 1 <= c <= 254
  {
    (c - 1 + k) % 254 + 1
  }

  lemma CycleShift(c: nat, k: nat)
    requires 1 <= c <= 254
    ensures Cycle(Succ(c), k) == Cycle(c, k + 1)
  {
    if c == 254 {
      assert c - 1 + (k + 1) == 254 + k;
    }
  }

  lemma {:induction false} WalkIsCycle(c: nat, k: nat)
    requires 1 <= c <= 254
    ensures Walk(c, k) == Cycle(c, k)
    decreases k
  {
    if k == 0 {
    } else {
      WalkIsCycle(Succ(c), k - 1);
      CycleShift(c, k - 1);
    }
  }

  lemma {:induction false} IndexWalk(c: nat, indices: seq<byte>)
    requires 1 <= c <= 254
    ensures AdmitAll(c, indices).Some? <==> forall k :: 0 <= k < |indices| ==> indices[k] == Walk(c, k)
    ensures AdmitAll(c, indices).Some? ==> AdmitAll(c, indices).value == Walk(c, |indices|)
    decreases |indices|
  {
    if indices == [] {
    } else {
      var tail := indices[1..];
      IndexWalk(Succ(c), tail);
      assert Walk(c, |indices|) == Walk(Succ(c), |tail|);
      if indices[0] == c {
        assert AdmitAll(c, indices) == AdmitAll(Succ(c), tail);
        if forall k :: 0 <= k < |tail| ==> tail[k] == Walk(Succ(c), k) {
          forall k | 0 <= k < |indices| ensures indices[k] == Walk(c, k) {
            if k > 0 { assert tail[k - 1] == Walk(Succ(c), k - 1); }
          }
        } else {
          var k :| 0 <= k < |tail| && tail[k] != Walk(Succ(c), k);
          assert indices[k + 1] != Walk(c, k + 1);
        }
      } else {
        assert Walk(c, 0) == c;
      }
    }
  }

  lemma CycleRow(c: nat, indices: seq<byte>)
    requires 1 <= c <= 254
    ensures AdmitAll(c, indices).Some? <==> forall k :: 0 <= k < |indices| ==> indices[k] == Cycle(c, k)
    ensures AdmitAll(c, indices).Some? ==> AdmitAll(c, indices).value == Cycle(c, |indices|)
  {
    hide Cycle;
    hide Walk;
    hide AdmitAll;
    IndexWalk(c, indices);
    forall k: nat ensures Walk(c, k) == Cycle(c, k) { WalkIsCycle(c, k); }
  }

  /** From a counting state the accepted index rows are exactly the prefixes of
      the cycle, and the counter stays in 1..254. */
  lemma IndexCycle(c: nat, indices: seq<byte>)
    requires 1 <= c <= 254
    ensures AdmitAll(c, indices).Some? <==> forall k :: 0 <= k < |indices| ==> indices[k] == (c - 1 + k) % 254 + 1
    ensures AdmitAll(c, indices).Some? ==> AdmitAll(c, indices).value == (c - 1 + |indices|) % 254 + 1
  {
    CycleRow(c, indices);
    forall k: nat ensures Cycle(c, k) == (c - 1 + k) % 254 + 1 {
    }
    hide *;
  }

  lemma CycleBetween(c: nat, k: nat)
    requires 1 <= c <= 254
    ensures 1 <= Cycle(c, k) <= 254
  {
  }

  /** A counting receiver, on any byte stream: the packets it takes carry the
      indices of the cycle in turn, and the counter stays in 1..254. */
  lemma StreamIndices(c: nat, s: seq<byte>) returns (ps: seq<Packet>)
    requires 1 <= c <= 254
    ensures Framing(c, s, ps, Parse(c, s))
    ensures forall k :: 0 <= k < |ps| ==> ps[k].index == Cycle(c, k)
    ensures Parse(c, s).counter == Cycle(c, |ps|) && 1 <= Parse(c, s).counter <= 254
  {
    ps := ParseFrames(c, s);
    var row := IndicesOf(ps);
    CycleRow(c, row);
    CycleBetween(c, |ps|);
    hide Cycle;
    hide Parse;
    hide AdmitAll;
    forall k | 0 <= k < |ps| ensures ps[k].index == Cycle(c, k) {
      assert row[k] == Cycle(c, k);
    }
  }

  /** Leading zero indices leave the counter at 0; the first non-zero index is
      adopted. First index 255 is the odd one out: the counter moves to 256,
      which no byte can match, so it accepts exactly one counted packet. */
  lemma {:induction false} FirstIndex(zeros: nat, first: byte, later: seq<byte>)
    requires first > 0
    ensures AdmitAll(0, seq(zeros, _ => 0) + [first] + later)
         == if first == 255 then (if later == [] then Some(256) else None)
            else AdmitAll(Succ(first), later)
    decreases zeros
  {
    var row: seq<byte> := seq(zeros, _ => 0) + [first] + later;
    if zeros == 0 {
      assert row[1..] == later;
    } else {
      assert row[1..] == seq(zeros - 1, _ => 0) + [first] + later;
      FirstIndex(zeros - 1, first, later);
    }
  }

  /** Every row accepted from 0 has that shape. */
  lemma {:induction false} ZerosFirst(indices: seq<byte>) returns (zeros: nat)
    requires AdmitAll(0, indices).Some?
    ensures zeros <= |indices| && (forall k :: 0 <= k < zeros ==> indices[k] == 0)
    ensures zeros < |indices| ==> indices[zeros] > 0 && (indices[zeros] == 255 ==> |indices| == zeros + 1)
    ensures zeros < |indices| && indices[zeros] < 255 ==>
              forall k :: zeros <= k < |indices| ==> indices[k] == Cycle(indices[zeros], k - zeros)
    decreases |indices|
  {
    zeros := 0;
    if indices != [] && indices[0] == 0 {
      var more := ZerosFirst(indices[1..]);
      zeros := more + 1;
    } else if indices != [] && indices[0] < 255 {
      assert Admit(0, indices[0]) == Admit(indices[0], indices[0]);
      assert AdmitAll(0, indices) == AdmitAll(indices[0], indices);
      CycleRow(indices[0], indices);
    }
  }
}
