/** The chunked datagram protocol of de_databus/udpClient.cpp, unixDgramClient.cpp and
    chunk_protocol.hpp: splitting, reassembly from one sender, and reassembly per sender. */
module ChunkProtocol {

  type Byte = x: int | 0 <= x < 256
  type Datagram = seq<Byte>

  const END_MARKER := 0xFFFF
  const HEADER_SIZE := 2
  /** Size of the receive buffer; a longer datagram arrives cut off. */
  const MAXLINE := 65507

  // ----- headers (chunk_protocol.hpp)

  /** `prepareChunkHeader`: little endian, modulo 2^16; the last chunk carries the end marker. */
  function Header(chunkNumber: nat, last: bool): (h: seq<Byte>)
    ensures |h| == HEADER_SIZE
  {
    if last then [0xFF, 0xFF] else [chunkNumber % 256, chunkNumber / 256 % 256]
  }

  /** `parseChunkNumber`. */
  function ChunkNumber(d: Datagram): (n: nat)
    requires |d| >= HEADER_SIZE
    ensures n <= END_MARKER
  {
    var low: int, high: int := d[0], d[1];
    high * 256 + low
  }

  lemma HeaderParsed(chunkNumber: nat, last: bool, rest: seq<Byte>)
    ensures ChunkNumber(Header(chunkNumber, last) + rest) == if last then END_MARKER else chunkNumber % 65536
  {
  }

  /** `reassembleChunks`: all chunks one after the other. */
  function Concat(chunks: seq<seq<Byte>>): seq<Byte> {
    if chunks == [] then [] else Concat(chunks[..|chunks| - 1]) + chunks[|chunks| - 1]
  }

  // ----- the sender's loop

  /** The datagrams of a message from chunk number k on. */
  function Split(msg: seq<Byte>, size: nat, k: nat): (ds: seq<Datagram>)
    requires size > 0
    ensures ds == [] <==> msg == []
    decreases |msg|
  {
    if msg == [] then []
    else if |msg| <= size then [Header(k, true) + msg]
    else [Header(k, false) + msg[..size]] + Split(msg[size..], size, k + 1)
  }

  lemma SplitUnfolds(msg: seq<Byte>, size: nat, k: nat)
    requires size > 0 && msg != []
    ensures var n := if size < |msg| then size else |msg|;
            Split(msg, size, k) == [Header(k, n == |msg|) + msg[..n]] + Split(msg[n..], size, k + 1)
  {
    if |msg| <= size {
      assert msg[..|msg|] == msg;
      assert Split(msg[|msg|..], size, k + 1) == [];
    }
  }

  lemma HeaderBytes(chunkNumber: nat, last: bool, rest: seq<Byte>)
    ensures var d := Header(chunkNumber, last) + rest;
            d[0] as int + 256 * d[1] as int == (if last then 65535 else chunkNumber % 65536) && d[2..] == rest
  {
  }

  /** Number of chunks times size. */
  function Size(n: nat, size: nat): nat { n * size }

  lemma SizeSnoc(n: nat, size: nat)
    ensures Size(n + 1, size) == Size(n, size) + size && Size(0, size) == 0
  {
  }

  /** Where chunk i of a message ends. */
  function EndOf(msg: seq<Byte>, size: nat, i: nat): nat {
    if Size(i + 1, size) < |msg| then Size(i + 1, size) else |msg|
  }

  lemma SliceOfRest(msg: seq<Byte>, n: nat, from: nat, to: nat)
    requires from <= to && n + to <= |msg|
    ensures msg[n..][from..to] == msg[n + from..n + to]
  {
  }

  /** Datagram i of a message: two header bytes, the lower one first, that count the chunks from k on
      modulo 2^16 and are 65535 in the last one, and then its bytes of the message. */
  predicate Carries(d: Datagram, msg: seq<Byte>, size: nat, k: nat, i: nat)
    requires Size(i, size) < |msg|
  {
    SizeSnoc(i, size);
    && |d| >= 2
    && d[0] as int + 256 * d[1] as int == (if Size(i + 1, size) >= |msg| then 65535 else (k + i) % 65536)
    && d[2..] == msg[Size(i, size)..EndOf(msg, size, i)]
  }

  lemma CarriesRest(d: Datagram, msg: seq<Byte>, size: nat, k: nat, i: nat)
    requires 0 < i && size <= |msg| && Size(i - 1, size) < |msg| - size
    requires Carries(d, msg[size..], size, k + 1, i - 1)
    ensures Size(i, size) < |msg| && Carries(d, msg, size, k, i)
  {
    SizeSnoc(i - 1, size);
    SizeSnoc(i, size);
    hide Size;
    SliceOfRest(msg, size, Size(i - 1, size), EndOf(msg[size..], size, i - 1));
  }

  lemma CarriesFirst(msg: seq<Byte>, size: nat, k: nat)
    requires size > 0 && msg != []
    ensures Size(0, size) == 0
    ensures var n := if size < |msg| then size else |msg|;
            Carries(Header(k, n == |msg|) + msg[..n], msg, size, k, 0)
  {
    SizeSnoc(0, size);
    hide Size, Header;
    var n := if size < |msg| then size else |msg|;
    HeaderBytes(k, n == |msg|, msg[..n]);
  }

  /** The chunks are as many as are needed to cover the message, and each datagram carries its own. */
  lemma {:induction false} DatagramAt(msg: seq<Byte>, size: nat, k: nat, i: nat)
    requires size > 0 && i < |Split(msg, size, k)|
    ensures Size(i, size) < |msg| && Carries(Split(msg, size, k)[i], msg, size, k, i)
    ensures i == |Split(msg, size, k)| - 1 <==> Size(i + 1, size) >= |msg|
    decreases i
  {
    SizeSnoc(0, size);
    SizeSnoc(i, size);
    hide Size, Header, Split, Carries;
    var n := if size < |msg| then size else |msg|;
    SplitUnfolds(msg, size, k);
    if i == 0 {
      CarriesFirst(msg, size, k);
    } else {
      SizeSnoc(i - 1, size);
      DatagramAt(msg[n..], size, k + 1, i - 1);
      CarriesRest(Split(msg, size, k)[i], msg, size, k, i);
    }
  }

  lemma Associates<T>(a: seq<T>, b: seq<T>, c: seq<T>)
    ensures a + (b + c) == (a + b) + c
  {
  }

  lemma EmptyIsNeutral<T>(a: seq<T>)
    ensures [] + a == a && a + [] == a
  {
  }

  lemma PrefixOf<T>(sent: seq<T>, rest: seq<T>, n: nat)
    requires |sent| <= n && (|sent| == n || rest == [])
    ensures sent == (sent + rest)[..if n < |sent + rest| then n else |sent + rest|]
  {
  }

  /** `sendMSG`: split and send. `accepted` is how many datagrams the socket takes before a send
      fails or the client is stopped. */
  method SendMessage(msg: seq<Byte>, size: int, accepted: nat) returns (sent: seq<Datagram>)
    ensures size <= 0 ==> sent == []
    ensures size > 0 ==> var all := Split(msg, size, 0); sent == all[..if accepted < |all| then accepted else |all|]
  {
    sent := [];
    if size <= 0 { return; }
    hide Split, Header;
    var remainingLength := |msg|;
    var offset := 0;
    var chunkNumber := 0;
    ghost var all := Split(msg, size, 0);
    assert msg[0..] == msg;
    assert sent + Split(msg[0..], size, 0) == all;
    while remainingLength > 0 && |sent| < accepted
      invariant remainingLength + offset == |msg| && 0 <= offset <= |msg|
      invariant |sent| <= accepted
      invariant sent + Split(msg[offset..], size, chunkNumber) == all
    {
      ghost var rest := msg[offset..];
      SplitUnfolds(rest, size, chunkNumber);
      var chunkLength := if size < remainingLength then size else remainingLength;
      remainingLength := remainingLength - chunkLength;
      assert msg[offset..offset + chunkLength] == rest[..chunkLength];
      var chunk := Header(chunkNumber, remainingLength == 0) + msg[offset..offset + chunkLength];
      assert msg[offset + chunkLength..] == rest[chunkLength..];
      ghost var after := Split(rest[chunkLength..], size, chunkNumber + 1);
      Associates(sent, [chunk], after);
      sent := sent + [chunk];
      offset := offset + chunkLength;
      chunkNumber := chunkNumber + 1;
    }
    PrefixOf(sent, Split(msg[offset..], size, chunkNumber), accepted);
  }

  // ----- one receiver

  /** The chunks held back, and the messages handed to the callback. */
  datatype Received = Received(chunks: seq<seq<Byte>>, delivered: seq<seq<Byte>>)

  function CutOff(d: Datagram): Datagram {
    if |d| > MAXLINE then d[..MAXLINE] else d
  }

  /** One datagram (udpClient.cpp:229-271): chunk 0 starts afresh, the end marker delivers. */
  function Accept(r: Received, datagram: Datagram): Received {
    var d := CutOff(datagram);
    if |d| < HEADER_SIZE then r
    else
      var n := ChunkNumber(d);
      var chunks := (if n == 0 then [] else r.chunks) + [d[HEADER_SIZE..]];
      if n == END_MARKER then Received([], r.delivered + [Concat(chunks) + [0]])
      else Received(chunks, r.delivered)
  }

  function AcceptAll(r: Received, ds: seq<Datagram>): Received
    decreases |ds|
  {
    if ds == [] then r else AcceptAll(Accept(r, ds[0]), ds[1..])
  }

  method Reassemble(chunks: seq<seq<Byte>>) returns (data: seq<Byte>)
    ensures data == Concat(chunks)
  {
    data := [];
    for i := 0 to |chunks|
      invariant data == Concat(chunks[..i])
    {
      assert chunks[..i + 1][..i] == chunks[..i];
      data := data + chunks[i];
    }
    assert chunks[..|chunks|] == chunks;
  }

  class Receiver {
    var chunks: seq<seq<Byte>>
    ghost var delivered: seq<seq<Byte>>

    ghost function Value(): Received
      reads this
    {
      Received(chunks, delivered)
    }

    constructor ()
      ensures Value() == Received([], [])
    {
      chunks, delivered := [], [];
    }

    /** The body of the receive loop for one datagram; `message` is what the callback gets. */
    method Handle(datagram: Datagram) returns (message: seq<Byte>, complete: bool)
      modifies this
      ensures Value() == Accept(old(Value()), datagram)
      ensures complete <==> |delivered| > |old(delivered)|
      ensures complete ==> delivered == old(delivered) + [message]
    {
      message, complete := [], false;
      var buffer := CutOff(datagram);
      if |buffer| < 2 { return; }
      var chunkNumber := ChunkNumber(buffer);
      if chunkNumber == 0 { chunks := []; }
      chunks := chunks + [buffer[2..]];
      if chunkNumber == END_MARKER {
        message := Reassemble(chunks);
        message := message + [0];
        complete := true;
        delivered := delivered + [message];
        chunks := [];
      }
    }
  }

  lemma AcceptAllCons(r: Received, d: Datagram, ds: seq<Datagram>)
    ensures AcceptAll(r, [d] + ds) == AcceptAll(Accept(r, d), ds)
  {
    hide Accept;
    assert ([d] + ds)[1..] == ds;
  }

  lemma {:induction false} AcceptAllConcat(r: Received, a: seq<Datagram>, b: seq<Datagram>)
    ensures AcceptAll(r, a + b) == AcceptAll(AcceptAll(r, a), b)
    decreases |a|
  {
    hide Accept;
    if a == [] {
      assert a + b == b;
    } else {
      AcceptAllConcat(Accept(r, a[0]), a[1..], b);
      assert a + b == [a[0]] + (a[1..] + b);
      AcceptAllCons(r, a[0], a[1..] + b);
    }
  }

  // ----- what arrives of one message

  /** What the receive buffer keeps of a payload behind its header. */
  function Cut(payload: seq<Byte>): seq<Byte> {
    if |payload| + HEADER_SIZE > MAXLINE then payload[..MAXLINE - HEADER_SIZE] else payload
  }

  /** What arrives of a message split into chunks of the given size. */
  function Kept(msg: seq<Byte>, size: nat): seq<Byte>
    requires size > 0
    decreases |msg|
  {
    if |msg| <= size then Cut(msg) else Cut(msg[..size]) + Kept(msg[size..], size)
  }

  /** Every payload fits the receive buffer together with its header. */
  predicate Fits(msg: seq<Byte>, size: nat) {
    |msg| + HEADER_SIZE <= MAXLINE || size + HEADER_SIZE <= MAXLINE
  }

  lemma {:induction false} KeptIsAll(msg: seq<Byte>, size: nat)
    requires size > 0
    ensures Fits(msg, size) ==> Kept(msg, size) == msg
    ensures |Kept(msg, size)| <= |msg| && (!Fits(msg, size) ==> |Kept(msg, size)| < |msg|)
    decreases |msg|
  {
    if |msg| > size {
      KeptIsAll(msg[size..], size);
      assert msg[..size] + msg[size..] == msg;
    }
  }

  lemma ConcatSnoc(chunks: seq<seq<Byte>>, c: seq<Byte>)
    ensures Concat(chunks + [c]) == Concat(chunks) + c
  {
    assert (chunks + [c])[..|chunks|] == chunks;
  }

  /** Receiving one chunk: its payload joins what is held back, which number 0 clears and the end marker delivers. */
  lemma AcceptChunk(r: Received, k: nat, last: bool, payload: seq<Byte>)
    ensures var n := if last then END_MARKER else k % 65536;
            var held := if n == 0 then [] else r.chunks;
            Accept(r, Header(k, last) + payload) ==
            if n == END_MARKER then Received([], r.delivered + [Concat(held) + Cut(payload) + [0]])
            else Received(held + [Cut(payload)], r.delivered)
  {
    hide Concat;
    HeaderParsed(k, last, payload);
    var d := Header(k, last) + payload;
    var c := CutOff(d);
    assert c[HEADER_SIZE..] == Cut(payload);
    assert ChunkNumber(c) == ChunkNumber(d);
    ConcatSnoc(r.chunks, Cut(payload));
  }

  /** The rest of a message, from chunk number k >= 1 on, completes what is held back. */
  lemma {:induction false} RestArrives(r: Received, msg: seq<Byte>, size: nat, k: nat)
    requires size > 0 && msg != [] && 1 <= k && k + |Split(msg, size, k)| <= 65536
    ensures AcceptAll(r, Split(msg, size, k)) == Received([], r.delivered + [Concat(r.chunks) + Kept(msg, size) + [0]])
    decreases |msg|
  {
    hide Accept, Header, Concat, Cut, Split, AcceptAll;
    SplitUnfolds(msg, size, k);
    if |msg| <= size {
      assert msg[..|msg|] == msg && Split(msg[|msg|..], size, k + 1) == [] && Kept(msg, size) == Cut(msg);
      AcceptAllCons(r, Header(k, true) + msg, []);
      AcceptAllNone(Accept(r, Header(k, true) + msg));
      AcceptChunk(r, k, true, msg);
    } else {
      var head, tail := msg[..size], msg[size..];
      AcceptAllCons(r, Header(k, false) + head, Split(tail, size, k + 1));
      AcceptChunk(r, k, false, head);
      RestArrives(Received(r.chunks + [Cut(head)], r.delivered), tail, size, k + 1);
      ConcatSnoc(r.chunks, Cut(head));
      assert Concat(r.chunks) + Cut(head) + Kept(tail, size) == Concat(r.chunks) + Kept(msg, size);
    }
  }

  lemma AcceptAllNone(r: Received)
    ensures AcceptAll(r, []) == r
  {
  }

  /** What a receiver in any state makes of a whole message: a multi-chunk message drops the
      leftover, a single-chunk one is appended to it; nothing is held back afterwards. */
  lemma MessageArrives(r: Received, msg: seq<Byte>, size: nat)
    requires size > 0 && msg != [] && |Split(msg, size, 0)| <= 65536
    ensures AcceptAll(r, Split(msg, size, 0)) ==
            Received([], r.delivered + [(if |msg| <= size then Concat(r.chunks) else []) + Kept(msg, size) + [0]])
  {
    hide Accept, Header, Cut, Split, AcceptAll;
    SplitUnfolds(msg, size, 0);
    if |msg| <= size {
      assert msg[..|msg|] == msg && Split(msg[|msg|..], size, 1) == [] && Kept(msg, size) == Cut(msg);
      AcceptAllCons(r, Header(0, true) + msg, []);
      AcceptAllNone(Accept(r, Header(0, true) + msg));
      AcceptChunk(r, 0, true, msg);
    } else {
      var head, tail := msg[..size], msg[size..];
      AcceptAllCons(r, Header(0, false) + head, Split(tail, size, 1));
      AcceptChunk(r, 0, false, head);
      EmptyIsNeutral([Cut(head)]);
      RestArrives(Received([Cut(head)], r.delivered), tail, size, 1);
      ConcatSnoc([], Cut(head));
      EmptyIsNeutral(Cut(head));
      EmptyIsNeutral(Kept(msg, size));
    }
  }

  // ----- exactly when a message survives

  /** How many datagrams carry the end marker, that is how many messages are delivered. */
  function Ends(ds: seq<Datagram>): nat {
    if ds == [] then 0
    else (if |ds[0]| >= HEADER_SIZE && ChunkNumber(ds[0]) == END_MARKER then 1 else 0) + Ends(ds[1..])
  }

  lemma {:induction false} DeliveriesAreEnds(r: Received, ds: seq<Datagram>)
    ensures |AcceptAll(r, ds).delivered| == |r.delivered| + Ends(ds)
    decreases |ds|
  {
    hide Concat;
    if ds != [] {
      DeliveriesAreEnds(Accept(r, ds[0]), ds[1..]);
    }
  }

  /** A message of more than 65536 chunks carries the end marker in its chunk 65535 and in its last one. */
  lemma {:induction false} TooManyEnds(msg: seq<Byte>, size: nat, k: nat)
    requires size > 0 && msg != []
    ensures Ends(Split(msg, size, k)) >= 1
    ensures k < 65536 < k + |Split(msg, size, k)| ==> Ends(Split(msg, size, k)) >= 2
    decreases |msg|
  {
    hide Split, Header, Ends;
    SplitUnfolds(msg, size, k);
    var n := if size < |msg| then size else |msg|;
    var first, rest := Header(k, n == |msg|) + msg[..n], Split(msg[n..], size, k + 1);
    EndsCons(first, rest);
    HeaderParsed(k, n == |msg|, msg[..n]);
    if n < |msg| { TooManyEnds(msg[n..], size, k + 1); }
  }

  lemma EndsCons(d: Datagram, ds: seq<Datagram>)
    requires |d| >= HEADER_SIZE
    ensures Ends([d] + ds) == (if ChunkNumber(d) == END_MARKER then 1 else 0) + Ends(ds)
  {
    hide ChunkNumber;
    assert ([d] + ds)[1..] == ds;
  }

  /** A receiver in any state makes of the datagrams exactly the message with its 0 byte, and holds nothing
      back, if and only if they are at most 65536, and a message of several chunks has each of them fit
      the receive buffer, while a single chunk, as far as it fits, joins the leftover to the message.
      For messages that fit, and for receivers that hold nothing back, that is as one expects. */
  lemma RoundTripIff(r: Received, msg: seq<Byte>, size: nat)
    requires size > 0 && msg != []
    ensures
      var arrives := AcceptAll(r, Split(msg, size, 0)) == Received([], r.delivered + [msg + [0]]);
      && (arrives <==>
          && |Split(msg, size, 0)| <= 65536
          && if |msg| > size then Fits(msg, size) else Concat(r.chunks) + Cut(msg) == msg)
      && (Fits(msg, size) ==> (arrives <==> |Split(msg, size, 0)| <= 65536 && (|msg| > size || Concat(r.chunks) == [])))
      && (Concat(r.chunks) == [] ==> (arrives <==> |Split(msg, size, 0)| <= 65536 && Fits(msg, size)))
  {
    hide Accept, AcceptAll, Split, Concat;
    var ds := Split(msg, size, 0);
    if |ds| <= 65536 {
      MessageArrives(r, msg, size);
      KeptIsAll(msg, size);
      var held := if |msg| <= size then Concat(r.chunks) else [];
      SameDelivery(r.delivered, held + Kept(msg, size), msg);
      EmptyIsNeutral(Kept(msg, size));
      LongerLeftover(held, msg);
    } else {
      DeliveriesAreEnds(r, ds);
      TooManyEnds(msg, size, 0);
      SingleChunk(msg, size);
    }
  }

  lemma SizeGrows(m: nat, n: nat, size: nat)
    requires m <= n
    ensures Size(m, size) <= Size(n, size)
  {
    assert (n - m) * size >= 0;
  }

  lemma ChunkCount(msg: seq<Byte>, size: nat, n: nat)
    requires size > 0
    ensures |Split(msg, size, 0)| <= n <==> |msg| <= Size(n, size)
  {
    hide Split, Size;
    var count := |Split(msg, size, 0)|;
    SizeSnoc(n, size);
    if count > 0 {
      DatagramAt(msg, size, 0, count - 1);
      if count <= n { SizeGrows(count, n, size); } else { SizeGrows(n, count - 1, size); }
    }
  }

  /** The same in bytes, for a receiver that holds nothing back: at most 65536 chunks, and no more than
      65505 bytes of the message in any of them. */
  lemma RoundTripInBytes(delivered: seq<seq<Byte>>, msg: seq<Byte>, size: nat)
    requires size > 0 && msg != []
    ensures AcceptAll(Received([], delivered), Split(msg, size, 0)) == Received([], delivered + [msg + [0]]) <==>
            |msg| <= 65536 * size && (|msg| <= 65505 || size <= 65505)
  {
    hide AcceptAll, Split;
    RoundTripIff(Received([], delivered), msg, size);
    ChunkCount(msg, size, 65536);
  }

  lemma SameDelivery(delivered: seq<seq<Byte>>, a: seq<Byte>, b: seq<Byte>)
    ensures delivered + [a + [0]] == delivered + [b + [0]] <==> a == b
  {
    if delivered + [a + [0]] == delivered + [b + [0]] {
      assert (delivered + [a + [0]])[|delivered|] == (delivered + [b + [0]])[|delivered|];
      assert (a + [0])[..|a + [0]| - 1] == a && (b + [0])[..|b + [0]| - 1] == b;
    }
  }

  lemma LongerLeftover(held: seq<Byte>, msg: seq<Byte>)
    ensures held + msg == msg <==> held == []
  {
    if held + msg == msg { assert |held + msg| == |held| + |msg|; }
  }

  lemma SingleChunk(msg: seq<Byte>, size: nat)
    requires size > 0
    ensures |msg| <= size ==> |Split(msg, size, 0)| <= 1
  {
  }

  // ----- sequences of messages

  /** A message the protocol can carry. */
  predicate Carried(msg: seq<Byte>, size: nat)
    requires size > 0
  {
    msg != [] && |Split(msg, size, 0)| <= 65536 && Fits(msg, size)
  }

  /** The datagrams of messages sent one after the other, each under the send lock. */
  function SplitAll(msgs: seq<seq<Byte>>, size: nat): seq<Datagram>
    requires size > 0
  {
    if msgs == [] then [] else Split(msgs[0], size, 0) + SplitAll(msgs[1..], size)
  }

  /** Each message followed by the 0 byte. */
  function Terminated(msgs: seq<seq<Byte>>): (t: seq<seq<Byte>>)
    ensures |t| == |msgs| && forall i :: 0 <= i < |msgs| ==> t[i] == msgs[i] + [0]
  {
    seq(|msgs|, i requires 0 <= i < |msgs| => msgs[i] + [0])
  }

  /** Whole messages are delivered one for one, in order, with nothing held back between them,
      from an empty receiver, or from any receiver when the first message has several chunks. */
  lemma {:induction false} MessagesArrive(r: Received, msgs: seq<seq<Byte>>, size: nat)
    requires size > 0 && forall i :: 0 <= i < |msgs| ==> Carried(msgs[i], size)
    requires r.chunks == [] || (msgs != [] && |msgs[0]| > size)
    ensures AcceptAll(r, SplitAll(msgs, size)) == Received([], r.delivered + Terminated(msgs))
    decreases |msgs|
  {
    hide Accept, AcceptAll, Split, Kept;
    if msgs == [] {
      AcceptAllNone(r);
      assert r.delivered + Terminated(msgs) == r.delivered;
    } else {
      var m := msgs[0];
      assert Carried(m, size);
      AcceptAllConcat(r, Split(m, size, 0), SplitAll(msgs[1..], size));
      MessageArrives(r, m, size);
      KeptIsAll(m, size);
      EmptyIsNeutral(m);
      var r' := Received([], r.delivered + [m + [0]]);
      assert AcceptAll(r, Split(m, size, 0)) == r';
      assert forall i :: 0 <= i < |msgs[1..]| ==> msgs[1..][i] == msgs[i + 1];
      MessagesArrive(r', msgs[1..], size);
      assert Terminated(msgs) == [m + [0]] + Terminated(msgs[1..]);
      Associates(r.delivered, [m + [0]], Terminated(msgs[1..]));
    }
  }

  // ----- many senders (unixDgramClient.cpp)

  /** A datagram and the socket path it came from; a delivered message and its sender. */
  datatype From<T> = From(path: string, body: T)

  /** `receivedChunksBySource`, and the log of messages handed to the callback. */
  datatype Demux = Demux(held: map<string, seq<seq<Byte>>>, log: seq<From<seq<Byte>>>)

  /** What came from one path, in order. */
  function Only<T>(all: seq<From<T>>, path: string): seq<T> {
    if all == [] then []
    else
      var front := Only(all[..|all| - 1], path);
      if all[|all| - 1].path == path then front + [all[|all| - 1].body] else front
  }

  function HeldFor(m: Demux, path: string): seq<seq<Byte>> {
    if path in m.held then m.held[path] else []
  }

  /** The receiver that one path would see if it had a socket of its own. */
  function View(m: Demux, path: string): Received {
    Received(HeldFor(m, path), Only(m.log, path))
  }

  /** One datagram (unixDgramClient.cpp:262-293). */
  function AcceptFrom(m: Demux, e: From<Datagram>): Demux {
    var d := CutOff(e.body);
    if |d| < HEADER_SIZE then m
    else
      var n := ChunkNumber(d);
      var chunks := (if n == 0 then [] else HeldFor(m, e.path)) + [d[HEADER_SIZE..]];
      if n == END_MARKER then Demux(m.held[e.path := []], m.log + [From(e.path, Concat(chunks) + [0])])
      else Demux(m.held[e.path := chunks], m.log)
  }

  function AcceptAllFrom(m: Demux, events: seq<From<Datagram>>): Demux {
    if events == [] then m else AcceptFrom(AcceptAllFrom(m, events[..|events| - 1]), events[|events| - 1])
  }

  class DemuxReceiver {
    var receivedChunksBySource: map<string, seq<seq<Byte>>>
    ghost var log: seq<From<seq<Byte>>>

    ghost function Value(): Demux
      reads this
    {
      Demux(receivedChunksBySource, log)
    }

    constructor ()
      ensures Value() == Demux(map[], [])
    {
      receivedChunksBySource, log := map[], [];
    }

    /** The body of the receive loop for one datagram. */
    method Handle(e: From<Datagram>) returns (message: seq<Byte>, complete: bool)
      modifies this
      ensures Value() == AcceptFrom(old(Value()), e)
      ensures log == old(log) + if complete then [From(e.path, message)] else []
    {
      message, complete := [], false;
      var buffer := CutOff(e.body);
      assert log == old(log) + [];
      if |buffer| < 2 { return; }
      hide Concat, ChunkNumber;
      var chunkNumber := ChunkNumber(buffer);
      if chunkNumber == 0 { receivedChunksBySource := receivedChunksBySource[e.path := []]; }
      var chunks := (if e.path in receivedChunksBySource then receivedChunksBySource[e.path] else []) + [buffer[2..]];
      receivedChunksBySource := receivedChunksBySource[e.path := chunks];
      if chunkNumber == END_MARKER {
        message := Reassemble(chunks);
        message := message + [0];
        complete := true;
        log := log + [From(e.path, message)];
        receivedChunksBySource := receivedChunksBySource[e.path := []];
      }
    }
  }

  lemma OnlySnoc<T>(all: seq<From<T>>, e: From<T>, path: string)
    ensures Only(all + [e], path) == if e.path == path then Only(all, path) + [e.body] else Only(all, path)
  {
    assert (all + [e])[..|all|] == all;
  }

  /** The sender's own view takes the datagram as a receiver for it alone would; no other view changes. */
  lemma OneSenderSteps(m: Demux, e: From<Datagram>, path: string)
    ensures View(AcceptFrom(m, e), path) == if path == e.path then Accept(View(m, path), e.body) else View(m, path)
  {
    hide Concat, ChunkNumber, Only;
    var d := CutOff(e.body);
    if |d| >= HEADER_SIZE && ChunkNumber(d) == END_MARKER {
      var chunks := HeldFor(m, e.path) + [d[HEADER_SIZE..]];
      OnlySnoc(m.log, From(e.path, Concat(chunks) + [0]), path);
    }
  }

  /** Over any interleaving of senders, each sender's view is that of a receiver of its own, fed
      that sender's datagrams alone. */
  lemma {:induction false} SendersAreIndependent(m: Demux, events: seq<From<Datagram>>, path: string)
    ensures View(AcceptAllFrom(m, events), path) == AcceptAll(View(m, path), Only(events, path))
  {
    hide Accept, View, AcceptAll, AcceptFrom;
    if events == [] {
      AcceptAllNone(View(m, path));
    } else {
      var front, e := events[..|events| - 1], events[|events| - 1];
      SendersAreIndependent(m, front, path);
      OneSenderSteps(AcceptAllFrom(m, front), e, path);
      if e.path == path {
        AcceptAllConcat(View(m, path), Only(front, path), [e.body]);
        AcceptAllCons(View(AcceptAllFrom(m, front), path), e.body, []);
        assert [e.body] + [] == [e.body];
        AcceptAllNone(Accept(View(AcceptAllFrom(m, front), path), e.body));
      }
    }
  }

  /** Whatever the other senders do, the messages of one sender are logged exactly, in its order,
      and nothing of it is held back. */
  lemma EverySenderIsServed(m: Demux, events: seq<From<Datagram>>, path: string, msgs: seq<seq<Byte>>, size: nat)
    requires size > 0 && forall i :: 0 <= i < |msgs| ==> Carried(msgs[i], size)
    requires HeldFor(m, path) == [] || (msgs != [] && |msgs[0]| > size)
    requires Only(events, path) == SplitAll(msgs, size)
    ensures HeldFor(AcceptAllFrom(m, events), path) == []
    ensures Only(AcceptAllFrom(m, events).log, path) == Only(m.log, path) + Terminated(msgs)
  {
    hide Accept, AcceptAll, Split, SplitAll, AcceptAllFrom, Only, HeldFor;
    SendersAreIndependent(m, events, path);
    MessagesArrive(View(m, path), msgs, size);
  }
}
