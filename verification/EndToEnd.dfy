/** Printer, ring, loop thread, network and parser together. */
module EndToEnd {
  import opened Bytes
  import opened NetBase
  import opened Scanner
  import opened Printing
  import opened SendPipeline
  import opened Reception
  import PacketSync
  import TcpClient
  import Schedules

  /** The Send calls of a thread that sends these packets one after the other. */
  function PrintCalls(link: Link, ps: seq<Frame>): (calls: seq<seq<Byte>>)
    ensures |calls| == |ps|
    ensures forall k :: 0 <= k < |ps| ==> calls[k] == Print(link, ps[k])
  {
    if ps == [] then [] else [Print(link, ps[0])] + PrintCalls(link, ps[1..])
  }

  lemma {:induction false} FlattenCalls(link: Link, ps: seq<Frame>)
    ensures Flatten(PrintCalls(link, ps)) == PrintAll(link, ps)
  {
    if ps == [] {
    } else {
      FlattenCalls(link, ps[1..]);
    }
  }

  /** What has been submitted is a prefix of what the only sender's packets print. */
  lemma SentIsPrefix<P>(link: Link, ps: seq<Frame>, capacity: nat, steps: seq<Step<P>>, s: State<P>)
    requires Reaches([PrintCalls(link, ps)], capacity, steps, s) && s.failures == 0
    ensures Flatten(s.sent) <= PrintAll(link, ps)
    ensures Drained(s) && AllSent(s) ==> Flatten(s.sent) == PrintAll(link, ps)
  {
    ReachedInv([PrintCalls(link, ps)], capacity, steps, s);
    OneSender(s);
    WrittenIsPrefix(s.senders[0]);
    FlattenCalls(link, ps);
    if Drained(s) {
      DrainedSent(s);
      assert s.chunks[|s.sent|..] == [];
      assert Flatten(s.sent) + [] + [] == Flatten(s.sent);
    }
  }

  lemma {:induction false} DeliveredPrefix(link: Link, ps: seq<Frame>, k: nat)
    requires k <= |ps|
    ensures DeliveredAll(link, ps[..k]) == DeliveredAll(link, ps)[..k]
  {
    if k == 0 {
      assert ps[..0] == [];
    } else {
      DeliveredPrefix(link, ps[1..], k - 1);
      PrintAllPrefix(link, ps, k - 1);
    }
  }

  /** What a parser makes of the first bytes of printed packets, and of all of them. */
  lemma ReadsPrefix(link: Link, ps: seq<Frame>, bytes: seq<Byte>, frames: seq<Frame>, kept: seq<Byte>)
    requires AllSendable(link, ps) && bytes <= PrintAll(link, ps)
    requires frames == Scan(link.Rules(), bytes).frames && Leads(link.Rules(), bytes, frames, kept)
    ensures frames <= DeliveredAll(link, ps)
    ensures bytes == PrintAll(link, ps) ==> frames == DeliveredAll(link, ps) && kept == []
  {
    var k := PrintPrefix(link, ps, bytes);
    DeliveredPrefix(link, ps, k);
    if bytes == PrintAll(link, ps) {
      PrintScan(link, ps);
      NothingKept(link, ps, kept);
    }
  }

  /** What was received yields the first of these packets, and all of them once everything was sent and received. */
  ghost predicate Delivers<P>(link: Link, ps: seq<Frame>, s: State<P>, received: seq<seq<Byte>>, calls: seq<seq<Frame>>,
                              packet: PacketSync.PacketSync)
    requires packet.Valid()
    reads packet, packet.readData, packet.packetData
  {
    && (s.failures == 0 ==> Concat(calls) <= DeliveredAll(link, ps))
    && (Drained(s) && AllSent(s) && Flatten(received) == Flatten(s.sent) ==>
          Concat(calls) == DeliveredAll(link, ps) && packet.Unprocessed() == [])
  }

  /** One sender, in every state that any steps reach, and any re-chunking of any prefix of the submitted bytes: as long
      as no uv_write has failed, the receiver delivers the sender's first packets, in order, each as the codec carries
      it; and all of them, keeping nothing back, once everything was sent and received. */
  method OneSenderDelivers<P>(link: Link, ps: seq<Frame>, ghost capacity: nat, ghost steps: seq<Step<P>>,
                              ghost s: State<P>, received: seq<seq<Byte>>)
      returns (calls: seq<seq<Frame>>, packet: PacketSync.PacketSync)
    requires AllSendable(link, ps)
    requires Reaches([PrintCalls(link, ps)], capacity, steps, s)
    requires Flatten(received) <= Flatten(s.sent)
    ensures |calls| == |received| && Heard(link, packet, received, calls)
    ensures Delivers(link, ps, s, received, calls, packet)
  {
    calls, packet := Receive(link, received);
    AllHeard(link, packet, received, calls);
    if s.failures == 0 {
      SentIsPrefix(link, ps, capacity, steps, s);
      ReadsPrefix(link, ps, Flatten(received), Concat(calls), packet.Unprocessed());
    }
  }

  // ---- The network ----

  /** TCP delivers the bytes in chunks of these sizes, as far as they go. */
  function Cut(bytes: seq<Byte>, sizes: seq<nat>): (chunks: seq<seq<Byte>>)
    ensures |chunks| == |sizes| && Flatten(chunks) <= bytes
  {
    if sizes == [] then []
    else
      var n := Min(sizes[0], |bytes|);
      [bytes[..n]] + Cut(bytes[n..], sizes[1..])
  }

  function Sizes(chunks: seq<seq<Byte>>): seq<nat> {
    seq(|chunks|, i requires 0 <= i < |chunks| => |chunks[i]|)
  }

  /** Every way of delivering every prefix is one of these. */
  lemma {:induction false} CutIsAny(bytes: seq<Byte>, chunks: seq<seq<Byte>>)
    requires Flatten(chunks) <= bytes
    ensures Cut(bytes, Sizes(chunks)) == chunks
  {
    if chunks == [] {
    } else {
      var n := |chunks[0]|;
      assert bytes[..n] == chunks[0];
      assert Flatten(chunks[1..]) <= bytes[n..];
      CutIsAny(bytes[n..], chunks[1..]);
      assert Sizes(chunks)[1..] == Sizes(chunks[1..]);
    }
  }

  function Sum(sizes: seq<nat>): nat {
    if sizes == [] then 0 else sizes[0] + Sum(sizes[1..])
  }

  lemma {:induction false} CutWhole(bytes: seq<Byte>, sizes: seq<nat>)
    requires |bytes| <= Sum(sizes)
    ensures Flatten(Cut(bytes, sizes)) == bytes
  {
    if sizes == [] {
    } else {
      var n := Min(sizes[0], |bytes|);
      CutWhole(bytes[n..], sizes[1..]);
      assert bytes == bytes[..n] + bytes[n..];
    }
  }

  /** The whole way on the heap: a new client with one sender of these packets goes through any events; what libuv has
      accepted from it arrives in any chunks at a new parser. As long as no uv_write fails, the first packets are
      delivered, and all of them once everything was sent and received. */
  method Transfer(link: Link, ps: seq<Frame>, events: seq<TcpClient.Event>, sizes: seq<nat>)
      returns (client: TcpClient.TCPClient, calls: seq<seq<Frame>>, packet: PacketSync.PacketSync,
               ghost states: seq<State<TcpClient.ClientWriteParam>>,
               ghost runs: seq<seq<Step<TcpClient.ClientWriteParam>>>)
    requires AllSendable(link, ps)
    ensures TcpClient.History(states, events, runs) && client.wire == client.state.sent
    ensures states[0] == Init([PrintCalls(link, ps)], BUFFER_SIZE) && states[|events|] == client.state
    ensures |calls| == |sizes| && Heard(link, packet, Cut(Flatten(client.wire), sizes), calls)
    ensures TcpClient.NoWriteFails(events) ==> Concat(calls) <= DeliveredAll(link, ps)
    ensures TcpClient.NoWriteFails(events) && AllSent(client.state) && client.state.ring == []
            && |Flatten(client.wire)| <= Sum(sizes) ==>
              Concat(calls) == DeliveredAll(link, ps) && packet.Unprocessed() == []
  {
    client, states, runs := TcpClient.Run([PrintCalls(link, ps)], events);
    Schedules.NoFailures(states, events, runs);
    var received := Cut(Flatten(client.wire), sizes);
    if |Flatten(client.wire)| <= Sum(sizes) {
      CutWhole(Flatten(client.wire), sizes);
    }
    calls, packet := OneSenderDelivers(link, ps, BUFFER_SIZE, TcpClient.AllSteps(runs), client.state, received);
  }

  /** With a pass and a signal in turn, as often as the packets need it, and enough chunks, every packet arrives. */
  method TransferAll(link: Link, ps: seq<Frame>, sizes: seq<nat>)
      returns (client: TcpClient.TCPClient, calls: seq<seq<Frame>>, packet: PacketSync.PacketSync)
    requires AllSendable(link, ps) && |PrintAll(link, ps)| <= Sum(sizes)
    ensures Flatten(client.wire) == PrintAll(link, ps)
    ensures |calls| == |sizes| && Heard(link, packet, Cut(PrintAll(link, ps), sizes), calls)
    ensures Concat(calls) == DeliveredAll(link, ps) && packet.Unprocessed() == []
  {
    var queue := PrintCalls(link, ps);
    var m := Schedules.Needed(Sender(queue, 0, 0));
    ghost var states, runs;
    client, states, runs := TcpClient.Run([queue], Schedules.Rounds(m));
    Schedules.RoundsSendAll(queue, states, m, runs);
    SentIsPrefix(link, ps, BUFFER_SIZE, TcpClient.AllSteps(runs), client.state);
    var received := Cut(Flatten(client.wire), sizes);
    CutWhole(Flatten(client.wire), sizes);
    calls, packet := ReceivePrinted(link, ps, received);
  }

  // ---- Several senders ----

  /** No sender has more pieces than packets. */
  ghost predicate Counted(progs: seq<seq<Frame>>, log: seq<Piece>) {
    && (forall k :: 0 <= k < |log| ==> log[k].who < |progs|)
    && (forall i :: 0 <= i < |progs| ==> |PiecesOf(log, i)| <= |progs[i]|)
  }

  lemma CountedEarlier(progs: seq<seq<Frame>>, log: seq<Piece>)
    requires Counted(progs, log) && log != []
    ensures Counted(progs, log[..|log| - 1])
    ensures var p, i := log[..|log| - 1], log[|log| - 1].who; |PiecesOf(p, i)| < |progs[i]|
  {
    var p, i := log[..|log| - 1], log[|log| - 1].who;
    assert |PiecesOf(log, i)| == |PiecesOf(p, i)| + 1;
    assert forall j :: 0 <= j < |progs| ==> |PiecesOf(p, j)| <= |PiecesOf(log, j)|;
  }

  /** The packets in the order in which they entered the ring, each with its sender. */
  ghost function Order(progs: seq<seq<Frame>>, log: seq<Piece>): seq<(nat, Frame)>
    requires Counted(progs, log)
  {
    if log == [] then []
    else
      CountedEarlier(progs, log);
      var p, i := log[..|log| - 1], log[|log| - 1].who;
      Order(progs, p) + [(i, progs[i][|PiecesOf(p, i)|])]
  }

  /** Every sender's pieces are its first calls. */
  ghost predicate Follows(link: Link, progs: seq<seq<Frame>>, log: seq<Piece>) {
    && Counted(progs, log)
    && forall i :: 0 <= i < |progs| ==> PiecesOf(log, i) <= PrintCalls(link, progs[i])
  }

  lemma FollowsEarlier(link: Link, progs: seq<seq<Frame>>, log: seq<Piece>)
    requires Follows(link, progs, log) && log != []
    ensures Follows(link, progs, log[..|log| - 1])
    ensures var p, i := log[..|log| - 1], log[|log| - 1].who;
            |PiecesOf(p, i)| < |progs[i]| && log[|log| - 1].bytes == Print(link, progs[i][|PiecesOf(p, i)|])
  {
    var p, i := log[..|log| - 1], log[|log| - 1].who;
    CountedEarlier(progs, log);
    assert PiecesOf(log, i) == PiecesOf(p, i) + [log[|log| - 1].bytes];
    assert PiecesOf(log, i)[|PiecesOf(p, i)|] == log[|log| - 1].bytes;
    forall j | 0 <= j < |progs|
      ensures PiecesOf(p, j) <= PrintCalls(link, progs[j])
    {
      assert PiecesOf(p, j) <= PiecesOf(log, j);
    }
  }

  function Packets(order: seq<(nat, Frame)>): seq<Frame> {
    if order == [] then [] else Packets(order[..|order| - 1]) + [order[|order| - 1].1]
  }

  function From(order: seq<(nat, Frame)>, i: nat): seq<Frame> {
    if order == [] then []
    else From(order[..|order| - 1], i) + (if order[|order| - 1].0 == i then [order[|order| - 1].1] else [])
  }

  lemma {:induction false} PrintSnoc(link: Link, ps: seq<Frame>, p: Frame)
    ensures PrintAll(link, ps + [p]) == PrintAll(link, ps) + Print(link, p)
  {
    if ps == [] {
      assert [p][1..] == [];
      assert PrintAll(link, [p]) == Print(link, p) + [];
    } else {
      PrintSnoc(link, ps[1..], p);
      assert (ps + [p])[1..] == ps[1..] + [p];
      Regroup(Print(link, ps[0]), PrintAll(link, ps[1..]), Print(link, p));
    }
  }

  lemma SendableSnoc(link: Link, ps: seq<Frame>, p: Frame)
    requires AllSendable(link, ps) && Sendable(link, p)
    ensures AllSendable(link, ps + [p])
  {}

  lemma PacketsSnoc(order: seq<(nat, Frame)>, x: (nat, Frame))
    ensures Packets(order + [x]) == Packets(order) + [x.1]
  {
    assert (order + [x])[..|order|] == order;
  }

  lemma {:induction false} OrderIsStream(link: Link, progs: seq<seq<Frame>>, log: seq<Piece>)
    requires Follows(link, progs, log) && forall i :: 0 <= i < |progs| ==> AllSendable(link, progs[i])
    ensures BytesOf(log) == PrintAll(link, Packets(Order(progs, log)))
    ensures AllSendable(link, Packets(Order(progs, log)))
  {
    if log == [] {
    } else {
      var p, last := log[..|log| - 1], log[|log| - 1];
      FollowsEarlier(link, progs, log);
      OrderIsStream(link, progs, p);
      assert BytesOf(log) == BytesOf(p) + last.bytes;
      var order, packet := Order(progs, p), progs[last.who][|PiecesOf(p, last.who)|];
      assert Order(progs, log) == order + [(last.who, packet)];
      PacketsSnoc(order, (last.who, packet));
      PrintSnoc(link, Packets(order), packet);
      assert last.bytes == Print(link, packet);
      SendableSnoc(link, Packets(order), packet);
    }
  }

  lemma OneMore(s: seq<Frame>, n: nat)
    requires n < |s|
    ensures s[..n + 1] == s[..n] + [s[n]]
  {}

  lemma FromSnoc(order: seq<(nat, Frame)>, x: (nat, Frame), i: nat)
    ensures From(order + [x], i) == if x.0 == i then From(order, i) + [x.1] else From(order, i)
  {
    assert (order + [x])[..|order|] == order;
    assert From(order, i) + [] == From(order, i);
  }

  lemma {:induction false} OrderKeepsEach(progs: seq<seq<Frame>>, log: seq<Piece>, i: nat)
    requires Counted(progs, log) && i < |progs|
    ensures From(Order(progs, log), i) == progs[i][..|PiecesOf(log, i)|]
  {
    if log == [] {
    } else {
      var p, who := log[..|log| - 1], log[|log| - 1].who;
      CountedEarlier(progs, log);
      OrderKeepsEach(progs, p, i);
      FromSnoc(Order(progs, p), (who, progs[who][|PiecesOf(p, who)|]), i);
      if who == i {
        assert |PiecesOf(log, i)| == |PiecesOf(p, i)| + 1;
        OneMore(progs[i], |PiecesOf(p, i)|);
      } else {
        assert PiecesOf(log, i) == PiecesOf(p, i);
      }
    }
  }

  function ProgramCalls(link: Link, progs: seq<seq<Frame>>): seq<seq<seq<Byte>>> {
    seq(|progs|, i requires 0 <= i < |progs| => PrintCalls(link, progs[i]))
  }

  /** Every sender's merged pieces are its first calls, except that the last piece may be the first part of a call. */
  ghost predicate Covers(link: Link, progs: seq<seq<Frame>>, m: seq<Piece>, unfinished: bool) {
    if !unfinished then Follows(link, progs, m)
    else
      && m != [] && Counted(progs, m)
      && var p, x := m[..|m| - 1], m[|m| - 1];
         && Follows(link, progs, p)
         && |PiecesOf(p, x.who)| < |progs[x.who]| && x.bytes <= Print(link, progs[x.who][|PiecesOf(p, x.who)|])
  }

  lemma CoversStream(link: Link, progs: seq<seq<Frame>>, m: seq<Piece>, unfinished: bool)
    requires Covers(link, progs, m, unfinished) && forall i :: 0 <= i < |progs| ==> AllSendable(link, progs[i])
    ensures Counted(progs, m) && AllSendable(link, Packets(Order(progs, m)))
    ensures BytesOf(m) <= PrintAll(link, Packets(Order(progs, m)))
    ensures !unfinished ==> BytesOf(m) == PrintAll(link, Packets(Order(progs, m)))
  {
    if !unfinished {
      OrderIsStream(link, progs, m);
    } else {
      var p, x := m[..|m| - 1], m[|m| - 1];
      OrderIsStream(link, progs, p);
      var order, packet := Order(progs, p), progs[x.who][|PiecesOf(p, x.who)|];
      assert Order(progs, m) == order + [(x.who, packet)];
      PacketsSnoc(order, (x.who, packet));
      PrintSnoc(link, Packets(order), packet);
      SendableSnoc(link, Packets(order), packet);
      assert BytesOf(m) == BytesOf(p) + x.bytes;
    }
  }

  /** How many packets a sender has begun to send. */
  function Started(sender: Sender): nat {
    sender.call + if sender.iret > 0 then 1 else 0
  }

  lemma AllEnded<P>(link: Link, progs: seq<seq<Frame>>, s: State<P>, m: seq<Piece>)
    requires InRange(s) && CallsInOrder(s) && Unbroken(s.log) && !Unfinished(s.log) && m == Merged(s.log)
    requires |s.senders| == |progs| && Counted(progs, m)
    requires forall i :: 0 <= i < |progs| ==> s.senders[i].queue == PrintCalls(link, progs[i])
    ensures Covers(link, progs, m, false)
  {
    forall i | 0 <= i < |progs|
      ensures PiecesOf(m, i) <= PrintCalls(link, progs[i])
    {
      assert PiecesOf(m, i) == Begun(s.senders[i]);
    }
  }

  lemma {:induction false} MergedWho(log: seq<Piece>, n: nat)
    requires forall k :: 0 <= k < |log| ==> log[k].who < n
    ensures forall k :: 0 <= k < |Merged(log)| ==> Merged(log)[k].who < n
  {
    if log == [] {
    } else {
      MergedWho(log[..|log| - 1], n);
    }
  }

  /** The pieces of a sender before the last piece, which is `mine` if it is this sender's. */
  lemma EarlierCalls(sender: Sender, earlier: seq<seq<Byte>>, bytes: seq<Byte>, mine: bool)
    requires CursorInRange(sender) && Begun(sender) == earlier + (if mine then [bytes] else [])
    requires sender.iret > 0 <==> mine
    ensures earlier == sender.queue[..sender.call]
    ensures mine ==> sender.call < |sender.queue| && bytes == sender.queue[sender.call][..sender.iret]
  {
    if mine {
      assert Begun(sender)[sender.call] == bytes;
      assert Begun(sender)[..sender.call] == earlier;
    } else {
      assert earlier + [] == earlier;
    }
  }

  lemma LastBegun<P>(link: Link, progs: seq<seq<Frame>>, s: State<P>, m: seq<Piece>)
    requires InRange(s) && CallsInOrder(s) && Unbroken(s.log) && Unfinished(s.log) && m == Merged(s.log)
    requires |s.senders| == |progs| && Counted(progs, m)
    requires forall i :: 0 <= i < |progs| ==> s.senders[i].queue == PrintCalls(link, progs[i])
    ensures Covers(link, progs, m, true)
  {
    var p, x := m[..|m| - 1], m[|m| - 1];
    CountedEarlier(progs, m);
    forall i | 0 <= i < |progs|
      ensures PiecesOf(p, i) == s.senders[i].queue[..s.senders[i].call]
    {
      EarlierCalls(s.senders[i], PiecesOf(p, i), x.bytes, x.who == i);
    }
    assert Follows(link, progs, p);
    var sender := s.senders[x.who];
    EarlierCalls(sender, PiecesOf(p, x.who), x.bytes, true);
    assert |PiecesOf(p, x.who)| == sender.call;
    assert sender.queue[sender.call] == Print(link, progs[x.who][sender.call]);
  }

  lemma AllCover<P>(link: Link, progs: seq<seq<Frame>>, capacity: nat, steps: seq<Step<P>>, s: State<P>)
    requires Reaches(ProgramCalls(link, progs), capacity, steps, s) && Unbroken(s.log)
    ensures |s.senders| == |progs| && Covers(link, progs, Merged(s.log), Unfinished(s.log))
    ensures forall i :: 0 <= i < |progs| ==> |PiecesOf(Merged(s.log), i)| == Started(s.senders[i]) <= |progs[i]|
  {
    ReachedInv(ProgramCalls(link, progs), capacity, steps, s);
    var m := Merged(s.log);
    forall i | 0 <= i < |progs|
      ensures s.senders[i].queue == PrintCalls(link, progs[i])
      ensures |PiecesOf(m, i)| == Started(s.senders[i]) <= |progs[i]|
    {
      assert s.senders[i].queue == Init<P>(ProgramCalls(link, progs), capacity).senders[i].queue;
      assert PiecesOf(m, i) == Begun(s.senders[i]);
    }
    MergedWho(s.log, |progs|);
    assert Counted(progs, m);
    if Unfinished(s.log) {
      LastBegun(link, progs, s, m);
    } else {
      AllEnded(link, progs, s, m);
    }
  }

  lemma SentFromLog<P>(s: State<P>)
    requires Inv(s) && s.failures == 0
    ensures Flatten(s.sent) <= BytesOf(s.log)
    ensures Drained(s) ==> Flatten(s.sent) == BytesOf(s.log)
  {
    if Drained(s) {
      DrainedSent(s);
    }
    assert s.chunks == s.sent + s.chunks[|s.sent|..];
    FlattenAppend(s.sent, s.chunks[|s.sent|..]);
  }

  /** The packets of all senders in the order in which they entered the ring; only the last may be incomplete. */
  lemma MergedOrder<P>(link: Link, progs: seq<seq<Frame>>, capacity: nat, steps: seq<Step<P>>, s: State<P>)
      returns (order: seq<(nat, Frame)>)
    requires forall i :: 0 <= i < |progs| ==> AllSendable(link, progs[i])
    requires Reaches(ProgramCalls(link, progs), capacity, steps, s) && s.failures == 0 && Unbroken(s.log)
    ensures AllSendable(link, Packets(order)) && Flatten(s.sent) <= PrintAll(link, Packets(order))
    ensures Drained(s) && !Unfinished(s.log) ==> Flatten(s.sent) == PrintAll(link, Packets(order))
    ensures |s.senders| == |progs|
    ensures forall i :: 0 <= i < |progs| ==>
                          Started(s.senders[i]) <= |progs[i]| && From(order, i) == progs[i][..Started(s.senders[i])]
  {
    AllCover(link, progs, capacity, steps, s);
    ReachedInv(ProgramCalls(link, progs), capacity, steps, s);
    var m := Merged(s.log);
    CoversStream(link, progs, m, Unfinished(s.log));
    order := Order(progs, m);
    MergedBytes(s.log);
    SentFromLog(s);
    forall i | 0 <= i < |progs|
      ensures Started(s.senders[i]) <= |progs[i]| && From(order, i) == progs[i][..Started(s.senders[i])]
    {
      OrderKeepsEach(progs, m, i);
    }
  }

  /** Every sender's packets, as far as it has begun them, are merged in `order`, and these frames are the first of
      them. */
  ghost predicate DeliversInOrder<P>(link: Link, progs: seq<seq<Frame>>, s: State<P>, order: seq<(nat, Frame)>,
                                     frames: seq<Frame>) {
    && frames <= DeliveredAll(link, Packets(order))
    && |s.senders| == |progs|
    && forall i :: 0 <= i < |progs| ==>
                     Started(s.senders[i]) <= |progs[i]| && From(order, i) == progs[i][..Started(s.senders[i])]
  }

  /** Any number of senders, in every state without a failed uv_write in which nothing came between the pieces of a
      call, and any re-chunking of any prefix of the submitted bytes: the receiver delivers whole packets only, every
      sender's in its own order, merged in ring order; and all of them, keeping nothing back, once everything was sent
      and received and no sender is in the middle of a packet. */
  method ManySendersDeliver<P>(link: Link, ghost progs: seq<seq<Frame>>, ghost capacity: nat, ghost steps: seq<Step<P>>,
                               ghost s: State<P>, received: seq<seq<Byte>>)
      returns (calls: seq<seq<Frame>>, packet: PacketSync.PacketSync, ghost order: seq<(nat, Frame)>)
    requires forall i :: 0 <= i < |progs| ==> AllSendable(link, progs[i])
    requires Reaches(ProgramCalls(link, progs), capacity, steps, s) && s.failures == 0 && Unbroken(s.log)
    requires Flatten(received) <= Flatten(s.sent)
    ensures |calls| == |received| && Heard(link, packet, received, calls)
    ensures DeliversInOrder(link, progs, s, order, Concat(calls))
    ensures Drained(s) && !Unfinished(s.log) && Flatten(received) == Flatten(s.sent) ==>
              Concat(calls) == DeliveredAll(link, Packets(order)) && packet.Unprocessed() == []
  {
    order := MergedOrder(link, progs, capacity, steps, s);
    calls, packet := Receive(link, received);
    AllHeard(link, packet, received, calls);
    ReadsPrefix(link, Packets(order), Flatten(received), Concat(calls), packet.Unprocessed());
  }

  /** Nobody else sends, or all calls together fit the ring. */
  predicate NothingBetween(calls: seq<seq<seq<Byte>>>) {
    |calls| <= 1 || Total(calls) <= BUFFER_SIZE
  }

  lemma NothingBetweenUnbroken<P>(queues: seq<seq<seq<Byte>>>, steps: seq<Step<P>>, s: State<P>)
    requires Reaches(queues, BUFFER_SIZE, steps, s) && NothingBetween(queues)
    ensures Unbroken(s.log)
  {
    if |queues| <= 1 {
      AloneReached(queues, BUFFER_SIZE, steps, s);
    } else {
      FitReached(queues, BUFFER_SIZE, steps, s);
    }
  }

  /** The same on the heap: a new client with any senders goes through any events. */
  method TransferMany(link: Link, progs: seq<seq<Frame>>, events: seq<TcpClient.Event>, sizes: seq<nat>)
      returns (client: TcpClient.TCPClient, calls: seq<seq<Frame>>, packet: PacketSync.PacketSync,
               ghost states: seq<State<TcpClient.ClientWriteParam>>,
               ghost runs: seq<seq<Step<TcpClient.ClientWriteParam>>>, ghost order: seq<(nat, Frame)>)
    requires forall i :: 0 <= i < |progs| ==> AllSendable(link, progs[i])
    ensures TcpClient.History(states, events, runs) && client.wire == client.state.sent
    ensures states[0] == Init(ProgramCalls(link, progs), BUFFER_SIZE) && states[|events|] == client.state
    ensures |calls| == |sizes| && Heard(link, packet, Cut(Flatten(client.wire), sizes), calls)
    ensures NothingBetween(ProgramCalls(link, progs)) ==> Unbroken(client.state.log)
    ensures TcpClient.NoWriteFails(events) && Unbroken(client.state.log) ==>
              && DeliversInOrder(link, progs, client.state, order, Concat(calls))
              && (client.state.ring == [] && !Unfinished(client.state.log) && |Flatten(client.wire)| <= Sum(sizes) ==>
                    Concat(calls) == DeliveredAll(link, Packets(order)) && packet.Unprocessed() == [])
  {
    client, states, runs := TcpClient.Run(ProgramCalls(link, progs), events);
    Schedules.NoFailures(states, events, runs);
    var received := Cut(Flatten(client.wire), sizes);
    if |Flatten(client.wire)| <= Sum(sizes) {
      CutWhole(Flatten(client.wire), sizes);
    }
    calls, packet := Receive(link, received);
    order := [];
    if NothingBetween(ProgramCalls(link, progs)) {
      NothingBetweenUnbroken(ProgramCalls(link, progs), TcpClient.AllSteps(runs), client.state);
    }
    if TcpClient.NoWriteFails(events) && Unbroken(client.state.log) {
      order := MergedOrder(link, progs, BUFFER_SIZE, TcpClient.AllSteps(runs), client.state);
      AllHeard(link, packet, received, calls);
      ReadsPrefix(link, Packets(order), Flatten(received), Concat(calls), packet.Unprocessed());
    }
  }
}
