/** Whole streams through a fresh parser, chunk by chunk, as the read callbacks feed it. */
module Reception {
  import opened Bytes
  import opened NetBase
  import opened Scanner
  import opened Framing
  import opened Printing
  import PacketSync

  function Concat(calls: seq<seq<Frame>>): seq<Frame> {
    if calls == [] then [] else Concat(calls[..|calls| - 1]) + calls[|calls| - 1]
  }

  /** After i chunks exactly the frames of the bytes received so far have been delivered. */
  ghost predicate PromptAt(rules: Rules, chunks: seq<seq<Byte>>, calls: seq<seq<Frame>>, i: nat)
    requires i <= |calls| && i <= |chunks|
  {
    Concat(calls[..i]) == Scan(rules, Flatten(chunks[..i])).frames
  }

  /** ... after every chunk. */
  ghost predicate Prompt(rules: Rules, chunks: seq<seq<Byte>>, calls: seq<seq<Frame>>) {
    |calls| <= |chunks| && forall i :: 0 <= i <= |calls| ==> PromptAt(rules, chunks, calls, i)
  }

  lemma PromptSnoc(rules: Rules, chunks: seq<seq<Byte>>, calls: seq<seq<Frame>>, frames: seq<Frame>)
    requires Prompt(rules, chunks, calls) && |calls| < |chunks|
    requires Concat(calls + [frames]) == Scan(rules, Flatten(chunks[..|calls| + 1])).frames
    ensures Prompt(rules, chunks, calls + [frames])
  {
    var all := calls + [frames];
    forall i | 0 <= i <= |all|
      ensures PromptAt(rules, chunks, all, i)
    {
      if i <= |calls| {
        assert PromptAt(rules, chunks, calls, i);
        assert all[..i] == calls[..i];
      } else {
        assert all[..i] == all;
      }
    }
  }

  /** The parser is set up for the link, has been fed the first chunks and has delivered their frames. */
  ghost predicate Heard(link: Link, p: PacketSync.PacketSync, chunks: seq<seq<Byte>>, calls: seq<seq<Frame>>)
    reads p, p.readData, p.packetData
  {
    && p.Valid()
    && p.Cfg() == link.Cfg()
    && Prompt(link.Rules(), chunks, calls)
    && Leads(link.Rules(), Flatten(chunks[..|calls|]), Concat(calls), p.Unprocessed())
    && Scan(link.Rules(), p.Unprocessed()).frames == []
  }

  lemma Empty(rules: Rules)
    ensures Scan(rules, []) == Scanned([], []) && Leads(rules, [], [], [])
  {
    LeadsToNothing(rules, [], []);
  }

  method Open(link: Link, ghost chunks: seq<seq<Byte>>) returns (p: PacketSync.PacketSync)
    ensures fresh(p) && fresh(p.readData) && fresh(p.packetData) && Heard(link, p, chunks, [])
  {
    p := new PacketSync.PacketSync(link.little, link.md5);
    p.Start(link.head, link.tail);
    Empty(link.Rules());
  }

  lemma Extend(rules: Rules, chunks: seq<seq<Byte>>, n: nat, calls: seq<seq<Frame>>, u: seq<Byte>, frames: seq<Frame>,
               v: seq<Byte>)
    requires n < |chunks|
    requires Leads(rules, Flatten(chunks[..n]), Concat(calls), u) && Leads(rules, u + chunks[n], frames, v)
    requires Scan(rules, v).frames == []
    ensures Leads(rules, Flatten(chunks[..n + 1]), Concat(calls + [frames]), v)
    ensures Concat(calls + [frames]) == Scan(rules, Flatten(chunks[..n + 1])).frames
  {
    var s := Flatten(chunks[..n]);
    assert chunks[..n + 1] == chunks[..n] + [chunks[n]];
    FlattenSnoc(chunks[..n], chunks[n]);
    LeadsExtend(rules, s, Concat(calls), u, chunks[n]);
    LeadsTrans(rules, s + chunks[n], Concat(calls), u + chunks[n], frames, v);
    assert (calls + [frames])[..|calls|] == calls;
    LeadsScan(rules, s + chunks[n], Concat(calls) + frames, v);
    assert Concat(calls) + frames + [] == Concat(calls) + frames;
  }

  lemma HeardMore(rules: Rules, chunks: seq<seq<Byte>>, calls: seq<seq<Frame>>, u: seq<Byte>, frames: seq<Frame>,
                  v: seq<Byte>)
    requires Prompt(rules, chunks, calls) && |calls| < |chunks|
    requires Leads(rules, Flatten(chunks[..|calls|]), Concat(calls), u) && Leads(rules, u + chunks[|calls|], frames, v)
    requires Scan(rules, v).frames == []
    ensures Prompt(rules, chunks, calls + [frames])
    ensures Leads(rules, Flatten(chunks[..|calls + [frames]|]), Concat(calls + [frames]), v)
  {
    var n := |calls|;
    assert |calls + [frames]| == n + 1;
    Extend(rules, chunks, n, calls, u, frames, v);
    PromptSnoc(rules, chunks, calls, frames);
  }

  method Hear(link: Link, p: PacketSync.PacketSync, chunks: seq<seq<Byte>>, calls: seq<seq<Frame>>)
      returns (frames: seq<Frame>)
    requires Heard(link, p, chunks, calls) && |calls| < |chunks|
    modifies p, p.readData, p.packetData
    ensures Heard(link, p, chunks, calls + [frames])
    ensures p.readData == old(p.readData) || fresh(p.readData)
    ensures p.packetData == old(p.packetData) || fresh(p.packetData)
  {
    ghost var rules, u := RulesOf(p.Cfg()), p.Unprocessed();
    frames := p.RecvData(chunks[|calls|]);
    HeardMore(rules, chunks, calls, u, frames, p.Unprocessed());
  }

  lemma AllHeard(link: Link, packet: PacketSync.PacketSync, received: seq<seq<Byte>>, calls: seq<seq<Frame>>)
    requires Heard(link, packet, received, calls) && |calls| == |received|
    ensures Concat(calls) == Scan(link.Rules(), Flatten(received)).frames
    ensures Leads(link.Rules(), Flatten(received), Concat(calls), packet.Unprocessed())
  {
    assert received[..|received|] == received && calls[..|calls|] == calls;
    assert PromptAt(link.Rules(), received, calls, |calls|);
  }

  /** Feeds the chunks to a fresh parser in order; calls[i] is what the callback was given during chunk i. The way the
      stream is cut does not matter. */
  method Receive(link: Link, chunks: seq<seq<Byte>>) returns (calls: seq<seq<Frame>>, packet: PacketSync.PacketSync)
    ensures fresh(packet) && fresh(packet.readData) && fresh(packet.packetData)
    ensures |calls| == |chunks| && Heard(link, packet, chunks, calls)
    ensures Leads(link.Rules(), Flatten(chunks), Concat(calls), packet.Unprocessed())
    ensures Concat(calls) == Scan(link.Rules(), Flatten(chunks)).frames
    ensures var fs := Concat(calls);
            forall i :: 0 <= i < |fs| ==>
                          && link.tail < 128 && fs[i].head.header == link.head && fs[i].head.tail == link.tail
                          && fs[i].head.datalen == |fs[i].data|
                          && fs[i].head.check == if fs[i].data == [] then seq(16, _ => 0) else link.md5(fs[i].data)
  {
    packet := Open(link, chunks);
    calls := [];
    while |calls| < |chunks|
      invariant |calls| <= |chunks| && Heard(link, packet, chunks, calls)
      invariant fresh(packet) && fresh(packet.readData) && fresh(packet.packetData)
    {
      var frames := Hear(link, packet, chunks, calls);
      calls := calls + [frames];
    }
    assert chunks[..|chunks|] == chunks;
    AllHeard(link, packet, chunks, calls);
    LeadsGenuine(link.Cfg(), Flatten(chunks), Concat(calls), packet.Unprocessed());
  }

  /** Printed packets, cut anywhere: every payload arrives, in order, and nothing is kept back. */
  method ReceivePrinted(link: Link, ghost ps: seq<Frame>, chunks: seq<seq<Byte>>)
      returns (calls: seq<seq<Frame>>, packet: PacketSync.PacketSync)
    requires AllSendable(link, ps) && Flatten(chunks) == PrintAll(link, ps)
    ensures fresh(packet) && fresh(packet.readData) && fresh(packet.packetData)
    ensures |calls| == |chunks| && Heard(link, packet, chunks, calls)
    ensures Concat(calls) == DeliveredAll(link, ps) && packet.Unprocessed() == []
  {
    calls, packet := Receive(link, chunks);
    AllHeard(link, packet, chunks, calls);
    PrintScan(link, ps);
    NothingKept(link, ps, packet.Unprocessed());
  }

  /** Harmless noise of any length before printed packets, cut anywhere: every payload still arrives, and after the last
      one nothing is kept back. */
  method ReceiveAfterNoise(link: Link, ghost noise: seq<Byte>, ghost ps: seq<Frame>, chunks: seq<seq<Byte>>)
      returns (calls: seq<seq<Frame>>, packet: PacketSync.PacketSync)
    requires AllSendable(link, ps) && Flatten(chunks) == noise + PrintAll(link, ps)
    requires forall p :: 0 <= p < |noise| ==> Harmless(link, noise + PrintAll(link, ps), p)
    ensures fresh(packet) && fresh(packet.readData) && fresh(packet.packetData)
    ensures |calls| == |chunks| && Heard(link, packet, chunks, calls)
    ensures Concat(calls) == DeliveredAll(link, ps) && (ps != [] ==> packet.Unprocessed() == [])
  {
    calls, packet := Receive(link, chunks);
    AllHeard(link, packet, chunks, calls);
    Resync(link, noise, ps);
    if ps != [] {
      NothingKeptAfterNoise(link, noise, ps, packet.Unprocessed());
    }
  }
}
