/** The printer, PacketData, and what the scanner makes of printed packets. */
module Printing {
  import opened Bytes
  import opened NetBase
  import opened Scanner
  import opened Framing

  /** What both ends of a connection agree on. */
  datatype Link = Link(head: Byte, tail: Byte, little: bool, md5: seq<Byte> -> Digest) {
    function Cfg(): Config {
      Config(head, tail, HeaderReader(little), md5)
    }

    ghost function Rules(): Rules {
      RulesOf(Cfg())
    }
  }

  /** HEAD, header, payload, TAIL, for a header that has its check already. */
  function Printed(little: bool, h: NetPacket, data: seq<Byte>): seq<Byte> {
    [h.header] + HeaderToBytes(little, h) + data + [h.tail]
  }

  function Checked(link: Link, p: Frame): NetPacket {
    p.head.(check := Checksum(link.md5, p.data))
  }

  /** A packet as its sender prints it, the check filled in. */
  function Print(link: Link, p: Frame): seq<Byte> {
    Printed(link.little, Checked(link, p), p.data)
  }

  /** Appends the pieces of a packet in order. `data` may be empty for the source's null pointer. */
  method PacketData(little: bool, md5: seq<Byte> -> Digest, packet: NetPacket, data: seq<Byte>)
      returns (checked: NetPacket, retstr: seq<Byte>)
    requires 0 <= packet.datalen <= |data|
    ensures checked == packet.(check := checked.check)
    ensures checked.check == if packet.datalen == 0 then seq(16, _ => 0) else md5(data[..packet.datalen])
    ensures retstr == [packet.header] + HeaderToBytes(little, checked) + data[..packet.datalen] + [packet.tail]
    ensures packet.datalen == |data| ==>
              retstr == Print(Link(packet.header, packet.tail, little, md5), Frame(packet, data))
  {
    NoCheck();
    if packet.datalen == 0 || data == [] {
      checked := packet.(check := ZERO_CHECK);
    } else {
      checked := packet.(check := md5(data[..packet.datalen]));
    }
    var packchar := new Byte[HEADLEN];
    NetPacketToChar(little, checked, packchar);
    assert packchar[..] == HeaderToBytes(little, checked);
    retstr := [checked.header];
    retstr := retstr + packchar[..];
    retstr := retstr + data[..packet.datalen];
    retstr := retstr + [checked.tail];
    if packet.datalen == |data| {
      assert data[..packet.datalen] == data;
      assert checked == Checked(Link(packet.header, packet.tail, little, md5), Frame(packet, data));
    }
  }

  function PrintAll(link: Link, ps: seq<Frame>): seq<Byte> {
    if ps == [] then [] else Print(link, ps[0]) + PrintAll(link, ps[1..])
  }

  /** What the other end's callback is given for p: the payload, and the header as the codec carries it. */
  function Delivered(link: Link, p: Frame): (f: Frame)
    ensures f.data == p.data && f.head.header == p.head.header && f.head.tail == p.head.tail
    ensures f.head.check == if p.data == [] then seq(16, _ => 0) else link.md5(p.data)
    ensures f.head.version == Carried(link.little, p.head.version) && f.head.kind == Carried(link.little, p.head.kind)
    ensures f.head.datalen == Carried(link.little, p.head.datalen)
    ensures f.head.reserve == Carried(link.little, p.head.reserve)
  {
    HeaderCarried(link.little, Checked(link, p));
    NoCheck();
    Frame(BytesToHeader(link.little, HeaderToBytes(link.little, Checked(link, p))), p.data)
  }

  /** The header arrives as it was sent exactly when its four int32 fields survive the codec. */
  lemma DeliveredUnchanged(link: Link, p: Frame)
    ensures Delivered(link, p) == Frame(Checked(link, p), p.data) <==>
            Exact(link.little, p.head.version) && Exact(link.little, p.head.kind)
            && Exact(link.little, p.head.datalen) && Exact(link.little, p.head.reserve)
  {
    HeaderExact(link.little, Checked(link, p));
  }

  function DeliveredAll(link: Link, ps: seq<Frame>): (fs: seq<Frame>)
    ensures |fs| == |ps| && forall k :: 0 <= k < |ps| ==> fs[k] == Delivered(link, ps[k])
  {
    if ps == [] then [] else [Delivered(link, ps[0])] + DeliveredAll(link, ps[1..])
  }

  /** The sender has filled in the markers and the length of the payload. */
  predicate Addressed(link: Link, p: Frame) {
    p.head.header == link.head && p.head.tail == link.tail && p.head.datalen == |p.data|
  }

  /** ... and the link can carry it. */
  predicate Sendable(link: Link, p: Frame) {
    Addressed(link, p) && link.tail < 128 && Exact(link.little, p.head.datalen)
  }

  predicate AllSendable(link: Link, ps: seq<Frame>) {
    forall i :: 0 <= i < |ps| ==> Sendable(link, ps[i])
  }

  lemma PrintedHeader(link: Link, p: Frame, t: seq<Byte>)
    requires Addressed(link, p)
    ensures var s, f := Print(link, p) + t, Delivered(link, p);
            && Decode(link.Cfg(), s[1..1 + HEADLEN]) == f.head
            && f.head ==
               Checked(link, p).(version := f.head.version, kind := f.head.kind, datalen := f.head.datalen,
                                 reserve := f.head.reserve)
            && (f.head.datalen == |p.data| <==> Exact(link.little, p.head.datalen))
  {
    HeaderCarried(link.little, Checked(link, p));
    CarriedExactly(link.little, p.head.datalen);
    assert (Print(link, p) + t)[1..1 + HEADLEN] == HeaderToBytes(link.little, Checked(link, p));
  }

  lemma PrintedAccepted(link: Link, p: Frame, t: seq<Byte>)
    requires Sendable(link, p)
    ensures Judge(link.Rules(), Print(link, p) + t) == Accept(Delivered(link, p))
  {
    var header, f := HeaderToBytes(link.little, Checked(link, p)), Delivered(link, p);
    PrintedHeader(link, p, t);
    FrameAccepted(link.Cfg(), header, f, t);
    assert Print(link, p) == FrameBytes(link.Cfg(), header, f);
  }

  lemma NotSendable(cfg: Config, s: seq<Byte>, h: NetPacket)
    requires |s| >= 1 + HEADLEN && Decode(cfg, s[1..1 + HEADLEN]) == h
    ensures var v := Judge(RulesOf(cfg), s); v.Accept? ==> cfg.tail < 128 && |v.frame.data| == h.datalen
  {
    JudgeIsVerdict(cfg, s);
  }

  /** The payload of a printed packet is delivered, whatever follows it, exactly when TAIL is below 0x80 and the
      length survives the integer codec. */
  lemma PrintedJudged(link: Link, p: Frame, t: seq<Byte>)
    requires p.head.header == link.head && p.head.tail == link.tail && p.head.datalen == |p.data|
    ensures var v := Judge(link.Rules(), Print(link, p) + t);
            && (v.Accept? && v.frame.data == p.data <==>
                link.tail < 128 && Carried(link.little, p.head.datalen) == p.head.datalen)
            && (v.Accept? && v.frame.data == p.data <==> Sendable(link, p))
            && (Sendable(link, p) ==> v == Accept(Delivered(link, p)))
  {
    CarriedExactly(link.little, p.head.datalen);
    PrintedHeader(link, p, t);
    if Sendable(link, p) {
      PrintedAccepted(link, p, t);
    } else {
      NotSendable(link.Cfg(), Print(link, p) + t, Delivered(link, p).head);
    }
  }

  lemma Regroup(a: seq<Byte>, b: seq<Byte>, c: seq<Byte>)
    ensures a + b + c == a + (b + c)
  {}

  lemma BehindPrint(link: Link, p: Frame, u: seq<Byte>)
    ensures |Print(link, p)| == FrameLen(Delivered(link, p))
    ensures (Print(link, p) + u)[FrameLen(Delivered(link, p))..] == u
  {}

  /** Any packet that carries the markers and the length of its payload can be sent from a little-endian host, if TAIL
      is below 0x80 and the payload below 32768 bytes. */
  lemma SmallIsSendable(link: Link, p: Frame)
    requires link.little && link.tail < 128 && |p.data| < 32768
    requires p.head.header == link.head && p.head.tail == link.tail && p.head.datalen == |p.data|
    ensures Sendable(link, p)
  {
    LittleEndianRange(p.head.datalen);
    CarriedExactly(true, p.head.datalen);
  }

  lemma PrintedStep(link: Link, p: Frame, u: seq<Byte>, fs: seq<Frame>, t: seq<Byte>)
    requires Sendable(link, p) && Leads(link.Rules(), u, fs, t)
    ensures Leads(link.Rules(), Print(link, p) + u, [Delivered(link, p)] + fs, t)
  {
    PrintedJudged(link, p, u);
    BehindPrint(link, p, u);
    LeadsFirst(link.Rules(), Print(link, p) + u, Delivered(link, p), u, fs, t);
  }

  /** Printed packets, cut off nowhere, are delivered one by one, and leave the scanner exactly behind them. */
  lemma {:induction false} PrintedLead(link: Link, ps: seq<Frame>, t: seq<Byte>)
    requires AllSendable(link, ps)
    ensures Leads(link.Rules(), PrintAll(link, ps) + t, DeliveredAll(link, ps), t)
  {
    if ps == [] {
      assert PrintAll(link, ps) + t == t;
    } else {
      var u := PrintAll(link, ps[1..]) + t;
      PrintedLead(link, ps[1..], t);
      PrintedStep(link, ps[0], u, DeliveredAll(link, ps[1..]), t);
      Regroup(Print(link, ps[0]), PrintAll(link, ps[1..]), t);
    }
  }

  /** Any number of printed packets scans back to those packets, with nothing left over. */
  lemma PrintScan(link: Link, ps: seq<Frame>)
    requires AllSendable(link, ps)
    ensures Scan(link.Rules(), PrintAll(link, ps)) == Scanned(DeliveredAll(link, ps), [])
  {
    PrintedLead(link, ps, []);
    assert PrintAll(link, ps) + [] == PrintAll(link, ps);
    LeadsToNothing(link.Rules(), PrintAll(link, ps), DeliveredAll(link, ps));
  }

  /** After the last packet the parser is empty-handed. */
  lemma {:induction false} NothingKept(link: Link, ps: seq<Frame>, kept: seq<Byte>)
    requires AllSendable(link, ps)
    requires Leads(link.Rules(), PrintAll(link, ps), DeliveredAll(link, ps), kept)
    ensures kept == []
  {
    if ps == [] {
      LeadsSuffix(link.Rules(), [], [], kept);
    } else {
      var u := PrintAll(link, ps[1..]);
      PrintedJudged(link, ps[0], u);
      BehindPrint(link, ps[0], u);
      LeadsPast(link.Rules(), Print(link, ps[0]) + u, Delivered(link, ps[0]), u, DeliveredAll(link, ps[1..]), kept);
      NothingKept(link, ps[1..], kept);
    }
  }

  lemma PrintIsFrame(link: Link, p: Frame)
    requires Sendable(link, p)
    ensures Judge(link.Rules(), Print(link, p)) == Accept(Delivered(link, p))
    ensures FrameLen(Delivered(link, p)) == |Print(link, p)|
  {
    PrintedJudged(link, p, []);
    assert Print(link, p) + [] == Print(link, p);
    BehindPrint(link, p, []);
  }

  lemma PrefixUnfinished(link: Link, p: Frame, u: seq<Byte>)
    requires Sendable(link, p) && u <= Print(link, p) && |u| < |Print(link, p)|
    ensures Scan(link.Rules(), u) == Scanned([], u)
  {
    PrintIsFrame(link, p);
    PrefixWaits(link.Rules(), Print(link, p), u);
  }

  lemma PrintAllPrefix(link: Link, ps: seq<Frame>, k: nat)
    requires k < |ps|
    ensures PrintAll(link, ps[..k + 1]) == Print(link, ps[0]) + PrintAll(link, ps[1..][..k])
    ensures DeliveredAll(link, ps[..k + 1]) == [Delivered(link, ps[0])] + DeliveredAll(link, ps[1..][..k])
  {
    assert ps[..k + 1][1..] == ps[1..][..k];
  }

  lemma PrintedFirst(link: Link, p: Frame, v: seq<Byte>)
    requires Sendable(link, p)
    ensures Scan(link.Rules(), Print(link, p) + v) == Prepend([Delivered(link, p)], Scan(link.Rules(), v))
  {
    PrintedJudged(link, p, v);
    BehindPrint(link, p, v);
  }

  lemma PrefixOneMore(link: Link, ps: seq<Frame>, v: seq<Byte>, k: nat)
    requires k < |ps| && Sendable(link, ps[0])
    requires Scan(link.Rules(), v).frames == DeliveredAll(link, ps[1..][..k])
    requires v == PrintAll(link, ps[1..][..k]) + Scan(link.Rules(), v).rest
    ensures var r := Scan(link.Rules(), Print(link, ps[0]) + v);
            && r.frames == DeliveredAll(link, ps[..k + 1]) && r.rest == Scan(link.Rules(), v).rest
            && Print(link, ps[0]) + v == PrintAll(link, ps[..k + 1]) + r.rest
  {
    PrintedFirst(link, ps[0], v);
    PrintAllPrefix(link, ps, k);
    Regroup(Print(link, ps[0]), PrintAll(link, ps[1..][..k]), Scan(link.Rules(), v).rest);
  }

  /** A prefix of printed packets scans to the packets that are whole in it, and waits for the rest of the next. */
  lemma {:induction false} PrintPrefix(link: Link, ps: seq<Frame>, u: seq<Byte>) returns (k: nat)
    requires AllSendable(link, ps)
    requires u <= PrintAll(link, ps)
    ensures k <= |ps|
    ensures Scan(link.Rules(), u).frames == DeliveredAll(link, ps[..k])
    ensures u == PrintAll(link, ps[..k]) + Scan(link.Rules(), u).rest
    ensures if k == |ps| then Scan(link.Rules(), u).rest == [] else |Scan(link.Rules(), u).rest| < |Print(link, ps[k])|
  {
    if ps == [] {
      PrintScan(link, []);
      return 0;
    }
    var b := Print(link, ps[0]);
    if |u| < |b| {
      assert u <= b;
      PrefixUnfinished(link, ps[0], u);
      assert ps[..0] == [];
      return 0;
    }
    var v := u[|b|..];
    assert u == b + v;
    k := PrintPrefix(link, ps[1..], v);
    PrefixOneMore(link, ps, v, k);
    k := k + 1;
  }

  // ---- What else may be on the wire ----

  lemma NoHighTail(cfg: Config, u: seq<Byte>)
    requires cfg.tail >= 128
    ensures !Judge(RulesOf(cfg), u).Accept?
  {
    if Judge(RulesOf(cfg), u).Accept? {
      AcceptExactly(cfg, u, Judge(RulesOf(cfg), u).frame);
    }
  }

  /** With a TAIL of 0x80 or above the parser delivers nothing, whatever arrives. */
  lemma HighTail(link: Link, s: seq<Byte>)
    requires link.tail >= 128
    ensures Scan(link.Rules(), s).frames == []
  {
    forall u
      ensures !Judge(link.Rules(), u).Accept?
    {
      NoHighTail(link.Cfg(), u);
    }
    NeverAccepted(link.Rules(), s);
  }

  /** Position p of s holds no HEAD, or a HEAD with 34 more bytes that are not an acceptable header. */
  predicate Harmless(link: Link, s: seq<Byte>, p: nat)
    requires p < |s|
  {
    s[p] == link.head ==>
      && p + 1 + HEADLEN <= |s|
      && var h := BytesToHeader(link.little, s[p + 1..p + 1 + HEADLEN]);
         h.header != link.head || h.tail != link.tail || h.datalen < 0
  }

  lemma HarmlessRefused(link: Link, s: seq<Byte>, p: nat)
    requires p < |s| && Harmless(link, s, p)
    ensures Judge(link.Rules(), s[p..]) == Refuse
  {
    var cfg := link.Cfg();
    if s[p] == link.head {
      assert s[p..][1..1 + HEADLEN] == s[p + 1..p + 1 + HEADLEN];
      VerdictBadHeader(cfg, s[p..]);
    } else {
      JudgeIsVerdict(cfg, s[p..]);
    }
  }

  lemma NoiseRefused(link: Link, noise: seq<Byte>, t: seq<Byte>)
    requires forall p :: 0 <= p < |noise| ==> Harmless(link, noise + t, p)
    ensures forall p :: 0 <= p < |noise| ==> Judge(link.Rules(), (noise + t)[p..]) == Refuse
  {
    forall p | 0 <= p < |noise|
      ensures Judge(link.Rules(), (noise + t)[p..]) == Refuse
    {
      assert Harmless(link, noise + t, p);
      HarmlessRefused(link, noise + t, p);
    }
  }

  /** After the last packet behind the noise the parser is empty-handed. */
  lemma NothingKeptAfterNoise(link: Link, noise: seq<Byte>, ps: seq<Frame>, kept: seq<Byte>)
    requires AllSendable(link, ps) && ps != []
    requires forall p :: 0 <= p < |noise| ==> Harmless(link, noise + PrintAll(link, ps), p)
    requires Leads(link.Rules(), noise + PrintAll(link, ps), DeliveredAll(link, ps), kept)
    ensures kept == []
  {
    var s := noise + PrintAll(link, ps);
    NoiseRefused(link, noise, PrintAll(link, ps));
    LeadsBehindRefused(link.Rules(), s, |noise|, DeliveredAll(link, ps), kept);
    assert s[|noise|..] == PrintAll(link, ps);
    NothingKept(link, ps, kept);
  }

  /** Resynchronisation: harmless noise in front of printed packets, however long, costs none of them. */
  lemma Resync(link: Link, noise: seq<Byte>, ps: seq<Frame>)
    requires AllSendable(link, ps)
    requires forall p :: 0 <= p < |noise| ==> Harmless(link, noise + PrintAll(link, ps), p)
    ensures Scan(link.Rules(), noise + PrintAll(link, ps)) == Scanned(DeliveredAll(link, ps), [])
  {
    var s := noise + PrintAll(link, ps);
    NoiseRefused(link, noise, PrintAll(link, ps));
    LeadsOverRefused(link.Rules(), s, |noise|);
    assert s[|noise|..] == PrintAll(link, ps);
    LeadsScan(link.Rules(), s, [], PrintAll(link, ps));
    PrintScan(link, ps);
  }

  /** Noise that is not harmless can cost packets: a stray acceptable header swallows everything until the length it
      announces has arrived. */
  lemma Swallowed(link: Link, h: NetPacket, s: seq<Byte>)
    requires h.header == link.head && h.tail == link.tail && h.datalen >= |s| && Exact(link.little, h.datalen)
    ensures Scan(link.Rules(), [link.head] + HeaderToBytes(link.little, h) + s).frames == []
  {
    var cfg := link.Cfg();
    var header := HeaderToBytes(link.little, h);
    HeaderCarried(link.little, h);
    CarriedExactly(link.little, h.datalen);
    assert ([link.head] + header)[1..] == header;
    VerdictPending(cfg, [link.head] + header, s, BytesToHeader(link.little, header));
  }
}
