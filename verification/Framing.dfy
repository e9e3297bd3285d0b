/** The framing protocol: when a frame starts at a byte, and what a packet looks like on the wire. */
module Framing {
  import opened Bytes
  import opened NetBase
  import opened Scanner

  /** The two marker bytes, the host's header decoder and the digest function. MD5 (RFC 1321, section 3) is any
      total function: no law below needs more of it. */
  datatype Config = Config(head: Byte, tail: Byte, decode: HeaderBytes -> NetPacket, md5: seq<Byte> -> Digest)

  function Decode(cfg: Config, s: HeaderBytes): NetPacket {
    cfg.decode(s)
  }

  const ZERO_CHECK: Digest := seq(16, _ => 0)

  /** The check field of a payload; an empty payload has sixteen zero bytes. */
  function Checksum(md5: seq<Byte> -> Digest, data: seq<Byte>): Digest {
    if data == [] then ZERO_CHECK else md5(data)
  }

  function Check(cfg: Config, data: seq<Byte>): Digest {
    Checksum(cfg.md5, data)
  }

  predicate HeaderOk(cfg: Config, h: NetPacket) {
    h.header == cfg.head && h.tail == cfg.tail && h.datalen >= 0
  }

  /** The verdict on a stream's first byte, as the header, tail and check tests decide it. */
  function FrameVerdict(cfg: Config, s: seq<Byte>): (v: Verdict)
    ensures v.Refuse? ==> s != []
    ensures v.Accept? ==> FrameLen(v.frame) <= |s| && |v.frame.data| == v.frame.head.datalen
  {
    if s == [] then Wait
    else if s[0] != cfg.head then Refuse
    else if |s| < 1 + HEADLEN then Wait
    else
      var h := Decode(cfg, s[1..1 + HEADLEN]);
      if !HeaderOk(cfg, h) then Refuse
      else if |s| < OVERHEAD + h.datalen then Wait
      else
        var data := s[1 + HEADLEN..1 + HEADLEN + h.datalen];
        if SignedChar(s[1 + HEADLEN + h.datalen]) != cfg.tail || h.check != Check(cfg, data) then Refuse
        else Accept(Frame(h, data))
  }

  lemma FrameVerdictExtend(cfg: Config, s: seq<Byte>, t: seq<Byte>)
    requires FrameVerdict(cfg, s) != Wait
    ensures FrameVerdict(cfg, s + t) == FrameVerdict(cfg, s)
  {
    if s[0] == cfg.head {
      assert (s + t)[1..1 + HEADLEN] == s[1..1 + HEADLEN];
      var h := Decode(cfg, s[1..1 + HEADLEN]);
      if HeaderOk(cfg, h) {
        assert (s + t)[1 + HEADLEN..1 + HEADLEN + h.datalen] == s[1 + HEADLEN..1 + HEADLEN + h.datalen];
      }
    }
  }

  lemma VerdictIsLawful(cfg: Config)
    ensures Lawful((s: seq<Byte>) => FrameVerdict(cfg, s))
  {
    var r := (s: seq<Byte>) => FrameVerdict(cfg, s);
    forall s, t | r(s) != Wait
      ensures r(s + t) == r(s)
    {
      FrameVerdictExtend(cfg, s, t);
    }
  }

  ghost predicate Agrees(rules: Rules, cfg: Config) {
    forall s {:trigger FrameVerdict(cfg, s)} :: Judge(rules, s) == FrameVerdict(cfg, s)
  }

  /** The protocol as the scanner takes it. */
  ghost function RulesOf(cfg: Config): (rules: Rules)
    ensures Agrees(rules, cfg)
  {
    VerdictIsLawful(cfg);
    var f: Rules := (s: seq<Byte>) => FrameVerdict(cfg, s);
    assert Agrees(f, cfg);
    var rules: Rules :| Agrees(rules, cfg);
    rules
  }

  lemma JudgeIsVerdict(cfg: Config, s: seq<Byte>)
    ensures Judge(RulesOf(cfg), s) == FrameVerdict(cfg, s)
  {}

  lemma LeadsOverJunk(cfg: Config, s: seq<Byte>, n: nat)
    requires n <= |s| && cfg.head !in s[..n]
    ensures Leads(RulesOf(cfg), s, [], s[n..])
  {
    forall p | 0 <= p < n
      ensures Judge(RulesOf(cfg), s[p..]) == Refuse
    {
      assert s[p] == s[..n][p];
      assert s[p..][0] == s[p];
      JudgeIsVerdict(cfg, s[p..]);
    }
    LeadsOverRefused(RulesOf(cfg), s, n);
  }

  /** `header` names HEAD, TAIL and f's length and check. */
  predicate Wraps(cfg: Config, header: seq<Byte>, f: Frame) {
    && |header| == HEADLEN
    && Decode(cfg, header) == f.head
    && HeaderOk(cfg, f.head)
    && f.head.datalen == |f.data|
    && f.head.check == Check(cfg, f.data)
  }

  function FrameBytes(cfg: Config, header: seq<Byte>, f: Frame): seq<Byte> {
    [cfg.head] + header + f.data + [cfg.tail]
  }

  /** `front` is HEAD followed by the bytes of an acceptable header h. */
  predicate Announces(cfg: Config, front: seq<Byte>, h: NetPacket) {
    && |front| == 1 + HEADLEN
    && front[0] == cfg.head
    && Decode(cfg, front[1..]) == h
    && HeaderOk(cfg, h)
  }

  lemma VerdictOf(cfg: Config, s: seq<Byte>, h: NetPacket, data: seq<Byte>, last: Byte)
    requires |s| >= 1 + HEADLEN && s[0] == cfg.head && Decode(cfg, s[1..1 + HEADLEN]) == h && HeaderOk(cfg, h)
    requires |s| >= OVERHEAD + h.datalen && s[1 + HEADLEN..1 + HEADLEN + h.datalen] == data
             && s[1 + HEADLEN + h.datalen] == last
    ensures Judge(RulesOf(cfg), s) ==
            if SignedChar(last) != cfg.tail || h.check != Check(cfg, data) then Refuse else Accept(Frame(h, data))
  {
    JudgeIsVerdict(cfg, s);
  }

  lemma Parts(front: seq<Byte>, body: seq<Byte>, t: seq<Byte>)
    requires |front| == 1 + HEADLEN && body != []
    ensures var s, n := front + body + t, |body| - 1;
            && s[0] == front[0]
            && s[1..1 + HEADLEN] == front[1..]
            && s[1 + HEADLEN..1 + HEADLEN + n] == body[..n]
            && s[1 + HEADLEN + n] == body[n]
  {}

  /** `front` is HEAD and the header, `body` the payload and the byte in TAIL's place. */
  lemma VerdictComplete(cfg: Config, front: seq<Byte>, body: seq<Byte>, t: seq<Byte>, h: NetPacket)
    requires Announces(cfg, front, h) && |body| == h.datalen + 1
    ensures Judge(RulesOf(cfg), front + body + t) ==
            if SignedChar(body[h.datalen]) != cfg.tail || h.check != Check(cfg, body[..h.datalen]) then Refuse
            else Accept(Frame(h, body[..h.datalen]))
  {
    Parts(front, body, t);
    VerdictOf(cfg, front + body + t, h, body[..h.datalen], body[h.datalen]);
  }

  lemma FrameAccepted(cfg: Config, header: seq<Byte>, f: Frame, t: seq<Byte>)
    requires cfg.tail < 128 && Wraps(cfg, header, f)
    ensures Judge(RulesOf(cfg), FrameBytes(cfg, header, f) + t) == Accept(f)
  {
    var front, body := [cfg.head] + header, f.data + [cfg.tail];
    assert FrameBytes(cfg, header, f) + t == front + body + t;
    assert front[1..] == header;
    assert body[..|f.data|] == f.data;
    VerdictComplete(cfg, front, body, t, f.head);
  }

  lemma NoCheck()
    ensures ZERO_CHECK == seq(16, _ => 0)
  {}

  /** A frame is accepted exactly when the stream begins with HEAD, a header naming HEAD, TAIL and the payload's
      length and check, the payload, and TAIL; the check is the digest of the payload, or zero when there is none. The
      closing byte is read as a signed char, so no TAIL of 0x80 or above ever matches. */
  lemma AcceptExactly(cfg: Config, s: seq<Byte>, f: Frame)
    ensures Judge(RulesOf(cfg), s) == Accept(f) <==>
            && cfg.tail < 128 && |s| >= 36 + |f.data|
            && s[0] == cfg.head && cfg.decode(s[1..35]) == f.head
            && s[35..35 + |f.data|] == f.data && s[35 + |f.data|] == cfg.tail
            && f.head.header == cfg.head && f.head.tail == cfg.tail && f.head.datalen == |f.data|
            && f.head.check == if f.data == [] then seq(16, _ => 0) else cfg.md5(f.data)
  {
    JudgeIsVerdict(cfg, s);
    NoCheck();
  }

  /** More bytes are waited for exactly when there are none, or HEAD and less than a header, or HEAD, a header naming
      the markers and a length, and less than that and TAIL. */
  lemma WaitExactly(cfg: Config, s: seq<Byte>)
    ensures Judge(RulesOf(cfg), s) == Wait <==>
            || s == []
            || (s[0] == cfg.head && |s| < 35)
            || (s[0] == cfg.head && |s| >= 35
                && var h := cfg.decode(s[1..35]);
                   h.header == cfg.head && h.tail == cfg.tail && 0 <= h.datalen && |s| < 36 + h.datalen)
  {
    JudgeIsVerdict(cfg, s);
  }

  /** Of a complete frame with the right markers, the check decides. */
  lemma CheckDecides(cfg: Config, s: seq<Byte>)
    requires cfg.tail < 128 && |s| >= 35 && s[0] == cfg.head
    requires var h := cfg.decode(s[1..35]);
             && h.header == cfg.head && h.tail == cfg.tail && 0 <= h.datalen
             && |s| >= 36 + h.datalen && s[35 + h.datalen] == cfg.tail
    ensures var h := cfg.decode(s[1..35]);
            Judge(RulesOf(cfg), s) ==
            if h.check == if h.datalen == 0 then seq(16, _ => 0) else cfg.md5(s[35..35 + h.datalen])
            then Accept(Frame(h, s[35..35 + h.datalen]))
            else Refuse
  {
    JudgeIsVerdict(cfg, s);
    NoCheck();
  }

  /** Whatever scanner steps deliver has the right markers, length and check. */
  lemma {:induction false} LeadsGenuine(cfg: Config, s: seq<Byte>, fs: seq<Frame>, u: seq<Byte>)
    requires Leads(RulesOf(cfg), s, fs, u)
    ensures forall i :: 0 <= i < |fs| ==>
                          && cfg.tail < 128 && fs[i].head.header == cfg.head && fs[i].head.tail == cfg.tail
                          && fs[i].head.datalen == |fs[i].data|
                          && fs[i].head.check == if fs[i].data == [] then seq(16, _ => 0) else cfg.md5(fs[i].data)
    decreases |s|
  {
    if fs == [] {
    } else {
      match Judge(RulesOf(cfg), s)
      case Refuse => LeadsGenuine(cfg, s[1..], fs, u);
      case Accept(f) =>
        AcceptExactly(cfg, s, f);
        LeadsGenuine(cfg, s[FrameLen(f)..], fs[1..], u);
        assert forall i :: 0 < i < |fs| ==> fs[i] == fs[1..][i - 1];
    }
  }

  lemma VerdictBadHeader(cfg: Config, s: seq<Byte>)
    requires |s| >= 1 + HEADLEN && s[0] == cfg.head
    requires !HeaderOk(cfg, Decode(cfg, s[1..1 + HEADLEN]))
    ensures Judge(RulesOf(cfg), s) == Refuse
  {
    JudgeIsVerdict(cfg, s);
  }

  lemma VerdictPending(cfg: Config, front: seq<Byte>, body: seq<Byte>, h: NetPacket)
    requires Announces(cfg, front, h) && |body| <= h.datalen
    ensures Judge(RulesOf(cfg), front + body) == Wait
    ensures Scan(RulesOf(cfg), front + body) == Scanned([], front + body)
  {
    assert (front + body)[1..1 + HEADLEN] == front[1..];
    JudgeIsVerdict(cfg, front + body);
  }
}
