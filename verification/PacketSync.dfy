/** The incremental parser of packet_sync.h: two growable buffers, a cursor into the incoming chunk, and the state
    it keeps between calls. */
module PacketSync {
  import opened Bytes
  import opened NetBase
  import opened Scanner
  import opened Framing

  // ---- The C library calls the parser uses ----

  method MemChr(a: array<Byte>, c: Byte, n: nat) returns (pos: int)
    requires n <= a.Length
    ensures pos == -1 ==> c !in a[..n]
    ensures pos != -1 ==> 0 <= pos < n && a[pos] == c && c !in a[..pos]
  {
    pos := 0;
    while pos < n
      invariant 0 <= pos <= n
      invariant c !in a[..pos]
    {
      if a[pos] == c {
        return;
      }
      pos := pos + 1;
    }
    pos := -1;
  }

  method MemMove(a: array<Byte>, dst: nat, src: nat, n: nat)
    requires dst + n <= a.Length && src + n <= a.Length
    modifies a
    ensures a[dst..dst + n] == old(a[src..src + n])
    ensures a[..dst] == old(a[..dst]) && a[dst + n..] == old(a[dst + n..])
  {
    forall k | 0 <= k < n {
      a[dst + k] := a[src + k];
    }
  }

  method MemCpy(a: array<Byte>, dst: nat, s: seq<Byte>)
    requires dst + |s| <= a.Length
    modifies a
    ensures a[dst..dst + |s|] == s
    ensures a[..dst] == old(a[..dst]) && a[dst + |s|..] == old(a[dst + |s|..])
  {
    forall k | 0 <= k < |s| {
      a[dst + k] := s[k];
    }
  }

  method Realloc(a: array<Byte>, n: nat) returns (b: array<Byte>)
    requires n >= a.Length
    ensures fresh(b) && b.Length == n && b[..a.Length] == a[..]
  {
    b := new Byte[n];
    forall k | 0 <= k < a.Length {
      b[k] := a[k];
    }
  }

  // ---- Slices of buffer contents ----

  lemma SplitTwo(s: seq<Byte>, b: nat, c: nat)
    requires b <= c <= |s|
    ensures s[..c] == s[..b] + s[b..c]
  {}

  /** A pending frame: HEAD and header at position h of r, the body collected so far, and what r holds beyond it. */
  function Kept(r: seq<Byte>, h: nat, n: nat, body: seq<Byte>): seq<Byte>
    requires h + 1 + HEADLEN <= n <= |r|
  {
    var e := h + 1 + HEADLEN + |body|;
    r[h..h + 1 + HEADLEN] + body + (if e <= n then r[e..n] else [])
  }

  lemma KeptWhole(r: seq<Byte>, h: nat, n: nat, body: seq<Byte>)
    requires h + 1 + HEADLEN + |body| <= n <= |r|
    requires body == r[h + 1 + HEADLEN..h + 1 + HEADLEN + |body|]
    ensures Kept(r, h, n, body) == r[h..n]
  {}

  lemma DropMore(s: seq<Byte>, a: nat, d: nat, k: nat)
    requires a + k <= d <= |s|
    ensures s[a..d][k..] == s[a + k..d]
  {}

  lemma KeptGrows(r: seq<Byte>, h: nat, n: nat, body: seq<Byte>, data: seq<Byte>, i: nat, j: nat)
    requires h + 1 + HEADLEN <= n <= |r| && n <= h + 1 + HEADLEN + |body| && i <= j <= |data|
    ensures Kept(r, h, n, body + data[i..j]) + data[j..] == Kept(r, h, n, body) + data[i..]
  {
    assert data[i..] == data[i..j] + data[j..];
  }

  lemma KeptTail(r: seq<Byte>, h: nat, n: nat, body: seq<Byte>)
    requires h + 1 + HEADLEN <= n <= |r| && n < h + 1 + HEADLEN + |body|
    ensures Kept(r, h, n, body)[1..] == r[h + 1..h + 1 + HEADLEN] + body
  {}

  lemma TakeSlice(s: seq<Byte>, n: nat, a: nat, b: nat)
    requires a <= b <= n <= |s|
    ensures s[..n][a..b] == s[a..b]
  {}

  /** The first `cut` bytes of s hold no HEAD, except perhaps at the very end one with an unacceptable header. */
  ghost predicate Passed(cfg: Config, s: seq<Byte>, cut: nat) {
    && cut <= |s|
    && (|| cfg.head !in s[..cut]
        || (&& 0 < cut && cut + HEADLEN <= |s| && cfg.head !in s[..cut - 1] && s[cut - 1] == cfg.head
            && !HeaderOk(cfg, Decode(cfg, s[cut..cut + HEADLEN]))))
  }

  lemma PassedHeader(cfg: Config, s: seq<Byte>, p: nat)
    requires p + 1 + HEADLEN <= |s| && cfg.head !in s[..p] && s[p] == cfg.head
    requires !HeaderOk(cfg, Decode(cfg, s[p + 1..p + 1 + HEADLEN]))
    ensures Passed(cfg, s, p + 1)
  {}

  lemma PassedLeads(cfg: Config, s: seq<Byte>, cut: nat)
    requires Passed(cfg, s, cut)
    ensures Leads(RulesOf(cfg), s, [], s[cut..])
  {
    if cfg.head !in s[..cut] {
      LeadsOverJunk(cfg, s, cut);
    } else {
      var u := s[cut - 1..];
      LeadsOverJunk(cfg, s, cut - 1);
      assert u[1..1 + HEADLEN] == s[cut..cut + HEADLEN];
      VerdictBadHeader(cfg, u);
      LeadsRefuse(RulesOf(cfg), s, [], u);
      assert u[1..] == s[cut..];
    }
  }

  datatype ParseType = PARSE_HEAD | PARSE_NOTHING

  function ToSeq(d: Option<Frame>): seq<Frame> {
    if d.None? then [] else [d.value]
  }

  /** One scanner step on u, which need not look beyond u. */
  ghost predicate Settled(rules: Rules, u: seq<Byte>, delivered: Option<Frame>, v: seq<Byte>) {
    match delivered
    case None => Judge(rules, u) == Refuse && v == u[1..]
    case Some(f) => Judge(rules, u) == Accept(f) && v == u[FrameLen(f)..]
  }

  /** The byte in TAIL's place is read as a signed char. */
  lemma TailTest(b: Byte, tail: Byte)
    ensures SignedChar(b) == tail <==> tail < 128 && b == tail
  {}

  /** A complete frame, behind its front, is delivered if TAIL and check are right. */
  lemma SettledComplete(cfg: Config, front: seq<Byte>, body: seq<Byte>, t: seq<Byte>, h: NetPacket)
    requires Announces(cfg, front, h) && |body| == h.datalen + 1
    ensures var u, payload := front + body + t, body[..h.datalen];
            if cfg.tail < 128 && body[h.datalen] == cfg.tail
               && h.check == if h.datalen == 0 then seq(16, _ => 0) else cfg.md5(payload)
            then Settled(RulesOf(cfg), u, Some(Frame(h, payload)), u[|front| + |body|..])
            else Settled(RulesOf(cfg), u, None, u[1..])
  {
    NoCheck();
    TailTest(body[h.datalen], cfg.tail);
    VerdictComplete(cfg, front, body, t, h);
  }

  lemma SettledLeads(rules: Rules, s: seq<Byte>, sofar: seq<Frame>, u: seq<Byte>, delivered: Option<Frame>,
                     v: seq<Byte>, t: seq<Byte>)
    requires Leads(rules, s, sofar, u + t) && Settled(rules, u, delivered, v)
    ensures Leads(rules, s, sofar + ToSeq(delivered), v + t)
    ensures |v| < |u|
  {
    JudgeExtend(rules, u, t);
    match delivered
    case None =>
      LeadsRefuse(rules, s, sofar, u + t);
      assert (u + t)[1..] == v + t;
      assert sofar + [] == sofar;
    case Some(f) =>
      LeadsAccept(rules, s, sofar, u + t);
      assert (u + t)[FrameLen(f)..] == v + t;
  }

  class PacketSync {
    const decode: HeaderBytes -> NetPacket
    const md5: seq<Byte> -> Digest
    var head: Byte
    var tail: Byte
    var readData: array<Byte>
    var packetData: array<Byte>
    var truePacketLen: int
    var headPos: int
    var parseType: ParseType
    var getDataLen: int
    var nextPacket: NetPacket

    function Cfg(): Config
      reads this
    {
      Config(head, tail, decode, md5)
    }

    /** The ranges that keep every copy inside its buffers. */
    ghost predicate Shape()
      reads this
    {
      && readData != packetData
      && BUFFER_SIZE <= readData.Length && BUFFER_SIZE <= packetData.Length
      && 0 <= truePacketLen <= readData.Length
      && (parseType.PARSE_HEAD? ==>
            && 0 <= headPos && headPos + 1 + HEADLEN <= truePacketLen
            && 0 <= getDataLen <= nextPacket.datalen + 1 <= packetData.Length
            && (getDataLen <= nextPacket.datalen ==> truePacketLen - headPos - 1 - HEADLEN <= getDataLen))
    }

    /** HEAD and the header of the pending frame, still in readData. */
    ghost function Front(): seq<Byte>
      requires Shape() && parseType.PARSE_HEAD?
      reads this, readData
    {
      readData[headPos..headPos + 1 + HEADLEN]
    }

    /** What readData holds beyond the bytes of the pending frame. */
    ghost function Beyond(): seq<Byte>
      requires Shape() && parseType.PARSE_HEAD?
      reads this, readData
    {
      var e := headPos + 1 + HEADLEN + getDataLen;
      if e <= truePacketLen then readData[e..truePacketLen] else []
    }

    /** The bytes received and neither delivered nor given up. */
    ghost function Unprocessed(): seq<Byte>
      requires Shape()
      reads this, readData, packetData
    {
      if parseType.PARSE_NOTHING? then readData[..truePacketLen]
      else Kept(readData[..], headPos, truePacketLen, packetData[..getDataLen])
    }

    /** The pending frame begins with HEAD and an acceptable header; as much of its body as readData holds whole
        is the same in packetData. */
    ghost predicate Coherent()
      requires Shape()
      reads this, readData, packetData
    {
      parseType.PARSE_HEAD? ==>
        && Announces(Cfg(), Front(), nextPacket)
        && (headPos + 1 + HEADLEN + getDataLen <= truePacketLen ==>
              packetData[..getDataLen] == readData[headPos + 1 + HEADLEN..headPos + 1 + HEADLEN + getDataLen])
    }

    /** Between calls a pending frame is incomplete. */
    ghost predicate Valid()
      reads this, readData, packetData
    {
      && Shape()
      && Coherent()
      && (parseType.PARSE_HEAD? ==> getDataLen <= nextPacket.datalen)
    }

    /** Every copy stays inside its buffer, and a pending frame begins with HEAD and an acceptable header. */
    lemma ValidMeans()
      requires Valid()
      ensures 10240 <= readData.Length && 10240 <= packetData.Length && readData != packetData
      ensures 0 <= truePacketLen <= readData.Length
      ensures parseType.PARSE_NOTHING? ==> Unprocessed() == readData[..truePacketLen]
      ensures parseType.PARSE_HEAD? ==>
                && 0 <= headPos && headPos + 35 <= truePacketLen
                && 0 <= getDataLen <= nextPacket.datalen < packetData.Length
                && readData[headPos] == head && decode(readData[headPos + 1..headPos + 35]) == nextPacket
                && nextPacket.header == head && nextPacket.tail == tail
                && Unprocessed() == readData[headPos..headPos + 35] + packetData[..getDataLen]
    {
      if parseType.PARSE_HEAD? {
        assert Front()[1..] == readData[headPos + 1..headPos + 35];
        assert readData[headPos] == Front()[0];
        assert Beyond() == [];
      }
    }

    constructor (little: bool, md5: seq<Byte> -> Digest)
      ensures Valid() && parseType.PARSE_NOTHING? && Unprocessed() == []
      ensures decode == HeaderReader(little) && this.md5 == md5
      ensures fresh(readData) && fresh(packetData)
    {
      decode := HeaderReader(little);
      this.md5 := md5;
      readData := new Byte[BUFFER_SIZE];
      packetData := new Byte[BUFFER_SIZE];
      truePacketLen := 0;
      headPos := -1;
      parseType := PARSE_NOTHING;
      getDataLen := 0;
      head, tail, nextPacket := *, *, *;
    }

    /** Sets the two markers and nothing else: a frame pending under other markers stays pending. */
    method Start(packHead: Byte, packTail: Byte)
      requires Shape()
      modifies `head, `tail
      ensures head == packHead && tail == packTail
      ensures Shape() && Unprocessed() == old(Unprocessed())
      ensures old(Valid()) && (parseType.PARSE_NOTHING? || (packHead == old(head) && packTail == old(tail))) ==> Valid()
    {
      head := packHead;
      tail := packTail;
    }

    /** Move as much input as fits behind the retained bytes. */
    method Fill(data: seq<Byte>, iret: nat) returns (next: nat)
      requires Shape() && parseType.PARSE_NOTHING? && iret <= |data|
      modifies readData, `truePacketLen
      ensures Shape() && iret <= next <= |data|
      ensures readData[..truePacketLen] == old(readData[..truePacketLen]) + data[iret..next]
      ensures next == |data| || truePacketLen == readData.Length
    {
      if readData.Length - truePacketLen >= |data| - iret {
        MemCpy(readData, truePacketLen, data[iret..]);
        next := |data|;
      } else {
        next := iret + (readData.Length - truePacketLen);
        MemCpy(readData, truePacketLen, data[iret..next]);
      }
      SplitTwo(readData[..], truePacketLen, truePacketLen + (next - iret));
      truePacketLen := truePacketLen + (next - iret);
    }

    /** The memmove that drops the first n retained bytes. */
    method DropFront(n: nat)
      requires 0 <= n <= truePacketLen <= readData.Length
      modifies readData, `truePacketLen
      ensures truePacketLen == old(truePacketLen) - n
      ensures readData[..truePacketLen] == old(readData[n..truePacketLen])
    {
      MemMove(readData, 0, n, truePacketLen - n);
      truePacketLen := truePacketLen - n;
    }

    /** Room for payload and tail. */
    method ReserveBody()
      requires nextPacket.datalen >= 0
      modifies `packetData
      ensures packetData == old(packetData) || fresh(packetData)
      ensures packetData.Length >= old(packetData.Length) && packetData.Length >= nextPacket.datalen + 1
    {
      if packetData.Length < nextPacket.datalen + 1 {
        packetData := Realloc(packetData, nextPacket.datalen + 1);
      }
    }

    /** Copy what readData holds of the body. */
    method CopyHeldBody()
      requires readData != packetData && 0 <= headPos && headPos + 1 + HEADLEN <= truePacketLen <= readData.Length
      requires 0 <= nextPacket.datalen < packetData.Length
      modifies packetData, `getDataLen
      ensures getDataLen == Min(truePacketLen - headPos - 1 - HEADLEN, nextPacket.datalen + 1)
      ensures 0 <= getDataLen <= packetData.Length && headPos + 1 + HEADLEN + getDataLen <= truePacketLen
      ensures packetData[..getDataLen] == readData[headPos + 1 + HEADLEN..headPos + 1 + HEADLEN + getDataLen]
    {
      var at := headPos + 1 + HEADLEN;
      getDataLen := Min(truePacketLen - at, nextPacket.datalen + 1);
      if getDataLen > 0 {
        MemCpy(packetData, 0, readData[at..at + getDataLen]);
      }
    }

    /** A frame just begun, whose body so far readData holds whole. */
    lemma HeldBody()
      requires Shape() && parseType.PARSE_HEAD? && headPos + 1 + HEADLEN + getDataLen <= truePacketLen
      requires Announces(Cfg(), readData[headPos..headPos + 1 + HEADLEN], nextPacket)
      requires packetData[..getDataLen] == readData[headPos + 1 + HEADLEN..headPos + 1 + HEADLEN + getDataLen]
      ensures Coherent() && Unprocessed() == readData[headPos..truePacketLen]
    {
      KeptWhole(readData[..], headPos, truePacketLen, packetData[..getDataLen]);
    }

    /** Make room for payload and tail, and take what readData already has of them. */
    method BeginPacket()
      requires Shape() && parseType.PARSE_NOTHING?
      requires 0 <= headPos && headPos + 1 + HEADLEN <= truePacketLen
      requires Announces(Cfg(), readData[headPos..headPos + 1 + HEADLEN], nextPacket)
      modifies packetData, `packetData, `parseType, `getDataLen
      ensures Shape() && Coherent() && parseType.PARSE_HEAD?
      ensures packetData == old(packetData) || fresh(packetData)
      ensures packetData.Length >= old(packetData.Length)
      ensures Unprocessed() == readData[headPos..truePacketLen]
    {
      parseType := PARSE_HEAD;
      ReserveBody();
      CopyHeldBody();
      HeldBody();
    }

    /** The memcpy into packetData. */
    method StoreBody(bytes: seq<Byte>)
      requires 0 <= getDataLen && getDataLen + |bytes| <= packetData.Length
      modifies packetData, `getDataLen
      ensures getDataLen == old(getDataLen) + |bytes|
      ensures packetData[..getDataLen] == old(packetData[..getDataLen]) + bytes
    {
      ghost var n := getDataLen;
      MemCpy(packetData, getDataLen, bytes);
      getDataLen := getDataLen + |bytes|;
      SplitTwo(packetData[..], n, getDataLen);
    }

    /** Input bytes become body bytes. */
    method TakeBody(data: seq<Byte>, iret: nat, next: nat)
      requires Shape() && Coherent() && parseType.PARSE_HEAD? && iret <= next <= |data|
      requires getDataLen <= nextPacket.datalen && getDataLen + (next - iret) <= nextPacket.datalen + 1
      modifies packetData, `getDataLen
      ensures Shape() && Coherent() && getDataLen == old(getDataLen) + (next - iret)
      ensures Unprocessed() + data[next..] == old(Unprocessed()) + data[iret..]
    {
      ghost var held := packetData[..getDataLen];
      StoreBody(data[iret..next]);
      KeptGrows(readData[..], headPos, truePacketLen, held, data, iret, next);
    }

    /** Take the rest of payload and tail from the input; false means the chunk ran out. */
    method Collect(data: seq<Byte>, iret: nat) returns (next: nat, complete: bool)
      requires Shape() && Coherent() && parseType.PARSE_HEAD? && iret <= |data|
      modifies packetData, `getDataLen
      ensures Shape() && Coherent() && iret <= next <= |data|
      ensures Unprocessed() + data[next..] == old(Unprocessed()) + data[iret..]
      ensures complete ==> getDataLen == nextPacket.datalen + 1
      ensures !complete ==> getDataLen <= nextPacket.datalen && next == |data|
    {
      next := iret;
      if getDataLen < nextPacket.datalen + 1 {
        if getDataLen + (|data| - iret) < nextPacket.datalen + 1 {
          TakeBody(data, iret, |data|);
          return |data|, false;
        } else {
          next := iret + (nextPacket.datalen + 1 - getDataLen);
          TakeBody(data, iret, next);
        }
      }
      complete := true;
    }

    lemma WholeInReadData()
      requires Shape() && Coherent() && parseType.PARSE_HEAD?
      requires headPos + 1 + HEADLEN + getDataLen <= truePacketLen
      ensures Unprocessed() == readData[headPos..truePacketLen]
    {
      KeptWhole(readData[..], headPos, truePacketLen, packetData[..getDataLen]);
    }

    /** The realloc at the head of that branch. */
    method ReserveReadData(n: nat)
      requires readData != packetData
      modifies `readData
      ensures readData == old(readData) || fresh(readData)
      ensures readData.Length >= old(readData.Length) && readData.Length >= n && readData != packetData
      ensures readData[..old(readData.Length)] == old(readData[..])
    {
      if readData.Length < n {
        readData := Realloc(readData, n);
      }
    }

    /** The branch of the rewind for a frame that readData does not hold whole. */
    method PutBack()
      requires Shape() && parseType.PARSE_HEAD? && getDataLen == nextPacket.datalen + 1
      requires truePacketLen < headPos + 1 + HEADLEN + getDataLen
      modifies readData, `readData, `truePacketLen
      ensures readData == old(readData) || fresh(readData)
      ensures readData.Length >= old(readData.Length) && readData != packetData
      ensures truePacketLen == HEADLEN + getDataLen <= readData.Length
      ensures readData[..truePacketLen] == old(Unprocessed())[1..]
    {
      ghost var n := readData.Length;
      KeptTail(readData[..], headPos, truePacketLen, packetData[..getDataLen]);
      ReserveReadData(HEADLEN + nextPacket.datalen + 1);
      TakeSlice(readData[..], n, headPos + 1, headPos + 1 + HEADLEN);
      MemMove(readData, 0, headPos + 1, HEADLEN);
      truePacketLen := HEADLEN;
      MemCpy(readData, truePacketLen, packetData[..nextPacket.datalen + 1]);
      truePacketLen := truePacketLen + (nextPacket.datalen + 1);
      SplitTwo(readData[..], HEADLEN, truePacketLen);
    }

    /** Give the candidate up and go back to one byte past its HEAD, inside readData when
        it holds the whole frame, and by putting header and body together again when it does not. */
    method Rewind()
      requires Shape() && Coherent() && parseType.PARSE_HEAD? && getDataLen == nextPacket.datalen + 1
      modifies readData, `readData, `truePacketLen, `parseType
      ensures Shape() && parseType.PARSE_NOTHING?
      ensures readData == old(readData) || fresh(readData)
      ensures readData.Length >= old(readData.Length)
      ensures Unprocessed() == old(Unprocessed())[1..]
    {
      if truePacketLen - headPos - 1 - HEADLEN >= nextPacket.datalen + 1 {
        WholeInReadData();
        DropMore(readData[..], headPos, truePacketLen, 1);
        DropFront(headPos + 1);
      } else {
        PutBack();
      }
      parseType := PARSE_NOTHING;
    }

    /** Drop the delivered frame. */
    method Consume()
      requires Shape() && Coherent() && parseType.PARSE_HEAD? && getDataLen == nextPacket.datalen + 1
      modifies readData, `truePacketLen, `parseType
      ensures Shape() && parseType.PARSE_NOTHING?
      ensures Unprocessed() == old(Unprocessed())[1 + HEADLEN + getDataLen..]
    {
      if truePacketLen - headPos - 1 - HEADLEN >= nextPacket.datalen + 1 {
        WholeInReadData();
        DropMore(readData[..], headPos, truePacketLen, 1 + HEADLEN + getDataLen);
        DropFront(headPos + HEADLEN + nextPacket.datalen + 2);
      } else {
        truePacketLen := 0;
      }
      parseType := PARSE_NOTHING;
    }

    /** Read the header behind the HEAD just found. */
    method JudgeHeader(ghost cfg: Config) returns (ok: bool)
      requires 0 <= headPos && headPos + 1 + HEADLEN <= truePacketLen <= readData.Length
      requires readData[headPos] == head && cfg == Cfg()
      modifies `nextPacket
      ensures ok ==> Announces(cfg, readData[headPos..headPos + 1 + HEADLEN], nextPacket)
      ensures !ok ==> !HeaderOk(cfg, Decode(cfg, readData[headPos + 1..headPos + 1 + HEADLEN]))
    {
      nextPacket := decode(readData[headPos + 1..headPos + 1 + HEADLEN]);
      ok := !(nextPacket.header != head || nextPacket.tail != tail || nextPacket.datalen < 0);
      DropMore(readData[..], headPos, headPos + 1 + HEADLEN, 1);
    }

    /** Look for HEAD and judge the header behind it; `cut` bytes are passed over. */
    method Inspect(ghost cfg: Config) returns (found: bool, ghost cut: nat)
      requires 0 <= truePacketLen <= readData.Length && cfg == Cfg()
      modifies readData, `truePacketLen, `headPos, `nextPacket
      ensures 0 <= truePacketLen <= readData.Length && Passed(cfg, old(readData[..truePacketLen]), cut)
      ensures found ==> && truePacketLen == old(truePacketLen) && readData[..] == old(readData[..]) && headPos == cut
                        && headPos + 1 + HEADLEN <= truePacketLen
                        && Announces(cfg, readData[headPos..headPos + 1 + HEADLEN], nextPacket)
      ensures !found ==> && readData[..truePacketLen] == old(readData[..truePacketLen])[cut..]
                         && (cut > 0 || truePacketLen <= HEADLEN)
    {
      var pos := MemChr(readData, head, truePacketLen);
      found := false;
      if pos == -1 {
        cut := truePacketLen;
        truePacketLen := 0;
      } else {
        headPos := pos;
        cut := headPos;
        if truePacketLen - headPos - 1 < HEADLEN {
          if headPos != 0 {
            DropFront(headPos);
          }
        } else {
          found := JudgeHeader(cfg);
          if !found {
            TakeSlice(readData[..], truePacketLen, headPos + 1, headPos + 1 + HEADLEN);
            PassedHeader(cfg, readData[..truePacketLen], headPos);
            cut := headPos + 1;
            DropFront(headPos + 1);
          }
        }
      }
    }

    /** Take input in and look for a header. Unless one was found, bytes were given up or input was
        taken in. */
    method FindPacket(data: seq<Byte>, iret: nat, ghost cfg: Config) returns (next: nat, found: bool)
      requires Shape() && parseType.PARSE_NOTHING? && cfg == Cfg()
      requires iret <= |data| && (iret < |data| || truePacketLen >= OVERHEAD)
      modifies this, readData, packetData
      ensures Shape() && Coherent() && cfg == Cfg()
      ensures readData == old(readData) && (packetData == old(packetData) || fresh(packetData))
      ensures packetData.Length >= old(packetData.Length)
      ensures iret <= next <= |data| && found == parseType.PARSE_HEAD?
      ensures Leads(RulesOf(cfg), old(Unprocessed()) + data[iret..], [], Unprocessed() + data[next..])
      ensures !found ==> |Unprocessed()| + |data| - next < old(|Unprocessed()|) + |data| - iret || iret < next
    {
      next := Fill(data, iret);
      ghost var view := readData[..truePacketLen];
      assert old(Unprocessed()) + data[iret..] == view + data[next..];
      ghost var cut;
      found, cut := Inspect(cfg);
      if found {
        BeginPacket();
      }
      PassedLeads(cfg, view, cut);
      assert Unprocessed() == view[cut..];
      LeadsExtend(RulesOf(cfg), view, [], Unprocessed(), data[next..]);
    }

    /** Judge a complete frame; deliver it or go back. */
    method Settle(ghost cfg: Config) returns (delivered: Option<Frame>)
      requires Shape() && Coherent() && parseType.PARSE_HEAD? && cfg == Cfg()
      requires getDataLen == nextPacket.datalen + 1
      modifies readData, `readData, `truePacketLen, `parseType
      ensures Shape() && parseType.PARSE_NOTHING?
      ensures readData == old(readData) || fresh(readData)
      ensures readData.Length >= old(readData.Length)
      ensures Settled(RulesOf(cfg), old(Unprocessed()), delivered, Unprocessed())
      ensures var payload := packetData[..nextPacket.datalen];
              delivered ==
              if tail < 128 && packetData[nextPacket.datalen] == tail
                 && nextPacket.check == if nextPacket.datalen == 0 then seq(16, _ => 0) else md5(payload)
              then Some(Frame(nextPacket, payload))
              else None
    {
      ghost var front, body, t, u := Front(), packetData[..getDataLen], Beyond(), Unprocessed();
      assert u == front + body + t;
      var payload := packetData[..nextPacket.datalen];
      TakeSlice(packetData[..], getDataLen, 0, nextPacket.datalen);
      SettledComplete(cfg, front, body, t, nextPacket);
      TailTest(packetData[nextPacket.datalen], tail);
      if SignedChar(packetData[nextPacket.datalen]) != tail {
        Rewind();
        return None;
      }
      NoCheck();
      var md5str := if nextPacket.datalen == 0 then ZERO_CHECK else md5(payload);
      if nextPacket.check != md5str {
        Rewind();
        return None;
      }
      delivered := Some(Frame(nextPacket, payload));
      Consume();
    }

    /** Finish the pending frame, then judge it. `ready` is false when the chunk ran out first. */
    method TakePacket(data: seq<Byte>, iret: nat, ghost cfg: Config, ghost s: seq<Byte>, ghost sofar: seq<Frame>)
        returns (next: nat, ready: bool, frames: seq<Frame>)
      requires Shape() && Coherent() && parseType.PARSE_HEAD? && cfg == Cfg() && iret <= |data|
      requires Leads(RulesOf(cfg), s, sofar, Unprocessed() + data[iret..])
      modifies this, readData, packetData
      ensures Shape() && cfg == Cfg()
      ensures packetData == old(packetData) && (readData == old(readData) || fresh(readData))
      ensures readData.Length >= old(readData.Length)
      ensures iret <= next <= |data| && ready == parseType.PARSE_NOTHING?
      ensures Leads(RulesOf(cfg), s, sofar + frames, Unprocessed() + data[next..])
      ensures ready ==> |Unprocessed()| + |data| - next < old(|Unprocessed()|) + |data| - iret
      ensures !ready ==> Valid() && next == |data|
    {
      next, ready := Collect(data, iret);
      ghost var u := Unprocessed();
      if !ready {
        assert sofar + [] == sofar;
        return next, false, [];
      }
      var delivered := Settle(cfg);
      frames := ToSeq(delivered);
      SettledLeads(RulesOf(cfg), s, sofar, u, delivered, Unprocessed(), data[next..]);
    }

    /** Nothing deliverable is left: fewer bytes than the smallest frame takes, or an acceptable header with an
        incomplete body. */
    ghost predicate AtRest()
      requires Shape()
      reads this, readData, packetData
    {
      if parseType.PARSE_NOTHING? then |Unprocessed()| < OVERHEAD
      else |Unprocessed()| < OVERHEAD + nextPacket.datalen && Announces(Cfg(), Unprocessed()[..1 + HEADLEN], nextPacket)
    }

    /** The body of the loop: what the scanner has delivered of s, extended by this round. */
    method Round(data: seq<Byte>, iret: nat, ghost cfg: Config, ghost s: seq<Byte>, ghost sofar: seq<Frame>)
        returns (next: nat, frames: seq<Frame>)
      requires Valid() && cfg == Cfg() && iret <= |data| && (iret < |data| || truePacketLen >= OVERHEAD)
      requires Leads(RulesOf(cfg), s, sofar, Unprocessed() + data[iret..])
      modifies this, readData, packetData
      ensures Valid() && cfg == Cfg() && iret <= next <= |data|
      ensures readData == old(readData) || fresh(readData)
      ensures packetData == old(packetData) || fresh(packetData)
      ensures readData.Length >= old(readData.Length) && packetData.Length >= old(packetData.Length)
      ensures Leads(RulesOf(cfg), s, sofar + frames, Unprocessed() + data[next..])
      ensures parseType.PARSE_HEAD? ==> next == |data|
      ensures parseType.PARSE_NOTHING? ==>
                |Unprocessed()| + |data| - next < old(|Unprocessed()|) + |data| - iret || iret < next
      ensures parseType.PARSE_NOTHING? ==> |Unprocessed()| + |data| - next <= old(|Unprocessed()|) + |data| - iret
    {
      next := iret;
      frames := [];
      ghost var u := Unprocessed() + data[iret..];
      if parseType == PARSE_NOTHING {
        var found;
        next, found := FindPacket(data, iret, cfg);
        LeadsOn(RulesOf(cfg), s, sofar, u, Unprocessed() + data[next..]);
        if !found {
          return;
        }
      }
      var ready;
      next, ready, frames := TakePacket(data, next, cfg, s, sofar);
    }

    lemma Quiet(cfg: Config)
      requires Valid() && cfg == Cfg() && (parseType.PARSE_NOTHING? ==> truePacketLen < OVERHEAD)
      ensures AtRest() && Scan(RulesOf(cfg), Unprocessed()).frames == []
    {
      if parseType.PARSE_NOTHING? {
        ShortIsQuiet(RulesOf(cfg), Unprocessed());
      } else {
        assert Beyond() == [];
        assert Unprocessed() == Front() + packetData[..getDataLen];
        assert Unprocessed()[..1 + HEADLEN] == Front();
        VerdictPending(cfg, Front(), packetData[..getDataLen], nextPacket);
      }
    }

    /** One chunk of the stream. The scanner leads from everything unprocessed, old and new, to what is kept, and
        delivers the same frames; what is kept holds no complete frame. */
    method RecvData(data: seq<Byte>) returns (delivered: seq<Frame>)
      requires Valid()
      modifies this, readData, packetData
      ensures Valid() && Cfg() == old(Cfg())
      ensures readData == old(readData) || fresh(readData)
      ensures packetData == old(packetData) || fresh(packetData)
      ensures readData.Length >= old(readData.Length) && packetData.Length >= old(packetData.Length)
      ensures Leads(RulesOf(Cfg()), old(Unprocessed()) + data, delivered, Unprocessed())
      ensures forall i :: 0 <= i < |delivered| ==>
                            && tail < 128 && delivered[i].head.header == head && delivered[i].head.tail == tail
                            && delivered[i].head.datalen == |delivered[i].data|
                            && delivered[i].head.check ==
                               if delivered[i].data == [] then seq(16, _ => 0) else md5(delivered[i].data)
      ensures Scan(RulesOf(Cfg()), Unprocessed()).frames == []
      ensures AtRest()
      ensures if parseType.PARSE_NOTHING? then |Unprocessed()| < 36 else |Unprocessed()| < 36 + nextPacket.datalen
    {
      ghost var cfg, s := Cfg(), Unprocessed() + data;
      var iret := 0;
      delivered := [];
      assert data[0..] == data;
      while iret < |data| || truePacketLen >= OVERHEAD
        invariant Valid() && cfg == Cfg() && 0 <= iret <= |data|
        invariant readData == old(readData) || fresh(readData)
        invariant packetData == old(packetData) || fresh(packetData)
        invariant readData.Length >= old(readData.Length) && packetData.Length >= old(packetData.Length)
        invariant Leads(RulesOf(cfg), s, delivered, Unprocessed() + data[iret..])
        decreases |Unprocessed()| + |data| - iret, |data| - iret
      {
        var frames;
        iret, frames := Round(data, iret, cfg, s, delivered);
        delivered := delivered + frames;
        if parseType == PARSE_HEAD {
          break;
        }
      }
      assert Unprocessed() + data[iret..] == Unprocessed();
      LeadsGenuine(cfg, s, delivered, Unprocessed());
      Quiet(cfg);
    }
  }
}
