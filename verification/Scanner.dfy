/** The reference reading of a byte stream: a scanner that looks for frames and steps over everything else, and
    the laws it obeys. Nothing here knows about buffers, chunks or calls, or about what a header looks like. */
module Scanner {
  import opened Bytes
  import opened NetBase

  /** One invocation of the user's callback. */
  datatype Frame = Frame(head: NetPacket, data: seq<Byte>)

  /** HEAD, header and the closing TAIL. */
  const OVERHEAD := HEADLEN + 2

  function FrameLen(f: Frame): nat {
    OVERHEAD + |f.data|
  }

  /** Does a frame start at the first byte? Wait means that the bytes seen so far do not settle it. */
  datatype Verdict = Refuse | Wait | Accept(frame: Frame)

  /** A settled verdict covers only bytes that are there, and does not depend on what follows them. */
  ghost predicate Lawful(rules: seq<Byte> -> Verdict) {
    && (forall s :: rules(s).Refuse? ==> s != [])
    && (forall s :: rules(s).Accept? ==> FrameLen(rules(s).frame) <= |s|)
    && (forall s, t {:trigger rules(s + t)} :: rules(s) != Wait ==> rules(s + t) == rules(s))
  }

  type Rules = rules: seq<Byte> -> Verdict | Lawful(rules) witness (s: seq<Byte>) => Wait

  function Judge(rules: Rules, s: seq<Byte>): (v: Verdict)
    ensures v.Refuse? ==> s != []
    ensures v.Accept? ==> FrameLen(v.frame) <= |s|
  {
    rules(s)
  }

  datatype Scanned = Scanned(frames: seq<Frame>, rest: seq<Byte>)

  function Prepend(fs: seq<Frame>, r: Scanned): Scanned {
    Scanned(fs + r.frames, r.rest)
  }

  /** All frames of a whole stream, and the bytes from the first unsettled position on. */
  function Scan(rules: Rules, s: seq<Byte>): Scanned
    decreases |s|
  {
    match Judge(rules, s)
    case Wait => Scanned([], s)
    case Refuse => Scan(rules, s[1..])
    case Accept(f) => Prepend([f], Scan(rules, s[FrameLen(f)..]))
  }

  /** Some number of scanner steps lead from s to u and deliver exactly fs. */
  ghost predicate Leads(rules: Rules, s: seq<Byte>, fs: seq<Frame>, u: seq<Byte>)
    decreases |s|
  {
    || (fs == [] && u == s)
    || match Judge(rules, s)
       case Wait => false
       case Refuse => Leads(rules, s[1..], fs, u)
       case Accept(f) => fs != [] && fs[0] == f && Leads(rules, s[FrameLen(f)..], fs[1..], u)
  }

  lemma JudgeExtend(rules: Rules, s: seq<Byte>, t: seq<Byte>)
    requires Judge(rules, s) != Wait
    ensures Judge(rules, s + t) == Judge(rules, s)
  {}

  lemma {:induction false} LeadsTrans(rules: Rules, s: seq<Byte>, f1: seq<Frame>, u: seq<Byte>, f2: seq<Frame>,
                                      v: seq<Byte>)
    requires Leads(rules, s, f1, u) && Leads(rules, u, f2, v)
    ensures Leads(rules, s, f1 + f2, v)
    decreases |s|
  {
    if f1 == [] && u == s {
      assert f1 + f2 == f2;
    } else {
      match Judge(rules, s)
      case Refuse => LeadsTrans(rules, s[1..], f1, u, f2, v);
      case Accept(f) =>
        LeadsTrans(rules, s[FrameLen(f)..], f1[1..], u, f2, v);
        assert (f1 + f2)[1..] == f1[1..] + f2;
    }
  }

  lemma DropBefore(s: seq<Byte>, t: seq<Byte>, n: nat)
    requires n <= |s|
    ensures (s + t)[n..] == s[n..] + t
  {}

  /** Steps taken on the bytes so far are steps on every continuation of them. */
  lemma {:induction false} LeadsExtend(rules: Rules, s: seq<Byte>, fs: seq<Frame>, u: seq<Byte>, t: seq<Byte>)
    requires Leads(rules, s, fs, u)
    ensures Leads(rules, s + t, fs, u + t)
    decreases |s|
  {
    if !(fs == [] && u == s) {
      JudgeExtend(rules, s, t);
      match Judge(rules, s)
      case Refuse =>
        DropBefore(s, t, 1);
        LeadsExtend(rules, s[1..], fs, u, t);
      case Accept(f) =>
        DropBefore(s, t, FrameLen(f));
        LeadsExtend(rules, s[FrameLen(f)..], fs[1..], u, t);
    }
  }

  /** Scanner steps only drop a prefix. */
  lemma {:induction false} LeadsSuffix(rules: Rules, s: seq<Byte>, fs: seq<Frame>, u: seq<Byte>)
    requires Leads(rules, s, fs, u)
    ensures |u| <= |s| && u == s[|s| - |u|..]
    decreases |s|
  {
    if !(fs == [] && u == s) {
      match Judge(rules, s)
      case Refuse => LeadsSuffix(rules, s[1..], fs, u);
      case Accept(f) => LeadsSuffix(rules, s[FrameLen(f)..], fs[1..], u);
    }
  }

  lemma PrependTwice(f1: seq<Frame>, f2: seq<Frame>, r: Scanned)
    ensures Prepend(f1, Prepend(f2, r)) == Prepend(f1 + f2, r)
  {
    assert f1 + (f2 + r.frames) == f1 + f2 + r.frames;
  }

  /** What is left after some steps still scans to the same end. */
  lemma {:induction false} LeadsScan(rules: Rules, s: seq<Byte>, fs: seq<Frame>, u: seq<Byte>)
    requires Leads(rules, s, fs, u)
    ensures Scan(rules, s) == Prepend(fs, Scan(rules, u))
    decreases |s|
  {
    if fs == [] && u == s {
    } else {
      match Judge(rules, s)
      case Refuse => LeadsScan(rules, s[1..], fs, u);
      case Accept(f) =>
        LeadsScan(rules, s[FrameLen(f)..], fs[1..], u);
        PrependTwice([f], fs[1..], Scan(rules, u));
        assert [f] + fs[1..] == fs;
    }
  }

  lemma {:induction false} ScanLeads(rules: Rules, s: seq<Byte>)
    ensures Leads(rules, s, Scan(rules, s).frames, Scan(rules, s).rest)
    ensures Judge(rules, Scan(rules, s).rest) == Wait
    decreases |s|
  {
    match Judge(rules, s)
    case Wait =>
    case Refuse => ScanLeads(rules, s[1..]);
    case Accept(f) => ScanLeads(rules, s[FrameLen(f)..]);
  }

  /** Scanning can be interrupted anywhere and resumed with the bytes left over; in particular the frames of a
      prefix are a prefix of the frames. */
  lemma ScanResume(rules: Rules, s: seq<Byte>, t: seq<Byte>)
    ensures Scan(rules, s + t) == Prepend(Scan(rules, s).frames, Scan(rules, Scan(rules, s).rest + t))
    ensures Scan(rules, s).frames <= Scan(rules, s + t).frames
  {
    ScanLeads(rules, s);
    LeadsExtend(rules, s, Scan(rules, s).frames, Scan(rules, s).rest, t);
    LeadsScan(rules, s + t, Scan(rules, s).frames, Scan(rules, s).rest + t);
  }

  lemma LeadsOn(rules: Rules, s: seq<Byte>, fs: seq<Frame>, u: seq<Byte>, v: seq<Byte>)
    requires Leads(rules, s, fs, u) && Leads(rules, u, [], v)
    ensures Leads(rules, s, fs, v) && Leads(rules, s, fs + [], v) && |v| <= |u|
  {
    LeadsTrans(rules, s, fs, u, [], v);
    LeadsSuffix(rules, u, [], v);
    assert fs + [] == fs;
  }

  lemma LeadsRefuse(rules: Rules, s: seq<Byte>, fs: seq<Frame>, u: seq<Byte>)
    requires Leads(rules, s, fs, u) && Judge(rules, u) == Refuse
    ensures Leads(rules, s, fs, u[1..])
  {
    assert Leads(rules, u[1..], [], u[1..]);
    LeadsTrans(rules, s, fs, u, [], u[1..]);
    assert fs + [] == fs;
  }

  lemma LeadsAccept(rules: Rules, s: seq<Byte>, fs: seq<Frame>, u: seq<Byte>)
    requires Leads(rules, s, fs, u) && Judge(rules, u).Accept?
    ensures Leads(rules, s, fs + [Judge(rules, u).frame], u[FrameLen(Judge(rules, u).frame)..])
  {
    var f := Judge(rules, u).frame;
    assert Leads(rules, u[FrameLen(f)..], [], u[FrameLen(f)..]);
    assert [f][1..] == [];
    LeadsTrans(rules, s, fs, u, [f], u[FrameLen(f)..]);
  }

  lemma LeadsFirst(rules: Rules, s: seq<Byte>, f: Frame, v: seq<Byte>, fs: seq<Frame>, u: seq<Byte>)
    requires Judge(rules, s) == Accept(f) && s[FrameLen(f)..] == v && Leads(rules, v, fs, u)
    ensures Leads(rules, s, [f] + fs, u)
  {
    assert ([f] + fs)[1..] == fs;
  }

  lemma LeadsPast(rules: Rules, s: seq<Byte>, f: Frame, v: seq<Byte>, fs: seq<Frame>, u: seq<Byte>)
    requires Judge(rules, s) == Accept(f) && s[FrameLen(f)..] == v && Leads(rules, s, [f] + fs, u)
    ensures Leads(rules, v, fs, u)
  {
    assert ([f] + fs)[1..] == fs;
  }

  /** A run of refused positions is passed over. */
  lemma {:induction false} LeadsOverRefused(rules: Rules, s: seq<Byte>, n: nat)
    requires n <= |s|
    requires forall p :: 0 <= p < n ==> Judge(rules, s[p..]) == Refuse
    ensures Leads(rules, s, [], s[n..])
    decreases n
  {
    if n == 0 {
      assert s[0..] == s;
    } else {
      assert s[0..] == s;
      forall p | 0 <= p < n - 1
        ensures Judge(rules, s[1..][p..]) == Refuse
      {
        assert s[1..][p..] == s[p + 1..];
      }
      LeadsOverRefused(rules, s[1..], n - 1);
      assert s[1..][n - 1..] == s[n..];
    }
  }

  /** ... and nothing else can have been done with them on the way to a frame. */
  lemma {:induction false} LeadsBehindRefused(rules: Rules, s: seq<Byte>, n: nat, fs: seq<Frame>, u: seq<Byte>)
    requires n <= |s| && fs != [] && Leads(rules, s, fs, u)
    requires forall p :: 0 <= p < n ==> Judge(rules, s[p..]) == Refuse
    ensures Leads(rules, s[n..], fs, u)
    decreases n
  {
    assert s[0..] == s;
    if n == 0 {
    } else {
      forall p | 0 <= p < n - 1
        ensures Judge(rules, s[1..][p..]) == Refuse
      {
        assert s[1..][p..] == s[p + 1..];
      }
      LeadsBehindRefused(rules, s[1..], n - 1, fs, u);
      assert s[1..][n - 1..] == s[n..];
    }
  }

  /** Fewer bytes than an empty frame takes never hold one. */
  lemma {:induction false} ShortIsQuiet(rules: Rules, s: seq<Byte>)
    requires |s| < OVERHEAD
    ensures Scan(rules, s).frames == []
    decreases |s|
  {
    match Judge(rules, s)
    case Wait =>
    case Refuse => ShortIsQuiet(rules, s[1..]);
  }

  lemma LeadsToNothing(rules: Rules, s: seq<Byte>, fs: seq<Frame>)
    requires Leads(rules, s, fs, [])
    ensures Scan(rules, s) == Scanned(fs, [])
  {
    LeadsScan(rules, s, fs, []);
    ShortIsQuiet(rules, []);
    ScanLeads(rules, []);
    LeadsSuffix(rules, [], [], Scan(rules, []).rest);
    assert fs + [] == fs;
  }

  /** Nothing is settled before the last byte of a frame. */
  lemma PrefixWaits(rules: Rules, b: seq<Byte>, u: seq<Byte>)
    requires Judge(rules, b).Accept? && FrameLen(Judge(rules, b).frame) == |b|
    requires u <= b && |u| < |b|
    ensures Judge(rules, u) == Wait
    ensures Scan(rules, u) == Scanned([], u)
  {
    var t := b[|u|..];
    assert u + t == b;
    if Judge(rules, u) != Wait {
      JudgeExtend(rules, u, t);
    }
  }

  /** When no scanner step delivers, the frames are those of what the steps lead to. */
  lemma {:induction false} NeverAccepted(rules: Rules, s: seq<Byte>)
    requires forall u :: !Judge(rules, u).Accept?
    ensures Scan(rules, s).frames == []
    decreases |s|
  {
    match Judge(rules, s)
    case Wait =>
    case Refuse => NeverAccepted(rules, s[1..]);
  }

  // ---- Frames as windows of the stream ----

  function JudgeAt(rules: Rules, s: seq<Byte>, p: nat): Verdict {
    if p <= |s| then Judge(rules, s[p..]) else Wait
  }

  /** The first position after the frame that starts at p. */
  function End(rules: Rules, s: seq<Byte>, p: nat): (e: nat)
    ensures e <= p || (JudgeAt(rules, s, p).Accept? && e <= |s|)
  {
    match JudgeAt(rules, s, p)
    case Accept(f) => p + FrameLen(f)
    case _ => p
  }

  ghost predicate InFrame(rules: Rules, s: seq<Byte>, start: nat, p: nat) {
    start <= p < End(rules, s, start)
  }

  ghost predicate Covered(rules: Rules, s: seq<Byte>, starts: seq<nat>, p: nat) {
    exists i :: 0 <= i < |starts| && InFrame(rules, s, starts[i], p)
  }

  ghost predicate Sound(rules: Rules, s: seq<Byte>, from: nat, starts: seq<nat>, stop: nat) {
    forall i :: 0 <= i < |starts| ==>
      from <= starts[i] && JudgeAt(rules, s, starts[i]).Accept? && End(rules, s, starts[i]) <= stop
  }

  ghost predicate Apart(rules: Rules, s: seq<Byte>, starts: seq<nat>) {
    forall i, j :: 0 <= i < j < |starts| ==> End(rules, s, starts[i]) <= starts[j]
  }

  ghost predicate Complete(rules: Rules, s: seq<Byte>, from: nat, starts: seq<nat>, stop: nat) {
    forall p: nat :: from <= p < stop ==> Covered(rules, s, starts, p) || JudgeAt(rules, s, p) == Refuse
  }

  /** From position `from` on, `starts` are ordered and pairwise disjoint windows holding acceptable frames; every
      position outside them is refused, up to `stop`, where the stream is not settled yet. */
  ghost predicate IsFraming(rules: Rules, s: seq<Byte>, from: nat, starts: seq<nat>, stop: nat) {
    && from <= stop <= |s|
    && JudgeAt(rules, s, stop) == Wait
    && Sound(rules, s, from, starts, stop)
    && Apart(rules, s, starts)
    && Complete(rules, s, from, starts, stop)
  }

  function FramesAt(rules: Rules, s: seq<Byte>, starts: seq<nat>): (fs: seq<Frame>)
    requires forall i :: 0 <= i < |starts| ==> JudgeAt(rules, s, starts[i]).Accept?
    ensures |fs| == |starts|
  {
    seq(|starts|, i requires 0 <= i < |starts| => JudgeAt(rules, s, starts[i]).frame)
  }

  /** The framing from `from` on, found step by step. */
  function Windows(rules: Rules, s: seq<Byte>, from: nat): (r: (seq<nat>, nat))
    requires from <= |s|
    decreases |s| - from
  {
    match JudgeAt(rules, s, from)
    case Wait => ([], from)
    case Refuse => Windows(rules, s, from + 1)
    case Accept(f) =>
      var r := Windows(rules, s, from + FrameLen(f));
      ([from] + r.0, r.1)
  }

  lemma CoveredCons(rules: Rules, s: seq<Byte>, start: nat, starts: seq<nat>, p: nat)
    ensures Covered(rules, s, [start] + starts, p) <==> InFrame(rules, s, start, p) || Covered(rules, s, starts, p)
  {
    var all := [start] + starts;
    if InFrame(rules, s, start, p) {
      assert all[0] == start;
    }
    if Covered(rules, s, starts, p) {
      var i :| 0 <= i < |starts| && InFrame(rules, s, starts[i], p);
      assert all[i + 1] == starts[i];
    }
  }

  lemma FramingSkip(rules: Rules, s: seq<Byte>, from: nat, starts: seq<nat>, stop: nat)
    requires JudgeAt(rules, s, from) == Refuse
    requires IsFraming(rules, s, from + 1, starts, stop)
    ensures IsFraming(rules, s, from, starts, stop)
  {}

  lemma SoundCons(rules: Rules, s: seq<Byte>, from: nat, starts: seq<nat>, stop: nat)
    requires JudgeAt(rules, s, from).Accept? && End(rules, s, from) <= stop
    requires Sound(rules, s, End(rules, s, from), starts, stop)
    ensures Sound(rules, s, from, [from] + starts, stop)
  {
    var all := [from] + starts;
    forall i | 0 <= i < |all|
      ensures from <= all[i] && JudgeAt(rules, s, all[i]).Accept? && End(rules, s, all[i]) <= stop
    {
      if i > 0 {
        assert all[i] == starts[i - 1];
      }
    }
  }

  lemma ApartCons(rules: Rules, s: seq<Byte>, from: nat, starts: seq<nat>, stop: nat)
    requires Sound(rules, s, End(rules, s, from), starts, stop) && Apart(rules, s, starts)
    ensures Apart(rules, s, [from] + starts)
  {
    var all := [from] + starts;
    forall i, j | 0 <= i < j < |all|
      ensures End(rules, s, all[i]) <= all[j]
    {
      assert all[j] == starts[j - 1];
      if i > 0 {
        assert all[i] == starts[i - 1];
      }
    }
  }

  lemma CompleteCons(rules: Rules, s: seq<Byte>, from: nat, starts: seq<nat>, stop: nat)
    requires Complete(rules, s, End(rules, s, from), starts, stop)
    ensures Complete(rules, s, from, [from] + starts, stop)
  {
    forall p: nat | from <= p < stop
      ensures Covered(rules, s, [from] + starts, p) || JudgeAt(rules, s, p) == Refuse
    {
      CoveredCons(rules, s, from, starts, p);
    }
  }

  lemma FramingCons(rules: Rules, s: seq<Byte>, from: nat, starts: seq<nat>, stop: nat)
    requires JudgeAt(rules, s, from).Accept?
    requires IsFraming(rules, s, End(rules, s, from), starts, stop)
    ensures IsFraming(rules, s, from, [from] + starts, stop)
  {
    SoundCons(rules, s, from, starts, stop);
    ApartCons(rules, s, from, starts, stop);
    CompleteCons(rules, s, from, starts, stop);
  }

  lemma {:induction false} WindowsAreFraming(rules: Rules, s: seq<Byte>, from: nat)
    requires from <= |s|
    ensures IsFraming(rules, s, from, Windows(rules, s, from).0, Windows(rules, s, from).1)
    decreases |s| - from
  {
    match JudgeAt(rules, s, from)
    case Wait =>
    case Refuse =>
      var (starts, stop) := Windows(rules, s, from + 1);
      WindowsAreFraming(rules, s, from + 1);
      FramingSkip(rules, s, from, starts, stop);
    case Accept(f) =>
      var (starts, stop) := Windows(rules, s, End(rules, s, from));
      WindowsAreFraming(rules, s, End(rules, s, from));
      FramingCons(rules, s, from, starts, stop);
  }

  lemma StartsRise(rules: Rules, s: seq<Byte>, from: nat, starts: seq<nat>, stop: nat, i: nat)
    requires IsFraming(rules, s, from, starts, stop) && i < |starts|
    ensures i > 0 ==> starts[0] < starts[i]
  {
    assert i > 0 ==> End(rules, s, starts[0]) <= starts[i];
  }

  lemma CompleteTail(rules: Rules, s: seq<Byte>, from: nat, starts: seq<nat>, stop: nat)
    requires Complete(rules, s, from, starts, stop) && starts != [] && starts[0] == from
    ensures Complete(rules, s, End(rules, s, from), starts[1..], stop)
  {
    forall p: nat | End(rules, s, from) <= p < stop
      ensures Covered(rules, s, starts[1..], p) || JudgeAt(rules, s, p) == Refuse
    {
      assert starts == [from] + starts[1..];
      CoveredCons(rules, s, from, starts[1..], p);
    }
  }

  lemma FramingTail(rules: Rules, s: seq<Byte>, from: nat, starts: seq<nat>, stop: nat)
    requires IsFraming(rules, s, from, starts, stop)
    requires starts != [] && starts[0] == from
    ensures IsFraming(rules, s, End(rules, s, from), starts[1..], stop)
  {
    var next, tail := End(rules, s, from), starts[1..];
    forall i | 0 <= i < |tail|
      ensures next <= tail[i] && JudgeAt(rules, s, tail[i]).Accept? && End(rules, s, tail[i]) <= stop
    {
      assert tail[i] == starts[i + 1];
      assert End(rules, s, starts[0]) <= starts[i + 1];
    }
    forall i, j | 0 <= i < j < |tail|
      ensures End(rules, s, tail[i]) <= tail[j]
    {
      assert tail[i] == starts[i + 1] && tail[j] == starts[j + 1];
    }
    assert Complete(rules, s, next, tail, stop) by {
      CompleteTail(rules, s, from, starts, stop);
    }
  }

  /** The verdict at the first position determines how a framing begins. */
  lemma FramingHead(rules: Rules, s: seq<Byte>, from: nat, starts: seq<nat>, stop: nat)
    requires IsFraming(rules, s, from, starts, stop)
    ensures JudgeAt(rules, s, from) == Wait ==> starts == [] && stop == from
    ensures JudgeAt(rules, s, from) == Refuse ==> IsFraming(rules, s, from + 1, starts, stop)
    ensures JudgeAt(rules, s, from).Accept? ==>
              starts != [] && starts == [from] + starts[1..]
              && IsFraming(rules, s, End(rules, s, from), starts[1..], stop)
  {
    if from < stop && JudgeAt(rules, s, from) != Refuse {
      assert Covered(rules, s, starts, from);
      var i :| 0 <= i < |starts| && InFrame(rules, s, starts[i], from);
      assert starts[i] == from;
      StartsRise(rules, s, from, starts, stop, i);
      FramingTail(rules, s, from, starts, stop);
    }
    assert starts != [] ==> from <= starts[0] < End(rules, s, starts[0]) <= stop;
  }

  /** There is only one way to frame a stream. */
  lemma {:induction false} FramingUnique(rules: Rules, s: seq<Byte>, from: nat, starts: seq<nat>, stop: nat)
    requires IsFraming(rules, s, from, starts, stop)
    ensures starts == Windows(rules, s, from).0 && stop == Windows(rules, s, from).1
    decreases |s| - from
  {
    FramingHead(rules, s, from, starts, stop);
    var v := JudgeAt(rules, s, from);
    if v.Refuse? {
      FramingUnique(rules, s, from + 1, starts, stop);
    } else if v.Accept? {
      FramingUnique(rules, s, End(rules, s, from), starts[1..], stop);
    }
  }

  lemma FramesCons(rules: Rules, s: seq<Byte>, start: nat, starts: seq<nat>)
    requires JudgeAt(rules, s, start).Accept?
    requires forall i :: 0 <= i < |starts| ==> JudgeAt(rules, s, starts[i]).Accept?
    ensures FramesAt(rules, s, [start] + starts) == [JudgeAt(rules, s, start).frame] + FramesAt(rules, s, starts)
  {}

  lemma {:induction false} WindowsScan(rules: Rules, s: seq<Byte>, from: nat)
    requires from <= |s|
    ensures var (starts, stop) := Windows(rules, s, from);
            && stop <= |s|
            && (forall i :: 0 <= i < |starts| ==> JudgeAt(rules, s, starts[i]).Accept?)
            && Scan(rules, s[from..]) == Scanned(FramesAt(rules, s, starts), s[stop..])
    decreases |s| - from
  {
    match JudgeAt(rules, s, from)
    case Wait =>
    case Refuse =>
      WindowsScan(rules, s, from + 1);
      assert s[from..][1..] == s[from + 1..];
    case Accept(f) =>
      var next := End(rules, s, from);
      WindowsScan(rules, s, next);
      assert s[from..][FrameLen(f)..] == s[next..];
      FramesCons(rules, s, from, Windows(rules, s, next).0);
  }

  /** Soundness, completeness and uniqueness of framing: the scan of a stream is its one and only framing. */
  lemma ScanIsTheFraming(rules: Rules, s: seq<Byte>, starts: seq<nat>, stop: nat)
    ensures IsFraming(rules, s, 0, starts, stop) <==> (starts, stop) == Windows(rules, s, 0)
    ensures IsFraming(rules, s, 0, starts, stop) ==> Scan(rules, s) == Scanned(FramesAt(rules, s, starts), s[stop..])
  {
    WindowsAreFraming(rules, s, 0);
    if IsFraming(rules, s, 0, starts, stop) {
      FramingUnique(rules, s, 0, starts, stop);
      WindowsScan(rules, s, 0);
      assert s[0..] == s;
    }
  }
}
