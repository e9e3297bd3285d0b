/** The integer and header codec of net_base.h.
    A wire byte is kept as its unsigned value; reading it back through plain `char` is SignedChar.
    `little` is the byte order of the host. */
module NetBase {
  import opened Bytes

  const HEADLEN := 34

  type Int32 = x: int | -0x8000_0000 <= x < 0x8000_0000
  type Uint32 = x: int | 0 <= x < 0x1_0000_0000
  type Uint64 = x: int | 0 <= x < 0x1_0000_0000_0000_0000

  /** The packed 34-byte header; `kind` is the source's field `type`. */
  datatype NetPacket = NetPacket(
    version: Int32, header: Byte, tail: Byte, check: Digest, kind: Int32, datalen: Int32, reserve: Int32)

  // ---- Positional notation, for any width ----

  function Pow256(w: nat): (p: nat)
    ensures p > 0
  {
    if w == 0 then 1 else 256 * Pow256(w - 1)
  }

  /** The w low bytes of n, most significant first. */
  function ToBytes(n: nat, w: nat): (s: seq<Byte>)
    ensures |s| == w
  {
    if w == 0 then [] else ToBytes(n / 256, w - 1) + [n % 256]
  }

  function FromBytes(s: seq<Byte>): nat {
    if s == [] then 0 else 256 * FromBytes(s[..|s| - 1]) + s[|s| - 1]
  }

  function Reverse(s: seq<Byte>): (r: seq<Byte>)
    ensures |r| == |s| && forall k :: 0 <= k < |s| ==> r[k] == s[|s| - 1 - k]
  {
    seq(|s|, k requires 0 <= k < |s| => s[|s| - 1 - k])
  }

  /** htonl, ntohl, htonll and ntohll are one function: swap the bytes on a little-endian host. */
  function HostToNet(little: bool, n: nat, w: nat): nat {
    if little then FromBytes(Reverse(ToBytes(n, w))) else n
  }

  /** What the printing functions put on the wire for an unsigned w-byte integer. */
  function Wire(little: bool, n: nat, w: nat): (s: seq<Byte>)
    ensures |s| == w
  {
    ToBytes(HostToNet(little, n, w), w)
  }

  lemma {:induction false} FromToBytes(n: nat, w: nat)
    requires n < Pow256(w)
    ensures FromBytes(ToBytes(n, w)) == n
  {
    if w == 0 {
    } else {
      FromToBytes(n / 256, w - 1);
      var s := ToBytes(n, w);
      assert s[..|s| - 1] == ToBytes(n / 256, w - 1);
    }
  }

  lemma {:induction false} ToFromBytes(s: seq<Byte>)
    ensures FromBytes(s) < Pow256(|s|)
    ensures ToBytes(FromBytes(s), |s|) == s
  {
    if s == [] {
    } else {
      var p := s[..|s| - 1];
      ToFromBytes(p);
      assert FromBytes(s) / 256 == FromBytes(p) && FromBytes(s) % 256 == s[|s| - 1];
      assert s == p + [s[|s| - 1]];
    }
  }

  /** A byte swap undoes itself and stays in range. */
  lemma HostToNetInverse(little: bool, n: nat, w: nat)
    requires n < Pow256(w)
    ensures HostToNet(little, n, w) < Pow256(w)
    ensures HostToNet(little, HostToNet(little, n, w), w) == n
  {
    if little {
      var r := Reverse(ToBytes(n, w));
      ToFromBytes(r);
      assert Reverse(r) == ToBytes(n, w);
      FromToBytes(n, w);
    }
  }

  /** On a little-endian host the wire carries the least significant byte first, despite the swap. */
  lemma WireOrder(little: bool, n: nat, w: nat)
    requires n < Pow256(w)
    ensures Wire(little, n, w) == if little then Reverse(ToBytes(n, w)) else ToBytes(n, w)
  {
    if little {
      ToFromBytes(Reverse(ToBytes(n, w)));
    }
  }

  // ---- Reading back through plain char ----

  function SignedChar(b: Byte): (c: int)
    ensures -128 <= c < 128 && c % 256 == b
  {
    if b < 128 then b else b - 256
  }

  function SignedSum(s: seq<Byte>): int {
    if s == [] then 0 else 256 * SignedSum(s[..|s| - 1]) + SignedChar(s[|s| - 1])
  }

  /** What sign extension takes away: every byte >= 0x80 borrows one from the byte above it. */
  function Borrow(s: seq<Byte>): nat {
    if s == [] then 0 else 256 * Borrow(s[..|s| - 1]) + (if s[|s| - 1] < 128 then 0 else 256)
  }

  /** The unsigned value put together before the final byte swap. */
  function Reassembled(s: seq<Byte>): nat {
    SignedSum(s) % Pow256(|s|)
  }

  function Unwire(little: bool, s: seq<Byte>): nat {
    HostToNet(little, Reassembled(s), |s|)
  }

  /** No wire byte below the top one reads back negative. */
  predicate LowBytesPlain(s: seq<Byte>) {
    forall i :: 1 <= i < |s| ==> s[i] < 128
  }

  lemma {:induction false} SignedSumIsBorrowed(s: seq<Byte>)
    ensures SignedSum(s) == FromBytes(s) - Borrow(s)
  {
    if s == [] {
    } else {
      SignedSumIsBorrowed(s[..|s| - 1]);
    }
  }

  lemma {:induction false} BorrowBound(s: seq<Byte>)
    ensures Borrow(s) + 2 <= 2 * Pow256(|s|)
    ensures Borrow(s) == 0 <==> forall i :: 0 <= i < |s| ==> s[i] < 128
  {
    if s == [] {
    } else {
      var p := s[..|s| - 1];
      BorrowBound(p);
      assert s == p + [s[|s| - 1]];
    }
  }

  lemma LowBytesBorrow(s: seq<Byte>)
    requires s != []
    ensures LowBytesPlain(s) <==> Borrow(s[1..]) == 0
  {
    BorrowBound(s[1..]);
    assert forall i :: 1 <= i < |s| ==> s[i] == s[1..][i - 1];
  }

  /** The top byte borrows a whole multiple of the modulus, which the unsigned result does not notice. */
  lemma {:induction false} BorrowTop(s: seq<Byte>)
    requires s != []
    ensures Borrow(s) == (if s[0] < 128 then 0 else Pow256(|s|)) + Borrow(s[1..])
  {
    var p := s[..|s| - 1];
    if p == [] {
      assert s[1..] == [];
      assert Borrow(p) == 0;
      assert Pow256(1) == 256 * Pow256(0);
    } else {
      BorrowTop(p);
      assert s[1..][..|s[1..]| - 1] == p[1..];
    }
  }

  lemma MulSign(a: int, m: int)
    requires m > 0
    ensures a >= 1 ==> a * m >= m
    ensures a <= -1 ==> a * m <= -m
  {
    if a >= 1 {
      assert a * m == (a - 1) * m + m;
    }
    if a <= -1 {
      assert a * m == (a + 1) * m - m;
    }
  }

  lemma ModUnique(x: int, m: int, k: int, r: int)
    requires 0 <= r < m && x == k * m + r
    ensures x % m == r && x / m == k
  {
    var q := x / m;
    assert x == q * m + x % m;
    assert (k - q) * m == x % m - r;
    MulSign(k - q, m);
  }

  lemma Distribute(m: int, k: int, q: int, r: int)
    ensures m * (k * q + r) == q * (m * k) + m * r
  {}

  lemma MulBound(m: int, r: int, k: int)
    requires m > 0 && 0 <= r < k
    ensures 0 <= m * r <= m * k - m
  {
    assert m * (k - 1) == m * k - m;
    assert m * r <= m * (k - 1);
  }

  lemma DivDiv(n: nat, m: nat, k: nat)
    requires m > 0 && k > 0
    ensures m * k > 0 && n / m / k == n / (m * k)
  {
    var d, r1 := n / m, n % m;
    var q, r2 := d / k, d % k;
    assert n == m * d + r1;
    assert d == k * q + r2;
    Distribute(m, k, q, r2);
    MulBound(m, r2, k);
    ModUnique(n, m * k, q, m * r2 + r1);
  }

  lemma ModShift(a: int, k: int, m: int)
    requires m > 0
    ensures (a + k * m) % m == a % m
  {
    assert a == (a / m) * m + a % m;
    assert a + k * m == (a / m + k) * m + a % m;
    ModUnique(a + k * m, m, a / m + k, a % m);
  }

  lemma ModWithoutTop(x: int, y: int, m: int)
    requires m > 0 && (x == y || x == y - m)
    ensures x % m == y % m
  {
    ModShift(y, -1, m);
  }

  lemma SignedSumNear(s: seq<Byte>)
    requires s != []
    ensures var x, y, m := SignedSum(s), FromBytes(s) - Borrow(s[1..]), Pow256(|s|); x == y || x == y - m
  {
    SignedSumIsBorrowed(s);
    BorrowTop(s);
  }

  lemma ReassembledFrom(s: seq<Byte>, y: int, m: int)
    requires m == Pow256(|s|) && (SignedSum(s) == y || SignedSum(s) == y - m)
    ensures Reassembled(s) == y % m
  {
    ModWithoutTop(SignedSum(s), y, m);
  }

  /** The reassembled value is wrong by exactly the borrows of the bytes below the top one; n is what the bytes stand
      for, and m the modulus. */
  lemma ReassembledError(s: seq<Byte>, n: nat, m: nat)
    requires s != [] && n == FromBytes(s) && m == Pow256(|s|)
    ensures Reassembled(s) == (n - Borrow(s[1..])) % m
  {
    SignedSumNear(s);
    ReassembledFrom(s, n - Borrow(s[1..]), m);
  }

  lemma BorrowBelowTop(s: seq<Byte>)
    requires s != []
    ensures Borrow(s[1..]) < Pow256(|s|)
  {
    BorrowBound(s[1..]);
  }

  /** Subtracting a proper, non-zero remainder moves every residue. */
  lemma ModMoves(m: int, b: int, p: int)
    requires 0 <= m < p && 0 <= b < p
    ensures (m - b) % p == m <==> b == 0
  {
    if m >= b {
      ModUnique(m - b, p, 0, m - b);
    } else {
      ModUnique(m - b, p, -1, m - b + p);
    }
  }

  /** The plain-char reader gives back the transmitted integer exactly when no byte below the top one
      has its high bit set; the same on both byte orders. */
  lemma CodecExact(little: bool, n: nat, w: nat)
    requires w > 0 && n < Pow256(w)
    ensures Reassembled(Wire(little, n, w)) == (HostToNet(little, n, w) - Borrow(Wire(little, n, w)[1..])) % Pow256(w)
    ensures Unwire(little, Wire(little, n, w)) == n <==> LowBytesPlain(Wire(little, n, w))
  {
    var s := Wire(little, n, w);
    var m := HostToNet(little, n, w);
    HostToNetInverse(little, n, w);
    FromToBytes(m, w);
    ReassembledError(s, m, Pow256(w));
    BorrowBelowTop(s);
    LowBytesBorrow(s);
    ModMoves(m, Borrow(s[1..]), Pow256(w));
    HostToNetInverse(little, Reassembled(s), w);
  }

  // ---- The 32-bit and 64-bit functions as written ----

  lemma Bytes4(n: nat)
    requires n < 0x1_0000_0000
    ensures ToBytes(n, 4) == [n / 0x100_0000 % 256, n / 0x1_0000 % 256, n / 0x100 % 256, n % 256]
  {
    var a, b, c := n / 256, n / 256 / 256, n / 256 / 256 / 256;
    assert ToBytes(c, 1) == ToBytes(c / 256, 0) + [c % 256];
    assert ToBytes(b, 2) == ToBytes(c, 1) + [b % 256];
    assert ToBytes(a, 3) == ToBytes(b, 2) + [a % 256];
    assert ToBytes(n, 4) == ToBytes(a, 3) + [n % 256];
  }

  lemma Pow256At4()
    ensures Pow256(4) == 0x1_0000_0000
  {
    assert Pow256(2) == 256 * Pow256(1) == 0x1_0000;
    assert Pow256(4) == 256 * Pow256(3);
  }

  lemma Pow256At8()
    ensures Pow256(8) == 0x1_0000_0000_0000_0000
  {
    Pow256At4();
    assert Pow256(6) == 256 * Pow256(5);
    assert Pow256(8) == 256 * Pow256(7);
  }

  lemma Signed4(s: seq<Byte>)
    requires |s| == 4
    ensures SignedSum(s) ==
              SignedChar(s[0]) * 0x100_0000 + SignedChar(s[1]) * 0x1_0000 + SignedChar(s[2]) * 0x100 + SignedChar(s[3])
  {
    assert s[..3][..2] == s[..2] && s[..2][..1] == s[..1] && s[..1][..0] == [];
    assert SignedSum(s[..1]) == SignedChar(s[0]);
    assert SignedSum(s[..2]) == 256 * SignedSum(s[..1]) + SignedChar(s[1]);
    assert SignedSum(s[..3]) == 256 * SignedSum(s[..2]) + SignedChar(s[2]);
  }

  /** The bytes of u in the opposite order. */
  function Swapped4(u: Uint32): int {
    u % 256 * 0x100_0000 + u / 0x100 % 256 * 0x1_0000 + u / 0x1_0000 % 256 * 0x100 + u / 0x100_0000
  }

  lemma FromBytes4(a: Byte, b: Byte, c: Byte, d: Byte)
    ensures FromBytes([a, b, c, d]) == a * 0x100_0000 + b * 0x1_0000 + c * 0x100 + d
  {
    assert [a, b, c, d][..3] == [a, b, c] && [a, b, c][..2] == [a, b] && [a, b][..1] == [a];
    assert FromBytes([a]) == a;
    assert FromBytes([a, b]) == 256 * FromBytes([a]) + b;
    assert FromBytes([a, b, c]) == 256 * FromBytes([a, b]) + c;
  }

  lemma SwapIsSwapped4(u: Uint32)
    ensures HostToNet(true, u, 4) == Swapped4(u)
  {
    Bytes4(u);
    var a, b, c, d := u / 0x100_0000 % 256, u / 0x1_0000 % 256, u / 0x100 % 256, u % 256;
    assert Reverse([a, b, c, d]) == [d, c, b, a];
    FromBytes4(d, c, b, a);
  }

  lemma ToBytesStep(n: nat, w: nat)
    requires w > 0
    ensures ToBytes(n, w) == ToBytes(n / 256, w - 1) + [n % 256]
  {}

  lemma Bytes8(n: nat)
    ensures ToBytes(n, 8) ==
            [n / 0x100_0000_0000_0000 % 256, n / 0x1_0000_0000_0000 % 256,
             n / 0x100_0000_0000 % 256, n / 0x1_0000_0000 % 256,
             n / 0x100_0000 % 256, n / 0x1_0000 % 256, n / 0x100 % 256, n % 256]
  {
    DivDiv(n, 0x100, 256);
    DivDiv(n, 0x1_0000, 256);
    DivDiv(n, 0x100_0000, 256);
    DivDiv(n, 0x1_0000_0000, 256);
    DivDiv(n, 0x100_0000_0000, 256);
    DivDiv(n, 0x1_0000_0000_0000, 256);
    ToBytesStep(n, 8);
    ToBytesStep(n / 0x100, 7);
    ToBytesStep(n / 0x1_0000, 6);
    ToBytesStep(n / 0x100_0000, 5);
    ToBytesStep(n / 0x1_0000_0000, 4);
    ToBytesStep(n / 0x100_0000_0000, 3);
    ToBytesStep(n / 0x1_0000_0000_0000, 2);
    ToBytesStep(n / 0x100_0000_0000_0000, 1);
  }

  lemma WireDigits8(little: bool, u: Uint64)
    ensures Wire(little, u, 8) ==
            if little then
              [u % 256, u / 0x100 % 256, u / 0x1_0000 % 256, u / 0x100_0000 % 256,
               u / 0x1_0000_0000 % 256, u / 0x100_0000_0000 % 256,
               u / 0x1_0000_0000_0000 % 256, u / 0x100_0000_0000_0000 % 256]
            else
              [u / 0x100_0000_0000_0000 % 256, u / 0x1_0000_0000_0000 % 256,
               u / 0x100_0000_0000 % 256, u / 0x1_0000_0000 % 256,
               u / 0x100_0000 % 256, u / 0x1_0000 % 256, u / 0x100 % 256, u % 256]
  {
    Pow256At8();
    WireOrder(little, u, 8);
    Bytes8(u);
  }

  lemma WireDigits(little: bool, u: Uint32)
    ensures Wire(little, u, 4) ==
            if little then [u % 256, u / 0x100 % 256, u / 0x1_0000 % 256, u / 0x100_0000 % 256]
            else [u / 0x100_0000 % 256, u / 0x1_0000 % 256, u / 0x100 % 256, u % 256]
  {
    Pow256At4();
    WireOrder(little, u, 4);
    Bytes4(u);
  }

  method Int32ToChar(little: bool, intnum: Uint32, charnum: array<Byte>, at: nat)
    requires at + 4 <= charnum.Length
    modifies charnum
    ensures charnum[..] == old(charnum[..at]) + Wire(little, intnum, 4) + old(charnum[at + 4..])
    ensures Wire(little, intnum, 4) ==
            if little then [intnum % 256, intnum / 0x100 % 256, intnum / 0x1_0000 % 256, intnum / 0x100_0000 % 256]
            else [intnum / 0x100_0000 % 256, intnum / 0x1_0000 % 256, intnum / 0x100 % 256, intnum % 256]
  {
    WireDigits(little, intnum);
    Pow256At4();
    HostToNetInverse(little, intnum, 4);
    var n := HostToNet(little, intnum, 4);
    Bytes4(n);
    charnum[at] := n / 0x100_0000 % 256;
    charnum[at + 1] := n / 0x1_0000 % 256;
    charnum[at + 2] := n / 0x100 % 256;
    charnum[at + 3] := n % 256;
  }

  method CharToInt32(little: bool, charnum: seq<Byte>) returns (intnum: Uint32)
    requires |charnum| >= 4
    ensures intnum == Unwire(little, charnum[..4])
    ensures var raw := (SignedChar(charnum[0]) * 0x100_0000 + SignedChar(charnum[1]) * 0x1_0000
                        + SignedChar(charnum[2]) * 0x100 + SignedChar(charnum[3])) % 0x1_0000_0000;
            intnum == if little then Swapped4(raw) else raw
  {
    Pow256At4();
    Signed4(charnum[..4]);
    var raw := (SignedChar(charnum[0]) * 0x100_0000 + SignedChar(charnum[1]) * 0x1_0000
                + SignedChar(charnum[2]) * 0x100 + SignedChar(charnum[3])) % 0x1_0000_0000;
    HostToNetInverse(little, raw, 4);
    SwapIsSwapped4(raw);
    intnum := HostToNet(little, raw, 4);
  }

  lemma {:induction false} SignedJoin(s: seq<Byte>, t: seq<Byte>)
    ensures SignedSum(s + t) == SignedSum(s) * Pow256(|t|) + SignedSum(t)
  {
    if t == [] {
      assert s + t == s;
    } else {
      var p, b := t[..|t| - 1], t[|t| - 1];
      SignedJoin(s, p);
      assert (s + t)[..|s + t| - 1] == s + p;
      assert 256 * (SignedSum(s) * Pow256(|p|)) == SignedSum(s) * (256 * Pow256(|p|));
    }
  }

  method Store4(charnum: array<Byte>, at: nat, c0: Byte, c1: Byte, c2: Byte, c3: Byte)
    requires at + 4 <= charnum.Length
    modifies charnum
    ensures charnum[..] == old(charnum[..at]) + [c0, c1, c2, c3] + old(charnum[at + 4..])
  {
    charnum[at], charnum[at + 1], charnum[at + 2], charnum[at + 3] := c0, c1, c2, c3;
  }

  lemma TwoStores(a: seq<Byte>, b: seq<Byte>, c: seq<Byte>, at: nat, x: seq<Byte>, y: seq<Byte>)
    requires |x| == |y| == 4 && at + 8 <= |a|
    requires b == a[..at] + x + a[at + 4..] && c == b[..at + 4] + y + b[at + 8..]
    ensures c == a[..at] + (x + y) + a[at + 8..]
  {}

  /** The eight stores. */
  method Store8(charnum: array<Byte>, at: nat, c0: Byte, c1: Byte, c2: Byte, c3: Byte, c4: Byte, c5: Byte, c6: Byte,
                c7: Byte)
    requires at + 8 <= charnum.Length
    modifies charnum
    ensures charnum[..] == old(charnum[..at]) + ([c0, c1, c2, c3] + [c4, c5, c6, c7]) + old(charnum[at + 8..])
  {
    ghost var a := charnum[..];
    Store4(charnum, at, c0, c1, c2, c3);
    ghost var b := charnum[..];
    Store4(charnum, at + 4, c4, c5, c6, c7);
    TwoStores(a, b, charnum[..], at, [c0, c1, c2, c3], [c4, c5, c6, c7]);
  }

  method WriteInt64(little: bool, intnum: Uint64, charnum: array<Byte>, at: nat)
    requires at + 8 <= charnum.Length
    modifies charnum
    ensures charnum[..] == old(charnum[..at]) + Wire(little, intnum, 8) + old(charnum[at + 8..])
  {
    Pow256At8();
    HostToNetInverse(little, intnum, 8);
    var n := HostToNet(little, intnum, 8);
    var c0, c1, c2, c3 := n / 0x100_0000_0000_0000 % 256, n / 0x1_0000_0000_0000 % 256,
                          n / 0x100_0000_0000 % 256, n / 0x1_0000_0000 % 256;
    var c4, c5, c6, c7 := n / 0x100_0000 % 256, n / 0x1_0000 % 256, n / 0x100 % 256, n % 256;
    assert ToBytes(n, 8) == [c0, c1, c2, c3] + [c4, c5, c6, c7] by {
      Bytes8(n);
    }
    Store8(charnum, at, c0, c1, c2, c3, c4, c5, c6, c7);
  }

  method Int64ToChar(little: bool, intnum: Uint64, charnum: array<Byte>, at: nat)
    requires at + 8 <= charnum.Length
    modifies charnum
    ensures charnum[..] == old(charnum[..at]) + Wire(little, intnum, 8) + old(charnum[at + 8..])
    ensures Wire(little, intnum, 8) ==
            if little then
              [intnum % 256, intnum / 0x100 % 256, intnum / 0x1_0000 % 256, intnum / 0x100_0000 % 256,
               intnum / 0x1_0000_0000 % 256, intnum / 0x100_0000_0000 % 256,
               intnum / 0x1_0000_0000_0000 % 256, intnum / 0x100_0000_0000_0000 % 256]
            else
              [intnum / 0x100_0000_0000_0000 % 256, intnum / 0x1_0000_0000_0000 % 256,
               intnum / 0x100_0000_0000 % 256, intnum / 0x1_0000_0000 % 256,
               intnum / 0x100_0000 % 256, intnum / 0x1_0000 % 256, intnum / 0x100 % 256, intnum % 256]
  {
    WriteInt64(little, intnum, charnum, at);
    WireDigits8(little, intnum);
  }

  lemma Signed8(s: seq<Byte>)
    requires |s| == 8
    ensures SignedSum(s) ==
            SignedChar(s[0]) * 0x100_0000_0000_0000 + SignedChar(s[1]) * 0x1_0000_0000_0000
            + SignedChar(s[2]) * 0x100_0000_0000 + SignedChar(s[3]) * 0x1_0000_0000
            + SignedChar(s[4]) * 0x100_0000 + SignedChar(s[5]) * 0x1_0000 + SignedChar(s[6]) * 0x100 + SignedChar(s[7])
  {
    Pow256At4();
    assert s == s[..4] + s[4..];
    SignedJoin(s[..4], s[4..]);
    Signed4(s[..4]);
    Signed4(s[4..]);
  }

  method CharToInt64(little: bool, charnum: seq<Byte>) returns (intnum: Uint64)
    requires |charnum| >= 8
    ensures intnum == Unwire(little, charnum[..8])
    ensures var raw := (SignedChar(charnum[0]) * 0x100_0000_0000_0000 + SignedChar(charnum[1]) * 0x1_0000_0000_0000
                        + SignedChar(charnum[2]) * 0x100_0000_0000 + SignedChar(charnum[3]) * 0x1_0000_0000
                        + SignedChar(charnum[4]) * 0x100_0000 + SignedChar(charnum[5]) * 0x1_0000
                        + SignedChar(charnum[6]) * 0x100 + SignedChar(charnum[7])) % 0x1_0000_0000_0000_0000;
            ToBytes(intnum, 8) == if little then Reverse(ToBytes(raw, 8)) else ToBytes(raw, 8)
  {
    Pow256At8();
    Signed8(charnum[..8]);
    var raw := (SignedChar(charnum[0]) * 0x100_0000_0000_0000 + SignedChar(charnum[1]) * 0x1_0000_0000_0000
                + SignedChar(charnum[2]) * 0x100_0000_0000 + SignedChar(charnum[3]) * 0x1_0000_0000
                + SignedChar(charnum[4]) * 0x100_0000 + SignedChar(charnum[5]) * 0x1_0000
                + SignedChar(charnum[6]) * 0x100 + SignedChar(charnum[7])) % 0x1_0000_0000_0000_0000;
    HostToNetInverse(little, raw, 8);
    WireOrder(little, raw, 8);
    intnum := HostToNet(little, raw, 8);
  }

  // ---- The header ----

  /** Two's complement. */
  function ToUint32(x: Int32): (u: Uint32)
    ensures u == x % 0x1_0000_0000
  {
    if x < 0 then x + 0x1_0000_0000 else x
  }

  function ToInt32(u: Uint32): (x: Int32)
    ensures x % 0x1_0000_0000 == u
  {
    if u < 0x8000_0000 then u else u - 0x1_0000_0000
  }

  lemma UnwireRange(little: bool, s: seq<Byte>)
    requires |s| == 4
    ensures Unwire(little, s) < 0x1_0000_0000
  {
    Pow256At4();
    HostToNetInverse(little, Reassembled(s), 4);
  }

  /** An int32 field as the other end reads it. */
  function Carried(little: bool, x: Int32): Int32 {
    UnwireRange(little, Wire(little, ToUint32(x), 4));
    ToInt32(Unwire(little, Wire(little, ToUint32(x), 4)))
  }

  /** The header fields that survive the trip, in terms of the value alone: bits 15, 23 and 31 clear on a
      little-endian host; bits 7, 15 and 23 clear on a big-endian one. */
  predicate Exact(little: bool, x: Int32) {
    var u := ToUint32(x);
    if little then u / 0x8000 % 2 == 0 && u / 0x80_0000 % 2 == 0 && u / 0x8000_0000 == 0
    else u / 0x80 % 2 == 0 && u / 0x8000 % 2 == 0 && u / 0x80_0000 % 2 == 0
  }

  lemma TopBit(v: nat)
    ensures v % 256 < 128 <==> v / 128 % 2 == 0
  {}

  lemma HighBit(u: nat, m: nat)
    requires m > 0
    ensures u / m % 256 < 128 <==> u / (m * 128) % 2 == 0
  {
    DivDiv(u, m, 128);
    TopBit(u / m);
  }

  lemma CarriedPlain(little: bool, x: Int32)
    ensures var s := Wire(little, ToUint32(x), 4);
            Carried(little, x) == x <==> s[1] < 128 && s[2] < 128 && s[3] < 128
  {
    var s := Wire(little, ToUint32(x), 4);
    Pow256At4();
    CodecExact(little, ToUint32(x), 4);
    UnwireRange(little, s);
    assert LowBytesPlain(s) <==> s[1] < 128 && s[2] < 128 && s[3] < 128;
  }

  lemma LittleDigits(u: Uint32)
    ensures u / 0x100 % 256 < 128 <==> u / 0x8000 % 2 == 0
    ensures u / 0x1_0000 % 256 < 128 <==> u / 0x80_0000 % 2 == 0
    ensures u / 0x100_0000 % 256 < 128 <==> u / 0x8000_0000 == 0
  {
    HighBit(u, 0x100);
    HighBit(u, 0x1_0000);
  }

  lemma BigDigits(u: Uint32)
    ensures u % 256 < 128 <==> u / 0x80 % 2 == 0
    ensures u / 0x100 % 256 < 128 <==> u / 0x8000 % 2 == 0
    ensures u / 0x1_0000 % 256 < 128 <==> u / 0x80_0000 % 2 == 0
  {
    TopBit(u);
    HighBit(u, 0x100);
    HighBit(u, 0x1_0000);
  }

  lemma PlainIsExact(little: bool, x: Int32)
    ensures var s := Wire(little, ToUint32(x), 4);
            Exact(little, x) <==> s[1] < 128 && s[2] < 128 && s[3] < 128
  {
    var u := ToUint32(x);
    WireDigits(little, u);
    if little {
      LittleDigits(u);
    } else {
      BigDigits(u);
    }
  }

  lemma CarriedExactly(little: bool, x: Int32)
    ensures Carried(little, x) == x <==> Exact(little, x)
  {
    CarriedPlain(little, x);
    PlainIsExact(little, x);
  }

  /** On a little-endian host every value below 32768 survives and no negative one does. */
  lemma LittleEndianRange(x: Int32)
    ensures 0 <= x < 32768 ==> Carried(true, x) == x
    ensures x < 0 ==> Carried(true, x) != x
  {
    CarriedExactly(true, x);
  }

  lemma Swap4(a: Byte, b: Byte, c: Byte, d: Byte)
    ensures HostToNet(true, FromBytes([a, b, c, d]), 4) == FromBytes([d, c, b, a])
  {
    ToFromBytes([a, b, c, d]);
    assert Reverse([a, b, c, d]) == [d, c, b, a];
  }

  /** The first value a little-endian host loses: 32768 is read back as 33023. */
  lemma FirstInexact()
    ensures Carried(true, 32768) == 33023
  {
    var s := Wire(true, 32768, 4);
    WireDigits(true, 32768);
    assert s == [0, 0x80, 0, 0];
    Signed4(s);
    Pow256At4();
    FromBytes4(0xFF, 0x80, 0, 0);
    assert Reassembled(s) == FromBytes([0xFF, 0x80, 0, 0]);
    Swap4(0xFF, 0x80, 0, 0);
    FromBytes4(0, 0, 0x80, 0xFF);
  }

  type HeaderBytes = s: seq<Byte> | |s| == HEADLEN witness seq(HEADLEN, _ => 0)

  function HeaderToBytes(little: bool, p: NetPacket): HeaderBytes {
    Wire(little, ToUint32(p.version), 4) + [p.header, p.tail] + p.check + Wire(little, ToUint32(p.kind), 4)
    + Wire(little, ToUint32(p.datalen), 4) + Wire(little, ToUint32(p.reserve), 4)
  }

  function Field(little: bool, s: seq<Byte>): Int32
    requires |s| == 4
  {
    UnwireRange(little, s);
    ToInt32(Unwire(little, s))
  }

  function BytesToHeader(little: bool, s: HeaderBytes): NetPacket {
    NetPacket(Field(little, s[..4]), s[4], s[5], s[6..22], Field(little, s[22..26]), Field(little, s[26..30]),
              Field(little, s[30..]))
  }

  /** The header decoder of a host. */
  function HeaderReader(little: bool): HeaderBytes -> NetPacket {
    (s: HeaderBytes) => BytesToHeader(little, s)
  }

  /** Byte fields and the check survive; each int32 field arrives as Carried says. */
  lemma HeaderCarried(little: bool, p: NetPacket)
    ensures BytesToHeader(little, HeaderToBytes(little, p)) ==
            p.(version := Carried(little, p.version), kind := Carried(little, p.kind),
               datalen := Carried(little, p.datalen), reserve := Carried(little, p.reserve))
  {
    var s := HeaderToBytes(little, p);
    assert s[..4] == Wire(little, ToUint32(p.version), 4);
    assert s[6..22] == p.check;
    assert s[22..26] == Wire(little, ToUint32(p.kind), 4);
    assert s[26..30] == Wire(little, ToUint32(p.datalen), 4);
    assert s[30..] == Wire(little, ToUint32(p.reserve), 4);
  }

  /** The header round trip is exact precisely on the exact values of its four int32 fields. */
  lemma HeaderExact(little: bool, p: NetPacket)
    ensures BytesToHeader(little, HeaderToBytes(little, p)) == p
       <==> Exact(little, p.version) && Exact(little, p.kind) && Exact(little, p.datalen) && Exact(little, p.reserve)
  {
    HeaderCarried(little, p);
    CarriedExactly(little, p.version);
    CarriedExactly(little, p.kind);
    CarriedExactly(little, p.datalen);
    CarriedExactly(little, p.reserve);
  }

  /** Int32ToChar after `front` is in place. */
  method PutField(little: bool, x: Int32, chardata: array<Byte>, at: nat, ghost front: seq<Byte>)
      returns (ghost front': seq<Byte>)
    requires 22 <= at <= 30 && chardata.Length >= HEADLEN
    requires chardata[..at] == front
    modifies chardata
    ensures front' == front + Wire(little, ToUint32(x), 4)
    ensures chardata[..at + 4] == front'
    ensures chardata[34..] == old(chardata[34..])
  {
    Int32ToChar(little, ToUint32(x), chardata, at);
    front' := front + Wire(little, ToUint32(x), 4);
    assert old(chardata[at + 4..])[34 - at - 4..] == old(chardata[34..]);
  }

  /** The memcpy of the check. */
  method PutCheck(check: Digest, chardata: array<Byte>)
    requires chardata.Length >= HEADLEN
    modifies chardata
    ensures chardata[..6] == old(chardata[..6]) && chardata[6..22] == check && chardata[34..] == old(chardata[34..])
  {
    forall k | 0 <= k < 16 {
      chardata[6 + k] := check[k];
    }
  }

  /** Where each field lies in a header. */
  lemma HeaderLayout(little: bool, p: NetPacket)
    ensures var s := HeaderToBytes(little, p);
            && s[..4] == Wire(little, ToUint32(p.version), 4) && s[4] == p.header && s[5] == p.tail
            && s[6..22] == p.check && s[22..26] == Wire(little, ToUint32(p.kind), 4)
            && s[26..30] == Wire(little, ToUint32(p.datalen), 4) && s[30..34] == Wire(little, ToUint32(p.reserve), 4)
  {}

  lemma Inside(s: seq<Byte>, t: seq<Byte>, a: nat, b: nat)
    requires a <= b <= |s|
    ensures (s + t)[a..b] == s[a..b]
  {}

  /** ... and the last three. */
  method PutFields(little: bool, package: NetPacket, chardata: array<Byte>, ghost front: seq<Byte>)
    requires chardata.Length >= HEADLEN && chardata[..22] == front
    modifies chardata
    ensures chardata[..34] == front + Wire(little, ToUint32(package.kind), 4)
                              + Wire(little, ToUint32(package.datalen), 4) + Wire(little, ToUint32(package.reserve), 4)
    ensures chardata[34..] == old(chardata[34..])
  {
    ghost var w := front;
    w := PutField(little, package.kind, chardata, 22, w);
    w := PutField(little, package.datalen, chardata, 26, w);
    w := PutField(little, package.reserve, chardata, 30, w);
  }

  /** The stores, one field after the other. */
  method PutHeader(little: bool, package: NetPacket, chardata: array<Byte>)
    requires chardata.Length >= HEADLEN
    modifies chardata
    ensures chardata[..] == HeaderToBytes(little, package) + chardata[34..] && chardata[34..] == old(chardata[34..])
  {
    Int32ToChar(little, ToUint32(package.version), chardata, 0);
    ghost var w := Wire(little, ToUint32(package.version), 4);
    assert chardata[..4] == w && chardata[34..] == old(chardata[34..]);
    chardata[4] := package.header;
    chardata[5] := package.tail;
    w := w + [package.header, package.tail];
    assert chardata[..6] == w;
    PutCheck(package.check, chardata);
    w := w + package.check;
    assert chardata[..22] == chardata[..6] + chardata[6..22];
    PutFields(little, package, chardata, w);
    assert chardata[..] == chardata[..34] + chardata[34..];
  }

  method NetPacketToChar(little: bool, package: NetPacket, chardata: array<Byte>)
    requires chardata.Length >= HEADLEN
    modifies chardata
    ensures chardata[..] == HeaderToBytes(little, package) + old(chardata[HEADLEN..])
    ensures chardata[..4] == Wire(little, ToUint32(package.version), 4)
    ensures chardata[4] == package.header && chardata[5] == package.tail && chardata[6..22] == package.check
    ensures chardata[22..26] == Wire(little, ToUint32(package.kind), 4)
    ensures chardata[26..30] == Wire(little, ToUint32(package.datalen), 4)
    ensures chardata[30..34] == Wire(little, ToUint32(package.reserve), 4)
    ensures chardata[34..] == old(chardata[34..])
  {
    PutHeader(little, package, chardata);
    ghost var s: seq<Byte>, t := HeaderToBytes(little, package), chardata[34..];
    HeaderLayout(little, package);
    Inside(s, t, 0, 4);
    Inside(s, t, 6, 22);
    Inside(s, t, 22, 26);
    Inside(s, t, 26, 30);
    Inside(s, t, 30, 34);
    assert (s + t)[4] == s[4] && (s + t)[5] == s[5];
  }

  method CharToNetPacket(little: bool, chardata: seq<Byte>) returns (package: NetPacket)
    requires |chardata| >= HEADLEN
    ensures package == BytesToHeader(little, chardata[..HEADLEN]) == HeaderReader(little)(chardata[..HEADLEN])
    ensures package.header == chardata[4] && package.tail == chardata[5] && package.check == chardata[6..22]
    ensures ToUint32(package.version) == Unwire(little, chardata[..4])
    ensures ToUint32(package.kind) == Unwire(little, chardata[22..26])
    ensures ToUint32(package.datalen) == Unwire(little, chardata[26..30])
    ensures ToUint32(package.reserve) == Unwire(little, chardata[30..34])
  {
    var s := chardata[..HEADLEN];
    assert s[..4] == chardata[..4] && s[6..22] == chardata[6..22] && s[22..26] == chardata[22..26];
    assert s[26..30] == chardata[26..30] && s[30..] == chardata[30..34];
    assert chardata[22..][..4] == chardata[22..26] && chardata[26..][..4] == chardata[26..30];
    assert chardata[30..][..4] == chardata[30..34];
    var tmp32 := CharToInt32(little, chardata);
    var version, header, tail, check := ToInt32(tmp32), chardata[4], chardata[5], chardata[6..22];
    tmp32 := CharToInt32(little, chardata[22..]);
    var kind := ToInt32(tmp32);
    tmp32 := CharToInt32(little, chardata[26..]);
    var datalen := ToInt32(tmp32);
    tmp32 := CharToInt32(little, chardata[30..]);
    package := NetPacket(version, header, tail, check, kind, datalen, ToInt32(tmp32));
  }
}
