/** The ring of pod_circularbuffer.h: one array, two positions, two flags. */
module PodCircularBuffer {
  import opened Bytes

  /** The bounded FIFO the ring stands for: what a write keeps and what a read takes. */
  function Accepted<T>(capacity: nat, contents: seq<T>, items: seq<T>): (r: seq<T>)
    requires |contents| <= capacity
    ensures r <= items && |contents + r| <= capacity
  {
    items[..Min(|items|, capacity - |contents|)]
  }

  /** The items between two positions, around the end of the array if need be. */
  function Stored<T>(b: seq<T>, r: int, w: int): seq<T>
    requires 0 <= r <= |b| && 0 <= w <= |b|
  {
    if r < w then b[r..w] else b[r..] + b[..w]
  }

  /** b with `items` copied to position `at`. */
  function Blit<T>(b: seq<T>, at: nat, items: seq<T>): (r: seq<T>)
    requires at + |items| <= |b|
    ensures |r| == |b|
  {
    b[..at] + items + b[at + |items|..]
  }

  // ---- Every branch of write and read, on the array's contents ----

  lemma AppendOnePiece<T>(b: seq<T>, r: nat, w: nat, x: seq<T>)
    requires r <= w && w + |x| <= |b|
    ensures Blit(b, w, x)[r..w + |x|] == b[r..w] + x
  {}

  lemma AppendToEnd<T>(b: seq<T>, r: nat, w: nat, x: seq<T>)
    requires r <= w && w + |x| == |b|
    ensures Blit(b, w, x)[r..] == b[r..w] + x
  {}

  lemma BlitKeeps<T>(b: seq<T>, y: seq<T>, r: nat)
    requires |y| <= r <= |b|
    ensures Blit(b, 0, y)[r..] == b[r..]
    ensures Blit(b, 0, y)[..|y|] == y
  {}

  /** The two copies of a write around the end: b0 becomes b1, then b2. */
  lemma FilledAround<T>(b0: seq<T>, b1: seq<T>, b2: seq<T>, r: nat, w: nat, x: seq<T>, y: seq<T>)
    requires r <= w && w + |x| == |b0| && |y| <= r
    requires b1 == Blit(b0, w, x) && b2 == Blit(b1, 0, y)
    ensures b2[r..] + b2[..|y|] == b0[r..w] + (x + y)
  {
    AppendToEnd(b0, r, w, x);
    BlitKeeps(b1, y, r);
  }

  lemma AppendBetween<T>(b: seq<T>, r: nat, w: nat, x: seq<T>)
    requires w + |x| <= r <= |b|
    ensures Blit(b, w, x)[r..] == b[r..]
    ensures Blit(b, w, x)[..w + |x|] == b[..w] + x
  {}

  lemma TakeOnePiece<T>(b: seq<T>, r: nat, w: nat, n: nat)
    requires r + n <= w <= |b|
    ensures b[r..w] == b[r..r + n] + b[r + n..w]
  {}

  lemma CutOnePiece<T>(b: seq<T>, r: nat, w: nat, n: nat)
    requires r + n <= w <= |b|
    ensures b[r..w][..n] == b[r..r + n] && b[r..w][n..] == b[r + n..w]
  {}

  lemma CutBeforeEnd<T>(b: seq<T>, r: nat, w: nat, n: nat)
    requires r + n <= |b| && w <= |b|
    ensures (b[r..] + b[..w])[..n] == b[r..r + n] && (b[r..] + b[..w])[n..] == b[r + n..] + b[..w]
  {}

  lemma CutAfterEnd<T>(b: seq<T>, r: nat, w: nat, k: nat)
    requires k <= w <= |b| && r <= |b|
    ensures var n := |b| - r + k;
            (b[r..] + b[..w])[..n] == b[r..] + b[..k] && (b[r..] + b[..w])[n..] == b[k..w]
  {}

  /** A read of n of the items c that makes d2 of the destination d1 and leaves `rest`. */
  predicate Took<T(==)>(c: seq<T>, n: int, d1: seq<T>, d2: seq<T>, rest: seq<T>) {
    && 0 <= n <= |c| && n <= |d1| == |d2|
    && d2[..n] == c[..n] && d2[n..] == d1[n..] && rest == c[n..]
  }

  lemma TookPiece<T>(b: seq<T>, r: nat, w: nat, n: nat, d1: seq<T>, d2: seq<T>)
    requires r < w && r + n <= w <= |b| && n <= |d1| == |d2|
    requires d2[..n] == b[r..r + n] && d2[n..] == d1[n..]
    ensures Took(Stored(b, r, w), n, d1, d2, if r + n == w then [] else Stored(b, r + n, w))
  {
    CutOnePiece(b, r, w, n);
  }

  lemma TookBeforeEnd<T>(b: seq<T>, r: nat, w: nat, n: nat, d1: seq<T>, d2: seq<T>)
    requires w <= r && r + n <= |b| && n <= |d1| == |d2|
    requires d2[..n] == b[r..r + n] && d2[n..] == d1[n..]
    ensures Took(Stored(b, r, w), n, d1, d2, Stored(b, r + n, w))
  {
    CutBeforeEnd(b, r, w, n);
  }

  lemma TookAround<T>(b: seq<T>, r: nat, w: nat, leftCount: nat, k: nat, d1: seq<T>, d2: seq<T>)
    requires k <= w <= r && r + leftCount == |b| && leftCount + k <= |d1| == |d2|
    requires d2[..leftCount + k] == b[r..] + b[..k] && d2[leftCount + k..] == d1[leftCount + k..]
    ensures Took(Stored(b, r, w), leftCount + k, d1, d2, if k == w then [] else Stored(b, k, w))
  {
    CutAfterEnd(b, r, w, k);
    assert |b| - r + k == leftCount + k;
  }

  /** The two copies of a read around the end: d0 becomes d1, then d2. */
  lemma DrainedAround<T>(d0: seq<T>, d1: seq<T>, d2: seq<T>, x: seq<T>, y: seq<T>)
    requires |x| + |y| <= |d0|
    requires d1 == Blit(d0, 0, x) && d2 == Blit(d1, |x|, y)
    ensures d2[..|x| + |y|] == x + y && d2[|x| + |y|..] == d0[|x| + |y|..]
  {
    assert d2 == x + y + d0[|x| + |y|..];
  }

  lemma BlitFront<T>(d: seq<T>, x: seq<T>)
    requires |x| <= |d|
    ensures Blit(d, 0, x)[..|x|] == x && Blit(d, 0, x)[|x|..] == d[|x|..]
  {}

  class PodCircularBuffer<T(0)> {
    var buf: array<T>
    var readPos: int
    var writePos: int
    var isEmpty: bool
    var isFull: bool

    /** The position pair is ambiguous when both are equal, and then exactly one flag tells. */
    ghost predicate Valid()
      reads this
    {
      && (if buf.Length == 0 then readPos == writePos == 0 else 0 <= readPos < buf.Length && 0 <= writePos < buf.Length)
      && (readPos == writePos <==> isEmpty || isFull)
      && !(isEmpty && isFull)
    }

    ghost function Contents(): (s: seq<T>)
      requires Valid()
      reads this, buf
      ensures |s| <= buf.Length
    {
      if isEmpty then [] else Stored(buf[..], readPos, writePos)
    }

    constructor (capacity: nat)
      ensures Valid() && Contents() == [] && isEmpty
      ensures buf.Length == capacity && fresh(buf)
    {
      buf := new T[capacity];
      readPos, writePos := 0, 0;
      isEmpty, isFull := true, false;
    }

    method Clear()
      modifies `readPos, `writePos, `isEmpty, `isFull
      ensures Valid() && Contents() == []
    {
      readPos, writePos := 0, 0;
      isEmpty, isFull := true, false;
    }

    function Size(): (n: int)
      requires Valid()
      reads this, buf
      ensures n == |Contents()|
    {
      if isEmpty then 0
      else if isFull then buf.Length
      else if readPos < writePos then writePos - readPos
      else buf.Length - readPos + writePos
    }

    /** The flags agree with the contents, whatever branches have set them; only with no capacity at all does `isFull`
        merely record whether something was offered since the last read that asked for something. */
    function Full(): (b: bool)
      requires Valid()
      reads this, buf
      ensures b ==> |Contents()| == buf.Length
      ensures buf.Length > 0 ==> (b <==> |Contents()| == buf.Length)
    {
      isFull
    }

    function Empty(): (b: bool)
      requires Valid()
      reads this, buf
      ensures b ==> Contents() == []
      ensures buf.Length > 0 ==> (b <==> Contents() == [])
      ensures buf.Length == 0 ==> (b <==> !Full())
    {
      isEmpty
    }

    /** Both flags say what they are named for exactly when the ring has a capacity; without one it is empty and full at
        once, and only one flag can say so. */
    lemma FlagsExact()
      requires Valid()
      ensures (Empty() <==> Contents() == []) && (Full() <==> |Contents()| == buf.Length) <==> buf.Length > 0
    {}

    method CopyIn(at: nat, items: seq<T>)
      requires at + |items| <= buf.Length
      modifies buf
      ensures buf[..] == Blit(old(buf[..]), at, items)
    {
      forall k | 0 <= k < |items| {
        buf[at + k] := items[k];
      }
    }

    /** The two copies of a write that goes round the end of the array. */
    method FillAround(items: seq<T>, leftCount: nat, k: nat)
      requires 0 <= readPos <= writePos && writePos + leftCount == buf.Length
      requires k <= readPos && leftCount + k <= |items|
      modifies buf
      ensures buf[readPos..] + buf[..k] == old(buf[readPos..writePos]) + items[..leftCount + k]
    {
      ghost var b0 := buf[..];
      CopyIn(writePos, items[..leftCount]);
      ghost var b1 := buf[..];
      CopyIn(0, items[leftCount..leftCount + k]);
      FilledAround(b0, b1, buf[..], readPos, writePos, items[..leftCount], items[leftCount..leftCount + k]);
      TakeOnePiece(items, 0, leftCount + k, leftCount);
    }

    /** The memcpy out of the ring. */
    method CopyOut(dst: array<T>, at: nat, src: nat, n: nat)
      requires at + n <= dst.Length && src + n <= buf.Length && dst != buf
      modifies dst
      ensures dst[..] == Blit(old(dst[..]), at, buf[src..src + n])
    {
      forall k | 0 <= k < n {
        dst[at + k] := buf[src + k];
      }
    }

    /** The two copies of a read that goes round the end of the array. */
    method DrainAround(dst: array<T>, leftCount: nat, k: nat)
      requires 0 <= readPos && readPos + leftCount == buf.Length && k <= buf.Length
      requires leftCount + k <= dst.Length && dst != buf
      modifies dst
      ensures dst[..leftCount + k] == buf[readPos..] + buf[..k]
      ensures dst[leftCount + k..] == old(dst[leftCount + k..])
    {
      ghost var d0 := dst[..];
      CopyOut(dst, 0, readPos, leftCount);
      ghost var d1 := dst[..];
      CopyOut(dst, leftCount, 0, k);
      DrainedAround(d0, d1, dst[..], buf[readPos..], buf[..k]);
    }

    /** The ring is empty. */
    method WriteEmpty(items: seq<T>, count: int) returns (n: int)
      requires Valid() && isEmpty && 0 < count <= |items|
      modifies this, buf
      ensures Valid() && buf == old(buf)
      ensures n == Min(count, buf.Length) && Contents() == items[..n] && !isEmpty
    {
      ghost var b, w := buf[..], writePos;
      isEmpty := false;
      var leftCount := buf.Length - writePos;
      if leftCount > count {
        CopyIn(writePos, items[..count]);
        AppendOnePiece(b, w, w, items[..count]);
        writePos := writePos + count;
        n := count;
      } else {
        var k := if readPos > count - leftCount then count - leftCount else writePos;
        FillAround(items, leftCount, k);
        writePos := k;
        isFull := writePos == readPos;
        n := leftCount + writePos;
      }
    }

    /** The data is in one piece, with room behind it and perhaps before it. */
    method WriteBehind(items: seq<T>, count: int) returns (n: int)
      requires Valid() && readPos < writePos && 0 < count <= |items|
      modifies this, buf
      ensures Valid() && buf == old(buf)
      ensures n == Min(count, buf.Length - old(|Contents()|)) && Contents() == old(Contents()) + items[..n] && !isEmpty
    {
      ghost var b, r, w := buf[..], readPos, writePos;
      var leftCount := buf.Length - writePos;
      if leftCount > count {
        CopyIn(writePos, items[..count]);
        AppendOnePiece(b, r, w, items[..count]);
        writePos := writePos + count;
        isFull := readPos == writePos;
        n := count;
      } else {
        var k := if readPos >= count - leftCount then count - leftCount else readPos;
        FillAround(items, leftCount, k);
        writePos := k;
        isFull := readPos == writePos;
        n := leftCount + writePos;
      }
    }

    /** The data wraps around, the room is between its two pieces. */
    method WriteBetween(items: seq<T>, count: int) returns (n: int)
      requires Valid() && readPos > writePos && 0 < count <= |items|
      modifies this, buf
      ensures Valid() && buf == old(buf)
      ensures n == Min(count, buf.Length - old(|Contents()|)) && Contents() == old(Contents()) + items[..n] && !isEmpty
    {
      ghost var b, r, w := buf[..], readPos, writePos;
      var leftCount := readPos - writePos;
      if leftCount > count {
        CopyIn(writePos, items[..count]);
        writePos := writePos + count;
        isFull := readPos == writePos;
        n := count;
      } else {
        CopyIn(writePos, items[..leftCount]);
        writePos := writePos + leftCount;
        isFull := readPos == writePos;
        n := leftCount;
      }
      AppendBetween(b, r, w, items[..n]);
      assert b[r..] + (b[..w] + items[..n]) == b[r..] + b[..w] + items[..n];
    }

    method Write(items: seq<T>, count: int) returns (n: int)
      requires Valid() && count <= |items|
      modifies this, buf
      ensures Valid() && buf == old(buf)
      ensures n == if count <= 0 then 0 else |Accepted(buf.Length, old(Contents()), items[..count])|
      ensures n == if count <= 0 then 0 else Min(count, buf.Length - |old(Contents())|)
      ensures Contents() == old(Contents()) + items[..n]
      ensures if count > 0 then !Empty() else Empty() == old(Empty())
    {
      if count <= 0 {
        return 0;
      }
      if isFull {
        return 0;
      }
      if readPos == writePos {
        n := WriteEmpty(items, count);
      } else if readPos < writePos {
        n := WriteBehind(items, count);
      } else {
        n := WriteBetween(items, count);
      }
    }

    /** The single copy of a read that does not go round the end of the array. */
    method DrainPiece(dst: array<T>, n: nat)
      requires 0 <= readPos && readPos + n <= buf.Length && n <= dst.Length && dst != buf
      modifies dst
      ensures dst[..n] == buf[readPos..readPos + n]
      ensures dst[n..] == old(dst[n..])
    {
      BlitFront(dst[..], buf[readPos..readPos + n]);
      CopyOut(dst, 0, readPos, n);
    }

    /** A read that ends before the end of the array, when the items go round it. */
    method TakeBeforeEnd(dst: array<T>, n: nat)
      requires 0 <= writePos <= readPos && readPos + n < buf.Length && n <= dst.Length && dst != buf
      requires !isEmpty && !isFull && n > 0
      modifies `readPos, `isEmpty, dst
      ensures Valid() && Took(old(Stored(buf[..], readPos, writePos)), n, old(dst[..]), dst[..], Contents())
    {
      ghost var b, r, w, d := buf[..], readPos, writePos, dst[..];
      DrainPiece(dst, n);
      TookBeforeEnd(b, r, w, n, d, dst[..]);
      readPos := readPos + n;
      isEmpty := readPos == writePos;
    }

    /** A read that goes round the end. */
    method TakeAround(dst: array<T>, leftCount: nat, k: nat)
      requires 0 <= writePos <= readPos && readPos + leftCount == buf.Length && k <= writePos
      requires leftCount + k <= dst.Length && dst != buf
      requires if buf.Length == 0 then readPos == 0 else readPos < buf.Length
      requires !isEmpty && !isFull
      modifies `readPos, `isEmpty, dst
      ensures Valid() && isEmpty == (k == writePos)
      ensures Took(old(Stored(buf[..], readPos, writePos)), leftCount + k, old(dst[..]), dst[..], Contents())
    {
      ghost var b, r, w, d := buf[..], readPos, writePos, dst[..];
      DrainAround(dst, leftCount, k);
      TookAround(b, r, w, leftCount, k, d, dst[..]);
      readPos := k;
      isEmpty := readPos == writePos;
    }

    /** The ring was full; its flag is already down. */
    method ReadFull(dst: array<T>, count: int) returns (n: int)
      requires readPos == writePos && !isEmpty && !isFull && 0 < count <= dst.Length && dst != buf
      requires if buf.Length == 0 then readPos == 0 else 0 <= readPos < buf.Length
      modifies this, dst
      ensures buf == old(buf) && n == Min(count, buf.Length)
      ensures buf.Length == 0 ==> isEmpty
      ensures Valid() && Took(old(Stored(buf[..], readPos, writePos)), n, old(dst[..]), dst[..], Contents())
    {
      var leftCount := buf.Length - readPos;
      if leftCount > count {
        TakeBeforeEnd(dst, count);
        n := count;
      } else {
        var k := if writePos > count - leftCount then count - leftCount else writePos;
        TakeAround(dst, leftCount, k);
        n := leftCount + k;
      }
    }

    /** The data is in one piece. */
    method ReadPiece(dst: array<T>, count: int) returns (n: int)
      requires Valid() && readPos < writePos && 0 < count <= dst.Length && dst != buf
      modifies this, dst
      ensures buf == old(buf) && n == Min(count, old(|Contents()|))
      ensures Valid() && Took(old(Contents()), n, old(dst[..]), dst[..], Contents())
    {
      ghost var b, r, w, d := buf[..], readPos, writePos, dst[..];
      var leftCount := writePos - readPos;
      var c := if leftCount > count then count else leftCount;
      DrainPiece(dst, c);
      readPos := readPos + c;
      isEmpty := readPos == writePos;
      n := c;
      TookPiece(b, r, w, n, d, dst[..]);
    }

    /** The data wraps around. */
    method ReadWrapped(dst: array<T>, count: int) returns (n: int)
      requires Valid() && readPos > writePos && 0 < count <= dst.Length && dst != buf
      modifies this, dst
      ensures buf == old(buf) && n == Min(count, old(|Contents()|))
      ensures Valid() && Took(old(Contents()), n, old(dst[..]), dst[..], Contents())
    {
      var leftCount := buf.Length - readPos;
      if leftCount > count {
        TakeBeforeEnd(dst, count);
        n := count;
      } else {
        var k := if writePos >= count - leftCount then count - leftCount else writePos;
        TakeAround(dst, leftCount, k);
        n := leftCount + k;
      }
    }

    method Read(dst: array<T>, count: int) returns (n: int)
      requires Valid() && count <= dst.Length && dst != buf
      modifies this, dst
      ensures Valid() && buf == old(buf)
      ensures n == if count <= 0 then 0 else Min(count, old(|Contents()|))
      ensures dst[..n] == old(Contents())[..n] && dst[n..] == old(dst[n..])
      ensures Contents() == old(Contents())[n..]
      ensures buf.Length == 0 ==> Empty() == (count > 0 || old(Empty()))
    {
      if count <= 0 {
        return 0;
      }
      if isEmpty {
        return 0;
      }
      isFull := false;
      if readPos == writePos {
        n := ReadFull(dst, count);
      } else if readPos < writePos {
        n := ReadPiece(dst, count);
      } else {
        n := ReadWrapped(dst, count);
      }
    }
  }

  /** A ring without capacity that is offered an item takes nothing, holds nothing, and claims not to be empty. */
  method NoCapacity<T(0)>(x: T) returns (ring: PodCircularBuffer<T>, n: int)
    ensures ring.Valid() && ring.buf.Length == 0
    ensures n == 0 && ring.Contents() == [] && !ring.Empty()
  {
    ring := new PodCircularBuffer<T>(0);
    n := ring.Write([x], 1);
  }
}
