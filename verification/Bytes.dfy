/** Bytes, digests and the few facts about byte sequences that every other module uses. */
module Bytes {
  type Byte = b: int | 0 <= b < 256

  /** The 16 bytes of an MD5 digest (RFC 1321, section 3). */
  type Digest = d: seq<Byte> | |d| == 16 witness seq(16, _ => 0)

  datatype Option<+T> = None | Some(value: T)

  /** Size of every buffer the program allocates up front. */
  const BUFFER_SIZE := 10240

  function Min(a: int, b: int): (m: int)
    ensures m <= a && m <= b && (m == a || m == b)
  {
    if a <= b then a else b
  }

  /** How the n-th of a row of calls ends; success beyond the end of the list. */
  predicate Succeeds(oks: seq<bool>, n: nat) {
    n < |oks| ==> oks[n]
  }

  function Flatten(chunks: seq<seq<Byte>>): seq<Byte> {
    if chunks == [] then [] else chunks[0] + Flatten(chunks[1..])
  }

  lemma {:induction false} FlattenAppend(a: seq<seq<Byte>>, b: seq<seq<Byte>>)
    ensures Flatten(a + b) == Flatten(a) + Flatten(b)
  {
    if a == [] {
      assert a + b == b;
    } else {
      assert (a + b)[1..] == a[1..] + b;
      FlattenAppend(a[1..], b);
    }
  }

  lemma FlattenSnoc(a: seq<seq<Byte>>, c: seq<Byte>)
    ensures Flatten(a + [c]) == Flatten(a) + c
  {
    FlattenAppend(a, [c]);
    assert Flatten([c]) == c + Flatten([]);
  }
}
