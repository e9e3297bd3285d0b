/** The free lists behind _fetch_one_* and _recycle_one_*: client write params, server write params, session
    contexts. */
module ParamPool {
  const MAXLISTSIZE := 20

  /** What a fetch hands out, and the list it leaves; `spare` is what malloc would return. */
  function Fetched<P>(avail: seq<P>, spare: P): P {
    if avail == [] then spare else avail[0]
  }

  function AfterFetch<P>(avail: seq<P>): seq<P> {
    if avail == [] then [] else avail[1..]
  }

  /** A recycled entry is released instead once the list is over its limit. */
  function AfterRecycle<P>(avail: seq<P>, p: P): seq<P> {
    if |avail| > MAXLISTSIZE then avail else avail + [p]
  }

  ghost predicate Distinct<P>(s: seq<P>) {
    forall i, j :: 0 <= i < j < |s| ==> s[i] != s[j]
  }

  /** A list that fetching and recycling can have made. */
  ghost predicate IsPool<P>(avail: seq<P>) {
    Distinct(avail) && |avail| <= MAXLISTSIZE + 1
  }

  lemma FetchKeeps<P>(avail: seq<P>, spare: P)
    requires IsPool(avail)
    ensures IsPool(AfterFetch(avail))
    ensures forall p :: p in AfterFetch(avail) ==> p in avail
    ensures avail != [] ==> Fetched(avail, spare) in avail && Fetched(avail, spare) !in AfterFetch(avail)
  {
    if avail != [] {
      assert forall i :: 0 <= i < |avail[1..]| ==> avail[1..][i] == avail[i + 1];
    }
  }

  lemma RecycleKeeps<P>(avail: seq<P>, p: P)
    requires IsPool(avail) && p !in avail
    ensures IsPool(AfterRecycle(avail, p))
    ensures forall q :: q in AfterRecycle(avail, p) ==> q in avail || q == p
  {}
}
