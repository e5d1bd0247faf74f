/** The bucket locks of a key-changing update: the specification. */
module LockSet {
  import opened Keys
  import opened LockOrder

  /** The changed keys below n, ascending. */
  function ChangedBelow(cfg: Config, n: nat, was: Bytes, now: Bytes): (ks: seq<nat>)
    requires n <= |cfg.keys|
    ensures forall j :: 0 <= j < |ks| ==> ks[j] < n && !cfg.Same(ks[j], was, now)
    ensures forall i, j :: 0 <= i < j < |ks| ==> ks[i] < ks[j]
    ensures forall k :: 0 <= k < n && !cfg.Same(k, was, now) ==> k in ks
    ensures |ks| <= n
  {
    if n == 0 then []
    else ChangedBelow(cfg, n - 1, was, now) + (if cfg.Same(n - 1, was, now) then [] else [n - 1])
  }

  function Changed(cfg: Config, was: Bytes, now: Bytes): (ks: seq<nat>) {
    ChangedBelow(cfg, |cfg.keys|, was, now)
  }

  /** The one or two buckets of key k, in ascending order. */
  function Pair(cfg: Config, k: nat, was: Bytes, now: Bytes): (ls: seq<Lock>)
    requires cfg.nbuckets > 0 && k < |cfg.keys|
  {
    var a, b := cfg.Home(k, was), cfg.Home(k, now);
    if a == b then [Bucket(k, a)]
    else if a < b then [Bucket(k, a), Bucket(k, b)]
    else [Bucket(k, b), Bucket(k, a)]
  }

  function PairsOf(cfg: Config, ks: seq<nat>, was: Bytes, now: Bytes): (ls: seq<Lock>)
    requires cfg.nbuckets > 0 && forall j :: 0 <= j < |ks| ==> ks[j] < |cfg.keys|
  {
    if ks == [] then []
    else PairsOf(cfg, ks[..|ks| - 1], was, now) + Pair(cfg, ks[|ks| - 1], was, now)
  }

  /** The locks a key-changing update takes, in the order it takes them. */
  function Locks(cfg: Config, was: Bytes, now: Bytes): (ls: seq<Lock>)
    requires cfg.nbuckets > 0
  {
    PairsOf(cfg, Changed(cfg, was, now), was, now)
  }

  ghost predicate Ascending(ls: seq<Lock>) {
    forall i, j :: 0 <= i < j < |ls| ==> HandlerRank(ls[i]) < HandlerRank(ls[j])
  }

  /** l is the old or the new bucket of one of the keys ks. */
  predicate Involved(cfg: Config, ks: seq<nat>, was: Bytes, now: Bytes, l: Lock)
    requires cfg.nbuckets > 0 && forall j :: 0 <= j < |ks| ==> ks[j] < |cfg.keys|
  {
    l.Bucket? && l.k in ks && (l.b == cfg.Home(l.k, was) || l.b == cfg.Home(l.k, now))
  }

  lemma {:induction false} PairsOfContent(cfg: Config, ks: seq<nat>, was: Bytes, now: Bytes)
    requires cfg.Valid() && forall j :: 0 <= j < |ks| ==> ks[j] < |cfg.keys|
    ensures |PairsOf(cfg, ks, was, now)| <= 2 * |ks|
    ensures forall l :: l in PairsOf(cfg, ks, was, now) <==> Involved(cfg, ks, was, now, l)
  {
    if ks != [] {
      var n := |ks| - 1;
      PairsOfContent(cfg, ks[..n], was, now);
      assert forall k :: k in ks <==> k in ks[..n] || k == ks[n];
    }
  }

  lemma RankByKey(x: Lock, y: Lock)
    requires x.Bucket? && y.Bucket? && x.k < y.k && x.b < U32
    ensures HandlerRank(x) < HandlerRank(y)
  {
  }

  lemma PairAscends(cfg: Config, k: nat, was: Bytes, now: Bytes)
    requires cfg.nbuckets > 0 && k < |cfg.keys|
    ensures Ascending(Pair(cfg, k, was, now))
  {
  }

  lemma {:induction false} PairsOfAscend(cfg: Config, ks: seq<nat>, was: Bytes, now: Bytes)
    requires cfg.Valid() && forall j :: 0 <= j < |ks| ==> ks[j] < |cfg.keys|
    requires forall i, j :: 0 <= i < j < |ks| ==> ks[i] < ks[j]
    ensures Ascending(PairsOf(cfg, ks, was, now))
  {
    hide HandlerRank, KeyOps.Contract;
    if ks != [] {
      var n := |ks| - 1;
      var init, last := PairsOf(cfg, ks[..n], was, now), Pair(cfg, ks[n], was, now);
      PairsOfAscend(cfg, ks[..n], was, now);
      PairsOfContent(cfg, ks[..n], was, now);
      forall x, y | x in init && y in last ensures HandlerRank(x) < HandlerRank(y) {
        RankByKey(x, y);
      }
      PairAscends(cfg, ks[n], was, now);
      hide Config.Home, Involved, Pair;
      assert forall j :: 0 <= j < |init| ==> init[j] in init;
      assert forall j :: 0 <= j < |last| ==> last[j] in last;
    }
  }

  /** The lock list is strictly ascending (so it repeats nothing), fits the
      engine's array of two entries per key, and consists of exactly the old
      and new buckets of the changed keys. */
  lemma LocksContent(cfg: Config, was: Bytes, now: Bytes)
    requires cfg.Valid()
    ensures Ascending(Locks(cfg, was, now))
    ensures |Locks(cfg, was, now)| <= 2 * |cfg.keys|
    ensures forall l :: l in Locks(cfg, was, now) <==> Involved(cfg, Changed(cfg, was, now), was, now, l)
  {
    PairsOfContent(cfg, Changed(cfg, was, now), was, now);
    PairsOfAscend(cfg, Changed(cfg, was, now), was, now);
  }

  lemma NoLocks(cfg: Config, was: Bytes, now: Bytes)
    requires cfg.nbuckets > 0 && Changed(cfg, was, now) == []
    ensures Locks(cfg, was, now) == []
  {
  }
}
