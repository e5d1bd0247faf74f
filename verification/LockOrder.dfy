/** Locks, their acquisition order and why no set of threads deadlocks. */
module LockOrder {
  import opened Keys

  type Tid = nat

  /** The table's struct_mutex, the bucket spinlocks and the slot wlocks. */
  datatype Lock = Struct | Bucket(k: nat, b: nat) | Row(i: nat)

  /** Rank for the handler family: wlock < struct_mutex < (key, bucket). */
  function HandlerRank(l: Lock): int {
    match l
    case Row(_) => 0
    case Struct => 1
    case Bucket(k, b) => 2 + k * 0x1_0000_0000 + b
  }

  /** Rank for the core's own operations: struct_mutex < (key, bucket) < wlock. */
  function CoreRank(l: Lock): int {
    match l
    case Struct => 1
    case Bucket(k, b) => 2 + k * 0x1_0000_0000 + b
    case Row(_) => 2 + MAX_KEYS * 0x1_0000_0000
  }

  /** A bucket lock the store can have. */
  predicate InRange(l: Lock) { l.Bucket? && l.k < MAX_KEYS && l.b < U32 }

  /** l ranks above everything held. */
  predicate Above(rank: Lock -> int, held: set<Lock>, l: Lock) {
    forall m :: m in held ==> rank(m) < rank(l)
  }

  predicate Owns(owner: map<Lock, Tid>, l: Lock, t: Tid) {
    l in owner && owner[l] == t
  }

  /** t, about to wait for w, holds only locks of lower rank. */
  ghost predicate Climbs(owner: map<Lock, Tid>, t: Tid, w: Lock, rank: Lock -> int) {
    forall l :: Owns(owner, l, t) ==> rank(l) < rank(w)
  }

  lemma HighestWaiter(waiting: map<Tid, Lock>, rank: Lock -> int) returns (t: Tid)
    requires waiting != map[]
    ensures t in waiting
    ensures forall u :: u in waiting ==> rank(waiting[u]) <= rank(waiting[t])
    decreases |waiting|
  {
    t :| t in waiting;
    var rest := waiting - {t};
    assert rest.Keys == waiting.Keys - {t};
    if rest != map[] {
      var u := HighestWaiter(rest, rank);
      assert forall v :: v in waiting && v != t ==> v in rest;
      if rank(waiting[t]) < rank(waiting[u]) { t := u; }
    } else {
      assert forall v :: v in waiting && v != t ==> v in rest;
    }
  }

  /** If every waiting thread only climbs, then in any group of waiting threads
      one waits for a lock that nobody in the group holds: no cycle of waiting
      threads exists. */
  lemma NoCycle(owner: map<Lock, Tid>, waiting: map<Tid, Lock>, rank: Lock -> int)
    requires waiting != map[]
    requires forall t :: t in waiting ==> Climbs(owner, t, waiting[t], rank)
    ensures exists t :: t in waiting && (waiting[t] in owner ==> owner[waiting[t]] !in waiting)
  {
    var t := HighestWaiter(waiting, rank);
    assert waiting[t] in owner ==> Owns(owner, waiting[t], owner[waiting[t]]);
  }
}
