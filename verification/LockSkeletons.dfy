/** The locks each operation takes and gives back, in order: which rank they climb
    in, and what follows for any mix of operations on any number of threads. */
module LockSkeletons {
  import opened Keys
  import opened LockOrder
  import opened LockSet
  import opened LockPrograms
  import opened Operations
  import T = Table

  // ----- building blocks -------------------------------------------------------------

  function Touch(l: Lock): seq<Act> { [Take(l), Give(l)] }

  /** One lock after the other, one at a time. */
  function Touches(ls: seq<Lock>): seq<Act> {
    if ls == [] then [] else Touches(ls[..|ls| - 1]) + Touch(ls[|ls| - 1])
  }

  function Takes(ls: seq<Lock>): seq<Act> {
    if ls == [] then [] else Takes(ls[..|ls| - 1]) + [Take(ls[|ls| - 1])]
  }

  /** In reverse order. */
  function Gives(ls: seq<Lock>): seq<Act> {
    if ls == [] then [] else [Give(ls[|ls| - 1])] + Gives(ls[..|ls| - 1])
  }

  lemma Grown(ls: seq<Lock>, l: Lock)
    ensures Touches(ls + [l]) == Touches(ls) + Touch(l)
    ensures Takes(ls + [l]) == Takes(ls) + [Take(l)]
    ensures Gives(ls + [l]) == [Give(l)] + Gives(ls)
  {
    assert (ls + [l])[..|ls|] == ls;
  }

  lemma {:induction false} TouchesConcat(ls: seq<Lock>, ms: seq<Lock>)
    ensures Touches(ls + ms) == Touches(ls) + Touches(ms)
    decreases |ms|
  {
    if ms == [] {
      assert ls + ms == ls;
    } else {
      var n := |ms| - 1;
      TouchesConcat(ls, ms[..n]);
      assert ls + ms == (ls + ms[..n]) + [ms[n]];
      Grown(ls + ms[..n], ms[n]);
      assert (Touches(ls) + Touches(ms[..n])) + Touch(ms[n]) == Touches(ls) + (Touches(ms[..n]) + Touch(ms[n]));
    }
  }

  /** The buckets of a record under some keys. */
  function BucketsOf(cfg: Config, rec: Bytes, ks: seq<nat>): (ls: seq<Lock>)
    requires cfg.nbuckets > 0 && forall j :: 0 <= j < |ks| ==> ks[j] < |cfg.keys|
    ensures |ls| == |ks|
  {
    seq(|ks|, j requires 0 <= j < |ks| => Bucket(ks[j], cfg.Home(ks[j], rec)))
  }

  /** Visiting one key more. */
  lemma TouchMore(cfg: Config, rec: Bytes, ks: seq<nat>, m: nat)
    requires cfg.nbuckets > 0 && m < |ks| && forall j :: 0 <= j < |ks| ==> ks[j] < |cfg.keys|
    ensures Touches(BucketsOf(cfg, rec, ks[..m + 1])) ==
              Touches(BucketsOf(cfg, rec, ks[..m])) + Touch(Bucket(ks[m], cfg.Home(ks[m], rec)))
  {
    assert BucketsOf(cfg, rec, ks[..m + 1]) == BucketsOf(cfg, rec, ks[..m]) + [Bucket(ks[m], cfg.Home(ks[m], rec))];
    Grown(BucketsOf(cfg, rec, ks[..m]), Bucket(ks[m], cfg.Home(ks[m], rec)));
  }

  lemma NoActs()
    ensures Touches([]) == [] && Takes([]) == [] && Gives([]) == []
  {
  }

  lemma TouchNone(cfg: Config, rec: Bytes, ks: seq<nat>)
    requires cfg.nbuckets > 0
    ensures Touches(BucketsOf(cfg, rec, ks[..0])) == [] && Touches(BucketsOf(cfg, rec, [])) == []
  {
  }

  /** Visiting some keys after others. */
  lemma TouchBoth(cfg: Config, rec: Bytes, ks: seq<nat>, ms: seq<nat>)
    requires cfg.nbuckets > 0 && forall j :: 0 <= j < |ks| ==> ks[j] < |cfg.keys|
    requires forall j :: 0 <= j < |ms| ==> ms[j] < |cfg.keys|
    ensures Touches(BucketsOf(cfg, rec, ks + ms)) == Touches(BucketsOf(cfg, rec, ks)) + Touches(BucketsOf(cfg, rec, ms))
  {
    assert BucketsOf(cfg, rec, ks + ms) == BucketsOf(cfg, rec, ks) + BucketsOf(cfg, rec, ms);
    TouchesConcat(BucketsOf(cfg, rec, ks), BucketsOf(cfg, rec, ms));
  }

  /** Every bucket of the keys below n, key by key. */
  function AllBuckets(cfg: Config, n: nat): seq<Lock> {
    if n == 0 then [] else AllBuckets(cfg, n - 1) + KeyBuckets(n - 1, cfg.nbuckets)
  }

  function KeyBuckets(k: nat, n: nat): (ls: seq<Lock>)
    ensures |ls| == n
  {
    seq(n, (b: nat) => Bucket(k, b))
  }

  function RowsBelow(n: nat): (ls: seq<Lock>)
    ensures |ls| == n
  {
    seq(n, (i: nat) => Row(i))
  }

  // ----- the skeletons ------------------------------------------------------------------

  function InsertActs(cfg: Config, rec: Bytes, visits: seq<nat>): seq<Act>
    requires cfg.nbuckets > 0 && forall j :: 0 <= j < |visits| ==> visits[j] < |cfg.keys|
  {
    [Take(Struct)] + Touches(BucketsOf(cfg, rec, visits)) + [Give(Struct)]
  }

  /** Bucket locks in their order, the wlock unless a duplicate was found, and back. */
  function UpdateActs(ls: seq<Lock>, i: nat, dup: bool): seq<Act> {
    Takes(ls) + (if dup then [] else Touch(Row(i))) + Gives(ls)
  }

  function UpdateLockedActs(ls: seq<Lock>): seq<Act> { Takes(ls) + Gives(ls) }

  function EraseActs(cfg: Config, rec: Bytes): seq<Act>
    requires cfg.nbuckets > 0
  {
    Touches(BucketsOf(cfg, rec, Range(0, |cfg.keys|))) + Touch(Struct)
  }

  function DeleteActs(cfg: Config, i: nat, rec: Bytes, live: bool): seq<Act>
    requires cfg.nbuckets > 0
  {
    Touch(Row(i)) + if live then EraseActs(cfg, rec) else []
  }

  function ClearActs(cfg: Config, n: nat): seq<Act> {
    [Take(Struct)] + Touches(AllBuckets(cfg, |cfg.keys|)) + Touches(RowsBelow(n)) + [Give(Struct)]
  }

  /** The visits of an insert that met its first duplicate under key n, if any. */
  lemma VisitsAre(cfg: Config, t: T.Table, rec: Bytes, n: nat)
    requires Ready(cfg, t) && n <= |cfg.keys| && (forall k :: 0 <= k < n ==> !T.Dup(cfg, t, k, rec))
             && (n < |cfg.keys| ==> T.Dup(cfg, t, n, rec))
    ensures Touches(BucketsOf(cfg, rec, Visits(cfg, t, rec))) ==
              Touches(BucketsOf(cfg, rec, Range(0, |cfg.keys|)[..if n < |cfg.keys| then n + 1 else n]))
              + if n < |cfg.keys| then Touches(BucketsOf(cfg, rec, Countdown(n))) else []
  {
    FirstDupIs(cfg, t, rec, 0, n);
    var ks := Range(0, |cfg.keys|);
    if n < |cfg.keys| {
      assert ks[..n + 1] == Range(0, n + 1);
      TouchBoth(cfg, rec, Range(0, n + 1), Countdown(n));
    } else {
      assert ks[..n] == ks;
    }
  }

  // ----- climbing ------------------------------------------------------------------------

  lemma {:induction false} TouchesClimb(rank: Lock -> int, held: set<Lock>, ls: seq<Lock>)
    requires forall j :: 0 <= j < |ls| ==> Above(rank, held, ls[j])
    ensures ClimbsFrom(rank, held, Touches(ls)) && HeldFrom(held, Touches(ls)) == held
    decreases |ls|
  {
    if ls != [] {
      var n := |ls| - 1;
      var l := ls[n];
      TouchesClimb(rank, held, ls[..n]);
      Appended(rank, held, Touches(ls[..n]), Touch(l));
      Wrapped(rank, held, l, []);
      assert [Take(l)] + [] + [Give(l)] == Touch(l);
    }
  }

  /** A list of locks taken in turn, something done under them, and all given back. */
  ghost predicate Ranked(rank: Lock -> int, held: set<Lock>, ls: seq<Lock>) {
    && (forall j :: 0 <= j < |ls| ==> Above(rank, held, ls[j]))
    && (forall i, j :: 0 <= i < j < |ls| ==> rank(ls[i]) < rank(ls[j]))
  }

  function With(held: set<Lock>, ls: seq<Lock>): set<Lock> { held + set l | l in ls }

  lemma {:induction false} NestedClimb(rank: Lock -> int, held: set<Lock>, ls: seq<Lock>, mid: seq<Act>)
    requires Ranked(rank, held, ls)
    requires ClimbsFrom(rank, With(held, ls), mid) && HeldFrom(With(held, ls), mid) == With(held, ls)
    ensures ClimbsFrom(rank, held, Takes(ls) + mid + Gives(ls)) && HeldFrom(held, Takes(ls) + mid + Gives(ls)) == held
    decreases |ls|
  {
    hide ClimbsFrom, HeldFrom, Ranked;
    if ls == [] {
      assert With(held, ls) == held && Takes(ls) + mid + Gives(ls) == mid;
    } else {
      var n := |ls| - 1;
      var l, init := ls[n], ls[..n];
      var h := With(held, init);
      LastIsAbove(rank, held, ls);
      Wrapped(rank, h, l, mid);
      NestedShape(ls, mid);
      hide With, Takes, Gives;
      NestedClimb(rank, held, init, [Take(l)] + mid + [Give(l)]);
    }
  }

  lemma NestedShape(ls: seq<Lock>, mid: seq<Act>)
    requires ls != []
    ensures var n := |ls| - 1;
            Takes(ls) + mid + Gives(ls) == Takes(ls[..n]) + ([Take(ls[n])] + mid + [Give(ls[n])]) + Gives(ls[..n])
  {
    var n := |ls| - 1;
    var a, b, x, y := Takes(ls[..n]), Gives(ls[..n]), [Take(ls[n])], [Give(ls[n])];
    Unfolded(ls);
    hide Takes, Gives;
    calc {
      Takes(ls) + mid + Gives(ls);
      (a + x) + mid + (y + b);
      { Shuffle(a, x, mid, y, b); }
      a + (x + mid + y) + b;
    }
  }

  lemma Unfolded(ls: seq<Lock>)
    requires ls != []
    ensures var n := |ls| - 1;
            Takes(ls) == Takes(ls[..n]) + [Take(ls[n])] && Gives(ls) == [Give(ls[n])] + Gives(ls[..n])
  {
  }

  lemma Shuffle(a: seq<Act>, x: seq<Act>, m: seq<Act>, y: seq<Act>, b: seq<Act>)
    ensures (a + x) + m + (y + b) == a + (x + m + y) + b
  {
  }

  lemma LastIsAbove(rank: Lock -> int, held: set<Lock>, ls: seq<Lock>)
    requires Ranked(rank, held, ls) && ls != []
    ensures var n := |ls| - 1;
            Above(rank, With(held, ls[..n]), ls[n]) && With(held, ls) == With(held, ls[..n]) + {ls[n]}
                && Ranked(rank, held, ls[..n])
  {
    var n := |ls| - 1;
    assert forall m :: m in ls <==> m in ls[..n] || m == ls[n];
    forall m | m in ls[..n] ensures rank(m) < rank(ls[n]) {
      var i :| 0 <= i < n && ls[..n][i] == m;
      assert ls[i] == m;
    }
  }

  lemma Wrapped(rank: Lock -> int, h: set<Lock>, l: Lock, mid: seq<Act>)
    requires Above(rank, h, l) && ClimbsFrom(rank, h + {l}, mid) && HeldFrom(h + {l}, mid) == h + {l}
    ensures ClimbsFrom(rank, h, [Take(l)] + mid + [Give(l)]) && HeldFrom(h, [Take(l)] + mid + [Give(l)]) == h
  {
    Appended(rank, h, [Take(l)] + mid, [Give(l)]);
    Appended(rank, h, [Take(l)], mid);
    assert [Take(l)][1..] == [] && [Give(l)][1..] == [];
    assert l !in h;
    assert h + {l} - {l} == h;
  }

  /** struct_mutex and every bucket lock rank above the locks held, and struct_mutex
      below every bucket lock. */
  ghost predicate Low(rank: Lock -> int, held: set<Lock>) {
    && Above(rank, held, Struct)
    && forall k, b :: Above(rank, held, Bucket(k, b)) && rank(Struct) < rank(Bucket(k, b))
  }

  /** Every bucket lock ranks above the locks held, in the order all ranks share. */
  ghost predicate Under(rank: Lock -> int, held: set<Lock>) {
    forall k, b :: Above(rank, held, Bucket(k, b)) && rank(Bucket(k, b)) == HandlerRank(Bucket(k, b))
  }

  lemma LowRanks(i: nat)
    ensures Low(CoreRank, {}) && Low(HandlerRank, {}) && Low(HandlerRank, {Row(i)})
  {
  }

  /** From the locks held, the acts climb and come back to them. */
  ghost predicate Returns(rank: Lock -> int, held: set<Lock>, acts: seq<Act>) {
    ClimbsFrom(rank, held, acts) && HeldFrom(held, acts) == held
  }

  lemma InsertClimbs(rank: Lock -> int, held: set<Lock>, cfg: Config, rec: Bytes, visits: seq<nat>)
    requires Low(rank, held) && cfg.nbuckets > 0 && forall j :: 0 <= j < |visits| ==> visits[j] < |cfg.keys|
    ensures Returns(rank, held, InsertActs(cfg, rec, visits))
  {
    TouchesClimb(rank, held + {Struct}, BucketsOf(cfg, rec, visits));
    Wrapped(rank, held, Struct, Touches(BucketsOf(cfg, rec, visits)));
  }

  lemma FindClimbs(rank: Lock -> int, held: set<Lock>, k: nat, b: nat)
    requires Under(rank, held)
    ensures Returns(rank, held, Touch(Bucket(k, b)))
  {
    Wrapped(rank, held, Bucket(k, b), []);
    assert [Take(Bucket(k, b))] + [] + [Give(Bucket(k, b))] == Touch(Bucket(k, b));
  }

  lemma EraseClimbs(rank: Lock -> int, held: set<Lock>, cfg: Config, rec: Bytes)
    requires Low(rank, held) && cfg.nbuckets > 0
    ensures Returns(rank, held, EraseActs(cfg, rec))
  {
    var ls := BucketsOf(cfg, rec, Range(0, |cfg.keys|));
    TouchesClimb(rank, held, ls);
    Wrapped(rank, held, Struct, []);
    assert [Take(Struct)] + [] + [Give(Struct)] == Touch(Struct);
    Appended(rank, held, Touches(ls), Touch(Struct));
  }

  lemma LocksRanked(rank: Lock -> int, held: set<Lock>, cfg: Config, was: Bytes, now: Bytes)
    requires cfg.Valid() && Under(rank, held)
    ensures Ranked(rank, held, Locks(cfg, was, now)) && forall l :: l in Locks(cfg, was, now) ==> InRange(l)
  {
    hide HandlerRank, KeyOps.Contract, Locks, Above;
    LocksContent(cfg, was, now);
    var ls := Locks(cfg, was, now);
    forall j | 0 <= j < |ls| ensures InRange(ls[j]) {
      assert ls[j] in ls;
    }
    hide Involved, Config.Valid, Changed;
    forall i, j | 0 <= i < j < |ls| ensures rank(ls[i]) < rank(ls[j]) {
      assert HandlerRank(ls[i]) < HandlerRank(ls[j]);
      assert ls[i] == Bucket(ls[i].k, ls[i].b) && ls[j] == Bucket(ls[j].k, ls[j].b);
    }
  }

  lemma UpdateLockedClimbs(rank: Lock -> int, held: set<Lock>, cfg: Config, was: Bytes, now: Bytes)
    requires cfg.Valid() && Under(rank, held)
    ensures Returns(rank, held, UpdateLockedActs(Locks(cfg, was, now)))
  {
    var ls := Locks(cfg, was, now);
    LocksRanked(rank, held, cfg, was, now);
    hide HandlerRank, Under, Locks, Ranked, Above, Config.Valid, Takes, Gives;
    NestedClimb(rank, held, ls, []);
    assert Takes(ls) + [] == Takes(ls);
  }

  lemma UpdateClimbs(cfg: Config, was: Bytes, now: Bytes, i: nat, dup: bool)
    requires cfg.Valid()
    ensures Returns(CoreRank, {}, UpdateActs(Locks(cfg, was, now), i, dup))
  {
    var ls := Locks(cfg, was, now);
    LowRanks(i);
    LocksRanked(CoreRank, {}, cfg, was, now);
    var h := With({}, ls);
    assert Above(CoreRank, h, Row(i));
    Wrapped(CoreRank, h, Row(i), []);
    assert [Take(Row(i))] + [] + [Give(Row(i))] == Touch(Row(i));
    NestedClimb(CoreRank, {}, ls, if dup then [] else Touch(Row(i)));
  }

  lemma DeleteClimbs(cfg: Config, i: nat, rec: Bytes, live: bool)
    requires cfg.nbuckets > 0
    ensures Returns(CoreRank, {}, DeleteActs(cfg, i, rec, live))
  {
    LowRanks(i);
    EraseClimbs(CoreRank, {}, cfg, rec);
    Wrapped(CoreRank, {}, Row(i), []);
    assert [Take(Row(i))] + [] + [Give(Row(i))] == Touch(Row(i));
    Appended(CoreRank, {}, Touch(Row(i)), if live then EraseActs(cfg, rec) else []);
  }

  lemma {:induction false} AllAreBuckets(cfg: Config, n: nat)
    ensures forall j :: 0 <= j < |AllBuckets(cfg, n)| ==> AllBuckets(cfg, n)[j].Bucket?
  {
    if n > 0 {
      AllAreBuckets(cfg, n - 1);
    }
  }

  lemma ClearClimbs(rank: Lock -> int, cfg: Config, n: nat)
    requires Low(rank, {}) && forall i: nat :: i < n ==> rank(Struct) < rank(Row(i))
    ensures Returns(rank, {}, ClearActs(cfg, n))
  {
    var bs, rs := AllBuckets(cfg, |cfg.keys|), RowsBelow(n);
    AllAreBuckets(cfg, |cfg.keys|);
    TouchesClimb(rank, {} + {Struct}, bs);
    TouchesClimb(rank, {} + {Struct}, rs);
    Appended(rank, {} + {Struct}, Touches(bs), Touches(rs));
    Wrapped(rank, {}, Struct, Touches(bs) + Touches(rs));
    assert [Take(Struct)] + (Touches(bs) + Touches(rs)) + [Give(Struct)] == ClearActs(cfg, n);
  }

  // ----- mixes of operations -----------------------------------------------------------------

  function Flat(ps: seq<seq<Act>>): seq<Act> {
    if ps == [] then [] else Flat(ps[..|ps| - 1]) + ps[|ps| - 1]
  }

  lemma {:induction false} FlatReturns(rank: Lock -> int, held: set<Lock>, ps: seq<seq<Act>>)
    requires forall j :: 0 <= j < |ps| ==> Returns(rank, held, ps[j])
    ensures Returns(rank, held, Flat(ps))
    decreases |ps|
  {
    if ps != [] {
      var n := |ps| - 1;
      FlatReturns(rank, held, ps[..n]);
      Appended(rank, held, Flat(ps[..n]), ps[n]);
    }
  }

  /** An operation of the core family, with all that its locks depend on. */
  datatype CoreOp =
    | Insert(rec: Bytes, visits: seq<nat>)
    | Update(was: Bytes, now: Bytes, i: nat, dup: bool)
    | Delete(i: nat, rec: Bytes, live: bool)
    | Find(k: nat, b: nat)
    | Clear(n: nat)

  predicate OpOk(cfg: Config, op: CoreOp) {
    op.Insert? ==> forall j :: 0 <= j < |op.visits| ==> op.visits[j] < |cfg.keys|
  }

  function ActsOf(cfg: Config, op: CoreOp): seq<Act>
    requires cfg.nbuckets > 0 && OpOk(cfg, op)
  {
    match op
    case Insert(rec, visits) => InsertActs(cfg, rec, visits)
    case Update(was, now, i, dup) => UpdateActs(Locks(cfg, was, now), i, dup)
    case Delete(i, rec, live) => DeleteActs(cfg, i, rec, live)
    case Find(k, b) => Touch(Bucket(k, b))
    case Clear(n) => ClearActs(cfg, n)
  }

  lemma CoreReturns(cfg: Config, op: CoreOp)
    requires cfg.Valid() && OpOk(cfg, op)
    ensures Returns(CoreRank, {}, ActsOf(cfg, op))
  {
    LowRanks(0);
    match op {
      case Insert(rec, visits) => InsertClimbs(CoreRank, {}, cfg, rec, visits);
      case Update(was, now, i, dup) => UpdateClimbs(cfg, was, now, i, dup);
      case Delete(i, rec, live) => DeleteClimbs(cfg, i, rec, live);
      case Find(k, b) => FindClimbs(CoreRank, {}, k, b);
      case Clear(n) => ClearClimbs(CoreRank, cfg, n);
    }
  }

  function Program(cfg: Config, ops: seq<CoreOp>): seq<Act>
    requires cfg.nbuckets > 0 && forall j :: 0 <= j < |ops| ==> OpOk(cfg, ops[j])
  {
    Flat(seq(|ops|, j requires 0 <= j < |ops| => ActsOf(cfg, ops[j])))
  }

  /** Deadlock freedom of the core family: any number of threads, each running any
      sequence of inserts, updates, deletes, lookups and clears, interleaved in any
      way, are never stuck. */
  lemma CoreNeverStuck(cfg: Config, ops: map<Tid, seq<CoreOp>>, progs: map<Tid, seq<Act>>, run: seq<World>,
                       who: seq<Tid>, n: nat)
    requires cfg.Valid() && (forall t, j :: t in ops && 0 <= j < |ops[t]| ==> OpOk(cfg, ops[t][j]))
    requires progs.Keys == ops.Keys && forall t :: t in ops ==> progs[t] == Program(cfg, ops[t])
    requires IsRun(progs, run, who) && n < |run|
    ensures (forall t :: t in run[n].rest ==> run[n].rest[t] == [])
            || (exists t :: t in run[n].rest && Next(run[n], t).Some?)
  {
    hide Low, Above, ClimbsFrom, HeldFrom, KeyOps.Contract;
    forall t | t in progs ensures Climbing(CoreRank, progs[t]) {
      var ps := seq(|ops[t]|, j requires 0 <= j < |ops[t]| => ActsOf(cfg, ops[t][j]));
      forall j | 0 <= j < |ps| ensures Returns(CoreRank, {}, ps[j]) {
        CoreReturns(cfg, ops[t][j]);
      }
      FlatReturns(CoreRank, {}, ps);
    }
    NeverStuck(CoreRank, progs, run, who, n);
  }

  // ----- the handler family ------------------------------------------------------------------

  /** What a handler does while it holds a row lock, or without one. */
  datatype HandlerOp =
    | Write(rec: Bytes, visits: seq<nat>)
    | Lookup(k: nat, b: nat)
    | UpdateLocked(was: Bytes, now: Bytes)
    | DeleteLocked(rec: Bytes)

  predicate JobOk(cfg: Config, op: HandlerOp) {
    op.Write? ==> forall j :: 0 <= j < |op.visits| ==> op.visits[j] < |cfg.keys|
  }

  function JobActs(cfg: Config, op: HandlerOp): seq<Act>
    requires cfg.nbuckets > 0 && JobOk(cfg, op)
  {
    match op
    case Write(rec, visits) => InsertActs(cfg, rec, visits)
    case Lookup(k, b) => Touch(Bucket(k, b))
    case UpdateLocked(was, now) => UpdateLockedActs(Locks(cfg, was, now))
    case DeleteLocked(rec) => EraseActs(cfg, rec)
  }

  lemma JobReturns(rank: Lock -> int, held: set<Lock>, cfg: Config, op: HandlerOp)
    requires cfg.Valid() && JobOk(cfg, op) && Under(rank, held) && (Mutexed(op) ==> Low(rank, held))
    ensures Returns(rank, held, JobActs(cfg, op))
  {
    match op {
      case Write(rec, visits) => InsertClimbs(rank, held, cfg, rec, visits);
      case Lookup(k, b) => FindClimbs(rank, held, k, b);
      case UpdateLocked(was, now) => UpdateLockedClimbs(rank, held, cfg, was, now);
      case DeleteLocked(rec) => EraseClimbs(rank, held, cfg, rec);
    }
  }

  /** A job that takes struct_mutex. */
  predicate Mutexed(op: HandlerOp) { op.Write? || op.DeleteLocked? }

  /** A stretch of a handler's life: jobs without a row lock, or jobs between taking
      and giving back one. */
  datatype Stretch = Stretch(row: Option<nat>, jobs: seq<HandlerOp>)

  predicate StretchOk(cfg: Config, x: Stretch) { forall j :: 0 <= j < |x.jobs| ==> JobOk(cfg, x.jobs[j]) }

  function StretchActs(cfg: Config, x: Stretch): seq<Act>
    requires cfg.nbuckets > 0 && StretchOk(cfg, x)
  {
    var inner := Flat(seq(|x.jobs|, j requires 0 <= j < |x.jobs| => JobActs(cfg, x.jobs[j])));
    if x.row.None? then inner else [Take(Row(x.row.value))] + inner + [Give(Row(x.row.value))]
  }

  predicate AnyMutexed(x: Stretch) { exists j :: 0 <= j < |x.jobs| && Mutexed(x.jobs[j]) }

  /** A stretch climbs in every rank in which the locks it needs rank above its row. */
  lemma StretchClimbs(rank: Lock -> int, cfg: Config, x: Stretch, held: set<Lock>)
    requires cfg.Valid() && StretchOk(cfg, x) && held == (if x.row.Some? then {Row(x.row.value)} else {})
    requires Under(rank, held) && (AnyMutexed(x) ==> Low(rank, held))
    ensures Returns(rank, {}, StretchActs(cfg, x))
  {
    assert forall l :: Above(rank, {}, l);
    assert forall i: nat :: {} + {Row(i)} == {Row(i)};
    hide Low, Above, Under, ClimbsFrom, HeldFrom, Config.Valid, HandlerRank, JobActs, Mutexed;
    var ps := seq(|x.jobs|, j requires 0 <= j < |x.jobs| => JobActs(cfg, x.jobs[j]));
    forall j | 0 <= j < |ps| ensures Returns(rank, held, ps[j]) {
      JobReturns(rank, held, cfg, x.jobs[j]);
    }
    FlatReturns(rank, held, ps);
    if x.row.Some? {
      Wrapped(rank, {}, Row(x.row.value), Flat(ps));
    }
  }

  lemma StretchReturns(cfg: Config, x: Stretch)
    requires cfg.Valid() && StretchOk(cfg, x)
    ensures Returns(HandlerRank, {}, StretchActs(cfg, x))
  {
    LowRanks(if x.row.Some? then x.row.value else 0);
    StretchClimbs(HandlerRank, cfg, x, if x.row.Some? then {Row(x.row.value)} else {});
  }

  function HandlerProgram(cfg: Config, xs: seq<Stretch>): seq<Act>
    requires cfg.nbuckets > 0 && forall j :: 0 <= j < |xs| ==> StretchOk(cfg, xs[j])
  {
    Flat(seq(|xs|, j requires 0 <= j < |xs| => StretchActs(cfg, xs[j])))
  }

  /** The same for the handler family, one handler per thread. */
  lemma HandlerNeverStuck(cfg: Config, xs: map<Tid, seq<Stretch>>, progs: map<Tid, seq<Act>>, run: seq<World>,
                          who: seq<Tid>, n: nat)
    requires cfg.Valid() && (forall t, j :: t in xs && 0 <= j < |xs[t]| ==> StretchOk(cfg, xs[t][j]))
    requires progs.Keys == xs.Keys && forall t :: t in xs ==> progs[t] == HandlerProgram(cfg, xs[t])
    requires IsRun(progs, run, who) && n < |run|
    ensures (forall t :: t in run[n].rest ==> run[n].rest[t] == [])
            || (exists t :: t in run[n].rest && Next(run[n], t).Some?)
  {
    hide Low, Above, ClimbsFrom, HeldFrom, KeyOps.Contract;
    forall t | t in progs ensures Climbing(HandlerRank, progs[t]) {
      var ps := seq(|xs[t]|, j requires 0 <= j < |xs[t]| => StretchActs(cfg, xs[t][j]));
      forall j | 0 <= j < |ps| ensures Returns(HandlerRank, {}, ps[j]) {
        StretchReturns(cfg, xs[t][j]);
      }
      FlatReturns(HandlerRank, {}, ps);
    }
    NeverStuck(HandlerRank, progs, run, who, n);
  }

  // ----- clears beside handlers ------------------------------------------------------------------

  /** A handler that needs struct_mutex under a row lock that clear needs as well. */
  predicate Crosses(x: Stretch, n: nat) { x.row.Some? && x.row.value < n && AnyMutexed(x) }

  /** A clear of so many slots, or a stretch of a handler's life. */
  datatype Mixed = Wipe(m: nat) | Life(x: Stretch)

  /** Clears of a table with n slots at the end, and stretches of the given kinds. */
  predicate MixedOk(cfg: Config, n: nat, xs: set<Stretch>, op: Mixed) {
    match op
    case Wipe(m) => m <= n
    case Life(x) => x in xs && StretchOk(cfg, x)
  }

  function MixedActs(cfg: Config, op: Mixed): seq<Act>
    requires cfg.nbuckets > 0 && (op.Life? ==> StretchOk(cfg, op.x))
  {
    match op
    case Wipe(m) => ClearActs(cfg, m)
    case Life(x) => StretchActs(cfg, x)
  }

  predicate MixOk(cfg: Config, n: nat, xs: set<Stretch>, mix: map<Tid, seq<Mixed>>) {
    forall t :: t in mix ==> forall j :: 0 <= j < |mix[t]| ==> MixedOk(cfg, n, xs, mix[t][j])
  }

  function MixPrograms(cfg: Config, n: nat, xs: set<Stretch>, mix: map<Tid, seq<Mixed>>): map<Tid, seq<Act>>
    requires cfg.nbuckets > 0 && MixOk(cfg, n, xs, mix)
  {
    map t | t in mix :: Flat(seq(|mix[t]|, j requires 0 <= j < |mix[t]| => MixedActs(cfg, mix[t][j])))
  }

  /** Somebody has not finished, and nobody can go on. */
  ghost predicate Stuck(w: World) {
    (exists t :: t in w.rest && w.rest[t] != []) && forall t :: t in w.rest ==> Next(w, t).None?
  }

  /** No interleaving gets stuck. */
  ghost predicate Safe(progs: map<Tid, seq<Act>>) {
    forall run, who, m :: IsRun(progs, run, who) && 0 <= m < |run| ==> !Stuck(run[m])
  }

  /** struct_mutex, then the rows that clear goes through, then the buckets. */
  function MixRank(n: nat): Lock -> int {
    (l: Lock) => if l.Struct? then 0 else if l.Row? then (if l.i < n then 1 else -1) else HandlerRank(l)
  }

  lemma MixedReturns(cfg: Config, n: nat, xs: set<Stretch>, op: Mixed)
    requires cfg.Valid() && MixedOk(cfg, n, xs, op) && (op.Life? ==> !Crosses(op.x, n))
    ensures Returns(MixRank(n), {}, MixedActs(cfg, op))
  {
    match op {
      case Wipe(m) => ClearClimbs(MixRank(n), cfg, m);
      case Life(x) => StretchClimbs(MixRank(n), cfg, x, if x.row.Some? then {Row(x.row.value)} else {});
    }
  }

  lemma MixIsSafe(cfg: Config, n: nat, xs: set<Stretch>, mix: map<Tid, seq<Mixed>>)
    requires cfg.Valid() && MixOk(cfg, n, xs, mix) && forall x :: x in xs ==> !Crosses(x, n)
    ensures Safe(MixPrograms(cfg, n, xs, mix))
  {
    var progs := MixPrograms(cfg, n, xs, mix);
    hide ClimbsFrom, HeldFrom, Config.Valid, MixRank, Crosses, MixedActs;
    forall t | t in progs ensures Climbing(MixRank(n), progs[t]) {
      var ps := seq(|mix[t]|, j requires 0 <= j < |mix[t]| => MixedActs(cfg, mix[t][j]));
      forall j | 0 <= j < |ps| ensures Returns(MixRank(n), {}, ps[j]) {
        assert MixedOk(cfg, n, xs, mix[t][j]);
        MixedReturns(cfg, n, xs, mix[t][j]);
      }
      FlatReturns(MixRank(n), {}, ps);
    }
    forall run, who, m | IsRun(progs, run, who) && 0 <= m < |run| ensures !Stuck(run[m]) {
      hide IsRun;
      NeverStuck(MixRank(n), progs, run, who, m);
    }
  }

  // ----- and when it is not safe -------------------------------------------------------------------

  /** The acts up to where clear waits for row i. */
  function ClearTo(cfg: Config, i: nat): seq<Act> {
    [Take(Struct)] + Touches(AllBuckets(cfg, |cfg.keys|)) + Touches(RowsBelow(i))
  }

  lemma ClearSplits(cfg: Config, n: nat, i: nat) returns (rest: seq<Act>)
    requires i < n
    ensures ClearActs(cfg, n) == ClearTo(cfg, i) + [Take(Row(i))] + rest
  {
    var rs := RowsBelow(n);
    var tail := rs[i + 1..];
    assert rs == (RowsBelow(i) + [Row(i)]) + tail;
    TouchesConcat(RowsBelow(i) + [Row(i)], tail);
    Grown(RowsBelow(i), Row(i));
    var a, b, c := Touches(AllBuckets(cfg, |cfg.keys|)), Touches(RowsBelow(i)), Touches(tail);
    hide Touches, AllBuckets, RowsBelow;
    rest := [Give(Row(i))] + c + [Give(Struct)];
    assert ClearActs(cfg, n) == [Take(Struct)] + a + (b + Touch(Row(i)) + c) + [Give(Struct)];
    assert Touch(Row(i)) == [Take(Row(i))] + [Give(Row(i))];
  }

  lemma ClearClimbsTo(cfg: Config, i: nat)
    ensures HeldFrom({}, ClearTo(cfg, i)) == {Struct} && ClimbsFrom(CoreRank, {}, ClearTo(cfg, i))
  {
    var bs := AllBuckets(cfg, |cfg.keys|);
    AllAreBuckets(cfg, |cfg.keys|);
    LowRanks(0);
    TouchesClimb(CoreRank, {Struct}, bs);
    TouchesClimb(CoreRank, {Struct}, RowsBelow(i));
    Appended(CoreRank, {}, [Take(Struct)] + Touches(bs), Touches(RowsBelow(i)));
    Appended(CoreRank, {}, [Take(Struct)], Touches(bs));
    assert [Take(Struct)][1..] == [] && {} + {Struct} == {Struct};
  }

  lemma {:induction false} FlatSplits(ps: seq<seq<Act>>, j: nat)
    requires j < |ps|
    ensures Flat(ps) == Flat(ps[..j]) + ps[j] + Flat(ps[j + 1..])
    decreases |ps|
  {
    var n := |ps| - 1;
    if j < n {
      FlatSplits(ps[..n], j);
      assert ps[..n][..j] == ps[..j] && ps[..n][j + 1..] == ps[j + 1..][..n - j - 1];
    } else {
      assert ps[j + 1..] == [];
    }
  }

  /** A job that takes struct_mutex, up to there. */
  lemma JobSplits(held: set<Lock>, cfg: Config, op: HandlerOp) returns (a: seq<Act>, b: seq<Act>)
    requires cfg.nbuckets > 0 && JobOk(cfg, op) && Mutexed(op) && Low(HandlerRank, held)
    ensures JobActs(cfg, op) == a + [Take(Struct)] + b && Returns(HandlerRank, held, a)
  {
    if op.Write? {
      a, b := [], Touches(BucketsOf(cfg, op.rec, op.visits)) + [Give(Struct)];
    } else {
      var ls := BucketsOf(cfg, op.rec, Range(0, |cfg.keys|));
      a, b := Touches(ls), [Give(Struct)];
      TouchesClimb(HandlerRank, held, ls);
    }
  }

  lemma JobsSplit(held: set<Lock>, cfg: Config, x: Stretch, ps: seq<seq<Act>>) returns (a: seq<Act>, b: seq<Act>)
    requires cfg.Valid() && StretchOk(cfg, x) && AnyMutexed(x) && Low(HandlerRank, held) && Under(HandlerRank, held)
    requires ps == seq(|x.jobs|, j requires 0 <= j < |x.jobs| => JobActs(cfg, x.jobs[j]))
    ensures Flat(ps) == a + [Take(Struct)] + b && Returns(HandlerRank, held, a)
  {
    var j :| 0 <= j < |x.jobs| && Mutexed(x.jobs[j]);
    hide Low, Under, ClimbsFrom, HeldFrom, Config.Valid, HandlerRank, JobActs, Mutexed, Flat;
    forall m | 0 <= m < j ensures Returns(HandlerRank, held, ps[..j][m]) {
      JobReturns(HandlerRank, held, cfg, x.jobs[m]);
    }
    FlatReturns(HandlerRank, held, ps[..j]);
    FlatSplits(ps, j);
    var c, d := JobSplits(held, cfg, x.jobs[j]);
    Appended(HandlerRank, held, Flat(ps[..j]), c);
    a, b := Flat(ps[..j]) + c, d + Flat(ps[j + 1..]);
    Regroup(Flat(ps[..j]), c, [Take(Struct)], d, Flat(ps[j + 1..]));
  }

  lemma Regroup(a: seq<Act>, b: seq<Act>, c: seq<Act>, d: seq<Act>, e: seq<Act>)
    ensures a + (b + c + d) + e == (a + b) + c + (d + e)
  {
  }

  /** A crossing stretch, up to where it takes struct_mutex under its row lock. */
  lemma StretchSplits(cfg: Config, x: Stretch) returns (a: seq<Act>, b: seq<Act>)
    requires cfg.Valid() && StretchOk(cfg, x) && x.row.Some? && AnyMutexed(x)
    ensures StretchActs(cfg, x) == a + [Take(Struct)] + b
    ensures HeldFrom({}, a) == {Row(x.row.value)} && ClimbsFrom(HandlerRank, {}, a)
  {
    var first := Take(Row(x.row.value));
    LowRanks(x.row.value);
    var ps := seq(|x.jobs|, j requires 0 <= j < |x.jobs| => JobActs(cfg, x.jobs[j]));
    var c, d := JobsSplit({first.l}, cfg, x, ps);
    assert [first][1..] == [] && {} + {first.l} == {first.l};
    Appended(HandlerRank, {}, [first], c);
    Regroup([first], c, [Take(Struct)], d, [Give(first.l)]);
    hide Low, Under, Config.Valid, HandlerRank, Flat, AnyMutexed, StretchOk, ClimbsFrom, HeldFrom;
    a, b := [first] + c, d + [Give(first.l)];
  }

  /** No rank orders a clear of more than i slots and a handler that takes struct_mutex
      under the lock of row i. */
  lemma ClearAndHandler(rank: Lock -> int, cfg: Config, n: nat, x: Stretch)
    requires cfg.Valid() && StretchOk(cfg, x) && Crosses(x, n)
    ensures !(Climbing(rank, ClearActs(cfg, n)) && Climbing(rank, StretchActs(cfg, x)))
  {
    var i := x.row.value;
    var a := ClearSplits(cfg, n, i);
    ClearClimbsTo(cfg, i);
    var c, d := StretchSplits(cfg, x);
    assert TakesUnder(ClearActs(cfg, n), Struct, Row(i));
    assert TakesUnder(StretchActs(cfg, x), Row(i), Struct);
    NoCommonRank(rank, ClearActs(cfg, n), StretchActs(cfg, x), Struct, Row(i));
  }

  lemma {:induction false} TouchesTake(ls: seq<Lock>)
    ensures forall j :: 0 <= j < |Touches(ls)| ==> Touches(ls)[j].l in ls
  {
    if ls != [] {
      var n := |ls| - 1;
      TouchesTake(ls[..n]);
      assert forall l :: l in ls[..n] ==> l in ls;
    }
  }

  /** The handler has locked row i and is about to take struct_mutex, clear holds it and
      has come to row i. */
  lemma Meet(progs: map<Tid, seq<Act>>, i: nat, a: seq<Act>, b: seq<Act>, c: seq<Act>, d: seq<Act>)
    returns (run: seq<World>, who: seq<Tid>)
    requires progs == map[0 := a + ([Take(Row(i))] + b), 1 := c + ([Take(Struct)] + d)]
    requires HeldFrom({}, a) == {Struct} && ClimbsFrom(CoreRank, {}, a) && forall j :: 0 <= j < |a| ==> a[j].l != Row(i)
    requires HeldFrom({}, c) == {Row(i)} && ClimbsFrom(HandlerRank, {}, c)
    ensures IsRun(progs, run, who) && Stuck(Last(run, who))
    ensures forall t :: t in progs ==> t in Last(run, who).rest && Last(run, who).rest[t] != []
  {
    run, who := [World(progs, map[])], [];
    assert Mine(map[], 0) == {} && Mine(map[], 1) == {};
    assert IsRun(progs, run, who) && Unopposed(map[], 1, c);
    hide IsRun, Unopposed, Next, ClimbsFrom, HeldFrom, HandlerRank, CoreRank;
    run, who := RunAlone(HandlerRank, progs, run, who, 1, c, [Take(Struct)] + d);
    OnlyRow(Last(run, who).owner, i, a);
    run, who := RunAlone(CoreRank, progs, run, who, 0, a, [Take(Row(i))] + b);
    hide Mine;
    BothWait(Last(run, who), i);
  }

  lemma Together(a: seq<Act>, b: seq<Act>, c: seq<Act>)
    ensures a + b + c == a + (b + c)
  {
  }

  /** And they do get stuck, whatever the table. */
  lemma ClearMeetsHandler(cfg: Config, n: nat, x: Stretch, progs: map<Tid, seq<Act>>)
    returns (run: seq<World>, who: seq<Tid>)
    requires cfg.Valid() && StretchOk(cfg, x) && Crosses(x, n)
    requires progs == map[0 := ClearActs(cfg, n), 1 := StretchActs(cfg, x)]
    ensures IsRun(progs, run, who) && Stuck(Last(run, who))
    ensures forall t :: t in progs ==> t in Last(run, who).rest && Last(run, who).rest[t] != []
  {
    var i := x.row.value;
    var a := ClearTo(cfg, i);
    var b := ClearSplits(cfg, n, i);
    var c, d := StretchSplits(cfg, x);
    ClearClimbsTo(cfg, i);
    ClearAvoids(cfg, i);
    Together(a, [Take(Row(i))], b);
    Together(c, [Take(Struct)], d);
    hide ClearActs, StretchActs, ClearTo, ClimbsFrom, HeldFrom, Config.Valid, HandlerRank, CoreRank, StretchOk, IsRun;
    hide Stuck, AnyMutexed;
    run, who := Meet(progs, i, a, b, c, d);
  }

  /** Each owns what the other one is to take next. */
  lemma BothWait(w: World, i: nat)
    requires w.rest.Keys == {0, 1} && w.rest[0] != [] && w.rest[0][0] == Take(Row(i)) && Row(i) in Mine(w.owner, 1)
    requires w.rest[1] != [] && w.rest[1][0] == Take(Struct) && Struct in Mine(w.owner, 0)
    ensures Stuck(w)
  {
  }

  /** Clear's way to row i takes no lock of that row. */
  lemma ClearAvoids(cfg: Config, i: nat)
    ensures forall j :: 0 <= j < |ClearTo(cfg, i)| ==> ClearTo(cfg, i)[j].l != Row(i)
  {
    AllAreBuckets(cfg, |cfg.keys|);
    TouchesTake(AllBuckets(cfg, |cfg.keys|));
    TouchesTake(RowsBelow(i));
  }

  lemma OnlyRow(owner: map<Lock, Tid>, i: nat, acts: seq<Act>)
    requires (forall u :: u != 1 ==> Mine(owner, u) == {}) && Mine(owner, 1) == {Row(i)}
    requires forall j :: 0 <= j < |acts| ==> acts[j].l != Row(i)
    ensures Unopposed(owner, 0, acts)
  {
    forall l | l in owner ensures l == Row(i) {
      assert l in Mine(owner, owner[l]);
    }
  }

  lemma OneOp(ps: seq<seq<Act>>)
    requires |ps| == 1
    ensures Flat(ps) == ps[0]
  {
    assert ps[..0] == [];
  }

  /** One clear and one crossing stretch make an unsafe mix. */
  lemma CrossingIsUnsafe(cfg: Config, n: nat, xs: set<Stretch>, x: Stretch) returns (mix: map<Tid, seq<Mixed>>)
    requires cfg.Valid() && x in xs && StretchOk(cfg, x) && Crosses(x, n)
    ensures MixOk(cfg, n, xs, mix) && !Safe(MixPrograms(cfg, n, xs, mix))
  {
    mix := map[0 := [Wipe(n)], 1 := [Life(x)]];
    hide Config.Valid, Crosses, StretchOk, ClearActs, StretchActs, Flat;
    var progs := MixPrograms(cfg, n, xs, mix);
    forall t | t in mix ensures progs[t] == MixedActs(cfg, mix[t][0]) {
      OneOp(seq(|mix[t]|, j requires 0 <= j < |mix[t]| => MixedActs(cfg, mix[t][j])));
    }
    assert progs == map[0 := ClearActs(cfg, n), 1 := StretchActs(cfg, x)];
    var run, who := ClearMeetsHandler(cfg, n, x, progs);
    assert Stuck(run[|who|]);
  }

  /** When clear may run beside handlers: of all mixes of clears and of the given kinds
      of stretches, on any number of threads, none ever gets stuck, if and only if no
      stretch takes struct_mutex under the lock of a row that clear goes through. */
  lemma ClearBesideHandlers(cfg: Config, n: nat, xs: set<Stretch>)
    requires cfg.Valid() && forall x :: x in xs ==> StretchOk(cfg, x)
    ensures (forall mix :: MixOk(cfg, n, xs, mix) ==> Safe(MixPrograms(cfg, n, xs, mix)))
            <==> (forall x :: x in xs ==> !Crosses(x, n))
  {
    hide Crosses, StretchOk, Safe, MixOk, MixPrograms;
    if forall x :: x in xs ==> !Crosses(x, n) {
      forall mix | MixOk(cfg, n, xs, mix) ensures Safe(MixPrograms(cfg, n, xs, mix)) {
        MixIsSafe(cfg, n, xs, mix);
      }
    } else {
      var x :| x in xs && Crosses(x, n);
      var mix := CrossingIsUnsafe(cfg, n, xs, x);
    }
  }
}
