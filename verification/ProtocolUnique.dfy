/** Unique keys under interleaving.

    Inserts and key-changing updates look for duplicates before they show a row.
    Two such looks for equal keys exclude each other by their locks, except where
    an insert that has linked its row and let go of the bucket overlaps an update:
    without such an overlap no run leaves two equal rows, and with one, committing
    both does. */
module ProtocolUnique {
  import opened Keys
  import opened Slots
  import opened Chain
  import opened LockOrder
  import opened LockSet
  import opened Protocol
  import opened ProtocolInvariant
  import opened ProtocolSteps
  import opened ProtocolRuns
  import opened ProtocolTheorems

  /** Slot j shows a row that rec must not join under unique key k. */
  ghost predicate Rival(cfg: Config, slots: seq<Slot>, k: nat, j: nat, rec: Bytes)
    requires k < |cfg.keys|
  {
    j < |slots| && slots[j].state == Active && cfg.Checked(k, rec) && cfg.Same(k, slots[j].image, rec)
  }

  /** No two visible rows without NULL parts are equal under a unique key. */
  ghost predicate Uniq(cfg: Config, slots: seq<Slot>) {
    forall k: nat, i: nat, j: nat :: k < |cfg.keys| && i < |slots| && slots[i].state == Active && i != j ==>
      !Rival(cfg, slots, k, j, slots[i].image)
  }

  // ----- looking for duplicates -----------------------------------------------------

  /** The slot and the record a thread is about to show. */
  datatype Probe = Probe(self: nat, rec: Bytes)

  function ProbeOf(pc: Pc): Option<Probe> {
    match pc
    case Inserting(rec, InsKey(i, _)) => Some(Probe(i, rec))
    case Inserting(rec, InsDup(i, _, _)) => Some(Probe(i, rec))
    case Inserting(rec, InsLink(i, _)) => Some(Probe(i, rec))
    case Inserting(rec, InsHead(i, _)) => Some(Probe(i, rec))
    case Inserting(rec, InsUnlock(i, _)) => Some(Probe(i, rec))
    case Inserting(rec, InsPublish(i)) => Some(Probe(i, rec))
    case Updating(u, UpDup(_)) => Some(Probe(u.i, u.now))
    case Updating(u, UpDupWalk(_, _)) => Some(Probe(u.i, u.now))
    case Updating(u, UpWrite) => Some(Probe(u.i, u.now))
    case _ => None
  }

  predicate Among(ks: seq<nat>, n: nat, k: nat) { exists m :: 0 <= m < n && m < |ks| && ks[m] == k }

  /** The thread has found no duplicate under key k. */
  predicate Cleared(pc: Pc, k: nat) {
    match pc
    case Inserting(_, InsKey(_, n)) => k < n
    case Inserting(_, InsDup(_, n, _)) => k < n
    case Inserting(_, InsLink(_, n)) => k <= n
    case Inserting(_, InsHead(_, n)) => k <= n
    case Inserting(_, InsUnlock(_, n)) => k <= n
    case Inserting(_, InsPublish(_)) => true
    case Updating(u, UpDup(j)) => Among(u.ks, j, k)
    case Updating(u, UpDupWalk(j, _)) => Among(u.ks, j, k)
    case Updating(u, UpWrite) => Among(u.ks, |u.ks|, k)
    case _ => false
  }

  /** The thread is looking under a key, and has come as far as cur in its chain. */
  datatype Look = Look(k: nat, cur: int)

  function LookOf(pc: Pc): Option<Look> {
    match pc
    case Inserting(_, InsDup(_, k, cur)) => Some(Look(k, cur))
    case Updating(u, UpDupWalk(j, cur)) => if j < |u.ks| then Some(Look(u.ks[j], cur)) else None
    case _ => None
  }

  predicate Involves(pc: Pc, k: nat) {
    ProbeOf(pc).Some? && (Cleared(pc, k) || (LookOf(pc).Some? && LookOf(pc).value.k == k))
  }

  /** j is at or after cur in the chain c. */
  ghost predicate Ahead(c: seq<nat>, cur: int, j: nat) {
    exists p, q :: 0 <= p <= q < |c| && c[p] == cur && c[q] == j
  }

  /** Every rival under key k, but for the thread's own slot, is still ahead. */
  ghost predicate AllAhead(cfg: Config, s: World, p: Probe, l: Look)
    requires Sized(cfg, s) && l.k < |cfg.keys|
  {
    forall j: nat :: j != p.self && Rival(cfg, s.slots, l.k, j, p.rec) ==>
        Ahead(s.ch[l.k][cfg.Home(l.k, p.rec)], l.cur, j)
  }

  ghost predicate NoRival(cfg: Config, slots: seq<Slot>, p: Probe, k: nat) {
    k < |cfg.keys| ==> forall j: nat :: j != p.self ==> !Rival(cfg, slots, k, j, p.rec)
  }

  /** What a thread has made sure of before it shows its row. */
  ghost predicate Pending(cfg: Config, s: World, pc: Pc)
    requires Sized(cfg, s)
  {
    ProbeOf(pc).Some? ==>
      && (forall k: nat :: Cleared(pc, k) ==> NoRival(cfg, s.slots, ProbeOf(pc).value, k))
      && (LookOf(pc).Some? ==>
            var l := LookOf(pc).value;
            l.k < |cfg.keys| && cfg.Checked(l.k, ProbeOf(pc).value.rec) && AllAhead(cfg, s, ProbeOf(pc).value, l))
  }

  ghost predicate AllUnique(cfg: Config, s: World) {
    Sized(cfg, s) && Uniq(cfg, s.slots) && forall t :: t in s.th ==> Pending(cfg, s, s.th[t].pc)
  }

  // ----- overlap ----------------------------------------------------------------------

  /** An insert and an update look, or have looked, for duplicates of equal keys at
      the same time. */
  ghost predicate Overlap(cfg: Config, a: Pc, b: Pc, k: nat)
    requires k < |cfg.keys|
  {
    && a.Inserting? && b.Updating? && Involves(a, k) && Involves(b, k)
    && cfg.Checked(k, ProbeOf(a).value.rec) && cfg.Same(k, ProbeOf(a).value.rec, ProbeOf(b).value.rec)
  }

  ghost predicate NoOverlap(cfg: Config, s: World) {
    forall t, u, k: nat :: t in s.th && u in s.th && k < |cfg.keys| ==> !Overlap(cfg, s.th[t].pc, s.th[u].pc, k)
  }

  lemma HoldsItsLocks(cfg: Config, s: World, t: Tid)
    requires Inv(cfg, s) && t in s.th
    ensures cfg.Valid() && Fits(cfg, |s.slots|, s.th[t]) && OwnsExactly(s.owner, t, FactsOf(cfg, s.th[t]).locks)
  {
    hide Indexed, FreeOk, Settled, History, CustodyOk, FactsOf, True, Guarded, Fits;
    assert ThreadOk(cfg, s, t);
  }

  lemma InsertHoldsStruct(cfg: Config, s: World, t: Tid)
    requires Inv(cfg, s) && t in s.th && s.th[t].pc.Inserting? && ProbeOf(s.th[t].pc).Some?
    ensures Owns(s.owner, Struct, t)
  {
    hide Inv, HomesOf, KeyOps.Contract, Fits;
    HoldsItsLocks(cfg, s, t);
  }

  lemma UpdateLocked(cfg: Config, th: Thread, k: nat)
    requires cfg.nbuckets > 0 && (th.pc.Moving? || (th.pc.Updating? && ProbeOf(th.pc).Some?)) && th.pc.u.Valid(cfg)
             && k in th.pc.u.ks
    ensures k < |cfg.keys| && Bucket(k, cfg.Home(k, th.pc.u.now)) in FactsOf(cfg, th).locks
  {
    HoldsAll(cfg, th.pc.u, k);
    hide HomesMidway, Upd.Valid, FirstLocks;
  }

  /** From its duplicate checks on, an update holds the new bucket of each of its keys. */
  lemma UpdateHoldsBucket(cfg: Config, s: World, t: Tid, k: nat)
    requires Inv(cfg, s) && t in s.th && (s.th[t].pc.Moving? || (s.th[t].pc.Updating? && ProbeOf(s.th[t].pc).Some?))
             && k in s.th[t].pc.u.ks
    ensures k < |cfg.keys| && Owns(s.owner, Bucket(k, cfg.Home(k, s.th[t].pc.u.now)), t)
  {
    hide Inv, FactsOf, KeyOps.Contract, Upd.Valid;
    HoldsItsLocks(cfg, s, t);
    UpdateLocked(cfg, s.th[t], k);
  }

  lemma SameHomes(cfg: Config, k: nat, a: Bytes, b: Bytes)
    requires cfg.Valid() && k < |cfg.keys|
    ensures cfg.Same(k, a, b) ==>
              cfg.Same(k, b, a) && cfg.Home(k, a) == cfg.Home(k, b) && cfg.Checked(k, a) == cfg.Checked(k, b)
  {
    assert cfg.keys[k].ops.Contract();
  }

  /** One insert at a time, ... */
  lemma OneInsert(cfg: Config, s: World, t: Tid, u: Tid)
    requires Inv(cfg, s) && t in s.th && s.th[t].pc.Inserting? && ProbeOf(s.th[t].pc).Some?
    requires u in s.th && s.th[u].pc.Inserting? && ProbeOf(s.th[u].pc).Some?
    ensures t == u
  {
    hide Inv, ProbeOf;
    InsertHoldsStruct(cfg, s, t);
    InsertHoldsStruct(cfg, s, u);
  }

  /** ... and one update at a time in the new bucket of a key. */
  lemma OneUpdate(cfg: Config, s: World, t: Tid, u: Tid, k: nat)
    requires Inv(cfg, s) && t in s.th && s.th[t].pc.Updating? && Involves(s.th[t].pc, k)
    requires u in s.th && s.th[u].pc.Updating? && Involves(s.th[u].pc, k)
    requires k < |cfg.keys| && cfg.Home(k, s.th[t].pc.u.now) == cfg.Home(k, s.th[u].pc.u.now)
    ensures t == u
  {
    hide Inv, Config.Home;
    UpdateHoldsBucket(cfg, s, t, k);
    UpdateHoldsBucket(cfg, s, u, k);
  }

  /** Locks keep every other pair of looks for equal keys apart. */
  lemma NoConflict(cfg: Config, s: World, t: Tid, u: Tid, k: nat)
    requires Inv(cfg, s) && NoOverlap(cfg, s) && t in s.th && u in s.th && t != u && k < |cfg.keys|
    requires Involves(s.th[t].pc, k) && Involves(s.th[u].pc, k) && cfg.Checked(k, ProbeOf(s.th[t].pc).value.rec)
    ensures !cfg.Same(k, ProbeOf(s.th[t].pc).value.rec, ProbeOf(s.th[u].pc).value.rec)
  {
    HoldsItsLocks(cfg, s, t);
    hide Inv, FactsOf, Fits, OwnsExactly, Config.Valid, Config.Home, Config.Same, Config.Checked, Cleared, LookOf;
    var a, b := s.th[t].pc, s.th[u].pc;
    SameHomes(cfg, k, ProbeOf(a).value.rec, ProbeOf(b).value.rec);
    if cfg.Same(k, ProbeOf(a).value.rec, ProbeOf(b).value.rec) && a.Updating? && b.Updating? {
      OneUpdate(cfg, s, t, u, k);
    } else if a.Inserting? && b.Inserting? {
      OneInsert(cfg, s, t, u);
    } else if a.Inserting? {
      assert !Overlap(cfg, a, b, k);
    } else {
      assert !Overlap(cfg, b, a, k);
    }
  }

  // ----- what a step shows --------------------------------------------------------------

  /** The step from pc shows row j anew under key k: it publishes the row, or writes
      an image with another key over it. */
  predicate Shown(pc: Pc, j: nat, k: nat) {
    (pc.Inserting? && pc.n == InsPublish(j)) || (pc.Updating? && pc.p == UpWrite && pc.u.i == j && k in pc.u.ks)
  }

  /** A visible row x' of slot j after a step from pc: shown by it, as what the thread
      was about to show, or visible before with an equal key. */
  ghost predicate Akin(cfg: Config, pc: Pc, j: nat, x: Slot, x': Slot) {
    forall k: nat :: k < |cfg.keys| ==>
      if Shown(pc, j, k) then ProbeOf(pc) == Some(Probe(j, x'.image))
      else x.state == Active && cfg.Same(k, x.image, x'.image)
  }

  ghost predicate Kin(cfg: Config, pc: Pc, slots: seq<Slot>, slots': seq<Slot>) {
    && |slots'| == |slots|
    && forall j :: 0 <= j < |slots'| && slots'[j].state == Active ==> Akin(cfg, pc, j, slots[j], slots'[j])
  }

  ghost predicate KinStep(cfg: Config, s: World, t: Tid, o: Option<World>)
    requires t in s.th
  {
    o.Some? ==> Kin(cfg, s.th[t].pc, s.slots, o.value.slots)
  }

  predicate Shows(pc: Pc) { (pc.Inserting? && pc.n.InsPublish?) || (pc.Updating? && pc.p.UpWrite?) }

  lemma SameKin(cfg: Config, pc: Pc, slots: seq<Slot>)
    requires cfg.Valid() && !Shows(pc)
    ensures Kin(cfg, pc, slots, slots)
  {
    forall j, k | 0 <= j < |slots| && 0 <= k < |cfg.keys| ensures cfg.Same(k, slots[j].image, slots[j].image) {
      assert cfg.keys[k].ops.Contract();
    }
  }

  lemma HiddenKin(cfg: Config, pc: Pc, slots: seq<Slot>, i: nat, x: Slot)
    requires cfg.Valid() && i < |slots| && x.state != Active && !Shows(pc)
    ensures Kin(cfg, pc, slots, slots[i := x])
  {
    SameKin(cfg, pc, slots);
  }

  lemma RewriteKin(cfg: Config, slots: seq<Slot>, pc: Pc)
    requires cfg.Valid() && pc.Updating? && (pc.p.UpFast? ==> pc.u.ks == []) && (pc.p.UpFast? || pc.p.UpWrite?)
    requires pc.u.i < |slots| && slots[pc.u.i].state == Active && slots[pc.u.i].image == pc.u.was && pc.u.Valid(cfg)
    ensures Kin(cfg, pc, slots, slots[pc.u.i := slots[pc.u.i].(image := pc.u.now)])
  {
    forall j, k | 0 <= j < |slots| && 0 <= k < |cfg.keys| ensures cfg.Same(k, slots[j].image, slots[j].image) {
      assert cfg.keys[k].ops.Contract();
    }
  }

  lemma PublishKin(cfg: Config, slots: seq<Slot>, pc: Pc, i: nat)
    requires cfg.Valid() && pc.Inserting? && pc.n == InsPublish(i) && i < |slots| && slots[i].image == pc.rec
    ensures Kin(cfg, pc, slots, slots[i := slots[i].(state := Active)])
  {
    forall j, k | 0 <= j < |slots| && 0 <= k < |cfg.keys| ensures cfg.Same(k, slots[j].image, slots[j].image) {
      assert cfg.keys[k].ops.Contract();
    }
  }

  lemma QuietKin(cfg: Config, s: World, t: Tid)
    requires Runs(cfg, s, t) && (s.th[t].pc.Locking? || s.th[t].pc.Finding? || s.th[t].pc.Undoing?
             || s.th[t].pc.Moving?)
    ensures Exec(cfg, s, t).Some? ==> Exec(cfg, s, t).value.slots == s.slots
  {
    hide Upd.Valid, KeyOps.Contract, UnlinkFrom, LinkIn;
  }

  lemma DeleteKin(cfg: Config, s: World, t: Tid)
    requires Runs(cfg, s, t) && (s.th[t].pc.Removing? || s.th[t].pc.Checking?)
    requires s.th[t].pc.Removing? && !s.th[t].pc.d.DelEnd? ==> s.slots[s.th[t].pc.i].state != Active
    ensures KinStep(cfg, s, t, Exec(cfg, s, t))
  {
    hide Upd.Valid, KeyOps.Contract, UnlinkFrom, LinkIn, Kin;
    var pc := s.th[t].pc;
    SameKin(cfg, pc, s.slots);
    HiddenKin(cfg, pc, s.slots, pc.i, s.slots[pc.i].(state := Deleting));
    HiddenKin(cfg, pc, s.slots, pc.i, s.slots[pc.i].(state := Deleted));
    if pc.Removing? && !pc.d.DelEnd? {
      HiddenKin(cfg, pc, s.slots, pc.i, s.slots[pc.i].(bumps := s.slots[pc.i].bumps + 1));
    }
  }

  lemma InsertKin(cfg: Config, s: World, t: Tid)
    requires Runs(cfg, s, t) && s.th[t].pc.Inserting?
    requires s.th[t].pc.n.InsCopy? ==> s.slots[s.th[t].pc.n.i].state != Active
    requires s.th[t].pc.n.InsPublish? ==> s.slots[s.th[t].pc.n.i].image == s.th[t].pc.rec
    ensures KinStep(cfg, s, t, Exec(cfg, s, t))
  {
    hide KeyOps.Contract, LinkIn, Kin;
    var pc := s.th[t].pc;
    if pc.n.InsPublish? {
      PublishKin(cfg, s.slots, pc, pc.n.i);
    } else {
      SameKin(cfg, pc, s.slots);
      if pc.n.InsCopy? {
        HiddenKin(cfg, pc, s.slots, pc.n.i, s.slots[pc.n.i].(image := pc.rec));
      }
    }
  }

  lemma UpdateKin(cfg: Config, s: World, t: Tid)
    requires Runs(cfg, s, t) && s.th[t].pc.Updating?
    requires s.th[t].pc.p.UpFast? || s.th[t].pc.p.UpWrite? ==>
               s.slots[s.th[t].pc.u.i].state == Active && s.slots[s.th[t].pc.u.i].image == s.th[t].pc.u.was
    ensures KinStep(cfg, s, t, Exec(cfg, s, t))
  {
    hide KeyOps.Contract, Kin, Clash, Config.Home, Config.Checked, Config.Same;
    var pc := s.th[t].pc;
    if pc.p.UpFast? || pc.p.UpWrite? {
      RewriteKin(cfg, s.slots, pc);
    } else {
      SameKin(cfg, pc, s.slots);
    }
    hide Upd.Valid;
  }

  /** What the invariant says about the slots a step is about to write. */
  lemma Knowing(cfg: Config, s: World, t: Tid)
    requires Inv(cfg, s) && t in s.th
    ensures Runs(cfg, s, t)
    ensures var pc := s.th[t].pc;
            && (pc.Removing? && !pc.d.DelEnd? ==> s.slots[pc.i].state != Active)
            && (pc.Inserting? && pc.n.InsCopy? ==> s.slots[pc.n.i].state != Active)
            && (pc.Inserting? && pc.n.InsPublish? ==> s.slots[pc.n.i].image == pc.rec)
            && (pc.Updating? && (pc.p.UpFast? || pc.p.UpWrite?) ==>
                 s.slots[pc.u.i].state == Active && s.slots[pc.u.i].image == pc.u.was)
  {
    hide Indexed, FreeOk, Settled, History, CustodyOk;
    assert ThreadOk(cfg, s, t);
    KnowsItsSlot(cfg, s, t);
    hide FactsOf, Guarded, Meets, Upd.Valid, KeyOps.Contract;
  }

  /** A row that an insert is about to show is not visible yet. */
  lemma ShownIsHidden(cfg: Config, s: World, t: Tid)
    requires Inv(cfg, s) && t in s.th && s.th[t].pc.Inserting? && s.th[t].pc.n.InsPublish?
    ensures s.th[t].pc.n.i < |s.slots| && s.slots[s.th[t].pc.n.i].state != Active
  {
    hide Indexed, FreeOk, Settled, History, CustodyOk;
    assert ThreadOk(cfg, s, t);
    hide HomesOf, KeyOps.Contract, AtHome;
  }

  lemma KnowsItsSlot(cfg: Config, s: World, t: Tid)
    requires Sized(cfg, s) && t in s.th && ThreadOk(cfg, s, t)
    ensures var pc := s.th[t].pc;
            && (pc.Removing? && !pc.d.DelEnd? ==> s.slots[pc.i].state != Active)
            && (pc.Inserting? && pc.n.InsCopy? ==> s.slots[pc.n.i].state != Active)
            && (pc.Inserting? && pc.n.InsPublish? ==> s.slots[pc.n.i].image == pc.rec)
            && (pc.Updating? && (pc.p.UpFast? || pc.p.UpWrite?) ==>
                 s.slots[pc.u.i].state == Active && s.slots[pc.u.i].image == pc.u.was)
  {
    hide Upd.Valid, FirstLocks, HomesOf, HomesMidway, KeyOps.Contract, AtHome;
  }

  lemma IdleKin(cfg: Config, s: World, t: Tid)
    requires Runs(cfg, s, t) && s.th[t].pc.Idle?
    ensures Exec(cfg, s, t) == None && Grow(s, t) == None
    ensures forall call :: Begin(cfg, s, t, call).Some? ==> Begin(cfg, s, t, call).value.slots == s.slots
  {
  }

  lemma StepKin(cfg: Config, s: World, t: Tid, s': World)
    requires Inv(cfg, s) && Step(cfg, s, t, s')
    ensures Kin(cfg, s.th[t].pc, s.slots, s'.slots)
  {
    Knowing(cfg, s, t);
    hide Inv, Kin, Exec;
    var pc := s.th[t].pc;
    if !Shows(pc) {
      SameKin(cfg, pc, s.slots);
    }
    match pc {
      case Idle => IdleKin(cfg, s, t);
      case Inserting(_, _) => InsertKin(cfg, s, t);
      case Updating(_, _) => UpdateKin(cfg, s, t);
      case Removing(_, _, _) => DeleteKin(cfg, s, t);
      case Checking(_, _, _, _, _) => DeleteKin(cfg, s, t);
      case _ => QuietKin(cfg, s, t);
    }
  }

  /** A rival after a step was one before, or the step has shown it. */
  lemma RivalFrom(cfg: Config, pc: Pc, slots: seq<Slot>, slots': seq<Slot>, k: nat, j: nat, rec: Bytes)
    requires cfg.Valid() && k < |cfg.keys| && Kin(cfg, pc, slots, slots')
    ensures Rival(cfg, slots', k, j, rec) ==>
              if Shown(pc, j, k)
              then ProbeOf(pc) == Some(Probe(j, slots'[j].image)) && cfg.Same(k, ProbeOf(pc).value.rec, rec)
              else Rival(cfg, slots, k, j, rec)
  {
    assert cfg.keys[k].ops.Contract();
    if j < |slots'| && slots'[j].state == Active {
      assert Akin(cfg, pc, j, slots[j], slots'[j]);
    }
  }

  lemma ShownCleared(cfg: Config, pc: Pc, j: nat, k: nat)
    requires Shown(pc, j, k)
    ensures ProbeOf(pc).Some? && ProbeOf(pc).value.self == j && Cleared(pc, k) && Involves(pc, k)
  {
    if pc.Updating? {
      var m :| 0 <= m < |pc.u.ks| && pc.u.ks[m] == k;
    }
  }

  /** Rows stay unique: what a step shows, its thread has made sure of. */
  lemma StaysUniq(cfg: Config, s: World, pc: Pc, slots': seq<Slot>)
    requires Sized(cfg, s) && Uniq(cfg, s.slots) && Kin(cfg, pc, s.slots, slots') && Pending(cfg, s, pc)
    ensures Uniq(cfg, slots')
  {
    forall k: nat, a: nat, b: nat | k < |cfg.keys| && a < |slots'| && slots'[a].state == Active && a != b
      ensures !Rival(cfg, slots', k, b, slots'[a].image)
    {
      PairStays(cfg, s, pc, slots', k, a, b);
    }
  }

  lemma PairStays(cfg: Config, s: World, pc: Pc, slots': seq<Slot>, k: nat, a: nat, b: nat)
    requires Sized(cfg, s) && Uniq(cfg, s.slots) && Kin(cfg, pc, s.slots, slots') && Pending(cfg, s, pc)
    requires k < |cfg.keys| && a < |slots'| && slots'[a].state == Active && a != b
    ensures !Rival(cfg, slots', k, b, slots'[a].image)
  {
    var slots := s.slots;
    assert cfg.keys[k].ops.Contract();
    assert Akin(cfg, pc, a, slots[a], slots'[a]);
    RivalFrom(cfg, pc, slots, slots', k, b, slots'[a].image);
    if Shown(pc, b, k) {
      ShownCleared(cfg, pc, b, k);
      var rec := ProbeOf(pc).value.rec;
      assert NoRival(cfg, slots, ProbeOf(pc).value, k);
      assert !Rival(cfg, slots, k, a, rec) && !Shown(pc, a, k);
      SameHomes(cfg, k, rec, slots'[a].image);
      assert cfg.Same(k, rec, slots'[a].image) ==> cfg.Same(k, slots[a].image, rec);
    } else if Shown(pc, a, k) {
      ShownCleared(cfg, pc, a, k);
      assert NoRival(cfg, slots, ProbeOf(pc).value, k);
    } else {
      assert !Rival(cfg, slots, k, b, slots[a].image);
    }
  }

  lemma LookIsLocked(cfg: Config, s: World, u: Tid)
    requires Inv(cfg, s) && u in s.th && LookOf(s.th[u].pc).Some?
    ensures ProbeOf(s.th[u].pc).Some?
    ensures var k := LookOf(s.th[u].pc).value.k;
            k < |cfg.keys| && Owns(s.owner, Bucket(k, cfg.Home(k, ProbeOf(s.th[u].pc).value.rec)), u)
  {
    var pc := s.th[u].pc;
    if pc.Updating? {
      assert LookOf(pc).value.k in pc.u.ks;
      UpdateHoldsBucket(cfg, s, u, LookOf(pc).value.k);
    } else {
      HoldsItsLocks(cfg, s, u);
      hide Inv, HomesOf, KeyOps.Contract;
    }
  }

  lemma NotShown(cfg: Config, s: World, t: Tid, s': World, u: Tid, k: nat, j: nat)
    requires Inv(cfg, s) && NoOverlap(cfg, s) && t in s.th && u in s.th && t != u && k < |cfg.keys|
    requires Kin(cfg, s.th[t].pc, s.slots, s'.slots) && Involves(s.th[u].pc, k)
    ensures Rival(cfg, s'.slots, k, j, ProbeOf(s.th[u].pc).value.rec) ==>
              Rival(cfg, s.slots, k, j, ProbeOf(s.th[u].pc).value.rec)
  {
    var pc, rec := s.th[t].pc, ProbeOf(s.th[u].pc).value.rec;
    assert cfg.Valid();
    RivalFrom(cfg, pc, s.slots, s'.slots, k, j, rec);
    if Shown(pc, j, k) {
      ShownCleared(cfg, pc, j, k);
      SameHomes(cfg, k, ProbeOf(pc).value.rec, rec);
      hide Inv, Kin;
      if cfg.Checked(k, ProbeOf(pc).value.rec) {
        NoConflict(cfg, s, t, u, k);
      }
    }
  }

  lemma LookStays(cfg: Config, s: World, t: Tid, s': World, u: Tid)
    requires Inv(cfg, s) && NoOverlap(cfg, s) && Sized(cfg, s') && t in s.th && u in s.th && t != u
    requires Kin(cfg, s.th[t].pc, s.slots, s'.slots) && Untouched(cfg, s, s', u)
    requires ProbeOf(s.th[u].pc).Some? && LookOf(s.th[u].pc).Some? && LookOf(s.th[u].pc).value.k < |cfg.keys|
    requires AllAhead(cfg, s, ProbeOf(s.th[u].pc).value, LookOf(s.th[u].pc).value)
    ensures AllAhead(cfg, s', ProbeOf(s.th[u].pc).value, LookOf(s.th[u].pc).value)
  {
    var p, l := ProbeOf(s.th[u].pc).value, LookOf(s.th[u].pc).value;
    LookIsLocked(cfg, s, u);
    assert s'.ch[l.k][cfg.Home(l.k, p.rec)] == s.ch[l.k][cfg.Home(l.k, p.rec)];
    hide Inv, Kin, Rival, Ahead, NoOverlap, Untouched, Owns;
    forall j: nat | j != p.self && Rival(cfg, s'.slots, l.k, j, p.rec) ensures Rival(cfg, s.slots, l.k, j, p.rec) {
      NotShown(cfg, s, t, s', u, l.k, j);
    }
  }

  /** What a thread has made sure of survives the steps of the others. */
  lemma OthersPending(cfg: Config, s: World, t: Tid, s': World, u: Tid)
    requires Inv(cfg, s) && NoOverlap(cfg, s) && Sized(cfg, s') && t in s.th && u in s.th && t != u
    requires Kin(cfg, s.th[t].pc, s.slots, s'.slots) && Untouched(cfg, s, s', u) && Pending(cfg, s, s.th[u].pc)
    ensures Pending(cfg, s', s.th[u].pc)
  {
    hide Inv, Kin, NoOverlap, Cleared, ProbeOf, LookOf, Untouched, AllAhead, Rival, Sized;
    var pc := s.th[u].pc;
    if ProbeOf(pc).Some? {
      var p := ProbeOf(pc).value;
      forall k: nat, j: nat | Cleared(pc, k) && k < |cfg.keys| && j != p.self && Rival(cfg, s'.slots, k, j, p.rec)
        ensures Rival(cfg, s.slots, k, j, p.rec)
      {
        NotShown(cfg, s, t, s', u, k, j);
      }
      if LookOf(pc).Some? {
        LookStays(cfg, s, t, s', u);
      }
    }
  }

  // ----- a look through a bucket ----------------------------------------------------------

  /** A visible row in a thread's hands is in the middle of an update; under every key
      it is in the bucket of its image, or the thread holds that bucket. */
  lemma VisibleInHand(cfg: Config, s: World, v: Tid, k: nat, j: nat)
    requires Sized(cfg, s) && v in s.th && ThreadOk(cfg, s, v) && k < |cfg.keys|
    requires j < |s.slots| && s.slots[j].state == Active
    requires var f := FactsOf(cfg, s.th[v]); f.cust.Some? && f.cust.value.i == j
    ensures s.th[v].pc.Moving? && s.slots[j].image == s.th[v].pc.u.now
    ensures k !in s.th[v].pc.u.ks ==> In(s, k, cfg.Home(k, s.slots[j].image), j)
  {
    hide FactsOf, KeyOps.Contract, Upd.Valid, Fits;
    var c := FactsOf(cfg, s.th[v]).cust.value;
    assert CustHolds(cfg, s, v, c);
    VisibleMoves(cfg, s.th[v], k);
  }

  /** Only an update has a visible row in hand. */
  lemma VisibleMoves(cfg: Config, th: Thread, k: nat)
    requires cfg.nbuckets > 0 && k < |cfg.keys| && FactsOf(cfg, th).cust.Some? && FactsOf(cfg, th).cust.value.visible
    ensures var c := FactsOf(cfg, th).cust.value;
            && th.pc.Moving? && c.image == Some(th.pc.u.now) && |c.home| == |cfg.keys|
            && (k !in th.pc.u.ks ==> c.home[k] == Some(cfg.Home(k, th.pc.u.now)))
  {
    hide FirstLocks, HomesOf, KeyOps.Contract;
  }

  /** Nobody but t holds bucket b of key k. */
  ghost predicate NoOther(s: World, k: nat, b: nat, t: Tid) {
    forall v :: Owns(s.owner, Bucket(k, b), v) ==> v == t
  }

  /** Every rival of rec is in the bucket of rec, unless another thread holds it. */
  lemma RivalHome(cfg: Config, s: World, t: Tid, k: nat, j: nat, rec: Bytes)
    requires Inv(cfg, s) && t in s.th && !s.th[t].pc.Moving? && k < |cfg.keys| && Rival(cfg, s.slots, k, j, rec)
    requires NoOther(s, k, cfg.Home(k, rec), t)
    ensures j in s.ch[k][cfg.Home(k, rec)]
  {
    SameHome(cfg, k, s.slots[j].image, rec);
    if j in s.cust {
      var v := s.cust[j];
      assert ThreadOk(cfg, s, v);
      VisibleInHand(cfg, s, v, k, j);
      hide Indexed, FreeOk, Settled, History, ThreadOk, CustodyOk;
      if k in s.th[v].pc.u.ks {
        UpdateHoldsBucket(cfg, s, v, k);
      }
    } else {
      hide CustodyOk, History, Indexed;
      assert Everywhere(cfg, s, j, s.slots[j].image);
      assert In(s, k, cfg.Home(k, s.slots[j].image), j);
    }
  }

  /** A look starts with everything ahead ... */
  lemma LookStarts(cfg: Config, s: World, t: Tid, k: nat, p: Probe)
    requires Inv(cfg, s) && t in s.th && !s.th[t].pc.Moving? && k < |cfg.keys| && NoOther(s, k, cfg.Home(k, p.rec), t)
    ensures AllAhead(cfg, s, p, Look(k, s.head[k][cfg.Home(k, p.rec)]))
  {
    var b := cfg.Home(k, p.rec);
    assert Represents(s.head[k], s.next[k], s.ch[k]);
    assert Spells(s.head[k][b], s.next[k], s.ch[k][b]);
    hide Represents, CustodyOk, ThreadOk, History, Settled, FreeOk;
    forall j: nat | Rival(cfg, s.slots, k, j, p.rec) ensures Ahead(s.ch[k][b], s.head[k][b], j) {
      RivalHome(cfg, s, t, k, j, p.rec);
      var q :| 0 <= q < |s.ch[k][b]| && s.ch[k][b][q] == j;
      assert s.ch[k][b][0] == s.head[k][b];
    }
  }

  lemma AheadNext(head: int, next: seq<int>, c: seq<nat>, cur: nat, j: nat)
    requires Spells(head, next, c) && Distinct(c) && Ahead(c, cur, j) && j != cur
    ensures cur < |next| && Ahead(c, next[cur], j)
  {
    var p, q :| 0 <= p <= q < |c| && c[p] == cur && c[q] == j;
    assert next[c[p]] == At(c, p + 1) == c[p + 1];
  }

  /** ... passes a row that does not clash ... */
  lemma LookGoesOn(cfg: Config, s: World, k: nat, p: Probe, cur: nat)
    requires Inv(cfg, s) && k < |cfg.keys| && cfg.Checked(k, p.rec) && cur < |s.slots| && !Clash(cfg, s, k, cur, p.rec)
    requires AllAhead(cfg, s, p, Look(k, cur))
    ensures AllAhead(cfg, s, p, Look(k, s.next[k][cur]))
  {
    var b := cfg.Home(k, p.rec);
    assert Represents(s.head[k], s.next[k], s.ch[k]);
    hide CustodyOk, ThreadOk, History, Settled, FreeOk;
    forall j: nat | j != p.self && Rival(cfg, s.slots, k, j, p.rec) ensures Ahead(s.ch[k][b], s.next[k][cur], j) {
      AheadNext(s.head[k][b], s.next[k], s.ch[k][b], cur, j);
    }
  }

  /** ... and ends with nothing left. */
  lemma LookEnds(cfg: Config, s: World, k: nat, p: Probe)
    requires Sized(cfg, s) && k < |cfg.keys| && AllAhead(cfg, s, p, Look(k, NIL))
    ensures NoRival(cfg, s.slots, p, k)
  {
    forall j: nat | j != p.self ensures !Rival(cfg, s.slots, k, j, p.rec) {
      assert !Ahead(s.ch[k][cfg.Home(k, p.rec)], NIL, j);
    }
  }

  lemma UncheckedClear(cfg: Config, slots: seq<Slot>, p: Probe, k: nat)
    requires k < |cfg.keys| && !cfg.Checked(k, p.rec)
    ensures NoRival(cfg, slots, p, k)
  {
  }

  // ----- the stepping thread ---------------------------------------------------------------

  ghost predicate PendingAfter(cfg: Config, t: Tid, o: Option<World>) {
    o.Some? && Sized(cfg, o.value) && t in o.value.th ==> Pending(cfg, o.value, o.value.th[t].pc)
  }

  /** No lock, so nobody's. */
  lemma FreeBucket(cfg: Config, s: World, t: Tid, k: nat, b: nat)
    requires Bucket(k, b) !in s.owner
    ensures NoOther(s, k, b, t)
  {
  }

  lemma KeyPending(cfg: Config, s: World, t: Tid, rec: Bytes, i: nat, k: nat)
    requires Inv(cfg, s) && Runs(cfg, s, t) && s.th[t].pc == Inserting(rec, InsKey(i, k)) && Pending(cfg, s, s.th[t].pc)
    ensures PendingAfter(cfg, t, ExecInsert(cfg, s, t, rec, InsKey(i, k)))
  {
    hide Inv, KeyOps.Contract, Rival, NoRival, NoOther, Ahead;
    if k < |cfg.keys| && Bucket(k, cfg.Home(k, rec)) !in s.owner {
      FreeBucket(cfg, s, t, k, cfg.Home(k, rec));
      LookStarts(cfg, s, t, k, Probe(i, rec));
      if !cfg.Checked(k, rec) {
        UncheckedClear(cfg, s.slots, Probe(i, rec), k);
      }
    }
    var o := ExecInsert(cfg, s, t, rec, InsKey(i, k));
    if o.Some? {
      forall m: nat | Cleared(o.value.th[t].pc, m) ensures NoRival(cfg, s.slots, Probe(i, rec), m) {
        assert m < k ==> Cleared(s.th[t].pc, m);
        if m >= |cfg.keys| { Beyond(cfg, s.slots, Probe(i, rec), m); }
      }
    }
  }

  lemma Beyond(cfg: Config, slots: seq<Slot>, p: Probe, k: nat)
    requires k >= |cfg.keys|
    ensures NoRival(cfg, slots, p, k)
  {
  }

  lemma DupPending(cfg: Config, s: World, t: Tid, rec: Bytes, i: nat, k: nat, cur: int)
    requires Inv(cfg, s) && Runs(cfg, s, t) && s.th[t].pc == Inserting(rec, InsDup(i, k, cur))
             && Pending(cfg, s, s.th[t].pc)
    ensures PendingAfter(cfg, t, ExecInsert(cfg, s, t, rec, InsDup(i, k, cur)))
  {
    hide Inv, KeyOps.Contract, Rival, NoRival, Ahead;
    if cur == NIL {
      LookEnds(cfg, s, k, Probe(i, rec));
    } else if !Clash(cfg, s, k, cur, rec) {
      LookGoesOn(cfg, s, k, Probe(i, rec), cur);
    }
    var o := ExecInsert(cfg, s, t, rec, InsDup(i, k, cur));
    if o.Some? {
      forall m: nat | Cleared(o.value.th[t].pc, m) ensures NoRival(cfg, s.slots, Probe(i, rec), m) {
        assert m < k ==> Cleared(s.th[t].pc, m);
      }
    }
  }

  lemma RestPending(cfg: Config, s: World, t: Tid, rec: Bytes, p: InsPc)
    requires Runs(cfg, s, t) && s.th[t].pc == Inserting(rec, p) && !p.InsKey? && !p.InsDup?
             && Pending(cfg, s, s.th[t].pc)
    ensures PendingAfter(cfg, t, ExecInsert(cfg, s, t, rec, p))
  {
    hide NoRival, AllAhead, Config.Valid, LinkIn, Config.Checked, Config.Same;
    var o := ExecInsert(cfg, s, t, rec, p);
    if o.Some? && ProbeOf(s.th[t].pc).Some? {
      forall k: nat | Cleared(o.value.th[t].pc, k) ensures NoRival(cfg, s.slots, ProbeOf(s.th[t].pc).value, k) {
        assert Cleared(s.th[t].pc, k);
      }
    }
  }

  lemma UpDupPending(cfg: Config, s: World, t: Tid, u: Upd, j: nat)
    requires Inv(cfg, s) && Runs(cfg, s, t) && s.th[t].pc == Updating(u, UpDup(j)) && Pending(cfg, s, s.th[t].pc)
    ensures PendingAfter(cfg, t, ExecUpdate(cfg, s, t, u, UpDup(j)))
  {
    hide Inv, KeyOps.Contract, Rival, NoRival, NoOther, Ahead, Upd.Valid;
    if j < |u.ks| {
      HoldsItAlone(cfg, s, t, u.ks[j]);
      LookStarts(cfg, s, t, u.ks[j], Probe(u.i, u.now));
    }
    if j < |u.ks| && !cfg.Checked(u.ks[j], u.now) {
      UncheckedClear(cfg, s.slots, Probe(u.i, u.now), u.ks[j]);
    }
    var o := ExecUpdate(cfg, s, t, u, UpDup(j));
    if o.Some? {
      forall k: nat | Cleared(o.value.th[t].pc, k) ensures NoRival(cfg, s.slots, Probe(u.i, u.now), k) {
        assert Among(u.ks, j, k) || (j < |u.ks| && k == u.ks[j]);
        assert Among(u.ks, j, k) ==> Cleared(s.th[t].pc, k);
      }
    }
  }

  lemma HoldsItAlone(cfg: Config, s: World, t: Tid, k: nat)
    requires Inv(cfg, s) && t in s.th && s.th[t].pc.Updating? && ProbeOf(s.th[t].pc).Some? && k in s.th[t].pc.u.ks
    ensures k < |cfg.keys| && NoOther(s, k, cfg.Home(k, s.th[t].pc.u.now), t)
  {
    hide Inv;
    UpdateHoldsBucket(cfg, s, t, k);
  }

  lemma WalkPending(cfg: Config, s: World, t: Tid, u: Upd, j: nat, cur: int)
    requires Inv(cfg, s) && Runs(cfg, s, t) && s.th[t].pc == Updating(u, UpDupWalk(j, cur))
             && Pending(cfg, s, s.th[t].pc)
    ensures PendingAfter(cfg, t, ExecUpdate(cfg, s, t, u, UpDupWalk(j, cur)))
  {
    hide Inv, KeyOps.Contract, Rival, NoRival, Ahead, Upd.Valid;
    if cur == NIL {
      LookEnds(cfg, s, u.ks[j], Probe(u.i, u.now));
    } else if !Clash(cfg, s, u.ks[j], cur, u.now) {
      LookGoesOn(cfg, s, u.ks[j], Probe(u.i, u.now), cur);
    }
    var o := ExecUpdate(cfg, s, t, u, UpDupWalk(j, cur));
    if o.Some? {
      forall k: nat | Cleared(o.value.th[t].pc, k) ensures NoRival(cfg, s.slots, Probe(u.i, u.now), k) {
        assert Among(u.ks, j, k) || (j < |u.ks| && k == u.ks[j]);
        assert Among(u.ks, j, k) ==> Cleared(s.th[t].pc, k);
      }
    }
  }

  lemma UpRestPending(cfg: Config, s: World, t: Tid, u: Upd, p: UpPc)
    requires Runs(cfg, s, t) && s.th[t].pc == Updating(u, p) && !p.UpDup? && !p.UpDupWalk?
    ensures PendingAfter(cfg, t, ExecUpdate(cfg, s, t, u, p))
  {
    hide NoRival, KeyOps.Contract, Upd.Valid;
  }

  /** No other step starts a look. */
  ghost predicate Lookless(t: Tid, o: Option<World>) {
    o.Some? ==> t in o.value.th && ProbeOf(o.value.th[t].pc).None?
  }

  lemma NoLookUndo(cfg: Config, s: World, t: Tid, rec: Bytes, i: nat, o: UndoPc)
    requires Runs(cfg, s, t) && s.th[t].pc == Undoing(rec, i, o)
    ensures Lookless(t, ExecUndo(cfg, s, t, rec, i, o))
  {
    hide KeyOps.Contract, UnlinkFrom, Cut;
  }

  lemma NoLookMove(cfg: Config, s: World, t: Tid, u: Upd, j: nat, m: MovePc)
    requires Runs(cfg, s, t) && s.th[t].pc == Moving(u, j, m)
    ensures Lookless(t, ExecMove(cfg, s, t, u, j, m))
  {
    hide Upd.Valid, KeyOps.Contract, UnlinkFrom, LinkIn, Cut;
  }

  lemma NoLookDelete(cfg: Config, s: World, t: Tid, i: nat, rec: Bytes, d: DelPc)
    requires Runs(cfg, s, t) && s.th[t].pc == Removing(i, rec, d)
    ensures Lookless(t, ExecDelete(cfg, s, t, i, rec, d))
  {
    hide KeyOps.Contract, UnlinkFrom, Cut;
  }

  lemma NoLook(cfg: Config, s: World, t: Tid)
    requires Runs(cfg, s, t) && !s.th[t].pc.Inserting? && !s.th[t].pc.Updating?
    ensures Lookless(t, Exec(cfg, s, t))
  {
    hide Upd.Valid, KeyOps.Contract, ExecUndo, ExecMove, ExecDelete, Changed, Locks;
    match s.th[t].pc {
      case Undoing(rec, i, o) => NoLookUndo(cfg, s, t, rec, i, o);
      case Moving(u, j, m) => NoLookMove(cfg, s, t, u, j, m);
      case Removing(i, rec, d) => NoLookDelete(cfg, s, t, i, rec, d);
      case _ =>
    }
  }

  lemma IdlePending(cfg: Config, s: World, t: Tid)
    requires Runs(cfg, s, t) && !s.th[t].pc.Inserting? && !s.th[t].pc.Updating?
    ensures PendingAfter(cfg, t, Exec(cfg, s, t))
  {
    hide Exec;
    NoLook(cfg, s, t);
  }

  lemma BeginPending(cfg: Config, s: World, t: Tid, call: Call)
    requires Runs(cfg, s, t) && s.th[t].pc.Idle?
    ensures PendingAfter(cfg, t, Begin(cfg, s, t, call))
  {
    hide KeyOps.Contract, NoRival, AllAhead;
  }

  lemma OwnPending(cfg: Config, s: World, t: Tid, s': World)
    requires Inv(cfg, s) && Step(cfg, s, t, s') && Sized(cfg, s') && t in s'.th && Pending(cfg, s, s.th[t].pc)
    ensures Pending(cfg, s', s'.th[t].pc)
  {
    hide Inv, Sized, NoRival, AllAhead, ExecInsert, ExecUpdate, Begin;
    var pc := s.th[t].pc;
    if Grow(s, t) == Some(s') {
      assert ProbeOf(pc).None?;
    } else if pc.Inserting? {
      if pc.n.InsKey? {
        KeyPending(cfg, s, t, pc.rec, pc.n.i, pc.n.k);
      } else if pc.n.InsDup? {
        DupPending(cfg, s, t, pc.rec, pc.n.i, pc.n.k, pc.n.cur);
      } else {
        RestPending(cfg, s, t, pc.rec, pc.n);
      }
    } else if pc.Updating? {
      if pc.p.UpDup? {
        UpDupPending(cfg, s, t, pc.u, pc.p.j);
      } else if pc.p.UpDupWalk? {
        WalkPending(cfg, s, t, pc.u, pc.p.j, pc.p.cur);
      } else {
        UpRestPending(cfg, s, t, pc.u, pc.p);
      }
    } else {
      IdlePending(cfg, s, t);
      if pc.Idle? {
        forall call ensures PendingAfter(cfg, t, Begin(cfg, s, t, call)) {
          BeginPending(cfg, s, t, call);
        }
      }
      hide Exec;
    }
  }

  lemma StepUnique(cfg: Config, s: World, t: Tid, s': World)
    requires Inv(cfg, s) && NoOverlap(cfg, s) && Step(cfg, s, t, s') && Good(cfg, s, t, s') && AllUnique(cfg, s)
    ensures AllUnique(cfg, s')
  {
    hide Exec, Begin, Uniq, Pending, Untouched, Kin, NoOverlap;
    assert t in s.th && Sized(cfg, s');
    hide Step, Inv;
    StepKin(cfg, s, t, s');
    StaysUniq(cfg, s, s.th[t].pc, s'.slots);
    OwnPending(cfg, s, t, s');
    forall u | u in s'.th ensures Pending(cfg, s', s'.th[u].pc) {
      if u != t {
        OthersPending(cfg, s, t, s', u);
      }
    }
  }

  /** Over every run in which no insert and update for equal keys overlap, no two
      visible rows without NULL parts are equal under a unique key: of any two
      inserts, or any two updates, that race for a key, at most one wins. */
  lemma {:induction false} UniqueRows(cfg: Config, run: seq<World>, who: seq<Tid>, n: nat)
    requires IsRun(cfg, run, who) && n < |run| && forall m :: 0 <= m < n ==> NoOverlap(cfg, run[m])
    ensures AllUnique(cfg, run[n])
  {
    hide Inv, Step, AllUnique, Init, NoOverlap, Good;
    if n > 0 {
      UniqueRows(cfg, run, who, n - 1);
      RunInv(cfg, run, who, n - 1);
      assert Step(cfg, run[n - 1], who[n - 1], run[n - 1 + 1]);
      hide IsRun;
      StepIsGood(cfg, run[n - 1], who[n - 1], run[n]);
      StepUnique(cfg, run[n - 1], who[n - 1], run[n]);
    } else {
      InitUnique(cfg, run[0]);
    }
  }

  lemma InitUnique(cfg: Config, s: World)
    requires Init(cfg, s)
    ensures AllUnique(cfg, s)
  {
  }

  // ----- the overlap decides ------------------------------------------------------------------

  /** An update about to write and an insert about to publish. */
  ghost predicate Poised(s: World, t: Tid, u: Tid) {
    && t in s.th && u in s.th && s.th[t].pc.Inserting? && s.th[t].pc.n.InsPublish?
    && s.th[u].pc.Updating? && s.th[u].pc.p.UpWrite?
  }

  lemma WriteCommits(cfg: Config, s: World, u: Tid) returns (s1: World)
    requires Runs(cfg, s, u) && s.th[u].pc.Updating? && s.th[u].pc.p.UpWrite?
    ensures Step(cfg, s, u, s1)
    ensures s1.slots == s.slots[s.th[u].pc.u.i := s.slots[s.th[u].pc.u.i].(image := s.th[u].pc.u.now)]
  {
    hide KeyOps.Contract, Upd.Valid;
    s1 := Exec(cfg, s, u).value;
  }

  lemma PublishCommits(cfg: Config, s: World, t: Tid) returns (s1: World)
    requires Runs(cfg, s, t) && s.th[t].pc.Inserting? && s.th[t].pc.n.InsPublish?
    ensures Step(cfg, s, t, s1)
    ensures s1.slots == s.slots[s.th[t].pc.n.i := s.slots[s.th[t].pc.n.i].(state := Active)]
  {
    hide KeyOps.Contract;
    s1 := Exec(cfg, s, t).value;
  }

  /** With both poised, committing both keeps the rows unique if and only if their
      keys do not overlap. */
  lemma OverlapDecides(cfg: Config, s: World, t: Tid, u: Tid) returns (s1: World, s2: World)
    requires Inv(cfg, s) && AllUnique(cfg, s) && Poised(s, t, u)
    ensures Step(cfg, s, u, s1) && Step(cfg, s1, t, s2)
    ensures Uniq(cfg, s2.slots) <==> forall k: nat :: k < |cfg.keys| ==> !Overlap(cfg, s.th[t].pc, s.th[u].pc, k)
  {
    hide Inv, Step, Kin, Untouched, KeyOps.Contract, Uniq;
    Knowing(cfg, s, u);
    DifferentSlots(cfg, s, t, u);
    s1 := WriteCommits(cfg, s, u);
    StepIsGood(cfg, s, u, s1);
    Knowing(cfg, s1, t);
    s2 := PublishCommits(cfg, s1, t);
    StepKin(cfg, s, u, s1);
    StepKin(cfg, s1, t, s2);
    StaysUniq(cfg, s, s.th[u].pc, s1.slots);
    CommitsDecide(cfg, s, s1, s2.slots, s.th[t].pc, s.th[u].pc);
  }

  lemma CommitsDecide(cfg: Config, s: World, s1: World, slots': seq<Slot>, a: Pc, b: Pc)
    requires Sized(cfg, s) && Sized(cfg, s1) && Pending(cfg, s, a) && Uniq(cfg, s1.slots)
    requires a.Inserting? && a.n.InsPublish? && b.Updating? && b.p.UpWrite? && a.n.i != b.u.i
    requires a.n.i < |s.slots| && s.slots[a.n.i].image == a.rec && b.u.i < |s.slots| && s.slots[b.u.i].state == Active
    requires s1.slots == s.slots[b.u.i := s.slots[b.u.i].(image := b.u.now)]
    requires slots' == s1.slots[a.n.i := s1.slots[a.n.i].(state := Active)]
    requires Kin(cfg, b, s.slots, s1.slots) && Kin(cfg, a, s1.slots, slots')
    ensures Uniq(cfg, slots') <==> forall k: nat :: k < |cfg.keys| ==> !Overlap(cfg, a, b, k)
  {
    if forall k: nat :: k < |cfg.keys| ==> !Overlap(cfg, a, b, k) {
      WriteLeavesClear(cfg, s, s1, a, b);
      StaysUniq(cfg, s1, a, slots');
    } else {
      var k: nat :| k < |cfg.keys| && Overlap(cfg, a, b, k);
      SameHomes(cfg, k, a.rec, b.u.now);
      assert Rival(cfg, slots', k, b.u.i, slots'[a.n.i].image);
    }
  }

  lemma DifferentSlots(cfg: Config, s: World, t: Tid, u: Tid)
    requires Inv(cfg, s) && Poised(s, t, u)
    ensures s.th[t].pc.n.i != s.th[u].pc.u.i && s.th[t].pc.n.i < |s.slots|
            && s.slots[s.th[t].pc.n.i].image == s.th[t].pc.rec
    ensures s.th[u].pc.u.i < |s.slots| && s.slots[s.th[u].pc.u.i].state == Active
  {
    Knowing(cfg, s, t);
    Knowing(cfg, s, u);
    hide Indexed, FreeOk, Settled, History, CustodyOk;
    assert ThreadOk(cfg, s, t);
    hide HomesOf, KeyOps.Contract, Upd.Valid;
  }

  /** Without overlap the update's write is no rival of the insert. */
  lemma WriteLeavesClear(cfg: Config, s: World, s1: World, a: Pc, b: Pc)
    requires Sized(cfg, s) && Sized(cfg, s1) && a.Inserting? && a.n.InsPublish? && b.Updating? && b.p.UpWrite?
    requires Pending(cfg, s, a) && Kin(cfg, b, s.slots, s1.slots)
             && forall k: nat :: k < |cfg.keys| ==> !Overlap(cfg, a, b, k)
    ensures Pending(cfg, s1, a)
  {
    var p := ProbeOf(a).value;
    forall k: nat, j: nat | k < |cfg.keys| && j != p.self ensures !Rival(cfg, s1.slots, k, j, p.rec) {
      assert Cleared(a, k);
      assert NoRival(cfg, s.slots, p, k);
      RivalFrom(cfg, b, s.slots, s1.slots, k, j, p.rec);
      if Shown(b, j, k) {
        ShownCleared(cfg, b, j, k);
        SameHomes(cfg, k, b.u.now, p.rec);
        SameHomes(cfg, k, p.rec, b.u.now);
        assert !Overlap(cfg, a, b, k);
      }
    }
  }
}
