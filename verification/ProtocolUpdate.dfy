/** The steps of a locked update preserve the invariant. */
module ProtocolUpdate {
  import opened Keys
  import opened Slots
  import opened Chain
  import opened LockOrder
  import opened LockSet
  import opened Protocol
  import opened ProtocolInvariant
  import opened ProtocolEffects
  import opened ProtocolSteps

  lemma KeepsRcState(cfg: Config, s: World, t: Tid, i: nat, g: nat, was: Bytes, job: Job)
    requires Running(cfg, s, t) && s.th[t].pc == Checking(i, g, was, job, RcState) && i < |s.slots|
    ensures Good(cfg, s, t, Go(s, t, Locking(Unrow)))
    ensures s.slots[i].state == Active ==> Good(cfg, s, t, Go(s, t, Checking(i, g, was, job, RcGen)))
  {
    hide Good, Inv, KeyOps.Contract;
    var th := s.th[t];
    LocalStep(cfg, s, t, th.(pc := Locking(Unrow)));
    if s.slots[i].state == Active {
      LocalStep(cfg, s, t, th.(pc := Checking(i, g, was, job, RcGen)));
    }
  }

  lemma KeepsRcGen(cfg: Config, s: World, t: Tid, i: nat, g: nat, was: Bytes, job: Job)
    requires Running(cfg, s, t) && s.th[t].pc == Checking(i, g, was, job, RcGen) && i < |s.slots|
    ensures Good(cfg, s, t, Go(s, t, Locking(Unrow)))
    ensures s.slots[i].Gen() == g ==> Good(cfg, s, t, Go(s, t, Checking(i, g, was, job, RcImage)))
  {
    hide Good, Inv, KeyOps.Contract;
    var th := s.th[t];
    LocalStep(cfg, s, t, th.(pc := Locking(Unrow)));
    if s.slots[i].Gen() == g {
      LocalStep(cfg, s, t, th.(pc := Checking(i, g, was, job, RcImage)));
    }
  }

  lemma KeepsRcImage(cfg: Config, s: World, t: Tid, i: nat, g: nat, was: Bytes, job: Job)
    requires Running(cfg, s, t) && s.th[t].pc == Checking(i, g, was, job, RcImage) && i < |s.slots|
    ensures Good(cfg, s, t, Go(s, t, Locking(Unrow)))
    ensures s.slots[i].image == was ==> Good(cfg, s, t, Go(s, t, Checking(i, g, was, job, Ready)))
  {
    hide Good, Inv, KeyOps.Contract;
    var th := s.th[t];
    LocalStep(cfg, s, t, th.(pc := Locking(Unrow)));
    if s.slots[i].image == was {
      LocalStep(cfg, s, t, th.(pc := Checking(i, g, was, job, Ready)));
    }
  }

  /** A job that starts from the image read under the lock is never refused. */
  lemma KeepsReady(cfg: Config, s: World, t: Tid, i: nat, g: nat, was: Bytes, job: Job)
    requires Running(cfg, s, t) && s.th[t].pc == Checking(i, g, was, job, Ready) && i < |s.slots|
    ensures s.slots[i].Accepts(g)
    ensures job.Put? ==> Good(cfg, s, t, Go(s, t, Start(cfg, i, was, job.now)))
  {
    hide Good, Inv, KeyOps.Contract, Changed, Locks, Upd.Valid, FirstLocks;
    var th := s.th[t];
    if job.Put? {
      StartValid(cfg, i, was, job.now);
      var u := Upd(i, was, job.now, Changed(cfg, was, job.now), Locks(cfg, was, job.now));
      FirstLocksNone(u);
      if u.ks == [] {
        LocalStep(cfg, s, t, th.(pc := Updating(u, UpFast)));
      } else {
        LocalStep(cfg, s, t, th.(pc := Updating(u, UpLock(0))));
      }
    }
  }

  lemma KeepsReadyErase(cfg: Config, s: World, t: Tid, i: nat, g: nat, was: Bytes, job: Job)
    requires Running(cfg, s, t) && s.th[t].pc == Checking(i, g, was, job, Ready) && i < |s.slots|
    ensures Good(cfg, s, t, Go(Mark(s, t, i), t, Removing(i, s.slots[i].image, DelMark)))
  {
    hide Good, Inv, KeyOps.Contract;
    var th := s.th[t];
    RowIsSettled(cfg, s, t, i);
    EverywhereSame(cfg, s, Mark(s, t, i), i, was);
    EverywhereHome(cfg, Mark(s, t, i), i, was);
    hide HomesOf, Everywhere, AtHome;
    MarkStep(cfg, s, t, i, th.(pc := Removing(i, was, DelMark)));
  }

  lemma KeepsUpFast(cfg: Config, s: World, t: Tid, u: Upd)
    requires Running(cfg, s, t) && s.th[t].pc == Updating(u, UpFast)
    ensures Good(cfg, s, t, Go(Rewrite(s, u.i, u.was, u.now), t, Locking(Unrow)))
  {
    hide Good, Inv, KeyOps.Contract;
    var th := s.th[t];
    assert forall k :: 0 <= k < |cfg.keys| ==> cfg.Same(k, u.was, u.now);
    FirstLocksNone(u);
    hide Upd.Valid, FirstLocks;
    PlainWrite(cfg, s, t, u.i, u.was, u.now, th.(pc := Locking(Unrow)));
  }

  lemma KeepsUpLock(cfg: Config, s: World, t: Tid, u: Upd, n: nat)
    requires Running(cfg, s, t) && s.th[t].pc == Updating(u, UpLock(n))
    ensures n == |u.ls| ==> Good(cfg, s, t, Go(s, t, Updating(u, UpDup(0))))
    ensures n < |u.ls| && u.ls[n] !in s.owner ==>
              Good(cfg, s, t, Go(Take(s, t, u.ls[n]), t, Updating(u, UpLock(n + 1))))
  {
    hide Good, Inv, KeyOps.Contract;
    var th := s.th[t];
    if n == |u.ls| {
      hide FirstLocks, Upd.Valid;
      LocalStep(cfg, s, t, th.(pc := Updating(u, UpDup(0))));
    } else if u.ls[n] !in s.owner {
      FirstLocksGrow(u, n);
      hide FirstLocks, Upd.Valid;
      TakeStep(cfg, s, t, u.ls[n], th.(pc := Updating(u, UpLock(n + 1))));
    }
  }

  lemma KeepsUpDup(cfg: Config, s: World, t: Tid, u: Upd, j: nat)
    requires Running(cfg, s, t) && s.th[t].pc == Updating(u, UpDup(j))
    ensures j == |u.ks| ==> Good(cfg, s, t, Go(s, t, Updating(u, UpWrite)))
    ensures j < |u.ks| ==> Good(cfg, s, t, Go(s, t, Updating(u, UpDup(j + 1))))
  {
    hide Good, Inv, KeyOps.Contract;
    var th := s.th[t];
    hide FirstLocks, Upd.Valid;
    if j == |u.ks| {
      LocalStep(cfg, s, t, th.(pc := Updating(u, UpWrite)));
    } else {
      LocalStep(cfg, s, t, th.(pc := Updating(u, UpDup(j + 1))));
    }
  }

  lemma KeepsUpDupChecked(cfg: Config, s: World, t: Tid, u: Upd, j: nat)
    requires Running(cfg, s, t) && s.th[t].pc == Updating(u, UpDup(j))
    requires j < |u.ks|
    ensures Good(cfg, s, t, Go(s, t, Updating(u, UpDupWalk(j, s.head[u.ks[j]][cfg.Home(u.ks[j], u.now)]))))
  {
    hide Good, Untouched, KeyOps.Contract, Represents, CustodyOk, FreeOk, Settled, History;
    var th := s.th[t];
    CellsLead(cfg, s, u.ks[j], cfg.Home(u.ks[j], u.now), NIL);
    HoldsAll(cfg, u, u.ks[j]);
    hide Indexed, FirstLocks, Upd.Valid;
    LocalStep(cfg, s, t, th.(pc := Updating(u, UpDupWalk(j, s.head[u.ks[j]][cfg.Home(u.ks[j], u.now)]))));
  }

  lemma KeepsUpDupWalk(cfg: Config, s: World, t: Tid, u: Upd, j: nat, cur: int)
    requires Running(cfg, s, t) && s.th[t].pc == Updating(u, UpDupWalk(j, cur))
    ensures Good(cfg, s, t, Go(s, t, Updating(u, UpDup(j + 1))))
    ensures Good(cfg, s, t, Go(s, t, Updating(u, UpUnlock(|u.ls|))))
  {
    hide Good, Inv, KeyOps.Contract;
    var th := s.th[t];
    hide FirstLocks, Upd.Valid;
    LocalStep(cfg, s, t, th.(pc := Updating(u, UpDup(j + 1))));
    LocalStep(cfg, s, t, th.(pc := Updating(u, UpUnlock(|u.ls|))));
  }

  lemma KeepsUpDupWalkOn(cfg: Config, s: World, t: Tid, u: Upd, j: nat, cur: int)
    requires Running(cfg, s, t) && s.th[t].pc == Updating(u, UpDupWalk(j, cur))
    requires cur != NIL
    ensures Good(cfg, s, t, Go(s, t, Updating(u, UpDupWalk(j, s.next[u.ks[j]][cur]))))
  {
    hide Good, Untouched, KeyOps.Contract, Represents, CustodyOk, FreeOk, Settled, History;
    var th := s.th[t];
    CellsLead(cfg, s, u.ks[j], cfg.Home(u.ks[j], u.now), cur);
    HoldsAll(cfg, u, u.ks[j]);
    hide Indexed, FirstLocks, Upd.Valid;
    LocalStep(cfg, s, t, th.(pc := Updating(u, UpDupWalk(j, s.next[u.ks[j]][cur]))));
  }

  lemma KeepsUpUnlock(cfg: Config, s: World, t: Tid, u: Upd, n: nat)
    requires Running(cfg, s, t) && s.th[t].pc == Updating(u, UpUnlock(n))
    ensures n == 0 ==> Good(cfg, s, t, Go(s, t, Locking(Unrow)))
    ensures n > 0 ==> Good(cfg, s, t, Release(Go(s, t, Updating(u, UpUnlock(n - 1))), u.ls[n - 1]))
  {
    hide Good, Inv, KeyOps.Contract;
    var th := s.th[t];
    if n == 0 {
      FirstLocksNone(u);
      hide FirstLocks, Upd.Valid;
      LocalStep(cfg, s, t, th.(pc := Locking(Unrow)));
    } else {
      FirstLocksGrow(u, n - 1);
      assert u.ls[n - 1] in u.ls;
      hide FirstLocks, Upd.Valid;
      ReleaseStep(cfg, s, t, u.ls[n - 1], th.(pc := Updating(u, UpUnlock(n - 1))));
    }
  }

  lemma KeepsUpWrite(cfg: Config, s: World, t: Tid, u: Upd)
    requires Running(cfg, s, t) && s.th[t].pc == Updating(u, UpWrite)
    ensures Good(cfg, s, t, Go(Rewrite(s, u.i, u.was, u.now).(cust := s.cust[u.i := t]), t, Moving(u, 0, MoveKey)))
  {
    hide Good, Inv, KeyOps.Contract;
    var th := s.th[t];
    RowIsSettled(cfg, s, t, u.i);
    MidwayOpen(cfg, s, t, u);
    hide FirstLocks, HomesMidway, Upd.Valid, AtHome, Everywhere;
    OpeningWrite(cfg, s, t, u.i, u.was, u.now, th.(pc := Moving(u, 0, MoveKey)));
  }

  lemma KeepsMoveKey(cfg: Config, s: World, t: Tid, u: Upd, j: nat)
    requires Running(cfg, s, t) && s.th[t].pc == Moving(u, j, MoveKey)
    ensures j == |u.ks| ==> Good(cfg, s, t, Go(s.(cust := s.cust - {u.i}), t, Updating(u, UpUnlock(|u.ls|))))
  {
    hide Good, Inv, KeyOps.Contract;
    var th := s.th[t];
    if j == |u.ks| {
      MidwayEnd(cfg, s, u);
      hide FirstLocks, HomesMidway, Upd.Valid;
      SettleStep(cfg, s, t, u.i, th.(pc := Updating(u, UpUnlock(|u.ls|))));
    }
  }

  lemma KeepsMoveKeyOn(cfg: Config, s: World, t: Tid, u: Upd, j: nat)
    requires Running(cfg, s, t) && s.th[t].pc == Moving(u, j, MoveKey)
    requires j < |u.ks|
    ensures Good(cfg, s, t, Go(s, t, Moving(u, j, MoveUnlink(START))))
  {
    hide Good, Inv, KeyOps.Contract;
    var th := s.th[t];
    HoldsAll(cfg, u, u.ks[j]);
    hide FirstLocks, HomesMidway, Upd.Valid;
    LocalStep(cfg, s, t, th.(pc := Moving(u, j, MoveUnlink(START))));
  }

  lemma MoveUnlinkHolds(cfg: Config, s: World, t: Tid, u: Upd, j: nat, w: Walk)
    requires Running(cfg, s, t) && s.th[t].pc == Moving(u, j, MoveUnlink(w))
    ensures var f := WalkFact(u.ks[j], cfg.Home(u.ks[j], u.was), u.i, w);
            && Mine(s, t, u.i) && Owns(s.owner, Bucket(u.ks[j], f.b), t) && WalkHolds(s, f) && In(s, u.ks[j], f.b, u.i)
            && AtHome(cfg, s, u.i, HomesMidway(cfg, u, u.ks[j], false))
            && (Peek(s, u.ks[j], f.b, w) == u.i ==>
                 Sized(cfg, Cut(s, u.ks[j], cfg.Home(u.ks[j], u.was), u.i, w))
                     && Absent(Cut(s, u.ks[j], cfg.Home(u.ks[j], u.was), u.i, w).ch[u.ks[j]], u.i))
  {
    hide KeyOps.Contract, Represents, CustodyOk, FreeOk, Settled, History;
    var f := WalkFact(u.ks[j], cfg.Home(u.ks[j], u.was), u.i, w);
    HoldsAll(cfg, u, u.ks[j]);
    assert HomesMidway(cfg, u, u.ks[j], false)[u.ks[j]] == Some(f.b);
    assert In(s, u.ks[j], f.b, u.i);
    if Peek(s, u.ks[j], f.b, w) == u.i {
      WalkReads(cfg, s, f);
      CutChains(cfg, s, f);
    }
  }

  lemma MoveUnlinkNext(cfg: Config, s: World, t: Tid, u: Upd, j: nat, w: Walk)
    requires Running(cfg, s, t) && s.th[t].pc == Moving(u, j, MoveUnlink(w))
    requires Peek(s, u.ks[j], cfg.Home(u.ks[j], u.was), w) == u.i
    ensures var f, th := WalkFact(u.ks[j], cfg.Home(u.ks[j], u.was), u.i, w), s.th[t].(pc := Moving(u, j, MoveLink));
            && Sized(cfg, Cut(s, u.ks[j], cfg.Home(u.ks[j], u.was), u.i, w))
            && Next(cfg, s, Cut(s, u.ks[j], cfg.Home(u.ks[j], u.was), u.i, w), th, t)
            && SameLocks(cfg, s, t, th) && SameCustody(cfg, s, t, th)
  {
    hide Good, Inv, KeyOps.Contract, Remove;
    MoveUnlinkHolds(cfg, s, t, u, j, w);
    var f := WalkFact(u.ks[j], cfg.Home(u.ks[j], u.was), u.i, w);
    CutHome(cfg, s, Cut(s, u.ks[j], cfg.Home(u.ks[j], u.was), u.i, w), u.ks[j], u.i,
        HomesMidway(cfg, u, u.ks[j], false));
    MidwayShift(cfg, u, j);
    hide AtHome, Absent, WalkHolds, Cut, FirstLocks, HomesMidway, Upd.Valid;
  }

  lemma KeepsMoveUnlink(cfg: Config, s: World, t: Tid, u: Upd, j: nat, w: Walk)
    requires Running(cfg, s, t) && s.th[t].pc == Moving(u, j, MoveUnlink(w))
    requires Peek(s, u.ks[j], cfg.Home(u.ks[j], u.was), w) == u.i
    ensures Good(cfg, s, t, Go(Cut(s, u.ks[j], cfg.Home(u.ks[j], u.was), u.i, w), t, Moving(u, j, MoveLink)))
  {
    hide Good, Inv, KeyOps.Contract, Next, SameLocks, SameCustody, FactsOf, Guarded, Meets, Absent, WalkHolds;
    MoveUnlinkHolds(cfg, s, t, u, j, w);
    MoveUnlinkNext(cfg, s, t, u, j, w);
    CutStep(cfg, s, t, WalkFact(u.ks[j], cfg.Home(u.ks[j], u.was), u.i, w), s.th[t].(pc := Moving(u, j, MoveLink)));
  }

  lemma KeepsMoveUnlinkOn(cfg: Config, s: World, t: Tid, u: Upd, j: nat, w: Walk)
    requires Running(cfg, s, t) && s.th[t].pc == Moving(u, j, MoveUnlink(w))
    ensures Peek(s, u.ks[j], cfg.Home(u.ks[j], u.was), w) != NIL
    ensures Peek(s, u.ks[j], cfg.Home(u.ks[j], u.was), w) != u.i ==>
              Good(cfg, s, t, Go(s, t, Moving(u, j, MoveUnlink(Further(s, u.ks[j], cfg.Home(u.ks[j], u.was), w)))))
  {
    hide Good, Untouched, KeyOps.Contract, Represents, CustodyOk, FreeOk, Settled, History;
    var th := s.th[t];
    var f := WalkFact(u.ks[j], cfg.Home(u.ks[j], u.was), u.i, w);
    assert HomesMidway(cfg, u, u.ks[j], false)[u.ks[j]] == Some(f.b);
    assert In(s, u.ks[j], f.b, u.i);
    WalkReads(cfg, s, f);
    if Peek(s, u.ks[j], f.b, w) != u.i {
      WalkOn(cfg, s, f);
      hide Indexed, WalkHolds, FirstLocks, HomesMidway, Upd.Valid;
      LocalStep(cfg, s, t, th.(pc := Moving(u, j, MoveUnlink(Further(s, u.ks[j], cfg.Home(u.ks[j], u.was), w)))));
    }
  }

  lemma KeepsMoveLink(cfg: Config, s: World, t: Tid, u: Upd, j: nat)
    requires Running(cfg, s, t) && s.th[t].pc == Moving(u, j, MoveLink)
    ensures Good(cfg, s, t, Go(SetNext(s, u.ks[j], u.i, s.head[u.ks[j]][cfg.Home(u.ks[j], u.now)]), t,
              Moving(u, j, MoveHead)))
  {
    hide Good, Inv, KeyOps.Contract;
    var th := s.th[t];
    var k := u.ks[j];
    assert HomesMidway(cfg, u, k, true)[k] == None;
    HoldsAll(cfg, u, k);
    hide FirstLocks, HomesMidway, Upd.Valid;
    ScribbleStep(cfg, s, t, k, u.i, s.head[k][cfg.Home(k, u.now)], th.(pc := Moving(u, j, MoveHead)));
  }

  lemma MoveHeadHolds(cfg: Config, s: World, t: Tid, u: Upd, j: nat)
    requires Running(cfg, s, t) && s.th[t].pc == Moving(u, j, MoveHead)
    ensures var k, b := u.ks[j], cfg.Home(u.ks[j], u.now);
            && Mine(s, t, u.i) && Owns(s.owner, Bucket(k, b), t) && s.next[k][u.i] == s.head[k][b]
            && AtHome(cfg, s, u.i, HomesMidway(cfg, u, k, true))
  {
    hide Inv, KeyOps.Contract;
    HoldsAll(cfg, u, u.ks[j]);
    hide FirstLocks, HomesMidway, Upd.Valid, AtHome;
  }

  lemma MoveHeadNext(cfg: Config, s: World, t: Tid, u: Upd, j: nat)
    requires Running(cfg, s, t) && s.th[t].pc == Moving(u, j, MoveHead)
    ensures var k, b, th := u.ks[j], cfg.Home(u.ks[j], u.now), s.th[t].(pc := Moving(u, j + 1, MoveKey));
            && Sized(cfg, SetHead(s, k, b, u.i)) && Next(cfg, s, SetHead(s, k, b, u.i), th, t)
            && SameLocks(cfg, s, t, th) && SameCustody(cfg, s, t, th) && Absent(s.ch[k], u.i)
  {
    hide Inv, KeyOps.Contract, FirstLocks, HomesMidway;
    MoveHeadHolds(cfg, s, t, u, j);
    MidwayLinked(cfg, s, u, j);
    hide Upd.Valid, AtHome, Absent, LinkIn;
  }

  lemma KeepsMoveHead(cfg: Config, s: World, t: Tid, u: Upd, j: nat)
    requires Running(cfg, s, t) && s.th[t].pc == Moving(u, j, MoveHead)
    ensures Good(cfg, s, t, Go(SetHead(s, u.ks[j], cfg.Home(u.ks[j], u.now), u.i), t, Moving(u, j + 1, MoveKey)))
  {
    MoveHeadHolds(cfg, s, t, u, j);
    MoveHeadNext(cfg, s, t, u, j);
    hide Good, Inv, KeyOps.Contract, Next, SameLocks, SameCustody, FactsOf, Guarded, Meets, Absent, AtHome;
    HeadStep(cfg, s, t, u.ks[j], cfg.Home(u.ks[j], u.now), u.i, s.th[t].(pc := Moving(u, j + 1, MoveKey)));
  }
}
