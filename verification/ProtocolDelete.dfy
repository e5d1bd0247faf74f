/** The steps of a locked delete preserve the invariant. */
module ProtocolDelete {
  import opened Keys
  import opened Slots
  import opened Chain
  import opened LockOrder
  import opened Protocol
  import opened ProtocolInvariant
  import opened ProtocolEffects
  import opened ProtocolSteps

  lemma KeepsDelMark(cfg: Config, s: World, t: Tid, i: nat, rec: Bytes)
    requires Running(cfg, s, t) && s.th[t].pc == Removing(i, rec, DelMark)
    ensures Good(cfg, s, t, Go(s, t, Removing(i, s.slots[i].image, DelKey(0))))
  {
    hide Good, Inv, KeyOps.Contract;
    var th := s.th[t];
    LocalStep(cfg, s, t, th.(pc := Removing(i, s.slots[i].image, DelKey(0))));
  }

  lemma KeepsDelKey(cfg: Config, s: World, t: Tid, i: nat, rec: Bytes, k: nat)
    requires Running(cfg, s, t) && s.th[t].pc == Removing(i, rec, DelKey(k))
    ensures k == |cfg.keys| ==> Good(cfg, s, t, Go(s, t, Removing(i, rec, DelDead)))
    ensures k < |cfg.keys| && Bucket(k, cfg.Home(k, rec)) !in s.owner ==>
              Good(cfg, s, t, Go(Take(s, t, Bucket(k, cfg.Home(k, rec))), t, Removing(i, rec, DelUnlink(k, START))))
  {
    hide Good, Inv, KeyOps.Contract;
    var th := s.th[t];
    if k == |cfg.keys| {
      HomesNone(cfg, rec, k, k);
      hide HomesOf;
      LocalStep(cfg, s, t, th.(pc := Removing(i, rec, DelDead)));
    } else if Bucket(k, cfg.Home(k, rec)) !in s.owner {
      hide HomesOf;
      TakeStep(cfg, s, t, Bucket(k, cfg.Home(k, rec)), th.(pc := Removing(i, rec, DelUnlink(k, START))));
    }
  }

  lemma DelUnlinkHolds(cfg: Config, s: World, t: Tid, i: nat, rec: Bytes, k: nat, w: Walk)
    requires Running(cfg, s, t) && s.th[t].pc == Removing(i, rec, DelUnlink(k, w))
    ensures var f := WalkFact(k, cfg.Home(k, rec), i, w);
            && Mine(s, t, i) && Owns(s.owner, Bucket(k, f.b), t) && WalkHolds(s, f) && In(s, k, f.b, i)
            && AtHome(cfg, s, i, HomesOf(cfg, rec, k, |cfg.keys|))
            && (Peek(s, k, f.b, w) == i ==>
                  Sized(cfg, Cut(s, k, cfg.Home(k, rec), i, w)) && Absent(Cut(s, k, cfg.Home(k, rec), i, w).ch[k], i))
  {
    hide KeyOps.Contract, Represents, CustodyOk, FreeOk, Settled, History;
    var f := WalkFact(k, cfg.Home(k, rec), i, w);
    
    assert HomesOf(cfg, rec, k, |cfg.keys|)[k] == Some(f.b);
    assert In(s, k, f.b, i);
    if Peek(s, k, f.b, w) == i {
      WalkReads(cfg, s, f);
      CutChains(cfg, s, f);
    }
  }

  lemma DelUnlinkNext(cfg: Config, s: World, t: Tid, i: nat, rec: Bytes, k: nat, w: Walk)
    requires Running(cfg, s, t) && s.th[t].pc == Removing(i, rec, DelUnlink(k, w))
    requires Peek(s, k, cfg.Home(k, rec), w) == i
    ensures var f, th := WalkFact(k, cfg.Home(k, rec), i, w), s.th[t].(pc := Removing(i, rec, DelUnlock(k)));
            && Sized(cfg, Cut(s, k, cfg.Home(k, rec), i, w)) && Next(cfg, s, Cut(s, k, cfg.Home(k, rec), i, w), th, t)
            && SameLocks(cfg, s, t, th) && SameCustody(cfg, s, t, th)
  {
    hide Good, Inv, KeyOps.Contract, Remove;
    DelUnlinkHolds(cfg, s, t, i, rec, k, w);
    var f := WalkFact(k, cfg.Home(k, rec), i, w);
    CutHome(cfg, s, Cut(s, k, cfg.Home(k, rec), i, w), k, i, HomesOf(cfg, rec, k, |cfg.keys|));
    HomesShift(cfg, rec, k);
    hide AtHome, Absent, WalkHolds, Cut, HomesOf;
  }

  lemma KeepsDelUnlink(cfg: Config, s: World, t: Tid, i: nat, rec: Bytes, k: nat, w: Walk)
    requires Running(cfg, s, t) && s.th[t].pc == Removing(i, rec, DelUnlink(k, w))
    requires Peek(s, k, cfg.Home(k, rec), w) == i
    ensures Good(cfg, s, t, Go(Cut(s, k, cfg.Home(k, rec), i, w), t, Removing(i, rec, DelUnlock(k))))
  {
    hide Good, Inv, KeyOps.Contract, Next, SameLocks, SameCustody, FactsOf, Guarded, Meets, Absent, WalkHolds;
    DelUnlinkHolds(cfg, s, t, i, rec, k, w);
    DelUnlinkNext(cfg, s, t, i, rec, k, w);
    CutStep(cfg, s, t, WalkFact(k, cfg.Home(k, rec), i, w), s.th[t].(pc := Removing(i, rec, DelUnlock(k))));
  }

  lemma KeepsDelUnlinkOn(cfg: Config, s: World, t: Tid, i: nat, rec: Bytes, k: nat, w: Walk)
    requires Running(cfg, s, t) && s.th[t].pc == Removing(i, rec, DelUnlink(k, w))
    ensures Peek(s, k, cfg.Home(k, rec), w) != NIL
    ensures Peek(s, k, cfg.Home(k, rec), w) != i ==>
              Good(cfg, s, t, Go(s, t, Removing(i, rec, DelUnlink(k, Further(s, k, cfg.Home(k, rec), w)))))
  {
    hide Good, Untouched, KeyOps.Contract, Represents, CustodyOk, FreeOk, Settled, History;
    var th := s.th[t];
    var f := WalkFact(k, cfg.Home(k, rec), i, w);
    assert HomesOf(cfg, rec, k, |cfg.keys|)[k] == Some(f.b);
    assert In(s, k, f.b, i);
    WalkReads(cfg, s, f);
    if Peek(s, k, f.b, w) != i {
      WalkOn(cfg, s, f);
      hide Indexed, WalkHolds, HomesOf;
      LocalStep(cfg, s, t, th.(pc := Removing(i, rec, DelUnlink(k, Further(s, k, cfg.Home(k, rec), w)))));
    }
  }

  lemma KeepsDelUnlock(cfg: Config, s: World, t: Tid, i: nat, rec: Bytes, k: nat)
    requires Running(cfg, s, t) && s.th[t].pc == Removing(i, rec, DelUnlock(k))
    ensures Good(cfg, s, t, Release(Go(s, t, Removing(i, rec, DelKey(k + 1))), Bucket(k, cfg.Home(k, rec))))
  {
    hide Good, Inv, KeyOps.Contract;
    var th := s.th[t];
    ReleaseStep(cfg, s, t, Bucket(k, cfg.Home(k, rec)), th.(pc := Removing(i, rec, DelKey(k + 1))));
  }

  lemma KeepsDelDead(cfg: Config, s: World, t: Tid, i: nat, rec: Bytes)
    requires Running(cfg, s, t) && s.th[t].pc == Removing(i, rec, DelDead)
    ensures Good(cfg, s, t, Go(SetSlot(s, i, s.slots[i].(state := Deleted)), t, Removing(i, rec, DelBump)))
  {
    hide Good, Inv, KeyOps.Contract;
    var th := s.th[t];
    HiddenWrite(cfg, s, t, i, s.slots[i].(state := Deleted), th.(pc := Removing(i, rec, DelBump)));
  }

  lemma KeepsDelBump(cfg: Config, s: World, t: Tid, i: nat, rec: Bytes)
    requires Running(cfg, s, t) && s.th[t].pc == Removing(i, rec, DelBump)
    ensures Good(cfg, s, t, Go(SetSlot(s, i, s.slots[i].(bumps := s.slots[i].bumps + 1)), t, Removing(i, rec, DelWait)))
  {
    hide Good, Inv, KeyOps.Contract;
    var th := s.th[t];
    HiddenWrite(cfg, s, t, i, s.slots[i].(bumps := s.slots[i].bumps + 1), th.(pc := Removing(i, rec, DelWait)));
  }

  lemma KeepsDelWait(cfg: Config, s: World, t: Tid, i: nat, rec: Bytes)
    requires Running(cfg, s, t) && s.th[t].pc == Removing(i, rec, DelWait)
    ensures Struct !in s.owner ==> Good(cfg, s, t, Go(Take(s, t, Struct), t, Removing(i, rec, DelPush)))
  {
    hide Good, Inv, KeyOps.Contract;
    var th := s.th[t];
    if Struct !in s.owner {
      TakeStep(cfg, s, t, Struct, th.(pc := Removing(i, rec, DelPush)));
    }
  }

  lemma KeepsDelPush(cfg: Config, s: World, t: Tid, i: nat, rec: Bytes)
    requires Running(cfg, s, t) && s.th[t].pc == Removing(i, rec, DelPush)
    ensures Good(cfg, s, t, Go(Push(s, i), t, Removing(i, rec, DelEnd)))
  {
    hide Good, Inv, KeyOps.Contract;
    var th := s.th[t];
    assert forall k :: 0 <= k < |cfg.keys| ==> HomesOf(cfg, [], 0, 0)[k] == None;
    PushStep(cfg, s, t, i, th.(pc := Removing(i, rec, DelEnd)));
  }

  lemma KeepsDelEnd(cfg: Config, s: World, t: Tid, i: nat, rec: Bytes)
    requires Running(cfg, s, t) && s.th[t].pc == Removing(i, rec, DelEnd)
    ensures Good(cfg, s, t, Release(Go(s, t, Locking(Unrow)), Struct))
  {
    hide Good, Inv, KeyOps.Contract;
    var th := s.th[t];
    ReleaseStep(cfg, s, t, Struct, th.(pc := Locking(Unrow)));
  }
}
