/** The steps of an insert, including its rollback, preserve the invariant. */
module ProtocolInsert {
  import opened Keys
  import opened Chain
  import opened LockOrder
  import opened Protocol
  import opened ProtocolInvariant
  import opened ProtocolEffects
  import opened ProtocolSteps

  lemma KeepsInsWait(cfg: Config, s: World, t: Tid, rec: Bytes)
    requires Running(cfg, s, t) && s.th[t].pc == Inserting(rec, InsWait)
    ensures Struct !in s.owner ==> Good(cfg, s, t, Go(Take(s, t, Struct), t, Inserting(rec, InsAlloc)))
  {
    hide Good, Inv, KeyOps.Contract;
    var th := s.th[t];
    if Struct !in s.owner {
      TakeStep(cfg, s, t, Struct, th.(pc := Inserting(rec, InsAlloc)));
    }
  }

  lemma KeepsInsAlloc(cfg: Config, s: World, t: Tid, rec: Bytes)
    requires Running(cfg, s, t) && s.th[t].pc == Inserting(rec, InsAlloc)
    ensures Good(cfg, s, t, Go(s, t, Inserting(rec, InsEnd)))
  {
    hide Good, Inv, KeyOps.Contract;
    var th := s.th[t];
    LocalStep(cfg, s, t, th.(pc := Inserting(rec, InsEnd)));
  }

  lemma KeepsInsAllocPop(cfg: Config, s: World, t: Tid, rec: Bytes)
    requires Running(cfg, s, t) && s.th[t].pc == Inserting(rec, InsAlloc)
    requires s.free != [] && s.ready > 0
    ensures Good(cfg, s, t, Go(Pop(s, t), t, Inserting(rec, InsCopy(s.free[0]))))
  {
    hide Good, Untouched, KeyOps.Contract, Represents, CustodyOk, Indexed, Settled, History;
    var th := s.th[t];
    assert s.free[0] in s.free;
    assert Nowhere(cfg, s, s.free[0]);
    hide FreeOk;
    AllocStep(cfg, s, t, th.(pc := Inserting(rec, InsCopy(s.free[0]))));
  }

  lemma KeepsInsCopy(cfg: Config, s: World, t: Tid, rec: Bytes, i: nat)
    requires Running(cfg, s, t) && s.th[t].pc == Inserting(rec, InsCopy(i))
    ensures Good(cfg, s, t, Go(SetSlot(s, i, s.slots[i].(image := rec)), t, Inserting(rec, InsKey(i, 0))))
  {
    hide Good, Inv, KeyOps.Contract;
    var th := s.th[t];
    HomesNone(cfg, rec, 0, 0);
    hide HomesOf;
    HiddenWrite(cfg, s, t, i, s.slots[i].(image := rec), th.(pc := Inserting(rec, InsKey(i, 0))));
  }

  lemma KeepsInsKey(cfg: Config, s: World, t: Tid, rec: Bytes, i: nat, k: nat)
    requires Running(cfg, s, t) && s.th[t].pc == Inserting(rec, InsKey(i, k))
    ensures k == |cfg.keys| ==> Good(cfg, s, t, Go(s, t, Inserting(rec, InsPublish(i))))
    ensures k < |cfg.keys| && Bucket(k, cfg.Home(k, rec)) !in s.owner ==>
              Good(cfg, s, t, Go(Take(s, t, Bucket(k, cfg.Home(k, rec))), t, Inserting(rec, InsLink(i, k))))
  {
    hide Good, Inv, KeyOps.Contract;
    var th := s.th[t];
    hide HomesOf;
    if k == |cfg.keys| {
      LocalStep(cfg, s, t, th.(pc := Inserting(rec, InsPublish(i))));
    } else if Bucket(k, cfg.Home(k, rec)) !in s.owner {
      TakeStep(cfg, s, t, Bucket(k, cfg.Home(k, rec)), th.(pc := Inserting(rec, InsLink(i, k))));
    }
  }

  lemma KeepsInsKeyChecked(cfg: Config, s: World, t: Tid, rec: Bytes, i: nat, k: nat)
    requires Running(cfg, s, t) && s.th[t].pc == Inserting(rec, InsKey(i, k))
    requires k < |cfg.keys|
    ensures Bucket(k, cfg.Home(k, rec)) !in s.owner ==>
              Good(cfg, s, t, Go(Take(s, t, Bucket(k, cfg.Home(k, rec))), t,
                  Inserting(rec, InsDup(i, k, s.head[k][cfg.Home(k, rec)]))))
  {
    hide Good, Untouched, KeyOps.Contract, Represents, CustodyOk, FreeOk, Settled, History;
    var th := s.th[t];
    if Bucket(k, cfg.Home(k, rec)) !in s.owner {
      CellsLead(cfg, s, k, cfg.Home(k, rec), NIL);
      hide Indexed, HomesOf;
      TakeStep(cfg, s, t, Bucket(k, cfg.Home(k, rec)),
          th.(pc := Inserting(rec, InsDup(i, k, s.head[k][cfg.Home(k, rec)]))));
    }
  }

  lemma KeepsInsDup(cfg: Config, s: World, t: Tid, rec: Bytes, i: nat, k: nat, cur: int)
    requires Running(cfg, s, t) && s.th[t].pc == Inserting(rec, InsDup(i, k, cur))
    ensures Good(cfg, s, t, Go(s, t, Inserting(rec, InsLink(i, k))))
    ensures Good(cfg, s, t, Go(s, t, Undoing(rec, i, UndoLeave(k))))
  {
    hide Good, Inv, KeyOps.Contract;
    var th := s.th[t];
    hide HomesOf;
    LocalStep(cfg, s, t, th.(pc := Inserting(rec, InsLink(i, k))));
    LocalStep(cfg, s, t, th.(pc := Undoing(rec, i, UndoLeave(k))));
  }

  lemma KeepsInsDupOn(cfg: Config, s: World, t: Tid, rec: Bytes, i: nat, k: nat, cur: int)
    requires Running(cfg, s, t) && s.th[t].pc == Inserting(rec, InsDup(i, k, cur))
    requires cur != NIL
    ensures Good(cfg, s, t, Go(s, t, Inserting(rec, InsDup(i, k, s.next[k][cur]))))
  {
    hide Good, Untouched, KeyOps.Contract, Represents, CustodyOk, FreeOk, Settled, History;
    var th := s.th[t];
    CellsLead(cfg, s, k, cfg.Home(k, rec), cur);
    hide Indexed, HomesOf;
    LocalStep(cfg, s, t, th.(pc := Inserting(rec, InsDup(i, k, s.next[k][cur]))));
  }

  lemma KeepsInsLink(cfg: Config, s: World, t: Tid, rec: Bytes, i: nat, k: nat)
    requires Running(cfg, s, t) && s.th[t].pc == Inserting(rec, InsLink(i, k))
    ensures Good(cfg, s, t, Go(SetNext(s, k, i, s.head[k][cfg.Home(k, rec)]), t, Inserting(rec, InsHead(i, k))))
  {
    hide Good, Inv, KeyOps.Contract;
    var th := s.th[t];
    assert HomesOf(cfg, rec, 0, k)[k] == None;
    hide HomesOf;
    ScribbleStep(cfg, s, t, k, i, s.head[k][cfg.Home(k, rec)], th.(pc := Inserting(rec, InsHead(i, k))));
  }

  lemma KeepsInsHead(cfg: Config, s: World, t: Tid, rec: Bytes, i: nat, k: nat)
    requires Running(cfg, s, t) && s.th[t].pc == Inserting(rec, InsHead(i, k))
    ensures Good(cfg, s, t, Go(SetHead(s, k, cfg.Home(k, rec), i), t, Inserting(rec, InsUnlock(i, k))))
  {
    hide Good, Inv, KeyOps.Contract;
    var th := s.th[t];
    assert HomesOf(cfg, rec, 0, k)[k] == None;
    assert Absent(s.ch[k], i);
    LinkHome(cfg, s, k, cfg.Home(k, rec), i, HomesOf(cfg, rec, 0, k));
    HomesShift(cfg, rec, k);
    hide HomesOf, AtHome, Absent;
    HeadStep(cfg, s, t, k, cfg.Home(k, rec), i, th.(pc := Inserting(rec, InsUnlock(i, k))));
  }

  lemma KeepsInsUnlock(cfg: Config, s: World, t: Tid, rec: Bytes, i: nat, k: nat)
    requires Running(cfg, s, t) && s.th[t].pc == Inserting(rec, InsUnlock(i, k))
    ensures Good(cfg, s, t, Release(Go(s, t, Inserting(rec, InsKey(i, k + 1))), Bucket(k, cfg.Home(k, rec))))
  {
    hide Good, Inv, KeyOps.Contract;
    var th := s.th[t];
    ReleaseStep(cfg, s, t, Bucket(k, cfg.Home(k, rec)), th.(pc := Inserting(rec, InsKey(i, k + 1))));
  }

  lemma KeepsUndoLeave(cfg: Config, s: World, t: Tid, rec: Bytes, i: nat, k: nat)
    requires Running(cfg, s, t) && s.th[t].pc == Undoing(rec, i, UndoLeave(k))
    ensures Good(cfg, s, t, Release(Go(s, t, Undoing(rec, i, UndoKey(k))), Bucket(k, cfg.Home(k, rec))))
  {
    hide Good, Inv, KeyOps.Contract;
    var th := s.th[t];
    ReleaseStep(cfg, s, t, Bucket(k, cfg.Home(k, rec)), th.(pc := Undoing(rec, i, UndoKey(k))));
  }

  lemma KeepsUndoUnlock(cfg: Config, s: World, t: Tid, rec: Bytes, i: nat, k: nat)
    requires Running(cfg, s, t) && s.th[t].pc == Undoing(rec, i, UndoUnlock(k))
    ensures Good(cfg, s, t, Release(Go(s, t, Undoing(rec, i, UndoKey(k))), Bucket(k, cfg.Home(k, rec))))
  {
    hide Good, Inv, KeyOps.Contract;
    var th := s.th[t];
    ReleaseStep(cfg, s, t, Bucket(k, cfg.Home(k, rec)), th.(pc := Undoing(rec, i, UndoKey(k))));
  }

  lemma KeepsUndoKey(cfg: Config, s: World, t: Tid, rec: Bytes, i: nat, k: nat)
    requires Running(cfg, s, t) && s.th[t].pc == Undoing(rec, i, UndoKey(k))
    ensures k == 0 ==> Good(cfg, s, t, Go(s, t, Undoing(rec, i, UndoPush)))
  {
    hide Good, Inv, KeyOps.Contract;
    var th := s.th[t];
    if k == 0 {
      HomesNone(cfg, rec, 0, 0);
      hide HomesOf;
      LocalStep(cfg, s, t, th.(pc := Undoing(rec, i, UndoPush)));
    }
  }

  lemma KeepsUndoKeyOn(cfg: Config, s: World, t: Tid, rec: Bytes, i: nat, k: nat)
    requires Running(cfg, s, t) && s.th[t].pc == Undoing(rec, i, UndoKey(k))
    requires k > 0
    ensures Bucket(k - 1, cfg.Home(k - 1, rec)) !in s.owner ==>
              Good(cfg, s, t, Go(Take(s, t, Bucket(k - 1, cfg.Home(k - 1, rec))), t,
                  Undoing(rec, i, UndoUnlink(k - 1, START))))
  {
    hide Good, Inv, KeyOps.Contract;
    var th := s.th[t];
    if Bucket(k - 1, cfg.Home(k - 1, rec)) !in s.owner {
      TakeStep(cfg, s, t, Bucket(k - 1, cfg.Home(k - 1, rec)), th.(pc := Undoing(rec, i, UndoUnlink(k - 1, START))));
    }
  }

  lemma UndoUnlinkHolds(cfg: Config, s: World, t: Tid, rec: Bytes, i: nat, k: nat, w: Walk)
    requires Running(cfg, s, t) && s.th[t].pc == Undoing(rec, i, UndoUnlink(k, w))
    ensures var f := WalkFact(k, cfg.Home(k, rec), i, w);
            && Mine(s, t, i) && Owns(s.owner, Bucket(k, f.b), t) && WalkHolds(s, f) && In(s, k, f.b, i)
            && AtHome(cfg, s, i, HomesOf(cfg, rec, 0, k + 1))
            && (Peek(s, k, f.b, w) == i ==>
                  Sized(cfg, Cut(s, k, cfg.Home(k, rec), i, w)) && Absent(Cut(s, k, cfg.Home(k, rec), i, w).ch[k], i))
  {
    hide KeyOps.Contract, Represents, CustodyOk, FreeOk, Settled, History;
    var f := WalkFact(k, cfg.Home(k, rec), i, w);
    assert HomesOf(cfg, rec, 0, k + 1)[k] == Some(f.b);
    assert In(s, k, f.b, i);
    if Peek(s, k, f.b, w) == i {
      WalkReads(cfg, s, f);
      CutChains(cfg, s, f);
    }
  }

  lemma UndoUnlinkNext(cfg: Config, s: World, t: Tid, rec: Bytes, i: nat, k: nat, w: Walk)
    requires Running(cfg, s, t) && s.th[t].pc == Undoing(rec, i, UndoUnlink(k, w))
    requires Peek(s, k, cfg.Home(k, rec), w) == i
    ensures var f, th := WalkFact(k, cfg.Home(k, rec), i, w), s.th[t].(pc := Undoing(rec, i, UndoUnlock(k)));
            && Sized(cfg, Cut(s, k, cfg.Home(k, rec), i, w)) && Next(cfg, s, Cut(s, k, cfg.Home(k, rec), i, w), th, t)
            && SameLocks(cfg, s, t, th) && SameCustody(cfg, s, t, th)
  {
    hide Good, Inv, KeyOps.Contract, Remove;
    UndoUnlinkHolds(cfg, s, t, rec, i, k, w);
    var f := WalkFact(k, cfg.Home(k, rec), i, w);
    CutHome(cfg, s, Cut(s, k, cfg.Home(k, rec), i, w), k, i, HomesOf(cfg, rec, 0, k + 1));
    HomesShift(cfg, rec, k);
    hide AtHome, Absent, WalkHolds, Cut, HomesOf;
  }

  lemma KeepsUndoUnlink(cfg: Config, s: World, t: Tid, rec: Bytes, i: nat, k: nat, w: Walk)
    requires Running(cfg, s, t) && s.th[t].pc == Undoing(rec, i, UndoUnlink(k, w))
    requires Peek(s, k, cfg.Home(k, rec), w) == i
    ensures Good(cfg, s, t, Go(Cut(s, k, cfg.Home(k, rec), i, w), t, Undoing(rec, i, UndoUnlock(k))))
  {
    hide Good, Inv, KeyOps.Contract, Next, SameLocks, SameCustody, FactsOf, Guarded, Meets, Absent, WalkHolds;
    UndoUnlinkHolds(cfg, s, t, rec, i, k, w);
    UndoUnlinkNext(cfg, s, t, rec, i, k, w);
    CutStep(cfg, s, t, WalkFact(k, cfg.Home(k, rec), i, w), s.th[t].(pc := Undoing(rec, i, UndoUnlock(k))));
  }

  lemma KeepsUndoUnlinkOn(cfg: Config, s: World, t: Tid, rec: Bytes, i: nat, k: nat, w: Walk)
    requires Running(cfg, s, t) && s.th[t].pc == Undoing(rec, i, UndoUnlink(k, w))
    ensures Peek(s, k, cfg.Home(k, rec), w) != NIL
    ensures Peek(s, k, cfg.Home(k, rec), w) != i ==>
              Good(cfg, s, t, Go(s, t, Undoing(rec, i, UndoUnlink(k, Further(s, k, cfg.Home(k, rec), w)))))
  {
    UndoWalks(cfg, s, t, rec, i, k, w);
    hide Good, Inv, KeyOps.Contract, Next, SameLocks, SameCustody, FactsOf, Guarded, Meets, Fits;
    if Peek(s, k, cfg.Home(k, rec), w) != i {
      LocalStep(cfg, s, t, s.th[t].(pc := Undoing(rec, i, UndoUnlink(k, Further(s, k, cfg.Home(k, rec), w)))));
    }
  }

  lemma UndoWalks(cfg: Config, s: World, t: Tid, rec: Bytes, i: nat, k: nat, w: Walk)
    requires Running(cfg, s, t) && s.th[t].pc == Undoing(rec, i, UndoUnlink(k, w))
    ensures Peek(s, k, cfg.Home(k, rec), w) != NIL
    ensures Peek(s, k, cfg.Home(k, rec), w) != i ==>
              var th := s.th[t].(pc := Undoing(rec, i, UndoUnlink(k, Further(s, k, cfg.Home(k, rec), w))));
              Next(cfg, s, s, th, t) && SameLocks(cfg, s, t, th) && SameCustody(cfg, s, t, th)
  {
    hide Untouched, KeyOps.Contract, Represents, CustodyOk, FreeOk, Settled, History;
    var f := WalkFact(k, cfg.Home(k, rec), i, w);
    assert HomesOf(cfg, rec, 0, k + 1)[k] == Some(f.b);
    assert In(s, k, f.b, i);
    WalkReads(cfg, s, f);
    if Peek(s, k, f.b, w) != i {
      WalkOn(cfg, s, f);
    }
    hide Indexed, WalkHolds, HomesOf, AtHome;
  }

  lemma KeepsUndoPush(cfg: Config, s: World, t: Tid, rec: Bytes, i: nat)
    requires Running(cfg, s, t) && s.th[t].pc == Undoing(rec, i, UndoPush)
    ensures Good(cfg, s, t, Go(Push(s, i), t, Inserting(rec, InsEnd)))
  {
    hide Good, Inv, KeyOps.Contract;
    var th := s.th[t];
    assert forall k :: 0 <= k < |cfg.keys| ==> HomesOf(cfg, [], 0, 0)[k] == None;
    PushStep(cfg, s, t, i, th.(pc := Inserting(rec, InsEnd)));
  }

  lemma KeepsInsPublish(cfg: Config, s: World, t: Tid, rec: Bytes, i: nat)
    requires Running(cfg, s, t) && s.th[t].pc == Inserting(rec, InsPublish(i))
    ensures Good(cfg, s, t, Go(Publish(s, i), t, Inserting(rec, InsEnd)))
  {
    hide Good, Inv, KeyOps.Contract;
    var th := s.th[t];
    forall k | 0 <= k < |cfg.keys| ensures In(s, k, cfg.Home(k, rec), i) {
      assert HomesOf(cfg, rec, 0, |cfg.keys|)[k] == Some(cfg.Home(k, rec));
    }
    PublishStep(cfg, s, t, i, th.(pc := Inserting(rec, InsEnd)));
  }

  lemma KeepsInsEnd(cfg: Config, s: World, t: Tid, rec: Bytes)
    requires Running(cfg, s, t) && s.th[t].pc == Inserting(rec, InsEnd)
    ensures Good(cfg, s, t, Release(Go(s, t, Idle), Struct))
  {
    hide Good, Inv, KeyOps.Contract;
    var th := s.th[t];
    ReleaseStep(cfg, s, t, Struct, th.(pc := Idle));
  }
}
