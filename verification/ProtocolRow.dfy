/** Row locking, the re-read under the lock and key lookups preserve the
    invariant. */
module ProtocolRow {
  import opened Keys
  import opened Slots
  import opened Chain
  import opened LockOrder
  import opened Protocol
  import opened ProtocolInvariant
  import opened ProtocolEffects
  import opened ProtocolSteps

  lemma KeepsRowWait(cfg: Config, s: World, t: Tid, i: nat)
    requires Running(cfg, s, t) && s.th[t].pc == Locking(RowWait(i))
    ensures Row(i) !in s.owner ==>
              Good(cfg, s, t, Take(s.(th := s.th[t := Thread(Locking(ReGen(i)), Some(i), None)]), t, Row(i)))
  {
    hide Good, Inv, KeyOps.Contract;
    var th := s.th[t];
    if Row(i) !in s.owner {
      TakeStep(cfg, s, t, Row(i), Thread(Locking(ReGen(i)), Some(i), None));
    }
  }

  lemma KeepsReGen(cfg: Config, s: World, t: Tid, i: nat)
    requires Running(cfg, s, t) && s.th[t].pc == Locking(ReGen(i))
    ensures Good(cfg, s, t, Go(s, t, Locking(ReState(i, s.slots[i].Gen()))))
  {
    hide Good, Inv, KeyOps.Contract;
    var th := s.th[t];
    LocalStep(cfg, s, t, th.(pc := Locking(ReState(i, s.slots[i].Gen()))));
  }

  lemma KeepsReState(cfg: Config, s: World, t: Tid, i: nat, g: nat)
    requires Running(cfg, s, t) && s.th[t].pc == Locking(ReState(i, g))
    ensures Good(cfg, s, t, Go(s, t, Locking(Unrow)))
    ensures s.slots[i].state == Active ==> Good(cfg, s, t, Go(s, t, Locking(ReGenCheck(i, g))))
  {
    hide Good, Inv, KeyOps.Contract;
    var th := s.th[t];
    LocalStep(cfg, s, t, th.(pc := Locking(Unrow)));
    if s.slots[i].state == Active {
      LocalStep(cfg, s, t, th.(pc := Locking(ReGenCheck(i, g))));
    }
  }

  lemma KeepsReGenCheck(cfg: Config, s: World, t: Tid, i: nat, g: nat)
    requires Running(cfg, s, t) && s.th[t].pc == Locking(ReGenCheck(i, g))
    ensures Good(cfg, s, t, Go(s, t, Locking(Unrow)))
    ensures s.slots[i].Gen() == g ==> Good(cfg, s, t, Go(s, t, Locking(ReCopy(i, g))))
  {
    hide Good, Inv, KeyOps.Contract;
    var th := s.th[t];
    LocalStep(cfg, s, t, th.(pc := Locking(Unrow)));
    if s.slots[i].Gen() == g {
      LocalStep(cfg, s, t, th.(pc := Locking(ReCopy(i, g))));
    }
  }

  lemma KeepsReCopy(cfg: Config, s: World, t: Tid, i: nat, g: nat)
    requires Running(cfg, s, t) && s.th[t].pc == Locking(ReCopy(i, g))
    ensures Good(cfg, s, t, s.(th := s.th[t := Thread(Idle, s.th[t].row, Some(Seen(g, s.slots[i].image)))]))
  {
    hide Good, Inv, KeyOps.Contract;
    var th := s.th[t];
    LocalStep(cfg, s, t, Thread(Idle, th.row, Some(Seen(g, s.slots[i].image))));
  }

  lemma KeepsUnrow(cfg: Config, s: World, t: Tid)
    requires Running(cfg, s, t) && s.th[t].pc == Locking(Unrow)
    ensures Good(cfg, s, t, Release(s.(th := s.th[t := Thread(Idle, None, None)]), Row(s.th[t].row.value)))
  {
    hide Good, Inv, KeyOps.Contract;
    var th := s.th[t];
    ReleaseStep(cfg, s, t, Row(th.row.value), Thread(Idle, None, None));
  }

  lemma KeepsFindWait(cfg: Config, s: World, t: Tid, k: nat, b: nat, key: Bytes)
    requires Running(cfg, s, t) && s.th[t].pc == Finding(k, b, key, FindWait)
    ensures Bucket(k, b) !in s.owner ==>
              Good(cfg, s, t, Go(Take(s, t, Bucket(k, b)), t, Finding(k, b, key, FindWalk(s.head[k][b]))))
  {
    hide Good, Untouched, KeyOps.Contract, Represents, CustodyOk, FreeOk, Settled, History;
    var th := s.th[t];
    if Bucket(k, b) !in s.owner {
      CellsLead(cfg, s, k, b, NIL);
      hide Indexed;
      TakeStep(cfg, s, t, Bucket(k, b), th.(pc := Finding(k, b, key, FindWalk(s.head[k][b]))));
    }
  }

  lemma KeepsFindWalk(cfg: Config, s: World, t: Tid, k: nat, b: nat, key: Bytes, cur: int)
    requires Running(cfg, s, t) && s.th[t].pc == Finding(k, b, key, FindWalk(cur))
    ensures Good(cfg, s, t, Go(s, t, Finding(k, b, key, FindEnd(cur))))
    ensures cur != NIL ==> Good(cfg, s, t, Go(s, t, Finding(k, b, key, FindWalk(s.next[k][cur]))))
  {
    hide Good, Untouched, KeyOps.Contract, Represents, CustodyOk, FreeOk, Settled, History;
    var th := s.th[t];
    LocalStep(cfg, s, t, th.(pc := Finding(k, b, key, FindEnd(cur))));
    if cur != NIL {
      CellsLead(cfg, s, k, b, cur);
      hide Indexed;
      LocalStep(cfg, s, t, th.(pc := Finding(k, b, key, FindWalk(s.next[k][cur]))));
    }
  }

  lemma KeepsFindEnd(cfg: Config, s: World, t: Tid, k: nat, b: nat, key: Bytes, found: int)
    requires Running(cfg, s, t) && s.th[t].pc == Finding(k, b, key, FindEnd(found))
    ensures Good(cfg, s, t, Release(Go(s, t, Idle), Bucket(k, b)))
  {
    hide Good, Inv, KeyOps.Contract;
    var th := s.th[t];
    ReleaseStep(cfg, s, t, Bucket(k, b), th.(pc := Idle));
  }
}
