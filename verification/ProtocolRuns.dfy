/** Runs of the handler protocol and what holds in every state of every run. */
module ProtocolRuns {
  import opened Keys
  import opened Chain
  import opened LockOrder
  import opened Protocol
  import opened ProtocolInvariant
  import opened ProtocolEffects
  import opened ProtocolSteps
  import opened ProtocolRow
  import opened ProtocolInsert
  import opened ProtocolUpdate
  import opened ProtocolDelete

  // ----- every step ----------------------------------------------------------

  ghost predicate Fine(cfg: Config, s: World, t: Tid, o: Option<World>)
    requires Sized(cfg, s)
  {
    o.Some? ==> Good(cfg, s, t, o.value)
  }

  lemma RowStep(cfg: Config, s: World, t: Tid, r: RowPc)
    requires Running(cfg, s, t) && s.th[t].pc == Locking(r)
    ensures Fine(cfg, s, t, ExecRow(cfg, s, t, r))
  {
    hide Good, Inv, FactsOf, Guarded, Meets, KeyOps.Contract;
    match r {
      case RowWait(i) => KeepsRowWait(cfg, s, t, i);
      case ReGen(i) => KeepsReGen(cfg, s, t, i);
      case ReState(i, g) => KeepsReState(cfg, s, t, i, g);
      case ReGenCheck(i, g) => KeepsReGenCheck(cfg, s, t, i, g);
      case ReCopy(i, g) => KeepsReCopy(cfg, s, t, i, g);
      case Unrow => KeepsUnrow(cfg, s, t);
    }
  }

  lemma FindStep(cfg: Config, s: World, t: Tid, k: nat, b: nat, key: Bytes, f: FindPc)
    requires Running(cfg, s, t) && s.th[t].pc == Finding(k, b, key, f)
    ensures Fine(cfg, s, t, ExecFind(cfg, s, t, k, b, key, f))
  {
    hide Good, Inv, FactsOf, Guarded, Meets, KeyOps.Contract;
    match f {
      case FindWait => KeepsFindWait(cfg, s, t, k, b, key);
      case FindWalk(cur) => KeepsFindWalk(cfg, s, t, k, b, key, cur);
      case FindEnd(found) => KeepsFindEnd(cfg, s, t, k, b, key, found);
    }
  }

  lemma InsertStep(cfg: Config, s: World, t: Tid, rec: Bytes, p: InsPc)
    requires Running(cfg, s, t) && s.th[t].pc == Inserting(rec, p)
    ensures Fine(cfg, s, t, ExecInsert(cfg, s, t, rec, p))
  {
    hide Good, Inv, FactsOf, Guarded, Meets, KeyOps.Contract;
    match p {
      case InsWait => KeepsInsWait(cfg, s, t, rec);
      case InsAlloc =>
        KeepsInsAlloc(cfg, s, t, rec);
        if s.free != [] && s.ready > 0 { KeepsInsAllocPop(cfg, s, t, rec); }
      case InsCopy(i) => KeepsInsCopy(cfg, s, t, rec, i);
      case InsKey(i, k) =>
        KeepsInsKey(cfg, s, t, rec, i, k);
        if k < |cfg.keys| { KeepsInsKeyChecked(cfg, s, t, rec, i, k); }
      case InsDup(i, k, cur) =>
        KeepsInsDup(cfg, s, t, rec, i, k, cur);
        if cur != NIL { KeepsInsDupOn(cfg, s, t, rec, i, k, cur); }
      case InsLink(i, k) => KeepsInsLink(cfg, s, t, rec, i, k);
      case InsHead(i, k) => KeepsInsHead(cfg, s, t, rec, i, k);
      case InsUnlock(i, k) => KeepsInsUnlock(cfg, s, t, rec, i, k);
      case InsPublish(i) => KeepsInsPublish(cfg, s, t, rec, i);
      case InsEnd => KeepsInsEnd(cfg, s, t, rec);
    }
  }

  lemma UndoStep(cfg: Config, s: World, t: Tid, rec: Bytes, i: nat, o: UndoPc)
    requires Running(cfg, s, t) && s.th[t].pc == Undoing(rec, i, o)
    ensures Fine(cfg, s, t, ExecUndo(cfg, s, t, rec, i, o))
  {
    hide Good, Inv, FactsOf, Guarded, Meets, KeyOps.Contract;
    match o {
      case UndoLeave(k) => KeepsUndoLeave(cfg, s, t, rec, i, k);
      case UndoKey(k) =>
        KeepsUndoKey(cfg, s, t, rec, i, k);
        if k > 0 { KeepsUndoKeyOn(cfg, s, t, rec, i, k); }
      case UndoUnlink(k, w) =>
        KeepsUndoUnlinkOn(cfg, s, t, rec, i, k, w);
        if Peek(s, k, cfg.Home(k, rec), w) == i { KeepsUndoUnlink(cfg, s, t, rec, i, k, w); }
      case UndoUnlock(k) => KeepsUndoUnlock(cfg, s, t, rec, i, k);
      case UndoPush => KeepsUndoPush(cfg, s, t, rec, i);
    }
  }

  lemma CheckStep(cfg: Config, s: World, t: Tid, i: nat, g: nat, was: Bytes, job: Job, c: CheckPc)
    requires Running(cfg, s, t) && s.th[t].pc == Checking(i, g, was, job, c)
    ensures Fine(cfg, s, t, ExecCheck(cfg, s, t, i, g, was, job, c))
  {
    hide Good, Inv, FactsOf, Guarded, Meets, KeyOps.Contract;
    match c {
      case RcState => KeepsRcState(cfg, s, t, i, g, was, job);
      case RcGen => KeepsRcGen(cfg, s, t, i, g, was, job);
      case RcImage => KeepsRcImage(cfg, s, t, i, g, was, job);
      case Ready =>
        KeepsReady(cfg, s, t, i, g, was, job);
        KeepsReadyErase(cfg, s, t, i, g, was, job);
    }
  }

  lemma UpdateStep(cfg: Config, s: World, t: Tid, u: Upd, p: UpPc)
    requires Running(cfg, s, t) && s.th[t].pc == Updating(u, p)
    ensures Fine(cfg, s, t, ExecUpdate(cfg, s, t, u, p))
  {
    hide Good, Inv, FactsOf, Guarded, Meets, KeyOps.Contract;
    match p {
      case UpFast => KeepsUpFast(cfg, s, t, u);
      case UpLock(n) => KeepsUpLock(cfg, s, t, u, n);
      case UpDup(j) =>
        KeepsUpDup(cfg, s, t, u, j);
        if j < |u.ks| { KeepsUpDupChecked(cfg, s, t, u, j); }
      case UpDupWalk(j, cur) =>
        KeepsUpDupWalk(cfg, s, t, u, j, cur);
        if cur != NIL { KeepsUpDupWalkOn(cfg, s, t, u, j, cur); }
      case UpWrite => KeepsUpWrite(cfg, s, t, u);
      case UpUnlock(n) => KeepsUpUnlock(cfg, s, t, u, n);
    }
  }

  lemma MoveStep(cfg: Config, s: World, t: Tid, u: Upd, j: nat, m: MovePc)
    requires Running(cfg, s, t) && s.th[t].pc == Moving(u, j, m)
    ensures Fine(cfg, s, t, ExecMove(cfg, s, t, u, j, m))
  {
    hide Good, Inv, FactsOf, Guarded, Meets, KeyOps.Contract;
    match m {
      case MoveKey =>
        KeepsMoveKey(cfg, s, t, u, j);
        if j < |u.ks| { KeepsMoveKeyOn(cfg, s, t, u, j); }
      case MoveUnlink(w) =>
        KeepsMoveUnlinkOn(cfg, s, t, u, j, w);
        if Peek(s, u.ks[j], cfg.Home(u.ks[j], u.was), w) == u.i { KeepsMoveUnlink(cfg, s, t, u, j, w); }
      case MoveLink => KeepsMoveLink(cfg, s, t, u, j);
      case MoveHead => KeepsMoveHead(cfg, s, t, u, j);
    }
  }

  lemma DeleteStep(cfg: Config, s: World, t: Tid, i: nat, rec: Bytes, d: DelPc)
    requires Running(cfg, s, t) && s.th[t].pc == Removing(i, rec, d)
    ensures Fine(cfg, s, t, ExecDelete(cfg, s, t, i, rec, d))
  {
    hide Good, Inv, FactsOf, Guarded, Meets, KeyOps.Contract;
    match d {
      case DelMark => KeepsDelMark(cfg, s, t, i, rec);
      case DelKey(k) => KeepsDelKey(cfg, s, t, i, rec, k);
      case DelUnlink(k, w) =>
        KeepsDelUnlinkOn(cfg, s, t, i, rec, k, w);
        if Peek(s, k, cfg.Home(k, rec), w) == i { KeepsDelUnlink(cfg, s, t, i, rec, k, w); }
      case DelUnlock(k) => KeepsDelUnlock(cfg, s, t, i, rec, k);
      case DelDead => KeepsDelDead(cfg, s, t, i, rec);
      case DelBump => KeepsDelBump(cfg, s, t, i, rec);
      case DelWait => KeepsDelWait(cfg, s, t, i, rec);
      case DelPush => KeepsDelPush(cfg, s, t, i, rec);
      case DelEnd => KeepsDelEnd(cfg, s, t, i, rec);
    }
  }

  lemma CallStep(cfg: Config, s: World, t: Tid, call: Call)
    requires Running(cfg, s, t) && s.th[t].pc.Idle?
    ensures Fine(cfg, s, t, Begin(cfg, s, t, call))
  {
    hide Good, Inv, KeyOps.Contract;
    var th := s.th[t];
    match call {
      case LockRow(i) =>
        if i < |s.slots| {
          if th.row == Some(i) { LocalStep(cfg, s, t, Thread(Locking(ReGen(i)), th.row, None)); }
          else if th.row.Some? { ReleaseStep(cfg, s, t, Row(th.row.value), Thread(Locking(RowWait(i)), None, None)); }
          else { LocalStep(cfg, s, t, th.(pc := Locking(RowWait(i)))); }
        }
      case Lookup(k, key) =>
        if k < |cfg.keys| { LocalStep(cfg, s, t, th.(pc := Finding(k, cfg.KeyBucket(k, key), key, FindWait))); }
      case Insert(rec) => LocalStep(cfg, s, t, th.(pc := Inserting(rec, InsWait)));
      case ModifySeen(job) =>
        if th.row.Some? && th.seen.Some? {
          LocalStep(cfg, s, t, Thread(Checking(th.row.value, th.seen.value.g, th.seen.value.buf, job, Ready), th.row,
              None));
        }
      case ModifyChecked(g, was, job) =>
        if th.row.Some? { LocalStep(cfg, s, t, Thread(Checking(th.row.value, g, was, job, RcState), th.row, None)); }
      case DropRow =>
        if th.row.Some? { LocalStep(cfg, s, t, th.(pc := Locking(Unrow))); }
    }
  }

  /** Every step of every thread keeps the invariant and leaves alone what any
      other thread relies on. */
  lemma StepIsGood(cfg: Config, s: World, t: Tid, s': World)
    requires Inv(cfg, s) && Step(cfg, s, t, s')
    ensures Good(cfg, s, t, s')
  {
    assert ThreadOk(cfg, s, t);
    hide Good, Inv, ThreadOk, ExecRow, ExecFind, ExecInsert, ExecUndo, ExecCheck, ExecUpdate, ExecMove, ExecDelete,
         Begin;
    if Exec(cfg, s, t) == Some(s') {
      match s.th[t].pc {
        case Locking(r) => RowStep(cfg, s, t, r);
        case Finding(k, b, key, f) => FindStep(cfg, s, t, k, b, key, f);
        case Inserting(rec, n) => InsertStep(cfg, s, t, rec, n);
        case Undoing(rec, i, o) => UndoStep(cfg, s, t, rec, i, o);
        case Checking(i, g, was, job, c) => CheckStep(cfg, s, t, i, g, was, job, c);
        case Updating(u, p) => UpdateStep(cfg, s, t, u, p);
        case Moving(u, j, m) => MoveStep(cfg, s, t, u, j, m);
        case Removing(i, rec, d) => DeleteStep(cfg, s, t, i, rec, d);
        case Idle =>
      }
    } else if Grow(s, t) == Some(s') {
      GrowStep(cfg, s, t, s'.ready);
    } else {
      var call :| Begin(cfg, s, t, call) == Some(s');
      CallStep(cfg, s, t, call);
    }
  }
}
