/** What holds in every state of every run of the handler protocol. */
module ProtocolTheorems {
  import opened Keys
  import opened Slots
  import opened Chain
  import opened LockOrder
  import opened Protocol
  import opened ProtocolInvariant
  import opened ProtocolEffects
  import opened ProtocolRuns

  /** An empty table: no chunk allocated, every handler idle. */
  ghost predicate Init(cfg: Config, s: World) {
    && Sized(cfg, s)
    && (forall t :: t in s.th ==> s.th[t] == Thread(Idle, None, None))
    && s.owner == map[] && s.cust == map[]
    && |s.free| == |s.slots| && s.ready == 0
    && (forall i :: 0 <= i < |s.slots| ==> s.free[i] == i)
    && (forall i :: 0 <= i < |s.slots| ==> s.slots[i].state != Active && s.writes[i] == [])
    && forall k, b :: 0 <= k < |cfg.keys| && 0 <= b < cfg.nbuckets ==> s.head[k][b] == NIL && s.ch[k][b] == []
  }

  /** A run: from an empty table, who[n] takes the n-th step. */
  ghost predicate IsRun(cfg: Config, run: seq<World>, who: seq<Tid>) {
    && |run| == |who| + 1
    && Init(cfg, run[0])
    && forall n :: 0 <= n < |who| ==> Step(cfg, run[n], who[n], run[n + 1])
  }

  lemma InitInv(cfg: Config, s: World)
    requires Init(cfg, s)
    ensures Inv(cfg, s)
  {
    forall i | 0 <= i < |s.slots| ensures i in s.free {
      assert s.free[i] == i;
    }
    forall t | t in s.th ensures ThreadOk(cfg, s, t) {
      assert FactsOf(cfg, s.th[t]) == NOTHING;
    }
  }

  lemma StepKeepsInv(cfg: Config, s: World, t: Tid, s': World)
    requires Inv(cfg, s) && Step(cfg, s, t, s')
    ensures Inv(cfg, s')
  {
    hide Indexed, FreeOk, Settled, History, CustodyOk, ThreadOk, Exec, Begin;
    StepIsGood(cfg, s, t, s');
  }

  /** The invariant holds in every state of every run. */
  lemma {:induction false} RunInv(cfg: Config, run: seq<World>, who: seq<Tid>, n: nat)
    requires IsRun(cfg, run, who) && n < |run|
    ensures Inv(cfg, run[n])
  {
    hide Inv, Step, Init;
    if n == 0 {
      InitInv(cfg, run[0]);
    } else {
      RunInv(cfg, run, who, n - 1);
      assert Step(cfg, run[n - 1], who[n - 1], run[n - 1 + 1]);
      StepKeepsInv(cfg, run[n - 1], who[n - 1], run[n]);
    }
  }

  // ----- the index -----------------------------------------------------------

  /** Slot i is in bucket b of key k, once, and in no other bucket of that key. */
  ghost predicate OnlyAt(s: World, k: nat, b: nat, i: nat)
    requires k < |s.ch|
  {
    && b < |s.ch[k]| && In(s, k, b, i)
    && forall c :: 0 <= c < |s.ch[k]| && c != b ==> i !in s.ch[k][c]
  }

  /** In every interleaving, every bucket's cells spell out a finite, acyclic,
      repeat-free chain, no slot is in two buckets of one key, and every ACTIVE
      slot whose wlock is free sits in exactly the bucket of its image, under
      every key. */
  lemma ConcurrentIndex(cfg: Config, run: seq<World>, who: seq<Tid>, n: nat)
    requires IsRun(cfg, run, who) && n < |run|
    ensures Sized(cfg, run[n])
    ensures forall k :: 0 <= k < |cfg.keys| ==> Represents(run[n].head[k], run[n].next[k], run[n].ch[k])
    ensures forall i, k ::
              && 0 <= k < |cfg.keys| && 0 <= i < |run[n].slots| && run[n].slots[i].state == Active
              && Row(i) !in run[n].owner ==>
              OnlyAt(run[n], k, cfg.Home(k, run[n].slots[i].image), i)
  {
    RunInv(cfg, run, who, n);
    IndexOf(cfg, run[n]);
  }

  lemma IndexOf(cfg: Config, s: World)
    requires Inv(cfg, s)
    ensures forall k :: 0 <= k < |cfg.keys| ==> Represents(s.head[k], s.next[k], s.ch[k])
    ensures forall i, k ::
              0 <= i < |s.slots| && s.slots[i].state == Active && Row(i) !in s.owner && 0 <= k < |cfg.keys| ==>
              OnlyAt(s, k, cfg.Home(k, s.slots[i].image), i)
  {
    hide History;
    forall i, k | 0 <= i < |s.slots| && s.slots[i].state == Active && Row(i) !in s.owner && 0 <= k < |cfg.keys|
      ensures OnlyAt(s, k, cfg.Home(k, s.slots[i].image), i)
    {
      if i in s.cust {
        HandIsGuarded(cfg, s, s.cust[i], i);
      }
      hide CustodyOk, ThreadOk;
      assert In(s, k, cfg.Home(k, s.slots[i].image), i);
      assert Represents(s.head[k], s.next[k], s.ch[k]);
    }
  }

  // ----- locks ---------------------------------------------------------------

  /** While a handler holds the wlock of an ACTIVE slot, no step of another
      thread changes that slot's state, generation, image or place in the
      index, or takes the lock away. */
  lemma LockStability(cfg: Config, run: seq<World>, who: seq<Tid>, n: nat, t: Tid, i: nat)
    requires IsRun(cfg, run, who) && n < |who| && who[n] != t && t in run[n].th
    requires i < |run[n].slots| && run[n].slots[i].state == Active && Owns(run[n].owner, Row(i), t)
    ensures i < |run[n + 1].slots| && run[n + 1].slots[i] == run[n].slots[i]
    ensures Owns(run[n + 1].owner, Row(i), t)
    ensures |run[n].ch| == |run[n + 1].ch| == |cfg.keys|
    ensures forall k: nat, b: nat :: k < |cfg.keys| && b < cfg.nbuckets ==>
              |run[n].ch[k]| == |run[n + 1].ch[k]| == cfg.nbuckets && In(run[n + 1], k, b, i) == In(run[n], k, b, i)
  {
    RunInv(cfg, run, who, n);
    assert Step(cfg, run[n], who[n], run[n + 1]);
    hide Indexed, FreeOk, Settled, History, CustodyOk, ThreadOk, Exec, Begin;
    StepIsGood(cfg, run[n], who[n], run[n + 1]);
    assert Untouched(cfg, run[n], run[n + 1], t);
  }

  /** A handler owns exactly the wlock its row_locked/locked_slot pair says. */
  lemma RowAccounting(cfg: Config, run: seq<World>, who: seq<Tid>, n: nat, t: Tid, i: nat)
    requires IsRun(cfg, run, who) && n < |run| && t in run[n].th
    ensures Owns(run[n].owner, Row(i), t) <==> run[n].th[t].row == Some(i)
  {
    RunInv(cfg, run, who, n);
    hide Indexed, FreeOk, Settled, History, CustodyOk;
    assert ThreadOk(cfg, run[n], t);
    hide True;
    NoRowInPc(cfg, |run[n].slots|, run[n].th[t], i);
  }

  lemma UpdateLocks(cfg: Config, u: Upd, n: nat)
    requires cfg.nbuckets > 0 && u.Valid(cfg)
    ensures forall l :: l in FirstLocks(u, n) ==> l.Bucket?
    ensures n < |u.ls| ==>
              u.ls[n].Bucket? && forall l :: l in FirstLocks(u, n) ==> HandlerRank(l) < HandlerRank(u.ls[n])
  {
    forall j | 0 <= j < |u.ls| ensures u.ls[j].Bucket? {
      assert u.ls[j] in u.ls;
    }
  }

  lemma NoRowInPc(cfg: Config, n: nat, th: Thread, i: nat)
    requires cfg.nbuckets > 0 && Fits(cfg, n, th)
    ensures Row(i) !in PcFacts(cfg, th.pc).locks
  {
    if th.pc.Updating? || th.pc.Moving? {
      forall m: nat ensures Row(i) !in FirstLocks(th.pc.u, m) {
        UpdateLocks(cfg, th.pc.u, m);
      }
    }
    hide HomesOf, HomesMidway, KeyOps.Contract, FirstLocks, Upd.Valid;
  }

  lemma WantsMore(cfg: Config, n: nat, th: Thread)
    requires cfg.Valid() && Fits(cfg, n, th) && Wants(cfg, th.pc).Some?
    ensures forall l :: l in FactsOf(cfg, th).locks ==> HandlerRank(l) < HandlerRank(Wants(cfg, th.pc).value)
  {
    if th.pc.Updating? && th.pc.p.UpLock? {
      UpdateLocks(cfg, th.pc.u, th.pc.p.n);
    }
    hide HomesOf, HomesMidway, KeyOps.Contract, FirstLocks, Upd.Valid;
  }

  /** No reachable state has a group of threads waiting for each other: in any
      group of waiting threads, one waits for a lock nobody in the group holds. */
  lemma NoDeadlock(cfg: Config, run: seq<World>, who: seq<Tid>, n: nat, waiting: map<Tid, Lock>)
    requires IsRun(cfg, run, who) && n < |run| && cfg.nbuckets > 0 && waiting != map[]
    requires forall t :: t in waiting ==> t in run[n].th && Wants(cfg, run[n].th[t].pc) == Some(waiting[t])
    ensures exists t :: t in waiting && (waiting[t] in run[n].owner ==> run[n].owner[waiting[t]] !in waiting)
  {
    var s := run[n];
    RunInv(cfg, run, who, n);
    forall t | t in waiting ensures Climbs(s.owner, t, waiting[t], HandlerRank) {
      hide Indexed, FreeOk, Settled, History, CustodyOk;
      assert ThreadOk(cfg, s, t);
      hide True, Guarded, FactsOf, HandlerRank;
      WantsMore(cfg, |s.slots|, s.th[t]);
    }
    NoCycle(s.owner, waiting, HandlerRank);
  }

  /** A running call that waits for no lock, or for a free one, can go on. */
  lemma CanGoOn(cfg: Config, s: World, t: Tid)
    requires Runs(cfg, s, t) && !s.th[t].pc.Idle?
    requires Wants(cfg, s.th[t].pc).Some? ==> Wants(cfg, s.th[t].pc).value !in s.owner
    ensures Exec(cfg, s, t).Some?
  {
    hide Upd.Valid, KeyOps.Contract, Cut;
  }

  /** Whenever some call is running, some running call can take a step, or one
      waits for a row whose handler the server has not called again yet. */
  lemma Progress(cfg: Config, run: seq<World>, who: seq<Tid>, n: nat, t: Tid)
    requires IsRun(cfg, run, who) && n < |run| && t in run[n].th && !run[n].th[t].pc.Idle?
    ensures exists u :: Runs(cfg, run[n], u) && !run[n].th[u].pc.Idle? &&
              (Exec(cfg, run[n], u).Some? || AwaitsServer(cfg, run[n], u))
  {
    var s := run[n];
    RunInv(cfg, run, who, n);
    forall u | u in s.th ensures Runs(cfg, s, u) {
      assert ThreadOk(cfg, s, u);
    }
    var waiting := map u | u in s.th && Wants(cfg, s.th[u].pc).Some? :: Wants(cfg, s.th[u].pc).value;
    hide Indexed, FreeOk, Settled, History, CustodyOk, ThreadOk, Exec, IsRun;
    if t !in waiting {
      CanGoOn(cfg, s, t);
    } else {
      NoDeadlock(cfg, run, who, n, waiting);
      var u :| u in waiting && (waiting[u] in s.owner ==> s.owner[waiting[u]] !in waiting);
      if waiting[u] !in s.owner {
        CanGoOn(cfg, s, u);
      } else {
        HolderIsBusy(cfg, s, u);
      }
    }
  }

  /** Thread u waits for the wlock of a row held by an idle handler. */
  ghost predicate AwaitsServer(cfg: Config, s: World, u: Tid)
    requires cfg.nbuckets > 0 && u in s.th
  {
    var w := Wants(cfg, s.th[u].pc);
    w.Some? && w.value.Row? && w.value in s.owner && s.owner[w.value] in s.th && s.th[s.owner[w.value]].pc.Idle?
  }

  lemma HolderIsBusy(cfg: Config, s: World, u: Tid)
    requires Inv(cfg, s) && u in s.th && Wants(cfg, s.th[u].pc).Some? && Wants(cfg, s.th[u].pc).value in s.owner
    requires var v := s.owner[Wants(cfg, s.th[u].pc).value]; v in s.th ==> Wants(cfg, s.th[v].pc).None?
    ensures var v := s.owner[Wants(cfg, s.th[u].pc).value];
            && Runs(cfg, s, u) && Runs(cfg, s, v) && !s.th[u].pc.Idle?
            && (AwaitsServer(cfg, s, u) || (!s.th[v].pc.Idle? && Exec(cfg, s, v).Some?))
  {
    hide Indexed, FreeOk, Settled, History, CustodyOk, Exec;
    var l := Wants(cfg, s.th[u].pc).value;
    var v := s.owner[l];
    assert ThreadOk(cfg, s, u) && ThreadOk(cfg, s, v);
    assert Owns(s.owner, l, v);
    if !s.th[v].pc.Idle? {
      hide ThreadOk, FactsOf;
      CanGoOn(cfg, s, v);
    }
  }

  // ----- no lost updates -------------------------------------------------------

  /** A job that reaches its commit works on the image it was given: a locked
      update or delete after a re-read (or a read check) is never refused. */
  lemma JobsStartFresh(cfg: Config, run: seq<World>, who: seq<Tid>, n: nat, t: Tid)
    requires IsRun(cfg, run, who) && n < |run| && t in run[n].th
    ensures var pc := run[n].th[t].pc;
            && (pc.Checking? && pc.c.Ready? ==>
                  pc.i < |run[n].slots| && run[n].slots[pc.i].Accepts(pc.g) && run[n].slots[pc.i].image == pc.was)
            && (pc.Updating? && (pc.p.UpFast? || pc.p.UpWrite?) ==>
                  pc.u.i < |run[n].slots| && run[n].slots[pc.u.i].state == Active
                      && run[n].slots[pc.u.i].image == pc.u.was)
  {
    RunInv(cfg, run, who, n);
    hide Indexed, FreeOk, Settled, History, CustodyOk;
    assert ThreadOk(cfg, run[n], t);
    hide Upd.Valid, FirstLocks;
  }

  /** The number of image writes to slot i since its row was published. */
  function Tally(pc: Pc, i: nat, before: nat): nat {
    if pc.Inserting? && pc.n == InsPublish(i) then 0
    else if pc.Updating? && pc.u.i == i && (pc.p.UpFast? || pc.p.UpWrite?) then before + 1
    else before
  }

  /** What a step from pc makes of the recorded writes of slot i. */
  function Extended(pc: Pc, i: nat, ws: seq<Write>): (r: seq<Write>)
    ensures |r| == Tally(pc, i, |ws|)
  {
    if pc.Inserting? && pc.n == InsPublish(i) then []
    else if pc.Updating? && pc.u.i == i && (pc.p.UpFast? || pc.p.UpWrite?) then ws + [Write(pc.u.was, pc.u.now)]
    else ws
  }

  ghost function Commits(cfg: Config, run: seq<World>, who: seq<Tid>, i: nat, n: nat): nat
    requires IsRun(cfg, run, who) && n < |run|
    decreases n
  {
    if n == 0 then 0
    else
      assert Step(cfg, run[n - 1], who[n - 1], run[n - 1 + 1]);
      Tally(run[n - 1].th[who[n - 1]].pc, i, Commits(cfg, run, who, i, n - 1))
  }

  /** What a step of thread t does to the history of slot i. */
  ghost predicate Counted(s: World, t: Tid, i: nat, o: Option<World>)
    requires t in s.th
  {
    o.Some? ==>
      && |o.value.writes| == |s.writes| && |o.value.slots| == |s.slots|
      && (i < |s.writes| ==> o.value.writes[i] == Extended(s.th[t].pc, i, s.writes[i]))
  }

  /** A step that writes to no history. */
  ghost predicate Quiet(s: World, o: Option<World>) {
    o.Some? ==> o.value.writes == s.writes && |o.value.slots| == |s.slots|
  }

  lemma InsertCounted(cfg: Config, s: World, t: Tid, i: nat)
    requires Runs(cfg, s, t) && s.th[t].pc.Inserting?
    ensures Counted(s, t, i, ExecInsert(cfg, s, t, s.th[t].pc.rec, s.th[t].pc.n))
  {
    hide KeyOps.Contract, LinkIn;
    var pc := s.th[t].pc;
    if !pc.n.InsPublish? {
      assert Quiet(s, ExecInsert(cfg, s, t, pc.rec, pc.n));
    }
  }

  lemma UpdateCounted(cfg: Config, s: World, t: Tid, i: nat)
    requires Runs(cfg, s, t) && s.th[t].pc.Updating?
    ensures Counted(s, t, i, ExecUpdate(cfg, s, t, s.th[t].pc.u, s.th[t].pc.p))
  {
    hide Upd.Valid, KeyOps.Contract, Clash, Config.Home, Config.Checked, Slotish, Config.Same;
    var pc := s.th[t].pc;
    if !pc.p.UpFast? && !pc.p.UpWrite? {
      assert Quiet(s, ExecUpdate(cfg, s, t, pc.u, pc.p));
    }
  }

  lemma MoveQuiet(cfg: Config, s: World, t: Tid, u: Upd, j: nat, m: MovePc)
    requires Runs(cfg, s, t) && s.th[t].pc == Moving(u, j, m)
    ensures Quiet(s, ExecMove(cfg, s, t, u, j, m))
  {
    hide Upd.Valid, KeyOps.Contract, UnlinkFrom, LinkIn, Config.Home;
  }

  lemma DeleteQuiet(cfg: Config, s: World, t: Tid, i: nat, rec: Bytes, d: DelPc)
    requires Runs(cfg, s, t) && s.th[t].pc == Removing(i, rec, d)
    ensures Quiet(s, ExecDelete(cfg, s, t, i, rec, d))
  {
    hide Upd.Valid, KeyOps.Contract, UnlinkFrom, LinkIn, Config.Home;
  }

  lemma UndoQuiet(cfg: Config, s: World, t: Tid, rec: Bytes, i: nat, o: UndoPc)
    requires Runs(cfg, s, t) && s.th[t].pc == Undoing(rec, i, o)
    ensures Quiet(s, ExecUndo(cfg, s, t, rec, i, o))
  {
    hide Upd.Valid, KeyOps.Contract, UnlinkFrom, LinkIn, Config.Home;
  }

  /** No other call writes to a published row's history. */
  lemma OthersQuiet(cfg: Config, s: World, t: Tid)
    requires Runs(cfg, s, t) && !s.th[t].pc.Inserting? && !s.th[t].pc.Updating?
    ensures Quiet(s, Exec(cfg, s, t))
  {
    hide Upd.Valid, KeyOps.Contract, ExecUndo, ExecMove, ExecDelete;
    match s.th[t].pc {
      case Undoing(rec, i, o) => UndoQuiet(cfg, s, t, rec, i, o);
      case Moving(u, j, m) => MoveQuiet(cfg, s, t, u, j, m);
      case Removing(i, rec, d) => DeleteQuiet(cfg, s, t, i, rec, d);
      case _ =>
    }
  }

  lemma StepWrites(cfg: Config, s: World, t: Tid, s': World, i: nat)
    requires Step(cfg, s, t, s')
    ensures Counted(s, t, i, Some(s'))
  {
    hide Upd.Valid, KeyOps.Contract, ExecInsert, ExecUpdate, ExecRow, ExecFind, ExecUndo, ExecCheck, ExecMove,
         ExecDelete;
    if s.th[t].pc.Inserting? {
      InsertCounted(cfg, s, t, i);
    } else if s.th[t].pc.Updating? {
      UpdateCounted(cfg, s, t, i);
    } else {
      OthersQuiet(cfg, s, t);
    }
  }

  /** The recorded history of a slot is the run's: one entry for each image
      write since the row was published. */
  lemma {:induction false} CommitsCounted(cfg: Config, run: seq<World>, who: seq<Tid>, i: nat, n: nat)
    requires IsRun(cfg, run, who) && n < |run| && i < |run[n].slots|
    ensures i < |run[n].writes| && |run[n].writes[i]| == Commits(cfg, run, who, i, n)
  {
    hide Inv, Step;
    if n > 0 {
      assert Step(cfg, run[n - 1], who[n - 1], run[n - 1 + 1]);
      StepWrites(cfg, run[n - 1], who[n - 1], run[n], i);
      CommitsCounted(cfg, run, who, i, n - 1);
    }
  }

  /** Each write adds one to the number the row shows. */
  ghost predicate Counts(ws: seq<Write>, val: Bytes -> int) {
    forall j :: 0 <= j < |ws| ==> val(ws[j].now) == val(ws[j].was) + 1
  }

  lemma BeforeIs(born: Bytes, ws: seq<Write>, j: nat)
    requires j <= |ws|
    ensures Before(born, ws, j) == if j == 0 then born else ws[j - 1].now
  {
  }

  lemma {:induction false} Increments(born: Bytes, ws: seq<Write>, image: Bytes, val: Bytes -> int)
    requires Unbroken(born, ws, image) && Counts(ws, val)
    ensures val(image) == val(born) + |ws|
    decreases |ws|
  {
    hide Before;
    BeforeIs(born, ws, |ws|);
    if ws != [] {
      var m := |ws| - 1;
      forall j: nat | j <= m ensures Before(born, ws[..m], j) == Before(born, ws, j) {
        BeforeIs(born, ws, j);
        BeforeIs(born, ws[..m], j);
      }
      Increments(born, ws[..m], Before(born, ws, m), val);
    }
  }

  /** Whatever the threads do, the committed writes of a row's lifetime form one chain
      from the published image to the current one; so if every one of them adds 1 to a
      counter column, the counter has grown by exactly the number of commits. */
  lemma WritesChain(cfg: Config, run: seq<World>, who: seq<Tid>, n: nat, i: nat, val: Bytes -> int)
    requires IsRun(cfg, run, who) && n < |run| && i < |run[n].slots| && run[n].slots[i].state == Active
    ensures i < |run[n].writes| && i < |run[n].born|
            && Unbroken(run[n].born[i], run[n].writes[i], run[n].slots[i].image)
    ensures Counts(run[n].writes[i], val) ==>
              val(run[n].slots[i].image) == val(run[n].born[i]) + Commits(cfg, run, who, i, n)
  {
    RunInv(cfg, run, who, n);
    CommitsCounted(cfg, run, who, i, n);
    hide IsRun, Indexed, FreeOk, Settled, CustodyOk, ThreadOk;
    if Counts(run[n].writes[i], val) {
      Increments(run[n].born[i], run[n].writes[i], run[n].slots[i].image, val);
    }
  }
}
