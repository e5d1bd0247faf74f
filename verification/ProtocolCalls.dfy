/** What a call gets: the jobs of the handlers, inserts and lookups, from the call to its
    end, whatever other threads do. */
module ProtocolCalls {
  import opened Keys
  import opened Slots
  import opened Chain
  import opened LockOrder
  import opened LockSet
  import opened Protocol
  import opened ProtocolInvariant
  import opened ProtocolRuns
  import opened ProtocolTheorems
  import U = ProtocolUnique

  // ----- calls in progress --------------------------------------------------------------

  /** With step m thread t is called. */
  ghost predicate Starts(cfg: Config, run: seq<World>, who: seq<Tid>, m: nat, t: Tid, call: Call) {
    && IsRun(cfg, run, who) && m < |who| && who[m] == t && Runs(cfg, run[m], t) && run[m].th[t].pc.Idle?
    && Begin(cfg, run[m], t, call) == Some(run[m + 1])
  }

  /** In state n thread t is still at the call that started with step m. */
  ghost predicate During(cfg: Config, run: seq<World>, who: seq<Tid>, m: nat, n: nat, t: Tid, call: Call) {
    && Starts(cfg, run, who, m, t, call) && m < n < |run|
    && forall j :: m < j <= n ==> t in run[j].th && !run[j].th[t].pc.Idle?
  }

  /** With step n thread t comes back from that call. */
  ghost predicate Ends(cfg: Config, run: seq<World>, who: seq<Tid>, m: nat, n: nat, t: Tid, call: Call) {
    && During(cfg, run, who, m, n, t, call) && n < |who| && who[n] == t
    && t in run[n + 1].th && run[n + 1].th[t].pc.Idle?
  }

  lemma OthersLeave(cfg: Config, s: World, u: Tid, s': World, t: Tid)
    requires Inv(cfg, s) && Step(cfg, s, u, s') && t in s.th
    ensures t in s'.th && (t != u ==> s'.th[t] == s.th[t])
  {
    StepIsGood(cfg, s, u, s');
    hide Inv, Step, Untouched;
  }

  lemma DuringMeans(cfg: Config, run: seq<World>, who: seq<Tid>, m: nat, n: nat, t: Tid, call: Call)
    requires During(cfg, run, who, m, n, t, call)
    ensures IsRun(cfg, run, who) && |run| == |who| + 1 && m < n < |run| && t in run[n].th && t in run[m].th
    ensures !run[n].th[t].pc.Idle?
    ensures Runs(cfg, run[m], t) && run[m].th[t].pc.Idle? && Begin(cfg, run[m], t, call) == Some(run[m + 1])
  {
    hide Begin, Step, Fits;
  }

  /** One step back in a call. */
  lemma Back(cfg: Config, run: seq<World>, who: seq<Tid>, m: nat, n: nat, t: Tid, call: Call)
    requires During(cfg, run, who, m, n, t, call) && n > m + 1
    ensures During(cfg, run, who, m, n - 1, t, call) && Inv(cfg, run[n - 1])
            && Step(cfg, run[n - 1], who[n - 1], run[n])
    ensures who[n - 1] != t ==> run[n].th[t] == run[n - 1].th[t]
  {
    hide Inv, Step, Runs, Begin, Init;
    RunInv(cfg, run, who, n - 1);
    assert Step(cfg, run[n - 1], who[n - 1], run[n - 1 + 1]);
    OthersLeave(cfg, run[n - 1], who[n - 1], run[n], t);
  }

  // ----- walks for duplicates ------------------------------------------------------------

  /** An ACTIVE row that equals rec under unique key k, of which rec has no NULL part. */
  ghost predicate Duplicate(cfg: Config, s: World, k: nat, j: int, rec: Bytes) {
    && k < |cfg.keys| && cfg.keys[k].unique && !cfg.keys[k].ops.hasNull(rec)
    && 0 <= j < |s.slots| && s.slots[j].state == Active && cfg.keys[k].ops.sameRec(s.slots[j].image, rec)
  }

  /** Walks for duplicates are under unique keys of which the record has no NULL part. */
  ghost predicate WalksWell(cfg: Config, pc: Pc) {
    && (pc.Inserting? && pc.n.InsDup? ==>
          pc.n.k < |cfg.keys| && cfg.keys[pc.n.k].unique && !cfg.keys[pc.n.k].ops.hasNull(pc.rec))
    && (pc.Updating? && pc.p.UpDupWalk? ==>
          && pc.p.j < |pc.u.ks| && pc.u.ks[pc.p.j] < |cfg.keys|
          && cfg.keys[pc.u.ks[pc.p.j]].unique && !cfg.keys[pc.u.ks[pc.p.j]].ops.hasNull(pc.u.now))
  }

  lemma InsertWalksWell(cfg: Config, s: World, t: Tid)
    requires Runs(cfg, s, t) && s.th[t].pc.Inserting? && WalksWell(cfg, s.th[t].pc)
    ensures var o := ExecInsert(cfg, s, t, s.th[t].pc.rec, s.th[t].pc.n);
            o.Some? ==> t in o.value.th && WalksWell(cfg, o.value.th[t].pc)
  {
    var rec, p := s.th[t].pc.rec, s.th[t].pc.n;
    hide KeyOps.Contract, ExecInsert, Runs;
    if p.InsKey? {
      KeyWalksWell(cfg, s, t, rec, p.i, p.k);
    } else if p.InsDup? {
      DupWalksWell(cfg, s, t, rec, p.i, p.k, p.cur);
    } else {
      InsertElsewhere(cfg, s, t, rec, p);
    }
  }

  lemma KeyWalksWell(cfg: Config, s: World, t: Tid, rec: Bytes, i: nat, k: nat)
    requires Runs(cfg, s, t) && s.th[t].pc == Inserting(rec, InsKey(i, k))
    ensures var o := ExecInsert(cfg, s, t, rec, InsKey(i, k));
            o.Some? ==> t in o.value.th && WalksWell(cfg, o.value.th[t].pc)
  {
    hide KeyOps.Contract, Config.Home;
  }

  lemma DupWalksWell(cfg: Config, s: World, t: Tid, rec: Bytes, i: nat, k: nat, cur: int)
    requires Runs(cfg, s, t) && s.th[t].pc == Inserting(rec, InsDup(i, k, cur)) && WalksWell(cfg, s.th[t].pc)
    ensures var o := ExecInsert(cfg, s, t, rec, InsDup(i, k, cur));
            o.Some? ==> t in o.value.th && WalksWell(cfg, o.value.th[t].pc)
  {
    hide KeyOps.Contract, Clash;
  }

  lemma InsertElsewhere(cfg: Config, s: World, t: Tid, rec: Bytes, p: InsPc)
    requires Runs(cfg, s, t) && s.th[t].pc == Inserting(rec, p) && !p.InsKey? && !p.InsDup?
    ensures Elsewhere(t, ExecInsert(cfg, s, t, rec, p))
  {
    hide KeyOps.Contract, LinkIn, Config.Home, Publish, Pop;
  }

  lemma UpdateWalksWell(cfg: Config, s: World, t: Tid)
    requires Runs(cfg, s, t) && s.th[t].pc.Updating? && WalksWell(cfg, s.th[t].pc)
    ensures var o := ExecUpdate(cfg, s, t, s.th[t].pc.u, s.th[t].pc.p);
            o.Some? ==> t in o.value.th && WalksWell(cfg, o.value.th[t].pc)
  {
    hide KeyOps.Contract, Config.Home, Config.Same;
  }

  /** A thread that is not at such a walk. */
  predicate Elsewhere(t: Tid, o: Option<World>) {
    o.Some? ==>
      && t in o.value.th
      && var pc := o.value.th[t].pc; !(pc.Inserting? && pc.n.InsDup?) && !(pc.Updating? && pc.p.UpDupWalk?)
  }

  /** A thread that is at no put and before no delete. */
  predicate NoModify(t: Tid, o: Option<World>) {
    o.Some? ==>
      t in o.value.th && !o.value.th[t].pc.Checking? && !o.value.th[t].pc.Updating? && !o.value.th[t].pc.Moving?
  }

  lemma UndoElsewhere(cfg: Config, s: World, t: Tid, rec: Bytes, i: nat, o: UndoPc)
    requires Runs(cfg, s, t) && s.th[t].pc == Undoing(rec, i, o)
    ensures Elsewhere(t, ExecUndo(cfg, s, t, rec, i, o)) && NoModify(t, ExecUndo(cfg, s, t, rec, i, o))
  {
    hide KeyOps.Contract, Config.Home, LinkIn, UnlinkFrom, Cut;
  }

  lemma MoveElsewhere(cfg: Config, s: World, t: Tid, u: Upd, j: nat, m: MovePc)
    requires Runs(cfg, s, t) && s.th[t].pc == Moving(u, j, m)
    ensures Elsewhere(t, ExecMove(cfg, s, t, u, j, m))
  {
    hide KeyOps.Contract, Config.Home, LinkIn, UnlinkFrom, Upd.Valid, Cut;
  }

  lemma DeleteElsewhere(cfg: Config, s: World, t: Tid, i: nat, rec: Bytes, d: DelPc)
    requires Runs(cfg, s, t) && s.th[t].pc == Removing(i, rec, d)
    ensures Elsewhere(t, ExecDelete(cfg, s, t, i, rec, d)) && NoModify(t, ExecDelete(cfg, s, t, i, rec, d))
  {
    hide KeyOps.Contract, Config.Home, LinkIn, UnlinkFrom, Cut;
  }

  /** No other step comes to such a walk. */
  lemma OthersWalkWell(cfg: Config, s: World, t: Tid)
    requires Runs(cfg, s, t) && !s.th[t].pc.Inserting? && !s.th[t].pc.Updating?
    ensures Elsewhere(t, Exec(cfg, s, t))
  {
    hide KeyOps.Contract, ExecUndo, ExecMove, ExecDelete, ExecInsert, ExecUpdate, Upd.Valid, Changed, Locks;
    match s.th[t].pc {
      case Undoing(rec, i, o) => UndoElsewhere(cfg, s, t, rec, i, o);
      case Moving(u, j, m) => MoveElsewhere(cfg, s, t, u, j, m);
      case Removing(i, rec, d) => DeleteElsewhere(cfg, s, t, i, rec, d);
      case _ =>
    }
  }

  lemma StepWalksWell(cfg: Config, s: World, t: Tid, s': World)
    requires Step(cfg, s, t, s') && WalksWell(cfg, s.th[t].pc)
    ensures t in s'.th && WalksWell(cfg, s'.th[t].pc)
  {
    hide KeyOps.Contract, ExecInsert, ExecUpdate, ExecRow, ExecFind, ExecUndo, ExecCheck, ExecMove, ExecDelete,
         Upd.Valid;
    if Exec(cfg, s, t) == Some(s') {
      if s.th[t].pc.Inserting? {
        InsertWalksWell(cfg, s, t);
      } else if s.th[t].pc.Updating? {
        UpdateWalksWell(cfg, s, t);
      } else {
        OthersWalkWell(cfg, s, t);
      }
    }
  }

  lemma {:induction false} RunWalksWell(cfg: Config, run: seq<World>, who: seq<Tid>, n: nat, t: Tid)
    requires IsRun(cfg, run, who) && n < |run| && t in run[n].th
    ensures WalksWell(cfg, run[n].th[t].pc)
  {
    if n > 0 {
      RunInv(cfg, run, who, n - 1);
      assert Step(cfg, run[n - 1], who[n - 1], run[n - 1 + 1]);
      hide Inv, Step, WalksWell, IsRun;
      StepIsGood(cfg, run[n - 1], who[n - 1], run[n]);
      assert t in run[n - 1].th by { hide Untouched; }
      RunWalksWell(cfg, run, who, n - 1, t);
      if who[n - 1] == t {
        StepWalksWell(cfg, run[n - 1], t, run[n]);
      } else {
        OthersLeave(cfg, run[n - 1], who[n - 1], run[n], t);
      }
    }
  }

  // ----- puts ------------------------------------------------------------------------------

  /** A handler is asked to put now in the place of its row, which it believes to be was. */
  ghost predicate AsksPut(s: World, t: Tid, call: Call, i: nat, was: Bytes, now: Bytes)
    requires t in s.th
  {
    && s.th[t].row == Some(i)
    && match call
       case ModifySeen(job) => job == Put(now) && s.th[t].seen.Some? && s.th[t].seen.value.buf == was
       case ModifyChecked(_, image, job) => job == Put(now) && image == was
       case _ => false
  }

  /** A thread at a put. */
  predicate Puts(pc: Pc, i: nat, was: Bytes, now: Bytes) {
    || (pc.Checking? && pc.i == i && pc.was == was && pc.job == Put(now))
    || ((pc.Updating? || pc.Moving?) && pc.u.i == i && pc.u.was == was && pc.u.now == now)
  }

  /** Its next step is the image write. */
  predicate Writes(pc: Pc) { pc.Updating? && (pc.p.UpFast? || pc.p.UpWrite?) }

  /** It has come through its tests, or not: it has written, or it has been refused. */
  predicate Decided(pc: Pc) { pc.Moving? || (pc.Updating? && pc.p.UpUnlock?) || pc == Locking(Unrow) }

  /** A put is refused in state s: its row is gone or not what the handler believes it to
      be, or the new image would be a duplicate. */
  ghost predicate PutRefused(cfg: Config, s: World, pc: Pc, i: nat, was: Bytes, now: Bytes) {
    || (pc.Checking? && i < |s.slots| && (!s.slots[i].Accepts(pc.g) || s.slots[i].image != was))
    || exists k, j :: Duplicate(cfg, s, k, j, now)
  }

  lemma CheckStep(cfg: Config, s: World, t: Tid, i: nat, was: Bytes, now: Bytes)
    requires Runs(cfg, s, t) && s.th[t].pc.Checking? && Puts(s.th[t].pc, i, was, now)
    ensures var o := Exec(cfg, s, t);
            o.Some? ==>
              && t in o.value.th && (Puts(o.value.th[t].pc, i, was, now) || o.value.th[t].pc == Locking(Unrow))
              && (Decided(o.value.th[t].pc) ==> PutRefused(cfg, s, s.th[t].pc, i, was, now))
  {
    hide KeyOps.Contract, Changed, Locks;
  }

  lemma UpdateStep(cfg: Config, s: World, t: Tid, i: nat, was: Bytes, now: Bytes)
    requires Runs(cfg, s, t) && s.th[t].pc.Updating? && Puts(s.th[t].pc, i, was, now) && WalksWell(cfg, s.th[t].pc)
    ensures var o := Exec(cfg, s, t);
            o.Some? ==>
              && t in o.value.th && (Puts(o.value.th[t].pc, i, was, now) || o.value.th[t].pc == Locking(Unrow))
              && (Decided(o.value.th[t].pc) && !Decided(s.th[t].pc) ==>
                    Writes(s.th[t].pc) || PutRefused(cfg, s, s.th[t].pc, i, was, now))
  {
    hide KeyOps.Contract, Config.Home, Config.Checked;
    var pc := s.th[t].pc;
    if pc.p.UpDupWalk? && pc.p.cur != NIL && Clash(cfg, s, pc.u.ks[pc.p.j], pc.p.cur, now) {
      assert Duplicate(cfg, s, pc.u.ks[pc.p.j], pc.p.cur, now);
    }
  }

  lemma MoveStep(cfg: Config, s: World, t: Tid, i: nat, was: Bytes, now: Bytes)
    requires Runs(cfg, s, t) && s.th[t].pc.Moving? && Puts(s.th[t].pc, i, was, now)
    ensures var o := Exec(cfg, s, t); o.Some? ==> t in o.value.th && Puts(o.value.th[t].pc, i, was, now)
  {
    hide KeyOps.Contract, Config.Home, UnlinkFrom, LinkIn, Upd.Valid;
  }

  /** A put stays at what it was asked for, until it is over. */
  lemma PutStep(cfg: Config, s: World, t: Tid, s': World, i: nat, was: Bytes, now: Bytes)
    requires Step(cfg, s, t, s') && WalksWell(cfg, s.th[t].pc)
    requires Puts(s.th[t].pc, i, was, now) || s.th[t].pc == Locking(Unrow)
    ensures t in s'.th
    ensures s'.th[t].pc.Idle? || Puts(s'.th[t].pc, i, was, now) || s'.th[t].pc == Locking(Unrow)
    ensures Decided(s'.th[t].pc) && !Decided(s.th[t].pc) ==>
              Writes(s.th[t].pc) || PutRefused(cfg, s, s.th[t].pc, i, was, now)
  {
    hide KeyOps.Contract, ExecInsert, ExecUpdate, ExecFind, ExecUndo, ExecCheck, ExecMove, ExecDelete, PutRefused,
         WalksWell;
    match s.th[t].pc {
      case Checking(_, _, _, _, _) => CheckStep(cfg, s, t, i, was, now);
      case Updating(_, _) => UpdateStep(cfg, s, t, i, was, now);
      case Moving(_, _, _) => MoveStep(cfg, s, t, i, was, now);
      case _ =>
    }
  }

  lemma PutBegins(cfg: Config, s: World, t: Tid, call: Call, i: nat, was: Bytes, now: Bytes)
    requires Runs(cfg, s, t) && s.th[t].pc.Idle? && AsksPut(s, t, call, i, was, now)
    ensures var o := Begin(cfg, s, t, call);
            o.Some? ==> t in o.value.th && Puts(o.value.th[t].pc, i, was, now) && o.value.th[t].pc.Checking?
  {
  }

  /** In state n a put is still at what was asked for; and once it is decided, there was a
      step c that wrote it, or one that refused it. */
  ghost predicate PutTold(cfg: Config, run: seq<World>, who: seq<Tid>, m: nat, n: nat, t: Tid,
                          i: nat, was: Bytes, now: Bytes, c: nat)
    requires n < |run| == |who| + 1 && t in run[n].th
  {
    && (Puts(run[n].th[t].pc, i, was, now) || run[n].th[t].pc == Locking(Unrow))
    && (Decided(run[n].th[t].pc) ==>
          && m < c < n && who[c] == t && t in run[c].th && Puts(run[c].th[t].pc, i, was, now)
          && (Writes(run[c].th[t].pc) || PutRefused(cfg, run[c], run[c].th[t].pc, i, was, now)))
  }

  lemma PutToldFirst(cfg: Config, run: seq<World>, who: seq<Tid>, m: nat, n: nat, t: Tid, i: nat, was: Bytes,
                     now: Bytes)
    requires n < |run| == |who| + 1 && t in run[n].th && run[n].th[t].pc.Checking? && Puts(run[n].th[t].pc, i, was, now)
    ensures PutTold(cfg, run, who, m, n, t, i, was, now, 0)
  {
  }

  lemma PutToldOn(cfg: Config, run: seq<World>, who: seq<Tid>, m: nat, n: nat, t: Tid,
                  i: nat, was: Bytes, now: Bytes, c: nat) returns (c': nat)
    requires m < n < |run| - 1 == |who| && t in run[n].th && PutTold(cfg, run, who, m, n, t, i, was, now, c)
    requires Step(cfg, run[n], who[n], run[n + 1]) && WalksWell(cfg, run[n].th[t].pc)
    requires t in run[n + 1].th && !run[n + 1].th[t].pc.Idle? && (who[n] != t ==> run[n + 1].th[t] == run[n].th[t])
    ensures PutTold(cfg, run, who, m, n + 1, t, i, was, now, c')
  {
    c' := c;
    hide Step, PutRefused, WalksWell;
    if who[n] == t {
      PutStep(cfg, run[n], t, run[n + 1], i, was, now);
      if !Decided(run[n].th[t].pc) { c' := n; }
    }
  }

  lemma {:induction false} PutGoesOn(cfg: Config, run: seq<World>, who: seq<Tid>, m: nat, n: nat, t: Tid, call: Call,
                                     i: nat, was: Bytes, now: Bytes)
    returns (c: nat)
    requires During(cfg, run, who, m, n, t, call) && AsksPut(run[m], t, call, i, was, now)
    ensures PutTold(cfg, run, who, m, n, t, i, was, now, c)
    decreases n
  {
    hide During, IsRun, Inv, Step, WalksWell, Begin, Runs, AsksPut, PutTold;
    DuringMeans(cfg, run, who, m, n, t, call);
    if n == m + 1 {
      PutBegins(cfg, run[m], t, call, i, was, now);
      PutToldFirst(cfg, run, who, m, n, t, i, was, now);
      c := 0;
    } else {
      Back(cfg, run, who, m, n, t, call);
      DuringMeans(cfg, run, who, m, n - 1, t, call);
      c := PutGoesOn(cfg, run, who, m, n - 1, t, call, i, was, now);
      RunWalksWell(cfg, run, who, n - 1, t);
      c := PutToldOn(cfg, run, who, m, n - 1, t, i, was, now, c);
    }
  }

  /** The image write of an update. */
  lemma WriteStep(cfg: Config, s: World, t: Tid, s': World)
    requires Inv(cfg, s) && Step(cfg, s, t, s') && Writes(s.th[t].pc)
    ensures var u := s.th[t].pc.u;
            && u.i < |s.slots| && s.slots[u.i].state == Active && s.slots[u.i].image == u.was
            && s'.slots == s.slots[u.i := s.slots[u.i].(image := u.now)]
  {
    U.Knowing(cfg, s, t);
    hide Inv, KeyOps.Contract, Upd.Valid;
  }

  /** A put from the call to its end: at some step in between its row had the image the
      handler believed it to have and was given the one asked for, or it was refused, the
      row being gone or another one, or the new image being a duplicate. */
  lemma PutEnds(cfg: Config, run: seq<World>, who: seq<Tid>, m: nat, n: nat, t: Tid, call: Call,
                i: nat, was: Bytes, now: Bytes)
    returns (c: nat)
    requires Ends(cfg, run, who, m, n, t, call) && AsksPut(run[m], t, call, i, was, now)
    ensures m < c < n && who[c] == t && t in run[c].th
    ensures || PutRefused(cfg, run[c], run[c].th[t].pc, i, was, now)
            || (&& i < |run[c].slots| && run[c].slots[i].state == Active && run[c].slots[i].image == was
                && run[c + 1].slots == run[c].slots[i := run[c].slots[i].(image := now)])
  {
    c := PutGoesOn(cfg, run, who, m, n, t, call, i, was, now);
    RunInv(cfg, run, who, n);
    RunWalksWell(cfg, run, who, n, t);
    assert Step(cfg, run[n], who[n], run[n + 1]);
    hide Inv, PutRefused, WalksWell, AsksPut, Begin, Step;
    PutLeaves(cfg, run[n], t, run[n + 1], i, was, now);
    RunInv(cfg, run, who, c);
    assert Step(cfg, run[c], who[c], run[c + 1]);
    hide IsRun;
    if Writes(run[c].th[t].pc) { WriteStep(cfg, run[c], t, run[c + 1]); }
  }

  /** A put comes back by way of giving up its row lock. */
  lemma PutLeaves(cfg: Config, s: World, t: Tid, s': World, i: nat, was: Bytes, now: Bytes)
    requires Step(cfg, s, t, s') && WalksWell(cfg, s.th[t].pc)
    requires Puts(s.th[t].pc, i, was, now) || s.th[t].pc == Locking(Unrow)
    requires t in s'.th && s'.th[t].pc.Idle?
    ensures s.th[t].pc == Locking(Unrow)
  {
    hide KeyOps.Contract, ExecInsert, ExecUpdate, ExecFind, ExecUndo, ExecCheck, ExecMove, ExecDelete, PutRefused,
         WalksWell;
    match s.th[t].pc {
      case Checking(_, _, _, _, _) => CheckStep(cfg, s, t, i, was, now);
      case Updating(_, _) => UpdateStep(cfg, s, t, i, was, now);
      case Moving(_, _, _) => MoveStep(cfg, s, t, i, was, now);
      case _ =>
    }
  }

  // ----- no lost updates ---------------------------------------------------------------------

  /** Every put that a handler is asked for on slot i, up to state n, adds one to the number
      the row shows. */
  ghost predicate PutsAdd(cfg: Config, run: seq<World>, who: seq<Tid>, n: nat, i: nat, val: Bytes -> int) {
    forall m, t, call, was, now ::
      0 <= m < n && Starts(cfg, run, who, m, t, call) && AsksPut(run[m], t, call, i, was, now) ==>
          val(now) == val(was) + 1
  }

  /** A thread at a put on slot i adds one. */
  ghost predicate Adds(pc: Pc, i: nat, val: Bytes -> int) {
    forall was, now :: Puts(pc, i, was, now) ==> val(now) == val(was) + 1
  }

  lemma BeginAdds(cfg: Config, s: World, t: Tid, call: Call, i: nat, val: Bytes -> int)
    requires Runs(cfg, s, t) && s.th[t].pc.Idle? && Begin(cfg, s, t, call).Some?
    requires forall was, now :: AsksPut(s, t, call, i, was, now) ==> val(now) == val(was) + 1
    ensures var s' := Begin(cfg, s, t, call).value; t in s'.th && Adds(s'.th[t].pc, i, val)
  {
    var s' := Begin(cfg, s, t, call).value;
    forall was, now | Puts(s'.th[t].pc, i, was, now) ensures val(now) == val(was) + 1 {
      assert AsksPut(s, t, call, i, was, now);
    }
  }

  /** A thread that is at no put does not get to one but by a call. */
  lemma NoPut(cfg: Config, s: World, t: Tid)
    requires Runs(cfg, s, t) && !s.th[t].pc.Checking? && !s.th[t].pc.Updating? && !s.th[t].pc.Moving?
    ensures NoModify(t, Exec(cfg, s, t))
  {
    hide KeyOps.Contract, ExecUndo, ExecDelete, ExecInsert, ExecCheck, ExecUpdate, ExecMove;
    match s.th[t].pc {
      case Undoing(rec, i, o) => UndoElsewhere(cfg, s, t, rec, i, o);
      case Removing(i, rec, d) => DeleteElsewhere(cfg, s, t, i, rec, d);
      case Inserting(rec, p) => InsertModifiesNot(cfg, s, t, rec, p);
      case _ =>
    }
  }

  lemma InsertModifiesNot(cfg: Config, s: World, t: Tid, rec: Bytes, p: InsPc)
    requires Runs(cfg, s, t) && s.th[t].pc == Inserting(rec, p)
    ensures NoModify(t, ExecInsert(cfg, s, t, rec, p))
  {
    hide KeyOps.Contract, LinkIn, Config.Home, Config.Same, Config.Checked, Publish, Pop;
  }

  lemma ExecAdds(cfg: Config, s: World, t: Tid, i: nat, val: Bytes -> int)
    requires Runs(cfg, s, t) && Adds(s.th[t].pc, i, val) && WalksWell(cfg, s.th[t].pc)
    ensures var o := Exec(cfg, s, t); o.Some? ==> t in o.value.th && Adds(o.value.th[t].pc, i, val)
  {
    var pc := s.th[t].pc;
    hide Exec, WalksWell, Runs, PutRefused, Decided;
    if pc.Checking? {
      if pc.job.Put? { CheckStep(cfg, s, t, pc.i, pc.was, pc.job.now); } else { EraseIsNoPut(cfg, s, t); }
    } else if pc.Updating? {
      UpdateStep(cfg, s, t, pc.u.i, pc.u.was, pc.u.now);
    } else if pc.Moving? {
      MoveStep(cfg, s, t, pc.u.i, pc.u.was, pc.u.now);
    } else {
      NoPut(cfg, s, t);
    }
  }

  lemma EraseIsNoPut(cfg: Config, s: World, t: Tid)
    requires Runs(cfg, s, t) && s.th[t].pc.Checking? && s.th[t].pc.job.Erase?
    ensures var o := Exec(cfg, s, t);
            o.Some? ==> t in o.value.th && forall i, was, now :: !Puts(o.value.th[t].pc, i, was, now)
  {
    hide KeyOps.Contract;
  }

  /** The stepping thread still adds. */
  lemma StepAdds(cfg: Config, run: seq<World>, who: seq<Tid>, n: nat, i: nat, val: Bytes -> int)
    requires IsRun(cfg, run, who) && n < |who| && PutsAdd(cfg, run, who, n + 1, i, val)
    requires who[n] in run[n].th && Adds(run[n].th[who[n]].pc, i, val) && WalksWell(cfg, run[n].th[who[n]].pc)
    ensures who[n] in run[n + 1].th && Adds(run[n + 1].th[who[n]].pc, i, val)
  {
    var s, t, s' := run[n], who[n], run[n + 1];
    assert Step(cfg, s, t, s');
    hide Exec, Begin, WalksWell, Adds, IsRun, AsksPut, Fits;
    if Exec(cfg, s, t) == Some(s') {
      ExecAdds(cfg, s, t, i, val);
    } else if Grow(s, t) != Some(s') {
      var call :| Begin(cfg, s, t, call) == Some(s');
      assert Starts(cfg, run, who, n, t, call);
      BeginAdds(cfg, s, t, call, i, val);
    }
  }

  lemma {:induction false} AllAdd(cfg: Config, run: seq<World>, who: seq<Tid>, n: nat, i: nat, val: Bytes -> int,
                                  t: Tid)
    requires IsRun(cfg, run, who) && n < |run| && PutsAdd(cfg, run, who, n, i, val) && t in run[n].th
    ensures Adds(run[n].th[t].pc, i, val)
    decreases n
  {
    if n > 0 {
      RunInv(cfg, run, who, n - 1);
      assert Step(cfg, run[n - 1], who[n - 1], run[n - 1 + 1]);
      assert PutsAdd(cfg, run, who, n - 1, i, val);
      hide Inv, Step, Adds, PutsAdd, IsRun;
      SameThreads(cfg, run[n - 1], who[n - 1], run[n]);
      AllAdd(cfg, run, who, n - 1, i, val, t);
      if who[n - 1] == t {
        RunWalksWell(cfg, run, who, n - 1, t);
        StepAdds(cfg, run, who, n - 1, i, val);
      } else {
        OthersLeave(cfg, run[n - 1], who[n - 1], run[n], t);
      }
    }
  }

  lemma SameThreads(cfg: Config, s: World, u: Tid, s': World)
    requires Inv(cfg, s) && Step(cfg, s, u, s')
    ensures s'.th.Keys == s.th.Keys && u in s.th && |s'.slots| == |s.slots|
  {
    StepIsGood(cfg, s, u, s');
    hide Inv, Untouched;
  }

  lemma {:induction false} WritesAdd(cfg: Config, run: seq<World>, who: seq<Tid>, n: nat, i: nat, val: Bytes -> int)
    requires IsRun(cfg, run, who) && n < |run| && i < |run[n].slots| && PutsAdd(cfg, run, who, n, i, val)
    ensures i < |run[n].writes| && Counts(run[n].writes[i], val)
    decreases n
  {
    if n > 0 {
      RunInv(cfg, run, who, n - 1);
      var s, t := run[n - 1], who[n - 1];
      assert Step(cfg, s, t, run[n - 1 + 1]);
      assert PutsAdd(cfg, run, who, n - 1, i, val);
      hide Inv, Step, PutsAdd, IsRun, Counts, Adds;
      SameThreads(cfg, s, t, run[n]);
      WritesAdd(cfg, run, who, n - 1, i, val);
      StepWrites(cfg, s, t, run[n], i);
      AllAdd(cfg, run, who, n - 1, i, val, t);
      StillCounts(s.th[t].pc, i, s.writes[i], val);
    }
  }

  lemma StillCounts(pc: Pc, i: nat, ws: seq<Write>, val: Bytes -> int)
    requires Counts(ws, val) && Adds(pc, i, val)
    ensures Counts(Extended(pc, i, ws), val)
  {
    if pc.Updating? && pc.u.i == i { assert Puts(pc, i, pc.u.was, pc.u.now); }
  }

  /** No lost updates.  If every put that is asked for on slot i adds one to the number the
      row shows, then, whatever the threads do, the number has grown since the row was
      inserted by exactly the number of puts committed. */
  lemma NoLostUpdates(cfg: Config, run: seq<World>, who: seq<Tid>, n: nat, i: nat, val: Bytes -> int)
    requires IsRun(cfg, run, who) && n < |run| && i < |run[n].slots| && run[n].slots[i].state == Active
    requires PutsAdd(cfg, run, who, n, i, val)
    ensures i < |run[n].born|
    ensures val(run[n].slots[i].image) == val(run[n].born[i]) + Commits(cfg, run, who, i, n)
  {
    hide IsRun, PutsAdd, Counts;
    WritesAdd(cfg, run, who, n, i, val);
    WritesChain(cfg, run, who, n, i, val);
  }
}
