/** Why unique keys need the condition of ProtocolUnique: a run in which an insert
    overlaps a key-changing update, both pass their duplicate checks, and two equal
    rows end up under one unique key. */
module ProtocolRace {
  import opened Keys
  import opened Slots
  import opened Chain
  import opened LockOrder
  import opened LockSet
  import opened Protocol
  import opened ProtocolSteps
  import opened ProtocolTheorems

  /** One unique key, the whole record, in one bucket; room for two rows. */
  const OPS := KeyOps(_ => 0, _ => 0, (a, b) => a == b, (r, k) => r == k, _ => false)
  const CFG := Config([KeyDef(OPS, true, false)], 1, 2, [0])

  lemma ConfigValid()
    ensures CFG.Valid() && |CFG.keys| == 1 && CFG.nbuckets == 1
    ensures forall rec :: CFG.Home(0, rec) == 0 && CFG.Checked(0, rec)
    ensures forall a, b :: CFG.Same(0, a, b) <==> a == b
  {
  }

  /** All of a state that the steps look at. */
  datatype View = View(x: seq<Slot>, free: seq<nat>, ready: nat, h: int, n: seq<int>, owner: map<Lock, Tid>,
                       th: map<Tid, Thread>)

  ghost predicate Shows(s: World, v: View) {
    && s.slots == v.x && |v.x| == 2 && s.free == v.free && s.ready == v.ready && s.head == [[v.h]] && s.next == [v.n]
    && |v.n| == 2
    && s.owner == v.owner && s.th == v.th
    && |s.ch| == 1 && |s.ch[0]| == 1 && |s.born| == 2 && |s.writes| == 2
  }

  lemma ShownSized(s: World, v: View)
    requires Shows(s, v)
    ensures Sized(CFG, s)
  {
    ConfigValid();
  }

  // ----- stretches of a run ----------------------------------------------------------

  /** Thread t goes on with its call for n steps, from s to s'. */
  ghost predicate Goes(s: World, t: Tid, n: nat, s': World)
    decreases n
  {
    if n == 0 then s' == s
    else Runs(CFG, s, t) && Exec(CFG, s, t).Some? && Goes(Exec(CFG, s, t).value, t, n - 1, s')
  }

  lemma Extended(run: seq<World>, who: seq<Tid>, t: Tid, s': World)
    requires IsRun(CFG, run, who) && Step(CFG, run[|who|], t, s')
    ensures IsRun(CFG, run + [s'], who + [t])
  {
    hide Step, Init;
    var r, h := run + [s'], who + [t];
    forall n | 0 <= n < |h| ensures Step(CFG, r[n], h[n], r[n + 1]) {
      if n < |who| { assert Step(CFG, run[n], who[n], run[n + 1]); }
    }
  }

  lemma {:induction false} GoOn(run: seq<World>, who: seq<Tid>, t: Tid, n: nat, s': World)
    returns (run': seq<World>, who': seq<Tid>)
    requires IsRun(CFG, run, who) && Goes(run[|who|], t, n, s')
    ensures IsRun(CFG, run', who') && |run'| == |who'| + 1 && run'[|who'|] == s'
    decreases n
  {
    hide Exec, Runs, Init;
    run', who' := run, who;
    if n > 0 {
      var s1 := Exec(CFG, run[|who|], t).value;
      Extended(run, who, t, s1);
      run', who' := GoOn(run + [s1], who + [t], t, n - 1, s');
    }
  }

  function Ins(rec: Bytes, p: InsPc): Thread { Thread(Inserting(rec, p), None, None) }

  /** Thread t has been asked to insert and takes struct_mutex. */
  lemma InsertLocks(s: World, v: View, t: Tid, rec: Bytes) returns (s': World)
    requires Shows(s, v) && t in v.th && v.th[t] == Ins(rec, InsWait) && Struct !in v.owner
    ensures Goes(s, t, 1, s') && Shows(s', v.(owner := v.owner[Struct := t], th := v.th[t := Ins(rec, InsAlloc)]))
  {
    hide KeyOps.Contract, Config.Valid, ExecUpdate, ExecMove, ExecDelete, ExecUndo, ExecCheck, ExecFind, ExecRow, Goes;
    ShownSized(s, v);
    s' := Exec(CFG, s, t).value;
    OneStep(s, t, s');
  }

  /** It takes the first slot of the freelist and the bucket lock, and stands at the
      first row of the chain. */
  lemma InsertStarts(s: World, v: View, t: Tid, rec: Bytes, i: nat) returns (s': World)
    requires Shows(s, v) && t in v.th && v.th[t] == Ins(rec, InsAlloc)
    requires v.free != [] && v.ready > 0 && v.free[0] == i && i < 2 && Bucket(0, 0) !in v.owner && -1 <= v.h < 2
    ensures Goes(s, t, 3, s')
    ensures Shows(s', View(v.x[i := v.x[i].(image := rec)], v.free[1..], v.ready - 1, v.h, v.n,
                           v.owner[Bucket(0, 0) := t], v.th[t := Ins(rec, InsDup(i, 0, v.h))]))
  {
    ConfigValid();
    hide KeyOps.Contract, Config.Valid, Config.Home, Config.Checked, ExecUpdate, ExecMove, ExecDelete, ExecUndo,
         ExecCheck, ExecFind, ExecRow, Goes;
    ShownSized(s, v);
    var s1 := Exec(CFG, s, t).value;
    var v1 := v.(free := v.free[1..], ready := v.ready - 1, th := v.th[t := Ins(rec, InsCopy(i))]);
    ShownSized(s1, v1);
    var s2 := Exec(CFG, s1, t).value;
    var v2 := v1.(x := v.x[i := v.x[i].(image := rec)], th := v1.th[t := Ins(rec, InsKey(i, 0))]);
    ShownSized(s2, v2);
    s' := Exec(CFG, s2, t).value;
    ThreeSteps(s, t, s1, s2, s');
    assert s'.th == v.th[t := Ins(rec, InsDup(i, 0, v.h))];
  }

  lemma ThreeSteps(s: World, t: Tid, s1: World, s2: World, s3: World)
    requires Runs(CFG, s, t) && Exec(CFG, s, t) == Some(s1)
    requires Runs(CFG, s1, t) && Exec(CFG, s1, t) == Some(s2)
    requires Runs(CFG, s2, t) && Exec(CFG, s2, t) == Some(s3)
    ensures Goes(s, t, 3, s3)
  {
    hide Runs, Exec;
    assert Goes(s3, t, 0, s3);
    assert Goes(s2, t, 1, s3);
    assert Goes(s1, t, 2, s3);
  }

  lemma FourSteps(s: World, t: Tid, s1: World, s2: World, s3: World, s4: World)
    requires Runs(CFG, s, t) && Exec(CFG, s, t) == Some(s1)
    requires Runs(CFG, s1, t) && Exec(CFG, s1, t) == Some(s2)
    requires Runs(CFG, s2, t) && Exec(CFG, s2, t) == Some(s3)
    requires Runs(CFG, s3, t) && Exec(CFG, s3, t) == Some(s4)
    ensures Goes(s, t, 4, s4)
  {
    hide Runs, Exec;
    assert Goes(s4, t, 0, s4);
    assert Goes(s3, t, 1, s4);
    assert Goes(s2, t, 2, s4);
    assert Goes(s1, t, 3, s4);
  }

  /** With the check at the end of the chain, the row is linked and the bucket lock
      given back; the row is not visible yet. */
  lemma InsertLinks(s: World, v: View, t: Tid, rec: Bytes, i: nat) returns (s': World)
    requires Shows(s, v) && t in v.th && v.th[t] == Ins(rec, InsDup(i, 0, NIL)) && i < 2 && Bucket(0, 0) in v.owner
    ensures Goes(s, t, 4, s')
    ensures Shows(s', v.(h := i, n := v.n[i := v.h], owner := v.owner - {Bucket(0, 0)},
              th := v.th[t := Ins(rec, InsKey(i, 1))]))
  {
    ConfigValid();
    hide KeyOps.Contract, Config.Valid, Config.Home, Config.Checked, ExecUpdate, ExecMove, ExecDelete, ExecUndo,
         ExecCheck, ExecFind, ExecRow, Goes;
    ShownSized(s, v);
    var s1 := Exec(CFG, s, t).value;
    var v1 := v.(th := v.th[t := Ins(rec, InsLink(i, 0))]);
    ShownSized(s1, v1);
    var s2 := Exec(CFG, s1, t).value;
    var v2 := v1.(n := v.n[i := v.h], th := v1.th[t := Ins(rec, InsHead(i, 0))]);
    ShownSized(s2, v2);
    var s3 := Exec(CFG, s2, t).value;
    var v3 := v2.(h := i, th := v2.th[t := Ins(rec, InsUnlock(i, 0))]);
    assert s3.head[0] == [i];
    ShownSized(s3, v3);
    s' := Exec(CFG, s3, t).value;
    FourSteps(s, t, s1, s2, s3, s');
    assert s'.th == v.th[t := Ins(rec, InsKey(i, 1))];
  }

  /** The row becomes visible. */
  lemma InsertShows(s: World, v: View, t: Tid, rec: Bytes, i: nat) returns (s': World)
    requires Shows(s, v) && t in v.th && v.th[t] == Ins(rec, InsKey(i, 1)) && i < 2
    ensures Goes(s, t, 2, s')
    ensures Shows(s', v.(x := v.x[i := v.x[i].(state := Active)], th := v.th[t := Ins(rec, InsEnd)]))
  {
    ConfigValid();
    hide KeyOps.Contract, Config.Valid, Config.Home, Config.Checked, ExecUpdate, ExecMove, ExecDelete, ExecUndo,
         ExecCheck, ExecFind, ExecRow, Goes;
    ShownSized(s, v);
    var s1 := Exec(CFG, s, t).value;
    var v1 := v.(th := v.th[t := Ins(rec, InsPublish(i))]);
    ShownSized(s1, v1);
    s' := Exec(CFG, s1, t).value;
    TwoSteps(s, t, s1, s');
    assert s'.th == v.th[t := Ins(rec, InsEnd)];
  }

  lemma TwoSteps(s: World, t: Tid, s1: World, s2: World)
    requires Runs(CFG, s, t) && Exec(CFG, s, t) == Some(s1)
    requires Runs(CFG, s1, t) && Exec(CFG, s1, t) == Some(s2)
    ensures Goes(s, t, 2, s2)
  {
    hide Runs, Exec;
    assert Goes(s2, t, 0, s2);
    assert Goes(s1, t, 1, s2);
  }

  lemma OneStep(s: World, t: Tid, s1: World)
    requires Runs(CFG, s, t) && Exec(CFG, s, t) == Some(s1)
    ensures Goes(s, t, 1, s1)
  {
    hide Runs, Exec;
    assert Goes(s1, t, 0, s1);
  }

  lemma InsertEnds(s: World, v: View, t: Tid, rec: Bytes) returns (s': World)
    requires Shows(s, v) && t in v.th && v.th[t] == Ins(rec, InsEnd)
    ensures Goes(s, t, 1, s') && Shows(s', v.(owner := v.owner - {Struct}, th := v.th[t := Thread(Idle, None, None)]))
  {
    hide KeyOps.Contract, Config.Valid, ExecUpdate, ExecMove, ExecDelete, ExecUndo, ExecCheck, ExecFind, ExecRow, Goes;
    ShownSized(s, v);
    s' := Exec(CFG, s, t).value;
    OneStep(s, t, s');
  }

  /** The duplicate check passes a row that differs. */
  lemma InsertPasses(s: World, v: View, t: Tid, rec: Bytes, i: nat, cur: nat) returns (s': World)
    requires Shows(s, v) && t in v.th && v.th[t] == Ins(rec, InsDup(i, 0, cur)) && i < 2 && cur < 2
             && v.x[cur].image != rec
    ensures Goes(s, t, 1, s') && Shows(s', v.(th := v.th[t := Ins(rec, InsDup(i, 0, v.n[cur]))]))
  {
    ConfigValid();
    hide KeyOps.Contract, Config.Valid, Config.Same, ExecUpdate, ExecMove, ExecDelete, ExecUndo, ExecCheck, ExecFind,
         ExecRow, Goes;
    ShownSized(s, v);
    s' := Exec(CFG, s, t).value;
    OneStep(s, t, s');
  }

  function Lock(i: nat, r: RowPc): Thread { Thread(Locking(r), Some(i), None) }

  /** A handler takes the free wlock of a visible row and re-reads it. */
  lemma RowIsRead(s: World, v: View, t: Tid, i: nat) returns (s': World)
    requires Shows(s, v) && t in v.th && v.th[t] == Thread(Locking(RowWait(i)), None, None)
    requires i < 2 && v.x[i].state == Active && Row(i) !in v.owner
    ensures Goes(s, t, 5, s')
    ensures Shows(s', v.(owner := v.owner[Row(i) := t],
              th := v.th[t := Thread(Idle, Some(i), Some(Seen(v.x[i].Gen(), v.x[i].image)))]))
  {
    hide KeyOps.Contract, Config.Valid, ExecUpdate, ExecMove, ExecDelete, ExecUndo, ExecCheck, ExecFind, ExecInsert,
         Goes, Slot.Gen;
    ShownSized(s, v);
    var g := v.x[i].Gen();
    var s1 := Exec(CFG, s, t).value;
    var v1 := v.(owner := v.owner[Row(i) := t], th := v.th[t := Lock(i, ReGen(i))]);
    ShownSized(s1, v1);
    var s2 := Exec(CFG, s1, t).value;
    var v2 := v1.(th := v1.th[t := Lock(i, ReState(i, g))]);
    ShownSized(s2, v2);
    var s3 := Exec(CFG, s2, t).value;
    var v3 := v2.(th := v2.th[t := Lock(i, ReGenCheck(i, g))]);
    ShownSized(s3, v3);
    var s4 := Exec(CFG, s3, t).value;
    var v4 := v3.(th := v3.th[t := Lock(i, ReCopy(i, g))]);
    ShownSized(s4, v4);
    s' := Exec(CFG, s4, t).value;
    FourSteps(s1, t, s2, s3, s4, s');
    OneMore(s, t, s1, 4, s');
    assert s'.th == v.th[t := Thread(Idle, Some(i), Some(Seen(g, v.x[i].image)))];
  }

  lemma OneMore(s: World, t: Tid, s1: World, n: nat, s': World)
    requires Runs(CFG, s, t) && Exec(CFG, s, t) == Some(s1) && Goes(s1, t, n, s')
    ensures Goes(s, t, n + 1, s')
  {
    hide Runs, Exec;
  }

  // ----- the update --------------------------------------------------------------------

  /** Slot 0 goes from [1] to [2]; one key, one bucket lock. */
  const U := Upd(0, [1], [2], [0], [Bucket(0, 0)])

  function Upd1(p: UpPc): Thread { Thread(Updating(U, p), Some(0), None) }

  lemma UpdateIs()
    ensures Changed(CFG, [1], [2]) == U.ks && Locks(CFG, [1], [2]) == U.ls && U.Valid(CFG)
  {
    ConfigValid();
    assert ChangedBelow(CFG, 0, [1], [2]) == [];
    assert ChangedBelow(CFG, 1, [1], [2]) == [0];
    assert [0][..0] == [];
    assert PairsOf(CFG, [], [1], [2]) == [];
    assert PairsOf(CFG, [0], [1], [2]) == Pair(CFG, 0, [1], [2]);
    StartValid(CFG, 0, [1], [2]);
  }

  /** From the accepted job to the first row of its duplicate check. */
  lemma UpdateStarts(s: World, v: View, t: Tid, g: nat) returns (s': World)
    requires Shows(s, v) && t in v.th && v.th[t] == Thread(Checking(0, g, [1], Put([2]), Ready), Some(0), None)
    requires v.x[0].Accepts(g) && Bucket(0, 0) !in v.owner && -1 <= v.h < 2
    ensures Goes(s, t, 4, s')
    ensures Shows(s', v.(owner := v.owner[Bucket(0, 0) := t], th := v.th[t := Upd1(UpDupWalk(0, v.h))]))
  {
    ConfigValid();
    UpdateIs();
    hide KeyOps.Contract, Config.Valid, Config.Home, Config.Checked, ExecMove, ExecDelete, ExecUndo, ExecInsert,
         ExecFind, ExecRow, Goes, Upd.Valid, Changed, Locks, Slot.Gen;
    ShownSized(s, v);
    var s1 := Exec(CFG, s, t).value;
    var v1 := v.(th := v.th[t := Upd1(UpLock(0))]);
    ShownSized(s1, v1);
    var s2 := Exec(CFG, s1, t).value;
    var v2 := v1.(owner := v.owner[Bucket(0, 0) := t], th := v1.th[t := Upd1(UpLock(1))]);
    ShownSized(s2, v2);
    var s3 := Exec(CFG, s2, t).value;
    var v3 := v2.(th := v2.th[t := Upd1(UpDup(0))]);
    ShownSized(s3, v3);
    s' := Exec(CFG, s3, t).value;
    FourSteps(s, t, s1, s2, s3, s');
    assert s'.th == v.th[t := Upd1(UpDupWalk(0, v.h))];
  }

  /** The check skips slot 1, which is not visible yet, and finds slot 0, its own row,
      different. */
  lemma UpdateChecks(s: World, v: View, t: Tid) returns (s': World)
    requires Shows(s, v) && t in v.th && v.th[t] == Upd1(UpDupWalk(0, 1))
    requires v.x[1].state != Active && v.x[0].image == [1] && v.n == [NIL, 0]
    ensures Goes(s, t, 4, s') && Shows(s', v.(th := v.th[t := Upd1(UpWrite)]))
  {
    ConfigValid();
    UpdateIs();
    hide KeyOps.Contract, Config.Valid, Config.Home, Config.Checked, Config.Same, ExecMove, ExecDelete, ExecUndo,
         ExecInsert, ExecFind, ExecRow, ExecCheck, Goes, Upd.Valid, Changed, Locks;
    ShownSized(s, v);
    var s1 := Exec(CFG, s, t).value;
    var v1 := v.(th := v.th[t := Upd1(UpDupWalk(0, 0))]);
    ShownSized(s1, v1);
    var s2 := Exec(CFG, s1, t).value;
    var v2 := v1.(th := v1.th[t := Upd1(UpDupWalk(0, NIL))]);
    ShownSized(s2, v2);
    var s3 := Exec(CFG, s2, t).value;
    var v3 := v2.(th := v2.th[t := Upd1(UpDup(1))]);
    ShownSized(s3, v3);
    s' := Exec(CFG, s3, t).value;
    FourSteps(s, t, s1, s2, s3, s');
    assert s'.th == v.th[t := Upd1(UpWrite)];
  }

  lemma UpdateWrites(s: World, v: View, t: Tid) returns (s': World)
    requires Shows(s, v) && t in v.th && v.th[t] == Upd1(UpWrite)
    ensures Goes(s, t, 1, s')
    ensures Shows(s', v.(x := v.x[0 := v.x[0].(image := [2])],
              th := v.th[t := Thread(Moving(U, 0, MoveKey), Some(0), None)]))
  {
    ConfigValid();
    UpdateIs();
    hide KeyOps.Contract, Config.Valid, ExecMove, ExecDelete, ExecUndo, ExecInsert, ExecFind, ExecRow, ExecCheck,
         Goes, Upd.Valid, Changed, Locks;
    ShownSized(s, v);
    s' := Exec(CFG, s, t).value;
    OneStep(s, t, s');
  }

  // ----- the run ---------------------------------------------------------------------------

  /** The last state of a run shows v. */
  ghost predicate Reaches(run: seq<World>, who: seq<Tid>, v: View) {
    |run| == |who| + 1 && IsRun(CFG, run, who) && Shows(run[|who|], v)
  }

  /** Where an idle handler stands once it is asked for something. */
  function Asked(th: Thread, call: Call): Thread
    requires call.ModifySeen? ==> th.row.Some? && th.seen.Some?
  {
    match call
    case LockRow(i) => th.(pc := Locking(RowWait(i)))
    case Insert(rec) => th.(pc := Inserting(rec, InsWait))
    case ModifySeen(job) => Thread(Checking(th.row.value, th.seen.value.g, th.seen.value.buf, job, Ready), th.row, None)
    case _ => th
  }

  lemma Ask(run: seq<World>, who: seq<Tid>, v: View, t: Tid, call: Call) returns (run': seq<World>, who': seq<Tid>)
    requires Reaches(run, who, v) && t in v.th && v.th[t].pc.Idle?
    requires (v.th[t].row.Some? ==> v.th[t].row.value < 2) && (v.th[t].seen.Some? ==> v.th[t].row.Some?)
    requires call.Insert? || (call.LockRow? && call.i < 2 && v.th[t].row.None?)
             || (call.ModifySeen? && v.th[t].seen.Some?)
    ensures Reaches(run', who', v.(th := v.th[t := Asked(v.th[t], call)]))
  {
    hide KeyOps.Contract, Config.Valid, Exec, Init;
    var s := run[|who|];
    ShownSized(s, v);
    var s' := Begin(CFG, s, t, call).value;
    assert Step(CFG, s, t, s');
    Extended(run, who, t, s');
    run', who' := run + [s'], who + [t];
    assert run'[|who'|] == s';
  }

  lemma Take(run: seq<World>, who: seq<Tid>, t: Tid, n: nat, s': World, v: View)
    returns (run': seq<World>, who': seq<Tid>)
    requires IsRun(CFG, run, who) && Goes(run[|who|], t, n, s') && Shows(s', v)
    ensures Reaches(run', who', v)
  {
    run', who' := GoOn(run, who, t, n, s');
  }

  const REST := Thread(Idle, None, None)
  const BLANK := Slot(Free, 0, 0, [0])
  const START_VIEW := View([BLANK, BLANK], [0, 1], 0, NIL, [NIL, NIL], map[], map[0 := REST, 1 := REST])

  lemma Starts() returns (run: seq<World>, who: seq<Tid>)
    ensures Reaches(run, who, START_VIEW)
  {
    ConfigValid();
    run := [World([BLANK, BLANK], [0, 1], 0, [[NIL]], [[NIL, NIL]], map[], map[0 := REST, 1 := REST], [[[]]], map[],
        [[], []], [[], []])];
    who := [];
    ShownSized(run[0], START_VIEW);
  }

  /** The insert gets a chunk. */
  lemma Grows(run: seq<World>, who: seq<Tid>, v: View, t: Tid, rec: Bytes) returns (run': seq<World>, who': seq<Tid>)
    requires Reaches(run, who, v) && t in v.th && v.th[t] == Ins(rec, InsAlloc) && v.ready == 0 && 0 < |v.free| <= 2
    ensures Reaches(run', who', v.(ready := |v.free|))
  {
    hide KeyOps.Contract, Config.Valid, Exec, Init, Begin;
    var s := run[|who|];
    ShownSized(s, v);
    var s' := Grow(s, t).value;
    assert Step(CFG, s, t, s');
    Extended(run, who, t, s');
    run', who' := run + [s'], who + [t];
    assert run'[|who'|] == s';
  }

  /** A thread inserts rec into a chain of at most one other, different row, up to
      where its own row is linked and not yet visible. */
  lemma Links(run: seq<World>, who: seq<Tid>, v: View, t: Tid, rec: Bytes, i: nat)
    returns (run': seq<World>, who': seq<Tid>, v': View)
    requires Reaches(run, who, v) && t in v.th && v.th[t] == REST
    requires 0 < |v.free| <= 2 && v.free[0] == i && i < 2 && |v.x| == 2 && |v.n| == 2
    requires Struct !in v.owner && Bucket(0, 0) !in v.owner
             && (v.h == NIL || (0 <= v.h < 2 && v.h != i && v.n[v.h] == NIL && v.x[v.h].image != rec))
    ensures Reaches(run', who', v')
    ensures v' == View(v.x[i := v.x[i].(image := rec)], v.free[1..], v'.ready, i, v.n[i := v.h],
              v.owner[Struct := t][Bucket(0, 0) := t] - {Bucket(0, 0)}, v'.th)
    ensures v'.th == v.th[t := Ins(rec, InsKey(i, 1))]
  {
    hide Goes, IsRun, Shows;
    run', who' := Ask(run, who, v, t, Insert(rec));
    var v1 := v.(th := v.th[t := Ins(rec, InsWait)]);
    var s1 := InsertLocks(run'[|who'|], v1, t, rec);
    v1 := v1.(owner := v.owner[Struct := t], th := v1.th[t := Ins(rec, InsAlloc)]);
    run', who' := Take(run', who', t, 1, s1, v1);
    if v.ready == 0 {
      run', who' := Grows(run', who', v1, t, rec);
      v1 := v1.(ready := |v.free|);
    }
    s1 := InsertStarts(run'[|who'|], v1, t, rec, i);
    var v2 := View(v.x[i := v.x[i].(image := rec)], v.free[1..], v1.ready - 1, v.h, v.n, v1.owner[Bucket(0, 0) := t],
        v1.th[t := Ins(rec, InsDup(i, 0, v.h))]);
    run', who' := Take(run', who', t, 3, s1, v2);
    if v.h != NIL {
      s1 := InsertPasses(run'[|who'|], v2, t, rec, i, v.h);
      v2 := v2.(th := v2.th[t := Ins(rec, InsDup(i, 0, NIL))]);
      run', who' := Take(run', who', t, 1, s1, v2);
    }
    s1 := InsertLinks(run'[|who'|], v2, t, rec, i);
    v' := v2.(h := i, n := v2.n[i := v2.h], owner := v2.owner - {Bucket(0, 0)},
        th := v2.th[t := Ins(rec, InsKey(i, 1))]);
    run', who' := Take(run', who', t, 4, s1, v');
    assert v'.th == v.th[t := Ins(rec, InsKey(i, 1))];
  }

  /** A row [1] in slot 0, locked and re-read by handler 0. */
  lemma RowLocked() returns (run: seq<World>, who: seq<Tid>, v: View)
    ensures Reaches(run, who, v)
    ensures v.x == [Slot(Active, 0, 0, [1]), BLANK] && v.free == [1] && v.h == 0 && v.n == [NIL, NIL]
            && v.owner == map[Row(0) := 0]
    ensures v.th == map[0 := Thread(Idle, Some(0), Some(Seen(0, [1]))), 1 := REST]
  {
    hide Goes, IsRun, Shows;
    run, who := Starts();
    run, who, v := Links(run, who, START_VIEW, 0, [1], 0);
    var s := InsertShows(run[|who|], v, 0, [1], 0);
    v := v.(x := v.x[0 := v.x[0].(state := Active)], th := v.th[0 := Ins([1], InsEnd)]);
    run, who := Take(run, who, 0, 2, s, v);
    s := InsertEnds(run[|who|], v, 0, [1]);
    v := v.(owner := v.owner - {Struct}, th := v.th[0 := REST]);
    run, who := Take(run, who, 0, 1, s, v);
    assert v.owner == map[];
    run, who := Ask(run, who, v, 0, LockRow(0));
    v := v.(th := v.th[0 := Thread(Locking(RowWait(0)), None, None)]);
    s := RowIsRead(run[|who|], v, 0, 0);
    v := v.(owner := v.owner[Row(0) := 0],
        th := v.th[0 := Thread(Idle, Some(0), Some(Seen(v.x[0].Gen(), v.x[0].image)))]);
    run, who := Take(run, who, 0, 5, s, v);
  }

  /** Thread 1 links a row [2] and has not shown it when handler 0 checks, and
      writes, [2] over its own row. */
  lemma UpdateOvertakes() returns (run: seq<World>, who: seq<Tid>, v: View)
    ensures Reaches(run, who, v) && v.h == 1 && v.n == [NIL, 0]
    ensures v.x == [Slot(Active, 0, 0, [2]), Slot(Free, 0, 0, [2])]
    ensures v.owner == map[Row(0) := 0, Struct := 1, Bucket(0, 0) := 0]
    ensures v.th == map[0 := Mov(0, MoveKey), 1 := Ins([2], InsKey(1, 1))]
  {
    run, who, v := UpdatePasses();
    hide Goes, IsRun, Shows;
    var s := UpdateWrites(run[|who|], v, 0);
    v := v.(x := v.x[0 := v.x[0].(image := [2])], th := v.th[0 := Mov(0, MoveKey)]);
    run, who := Take(run, who, 0, 1, s, v);
  }

  /** The insert has linked its row, and the update's check has walked past it. */
  lemma UpdatePasses() returns (run: seq<World>, who: seq<Tid>, v: View)
    ensures Reaches(run, who, v) && v.h == 1 && v.n == [NIL, 0]
    ensures v.x == [Slot(Active, 0, 0, [1]), Slot(Free, 0, 0, [2])]
    ensures v.owner == map[Row(0) := 0, Struct := 1, Bucket(0, 0) := 0]
    ensures v.th == map[0 := Upd1(UpWrite), 1 := Ins([2], InsKey(1, 1))]
  {
    hide Goes, IsRun, Shows;
    run, who, v := RowLocked();
    run, who, v := Links(run, who, v, 1, [2], 1);
    run, who := Ask(run, who, v, 0, ModifySeen(Put([2])));
    v := v.(th := v.th[0 := Thread(Checking(0, 0, [1], Put([2]), Ready), Some(0), None)]);
    var s := UpdateStarts(run[|who|], v, 0, 0);
    v := v.(owner := v.owner[Bucket(0, 0) := 0], th := v.th[0 := Upd1(UpDupWalk(0, v.h))]);
    run, who := Take(run, who, 0, 4, s, v);
    s := UpdateChecks(run[|who|], v, 0);
    v := v.(th := v.th[0 := Upd1(UpWrite)]);
    run, who := Take(run, who, 0, 4, s, v);
  }

  // ----- to the end ----------------------------------------------------------------------

  function Mov(j: nat, m: MovePc): Thread { Thread(Moving(U, j, m), Some(0), None) }

  /** The update walks past row 1 and cuts row 0 out of the chain ... */
  lemma MoveCuts(s: World, v: View, t: Tid) returns (s': World)
    requires Shows(s, v) && t in v.th && v.th[t] == Mov(0, MoveKey) && v.h == 1 && v.n == [NIL, 0]
    ensures Goes(s, t, 3, s') && Shows(s', v.(n := [NIL, NIL], th := v.th[t := Mov(0, MoveLink)]))
  {
    ConfigValid();
    UpdateIs();
    hide KeyOps.Contract, Config.Valid, Config.Home, ExecUpdate, ExecDelete, ExecUndo, ExecInsert, ExecFind, ExecRow,
         ExecCheck, Goes, Upd.Valid;
    ShownSized(s, v);
    var s1 := Exec(CFG, s, t).value;
    var v1 := v.(th := v.th[t := Mov(0, MoveUnlink(START))]);
    ShownSized(s1, v1);
    var s2 := Exec(CFG, s1, t).value;
    var v2 := v1.(th := v1.th[t := Mov(0, MoveUnlink(Walk(1, 1)))]);
    ShownSized(s2, v2);
    s' := Exec(CFG, s2, t).value;
    ThreeSteps(s, t, s1, s2, s');
    assert s'.next[0] == [NIL, NIL];
    assert s'.th == v.th[t := Mov(0, MoveLink)];
  }

  /** ... links it again in front, ... */
  lemma MoveLinks(s: World, v: View, t: Tid) returns (s': World)
    requires Shows(s, v) && t in v.th && v.th[t] == Mov(0, MoveLink) && v.h == 1 && v.n == [NIL, NIL]
    ensures Goes(s, t, 3, s') && Shows(s', v.(h := 0, n := [1, NIL], th := v.th[t := Upd1(UpUnlock(1))]))
  {
    ConfigValid();
    UpdateIs();
    hide KeyOps.Contract, Config.Valid, Config.Home, ExecUpdate, ExecDelete, ExecUndo, ExecInsert, ExecFind, ExecRow,
         ExecCheck, Goes, Upd.Valid;
    ShownSized(s, v);
    var s1 := Exec(CFG, s, t).value;
    var v1 := v.(n := [1, NIL], th := v.th[t := Mov(0, MoveHead)]);
    assert s1.next[0] == [1, NIL];
    ShownSized(s1, v1);
    var s2 := Exec(CFG, s1, t).value;
    var v2 := v1.(h := 0, th := v1.th[t := Mov(1, MoveKey)]);
    assert s2.head[0] == [0];
    ShownSized(s2, v2);
    s' := Exec(CFG, s2, t).value;
    ThreeSteps(s, t, s1, s2, s');
    assert s'.th == v.th[t := Upd1(UpUnlock(1))];
  }

  /** ... and gives its locks back. */
  lemma UpdateEnds(s: World, v: View, t: Tid) returns (s': World)
    requires Shows(s, v) && t in v.th && v.th[t] == Upd1(UpUnlock(1))
    ensures Goes(s, t, 3, s')
    ensures Shows(s', v.(owner := v.owner - {Bucket(0, 0)} - {Row(0)}, th := v.th[t := REST]))
  {
    ConfigValid();
    UpdateIs();
    hide KeyOps.Contract, Config.Valid, Config.Home, ExecMove, ExecDelete, ExecUndo, ExecInsert, ExecFind, ExecCheck,
         Goes, Upd.Valid;
    ShownSized(s, v);
    var s1 := Exec(CFG, s, t).value;
    var v1 := v.(owner := v.owner - {Bucket(0, 0)}, th := v.th[t := Upd1(UpUnlock(0))]);
    ShownSized(s1, v1);
    var s2 := Exec(CFG, s1, t).value;
    var v2 := v1.(th := v1.th[t := Thread(Locking(Unrow), Some(0), None)]);
    ShownSized(s2, v2);
    s' := Exec(CFG, s2, t).value;
    ThreeSteps(s, t, s1, s2, s');
    assert s'.th == v.th[t := REST];
  }

  /** A run that ends with every handler idle, no lock held, and two visible, equal
      rows under a unique key. */
  lemma DuplicateRows() returns (run: seq<World>, who: seq<Tid>)
    ensures IsRun(CFG, run, who) && CFG.keys[0].unique
    ensures var s := run[|who|];
            && s.owner == map[] && (forall t :: t in s.th ==> s.th[t].pc == Idle) && s.th.Keys == {0, 1}
            && |s.slots| == 2 && s.slots[0].state == s.slots[1].state == Active
            && CFG.Same(0, s.slots[0].image, s.slots[1].image)
    ensures forall rec :: CFG.Checked(0, rec)
  {
    ConfigValid();
    hide Goes, IsRun, Shows;
    var v;
    run, who, v := UpdateOvertakes();
    var s := InsertShows(run[|who|], v, 1, [2], 1);
    v := v.(x := v.x[1 := v.x[1].(state := Active)], th := v.th[1 := Ins([2], InsEnd)]);
    run, who := Take(run, who, 1, 2, s, v);
    s := InsertEnds(run[|who|], v, 1, [2]);
    v := v.(owner := v.owner - {Struct}, th := v.th[1 := REST]);
    run, who := Take(run, who, 1, 1, s, v);
    s := MoveCuts(run[|who|], v, 0);
    v := v.(n := [NIL, NIL], th := v.th[0 := Mov(0, MoveLink)]);
    run, who := Take(run, who, 0, 3, s, v);
    s := MoveLinks(run[|who|], v, 0);
    v := v.(h := 0, n := [1, NIL], th := v.th[0 := Upd1(UpUnlock(1))]);
    run, who := Take(run, who, 0, 3, s, v);
    s := UpdateEnds(run[|who|], v, 0);
    v := v.(owner := v.owner - {Bucket(0, 0)} - {Row(0)}, th := v.th[0 := REST]);
    run, who := Take(run, who, 0, 3, s, v);
    ShownIs(run[|who|], v);
    assert v.owner == map[];
  }

  lemma ShownIs(s: World, v: View)
    requires Shows(s, v)
    ensures s.slots == v.x && s.owner == v.owner && s.th == v.th
  {
  }
}
