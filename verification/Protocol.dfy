/** The handler family as a transition system: any number of threads, each
    running inserts, key lookups and row-locked updates and deletes, sequentially
    consistent.  A step is a lock operation with the loads that follow at once under
    that lock, a store to a slot, a freelist or a chain cell, or the look at one chain
    node (its state, image and next cell, all protected by the bucket lock or
    unchanging while the test is made); the state test of an update or delete under
    its wlock and the store that follows it are one step, too.

    Auxiliary variables record what the code does not store: the chain each
    bucket spells out, the thread in whose hands a slot is while it is neither
    on the freelist nor settled in the index, and the writes of each slot's
    current lifetime. */
module Protocol {
  import opened Keys
  import opened Slots
  import opened Chain
  import opened LockOrder
  import opened LockSet

  /** What a handler does with the row it has locked. */
  datatype Job = Put(now: Bytes) | Erase

  /** An update in progress: slot, old image, new image, the changed keys and
      the bucket locks in acquisition order. */
  datatype Upd = Upd(i: nat, was: Bytes, now: Bytes, ks: seq<nat>, ls: seq<Lock>)
  {
    ghost predicate Valid(cfg: Config)
      requires cfg.nbuckets > 0
    {
      && (forall j :: 0 <= j < |ks| ==> ks[j] < |cfg.keys|)
      && (forall i, j :: 0 <= i < j < |ks| ==> ks[i] < ks[j])
      && (forall k :: 0 <= k < |cfg.keys| ==> (k in ks <==> !cfg.Same(k, was, now)))
      && Ascending(ls)
      && (forall l :: l in ls <==> Involved(cfg, ks, was, now, l))
    }
  }

  /** Where the unlink walk stands: the cell it looks through (the head cell
      for prev == NIL) and, auxiliary, that cell's position in the chain. */
  datatype Walk = Walk(prev: int, p: nat)

  /** Handler: take the slot wlock, re-read the row under it, give it back. */
  datatype RowPc =
    | RowWait(i: nat)
    | ReGen(i: nat)
    | ReState(i: nat, g: nat)
    | ReGenCheck(i: nat, g: nat)
    | ReCopy(i: nat, g: nat)
    | Unrow

  /** found is the slot the lookup has come to, or NIL. */
  datatype FindPc = FindWait | FindWalk(cur: int) | FindEnd(found: int)

  datatype InsPc =
    | InsWait
    | InsAlloc
    | InsCopy(i: nat)
    | InsKey(i: nat, k: nat)
    | InsDup(i: nat, k: nat, cur: int)
    | InsLink(i: nat, k: nat)
    | InsHead(i: nat, k: nat)
    | InsUnlock(i: nat, k: nat)
    | InsPublish(i: nat)
    | InsEnd

  /** The rollback of an insert that met a duplicate under key k. */
  datatype UndoPc =
    | UndoLeave(k: nat)
    | UndoKey(k: nat)
    | UndoUnlink(k: nat, w: Walk)
    | UndoUnlock(k: nat)
    | UndoPush

  /** The read check before a locked update or delete, and the state check. */
  datatype CheckPc = RcState | RcGen | RcImage | Ready

  datatype UpPc =
    | UpFast
    | UpLock(n: nat)
    | UpDup(j: nat)
    | UpDupWalk(j: nat, cur: int)
    | UpWrite
    | UpUnlock(n: nat)

  /** Re-chaining the j-th changed key of an update. */
  datatype MovePc = MoveKey | MoveUnlink(w: Walk) | MoveLink | MoveHead

  datatype DelPc =
    | DelMark
    | DelKey(k: nat)
    | DelUnlink(k: nat, w: Walk)
    | DelUnlock(k: nat)
    | DelDead
    | DelBump
    | DelWait
    | DelPush
    | DelEnd

  datatype Pc =
    | Idle
    | Locking(r: RowPc)
    | Finding(k: nat, b: nat, key: Bytes, f: FindPc)
    | Inserting(rec: Bytes, n: InsPc)
    | Undoing(rec: Bytes, i: nat, o: UndoPc)
    | Checking(i: nat, g: nat, was: Bytes, job: Job, c: CheckPc)
    | Updating(u: Upd, p: UpPc)
    | Moving(u: Upd, j: nat, m: MovePc)
    | Removing(i: nat, rec: Bytes, d: DelPc)

  /** The image and generation a handler read under the wlock it still holds. */
  datatype Seen = Seen(g: nat, buf: Bytes)

  /** A thread and its one handler; row is the slot of row_locked/locked_slot. */
  datatype Thread = Thread(pc: Pc, row: Option<nat>, seen: Option<Seen>)

  datatype Write = Write(was: Bytes, now: Bytes)

  datatype World = World(
    slots: seq<Slot>,
    free: seq<nat>,      // the freelist, then the slots of chunks not allocated yet
    ready: nat,          // how many of them are on the freelist
    head: seq<seq<int>>,
    next: seq<seq<int>>,
    owner: map<Lock, Tid>,
    th: map<Tid, Thread>,
    // auxiliary
    ch: seq<seq<seq<nat>>>,
    cust: map<nat, Tid>,
    born: seq<Bytes>,
    writes: seq<seq<Write>>)

  // ----- updates of the world ------------------------------------------

  function Go(s: World, t: Tid, pc: Pc): World
    requires t in s.th
  {
    s.(th := s.th[t := s.th[t].(pc := pc)])
  }

  function Take(s: World, t: Tid, l: Lock): World {
    s.(owner := s.owner[l := t])
  }

  function Release(s: World, l: Lock): World {
    s.(owner := s.owner - {l})
  }

  function SetSlot(s: World, i: nat, x: Slot): World
    requires i < |s.slots|
  {
    s.(slots := s.slots[i := x])
  }

  function SetNext(s: World, k: nat, i: nat, v: int): World
    requires k < |s.next| && i < |s.next[k]|
  {
    s.(next := s.next[k := s.next[k][i := v]])
  }

  /** The head write that completes a link. */
  function SetHead(s: World, k: nat, b: nat, i: nat): World
    requires k < |s.head| && b < |s.head[k]| && k < |s.ch| && b < |s.ch[k]|
  {
    s.(head := s.head[k := s.head[k][b := i]], ch := s.ch[k := LinkIn(s.ch[k], b, i)])
  }

  /** The value in the cell an unlink walk looks through. */
  function Peek(s: World, k: nat, b: nat, w: Walk): int
    requires k < |s.head| && b < |s.head[k]| && k < |s.next| && (w.prev != NIL ==> 0 <= w.prev < |s.next[k]|)
  {
    if w.prev == NIL then s.head[k][b] else s.next[k][w.prev]
  }

  /** The cell write that unlinks slot i. */
  function Cut(s: World, k: nat, b: nat, i: nat, w: Walk): World
    requires k < |s.head| && b < |s.head[k]| && k < |s.next| && (w.prev != NIL ==> 0 <= w.prev < |s.next[k]|)
    requires i < |s.next[k]| && k < |s.ch| && b < |s.ch[k]|
  {
    var v := s.next[k][i];
    var s1 := if w.prev == NIL then s.(head := s.head[k := s.head[k][b := v]])
              else s.(next := s.next[k := s.next[k][w.prev := v]]);
    s1.(ch := s.ch[k := UnlinkFrom(s.ch[k], b, i)])
  }

  /** Thread t takes the first slot of the freelist in hand. */
  function Pop(s: World, t: Tid): World
    requires s.free != [] && s.ready > 0
  {
    s.(free := s.free[1..], ready := s.ready - 1, cust := s.cust[s.free[0] := t])
  }

  /** Slot i goes from a thread's hands to the head of the freelist. */
  function Push(s: World, i: nat): World {
    s.(free := [i] + s.free, ready := s.ready + 1, cust := s.cust - {i})
  }

  const CHUNK: nat := 4096

  /** An insert that finds the freelist empty allocates the next chunk: as many of
      its slots as the row limit admits become the freelist. */
  function Grow(s: World, t: Tid): Option<World>
    requires t in s.th
  {
    if s.th[t].pc.Inserting? && s.th[t].pc.n.InsAlloc? && s.ready == 0 && s.free != []
    then Some(s.(ready := if |s.free| < CHUNK then |s.free| else CHUNK))
    else None
  }

  function Record(s: World, i: nat, w: Write): World
    requires i < |s.writes|
  {
    s.(writes := s.writes[i := s.writes[i] + [w]])
  }

  // ----- what a thread waits for -----------------------------------------

  /** The lock a thread is spinning on, if any. */
  function Wants(cfg: Config, pc: Pc): (w: Option<Lock>)
    requires cfg.nbuckets > 0
  {
    match pc
    case Locking(RowWait(i)) => Some(Row(i))
    case Finding(k, b, _, FindWait) => Some(Bucket(k, b))
    case Inserting(_, InsWait) => Some(Struct)
    case Inserting(rec, InsKey(_, k)) => if k < |cfg.keys| then Some(Bucket(k, cfg.Home(k, rec))) else None
    case Undoing(rec, _, UndoKey(k)) => if 0 < k <= |cfg.keys| then Some(Bucket(k - 1, cfg.Home(k - 1, rec))) else None
    case Updating(u, UpLock(n)) => if n < |u.ls| then Some(u.ls[n]) else None
    case Removing(_, rec, DelKey(k)) => if k < |cfg.keys| then Some(Bucket(k, cfg.Home(k, rec))) else None
    case Removing(_, _, DelWait) => Some(Struct)
    case _ => None
  }

  // ----- well-formedness ------------------------------------------------

  ghost predicate Sized(cfg: Config, s: World) {
    && cfg.Valid()
    && |s.head| == |s.next| == |s.ch| == |cfg.keys|
    && |s.born| == |s.writes| == |s.slots|
    && forall k :: 0 <= k < |cfg.keys| ==>
         |s.head[k]| == |s.ch[k]| == cfg.nbuckets && |s.next[k]| == |s.slots|
  }

  predicate Slotish(n: nat, cur: int) { cur == NIL || 0 <= cur < n }

  ghost predicate RowFits(n: nat, row: Option<nat>, r: RowPc) {
    match r
    case RowWait(i) => i < n && row == None
    case ReGen(i) => row == Some(i)
    case ReState(i, _) => row == Some(i)
    case ReGenCheck(i, _) => row == Some(i)
    case ReCopy(i, _) => row == Some(i)
    case Unrow => row.Some?
  }

  ghost predicate InsFits(n: nat, keys: nat, p: InsPc) {
    match p
    case InsWait => true
    case InsAlloc => true
    case InsCopy(i) => i < n
    case InsKey(i, k) => i < n && k <= keys
    case InsDup(i, k, cur) => i < n && k < keys && Slotish(n, cur)
    case InsLink(i, k) => i < n && k < keys
    case InsHead(i, k) => i < n && k < keys
    case InsUnlock(i, k) => i < n && k < keys
    case InsPublish(i) => i < n
    case InsEnd => true
  }

  ghost predicate UndoFits(n: nat, keys: nat, o: UndoPc) {
    match o
    case UndoLeave(k) => k < keys
    case UndoKey(k) => k <= keys
    case UndoUnlink(k, w) => k < keys && Slotish(n, w.prev)
    case UndoUnlock(k) => k < keys
    case UndoPush => true
  }

  ghost predicate UpFits(n: nat, u: Upd, p: UpPc) {
    match p
    case UpFast => u.ks == []
    case UpLock(m) => m <= |u.ls|
    case UpDup(j) => j <= |u.ks|
    case UpDupWalk(j, cur) => j < |u.ks| && Slotish(n, cur)
    case UpWrite => true
    case UpUnlock(m) => m <= |u.ls|
  }

  ghost predicate MoveFits(n: nat, u: Upd, j: nat, m: MovePc) {
    match m
    case MoveKey => j <= |u.ks|
    case MoveUnlink(w) => j < |u.ks| && Slotish(n, w.prev)
    case MoveLink => j < |u.ks|
    case MoveHead => j < |u.ks|
  }

  ghost predicate DelFits(n: nat, keys: nat, d: DelPc) {
    match d
    case DelKey(k) => k <= keys
    case DelUnlink(k, w) => k < keys && Slotish(n, w.prev)
    case DelUnlock(k) => k < keys
    case _ => true
  }

  /** The indices in a program counter are in range, and a handler works on the
      row it has locked. */
  ghost predicate PcFits(cfg: Config, n: nat, row: Option<nat>, pc: Pc)
    requires cfg.nbuckets > 0
  {
    match pc
    case Idle => true
    case Locking(r) => RowFits(n, row, r)
    case Finding(k, b, _, f) => k < |cfg.keys| && b < cfg.nbuckets && (f.FindWalk? ==> Slotish(n, f.cur))
    case Inserting(_, p) => InsFits(n, |cfg.keys|, p)
    case Undoing(_, i, o) => i < n && UndoFits(n, |cfg.keys|, o)
    case Checking(i, _, _, _, _) => row == Some(i)
    case Updating(u, p) => row == Some(u.i) && u.Valid(cfg) && UpFits(n, u, p)
    case Moving(u, j, m) => row == Some(u.i) && u.Valid(cfg) && MoveFits(n, u, j, m)
    case Removing(i, _, d) => row == Some(i) && DelFits(n, |cfg.keys|, d)
  }

  /** A job on the locked row has begun; what was read before is used up. */
  predicate Modifies(pc: Pc) { pc.Checking? || pc.Updating? || pc.Moving? || pc.Removing? }

  ghost predicate Fits(cfg: Config, n: nat, th: Thread)
    requires cfg.nbuckets > 0
  {
    && (th.row.Some? ==> th.row.value < n)
    && (th.seen.Some? ==> th.row.Some? && !Modifies(th.pc))
    && PcFits(cfg, n, th.row, th.pc)
  }

  // ----- steps ------------------------------------------------------------

  /** What the server may ask of an idle handler. */
  datatype Call =
    | LockRow(i: nat)                          // a row read of a write statement found slot i
    | Lookup(k: nat, key: Bytes)
    | Insert(rec: Bytes)
    | ModifySeen(job: Job)                     // with the image re-read under the kept lock
    | ModifyChecked(g: nat, was: Bytes, job: Job)  // with any image, under the read check
    | DropRow                                  // statement boundary

  ghost predicate Runs(cfg: Config, s: World, t: Tid) {
    Sized(cfg, s) && t in s.th && Fits(cfg, |s.slots|, s.th[t])
  }

  function Begin(cfg: Config, s: World, t: Tid, call: Call): (r: Option<World>)
    requires Runs(cfg, s, t) && s.th[t].pc.Idle?
  {
    var th := s.th[t];
    match call
    case LockRow(i) =>
      if i >= |s.slots| then None
      else if th.row == Some(i) then Some(s.(th := s.th[t := Thread(Locking(ReGen(i)), th.row, None)]))
      else if th.row.Some? then Some(Release(s.(th := s.th[t := Thread(Locking(RowWait(i)), None, None)]),
          Row(th.row.value)))
      else Some(Go(s, t, Locking(RowWait(i))))
    case Lookup(k, key) =>
      if k >= |cfg.keys| then None else Some(Go(s, t, Finding(k, cfg.KeyBucket(k, key), key, FindWait)))
    case Insert(rec) => Some(Go(s, t, Inserting(rec, InsWait)))
    case ModifySeen(job) =>
      if th.row.None? || th.seen.None? then None
      else Some(s.(th := s.th[t := Thread(Checking(th.row.value, th.seen.value.g, th.seen.value.buf, job, Ready),
          th.row, None)]))
    case ModifyChecked(g, was, job) =>
      if th.row.None? then None
      else Some(s.(th := s.th[t := Thread(Checking(th.row.value, g, was, job, RcState), th.row, None)]))
    case DropRow => if th.row.None? then None else Some(Go(s, t, Locking(Unrow)))
  }

  function TryTake(s: World, t: Tid, l: Lock, pc: Pc): Option<World>
    requires t in s.th
  {
    if l in s.owner then None else Some(Go(Take(s, t, l), t, pc))
  }

  /** One round of the unlink loop: stop at the end of the chain, cut slot i
      out, or move on to the next cell. */
  function UnlinkRound(s: World, t: Tid, k: nat, b: nat, i: nat, w: Walk, stay: Pc, done: Pc): World
    requires t in s.th
    requires k < |s.head| && b < |s.head[k]| && k < |s.next| && (w.prev != NIL ==> 0 <= w.prev < |s.next[k]|)
    requires i < |s.next[k]| && k < |s.ch| && b < |s.ch[k]|
  {
    var v := Peek(s, k, b, w);
    if v == NIL then Go(s, t, done)
    else if v == i then Go(Cut(s, k, b, i, w), t, done)
    else Go(s, t, stay)
  }

  function Further(s: World, k: nat, b: nat, w: Walk): Walk
    requires k < |s.head| && b < |s.head[k]| && k < |s.next| && (w.prev != NIL ==> 0 <= w.prev < |s.next[k]|)
  {
    Walk(Peek(s, k, b, w), w.p + 1)
  }

  const START := Walk(NIL, 0)

  /** A row the duplicate check must refuse to join. */
  predicate Clash(cfg: Config, s: World, k: nat, cur: int, rec: Bytes)
    requires k < |cfg.keys| && 0 <= cur < |s.slots|
  {
    s.slots[cur].state == Active && cfg.Same(k, s.slots[cur].image, rec)
  }

  function ExecRow(cfg: Config, s: World, t: Tid, r: RowPc): (o: Option<World>)
    requires Runs(cfg, s, t) && s.th[t].pc == Locking(r)
  {
    var th := s.th[t];
    match r
    case RowWait(i) =>
      if Row(i) in s.owner then None
      else Some(Take(s.(th := s.th[t := Thread(Locking(ReGen(i)), Some(i), None)]), t, Row(i)))
    case ReGen(i) => Some(Go(s, t, Locking(ReState(i, s.slots[i].Gen()))))
    case ReState(i, g) => Some(Go(s, t, Locking(if s.slots[i].state == Active then ReGenCheck(i, g) else Unrow)))
    case ReGenCheck(i, g) => Some(Go(s, t, Locking(if s.slots[i].Gen() == g then ReCopy(i, g) else Unrow)))
    case ReCopy(i, g) => Some(s.(th := s.th[t := Thread(Idle, th.row, Some(Seen(g, s.slots[i].image)))]))
    case Unrow => Some(Release(s.(th := s.th[t := Thread(Idle, None, None)]), Row(th.row.value)))
  }

  function ExecFind(cfg: Config, s: World, t: Tid, k: nat, b: nat, key: Bytes, f: FindPc): (o: Option<World>)
    requires Runs(cfg, s, t) && s.th[t].pc == Finding(k, b, key, f)
  {
    match f
    case FindWait => TryTake(s, t, Bucket(k, b), Finding(k, b, key, FindWalk(s.head[k][b])))
    case FindWalk(cur) =>
      if cur == NIL || (s.slots[cur].state == Active && cfg.keys[k].ops.matches(s.slots[cur].image, key))
      then Some(Go(s, t, Finding(k, b, key, FindEnd(cur))))
      else Some(Go(s, t, Finding(k, b, key, FindWalk(s.next[k][cur]))))
    case FindEnd(_) => Some(Release(Go(s, t, Idle), Bucket(k, b)))
  }

  function ExecInsert(cfg: Config, s: World, t: Tid, rec: Bytes, p: InsPc): (o: Option<World>)
    requires Runs(cfg, s, t) && s.th[t].pc == Inserting(rec, p)
  {
    match p
    case InsWait => TryTake(s, t, Struct, Inserting(rec, InsAlloc))
    case InsAlloc =>
      if s.ready == 0 || s.free == [] then Some(Go(s, t, Inserting(rec, InsEnd)))
      else Some(Go(Pop(s, t), t, Inserting(rec, InsCopy(s.free[0]))))
    case InsCopy(i) => Some(Go(SetSlot(s, i, s.slots[i].(image := rec)), t, Inserting(rec, InsKey(i, 0))))
    case InsKey(i, k) =>
      if k == |cfg.keys| then Some(Go(s, t, Inserting(rec, InsPublish(i))))
      else TryTake(s, t, Bucket(k, cfg.Home(k, rec)),
                   Inserting(rec, if cfg.Checked(k, rec) then InsDup(i, k, s.head[k][cfg.Home(k, rec)])
                       else InsLink(i, k)))
    case InsDup(i, k, cur) =>
      if cur == NIL then Some(Go(s, t, Inserting(rec, InsLink(i, k))))
      else if Clash(cfg, s, k, cur, rec) then Some(Go(s, t, Undoing(rec, i, UndoLeave(k))))
      else Some(Go(s, t, Inserting(rec, InsDup(i, k, s.next[k][cur]))))
    case InsLink(i, k) => Some(Go(SetNext(s, k, i, s.head[k][cfg.Home(k, rec)]), t, Inserting(rec, InsHead(i, k))))
    case InsHead(i, k) => Some(Go(SetHead(s, k, cfg.Home(k, rec), i), t, Inserting(rec, InsUnlock(i, k))))
    case InsUnlock(i, k) => Some(Release(Go(s, t, Inserting(rec, InsKey(i, k + 1))), Bucket(k, cfg.Home(k, rec))))
    case InsPublish(i) => Some(Go(Publish(s, i), t, Inserting(rec, InsEnd)))
    case InsEnd => Some(Release(Go(s, t, Idle), Struct))
  }

  /** The state store that makes an inserted row visible and starts a lifetime. */
  function Publish(s: World, i: nat): World
    requires i < |s.slots| && |s.born| == |s.writes| == |s.slots|
  {
    SetSlot(s, i, s.slots[i].(state := Active)).(cust := s.cust - {i}, born := s.born[i := s.slots[i].image],
                                                 writes := s.writes[i := []])
  }

  function ExecUndo(cfg: Config, s: World, t: Tid, rec: Bytes, i: nat, o: UndoPc): (r: Option<World>)
    requires Runs(cfg, s, t) && s.th[t].pc == Undoing(rec, i, o)
  {
    match o
    case UndoLeave(k) => Some(Release(Go(s, t, Undoing(rec, i, UndoKey(k))), Bucket(k, cfg.Home(k, rec))))
    case UndoKey(k) =>
      if k == 0 then Some(Go(s, t, Undoing(rec, i, UndoPush)))
      else TryTake(s, t, Bucket(k - 1, cfg.Home(k - 1, rec)), Undoing(rec, i, UndoUnlink(k - 1, START)))
    case UndoUnlink(k, w) =>
      var b := cfg.Home(k, rec);
      Some(UnlinkRound(s, t, k, b, i, w, Undoing(rec, i, UndoUnlink(k, Further(s, k, b, w))),
          Undoing(rec, i, UndoUnlock(k))))
    case UndoUnlock(k) => Some(Release(Go(s, t, Undoing(rec, i, UndoKey(k))), Bucket(k, cfg.Home(k, rec))))
    case UndoPush => Some(Go(Push(s, i), t, Inserting(rec, InsEnd)))
  }

  /** Where an accepted update continues. */
  function Start(cfg: Config, i: nat, was: Bytes, now: Bytes): Pc
    requires cfg.nbuckets > 0
  {
    var u := Upd(i, was, now, Changed(cfg, was, now), Locks(cfg, was, now));
    Updating(u, if u.ks == [] then UpFast else UpLock(0))
  }

  function ExecCheck(cfg: Config, s: World, t: Tid, i: nat, g: nat, was: Bytes, job: Job,
                     c: CheckPc): (o: Option<World>)
    requires Runs(cfg, s, t) && s.th[t].pc == Checking(i, g, was, job, c)
  {
    match c
    case RcState => Some(Go(s, t, if s.slots[i].state == Active then Checking(i, g, was, job, RcGen)
        else Locking(Unrow)))
    case RcGen => Some(Go(s, t, if s.slots[i].Gen() == g then Checking(i, g, was, job, RcImage) else Locking(Unrow)))
    case RcImage => Some(Go(s, t, if s.slots[i].image == was then Checking(i, g, was, job, Ready) else Locking(Unrow)))
    case Ready =>
      if !s.slots[i].Accepts(g) then Some(Go(s, t, Locking(Unrow)))
      else if job.Put? then Some(Go(s, t, Start(cfg, i, was, job.now)))
      else Some(Go(Mark(s, t, i), t, Removing(i, s.slots[i].image, DelMark)))
  }

  /** The state store that starts a delete. */
  function Mark(s: World, t: Tid, i: nat): World
    requires i < |s.slots|
  {
    SetSlot(s, i, s.slots[i].(state := Deleting)).(cust := s.cust[i := t])
  }

  /** The image write of an update, recorded in the lifetime's history. */
  function Rewrite(s: World, i: nat, was: Bytes, now: Bytes): World
    requires i < |s.slots| && i < |s.writes|
  {
    Record(SetSlot(s, i, s.slots[i].(image := now)), i, Write(was, now))
  }

  function ExecUpdate(cfg: Config, s: World, t: Tid, u: Upd, p: UpPc): (o: Option<World>)
    requires Runs(cfg, s, t) && s.th[t].pc == Updating(u, p)
  {
    match p
    case UpFast => Some(Go(Rewrite(s, u.i, u.was, u.now), t, Locking(Unrow)))
    case UpLock(n) =>
      if n == |u.ls| then Some(Go(s, t, Updating(u, UpDup(0)))) else TryTake(s, t, u.ls[n], Updating(u, UpLock(n + 1)))
    case UpDup(j) =>
      if j == |u.ks| then Some(Go(s, t, Updating(u, UpWrite)))
      else
        var k := u.ks[j];
        Some(Go(s, t, Updating(u, if cfg.Checked(k, u.now) then UpDupWalk(j, s.head[k][cfg.Home(k, u.now)])
            else UpDup(j + 1))))
    case UpDupWalk(j, cur) =>
      var k := u.ks[j];
      if cur == NIL then Some(Go(s, t, Updating(u, UpDup(j + 1))))
      else if Clash(cfg, s, k, cur, u.now) then Some(Go(s, t, Updating(u, UpUnlock(|u.ls|))))
      else Some(Go(s, t, Updating(u, UpDupWalk(j, s.next[k][cur]))))
    case UpWrite => Some(Go(Rewrite(s, u.i, u.was, u.now).(cust := s.cust[u.i := t]), t, Moving(u, 0, MoveKey)))
    case UpUnlock(n) =>
      if n == 0 then Some(Go(s, t, Locking(Unrow)))
      else Some(Release(Go(s, t, Updating(u, UpUnlock(n - 1))), u.ls[n - 1]))
  }

  function ExecMove(cfg: Config, s: World, t: Tid, u: Upd, j: nat, m: MovePc): (o: Option<World>)
    requires Runs(cfg, s, t) && s.th[t].pc == Moving(u, j, m)
  {
    match m
    case MoveKey =>
      if j == |u.ks| then Some(Go(s.(cust := s.cust - {u.i}), t, Updating(u, UpUnlock(|u.ls|))))
      else Some(Go(s, t, Moving(u, j, MoveUnlink(START))))
    case MoveUnlink(w) =>
      var b := cfg.Home(u.ks[j], u.was);
      Some(UnlinkRound(s, t, u.ks[j], b, u.i, w, Moving(u, j, MoveUnlink(Further(s, u.ks[j], b, w))),
          Moving(u, j, MoveLink)))
    case MoveLink => Some(Go(SetNext(s, u.ks[j], u.i, s.head[u.ks[j]][cfg.Home(u.ks[j], u.now)]), t,
        Moving(u, j, MoveHead)))
    case MoveHead => Some(Go(SetHead(s, u.ks[j], cfg.Home(u.ks[j], u.now), u.i), t, Moving(u, j + 1, MoveKey)))
  }

  function ExecDelete(cfg: Config, s: World, t: Tid, i: nat, rec: Bytes, d: DelPc): (o: Option<World>)
    requires Runs(cfg, s, t) && s.th[t].pc == Removing(i, rec, d)
  {
    match d
    case DelMark => Some(Go(s, t, Removing(i, s.slots[i].image, DelKey(0))))
    case DelKey(k) =>
      if k == |cfg.keys| then Some(Go(s, t, Removing(i, rec, DelDead)))
      else TryTake(s, t, Bucket(k, cfg.Home(k, rec)), Removing(i, rec, DelUnlink(k, START)))
    case DelUnlink(k, w) =>
      var b := cfg.Home(k, rec);
      Some(UnlinkRound(s, t, k, b, i, w, Removing(i, rec, DelUnlink(k, Further(s, k, b, w))),
          Removing(i, rec, DelUnlock(k))))
    case DelUnlock(k) => Some(Release(Go(s, t, Removing(i, rec, DelKey(k + 1))), Bucket(k, cfg.Home(k, rec))))
    case DelDead => Some(Go(SetSlot(s, i, s.slots[i].(state := Deleted)), t, Removing(i, rec, DelBump)))
    case DelBump => Some(Go(SetSlot(s, i, s.slots[i].(bumps := s.slots[i].bumps + 1)), t, Removing(i, rec, DelWait)))
    case DelWait => TryTake(s, t, Struct, Removing(i, rec, DelPush))
    case DelPush => Some(Go(Push(s, i), t, Removing(i, rec, DelEnd)))
    case DelEnd => Some(Release(Go(s, t, Locking(Unrow)), Struct))
  }

  /** The next step of a running call; None while it waits for a lock. */
  function Exec(cfg: Config, s: World, t: Tid): (o: Option<World>)
    requires Runs(cfg, s, t)
  {
    match s.th[t].pc
    case Idle => None
    case Locking(r) => ExecRow(cfg, s, t, r)
    case Finding(k, b, key, f) => ExecFind(cfg, s, t, k, b, key, f)
    case Inserting(rec, n) => ExecInsert(cfg, s, t, rec, n)
    case Undoing(rec, i, o) => ExecUndo(cfg, s, t, rec, i, o)
    case Checking(i, g, was, job, c) => ExecCheck(cfg, s, t, i, g, was, job, c)
    case Updating(u, p) => ExecUpdate(cfg, s, t, u, p)
    case Moving(u, j, m) => ExecMove(cfg, s, t, u, j, m)
    case Removing(i, rec, d) => ExecDelete(cfg, s, t, i, rec, d)
  }

  /** One step of thread t: its call goes on, its insert gets the memory for another
      chunk, or an idle handler gets a call. */
  ghost predicate Step(cfg: Config, s: World, t: Tid, s': World) {
    && Runs(cfg, s, t)
    && (Exec(cfg, s, t) == Some(s') || Grow(s, t) == Some(s')
       || (s.th[t].pc.Idle? && exists call :: Begin(cfg, s, t, call) == Some(s')))
  }
}
