/** The inductive invariant of the handler protocol, and how a step that
    touches only the stepping thread's resources preserves it. */
module ProtocolInvariant {
  import opened Keys
  import opened Slots
  import opened Chain
  import opened LockOrder
  import opened Protocol

  // ----- what a thread may rely on -----------------------------------------

  /** The visible slot under a held wlock: what of it the thread has read. */
  datatype RowFact = RowFact(i: nat, gen: Option<nat>, image: Option<Bytes>)

  /** A slot whose index position is in the thread's hands: whether it is
      visible, its image if known, and its bucket under each key (None: in no
      chain of that key). */
  datatype CustFact = CustFact(i: nat, visible: bool, image: Option<Bytes>, home: seq<Option<nat>>)

  /** An unlink walk for slot i in a locked bucket. */
  datatype WalkFact = WalkFact(k: nat, b: nat, i: nat, w: Walk)

  /** A cursor into a locked bucket. */
  datatype CursorFact = CursorFact(k: nat, b: nat, cur: int)

  /** A half-done link: the slot's next cell already points at the head. */
  datatype GapFact = GapFact(k: nat, b: nat, i: nat)

  datatype Facts = Facts(
    locks: set<Lock>,
    seen: Option<RowFact>,
    row: Option<RowFact>,
    cust: Option<CustFact>,
    walk: Option<WalkFact>,
    cursor: Option<CursorFact>,
    gap: Option<GapFact>)

  const NOTHING := Facts({}, None, None, None, None, None, None)

  function FirstLocks(u: Upd, n: nat): set<Lock> {
    set j | 0 <= j < n && j < |u.ls| :: u.ls[j]
  }

  /** The buckets of rec for the keys in [lo, hi). */
  function HomesOf(cfg: Config, rec: Bytes, lo: nat, hi: nat): (hs: seq<Option<nat>>)
    requires cfg.nbuckets > 0
    ensures |hs| == |cfg.keys|
  {
    seq(|cfg.keys|, k requires 0 <= k < |cfg.keys| => if lo <= k < hi then Some(cfg.Home(k, rec)) else None)
  }

  /** The buckets of an update's slot once the changed keys below k have moved
      to their new bucket; with `gap`, key k is linked nowhere. */
  function HomesMidway(cfg: Config, u: Upd, k: nat, gap: bool): (hs: seq<Option<nat>>)
    requires cfg.nbuckets > 0
    ensures |hs| == |cfg.keys|
  {
    seq(|cfg.keys|, m requires 0 <= m < |cfg.keys| =>
      if gap && m == k then None
      else if m < k || m !in u.ks then Some(cfg.Home(m, u.now))
      else Some(cfg.Home(m, u.was)))
  }

  function BucketAnd(cfg: Config, k: nat, rec: Bytes, ls: set<Lock>): set<Lock>
    requires cfg.nbuckets > 0
  {
    if k < |cfg.keys| then ls + {Bucket(k, cfg.Home(k, rec))} else ls
  }

  /** A visible row under the wlock, of which gen and image may be known. */
  function Knows(i: nat, gen: Option<nat>, image: Option<Bytes>): Facts {
    NOTHING.(row := Some(RowFact(i, gen, image)))
  }

  function HoldsBucket(k: nat, b: nat): Facts { NOTHING.(locks := {Bucket(k, b)}) }

  function WithCursor(f: Facts, cfg: Config, k: nat, rec: Bytes, cur: int): Facts
    requires cfg.nbuckets > 0
  {
    if k < |cfg.keys| then f.(cursor := Some(CursorFact(k, cfg.Home(k, rec), cur))) else f
  }

  /** An invisible slot in hand, linked under the keys [lo, hi). */
  function InHand(cfg: Config, ls: set<Lock>, i: nat, rec: Bytes, lo: nat, hi: nat): Facts
    requires cfg.nbuckets > 0
  {
    NOTHING.(locks := ls, cust := Some(CustFact(i, false, Some(rec), HomesOf(cfg, rec, lo, hi))))
  }

  /** An invisible slot in hand, linked nowhere. */
  function Loose(cfg: Config, ls: set<Lock>, i: nat): Facts
    requires cfg.nbuckets > 0
  {
    NOTHING.(locks := ls, cust := Some(CustFact(i, false, None, HomesOf(cfg, [], 0, 0))))
  }

  /** Insert: the slot is complete and linked under the keys below n, and the
      bucket of key k is locked. */
  function InsLocked(cfg: Config, rec: Bytes, i: nat, k: nat, n: nat): Facts
    requires cfg.nbuckets > 0
  {
    InHand(cfg, BucketAnd(cfg, k, rec, {Struct}), i, rec, 0, n)
  }

  function WithWalk(f: Facts, cfg: Config, k: nat, rec: Bytes, i: nat, w: Walk): Facts
    requires cfg.nbuckets > 0
  {
    if k < |cfg.keys| then f.(walk := Some(WalkFact(k, cfg.Home(k, rec), i, w))) else f
  }

  function WithGap(f: Facts, cfg: Config, k: nat, rec: Bytes, i: nat): Facts
    requires cfg.nbuckets > 0
  {
    if k < |cfg.keys| then f.(gap := Some(GapFact(k, cfg.Home(k, rec), i))) else f
  }

  /** Update before the commit: the first n bucket locks. */
  function UpLocked(u: Upd, n: nat): Facts {
    Knows(u.i, None, Some(u.was)).(locks := FirstLocks(u, n))
  }

  /** The key an update is at after j moves (past the last key when done). */
  function UpKey(cfg: Config, u: Upd, j: nat): nat {
    if j < |u.ks| then u.ks[j] else |cfg.keys|
  }

  /** Update during the commit. */
  function UpMoving(cfg: Config, u: Upd, j: nat, gap: bool): Facts
    requires cfg.nbuckets > 0
  {
    NOTHING.(locks := FirstLocks(u, |u.ls|),
             cust := Some(CustFact(u.i, true, Some(u.now), HomesMidway(cfg, u, UpKey(cfg, u, j), gap))))
  }

  function RowFacts(r: RowPc): Facts {
    match r
    case ReGenCheck(i, _) => Knows(i, None, None)
    case ReCopy(i, g) => Knows(i, Some(g), None)
    case _ => NOTHING
  }

  function FindFacts(k: nat, b: nat, f: FindPc): Facts {
    match f
    case FindWait => NOTHING
    case FindWalk(cur) => HoldsBucket(k, b).(cursor := Some(CursorFact(k, b, cur)))
    case FindEnd(_) => HoldsBucket(k, b)
  }

  function InsFacts(cfg: Config, rec: Bytes, p: InsPc): Facts
    requires cfg.nbuckets > 0
  {
    match p
    case InsWait => NOTHING
    case InsAlloc => NOTHING.(locks := {Struct})
    case InsCopy(i) => Loose(cfg, {Struct}, i)
    case InsKey(i, k) => InHand(cfg, {Struct}, i, rec, 0, k)
    case InsDup(i, k, cur) => WithCursor(InsLocked(cfg, rec, i, k, k), cfg, k, rec, cur)
    case InsLink(i, k) => InsLocked(cfg, rec, i, k, k)
    case InsHead(i, k) => WithGap(InsLocked(cfg, rec, i, k, k), cfg, k, rec, i)
    case InsUnlock(i, k) => InsLocked(cfg, rec, i, k, k + 1)
    case InsPublish(i) => InHand(cfg, {Struct}, i, rec, 0, |cfg.keys|)
    case InsEnd => NOTHING.(locks := {Struct})
  }

  function UndoFacts(cfg: Config, rec: Bytes, i: nat, o: UndoPc): Facts
    requires cfg.nbuckets > 0
  {
    match o
    case UndoLeave(k) => InsLocked(cfg, rec, i, k, k)
    case UndoKey(k) => InHand(cfg, {Struct}, i, rec, 0, k)
    case UndoUnlink(k, w) => WithWalk(InsLocked(cfg, rec, i, k, k + 1), cfg, k, rec, i, w)
    case UndoUnlock(k) => InsLocked(cfg, rec, i, k, k)
    case UndoPush => Loose(cfg, {Struct}, i)
  }

  function CheckFacts(i: nat, g: nat, was: Bytes, c: CheckPc): Facts {
    match c
    case RcState => NOTHING
    case RcGen => Knows(i, None, None)
    case RcImage => Knows(i, Some(g), None)
    case Ready => Knows(i, Some(g), Some(was))
  }

  function UpFacts(cfg: Config, u: Upd, p: UpPc): Facts
    requires cfg.nbuckets > 0
  {
    match p
    case UpFast => UpLocked(u, 0)
    case UpLock(n) => UpLocked(u, n)
    case UpDup(_) => UpLocked(u, |u.ls|)
    case UpDupWalk(j, cur) => WithCursor(UpLocked(u, |u.ls|), cfg, UpKey(cfg, u, j), u.now, cur)
    case UpWrite => UpLocked(u, |u.ls|)
    case UpUnlock(n) => NOTHING.(locks := FirstLocks(u, n))
  }

  function MoveFacts(cfg: Config, u: Upd, j: nat, m: MovePc): Facts
    requires cfg.nbuckets > 0
  {
    match m
    case MoveKey => UpMoving(cfg, u, j, false)
    case MoveUnlink(w) => WithWalk(UpMoving(cfg, u, j, false), cfg, UpKey(cfg, u, j), u.was, u.i, w)
    case MoveLink => UpMoving(cfg, u, j, true)
    case MoveHead => WithGap(UpMoving(cfg, u, j, true), cfg, UpKey(cfg, u, j), u.now, u.i)
  }

  function DelFacts(cfg: Config, i: nat, rec: Bytes, d: DelPc): Facts
    requires cfg.nbuckets > 0
  {
    match d
    case DelMark => InHand(cfg, {}, i, rec, 0, |cfg.keys|)
    case DelKey(k) => InHand(cfg, {}, i, rec, k, |cfg.keys|)
    case DelUnlink(k, w) => WithWalk(InHand(cfg, BucketAnd(cfg, k, rec, {}), i, rec, k, |cfg.keys|), cfg, k, rec, i, w)
    case DelUnlock(k) => InHand(cfg, BucketAnd(cfg, k, rec, {}), i, rec, k + 1, |cfg.keys|)
    case DelDead => Loose(cfg, {}, i)
    case DelBump => Loose(cfg, {}, i)
    case DelWait => Loose(cfg, {}, i)
    case DelPush => Loose(cfg, {Struct}, i)
    case DelEnd => NOTHING.(locks := {Struct})
  }

  /** What a program counter stands for. */
  function PcFacts(cfg: Config, pc: Pc): Facts
    requires cfg.nbuckets > 0
  {
    match pc
    case Idle => NOTHING
    case Locking(r) => RowFacts(r)
    case Finding(k, b, _, f) => FindFacts(k, b, f)
    case Inserting(rec, n) => InsFacts(cfg, rec, n)
    case Undoing(rec, i, o) => UndoFacts(cfg, rec, i, o)
    case Checking(i, g, was, _, c) => CheckFacts(i, g, was, c)
    case Updating(u, p) => UpFacts(cfg, u, p)
    case Moving(u, j, m) => MoveFacts(cfg, u, j, m)
    case Removing(i, rec, d) => DelFacts(cfg, i, rec, d)
  }

  /** Everything a thread relies on, including its handler's row lock and the
      image it read under it. */
  function FactsOf(cfg: Config, th: Thread): (f: Facts)
    requires cfg.nbuckets > 0
  {
    var f := PcFacts(cfg, th.pc);
    Facts(f.locks + (if th.row.Some? then {Row(th.row.value)} else {}),
          if th.row.Some? && th.seen.Some?
          then Some(RowFact(th.row.value, Some(th.seen.value.g), Some(th.seen.value.buf)))
          else None,
          f.row, f.cust, f.walk, f.cursor, f.gap)
  }

  // ----- facts about a world --------------------------------------------------

  /** The facts speak of existing slots and buckets, and each is protected by a
      lock or by custody. */
  ghost predicate Guarded(cfg: Config, n: nat, f: Facts) {
    && (f.seen.Some? ==> f.seen.value.i < n && Row(f.seen.value.i) in f.locks)
    && (f.row.Some? ==> f.row.value.i < n && Row(f.row.value.i) in f.locks)
    && (f.cust.Some? ==>
          && f.cust.value.i < n && |f.cust.value.home| == |cfg.keys|
          && (f.cust.value.visible ==> Row(f.cust.value.i) in f.locks))
    && (f.walk.Some? ==> var w := f.walk.value;
        w.k < |cfg.keys| && w.b < cfg.nbuckets && Bucket(w.k, w.b) in f.locks)
    && (f.cursor.Some? ==> var c := f.cursor.value;
        c.k < |cfg.keys| && c.b < cfg.nbuckets && Bucket(c.k, c.b) in f.locks)
    && (f.gap.Some? ==> var g := f.gap.value;
        && g.k < |cfg.keys| && g.b < cfg.nbuckets && Bucket(g.k, g.b) in f.locks
        && f.cust.Some? && f.cust.value.i == g.i && f.cust.value.home[g.k] == None)
  }

  ghost predicate In(s: World, k: nat, b: nat, i: nat)
    requires k < |s.ch| && b < |s.ch[k]|
  {
    i in s.ch[k][b]
  }

  /** Slot i is, for every key, in exactly the bucket given (or in none). */
  ghost predicate AtHome(cfg: Config, s: World, i: nat, home: seq<Option<nat>>)
    requires Sized(cfg, s)
  {
    && |home| == |cfg.keys|
    && forall k :: 0 <= k < |cfg.keys| ==>
         match home[k]
         case Some(b) => b < cfg.nbuckets && In(s, k, b, i)
         case None => Absent(s.ch[k], i)
  }

  ghost predicate Mine(s: World, t: Tid, i: nat) { i in s.cust && s.cust[i] == t }

  ghost predicate RowHolds(s: World, r: RowFact)
    requires r.i < |s.slots|
  {
    && s.slots[r.i].state == Active
    && (r.gen.Some? ==> s.slots[r.i].Gen() == r.gen.value)
    && (r.image.Some? ==> s.slots[r.i].image == r.image.value)
  }

  ghost predicate CustHolds(cfg: Config, s: World, t: Tid, c: CustFact)
    requires Sized(cfg, s) && c.i < |s.slots|
  {
    && Mine(s, t, c.i)
    && (s.slots[c.i].state == Active <==> c.visible)
    && (c.image.Some? ==> s.slots[c.i].image == c.image.value)
    && AtHome(cfg, s, c.i, c.home)
  }

  ghost predicate WalkHolds(s: World, f: WalkFact)
    requires f.k < |s.ch| && f.b < |s.ch[f.k]|
  {
    var c := s.ch[f.k][f.b];
    f.w.p <= |c| && f.w.prev == (if f.w.p == 0 then NIL else c[f.w.p - 1]) && f.i !in c[..f.w.p]
  }

  ghost predicate CursorHolds(s: World, f: CursorFact)
    requires f.k < |s.ch| && f.b < |s.ch[f.k]|
  {
    f.cur == NIL || (f.cur >= 0 && In(s, f.k, f.b, f.cur))
  }

  ghost predicate GapHolds(s: World, f: GapFact)
    requires f.k < |s.head| && f.b < |s.head[f.k]| && f.k < |s.next| && f.i < |s.next[f.k]|
  {
    s.next[f.k][f.i] == s.head[f.k][f.b]
  }

  /** Every fact of f is true. */
  ghost predicate True(cfg: Config, s: World, t: Tid, f: Facts)
    requires Sized(cfg, s) && Guarded(cfg, |s.slots|, f)
  {
    && (f.seen.Some? ==> RowHolds(s, f.seen.value))
    && (f.row.Some? ==> RowHolds(s, f.row.value))
    && (f.cust.Some? ==> CustHolds(cfg, s, t, f.cust.value))
    && (f.walk.Some? ==> WalkHolds(s, f.walk.value))
    && (f.cursor.Some? ==> CursorHolds(s, f.cursor.value))
    && (f.gap.Some? ==> GapHolds(s, f.gap.value))
  }

  /** Thread t owns exactly the locks ls. */
  ghost predicate OwnsExactly(owner: map<Lock, Tid>, t: Tid, ls: set<Lock>) {
    forall l :: Owns(owner, l, t) <==> l in ls
  }

  ghost predicate Meets(cfg: Config, s: World, t: Tid, f: Facts)
    requires Sized(cfg, s) && Guarded(cfg, |s.slots|, f)
  {
    OwnsExactly(s.owner, t, f.locks) && True(cfg, s, t, f)
  }

  // ----- the invariant ------------------------------------------------------

  ghost predicate Indexed(cfg: Config, s: World)
    requires Sized(cfg, s)
  {
    forall k :: 0 <= k < |cfg.keys| ==> Represents(s.head[k], s.next[k], s.ch[k])
  }

  ghost predicate Nowhere(cfg: Config, s: World, i: nat)
    requires Sized(cfg, s)
  {
    forall k :: 0 <= k < |cfg.keys| ==> Absent(s.ch[k], i)
  }

  /** Slot i is in the bucket of rec under every key. */
  ghost predicate Everywhere(cfg: Config, s: World, i: nat, rec: Bytes)
    requires Sized(cfg, s)
  {
    forall k :: 0 <= k < |cfg.keys| ==> In(s, k, cfg.Home(k, rec), i)
  }

  /** Freelist slots, and those of chunks not allocated yet, are invisible, unlinked
      and in nobody's hands. */
  ghost predicate FreeOk(cfg: Config, s: World)
    requires Sized(cfg, s)
  {
    && Distinct(s.free) && s.ready <= |s.free|
    && forall i :: i in s.free ==> i < |s.slots| && i !in s.cust && s.slots[i].state != Active && Nowhere(cfg, s, i)
  }

  /** Every slot that is neither free nor in a thread's hands is visible and
      sits in the bucket of its image under every key. */
  ghost predicate Settled(cfg: Config, s: World)
    requires Sized(cfg, s)
  {
    forall i :: 0 <= i < |s.slots| && i !in s.free && i !in s.cust ==>
      s.slots[i].state == Active && Everywhere(cfg, s, i, s.slots[i].image)
  }

  ghost predicate CustodyOk(cfg: Config, s: World)
    requires cfg.nbuckets > 0
  {
    forall i :: i in s.cust ==>
      && i !in s.free && s.cust[i] in s.th
      && var f := FactsOf(cfg, s.th[s.cust[i]]); f.cust.Some? && f.cust.value.i == i
  }

  /** The image that precedes write j. */
  function Before(born: Bytes, ws: seq<Write>, j: nat): Bytes
    requires j <= |ws|
  {
    if j == 0 then born else ws[j - 1].now
  }

  /** The writes of one lifetime form one chain: the first starts from the
      inserted image, each later one from its predecessor's result, and the
      last result is the present image. */
  ghost predicate Unbroken(born: Bytes, ws: seq<Write>, image: Bytes) {
    && (forall j :: 0 <= j < |ws| ==> ws[j].was == Before(born, ws, j))
    && image == Before(born, ws, |ws|)
  }

  ghost predicate History(s: World)
    requires |s.born| == |s.writes| == |s.slots|
  {
    forall i :: 0 <= i < |s.slots| && s.slots[i].state == Active ==> Unbroken(s.born[i], s.writes[i], s.slots[i].image)
  }

  ghost predicate Shared(cfg: Config, s: World) {
    && Sized(cfg, s)
    && Indexed(cfg, s)
    && FreeOk(cfg, s)
    && Settled(cfg, s)
    && History(s)
    && forall l :: l in s.owner ==> s.owner[l] in s.th
  }

  ghost predicate ThreadOk(cfg: Config, s: World, t: Tid)
    requires Sized(cfg, s) && t in s.th
  {
    var f := FactsOf(cfg, s.th[t]);
    Fits(cfg, |s.slots|, s.th[t]) && Guarded(cfg, |s.slots|, f) && Meets(cfg, s, t, f)
  }

  ghost predicate Inv(cfg: Config, s: World) {
    Shared(cfg, s) && CustodyOk(cfg, s) && forall t :: t in s.th ==> ThreadOk(cfg, s, t)
  }

  // ----- interference -------------------------------------------------------

  /** A step left alone everything thread u may rely on: its locks, the slot in
      its hands, the visible slot whose wlock it holds, and the chains of the
      buckets it has locked. */
  ghost predicate Untouched(cfg: Config, s: World, s': World, u: Tid)
    requires Sized(cfg, s) && Sized(cfg, s') && |s.slots| == |s'.slots|
  {
    && (forall l :: Owns(s.owner, l, u) <==> Owns(s'.owner, l, u))
    && (forall i: nat :: i < |s.slots| && Mine(s, u, i) ==> Mine(s', u, i) && s'.slots[i] == s.slots[i])
    && (forall i: nat, k: nat, b: nat :: i < |s.slots| && Mine(s, u, i) && k < |cfg.keys| && b < cfg.nbuckets ==>
          In(s', k, b, i) == In(s, k, b, i))
    && (forall i: nat, k: nat :: i < |s.slots| && Mine(s, u, i) && k < |cfg.keys| && Absent(s.ch[k], i) ==>
          s'.next[k][i] == s.next[k][i])
    && (forall i: nat :: i < |s.slots| && Owns(s.owner, Row(i), u) && s.slots[i].state == Active ==>
         s'.slots[i] == s.slots[i])
    && (forall i: nat, k: nat, b: nat ::
          i < |s.slots| && Owns(s.owner, Row(i), u) && s.slots[i].state == Active && k < |cfg.keys|
              && b < cfg.nbuckets ==>
          In(s', k, b, i) == In(s, k, b, i))
    && (forall k: nat, b: nat :: k < |cfg.keys| && b < cfg.nbuckets && Owns(s.owner, Bucket(k, b), u) ==>
          s'.ch[k][b] == s.ch[k][b] && s'.head[k][b] == s.head[k][b])
  }

  /** A thread's facts survive a step that leaves its resources alone. */
  lemma Stable(cfg: Config, s: World, s': World, u: Tid, f: Facts)
    requires Sized(cfg, s) && Sized(cfg, s') && |s.slots| == |s'.slots|
    requires Guarded(cfg, |s.slots|, f) && Meets(cfg, s, u, f) && Untouched(cfg, s, s', u)
    ensures Meets(cfg, s', u, f)
  {
    if f.cust.Some? {
      var c := f.cust.value;
      forall k | 0 <= k < |cfg.keys|
        ensures match c.home[k] case Some(b) => b < cfg.nbuckets && In(s', k, b, c.i) case None => Absent(s'.ch[k], c.i)
      {
        if c.home[k].None? {
          forall b | 0 <= b < |s'.ch[k]| ensures c.i !in s'.ch[k][b] {
            assert In(s', k, b, c.i) == In(s, k, b, c.i);
          }
        }
      }
    }
  }

  /** A step of thread t to s' preserves the invariant and touches nobody else. */
  ghost predicate Good(cfg: Config, s: World, t: Tid, s': World)
    requires Sized(cfg, s)
  {
    && Inv(cfg, s') && s'.th.Keys == s.th.Keys && |s'.slots| == |s.slots|
    && (forall u :: u in s.th && u != t ==> s'.th[u] == s.th[u])
    && forall u :: u in s.th && u != t ==> Untouched(cfg, s, s', u)
  }

  /** Thread t turned s into s1 and moved on to th; the invariant holds again if
      the shared part does, the facts of th do, and nobody else was touched. */
  lemma Advance(cfg: Config, s: World, s1: World, t: Tid, th: Thread)
    requires Inv(cfg, s) && t in s.th && s1.th == s.th && Shared(cfg, s1) && |s1.slots| == |s.slots|
    requires Fits(cfg, |s.slots|, th) && Guarded(cfg, |s.slots|, FactsOf(cfg, th))
             && Meets(cfg, s1, t, FactsOf(cfg, th))
    requires forall u :: u in s.th && u != t ==> Untouched(cfg, s, s1, u)
    requires forall i :: i in s1.cust ==>
               && i !in s1.free
               && if s1.cust[i] == t then FactsOf(cfg, th).cust.Some? && FactsOf(cfg, th).cust.value.i == i
                  else i in s.cust && s1.cust[i] == s.cust[i]
    ensures Good(cfg, s, t, s1.(th := s.th[t := th]))
  {
    hide Fits, FactsOf, Guarded, Meets, Untouched;
    var s' := s1.(th := s.th[t := th]);
    forall u | u in s'.th ensures ThreadOk(cfg, s', u) {
      if u != t {
        assert ThreadOk(cfg, s, u);
        Stable(cfg, s, s1, u, FactsOf(cfg, s.th[u]));
      }
      SameFacts(cfg, s1, s', u, FactsOf(cfg, s'.th[u]));
    }
    forall u | u in s.th && u != t ensures Untouched(cfg, s, s', u) {
      SameTouch(cfg, s, s1, s', u);
    }
  }

  lemma SameTouch(cfg: Config, s: World, s1: World, s': World, u: Tid)
    requires Sized(cfg, s) && Sized(cfg, s1) && |s.slots| == |s1.slots| && s' == s1.(th := s'.th)
    requires Untouched(cfg, s, s1, u)
    ensures Sized(cfg, s') && Untouched(cfg, s, s', u)
  {
  }

  /** Facts do not depend on program counters. */
  lemma SameFacts(cfg: Config, s: World, s': World, t: Tid, f: Facts)
    requires Sized(cfg, s) && s' == s.(th := s'.th) && Guarded(cfg, |s.slots|, f) && Meets(cfg, s, t, f)
    ensures Sized(cfg, s') && Meets(cfg, s', t, f)
  {
  }
}
