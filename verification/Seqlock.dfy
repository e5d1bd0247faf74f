/** The lock-free row read against any number of writers, deleters and
    inserters of one slot, one byte per step.

    Auxiliary variables: the content last published, whether the bytes are those
    of an insert that has not published them, and the thread that has the slot in
    hand while it is neither ACTIVE nor on the freelist. */
module Seqlock {
  import opened Keys
  import opened Slots

  type Tid = nat

  /** The slot; pub and raw are auxiliary.  stamps and bumps count without
      wrapping what the code keeps as 32-bit seq and gen. */
  datatype Row = Row(state: State, stamps: nat, bumps: nat, bytes: Bytes, pub: Bytes, raw: bool)

  /** s1 is the true count at the first seq load. */
  datatype ReadPc = LoadState | LoadGen | LoadSeq | Copying(s1: nat, done: set<nat>)

  /** An update's image write under the wlock. */
  datatype WritePc = WriteWait | WriteTest | WriteOpen | Copy(done: set<nat>)

  datatype DeletePc = DeleteWait | DeleteTest | Unchain | Bump | Push

  /** A delete keeps the wlock to its end (the _locked variant) or gives it up
      once the slot is marked.  An insert fills a slot taken off the freelist. */
  datatype Pc =
    | Idle
    | Reading(check: Option<nat>, buf: Bytes, r: ReadPc)
    | Got(buf: Bytes)
    | Missed
    | Updating(now: Bytes, u: WritePc)
    | Removing(keep: bool, d: DeletePc)
    | Unlock
    | Filling(rec: Bytes, done: set<nat>)

  datatype World = World(x: Row, free: bool, wlock: Option<Tid>, hand: Option<Tid>, th: map<Tid, Pc>)

  datatype Call = Read(check: Option<nat>, buf: Bytes) | Update(now: Bytes) | Delete(keep: bool) | Insert(rec: Bytes)

  /** What the schedule chooses: a call, the next byte to copy, the rollback of
      an insert, or the plain next step. */
  datatype Choice = Start(call: Call) | Byte(p: nat) | GiveUp | Next

  function Go(w: World, t: Tid, pc: Pc): World { w.(th := w.th[t := pc]) }

  predicate Full(n: nat, done: set<nat>) { forall p :: 0 <= p < n ==> p in done }

  function Begin(w: World, t: Tid, call: Call): Option<World> {
    match call
    case Read(check, buf) => if |buf| == |w.x.bytes| then Some(Go(w, t, Reading(check, buf, LoadState))) else None
    case Update(now) => if |now| == |w.x.bytes| then Some(Go(w, t, Updating(now, WriteWait))) else None
    case Delete(keep) => Some(Go(w, t, Removing(keep, DeleteWait)))
    case Insert(rec) =>
      if w.free && |rec| == |w.x.bytes|
      then Some(Go(w.(x := w.x.(raw := true), free := false, hand := Some(t)), t, Filling(rec, {})))
      else None
  }

  /** One byte of a copy, in whatever order. */
  function CopyByte(w: World, t: Tid, p: nat): Option<World> {
    if t !in w.th || p >= |w.x.bytes| then None
    else
      match w.th[t]
      case Reading(check, buf, Copying(s1, done)) =>
        if p >= |buf| || p in done then None
        else Some(Go(w, t, Reading(check, buf[p := w.x.bytes[p]], Copying(s1, done + {p}))))
      case Updating(now, Copy(done)) =>
        if p >= |now| || p in done then None
        else Some(Go(w.(x := SetByte(w.x, p, now[p])), t, Updating(now, Copy(done + {p}))))
      case Filling(rec, done) =>
        if p >= |rec| || p in done then None
        else Some(Go(w.(x := SetByte(w.x, p, rec[p])), t, Filling(rec, done + {p})))
      case _ => None
  }

  function SetByte(x: Row, p: nat, v: byte): Row
    requires p < |x.bytes|
  {
    x.(bytes := x.bytes[p := v])
  }

  function ReadOn(w: World, t: Tid, check: Option<nat>, buf: Bytes, r: ReadPc): Option<World> {
    match r
    case LoadState =>
      Some(Go(w, t, if w.x.state != Active then Missed
                    else Reading(check, buf, if check.Some? then LoadGen else LoadSeq)))
    case LoadGen => Some(Go(w, t, if check == Some(w.x.bumps % U32) then Reading(check, buf, LoadSeq) else Missed))
    case LoadSeq =>
      Some(Go(w, t, Reading(check, buf, if Odd(w.x.stamps) then LoadState else Copying(w.x.stamps, {}))))
    case Copying(s1, done) =>
      if !Full(|w.x.bytes|, done) then None
      else Some(Go(w, t, if SameSeq(w.x.stamps, s1) then Got(buf) else Reading(check, buf, LoadState)))
  }

  /** The tests of the reader on the 32-bit counter. */
  predicate Odd(stamps: nat) { stamps % U32 % 2 == 1 }

  predicate SameSeq(m: nat, n: nat) { m % U32 == n % U32 }

  function Stamp(x: Row): Row { x.(stamps := x.stamps + 1) }

  function UpdateOn(w: World, t: Tid, now: Bytes, u: WritePc): Option<World> {
    match u
    case WriteWait => if w.wlock.Some? then None else Some(Go(w.(wlock := Some(t)), t, Updating(now, WriteTest)))
    case WriteTest => Some(Go(w, t, if w.x.state == Active then Updating(now, WriteOpen) else Unlock))
    case WriteOpen => Some(Go(w.(x := Stamp(w.x)), t, Updating(now, Copy({}))))
    case Copy(done) =>
      if !Full(|w.x.bytes|, done) then None else Some(Go(w.(x := Stamp(w.x).(pub := now)), t, Unlock))
  }

  function DeleteOn(w: World, t: Tid, keep: bool, d: DeletePc): Option<World> {
    match d
    case DeleteWait => if w.wlock.Some? then None else Some(Go(w.(wlock := Some(t)), t, Removing(keep, DeleteTest)))
    case DeleteTest =>
      if w.x.state != Active then Some(Go(w, t, Unlock))
      else
        var w' := w.(x := w.x.(state := Deleting), hand := Some(t), wlock := if keep then Some(t) else None);
        Some(Go(w', t, Removing(keep, Unchain)))
    case Unchain => Some(Go(w.(x := w.x.(state := Deleted)), t, Removing(keep, Bump)))
    case Bump => Some(Go(w.(x := w.x.(bumps := w.x.bumps + 1)), t, Removing(keep, Push)))
    case Push => Some(Go(w.(free := true, hand := None), t, if keep then Unlock else Idle))
  }

  function InsertOn(w: World, t: Tid, rec: Bytes, done: set<nat>, c: Choice): Option<World> {
    if !Full(|w.x.bytes|, done) then None
    else if c == GiveUp then Some(Go(w.(free := true, hand := None), t, Idle))
    else Some(Go(w.(x := w.x.(state := Active, pub := rec, raw := false), hand := None), t, Idle))
  }

  predicate AtRest(pc: Pc) { pc.Idle? || pc.Got? || pc.Missed? }

  function Move(w: World, t: Tid, c: Choice): Option<World>
    requires t in w.th
  {
    match c
    case Start(call) => if AtRest(w.th[t]) then Begin(w, t, call) else None
    case Byte(p) => CopyByte(w, t, p)
    case _ =>
      match w.th[t]
      case Reading(check, buf, r) => ReadOn(w, t, check, buf, r)
      case Updating(now, u) => UpdateOn(w, t, now, u)
      case Removing(keep, d) => DeleteOn(w, t, keep, d)
      case Unlock => Some(Go(w.(wlock := None), t, Idle))
      case Filling(rec, done) => InsertOn(w, t, rec, done, c)
      case _ => None
  }

  ghost predicate Step(w: World, t: Tid, w': World) {
    t in w.th && exists c: Choice :: Move(w, t, c) == Some(w')
  }

  /** All threads at rest; the slot free, or ACTIVE with a published image. */
  ghost predicate Init(w: World) {
    && (forall t :: t in w.th ==> w.th[t] == Idle)
    && w.wlock == None && w.hand == None && w.x.stamps % 2 == 0 && |w.x.pub| == |w.x.bytes|
    && (w.free <==> w.x.state != Active) && (w.x.state == Active ==> !w.x.raw)
    && (!w.x.raw ==> w.x.bytes == w.x.pub)
  }

  ghost predicate IsRun(run: seq<World>, who: seq<Tid>) {
    && |run| == |who| + 1
    && Init(run[0])
    && forall n :: 0 <= n < |who| ==> Step(run[n], who[n], run[n + 1])
  }

  // ----- the invariant -----------------------------------------------------

  /** The program points at which a thread owns the wlock. */
  predicate Locks(pc: Pc) {
    match pc
    case Updating(_, u) => !u.WriteWait?
    case Removing(keep, d) => d.DeleteTest? || (keep && !d.DeleteWait?)
    case Unlock => true
    case _ => false
  }

  /** The program points at which a thread has the slot in hand. */
  predicate Hands(pc: Pc) { pc.Filling? || (pc.Removing? && !pc.d.DeleteWait? && !pc.d.DeleteTest?) }

  ghost predicate Copied(bytes: Bytes, from: Bytes, done: set<nat>)
    requires |from| == |bytes|
  {
    forall p :: 0 <= p < |bytes| && p in done ==> bytes[p] == from[p]
  }

  /** A copy of every byte is the whole image. */
  lemma CopiedWhole(bytes: Bytes, from: Bytes, done: set<nat>)
    requires |from| == |bytes| && Copied(bytes, from, done) && Full(|bytes|, done)
    ensures bytes == from
  {
  }

  ghost predicate PcOk(x: Row, pc: Pc)
    requires |x.pub| == |x.bytes|
  {
    match pc
    case Reading(_, buf, r) => |buf| == |x.bytes|
    case Updating(now, u) =>
      && |now| == |x.bytes|
      && (u.WriteOpen? ==> x.state == Active && x.stamps % 2 == 0)
      && (u.Copy? ==> x.state == Active && x.stamps % 2 == 1 && Copied(x.bytes, now, u.done))
    case Removing(_, d) =>
      && (d.Unchain? ==> x.state == Deleting && !x.raw)
      && (d.Bump? || d.Push? ==> x.state == Deleted && !x.raw)
    case Filling(rec, done) => |rec| == |x.bytes| && x.state != Active && x.raw && Copied(x.bytes, rec, done)
    case _ => true
  }

  /** Whatever the threads do: an even stamp count means that the bytes are the
      published image, unless an insert has been at them. */
  ghost predicate Core(w: World) {
    && |w.x.pub| == |w.x.bytes|
    && (w.free ==> w.hand == None && w.x.state != Active)
    && (w.hand.Some? ==> w.x.state != Active)
    && (!w.free && w.hand == None ==> w.x.state == Active)
    && (w.x.state == Active ==> !w.x.raw)
    && (w.x.stamps % 2 == 0 && !w.x.raw ==> w.x.bytes == w.x.pub)
    && (w.x.stamps % 2 == 1 ==>
          && w.wlock.Some? && w.wlock.value in w.th
          && w.th[w.wlock.value].Updating? && w.th[w.wlock.value].u.Copy?)
  }

  ghost predicate ThreadOk(w: World, t: Tid)
    requires t in w.th && |w.x.pub| == |w.x.bytes|
  {
    && (Locks(w.th[t]) <==> w.wlock == Some(t))
    && (Hands(w.th[t]) <==> w.hand == Some(t))
    && PcOk(w.x, w.th[t])
  }

  ghost predicate Inv(w: World) {
    Core(w) && forall t :: t in w.th ==> ThreadOk(w, t)
  }

  // ----- what one thread's step leaves true of another's program point ------

  /** A stamp, with whatever content published, passes every other thread. */
  lemma StampPasses(x: Row, pub: Bytes, pc: Pc)
    requires |x.pub| == |x.bytes| == |pub| && PcOk(x, pc) && !Locks(pc)
    ensures PcOk(Stamp(x).(pub := pub), pc)
  {
  }

  /** So does a byte written while the stamp count is odd, ... */
  lemma BytePasses(x: Row, p: nat, v: byte, pc: Pc)
    requires |x.pub| == |x.bytes| && p < |x.bytes| && PcOk(x, pc)
    requires !pc.Filling? && !(pc.Updating? && pc.u.Copy?)
    ensures PcOk(SetByte(x, p, v), pc)
  {
  }

  /** ... the marks of a delete, ... */
  lemma MarkPasses(x: Row, s: State, pc: Pc)
    requires |x.pub| == |x.bytes| && PcOk(x, pc) && !Hands(pc) && (x.state == Active ==> !Locks(pc))
    ensures PcOk(x.(state := s), pc)
  {
  }

  lemma BumpPasses(x: Row, pc: Pc)
    requires |x.pub| == |x.bytes| && PcOk(x, pc) && !Hands(pc)
    ensures PcOk(x.(bumps := x.bumps + 1), pc)
  {
  }

  /** ... and what an insert does to a slot in its hands. */
  lemma TakePasses(x: Row, pc: Pc)
    requires |x.pub| == |x.bytes| && PcOk(x, pc) && !Hands(pc)
    ensures PcOk(x.(raw := true), pc)
  {
  }

  lemma PublishPasses(x: Row, pub: Bytes, pc: Pc)
    requires |x.pub| == |x.bytes| == |pub| && PcOk(x, pc) && !Hands(pc) && x.raw && x.state != Active
    ensures PcOk(x.(state := Active, pub := pub, raw := false), pc)
  {
  }

  /** A step of t that keeps the core, t's own point and every other thread's. */
  lemma Kept(w: World, t: Tid, w': World)
    requires Inv(w) && t in w.th && t in w'.th && w'.th == w.th[t := w'.th[t]]
    requires Core(w') && ThreadOk(w', t)
    requires w'.wlock == w.wlock || w.wlock == Some(t) || (w.wlock == None && w'.wlock == Some(t))
    requires w'.wlock != w.wlock ==> w'.wlock == None || w'.wlock == Some(t)
    requires w'.hand == w.hand || w.hand == Some(t) || (w.hand == None && w'.hand == Some(t))
    requires w'.hand != w.hand ==> w'.hand == None || w'.hand == Some(t)
    requires forall u :: u in w.th && u != t && PcOk(w.x, w.th[u]) ==> PcOk(w'.x, w.th[u])
    ensures Inv(w')
  {
    forall u | u in w'.th ensures ThreadOk(w', u) {
      assert u in w.th;
      assert ThreadOk(w, u);
    }
  }

  lemma ReadKeeps(w: World, t: Tid, check: Option<nat>, buf: Bytes, r: ReadPc)
    requires Inv(w) && t in w.th && w.th[t] == Reading(check, buf, r)
    ensures ReadOn(w, t, check, buf, r).Some? ==> Inv(ReadOn(w, t, check, buf, r).value)
  {
    assert ThreadOk(w, t);
    var o := ReadOn(w, t, check, buf, r);
    ParityIs(w.x.stamps);
    hide Odd, SameSeq;
    if o.Some? {
      assert Core(o.value);
      assert ThreadOk(o.value, t);
      hide ThreadOk, PcOk, Core;
      Kept(w, t, o.value);
    }
  }

  lemma ParityIs(n: nat)
    ensures Odd(n) <==> n % 2 == 1
  {
    assert n == n / U32 * U32 + n % U32;
    assert n == 2 * (n / U32 * 0x8000_0000) + n % U32;
  }

  lemma UpdateKeeps(w: World, t: Tid, now: Bytes, u: WritePc)
    requires Inv(w) && t in w.th && w.th[t] == Updating(now, u)
    ensures UpdateOn(w, t, now, u).Some? ==> Inv(UpdateOn(w, t, now, u).value)
  {
    assert ThreadOk(w, t);
    var o := UpdateOn(w, t, now, u);
    if o.Some? {
      if u.Copy? { CopiedWhole(w.x.bytes, now, u.done); }
      assert Core(o.value);
      assert ThreadOk(o.value, t);
      forall v | v in w.th && v != t && PcOk(w.x, w.th[v]) ensures PcOk(o.value.x, w.th[v]) {
        assert ThreadOk(w, v);
        if u.WriteOpen? { StampPasses(w.x, w.x.pub, w.th[v]); }
        if u.Copy? { StampPasses(w.x, now, w.th[v]); }
      }
      hide ThreadOk, PcOk, Core;
      Kept(w, t, o.value);
    }
  }

  lemma DeleteKeeps(w: World, t: Tid, keep: bool, d: DeletePc)
    requires Inv(w) && t in w.th && w.th[t] == Removing(keep, d)
    ensures DeleteOn(w, t, keep, d).Some? ==> Inv(DeleteOn(w, t, keep, d).value)
  {
    assert ThreadOk(w, t);
    var o := DeleteOn(w, t, keep, d);
    if o.Some? {
      assert Core(o.value);
      assert ThreadOk(o.value, t);
      forall v | v in w.th && v != t && PcOk(w.x, w.th[v]) ensures PcOk(o.value.x, w.th[v]) {
        assert ThreadOk(w, v);
        if d.DeleteTest? && w.x.state == Active { MarkPasses(w.x, Deleting, w.th[v]); }
        if d.Unchain? { MarkPasses(w.x, Deleted, w.th[v]); }
        if d.Bump? { BumpPasses(w.x, w.th[v]); }
      }
      hide ThreadOk, PcOk, Core;
      Kept(w, t, o.value);
    }
  }

  lemma InsertKeeps(w: World, t: Tid, rec: Bytes, done: set<nat>, c: Choice)
    requires Inv(w) && t in w.th && w.th[t] == Filling(rec, done)
    ensures InsertOn(w, t, rec, done, c).Some? ==> Inv(InsertOn(w, t, rec, done, c).value)
  {
    assert ThreadOk(w, t);
    var o := InsertOn(w, t, rec, done, c);
    if o.Some? {
      CopiedWhole(w.x.bytes, rec, done);
      assert Core(o.value);
      assert ThreadOk(o.value, t);
      forall v | v in w.th && v != t && PcOk(w.x, w.th[v]) ensures PcOk(o.value.x, w.th[v]) {
        assert ThreadOk(w, v);
        if c != GiveUp { PublishPasses(w.x, rec, w.th[v]); }
      }
      hide ThreadOk, PcOk, Core;
      Kept(w, t, o.value);
    }
  }

  lemma ByteKeeps(w: World, t: Tid, p: nat)
    requires Inv(w) && t in w.th
    ensures CopyByte(w, t, p).Some? ==> Inv(CopyByte(w, t, p).value)
  {
    assert ThreadOk(w, t);
    var o := CopyByte(w, t, p);
    if o.Some? {
      assert Core(o.value);
      assert ThreadOk(o.value, t);
      forall v | v in w.th && v != t && PcOk(w.x, w.th[v]) ensures PcOk(o.value.x, w.th[v]) {
        assert ThreadOk(w, v);
        if !w.th[t].Reading? { BytePasses(w.x, p, o.value.x.bytes[p], w.th[v]); }
      }
      hide ThreadOk, PcOk, Core;
      Kept(w, t, o.value);
    }
  }

  lemma BeginKeeps(w: World, t: Tid, call: Call)
    requires Inv(w) && t in w.th && AtRest(w.th[t])
    ensures Begin(w, t, call).Some? ==> Inv(Begin(w, t, call).value)
  {
    assert ThreadOk(w, t);
    var o := Begin(w, t, call);
    if o.Some? {
      assert Core(o.value);
      assert ThreadOk(o.value, t);
      forall v | v in w.th && v != t && PcOk(w.x, w.th[v]) ensures PcOk(o.value.x, w.th[v]) {
        assert ThreadOk(w, v);
        if call.Insert? { TakePasses(w.x, w.th[v]); }
      }
      hide ThreadOk, PcOk, Core;
      Kept(w, t, o.value);
    }
  }

  lemma UnlockKeeps(w: World, t: Tid)
    requires Inv(w) && t in w.th && w.th[t] == Unlock
    ensures Inv(Go(w.(wlock := None), t, Idle))
  {
    assert ThreadOk(w, t);
    var w' := Go(w.(wlock := None), t, Idle);
    assert Core(w');
    assert ThreadOk(w', t);
    hide ThreadOk, PcOk, Core;
    Kept(w, t, w');
  }

  lemma StepKeepsInv(w: World, t: Tid, w': World)
    requires Inv(w) && Step(w, t, w')
    ensures Inv(w')
  {
    var c: Choice :| Move(w, t, c) == Some(w');
    hide Inv, ReadOn, UpdateOn, DeleteOn, InsertOn, CopyByte, Begin;
    match c {
      case Start(call) => BeginKeeps(w, t, call);
      case Byte(p) => ByteKeeps(w, t, p);
      case _ =>
        match w.th[t] {
          case Reading(check, buf, r) => ReadKeeps(w, t, check, buf, r);
          case Updating(now, u) => UpdateKeeps(w, t, now, u);
          case Removing(keep, d) => DeleteKeeps(w, t, keep, d);
          case Unlock => UnlockKeeps(w, t);
          case Filling(rec, done) => InsertKeeps(w, t, rec, done, c);
          case _ =>
        }
    }
  }

  lemma {:induction false} RunInv(run: seq<World>, who: seq<Tid>, n: nat)
    requires IsRun(run, who) && n < |run|
    ensures Inv(run[n])
  {
    if n > 0 {
      RunInv(run, who, n - 1);
      assert Step(run[n - 1], who[n - 1], run[n - 1 + 1]);
      hide Inv, Step;
      StepKeepsInv(run[n - 1], who[n - 1], run[n]);
    }
  }

  // ----- tear-freedom --------------------------------------------------------

  /** The count never decreases. */
  lemma StepGrows(w: World, t: Tid, w': World)
    requires Step(w, t, w')
    ensures w.x.stamps <= w'.x.stamps
  {
  }

  lemma {:induction false} RunGrows(run: seq<World>, who: seq<Tid>, m: nat, n: nat)
    requires IsRun(run, who) && m <= n < |run|
    ensures run[m].x.stamps <= run[n].x.stamps
    decreases n
  {
    if m < n {
      RunGrows(run, who, m, n - 1);
      assert Step(run[n - 1], who[n - 1], run[n - 1 + 1]);
      hide Step;
      StepGrows(run[n - 1], who[n - 1], run[n]);
    }
  }

  lemma SeqUnmoved(m: nat, n: nat)
    requires n <= m && SameSeq(m, n) && m - n < U32
    ensures m == n
  {
  }

  /** Thread t is at its first seq load. */
  predicate Loads(w: World, t: Tid) { t in w.th && w.th[t].Reading? && w.th[t].r.LoadSeq? }

  /** Thread t is between its two seq loads. */
  predicate Copies(w: World, t: Tid) { t in w.th && w.th[t].Reading? && w.th[t].r.Copying? }

  /** What t has copied so far agrees with what is published. */
  ghost predicate Agrees(w: World, t: Tid)
    requires Copies(w, t)
  {
    && w.th[t].r.s1 == w.x.stamps
    && forall p :: p in w.th[t].r.done && p < |w.th[t].buf| && p < |w.x.pub| ==> w.th[t].buf[p] == w.x.pub[p]
  }

  lemma LoadAgrees(w: World, t: Tid, w': World)
    requires Step(w, t, w') && Loads(w, t) && Copies(w', t)
    ensures w'.x == w.x && Agrees(w', t) && w.x.stamps % 2 == 0
  {
    ParityIs(w.x.stamps);
    hide Odd;
  }

  /** A step of anybody that leaves the count alone and the slot to its row. */
  lemma StaysAgreed(w: World, u: Tid, w': World, t: Tid)
    requires Inv(w) && Step(w, u, w') && Copies(w, t) && Copies(w', t) && Agrees(w, t) && w.x.stamps % 2 == 0
    requires w'.x.stamps == w.x.stamps && !w.x.raw && !w'.x.raw
    ensures w'.x.pub == w.x.pub && Agrees(w', t)
  {
    assert ThreadOk(w, u) && ThreadOk(w, t);
    hide Odd, SameSeq;
  }

  lemma {:induction false} WindowAgrees(run: seq<World>, who: seq<Tid>, m: nat, n: nat, t: Tid)
    requires IsRun(run, who) && m < n < |run| && who[m] == t && Loads(run[m], t)
    requires forall j :: m < j <= n ==> Copies(run[j], t)
    requires forall j :: m <= j <= n ==> !run[j].x.raw && run[j].x.stamps == run[m].x.stamps
    ensures run[m].x.stamps % 2 == 0 && Agrees(run[n], t) && run[n].x.pub == run[m].x.pub
    decreases n
  {
    assert Step(run[n - 1], who[n - 1], run[n - 1 + 1]);
    hide Step, Agrees, Inv;
    if m == n - 1 {
      LoadAgrees(run[m], t, run[n]);
    } else {
      WindowAgrees(run, who, m, n - 1, t);
      RunInv(run, who, n - 1);
      StaysAgreed(run[n - 1], who[n - 1], run[n], t);
    }
  }

  lemma ReturnsCopy(w: World, t: Tid, w': World, buf: Bytes)
    requires Inv(w) && Step(w, t, w') && Copies(w, t) && t in w'.th && w'.th[t] == Got(buf)
    ensures SameSeq(w.x.stamps, w.th[t].r.s1)
    ensures Agrees(w, t) ==> buf == w.x.pub
  {
    assert ThreadOk(w, t);
    hide SameSeq;
    assert w.th[t].buf == buf;
    var done := w.th[t].r.done;
    assert forall p :: 0 <= p < |buf| ==> p in done;
  }

  /** The read attempt of t that loads the counter at step m and again at step n,
      where it ends with OK and buf. */
  ghost predicate Attempt(run: seq<World>, who: seq<Tid>, m: nat, n: nat, t: Tid, buf: Bytes) {
    && IsRun(run, who) && m < n < |who| && who[m] == who[n] == t && Loads(run[m], t)
    && (forall j :: m < j <= n ==> Copies(run[j], t))
    && t in run[n + 1].th && run[n + 1].th[t] == Got(buf)
  }

  lemma {:induction false} SameAttempt(run: seq<World>, who: seq<Tid>, m: nat, n: nat, t: Tid)
    requires IsRun(run, who) && m < n < |run| && who[m] == t && Loads(run[m], t)
    requires forall j :: m < j <= n ==> Copies(run[j], t)
    ensures Copies(run[n], t) && run[n].th[t].r.s1 == run[m].x.stamps
    decreases n
  {
    assert Step(run[n - 1], who[n - 1], run[n - 1 + 1]);
    if m < n - 1 { SameAttempt(run, who, m, n - 1, t); }
    hide Odd, SameSeq;
  }

  /** Tear-freedom.  A read that ends with OK returns the content that was published
      throughout, from its first to its second seq load, provided that at no time in
      between the bytes were those of an insert that had not published them, and that
      the 32-bit counter has not gone all the way round. */
  lemma TearFree(run: seq<World>, who: seq<Tid>, m: nat, n: nat, t: Tid, buf: Bytes)
    requires Attempt(run, who, m, n, t, buf)
    requires run[n].x.stamps - run[m].x.stamps < U32
    requires forall j :: m <= j <= n ==> !run[j].x.raw
    ensures forall j :: m <= j <= n ==> run[j].x.pub == buf == run[j].x.bytes
  {
    RunInv(run, who, n);
    assert Step(run[n], t, run[n + 1]);
    hide Step;
    ReturnsCopy(run[n], t, run[n + 1], buf);
    SameAttempt(run, who, m, n, t);
    RunGrows(run, who, m, n);
    SeqUnmoved(run[n].x.stamps, run[m].x.stamps);
    forall j | m <= j <= n ensures run[j].x.stamps == run[m].x.stamps {
      RunGrows(run, who, m, j);
      RunGrows(run, who, j, n);
    }
    WindowAgrees(run, who, m, n, t);
    forall j | m <= j <= n ensures run[j].x.pub == buf == run[j].x.bytes {
      RunInv(run, who, j);
      if m < j { WindowAgrees(run, who, m, j, t); }
      hide ThreadOk;
    }
  }

  /** Where a read that is past its state load has come from. */
  lemma ReadBack(w: World, u: Tid, w': World, t: Tid)
    requires Step(w, u, w') && t in w'.th && w'.th[t].Reading? && !w'.th[t].r.LoadState?
    ensures t in w.th && (u != t ==> w.th[t] == w'.th[t])
    ensures u == t ==>
              && w.th[t].Reading? && w.th[t].check == w'.th[t].check
              && match w'.th[t].r
                 case LoadGen => w.th[t].r.LoadState? && w.x.state == Active && w.th[t].check.Some?
                 case LoadSeq =>
                   if w.th[t].check.Some? then w.th[t].r.LoadGen? && w.th[t].check == Some(w.x.bumps % U32)
                   else w.th[t].r.LoadState? && w.x.state == Active
                 case _ => w.th[t].r.LoadSeq? || w.th[t].r.Copying?
  {
    hide Odd, SameSeq, Full;
  }

  /** A thread past the state load of its read, and not yet at its first seq load, found
      the slot ACTIVE. */
  lemma {:induction false} StateTested(run: seq<World>, who: seq<Tid>, m: nat, t: Tid) returns (l: nat)
    requires IsRun(run, who) && m < |run| && t in run[m].th && run[m].th[t].Reading? && run[m].th[t].r.LoadGen?
    ensures l < m && who[l] == t && run[l].x.state == Active
    ensures forall j :: l <= j <= m ==> t in run[j].th && run[j].th[t].Reading?
  {
    assert m > 0;
    assert Step(run[m - 1], who[m - 1], run[m - 1 + 1]);
    hide Step;
    ReadBack(run[m - 1], who[m - 1], run[m], t);
    if who[m - 1] == t {
      l := m - 1;
    } else {
      l := StateTested(run, who, m - 1, t);
    }
  }

  /** A read that comes to its first seq load has found the slot ACTIVE and, if it was to
      check the generation, the slot's generation equal to the one it was given. */
  lemma {:induction false} Tested(run: seq<World>, who: seq<Tid>, m: nat, t: Tid) returns (l: nat, g: nat)
    requires IsRun(run, who) && m < |run| && Loads(run[m], t)
    ensures l < m && who[l] == t && run[l].x.state == Active
    ensures forall j :: l <= j <= m ==> t in run[j].th && run[j].th[t].Reading?
    ensures run[m].th[t].check.Some? ==> l < g < m && who[g] == t && run[m].th[t].check == Some(run[g].x.bumps % U32)
  {
    assert m > 0;
    assert Step(run[m - 1], who[m - 1], run[m - 1 + 1]);
    hide Step;
    ReadBack(run[m - 1], who[m - 1], run[m], t);
    if who[m - 1] != t {
      l, g := Tested(run, who, m - 1, t);
    } else if run[m].th[t].check.Some? {
      l := StateTested(run, who, m - 1, t);
      g := m - 1;
    } else {
      l, g := m - 1, 0;
    }
  }

  // ----- from the call to its end ----------------------------------------------------

  /** With step b thread t is called. */
  ghost predicate Starts(run: seq<World>, who: seq<Tid>, b: nat, t: Tid, call: Call) {
    && IsRun(run, who) && b < |who| && who[b] == t && t in run[b].th && AtRest(run[b].th[t])
    && Move(run[b], t, Start(call)) == Some(run[b + 1])
  }

  /** In state n it is still at that call. */
  ghost predicate During(run: seq<World>, who: seq<Tid>, b: nat, n: nat, t: Tid, call: Call) {
    && Starts(run, who, b, t, call) && b < n < |run|
    && forall j :: b < j <= n ==> t in run[j].th && !AtRest(run[j].th[t])
  }

  /** With step n it comes back from it. */
  ghost predicate Ends(run: seq<World>, who: seq<Tid>, b: nat, n: nat, t: Tid, call: Call) {
    During(run, who, b, n, t, call) && n < |who| && who[n] == t && t in run[n + 1].th && AtRest(run[n + 1].th[t])
  }

  /** What a thread is at is what it was called for. */
  predicate Serves(pc: Pc, call: Call) {
    match call
    case Read(check, _) => pc.Reading? && pc.check == check
    case Update(now) => (pc.Updating? && pc.now == now) || pc.Unlock?
    case Delete(keep) => (pc.Removing? && pc.keep == keep) || pc.Unlock?
    case Insert(rec) => pc.Filling? && pc.rec == rec
  }

  lemma StepServes(w: World, u: Tid, w': World, t: Tid, call: Call)
    requires Step(w, u, w') && t in w.th && Serves(w.th[t], call)
    ensures t in w'.th && (t != u ==> w'.th[t] == w.th[t]) && (AtRest(w'.th[t]) || Serves(w'.th[t], call))
  {
    hide Odd, SameSeq, Full;
  }

  lemma {:induction false} RunServes(run: seq<World>, who: seq<Tid>, b: nat, n: nat, t: Tid, call: Call)
    requires During(run, who, b, n, t, call)
    ensures Serves(run[n].th[t], call)
    decreases n
  {
    if n > b + 1 {
      RunServes(run, who, b, n - 1, t, call);
      assert Step(run[n - 1], who[n - 1], run[n - 1 + 1]);
      hide Step, Serves;
      StepServes(run[n - 1], who[n - 1], run[n], t, call);
    }
  }

  /** A read between its two seq loads has come from the first. */
  lemma {:induction false} LoadedAt(run: seq<World>, who: seq<Tid>, n: nat, t: Tid) returns (m: nat)
    requires IsRun(run, who) && n < |run| && Copies(run[n], t)
    ensures m < n && who[m] == t && Loads(run[m], t) && run[m].th[t].check == run[n].th[t].check
    ensures forall j :: m < j <= n ==> Copies(run[j], t)
  {
    assert n > 0;
    assert Step(run[n - 1], who[n - 1], run[n - 1 + 1]);
    hide Step;
    ReadBack(run[n - 1], who[n - 1], run[n], t);
    if Copies(run[n - 1], t) {
      m := LoadedAt(run, who, n - 1, t);
    } else {
      m := n - 1;
    }
  }

  /** A read that was called for with a check and comes back with an image: its last attempt,
      and before that a step that found the slot ACTIVE and, if there was a generation to be
      checked, one that found the slot to have it. */
  lemma ReadEnds(run: seq<World>, who: seq<Tid>, b: nat, n: nat, t: Tid, check: Option<nat>, buf0: Bytes, buf: Bytes)
    returns (l: nat, g: nat, m: nat)
    requires Ends(run, who, b, n, t, Read(check, buf0)) && run[n + 1].th[t] == Got(buf)
    ensures Attempt(run, who, m, n, t, buf) && b < l < m && run[l].x.state == Active
    ensures check.Some? ==> l < g < m && check == Some(run[g].x.bumps % U32)
  {
    RunServes(run, who, b, n, t, Read(check, buf0));
    assert Step(run[n], who[n], run[n + 1]);
    GotFromCopy(run[n], t, run[n + 1]);
    hide Step;
    m := LoadedAt(run, who, n, t);
    l, g := Tested(run, who, m, t);
    assert !Copies(run[b], t) && !Loads(run[b], t) && !run[b].th[t].Reading?;
  }

  lemma GotFromCopy(w: World, t: Tid, w': World)
    requires Step(w, t, w') && w.th[t].Reading? && t in w'.th && w'.th[t].Got?
    ensures Copies(w, t)
  {
  }

  /** How an insert ends: its record is published, whole; or its slot is free again. */
  lemma InsertEnds(run: seq<World>, who: seq<Tid>, b: nat, n: nat, t: Tid, rec: Bytes)
    requires Ends(run, who, b, n, t, Insert(rec))
    ensures (run[n + 1].x.state == Active && run[n + 1].x.pub == rec == run[n + 1].x.bytes) || run[n + 1].free
  {
    RunServes(run, who, b, n, t, Insert(rec));
    RunInv(run, who, n);
    assert ThreadOk(run[n], t);
    assert Step(run[n], who[n], run[n + 1]);
    var done := run[n].th[t].done;
    if Full(|run[n].x.bytes|, done) { CopiedWhole(run[n].x.bytes, rec, done); }
  }

  lemma DuringMeans(run: seq<World>, who: seq<Tid>, b: nat, n: nat, t: Tid, call: Call)
    requires During(run, who, b, n, t, call)
    ensures IsRun(run, who) && |run| == |who| + 1 && b < n < |run| && t in run[n].th && !AtRest(run[n].th[t])
    ensures n > b + 1 ==>
              During(run, who, b, n - 1, t, call) && Step(run[n - 1], who[n - 1], run[n]) && t in run[n - 1].th
    ensures n == b + 1 ==> Serves(run[n].th[t], call) && !run[n].th[t].Unlock?
  {
    if n > b + 1 { assert Step(run[n - 1], who[n - 1], run[n - 1 + 1]); }
    hide Step;
  }

  lemma UpdateToldFirst(run: seq<World>, who: seq<Tid>, b: nat, n: nat, t: Tid, now: Bytes)
    requires n < |run| == |who| + 1 && t in run[n].th && Serves(run[n].th[t], Update(now)) && !run[n].th[t].Unlock?
    ensures UpdateTold(run, who, b, n, t, now, 0)
  {
  }

  /** An update on its way out has published its image, whole, or found no ACTIVE slot. */
  ghost predicate UpdateTold(run: seq<World>, who: seq<Tid>, b: nat, n: nat, t: Tid, now: Bytes, c: nat)
    requires n < |run| == |who| + 1 && t in run[n].th
  {
    && Serves(run[n].th[t], Update(now))
    && (run[n].th[t].Unlock? ==>
          && b < c < n && who[c] == t
          && (run[c].x.state != Active || run[c + 1].x.pub == now == run[c + 1].x.bytes))
  }

  lemma UpdateToldOn(run: seq<World>, who: seq<Tid>, b: nat, n: nat, n': nat, t: Tid, now: Bytes, c: nat)
    returns (c': nat)
    requires b < n < n' == n + 1 < |run| == |who| + 1 && t in run[n].th && UpdateTold(run, who, b, n, t, now, c)
    requires Inv(run[n]) && Step(run[n], who[n], run[n']) && t in run[n'].th && !AtRest(run[n'].th[t])
    ensures UpdateTold(run, who, b, n', t, now, c')
  {
    hide Inv, Step;
    c' := c;
    StepServes(run[n], who[n], run[n'], t, Update(now));
    if who[n] == t && run[n].th[t].Updating? && run[n'].th[t].Unlock? {
      UpdateCloses(run[n], t, run[n'], now);
      c' := n;
    } else if who[n] == t && run[n].th[t].Unlock? {
      UnlockRests(run[n], t, run[n']);
    }
  }

  lemma {:induction false} UpdateGoesOn(run: seq<World>, who: seq<Tid>, b: nat, n: nat, t: Tid, now: Bytes)
    returns (c: nat)
    requires During(run, who, b, n, t, Update(now))
    ensures |run| == |who| + 1 && UpdateTold(run, who, b, n, t, now, c)
    decreases n
  {
    hide During, IsRun, Step, Inv, UpdateTold;
    DuringMeans(run, who, b, n, t, Update(now));
    if n == b + 1 {
      c := 0;
      UpdateToldFirst(run, who, b, n, t, now);
    } else {
      RunInv(run, who, n - 1);
      c := UpdateGoesOn(run, who, b, n - 1, t, now);
      c := UpdateToldOn(run, who, b, n - 1, n, t, now, c);
    }
  }

  lemma UpdateCloses(w: World, t: Tid, w': World, now: Bytes)
    requires Inv(w) && Step(w, t, w') && w.th[t].Updating? && w.th[t].now == now && t in w'.th && w'.th[t].Unlock?
    ensures w.x.state != Active || w'.x.pub == now == w'.x.bytes
  {
    assert ThreadOk(w, t);
    if w.th[t].u.Copy? && Full(|w.x.bytes|, w.th[t].u.done) { CopiedWhole(w.x.bytes, now, w.th[t].u.done); }
  }

  lemma UnlockRests(w: World, t: Tid, w': World)
    requires Step(w, t, w') && w.th[t].Unlock?
    ensures t in w'.th && w'.th[t].Idle?
  {
  }

  /** How an update ends: at some step in between its image was published, whole, or the slot
      was not ACTIVE. */
  lemma UpdateEnds(run: seq<World>, who: seq<Tid>, b: nat, n: nat, t: Tid, now: Bytes) returns (c: nat)
    requires Ends(run, who, b, n, t, Update(now))
    ensures b < c < n && who[c] == t && (run[c].x.state != Active || run[c + 1].x.pub == now == run[c + 1].x.bytes)
  {
    c := UpdateGoesOn(run, who, b, n, t, now);
    assert Step(run[n], who[n], run[n + 1]);
    UpdateRests(run[n], t, run[n + 1]);
  }

  lemma UpdateRests(w: World, t: Tid, w': World)
    requires Step(w, t, w') && (w.th[t].Updating? || w.th[t].Unlock?) && t in w'.th && AtRest(w'.th[t])
    ensures w.th[t].Unlock?
  {
  }

  /** The slot is taken off the freelist. */
  predicate Recycles(w: World, w': World) { w.free && !w'.free }

  lemma StaysClean(w: World, t: Tid, w': World)
    requires Step(w, t, w') && !w.x.raw && !Recycles(w, w')
    ensures !w'.x.raw
  {
  }

  lemma {:induction false} Clean(run: seq<World>, who: seq<Tid>, l: nat, n: nat)
    requires IsRun(run, who) && l <= n < |run| && run[l].x.state == Active
    requires forall j :: l <= j < n ==> !Recycles(run[j], run[j + 1])
    ensures !run[n].x.raw
    decreases n
  {
    if l < n {
      Clean(run, who, l, n - 1);
      assert Step(run[n - 1], who[n - 1], run[n - 1 + 1]);
      assert !Recycles(run[n - 1], run[n - 1 + 1]);
      hide Step;
      StaysClean(run[n - 1], who[n - 1], run[n]);
    } else {
      RunInv(run, who, l);
    }
  }

  /** In the terms of the code: a read that found the slot ACTIVE at step l is not
      torn if nobody takes the slot off the freelist before its last seq load.  It may
      be updated, deleted and freed meanwhile. */
  lemma TearFreeWithoutRecycle(run: seq<World>, who: seq<Tid>, l: nat, m: nat, n: nat, t: Tid, buf: Bytes)
    requires Attempt(run, who, m, n, t, buf) && l <= m && run[l].x.state == Active
    requires run[n].x.stamps - run[m].x.stamps < U32
    requires forall j :: l <= j < n ==> !Recycles(run[j], run[j + 1])
    ensures forall j :: m <= j <= n ==> run[j].x.pub == buf == run[j].x.bytes
  {
    hide Step;
    forall j | m <= j <= n ensures !run[j].x.raw { Clean(run, who, l, j); }
    TearFree(run, who, m, n, t, buf);
  }

  // ----- both conditions are needed ---------------------------------------------

  /** Each byte from the one or the other row. */
  function Mix(part: set<nat>, one: Bytes, two: Bytes): (r: Bytes)
    requires |one| == |two|
    ensures |r| == |one|
  {
    seq(|one|, p requires 0 <= p < |one| => if p in part then one[p] else two[p])
  }

  /** Two rows of a length, of which a run publishes no others; clean, if it leaves no
      unpublished bytes either. */
  datatype Game = Game(one: Bytes, two: Bytes, clean: bool)
  {
    predicate Fits() { |one| == |two| }

    predicate Allows(x: Row) { (x.pub == one || x.pub == two) && (clean ==> !x.raw) }
  }

  datatype Trace = Trace(run: seq<World>, who: seq<Tid>)
  {
    ghost predicate Of(g: Game) {
      IsRun(run, who) && forall n :: 0 <= n < |run| ==> g.Allows(run[n].x)
    }

    function Last(): World
      requires |run| == |who| + 1
    {
      run[|who|]
    }
  }

  /** One more step. */
  lemma More(tr: Trace, g: Game, t: Tid, c: Choice) returns (tr': Trace)
    requires tr.Of(g) && t in tr.Last().th && Move(tr.Last(), t, c).Some?
    requires g.Allows(Move(tr.Last(), t, c).value.x)
    ensures tr'.Of(g) && Some(tr'.Last()) == Move(tr.Last(), t, c)
  {
    tr' := Trace(tr.run + [Move(tr.Last(), t, c).value], tr.who + [t]);
    forall n | 0 <= n < |tr'.who| ensures Step(tr'.run[n], tr'.who[n], tr'.run[n + 1]) {
      if n < |tr.who| { assert Step(tr.run[n], tr.who[n], tr.run[n + 1]); }
    }
  }

  /** Thread 0 reads, and thread 1 does something else. */
  function Duo(a: Pc, b: Pc): map<Tid, Pc> { map[0 := a, 1 := b] }

  function Two(w: World, a: Pc, b: Pc): World { w.(th := Duo(a, b)) }

  /** The bytes copied so far are those of from. */
  ghost predicate Taken(buf: Bytes, done: set<nat>, from: Bytes) {
    |buf| == |from| && forall p :: p in done ==> p < |buf| && buf[p] == from[p]
  }

  /** The reader copies the bytes of part. */
  lemma ReadPart(tr: Trace, g: Game, part: set<nat>, from: Bytes, buf0: Bytes, done0: set<nat>)
    returns (tr': Trace, buf: Bytes, done: set<nat>)
    requires tr.Of(g) && Taken(buf0, done0, from) && |tr.Last().x.bytes| == |from|
    requires tr.Last() == Two(tr.Last(), Reading(Some(0), buf0, Copying(0, done0)), Idle)
    requires forall p :: 0 <= p < |from| && p in part ==> tr.Last().x.bytes[p] == from[p]
    ensures tr'.Of(g) && tr'.Last() == Two(tr.Last(), Reading(Some(0), buf, Copying(0, done)), Idle)
    ensures Taken(buf, done, from) && forall p :: 0 <= p < |from| ==> (p in done <==> p in done0 || p in part)
  {
    tr', buf, done := tr, buf0, done0;
    for i := 0 to |from|
      invariant tr'.Of(g) && Taken(buf, done, from)
      invariant tr'.Last() == Two(tr.Last(), Reading(Some(0), buf, Copying(0, done)), Idle)
      invariant forall p :: p in done <==> p in done0 || (0 <= p < i && p in part)
    {
      if i in part && i !in done {
        assert g.Allows(tr.Last().x);
        hide Trace.Of;
        tr' := More(tr', g, 0, Byte(i));
        buf, done := buf[i := from[i]], done + {i};
      }
    }
  }

  /** A writer at its bytes: an insert, or an update. */
  function Writer(fill: bool, now: Bytes, done: set<nat>): Pc {
    if fill then Filling(now, done) else Updating(now, Copy(done))
  }

  lemma WriteOne(w: World, pc: Pc, fill: bool, now: Bytes, done: set<nat>, i: nat)
    requires w == Two(w, pc, Writer(fill, now, done)) && i < |now| == |w.x.bytes| && i !in done
    ensures Move(w, 1, Byte(i)) == Some(Two(w.(x := SetByte(w.x, i, now[i])), pc, Writer(fill, now, done + {i})))
  {
    assert w.th[1 := Writer(fill, now, done + {i})] == map[0 := pc, 1 := Writer(fill, now, done + {i})];
  }

  /** Thread 1 writes its image over the slot. */
  lemma WriteAll(tr: Trace, g: Game, pc: Pc, fill: bool) returns (tr': Trace, done: set<nat>)
    requires tr.Of(g) && |g.two| == |tr.Last().x.bytes| && tr.Last() == Two(tr.Last(), pc, Writer(fill, g.two, {}))
    ensures tr'.Of(g) && Full(|g.two|, done)
    ensures tr'.Last() == Two(tr.Last().(x := tr.Last().x.(bytes := g.two)), pc, Writer(fill, g.two, done))
  {
    var w := tr.Last();
    var bytes := w.x.bytes;
    tr', done := tr, {};
    for i := 0 to |g.two|
      invariant tr'.Of(g) && |bytes| == |g.two| && (forall p :: p in done <==> 0 <= p < i)
      invariant tr'.Last() == Two(w.(x := w.x.(bytes := bytes)), pc, Writer(fill, g.two, done))
      invariant forall p :: 0 <= p < i ==> bytes[p] == g.two[p]
    {
      assert g.Allows(w.x);
      hide Trace.Of, Move, Writer;
      WriteOne(tr'.Last(), pc, fill, g.two, done, i);
      tr' := More(tr', g, 1, Byte(i));
      bytes, done := bytes[i := g.two[i]], done + {i};
    }
    assert bytes == g.two;
  }

  /** The slot, ACTIVE or freed, and nobody at work on it but the reader. */
  function Calm(x: Row, free: bool, pc: Pc): World { World(x, free, None, None, Duo(pc, Idle)) }

  lemma LoadMoves(x: Row, buf: Bytes)
    requires x.state == Active && x.stamps == x.bumps == 0 && |buf| == |x.bytes|
    ensures Move(Calm(x, false, Idle), 0, Start(Read(Some(0), buf))) ==
              Some(Calm(x, false, Reading(Some(0), buf, LoadState)))
    ensures Move(Calm(x, false, Reading(Some(0), buf, LoadState)), 0, Next) ==
              Some(Calm(x, false, Reading(Some(0), buf, LoadGen)))
    ensures Move(Calm(x, false, Reading(Some(0), buf, LoadGen)), 0, Next) ==
              Some(Calm(x, false, Reading(Some(0), buf, LoadSeq)))
    ensures Move(Calm(x, false, Reading(Some(0), buf, LoadSeq)), 0, Next) ==
              Some(Calm(x, false, Reading(Some(0), buf, Copying(0, {}))))
  {
    forall pc, pc' ensures Go(Calm(x, false, pc), 0, pc') == Calm(x, false, pc') {
      assert Calm(x, false, pc).th[0 := pc'] == map[0 := pc', 1 := Idle];
    }
  }

  /** The reader has passed its tests. */
  lemma Loaded(g: Game) returns (tr: Trace)
    ensures tr.Of(g)
    ensures tr.Last() == Calm(Row(Active, 0, 0, g.one, g.one, false), false, Reading(Some(0), g.one, Copying(0, {})))
  {
    var x := Row(Active, 0, 0, g.one, g.one, false);
    LoadMoves(x, g.one);
    tr := Trace([Calm(x, false, Idle)], []);
    assert tr.Of(g);
    hide Trace.Of, Move;
    tr := More(tr, g, 0, Start(Read(Some(0), g.one)));
    tr := More(tr, g, 0, Next);
    tr := More(tr, g, 0, Next);
    tr := More(tr, g, 0, Next);
  }

  /** The reader has copied a part of the first row. */
  lemma Halfway(g: Game, part: set<nat>) returns (tr: Trace, buf: Bytes, done: set<nat>)
    requires g.Fits()
    ensures tr.Of(g) && Taken(buf, done, Mix(part, g.one, g.two))
    ensures tr.Last() == Calm(Row(Active, 0, 0, g.one, g.one, false), false, Reading(Some(0), buf, Copying(0, done)))
    ensures forall p :: 0 <= p < |g.one| ==> (p in done <==> p in part)
  {
    hide Trace.Of;
    tr := Loaded(g);
    tr, buf, done := ReadPart(tr, g, part, Mix(part, g.one, g.two), g.one, {});
  }

  /** The reader copies the rest, and its second seq load says that nothing moved. */
  lemma RestRead(tr: Trace, g: Game, part: set<nat>, x: Row, buf: Bytes, done: set<nat>) returns (tr': Trace)
    requires g.Fits() && tr.Of(g) && Taken(buf, done, Mix(part, g.one, g.two))
    requires x.bytes == g.two && x.stamps % U32 == 0 && forall p :: 0 <= p < |g.one| ==> (p in done <==> p in part)
    requires tr.Last() == Calm(x, false, Reading(Some(0), buf, Copying(0, done)))
    ensures tr'.Of(g) && 0 in tr'.Last().th && tr'.Last().th[0] == Got(Mix(part, g.one, g.two)) && tr'.Last().x == x
  {
    var rest := set p | 0 <= p < |g.one| && p !in part;
    var buf', done';
    tr', buf', done' := ReadPart(tr, g, rest, Mix(part, g.one, g.two), buf, done);
    assert buf' == Mix(part, g.one, g.two);
    assert SameSeq(x.stamps, 0);
    assert g.Allows(x);
    hide Trace.Of, SameSeq;
    tr' := More(tr', g, 0, Next);
  }

  /** Thread 1 deletes the row. */
  lemma Deletes(tr: Trace, g: Game, x: Row, pc: Pc) returns (tr': Trace)
    requires tr.Of(g) && tr.Last() == Calm(x, false, pc) && x.state == Active
    ensures tr'.Of(g) && tr'.Last() == Calm(x.(state := Deleted, bumps := x.bumps + 1), true, pc)
  {
    assert g.Allows(x);
    DeleteMoves(x, pc);
    hide Trace.Of, Move;
    tr' := More(tr, g, 1, Start(Delete(false)));
    tr' := More(tr', g, 1, Next);
    tr' := More(tr', g, 1, Next);
    tr' := More(tr', g, 1, Next);
    tr' := More(tr', g, 1, Next);
    tr' := More(tr', g, 1, Next);
  }

  /** Thread 1 is at step d of a delete. */
  function Mid(x: Row, wlock: Option<Tid>, hand: Option<Tid>, pc: Pc, d: DeletePc): World {
    World(x, false, wlock, hand, Duo(pc, Removing(false, d)))
  }

  lemma DeleteMoves(x: Row, pc: Pc)
    requires x.state == Active
    ensures Move(Calm(x, false, pc), 1, Start(Delete(false))) == Some(Mid(x, None, None, pc, DeleteWait))
    ensures Move(Mid(x, None, None, pc, DeleteWait), 1, Next) == Some(Mid(x, Some(1), None, pc, DeleteTest))
    ensures var y := x.(state := Deleting);
            && Move(Mid(x, Some(1), None, pc, DeleteTest), 1, Next) == Some(Mid(y, None, Some(1), pc, Unchain))
            && Move(Mid(y, None, Some(1), pc, Unchain), 1, Next) ==
                 Some(Mid(y.(state := Deleted), None, Some(1), pc, Bump))
    ensures var y := x.(state := Deleted);
            var z := y.(bumps := y.bumps + 1);
            && Move(Mid(y, None, Some(1), pc, Bump), 1, Next) == Some(Mid(z, None, Some(1), pc, Push))
            && Move(Mid(z, None, Some(1), pc, Push), 1, Next) == Some(Calm(z, true, pc))
  {
    forall b, c ensures Duo(pc, b)[1 := c] == Duo(pc, c) {
    }
  }

  /** Thread 1 fills the freed slot with the second row. */
  lemma Refills(tr: Trace, g: Game, x: Row, pc: Pc) returns (tr': Trace)
    requires !g.clean && tr.Of(g) && tr.Last() == Calm(x, true, pc) && |g.two| == |x.bytes|
    ensures tr'.Of(g) && tr'.Last() == Calm(x.(state := Active, bytes := g.two, pub := g.two, raw := false), false, pc)
  {
    assert g.Allows(x);
    hide Trace.Of;
    tr' := More(tr, g, 1, Start(Insert(g.two)));
    assert tr'.Last().th == map[0 := pc, 1 := Writer(true, g.two, {})];
    var done;
    tr', done := WriteAll(tr', g, pc, true);
    tr' := More(tr', g, 1, Next);
    assert tr'.Last().th == map[0 := pc, 1 := Idle];
  }

  /** The slot must not be recycled: for any two rows and any part of their bytes there
      is a run in which a generation-checked read returns OK with that part of the one
      and the rest of the other. */
  lemma TornAcrossRecycle(one: Bytes, two: Bytes, part: set<nat>) returns (run: seq<World>, who: seq<Tid>)
    requires |one| == |two|
    ensures IsRun(run, who) && forall n :: 0 <= n < |run| ==> run[n].x.pub == one || run[n].x.pub == two
    ensures forall n :: 0 <= n < |run| ==> run[n].x.stamps == 0
    ensures 0 in run[|who|].th && run[|who|].th[0] == Got(Mix(part, one, two))
  {
    var g := Game(one, two, false);
    var tr, buf, done := Halfway(g, part);
    var x := Row(Active, 0, 0, one, one, false);
    var pc := Reading(Some(0), buf, Copying(0, done));
    tr := Deletes(tr, g, x, pc);
    x := x.(state := Deleted, bumps := x.bumps + 1);
    tr := Refills(tr, g, x, pc);
    x := x.(state := Active, bytes := two, pub := two, raw := false);
    tr := RestRead(tr, g, part, x, buf, done);
    run, who := tr.run, tr.who;
    forall n | 0 <= n < |run| ensures run[n].x.stamps == 0 { RunGrows(run, who, n, |who|); }
  }

  /** Thread 1 updates the row. */
  lemma Updates(tr: Trace, g: Game, x: Row, pc: Pc) returns (tr': Trace)
    requires tr.Of(g) && tr.Last() == Calm(x, false, pc) && x.state == Active && |g.two| == |x.bytes|
    ensures tr'.Of(g) && tr'.Last() == Calm(x.(stamps := x.stamps + 2, bytes := g.two, pub := g.two), false, pc)
  {
    assert g.Allows(x);
    hide Trace.Of;
    tr' := More(tr, g, 1, Start(Update(g.two)));
    tr' := More(tr', g, 1, Next);
    tr' := More(tr', g, 1, Next);
    tr' := More(tr', g, 1, Next);
    assert tr'.Last().th == map[0 := pc, 1 := Writer(false, g.two, {})];
    var done;
    tr', done := WriteAll(tr', g, pc, false);
    tr' := More(tr', g, 1, Next);
    tr' := More(tr', g, 1, Next);
    assert tr'.Last().th == map[0 := pc, 1 := Idle];
  }

  lemma {:induction false} UpdatesOften(tr: Trace, g: Game, x: Row, pc: Pc, k: nat) returns (tr': Trace)
    requires tr.Of(g) && tr.Last() == Calm(x, false, pc) && x.state == Active && |g.two| == |x.bytes| && k > 0
    ensures tr'.Of(g) && tr'.Last() == Calm(x.(stamps := x.stamps + 2 * k, bytes := g.two, pub := g.two), false, pc)
    decreases k
  {
    hide Trace.Of;
    tr' := Updates(tr, g, x, pc);
    if k > 1 {
      tr' := UpdatesOften(tr', g, x.(stamps := x.stamps + 2, bytes := g.two, pub := g.two), pc, k - 1);
    }
  }

  /** The counter must not go round: after 2^31 updates, without any delete, a read can
      mix rows in the same way. */
  lemma TornAcrossWrap(one: Bytes, two: Bytes, part: set<nat>) returns (run: seq<World>, who: seq<Tid>)
    requires |one| == |two|
    ensures IsRun(run, who) && forall n :: 0 <= n < |run| ==> run[n].x.pub == one || run[n].x.pub == two
    ensures forall n :: 0 <= n < |run| ==> !run[n].x.raw
    ensures 0 in run[|who|].th && run[|who|].th[0] == Got(Mix(part, one, two))
  {
    var g := Game(one, two, true);
    var tr, buf, done := Halfway(g, part);
    var x := Row(Active, 0, 0, one, one, false);
    var pc := Reading(Some(0), buf, Copying(0, done));
    tr := UpdatesOften(tr, g, x, pc, U32 / 2);
    tr := RestRead(tr, g, part, x.(stamps := U32, bytes := two, pub := two), buf, done);
    run, who := tr.run, tr.who;
  }
}
