/** The effects a step can have on the shared state, one lemma each. */
module ProtocolEffects {
  import opened Keys
  import opened Slots
  import opened Chain
  import opened LockOrder
  import opened Protocol
  import opened ProtocolInvariant

  /** th is a possible next local state of thread t whose facts hold in s1. */
  ghost predicate Next(cfg: Config, s: World, s1: World, th: Thread, t: Tid)
    requires Sized(cfg, s) && Sized(cfg, s1) && t in s.th
  {
    && Fits(cfg, |s.slots|, th) && |s1.slots| == |s.slots|
    && Guarded(cfg, |s.slots|, FactsOf(cfg, th)) && True(cfg, s1, t, FactsOf(cfg, th))
  }

  ghost predicate SameLocks(cfg: Config, s: World, t: Tid, th: Thread)
    requires cfg.nbuckets > 0 && t in s.th
  {
    FactsOf(cfg, th).locks == FactsOf(cfg, s.th[t]).locks
  }

  ghost predicate SameCustody(cfg: Config, s: World, t: Tid, th: Thread)
    requires cfg.nbuckets > 0 && t in s.th
  {
    var f, f' := FactsOf(cfg, s.th[t]), FactsOf(cfg, th);
    f.cust.Some? == f'.cust.Some? && (f.cust.Some? ==> f.cust.value.i == f'.cust.value.i)
  }

  /** A step that only moves thread t. */
  lemma LocalStep(cfg: Config, s: World, t: Tid, th: Thread)
    requires Inv(cfg, s) && t in s.th && Next(cfg, s, s, th, t)
    requires SameLocks(cfg, s, t, th) && SameCustody(cfg, s, t, th)
    ensures Good(cfg, s, t, s.(th := s.th[t := th]))
  {
    hide Fits, FactsOf, Guarded, True, Indexed, FreeOk, Settled, History;
    assert ThreadOk(cfg, s, t);
    Advance(cfg, s, s, t, th);
  }

  lemma TakeStep(cfg: Config, s: World, t: Tid, l: Lock, th: Thread)
    requires Inv(cfg, s) && t in s.th && l !in s.owner && Next(cfg, s, s, th, t)
    requires FactsOf(cfg, th).locks == FactsOf(cfg, s.th[t]).locks + {l} && SameCustody(cfg, s, t, th)
    ensures Good(cfg, s, t, s.(owner := s.owner[l := t], th := s.th[t := th]))
  {
    hide Fits, FactsOf, Guarded, True, Indexed, FreeOk, Settled, History;
    var s1 := s.(owner := s.owner[l := t]);
    OwnerOnly(cfg, s, s1, t, th);
    assert ThreadOk(cfg, s, t);
    Advance(cfg, s, s1, t, th);
  }

  lemma ReleaseStep(cfg: Config, s: World, t: Tid, l: Lock, th: Thread)
    requires Inv(cfg, s) && t in s.th && l in FactsOf(cfg, s.th[t]).locks && Next(cfg, s, s, th, t)
    requires FactsOf(cfg, th).locks == FactsOf(cfg, s.th[t]).locks - {l} && SameCustody(cfg, s, t, th)
    ensures Good(cfg, s, t, s.(owner := s.owner - {l}, th := s.th[t := th]))
  {
    hide Fits, FactsOf, Guarded, True, Indexed, FreeOk, Settled, History;
    var s1 := s.(owner := s.owner - {l});
    OwnerOnly(cfg, s, s1, t, th);
    assert ThreadOk(cfg, s, t);
    assert Owns(s.owner, l, t);
    Advance(cfg, s, s1, t, th);
  }

  /** Facts and shared structures do not mention lock owners. */
  lemma OwnerOnly(cfg: Config, s: World, s1: World, t: Tid, th: Thread)
    requires Shared(cfg, s) && t in s.th && s1 == s.(owner := s1.owner) && Next(cfg, s, s, th, t)
    requires forall l :: l in s1.owner ==> s1.owner[l] in s.th
    ensures Shared(cfg, s1) && Next(cfg, s, s1, th, t)
  {
    hide Fits, FactsOf, Guarded;
  }

  // ----- slot contents -------------------------------------------------------

  /** A step confined to one slot that nobody else has in hand or, visible,
      under its wlock. */
  lemma SlotTouch(cfg: Config, s: World, s1: World, t: Tid, i: nat)
    requires Sized(cfg, s) && Sized(cfg, s1) && |s1.slots| == |s.slots|
    requires s1.owner == s.owner && s1.ch == s.ch && s1.head == s.head && s1.next == s.next
    requires forall x :: 0 <= x < |s.slots| && x != i ==> s1.slots[x] == s.slots[x]
    requires forall x: nat, u: Tid :: x != i && Mine(s, u, x) ==> Mine(s1, u, x)
    requires i in s.cust ==> s.cust[i] == t
    requires i < |s.slots| && s.slots[i].state == Active && Row(i) in s.owner ==> s.owner[Row(i)] == t
    ensures forall u :: u in s.th && u != t ==> Untouched(cfg, s, s1, u)
  {
  }

  /** A write to an invisible slot in the thread's hands. */
  lemma HiddenWrite(cfg: Config, s: World, t: Tid, i: nat, x: Slot, th: Thread)
    requires Inv(cfg, s) && t in s.th && i < |s.slots| && Mine(s, t, i)
    requires s.slots[i].state != Active && x.state != Active
    requires Next(cfg, s, SetSlot(s, i, x), th, t) && SameLocks(cfg, s, t, th) && SameCustody(cfg, s, t, th)
    ensures Good(cfg, s, t, SetSlot(s, i, x).(th := s.th[t := th]))
  {
    hide Fits, FactsOf, Guarded, True;
    assert ThreadOk(cfg, s, t);
    HiddenShared(cfg, s, i, x);
    SlotTouch(cfg, s, SetSlot(s, i, x), t, i);
    hide Indexed, FreeOk, Settled, History, Untouched;
    Advance(cfg, s, SetSlot(s, i, x), t, th);
  }

  lemma HiddenShared(cfg: Config, s: World, i: nat, x: Slot)
    requires Shared(cfg, s) && i < |s.slots| && i in s.cust && i !in s.free
    requires s.slots[i].state != Active && x.state != Active
    ensures Shared(cfg, SetSlot(s, i, x))
  {
    SameIndex(cfg, s, SetSlot(s, i, x));
    hide Indexed, Represents, Unbroken;
  }

  /** Nobody else holds the wlock of a visible slot in the thread's hands. */
  lemma HandIsGuarded(cfg: Config, s: World, t: Tid, i: nat)
    requires Inv(cfg, s) && t in s.th && Mine(s, t, i) && i < |s.slots| && s.slots[i].state == Active
    ensures Owns(s.owner, Row(i), t)
  {
    hide Fits, FactsOf, Indexed, FreeOk, Settled, History;
    assert ThreadOk(cfg, s, t);
  }

  /** A visible slot under the thread's wlock is settled unless the thread has
      it in hand. */
  lemma RowIsSettled(cfg: Config, s: World, t: Tid, i: nat)
    requires Inv(cfg, s) && t in s.th && i < |s.slots| && s.slots[i].state == Active
    requires Owns(s.owner, Row(i), t) && FactsOf(cfg, s.th[t]).cust.None?
    ensures i !in s.cust && i !in s.free && Everywhere(cfg, s, i, s.slots[i].image)
  {
    hide Fits, FactsOf, Indexed, History;
    assert i in s.cust ==> ThreadOk(cfg, s, s.cust[i]);
  }

  lemma Extend(born: Bytes, ws: seq<Write>, was: Bytes, now: Bytes)
    requires Unbroken(born, ws, was)
    ensures Unbroken(born, ws + [Write(was, now)], now)
  {
    var ws1 := ws + [Write(was, now)];
    forall j | 0 <= j < |ws1| ensures ws1[j].was == Before(born, ws1, j) {
      assert Before(born, ws1, j) == Before(born, ws, j);
    }
  }

  lemma RewriteHistory(cfg: Config, s: World, i: nat, was: Bytes, now: Bytes)
    requires Sized(cfg, s) && History(s) && i < |s.slots| && s.slots[i].state == Active && s.slots[i].image == was
    ensures Sized(cfg, Rewrite(s, i, was, now)) && History(Rewrite(s, i, was, now))
  {
    var s1 := Rewrite(s, i, was, now);
    assert Unbroken(s.born[i], s.writes[i], was);
    Extend(s.born[i], s.writes[i], was, now);
  }

  /** A write that changes no key. */
  lemma PlainWrite(cfg: Config, s: World, t: Tid, i: nat, was: Bytes, now: Bytes, th: Thread)
    requires Inv(cfg, s) && t in s.th && i < |s.slots| && s.slots[i].state == Active && s.slots[i].image == was
    requires Owns(s.owner, Row(i), t) && FactsOf(cfg, s.th[t]).cust.None?
    requires forall k :: 0 <= k < |cfg.keys| ==> cfg.Same(k, was, now)
    requires Next(cfg, s, Rewrite(s, i, was, now), th, t) && SameLocks(cfg, s, t, th) && SameCustody(cfg, s, t, th)
    ensures Good(cfg, s, t, Rewrite(s, i, was, now).(th := s.th[t := th]))
  {
    hide Fits, FactsOf, Guarded, True;
    RowIsSettled(cfg, s, t, i);
    assert ThreadOk(cfg, s, t);
    RewrittenShared(cfg, s, i, was, now);
    SlotTouch(cfg, s, Rewrite(s, i, was, now), t, i);
    hide Indexed, FreeOk, Settled, History, Untouched;
    Advance(cfg, s, Rewrite(s, i, was, now), t, th);
  }

  lemma RewrittenShared(cfg: Config, s: World, i: nat, was: Bytes, now: Bytes)
    requires Shared(cfg, s) && i < |s.slots| && s.slots[i].state == Active && s.slots[i].image == was && i !in s.free
    requires Everywhere(cfg, s, i, was) && forall k :: 0 <= k < |cfg.keys| ==> cfg.Same(k, was, now)
    ensures Shared(cfg, Rewrite(s, i, was, now))
  {
    RewriteHistory(cfg, s, i, was, now);
    hide History;
    forall k | 0 <= k < |cfg.keys| ensures In(Rewrite(s, i, was, now), k, cfg.Home(k, now), i) {
      SameHome(cfg, k, was, now);
      assert In(s, k, cfg.Home(k, was), i);
    }
  }

  /** The image write of a key-changing update: the slot comes into hand. */
  lemma OpeningWrite(cfg: Config, s: World, t: Tid, i: nat, was: Bytes, now: Bytes, th: Thread)
    requires Inv(cfg, s) && t in s.th && i < |s.slots| && s.slots[i].state == Active && s.slots[i].image == was
    requires Owns(s.owner, Row(i), t) && FactsOf(cfg, s.th[t]).cust.None?
    requires Next(cfg, s, Rewrite(s, i, was, now).(cust := s.cust[i := t]), th, t) && SameLocks(cfg, s, t, th)
    requires FactsOf(cfg, th).cust.Some? && FactsOf(cfg, th).cust.value.i == i
    ensures Good(cfg, s, t, Rewrite(s, i, was, now).(cust := s.cust[i := t], th := s.th[t := th]))
  {
    hide Fits, FactsOf, Guarded, True;
    RowIsSettled(cfg, s, t, i);
    var s1 := Rewrite(s, i, was, now).(cust := s.cust[i := t]);
    OpenedShared(cfg, s, t, i, was, now);
    SlotTouch(cfg, s, s1, t, i);
    assert ThreadOk(cfg, s, t);
    hide Indexed, FreeOk, Settled, History, Untouched;
    Advance(cfg, s, s1, t, th);
  }

  lemma OpenedShared(cfg: Config, s: World, t: Tid, i: nat, was: Bytes, now: Bytes)
    requires Shared(cfg, s) && i < |s.slots| && s.slots[i].state == Active && s.slots[i].image == was && i !in s.free
    ensures Shared(cfg, Rewrite(s, i, was, now).(cust := s.cust[i := t]))
  {
    RewriteHistory(cfg, s, i, was, now);
    var s1 := Rewrite(s, i, was, now).(cust := s.cust[i := t]);
    SameHistory(Rewrite(s, i, was, now), s.cust[i := t]);
    hide History;
    SameIndex(cfg, s, s1);
    hide Indexed, Represents;
  }

  lemma SameIndex(cfg: Config, s: World, s1: World)
    requires Sized(cfg, s) && Sized(cfg, s1) && s1.ch == s.ch && s1.head == s.head && s1.next == s.next
    ensures Indexed(cfg, s) ==> Indexed(cfg, s1)
    ensures forall i :: Nowhere(cfg, s, i) ==> Nowhere(cfg, s1, i)
    ensures forall i, rec :: Everywhere(cfg, s, i, rec) ==> Everywhere(cfg, s1, i, rec)
  {
  }

  lemma SameHistory(s: World, cust: map<nat, Tid>)
    requires |s.born| == |s.writes| == |s.slots| && History(s)
    ensures History(s.(cust := cust))
  {
  }

  /** Flipping a settled row to DELETING: the slot comes into hand. */
  lemma MarkStep(cfg: Config, s: World, t: Tid, i: nat, th: Thread)
    requires Inv(cfg, s) && t in s.th && i < |s.slots| && s.slots[i].state == Active
    requires Owns(s.owner, Row(i), t) && FactsOf(cfg, s.th[t]).cust.None?
    requires Next(cfg, s, Mark(s, t, i), th, t) && SameLocks(cfg, s, t, th)
    requires FactsOf(cfg, th).cust.Some? && FactsOf(cfg, th).cust.value.i == i
    ensures Good(cfg, s, t, Mark(s, t, i).(th := s.th[t := th]))
  {
    hide Fits, FactsOf, Guarded, True;
    RowIsSettled(cfg, s, t, i);
    assert ThreadOk(cfg, s, t);
    MarkedShared(cfg, s, t, i);
    SlotTouch(cfg, s, Mark(s, t, i), t, i);
    hide Indexed, FreeOk, Settled, History, Untouched;
    Advance(cfg, s, Mark(s, t, i), t, th);
  }

  lemma MarkedShared(cfg: Config, s: World, t: Tid, i: nat)
    requires Shared(cfg, s) && i < |s.slots| && i !in s.free
    ensures Shared(cfg, Mark(s, t, i))
  {
  }

  /** A visible slot linked everywhere leaves the thread's hands. */
  lemma SettleStep(cfg: Config, s: World, t: Tid, i: nat, th: Thread)
    requires Inv(cfg, s) && t in s.th && i < |s.slots| && Mine(s, t, i)
    requires s.slots[i].state == Active && Everywhere(cfg, s, i, s.slots[i].image)
    requires Next(cfg, s, s.(cust := s.cust - {i}), th, t) && SameLocks(cfg, s, t, th) && FactsOf(cfg, th).cust.None?
    ensures Good(cfg, s, t, s.(cust := s.cust - {i}, th := s.th[t := th]))
  {
    hide Fits, FactsOf, Guarded, True;
    assert ThreadOk(cfg, s, t);
    HandIsGuarded(cfg, s, t, i);
    SettledShared(cfg, s, i);
    SlotTouch(cfg, s, s.(cust := s.cust - {i}), t, i);
    hide Indexed, FreeOk, Settled, History, Untouched;
    Advance(cfg, s, s.(cust := s.cust - {i}), t, th);
  }

  lemma SettledShared(cfg: Config, s: World, i: nat)
    requires Shared(cfg, s) && i < |s.slots| && s.slots[i].state == Active && Everywhere(cfg, s, i, s.slots[i].image)
    ensures Shared(cfg, s.(cust := s.cust - {i}))
  {
  }

  /** An inserted slot linked everywhere becomes visible. */
  lemma PublishStep(cfg: Config, s: World, t: Tid, i: nat, th: Thread)
    requires Inv(cfg, s) && t in s.th && i < |s.slots| && Mine(s, t, i)
    requires s.slots[i].state != Active && Everywhere(cfg, s, i, s.slots[i].image)
    requires Next(cfg, s, Publish(s, i), th, t) && SameLocks(cfg, s, t, th) && FactsOf(cfg, th).cust.None?
    ensures Good(cfg, s, t, Publish(s, i).(th := s.th[t := th]))
  {
    hide Fits, FactsOf, Guarded, True;
    assert ThreadOk(cfg, s, t);
    PublishedShared(cfg, s, i);
    SlotTouch(cfg, s, Publish(s, i), t, i);
    hide Indexed, FreeOk, Settled, History, Untouched;
    Advance(cfg, s, Publish(s, i), t, th);
  }

  lemma PublishedShared(cfg: Config, s: World, i: nat)
    requires Shared(cfg, s) && i < |s.slots| && i in s.cust && i !in s.free && Everywhere(cfg, s, i, s.slots[i].image)
    ensures Shared(cfg, Publish(s, i))
  {
    assert Unbroken(s.slots[i].image, [], s.slots[i].image);
    SameIndex(cfg, s, Publish(s, i));
    hide Indexed, Represents, Unbroken;
  }

  // ----- freelist ----------------------------------------------------------

  lemma AllocStep(cfg: Config, s: World, t: Tid, th: Thread)
    requires Inv(cfg, s) && t in s.th && s.free != [] && s.ready > 0 && FactsOf(cfg, s.th[t]).cust.None?
    requires Next(cfg, s, Pop(s, t), th, t) && SameLocks(cfg, s, t, th)
    requires FactsOf(cfg, th).cust.Some? && FactsOf(cfg, th).cust.value.i == s.free[0]
    ensures Good(cfg, s, t, Pop(s, t).(th := s.th[t := th]))
  {
    hide Fits, FactsOf, Guarded, True;
    assert ThreadOk(cfg, s, t);
    assert s.free[0] in s.free;
    PoppedShared(cfg, s, t);
    SlotTouch(cfg, s, Pop(s, t), t, s.free[0]);
    hide Indexed, FreeOk, Settled, History, Untouched;
    Advance(cfg, s, Pop(s, t), t, th);
  }

  lemma PoppedShared(cfg: Config, s: World, t: Tid)
    requires Shared(cfg, s) && s.free != [] && s.ready > 0
    ensures Shared(cfg, Pop(s, t))
  {
    assert s.free[0] in s.free;
    assert forall x :: x in s.free <==> x == s.free[0] || x in Pop(s, t).free;
    SameIndex(cfg, s, Pop(s, t));
    hide Indexed, Represents, Unbroken;
  }

  lemma GrownShared(cfg: Config, s: World, r: nat)
    requires Shared(cfg, s) && r <= |s.free|
    ensures Shared(cfg, s.(ready := r))
  {
  }

  lemma GrownFacts(cfg: Config, s: World, t: Tid, r: nat, f: Facts)
    requires Sized(cfg, s) && Guarded(cfg, |s.slots|, f) && Meets(cfg, s, t, f)
    ensures Sized(cfg, s.(ready := r)) && Meets(cfg, s.(ready := r), t, f)
  {
  }

  lemma GrownTouch(cfg: Config, s: World, u: Tid, r: nat)
    requires Sized(cfg, s)
    ensures Sized(cfg, s.(ready := r)) && Untouched(cfg, s, s.(ready := r), u)
  {
  }

  /** A new chunk changes nothing anybody relies on. */
  lemma GrowStep(cfg: Config, s: World, t: Tid, r: nat)
    requires Inv(cfg, s) && t in s.th && r <= |s.free|
    ensures Good(cfg, s, t, s.(ready := r))
  {
    hide Fits, FactsOf, Guarded, Meets, Untouched, Indexed, FreeOk, Settled, History;
    assert ThreadOk(cfg, s, t);
    GrownShared(cfg, s, r);
    GrownFacts(cfg, s, t, r, FactsOf(cfg, s.th[t]));
    forall u ensures Untouched(cfg, s, s.(ready := r), u) {
      GrownTouch(cfg, s, u, r);
    }
    Advance(cfg, s, s.(ready := r), t, s.th[t]);
    assert s.(ready := r).(th := s.th[t := s.th[t]]) == s.(ready := r);
  }

  lemma PushStep(cfg: Config, s: World, t: Tid, i: nat, th: Thread)
    requires Inv(cfg, s) && t in s.th && i < |s.slots| && Mine(s, t, i) && s.slots[i].state != Active
             && Nowhere(cfg, s, i)
    requires Next(cfg, s, Push(s, i), th, t) && SameLocks(cfg, s, t, th)
    requires FactsOf(cfg, th).cust.None?
    ensures Good(cfg, s, t, Push(s, i).(th := s.th[t := th]))
  {
    hide Fits, FactsOf, Guarded, True;
    assert ThreadOk(cfg, s, t);
    PushedShared(cfg, s, i);
    SlotTouch(cfg, s, Push(s, i), t, i);
    hide Indexed, FreeOk, Settled, History, Untouched;
    Advance(cfg, s, Push(s, i), t, th);
  }

  lemma PushedShared(cfg: Config, s: World, i: nat)
    requires Shared(cfg, s) && i < |s.slots| && i in s.cust && i !in s.free
    requires s.slots[i].state != Active && Nowhere(cfg, s, i)
    ensures Shared(cfg, Push(s, i))
  {
    assert forall x :: x in Push(s, i).free <==> x == i || x in s.free;
    SameIndex(cfg, s, Push(s, i));
    hide Indexed, Represents, Unbroken;
  }

  // ----- chains -----------------------------------------------------------

  /** No slot but i changed its place in the index. */
  ghost predicate OnlyMoved(cfg: Config, s: World, s1: World, i: nat)
    requires Sized(cfg, s) && Sized(cfg, s1)
  {
    forall x: nat, k: nat, b: nat :: x != i && k < |cfg.keys| && b < cfg.nbuckets ==> In(s1, k, b, x) == In(s, k, b, x)
  }

  lemma OthersStay(cfg: Config, s: World, s1: World, i: nat)
    requires Shared(cfg, s) && Sized(cfg, s1) && OnlyMoved(cfg, s, s1, i) && i in s.cust && i !in s.free
    requires s1.slots == s.slots && s1.free == s.free && s1.ready == s.ready && s1.cust == s.cust
    ensures FreeOk(cfg, s1) && Settled(cfg, s1)
  {
    forall x | x in s.free ensures Nowhere(cfg, s1, x) {
      forall k, b | 0 <= k < |cfg.keys| && 0 <= b < |s1.ch[k]| ensures x !in s1.ch[k][b] {
        assert In(s1, k, b, x) == In(s, k, b, x);
      }
    }
    forall x | 0 <= x < |s.slots| && x !in s.free && x !in s.cust ensures Everywhere(cfg, s1, x, s.slots[x].image) {
      assert Everywhere(cfg, s, x, s.slots[x].image);
    }
  }

  /** First half of a link: the next cell of an unlinked slot in hand. */
  lemma ScribbleStep(cfg: Config, s: World, t: Tid, k: nat, i: nat, v: int, th: Thread)
    requires Inv(cfg, s) && t in s.th && k < |cfg.keys| && i < |s.slots| && Mine(s, t, i) && Absent(s.ch[k], i)
    requires Sized(cfg, SetNext(s, k, i, v))
    requires Next(cfg, s, SetNext(s, k, i, v), th, t) && SameLocks(cfg, s, t, th) && SameCustody(cfg, s, t, th)
    ensures Good(cfg, s, t, SetNext(s, k, i, v).(th := s.th[t := th]))
  {
    hide Fits, FactsOf, Guarded, True;
    assert ThreadOk(cfg, s, t);
    var s1 := SetNext(s, k, i, v);
    ScribbleKeeps(s.head[k], s.next[k], s.ch[k], i, v);
    Advance(cfg, s, s1, t, th);
  }

  /** Second half: the head cell of a locked bucket. */
  lemma HeadStep(cfg: Config, s: World, t: Tid, k: nat, b: nat, i: nat, th: Thread)
    requires Inv(cfg, s) && t in s.th && k < |cfg.keys| && b < cfg.nbuckets && i < |s.slots| && Mine(s, t, i)
    requires Owns(s.owner, Bucket(k, b), t) && Absent(s.ch[k], i) && s.next[k][i] == s.head[k][b]
    requires Sized(cfg, SetHead(s, k, b, i))
    requires Next(cfg, s, SetHead(s, k, b, i), th, t) && SameLocks(cfg, s, t, th) && SameCustody(cfg, s, t, th)
    ensures Good(cfg, s, t, SetHead(s, k, b, i).(th := s.th[t := th]))
  {
    hide Fits, FactsOf, Guarded, True, Represents;
    assert ThreadOk(cfg, s, t);
    var s1 := SetHead(s, k, b, i);
    LinkKeeps(s.head[k], s.next[k], s.ch[k], b, i);
    if s.slots[i].state == Active { HandIsGuarded(cfg, s, t, i); }
    assert OnlyMoved(cfg, s, s1, i);
    OthersStay(cfg, s, s1, i);
    Advance(cfg, s, s1, t, th);
  }

  /** The walk of an unlink always finds its slot before the end of the chain,
      and one cell write takes the slot out. */
  lemma WalkReads(cfg: Config, s: World, f: WalkFact)
    requires Sized(cfg, s) && Indexed(cfg, s) && f.k < |cfg.keys| && f.b < cfg.nbuckets
    requires WalkHolds(s, f) && In(s, f.k, f.b, f.i)
    ensures f.w.p < |s.ch[f.k][f.b]|
    ensures f.w.prev != NIL ==> 0 <= f.w.prev < |s.slots|
    ensures Peek(s, f.k, f.b, f.w) == s.ch[f.k][f.b][f.w.p]
  {
    var c := s.ch[f.k][f.b];
    assert Represents(s.head[f.k], s.next[f.k], s.ch[f.k]);
    WalkAt(s.head[f.k][f.b], s.next[f.k], c, f.w.p, f.i);
  }

  lemma CutStep(cfg: Config, s: World, t: Tid, f: WalkFact, th: Thread)
    requires Inv(cfg, s) && t in s.th && f.k < |cfg.keys| && f.b < cfg.nbuckets && f.i < |s.slots| && Mine(s, t, f.i)
    requires Owns(s.owner, Bucket(f.k, f.b), t) && WalkHolds(s, f) && In(s, f.k, f.b, f.i)
    requires f.w.prev != NIL ==> 0 <= f.w.prev < |s.slots|
    requires Peek(s, f.k, f.b, f.w) == f.i
    requires Sized(cfg, Cut(s, f.k, f.b, f.i, f.w))
    requires Next(cfg, s, Cut(s, f.k, f.b, f.i, f.w), th, t) && SameLocks(cfg, s, t, th) && SameCustody(cfg, s, t, th)
    ensures Good(cfg, s, t, Cut(s, f.k, f.b, f.i, f.w).(th := s.th[t := th]))
  {
    hide Fits, FactsOf, Guarded, True;
    assert ThreadOk(cfg, s, t);
    WalkReads(cfg, s, f);
    CutChains(cfg, s, f);
    OthersStay(cfg, s, Cut(s, f.k, f.b, f.i, f.w), f.i);
    CutUntouched(cfg, s, t, f);
    hide Indexed, FreeOk, Settled, Untouched;
    Advance(cfg, s, Cut(s, f.k, f.b, f.i, f.w), t, th);
  }

  lemma CutChains(cfg: Config, s: World, f: WalkFact)
    requires Sized(cfg, s) && Indexed(cfg, s) && f.k < |cfg.keys| && f.b < cfg.nbuckets && f.i < |s.slots|
    requires WalkHolds(s, f) && f.w.p < |s.ch[f.k][f.b]| && s.ch[f.k][f.b][f.w.p] == f.i
    requires f.w.prev != NIL ==> 0 <= f.w.prev < |s.slots|
    ensures var s1 := Cut(s, f.k, f.b, f.i, f.w);
            && Sized(cfg, s1) && Indexed(cfg, s1) && OnlyMoved(cfg, s, s1, f.i) && Absent(s1.ch[f.k], f.i)
  {
    var k, b, c := f.k, f.b, s.ch[f.k][f.b];
    assert Represents(s.head[k], s.next[k], s.ch[k]);
    UnlinkKeeps(s.head[k], s.next[k], s.ch[k], b, f.w.p);
    var s1 := Cut(s, k, b, f.i, f.w);
    assert s1.head[k] == HeadsAfter(s.head[k], s.next[k], c, b, f.w.p);
    assert s1.next[k] == NextAfter(s.next[k], c, f.w.p);
    RemoveContent(c, f.i);
  }

  lemma CutUntouched(cfg: Config, s: World, t: Tid, f: WalkFact)
    requires Inv(cfg, s) && t in s.th && f.k < |cfg.keys| && f.b < cfg.nbuckets && f.i < |s.slots|
    requires Mine(s, t, f.i) && Owns(s.owner, Bucket(f.k, f.b), t)
    requires WalkHolds(s, f) && (f.w.prev != NIL ==> 0 <= f.w.prev < |s.slots|)
    requires Sized(cfg, Cut(s, f.k, f.b, f.i, f.w)) && OnlyMoved(cfg, s, Cut(s, f.k, f.b, f.i, f.w), f.i)
    ensures forall u :: u in s.th && u != t ==> Untouched(cfg, s, Cut(s, f.k, f.b, f.i, f.w), u)
  {
    hide Fits, FactsOf, Guarded, True, Indexed, FreeOk, Settled, ThreadOk;
    if s.slots[f.i].state == Active { HandIsGuarded(cfg, s, t, f.i); }
    assert f.w.prev != NIL ==> In(s, f.k, f.b, f.w.prev);
  }
}
