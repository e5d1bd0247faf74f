/** The whole operations of the store and what each of them means for the
    abstract table. */
module Operations {
  import opened Keys
  import opened Slots
  import opened Chain
  import opened LockSet
  import opened Table

  /** What an operation leaves and returns: the slot of an insert, or the number
      of the offending key. */
  datatype Outcome = Outcome(t: Table, code: Code, slot: int, errkey: nat)

  /** Sizes only: what the functions below need to be defined. */
  predicate Ready(cfg: Config, t: Table) {
    && cfg.nbuckets > 0 && cfg.maxRecords > 0
    && |t.ch| == |cfg.keys|
    && forall k :: 0 <= k < |t.ch| ==> |t.ch[k]| == cfg.nbuckets
  }

  lemma InvReady(cfg: Config, t: Table)
    requires Inv(cfg, t)
    ensures Ready(cfg, t)
  {
    forall k | 0 <= k < |t.ch| ensures |t.ch[k]| == cfg.nbuckets {
      assert KeyIndexed(cfg, t.slots, k, t.ch[k]);
    }
  }

  // ----- slots -----------------------------------------------------------------

  function Blank(cfg: Config): Slot { Slot(Free, 0, 0, cfg.blank) }

  /** lo, lo + 1, ..., hi - 1 */
  function Range(lo: nat, hi: nat): (s: seq<nat>)
    ensures |s| == if lo < hi then hi - lo else 0
    ensures forall j :: 0 <= j < |s| ==> s[j] == lo + j
  {
    if lo < hi then seq(hi - lo, (j: nat) => lo + j) else []
  }

  /** Take a slot off the freelist, or the first slot of a fresh chunk whose
      other slots below the row limit then make up the freelist; mem tells
      whether the memory for a chunk can be had. */
  function Allocate(cfg: Config, t: Table, mem: bool): (Table, Option<nat>) {
    if t.free != [] then (t.(free := t.free[1..]), Some(t.free[0]))
    else if |t.slots| >= cfg.maxRecords || !mem then (t, None)
    else
      var n := |t.slots|;
      var end := if n + CHUNK > cfg.maxRecords then cfg.maxRecords else n + CHUNK;
      (t.(slots := t.slots + seq(CHUNK, _ => Blank(cfg)), free := Range(n + 1, end)), Some(n))
  }

  /** The store while slot i is in an insert's hands: everything else conserved. */
  ghost predicate InHand(cfg: Config, t: Table, i: nat) {
    && Shape(cfg, t)
    && i < |t.slots| && t.slots[i].state != Active && i !in t.free
    && Conserved(cfg, t.(free := [i] + t.free))
    && forall k :: 0 <= k < |cfg.keys| ==> KeyIndexed(cfg, t.slots, k, t.ch[k])
  }

  lemma GrownIndexed(cfg: Config, slots: seq<Slot>, more: seq<Slot>, k: nat, c: seq<seq<nat>>)
    requires cfg.nbuckets > 0 && k < |cfg.keys| && KeyIndexed(cfg, slots, k, c)
    requires forall j :: 0 <= j < |more| ==> more[j].state != Active
    ensures KeyIndexed(cfg, slots + more, k, c)
  {
    forall b: nat, j: nat | b < |c| ensures j in c[b] <==> Belongs(cfg, slots + more, k, b, j) {
      assert j in c[b] <==> Belongs(cfg, slots, k, b, j);
      assert IsActive(slots + more, j) <==> IsActive(slots, j);
    }
  }

  lemma CapFits(n: nat, max: nat)
    requires n % CHUNK == 0 && n < max
    ensures n + CHUNK <= (max + CHUNK - 1) / CHUNK * CHUNK
  {
    var q := n / CHUNK;
    assert n == q * CHUNK;
    assert (max + CHUNK - 1) / CHUNK >= q + 1;
  }

  /** An allocation gives a slot that is no row's, keeps every row, and fails
      only when the freelist is empty and either every chunk is there or there
      is no memory for another. */
  lemma AllocateKeeps(cfg: Config, t: Table, mem: bool)
    requires Inv(cfg, t)
    ensures var (t', o) := Allocate(cfg, t, mem);
            && Rows(t'.slots) == Rows(t.slots) && t'.ch == t.ch && t.slots <= t'.slots
            && (o.Some? ==> InHand(cfg, t', o.value) && (t.free != [] || o.value < cfg.maxRecords))
            && (o.None? <==> t.free == [] && (|t.slots| >= cfg.maxRecords || !mem))
            && (o.None? ==> t' == t)
            && (t.free != [] ==> o == Some(t.free[0]) && t' == t.(free := t.free[1..]))
            && (t.free == [] && o.Some? ==>
                  && o.value == |t.slots| && |t'.slots| == |t.slots| + CHUNK
                  && forall i :: i in t'.free <==> |t.slots| < i < |t'.slots| && i < cfg.maxRecords)
            && (|t.slots| >= cfg.maxRecords <==> |t.slots| / CHUNK >= Cap(cfg))
  {
    var (t', o) := Allocate(cfg, t, mem);
    if t.free != [] {
      assert [t.free[0]] + t.free[1..] == t.free;
      assert t.free[0] in t.free;
    } else if o.Some? {
      var more := seq(CHUNK, _ => Blank(cfg));
      CapFits(|t.slots|, cfg.maxRecords);
      forall k | 0 <= k < |cfg.keys| ensures KeyIndexed(cfg, t'.slots, k, t'.ch[k]) {
        GrownIndexed(cfg, t.slots, more, k, t.ch[k]);
      }
      FreshChunk(cfg, t, mem);
      var n, end := |t.slots|, if |t.slots| + CHUNK > cfg.maxRecords then cfg.maxRecords else |t.slots| + CHUNK;
      assert t'.free == Range(n + 1, end);
      forall i: nat | n < i < |t'.slots| && i < cfg.maxRecords ensures i in t'.free {
        assert t'.free[i - n - 1] == i;
      }
    }
  }

  lemma FreshChunk(cfg: Config, t: Table, mem: bool)
    requires Inv(cfg, t) && t.free == [] && |t.slots| < cfg.maxRecords && mem
    ensures var (t', o) := Allocate(cfg, t, mem);
            && Conserved(cfg, t'.(free := [|t.slots|] + t'.free)) && |t.slots| !in t'.free
            && Rows(t'.slots) == Rows(t.slots)
  {
    var (t', o) := Allocate(cfg, t, mem);
    var n := |t.slots|;
    var f := [n] + t'.free;
    assert forall j :: 0 <= j < |f| ==> f[j] == n + j;
    assert forall i :: 0 <= i < n ==> t.slots[i].state == Active;
    assert forall i :: 0 <= i < n ==> t'.slots[i] == t.slots[i];
    forall i | 0 <= i < |t'.slots| && i < cfg.maxRecords && t'.slots[i].state != Active ensures i in f {
      assert f[i - n] == i;
    }
  }

  // ----- insert ------------------------------------------------------------------

  function LinkAll(cfg: Config, ch: seq<seq<seq<nat>>>, i: nat, rec: Bytes): seq<seq<seq<nat>>>
    requires cfg.nbuckets > 0 && |ch| == |cfg.keys|
  {
    seq(|ch|, k requires 0 <= k < |ch| => LinkKey(cfg, k, ch[k], i, rec))
  }

  /** The chains while the keys below n are linked. */
  function LinkBelow(cfg: Config, ch: seq<seq<seq<nat>>>, i: nat, rec: Bytes, n: nat): (r: seq<seq<seq<nat>>>)
    requires cfg.nbuckets > 0 && |ch| == |cfg.keys|
    ensures |r| == |ch|
  {
    seq(|ch|, k requires 0 <= k < |ch| => if k < n then LinkKey(cfg, k, ch[k], i, rec) else ch[k])
  }

  lemma LinkNext(cfg: Config, ch: seq<seq<seq<nat>>>, i: nat, rec: Bytes, n: nat)
    requires cfg.nbuckets > 0 && n < |ch| == |cfg.keys| && |ch[n]| == cfg.nbuckets
    ensures LinkBelow(cfg, ch, i, rec, n + 1) == LinkBelow(cfg, ch, i, rec, n)[n := LinkIn(ch[n], cfg.Home(n, rec), i)]
    ensures LinkBelow(cfg, ch, i, rec, n) ==
              LinkBelow(cfg, ch, i, rec, n + 1)
                [n := UnlinkFrom(LinkIn(ch[n], cfg.Home(n, rec), i), cfg.Home(n, rec), i)]
    ensures LinkBelow(cfg, ch, i, rec, n)[n] == ch[n]
  {
    UnlinkUndoesLink(ch[n], cfg.Home(n, rec), i);
  }

  lemma LinkEnds(cfg: Config, ch: seq<seq<seq<nat>>>, i: nat, rec: Bytes)
    requires cfg.nbuckets > 0 && |ch| == |cfg.keys|
    ensures LinkBelow(cfg, ch, i, rec, 0) == ch && LinkBelow(cfg, ch, i, rec, |ch|) == LinkAll(cfg, ch, i, rec)
  {
  }

  predicate AnyDup(cfg: Config, t: Table, rec: Bytes)
    requires Ready(cfg, t)
  {
    exists k :: 0 <= k < |cfg.keys| && Dup(cfg, t, k, rec)
  }

  /** An insert that meets a duplicate gives its slot back to the head of the
      freelist; the record bytes stay behind in the free slot.  The key number
      it reports is always 0: the rollback counts its key variable down below
      zero, which wraps, and the increment brings it back to 0. */
  function InsertRow(cfg: Config, t: Table, rec: Bytes, mem: bool): Outcome
    requires Ready(cfg, t)
  {
    var (t1, o) := Allocate(cfg, t, mem);
    if o.None? then Outcome(t1, if |t1.slots| / CHUNK >= Cap(cfg) then Full else NoMem, NIL, 0)
    else if o.value >= |t1.slots| then Outcome(t, NoMem, NIL, 0)
    else
      var i := o.value;
      var x := t1.slots[i].(image := rec);
      if AnyDup(cfg, t, rec) then Outcome(t1.(slots := t1.slots[i := x], free := [i] + t1.free), DupKey, NIL, 0)
      else Outcome(t1.(slots := t1.slots[i := x.(state := Active)], ch := LinkAll(cfg, t1.ch, i, rec)), Ok, i, 0)
  }

  /** Filling a slot in hand touches no row and no chain. */
  lemma FillKeeps(cfg: Config, t: Table, i: nat, rec: Bytes)
    requires InHand(cfg, t, i)
    ensures var t' := t.(slots := t.slots[i := t.slots[i].(image := rec)], free := [i] + t.free);
            Inv(cfg, t') && Rows(t'.slots) == Rows(t.slots)
  {
    var t' := t.(slots := t.slots[i := t.slots[i].(image := rec)], free := [i] + t.free);
    forall k | 0 <= k < |cfg.keys| ensures KeyIndexed(cfg, t'.slots, k, t'.ch[k]) {
      assert KeyIndexed(cfg, t.slots, k, t.ch[k]);
      forall b: nat, j: nat | b < |t.ch[k]| ensures j in t.ch[k][b] <==> Belongs(cfg, t'.slots, k, b, j) {
        assert j in t.ch[k][b] <==> Belongs(cfg, t.slots, k, b, j);
      }
    }
    assert Rows(t'.slots) == Rows(t.slots);
  }

  lemma PublishKeeps(cfg: Config, t: Table, i: nat, x: Slot)
    requires InHand(cfg, t, i) && x.state == Active
    ensures var t' := t.(slots := t.slots[i := x], ch := LinkAll(cfg, t.ch, i, x.image));
            Inv(cfg, t') && Rows(t'.slots) == Rows(t.slots)[i := Row(x.bumps, x.image)]
  {
    var t' := t.(slots := t.slots[i := x], ch := LinkAll(cfg, t.ch, i, x.image));
    forall k | 0 <= k < |cfg.keys| ensures KeyIndexed(cfg, t'.slots, k, t'.ch[k]) {
      LinkIndexed(cfg, t.slots, k, t.ch[k], i, x);
    }
    assert Rows(t'.slots) == Rows(t.slots)[i := Row(x.bumps, x.image)];
    var f := [i] + t.free;
    assert forall p :: 0 <= p < |t.free| ==> t.free[p] == f[p + 1];
    assert Distinct(t.free);
    assert forall j :: j in f <==> j == i || j in t.free;
  }

  lemma AnyDupIsBreak(cfg: Config, t: Table, rec: Bytes)
    requires Inv(cfg, t)
    ensures Ready(cfg, t) && (AnyDup(cfg, t, rec) <==> Breaks(cfg, Rows(t.slots), NIL, rec))
  {
    InvReady(cfg, t);
    forall k: nat | k < |cfg.keys| ensures Dup(cfg, t, k, rec) <==> BreaksKey(cfg, Rows(t.slots), NIL, k, rec) {
      DupIsBreak(cfg, t, k, NIL, rec);
    }
  }

  /** Insert refines adding a row: it succeeds exactly when a slot can be had and
      uniqueness survives, with a slot no row had, and in every other case the
      rows and the chains are as before. */
  lemma InsertRefines(cfg: Config, t: Table, rec: Bytes, mem: bool)
    requires Inv(cfg, t)
    ensures Ready(cfg, t)
    ensures var o := InsertRow(cfg, t, rec, mem);
            var rows := Rows(t.slots);
            var room := t.free != [] || (|t.slots| < cfg.maxRecords && mem);
            && Inv(cfg, o.t)
            && (o.code == Ok <==> room && !Breaks(cfg, rows, NIL, rec))
            && (o.code == DupKey <==> room && Breaks(cfg, rows, NIL, rec))
            && (o.code == Full <==> t.free == [] && |t.slots| >= cfg.maxRecords)
            && (o.code == NoMem <==> t.free == [] && |t.slots| < cfg.maxRecords && !mem)
            && (o.code == Ok ==> o.slot >= 0 && o.slot !in rows && o.slot < |o.t.slots| &&
                                 Rows(o.t.slots) == rows[o.slot := Row(o.t.slots[o.slot].bumps, rec)])
            && (o.code != Ok ==> Rows(o.t.slots) == rows && o.t.ch == t.ch)
  {
    InvReady(cfg, t);
    AllocateKeeps(cfg, t, mem);
    AnyDupIsBreak(cfg, t, rec);
    var (t1, a) := Allocate(cfg, t, mem);
    if a.Some? {
      var i := a.value;
      FillKeeps(cfg, t1, i, rec);
      PublishKeeps(cfg, t1, i, t1.slots[i].(image := rec, state := Active));
      assert i !in Rows(t1.slots);
    }
    hide Inv, InHand, AnyDup, Breaks, Allocate;
  }

  /** The invariant and the row count after an insert, and its result when no slot
      can be had. */
  lemma InsertCounts(cfg: Config, t: Table, rec: Bytes, mem: bool)
    requires Inv(cfg, t)
    ensures Ready(cfg, t) && Distinct(t.free) && |t.slots| % CHUNK == 0
    ensures var o := InsertRow(cfg, t, rec, mem);
            && Inv(cfg, o.t)
            && |Rows(o.t.slots)| == |Rows(t.slots)| + (if o.code == Ok then 1 else 0)
            && (Allocate(cfg, t, mem).1.None? ==>
                  Allocate(cfg, t, mem).0 == t
                      && o == Outcome(t, if |t.slots| / CHUNK >= Cap(cfg) then Full else NoMem, NIL, 0))
  {
    InsertRefines(cfg, t, rec, mem);
    AllocateKeeps(cfg, t, mem);
  }

  /** An insert touches no ACTIVE slot. */
  lemma InsertTouches(cfg: Config, t: Table, rec: Bytes, mem: bool)
    requires Inv(cfg, t)
    ensures Ready(cfg, t)
    ensures var s := InsertRow(cfg, t, rec, mem).t.slots;
            |t.slots| <= |s| && forall i :: 0 <= i < |t.slots| && t.slots[i].state == Active ==> s[i] == t.slots[i]
    ensures var o := InsertRow(cfg, t, rec, mem); o.code == Ok ==> 0 <= o.slot < |o.t.slots|
  {
    InvReady(cfg, t);
    AllocateKeeps(cfg, t, mem);
    var (t1, a) := Allocate(cfg, t, mem);
    hide AnyDup, LinkAll, Allocate;
  }

  /** A refused insert.  Without a slot nothing changes.  With one, the chains are as
      before and the slot, which alone has the record's bytes left in it, is at the
      head of the freelist: the old freelist again, or all of a fresh chunk below the
      row limit. */
  lemma FailedInsert(cfg: Config, t: Table, rec: Bytes, mem: bool)
    requires Inv(cfg, t) && Ready(cfg, t) && InsertRow(cfg, t, rec, mem).code != Ok
    ensures var o, n := InsertRow(cfg, t, rec, mem), |t.slots|;
            && o.t.ch == t.ch
            && (o.code != DupKey ==> o.t == t)
            && (o.code == DupKey && t.free != [] ==>
                  o.t.free == t.free && o.t.slots == t.slots[t.free[0] := t.slots[t.free[0]].(image := rec)])
            && (o.code == DupKey && t.free == [] ==>
                  && o.t.free == Range(n, if n + CHUNK > cfg.maxRecords then cfg.maxRecords else n + CHUNK)
                  && o.t.slots == t.slots + [Blank(cfg).(image := rec)] + seq(CHUNK - 1, _ => Blank(cfg)))
  {
    AllocateKeeps(cfg, t, mem);
    var o, n := InsertRow(cfg, t, rec, mem), |t.slots|;
    if t.free != [] {
      assert [t.free[0]] + t.free[1..] == t.free;
    } else if o.code == DupKey {
      var end := if n + CHUNK > cfg.maxRecords then cfg.maxRecords else n + CHUNK;
      assert [n] + Range(n + 1, end) == Range(n, end);
      var all := t.slots + seq(CHUNK, _ => Blank(cfg));
      assert o.t.slots == all[n := Blank(cfg).(image := rec)];
    }
  }

  /** The table after an insert has copied rec into its slot. */
  function Filled(t: Table, i: nat, rec: Bytes): Table
    requires i < |t.slots|
  {
    t.(slots := t.slots[i := t.slots[i].(image := rec)])
  }

  /** What an insert sees on its way: the keys' chains without its slot, and the
      duplicates of the table it started from. */
  lemma InsertByParts(cfg: Config, t: Table, rec: Bytes, mem: bool, t1: Table, i: nat)
    requires Inv(cfg, t) && Allocate(cfg, t, mem) == (t1, Some(i))
    ensures Ready(cfg, t) && i < |t1.slots| && i !in t1.free && Distinct(t1.free) && t1.slots[i].state != Active
    ensures t1.ch == t.ch && forall k :: 0 <= k < |t.ch| ==> Absent(t.ch[k], i)
    ensures forall k :: 0 <= k < |cfg.keys| ==> (Dup(cfg, Filled(t1, i, rec), k, rec) <==> Dup(cfg, t, k, rec))
    ensures InsertRow(cfg, t, rec, mem) ==
              if AnyDup(cfg, t, rec) then Outcome(Filled(t1, i, rec).(free := [i] + t1.free), DupKey, NIL, 0)
              else Outcome(t1.(slots := t1.slots[i := t1.slots[i].(image := rec, state := Active)],
                  ch := LinkAll(cfg, t.ch, i, rec)), Ok, i, 0)
  {
    InvReady(cfg, t);
    AllocateKeeps(cfg, t, mem);
    FillKeeps(cfg, t1, i, rec);
    forall k | 0 <= k < |cfg.keys| ensures Absent(t.ch[k], i) {
      assert KeyIndexed(cfg, t1.slots, k, t1.ch[k]);
    }
    var f := [i] + t1.free;
    assert forall p :: 0 <= p < |t1.free| ==> t1.free[p] == f[p + 1];
    hide AnyDup, Rows, Inv;
    forall k: nat | k < |cfg.keys| ensures Dup(cfg, Filled(t1, i, rec), k, rec) <==> Dup(cfg, t, k, rec) {
      DupByRows(cfg, t, Filled(t1, i, rec), k, rec);
    }
  }

  // ----- update ------------------------------------------------------------------

  /** The first of the keys ks under which rec is a duplicate. */
  function FirstDup(cfg: Config, t: Table, ks: seq<nat>, rec: Bytes): (o: Option<nat>)
    requires Ready(cfg, t) && forall j :: 0 <= j < |ks| ==> ks[j] < |cfg.keys|
    ensures o.Some? ==> o.value in ks && Dup(cfg, t, o.value, rec)
    ensures o.None? ==> forall j :: 0 <= j < |ks| ==> !Dup(cfg, t, ks[j], rec)
  {
    if ks == [] then None
    else if Dup(cfg, t, ks[0], rec) then Some(ks[0])
    else FirstDup(cfg, t, ks[1..], rec)
  }

  /** The keys whose buckets an insert visits: all of them, or up to the first
      duplicate and back. */
  function Visits(cfg: Config, t: Table, rec: Bytes): (ks: seq<nat>)
    requires Ready(cfg, t)
    ensures forall j :: 0 <= j < |ks| ==> ks[j] < |cfg.keys|
  {
    var d := FirstDup(cfg, t, Range(0, |cfg.keys|), rec);
    if d.None? then Range(0, |cfg.keys|)
    else
      assert d.value in Range(0, |cfg.keys|);
      Range(0, d.value + 1) + Countdown(d.value)
  }

  lemma {:induction false} FirstDupIs(cfg: Config, t: Table, rec: Bytes, lo: nat, n: nat)
    requires Ready(cfg, t) && lo <= n <= |cfg.keys| && (forall k :: lo <= k < n ==> !Dup(cfg, t, k, rec))
    requires n < |cfg.keys| ==> Dup(cfg, t, n, rec)
    ensures FirstDup(cfg, t, Range(lo, |cfg.keys|), rec) == if n < |cfg.keys| then Some(n) else None
    decreases |cfg.keys| - lo
  {
    var ks := Range(lo, |cfg.keys|);
    if lo < n {
      assert ks[1..] == Range(lo + 1, |cfg.keys|);
      FirstDupIs(cfg, t, rec, lo + 1, n);
    }
  }

  function MoveAll(cfg: Config, ch: seq<seq<seq<nat>>>, i: nat, was: Bytes, now: Bytes): seq<seq<seq<nat>>>
    requires cfg.nbuckets > 0 && |ch| == |cfg.keys|
  {
    seq(|ch|, k requires 0 <= k < |ch| => MoveKey(cfg, k, ch[k], i, was, now))
  }

  /** The image write brackets the copy with two counter increments. */
  function Written(x: Slot, now: Bytes): Slot { x.(image := now, stamps := x.stamps + 2) }

  function Rewritten(cfg: Config, t: Table, i: nat, was: Bytes, now: Bytes): Table
    requires Ready(cfg, t) && i < |t.slots|
  {
    t.(slots := t.slots[i := Written(t.slots[i], now)], ch := MoveAll(cfg, t.ch, i, was, now))
  }

  /** The update with the wlock held by the caller tests the slot first ... */
  function UpdateLocked(cfg: Config, t: Table, i: nat, gen: nat, was: Bytes, now: Bytes): Outcome
    requires Ready(cfg, t) && i < |t.slots|
  {
    var dup := FirstDup(cfg, t, Changed(cfg, was, now), now);
    if !t.slots[i].Accepts(gen) then Outcome(t, Gone, NIL, 0)
    else if dup.Some? then Outcome(t, DupKey, NIL, dup.value + 1)
    else Outcome(Rewritten(cfg, t, i, was, now), Ok, NIL, 0)
  }

  /** ... and the other one after its duplicate checks. */
  function Update(cfg: Config, t: Table, i: nat, gen: nat, was: Bytes, now: Bytes): Outcome
    requires Ready(cfg, t) && i < |t.slots|
  {
    var dup := FirstDup(cfg, t, Changed(cfg, was, now), now);
    if dup.Some? then Outcome(t, DupKey, NIL, dup.value + 1)
    else if !t.slots[i].Accepts(gen) then Outcome(t, Gone, NIL, 0)
    else Outcome(Rewritten(cfg, t, i, was, now), Ok, NIL, 0)
  }

  /** The old record carries the keys of the slot's present image. */
  predicate CarriesKeys(cfg: Config, x: Slot, was: Bytes) {
    forall k :: 0 <= k < |cfg.keys| ==> cfg.Same(k, was, x.image)
  }

  lemma RewrittenKeeps(cfg: Config, t: Table, i: nat, was: Bytes, now: Bytes)
    requires Inv(cfg, t) && Ready(cfg, t) && IsActive(t.slots, i) && CarriesKeys(cfg, t.slots[i], was)
    ensures var t' := Rewritten(cfg, t, i, was, now);
            Inv(cfg, t') && Rows(t'.slots) == Rows(t.slots)[i := Row(t.slots[i].bumps, now)]
  {
    var t' := Rewritten(cfg, t, i, was, now);
    CarriesRechains(cfg, t.slots[i], was, now);
    UpdateKeepsIff(cfg, t, i, was, now);
    assert Rows(t'.slots) == Rows(t.slots)[i := Row(t.slots[i].bumps, now)];
  }

  /** What an update finds, and what it leaves, whatever old record it is given. */
  lemma RewrittenCounts(cfg: Config, t: Table, i: nat, was: Bytes, now: Bytes)
    requires Inv(cfg, t) && Ready(cfg, t) && IsActive(t.slots, i)
    ensures |Rows(Rewritten(cfg, t, i, was, now).slots)| == |Rows(t.slots)|
    ensures Inv(cfg, Rewritten(cfg, t, i, was, now)) <==> Rechains(cfg, t.slots[i], was, now)
    ensures forall k, b :: 0 <= k < |cfg.keys| && 0 <= b < cfg.nbuckets ==>
              (i in t.ch[k][b] <==> b == cfg.Home(k, t.slots[i].image))
  {
    UpdateKeepsIff(cfg, t, i, was, now);
    assert Rows(Rewritten(cfg, t, i, was, now).slots).Keys == Rows(t.slots).Keys;
    forall k: nat, b: nat | k < |cfg.keys| && b < cfg.nbuckets
      ensures i in t.ch[k][b] <==> b == cfg.Home(k, t.slots[i].image)
    {
      assert KeyIndexed(cfg, t.slots, k, t.ch[k]);
      assert i in t.ch[k][b] <==> Belongs(cfg, t.slots, k, b, i);
    }
  }

  /** A record with the row's present keys is good enough. */
  lemma CarriesRechains(cfg: Config, x: Slot, was: Bytes, now: Bytes)
    requires cfg.Valid() && CarriesKeys(cfg, x, was)
    ensures Rechains(cfg, x, was, now)
  {
    forall k: nat | k < |cfg.keys|
      ensures cfg.Home(k, was) == cfg.Home(k, x.image)
              && (cfg.Same(k, was, now) ==> cfg.Home(k, was) == cfg.Home(k, now))
    {
      SameHome(cfg, k, was, x.image);
      if cfg.Same(k, was, now) { SameHome(cfg, k, was, now); }
    }
  }

  /** The chains while the changed keys among the first n are moved. */
  function MoveBelow(cfg: Config, ch: seq<seq<seq<nat>>>, i: nat, was: Bytes, now: Bytes,
                     ks: seq<nat>): (r: seq<seq<seq<nat>>>)
    requires cfg.nbuckets > 0 && |ch| == |cfg.keys|
    ensures |r| == |ch|
  {
    seq(|ch|, k requires 0 <= k < |ch| => if k in ks then LinkKey(cfg, k, UnlinkKey(cfg, k, ch[k], i, was), i, now)
        else ch[k])
  }

  lemma MoveNext(cfg: Config, ch: seq<seq<seq<nat>>>, i: nat, was: Bytes, now: Bytes, ks: seq<nat>, n: nat)
    requires cfg.nbuckets > 0 && |ch| == |cfg.keys| && n < |ks| && ks[n] < |ch| && |ch[ks[n]]| == cfg.nbuckets
             && ks[n] !in ks[..n]
    ensures var m := MoveBelow(cfg, ch, i, was, now, ks[..n]);
            && m[ks[n]] == ch[ks[n]]
            && MoveBelow(cfg, ch, i, was, now, ks[..n + 1]) ==
                 m[ks[n] := LinkIn(UnlinkFrom(ch[ks[n]], cfg.Home(ks[n], was), i), cfg.Home(ks[n], now), i)]
  {
    assert ks[..n + 1] == ks[..n] + [ks[n]];
  }

  lemma MoveEnds(cfg: Config, ch: seq<seq<seq<nat>>>, i: nat, was: Bytes, now: Bytes)
    requires cfg.nbuckets > 0 && |ch| == |cfg.keys|
    ensures MoveBelow(cfg, ch, i, was, now, []) == ch
    ensures MoveBelow(cfg, ch, i, was, now, Changed(cfg, was, now)) == MoveAll(cfg, ch, i, was, now)
  {
  }

  /** The keys the update checks are enough: under an unchanged key no other row
      can equal the new record, since none equals the old one. */
  lemma {:induction false} ChangedKeysDecide(cfg: Config, t: Table, i: nat, was: Bytes, now: Bytes)
    requires Inv(cfg, t) && Ready(cfg, t) && IsActive(t.slots, i) && CarriesKeys(cfg, t.slots[i], was)
    requires Unique(cfg, Rows(t.slots))
    ensures FirstDup(cfg, t, Changed(cfg, was, now), now).Some? <==> Breaks(cfg, Rows(t.slots), i, now)
    ensures var d := FirstDup(cfg, t, Changed(cfg, was, now), now);
            d.Some? ==> d.value < |cfg.keys| && BreaksKey(cfg, Rows(t.slots), i, d.value, now)
  {
    var rows, ks := Rows(t.slots), Changed(cfg, was, now);
    forall k: nat | k < |cfg.keys| ensures (k in ks && Dup(cfg, t, k, now)) <==> BreaksKey(cfg, rows, i, k, now) {
      assert cfg.keys[k].ops.Contract();
      assert cfg.Same(k, was, rows[i].rec);
      if k in ks {
        DupIsBreak(cfg, t, k, i, now);
      } else {
        assert cfg.Same(k, now, rows[i].rec);
        SameHome(cfg, k, now, rows[i].rec);
        forall j | j in rows && j != i && cfg.Checked(k, now) ensures !cfg.Same(k, rows[j].rec, now) {
          assert !cfg.Same(k, rows[i].rec, rows[j].rec);
        }
      }
    }
  }

  /** Update refines overwriting a row: with a current reference and the row's
      current keys it is refused exactly when it would break uniqueness, and
      then changes nothing; with a stale reference it never changes anything. */
  lemma UpdateRefines(cfg: Config, t: Table, i: nat, gen: nat, was: Bytes, now: Bytes)
    requires Inv(cfg, t) && Unique(cfg, Rows(t.slots)) && i < |t.slots|
    requires t.slots[i].Accepts(gen) ==> CarriesKeys(cfg, t.slots[i], was)
    ensures Ready(cfg, t)
    ensures var o := UpdateLocked(cfg, t, i, gen, was, now);
            var rows := Rows(t.slots);
            && Inv(cfg, o.t)
            && (o.code == Gone <==> !t.slots[i].Accepts(gen))
            && (o.code == DupKey <==> t.slots[i].Accepts(gen) && Breaks(cfg, rows, i, now))
            && (o.code == DupKey ==> 0 < o.errkey <= |cfg.keys| && BreaksKey(cfg, rows, i, o.errkey - 1, now))
            && (o.code == Ok ==> Rows(o.t.slots) == rows[i := Row(t.slots[i].bumps, now)])
            && (o.code == Ok || o.code == Gone || o.code == DupKey)
            && (o.code != Ok ==> o.t == t)
    ensures t.slots[i].Accepts(gen) ==> Update(cfg, t, i, gen, was, now) == UpdateLocked(cfg, t, i, gen, was, now)
    ensures !t.slots[i].Accepts(gen) ==>
              Update(cfg, t, i, gen, was, now).t == t && Update(cfg, t, i, gen, was, now).code != Ok
  {
    InvReady(cfg, t);
    if t.slots[i].Accepts(gen) {
      ChangedKeysDecide(cfg, t, i, was, now);
      RewrittenKeeps(cfg, t, i, was, now);
    }
    hide Inv, Breaks, BreaksKey, Rewritten, FirstDup, Ready, Unique;
  }

  /** A record with a NULL part under every unique key is never a duplicate, whatever
      rows there are. */
  lemma NullsAccepted(cfg: Config, t: Table, rec: Bytes, mem: bool, i: nat, gen: nat, was: Bytes)
    requires Inv(cfg, t) && i < |t.slots|
    requires forall k :: 0 <= k < |cfg.keys| && cfg.keys[k].unique ==> cfg.keys[k].ops.hasNull(rec)
    ensures Ready(cfg, t) && InsertRow(cfg, t, rec, mem).code != DupKey
    ensures Update(cfg, t, i, gen, was, rec).code != DupKey && UpdateLocked(cfg, t, i, gen, was, rec).code != DupKey
  {
    InsertRefines(cfg, t, rec, mem);
    hide Inv, InsertRow, Rewritten;
  }

  /** With a stale reference an update reports the row gone; the one without a kept lock
      first reports a duplicate under a changed key. */
  lemma StaleUpdate(cfg: Config, t: Table, i: nat, gen: nat, was: Bytes, now: Bytes)
    requires Ready(cfg, t) && i < |t.slots| && !t.slots[i].Accepts(gen)
    ensures UpdateLocked(cfg, t, i, gen, was, now) == Outcome(t, Gone, NIL, 0)
    ensures var o := Update(cfg, t, i, gen, was, now);
            && o.t == t
            && (o.code == DupKey || o.code == Gone)
            && (o.code == DupKey <==> exists k :: 0 <= k < |cfg.keys| && !cfg.Same(k, was, now) && Dup(cfg, t, k, now))
  {
    var ks := Changed(cfg, was, now);
    var o := FirstDup(cfg, t, ks, now);
    forall k: nat | k < |cfg.keys| ensures k in ks <==> !cfg.Same(k, was, now) {
    }
  }

  /** What an accepted update really needs of the old record. */
  predicate Rechains(cfg: Config, x: Slot, was: Bytes, now: Bytes)
    requires cfg.nbuckets > 0
  {
    forall k :: 0 <= k < |cfg.keys| ==>
      if cfg.Same(k, was, now) then cfg.Home(k, x.image) == cfg.Home(k, now)
      else cfg.Home(k, was) == cfg.Home(k, x.image)
  }

  lemma MoveIndexedIff(cfg: Config, slots: seq<Slot>, k: nat, c: seq<seq<nat>>, i: nat, was: Bytes, x: Slot)
    requires cfg.Valid() && k < |cfg.keys| && KeyIndexed(cfg, slots, k, c)
    requires IsActive(slots, i) && x.state == Active
    ensures KeyIndexed(cfg, slots[i := x], k, MoveKey(cfg, k, c, i, was, x.image)) <==>
              if cfg.Same(k, was, x.image) then cfg.Home(k, slots[i].image) == cfg.Home(k, x.image)
              else cfg.Home(k, was) == cfg.Home(k, slots[i].image)
  {
    var h, h' := cfg.Home(k, slots[i].image), cfg.Home(k, x.image);
    var slots', c' := slots[i := x], MoveKey(cfg, k, c, i, was, x.image);
    assert i in c[h] <==> Belongs(cfg, slots, k, h, i);
    if cfg.Same(k, was, x.image) {
      if h == h' {
        forall b: nat, j: nat | b < |c| ensures j in c[b] <==> Belongs(cfg, slots', k, b, j) {
          assert j in c[b] <==> Belongs(cfg, slots, k, b, j);
        }
      } else {
        assert !Belongs(cfg, slots', k, h, i);
      }
    } else if cfg.Home(k, was) == h {
      var gone := slots[i].(state := Deleted);
      UnlinkIndexed(cfg, slots, k, c, i, gone);
      LinkIndexed(cfg, slots[i := gone], k, UnlinkKey(cfg, k, c, i, was), i, x);
      assert slots[i := gone][i := x] == slots';
    } else {
      assert !Belongs(cfg, slots, k, cfg.Home(k, was), i);
      RemoveAbsent(c[cfg.Home(k, was)], i);
      assert c' == LinkIn(c, h', i);
      var p :| 0 <= p < |c[h]| && c[h][p] == i;
      if h == h' {
        assert c'[h][0] == c'[h][p + 1] == i;
        assert !Distinct(c'[h]);
      } else {
        assert i in c'[h] && !Belongs(cfg, slots', k, h, i);
      }
    }
  }

  /** The same for all keys, of the chains as sequences. */
  lemma UpdateKeepsIff(cfg: Config, t: Table, i: nat, was: Bytes, now: Bytes)
    requires Inv(cfg, t) && Ready(cfg, t) && IsActive(t.slots, i)
    ensures Inv(cfg, Rewritten(cfg, t, i, was, now)) <==> Rechains(cfg, t.slots[i], was, now)
  {
    var t' := Rewritten(cfg, t, i, was, now);
    forall k: nat | k < |cfg.keys|
      ensures KeyIndexed(cfg, t'.slots, k, t'.ch[k]) <==>
                if cfg.Same(k, was, now) then cfg.Home(k, t.slots[i].image) == cfg.Home(k, now)
                else cfg.Home(k, was) == cfg.Home(k, t.slots[i].image)
    {
      MoveIndexedIff(cfg, t.slots, k, t.ch[k], i, was, Written(t.slots[i], now));
    }
    assert Shape(cfg, t') && Conserved(cfg, t');
    hide KeyIndexed;
  }

  // ----- the cells after an update ----------------------------------------------------

  /** The cells of key k lead to every row, in the bucket of its image, and to nothing
      else. */
  ghost predicate KeySound(cfg: Config, slots: seq<Slot>, k: nat, heads: seq<int>, next: seq<int>)
    requires cfg.nbuckets > 0 && k < |cfg.keys|
  {
    exists c :: Represents(heads, next, c) && KeyIndexed(cfg, slots, k, c)
  }

  /** What an accepted update writes to the cells of key k, whose chains are c.  If the
      old record leads to another bucket than the one slot i is chained in, the unlink
      finds nothing and the link writes its two cells all the same. */
  ghost predicate Recelled(cfg: Config, k: nat, c: seq<seq<nat>>, i: nat, image: Bytes, was: Bytes, now: Bytes,
                           heads: seq<int>, next: seq<int>, heads': seq<int>, next': seq<int>)
    requires cfg.nbuckets > 0 && k < |cfg.keys| && |heads| == cfg.nbuckets && i < |next|
  {
    var b := cfg.Home(k, now);
    if cfg.Same(k, was, now) then heads' == heads && next' == next
    else if cfg.Home(k, was) == cfg.Home(k, image) then Represents(heads', next', MoveKey(cfg, k, c, i, was, now))
    else heads' == heads[b := i] && next' == next[i := heads[b]]
  }

  lemma KeySoundIff(cfg: Config, slots: seq<Slot>, k: nat, c: seq<seq<nat>>, i: nat, was: Bytes, x: Slot,
                    heads: seq<int>, next: seq<int>, heads': seq<int>, next': seq<int>)
    requires cfg.Valid() && k < |cfg.keys| && KeyIndexed(cfg, slots, k, c) && Represents(heads, next, c)
    requires IsActive(slots, i) && x.state == Active && i < |next|
    requires Recelled(cfg, k, c, i, slots[i].image, was, x.image, heads, next, heads', next')
    ensures KeySound(cfg, slots[i := x], k, heads', next') <==>
              if cfg.Same(k, was, x.image) then cfg.Home(k, slots[i].image) == cfg.Home(k, x.image)
              else cfg.Home(k, was) == cfg.Home(k, slots[i].image)
  {
    MoveIndexedIff(cfg, slots, k, c, i, was, x);
    var h := cfg.Home(k, slots[i].image);
    assert i in c[h] <==> Belongs(cfg, slots, k, h, i);
    hide KeyIndexed;
    if cfg.Same(k, was, x.image) {
      hide Represents;
      forall c' | Represents(heads, next, c') ensures c' == c { RepresentsOnce(heads, next, c, c'); }
    } else if cfg.Home(k, was) != h {
      forall c' ensures !Represents(heads', next', c') {
        LinkTwice(heads, next, c, h, cfg.Home(k, x.image), i, c');
      }
    }
  }

  /** An accepted update leaves every key's cells sound if and only if, under every key,
      the old record hashes to the bucket the slot is chained in (or, for a key it shares
      with the new record, the new record does). */
  lemma CellsSoundIff(cfg: Config, t: Table, i: nat, was: Bytes, now: Bytes,
                      head: seq<seq<int>>, next: seq<seq<int>>, head': seq<seq<int>>, next': seq<seq<int>>)
    requires Inv(cfg, t) && Ready(cfg, t) && IsActive(t.slots, i)
    requires |head| == |next| == |head'| == |next'| == |cfg.keys|
    requires forall k :: 0 <= k < |cfg.keys| ==> Represents(head[k], next[k], t.ch[k]) && |next[k]| == |t.slots|
    requires forall k :: 0 <= k < |cfg.keys| ==>
               |head[k]| == cfg.nbuckets
               && Recelled(cfg, k, t.ch[k], i, t.slots[i].image, was, now, head[k], next[k], head'[k], next'[k])
    ensures var slots := Rewritten(cfg, t, i, was, now).slots;
            (forall k :: 0 <= k < |cfg.keys| ==> KeySound(cfg, slots, k, head'[k], next'[k]))
            <==> Rechains(cfg, t.slots[i], was, now)
  {
    var slots := Rewritten(cfg, t, i, was, now).slots;
    forall k: nat | k < |cfg.keys|
      ensures KeySound(cfg, slots, k, head'[k], next'[k]) <==>
                if cfg.Same(k, was, now) then cfg.Home(k, t.slots[i].image) == cfg.Home(k, now)
                else cfg.Home(k, was) == cfg.Home(k, t.slots[i].image)
    {
      hide Represents, KeySound, Recelled, KeyIndexed;
      KeySoundIff(cfg, t.slots, k, t.ch[k], i, was, Written(t.slots[i], now), head[k], next[k], head'[k], next'[k]);
    }
    hide KeySound, Represents, Recelled;
  }

  lemma UpdateSizes(cfg: Config, t: Table, i: nat, gen: nat, was: Bytes, now: Bytes)
    requires Ready(cfg, t) && i < |t.slots|
    ensures var o := UpdateLocked(cfg, t, i, gen, was, now);
            && |o.t.slots| == |t.slots| && (o.code == Ok || o.code == Gone || o.code == DupKey)
            && (o.code != Ok ==> o.t == t)
            && (o.code == Ok ==> t.slots[i].Accepts(gen) && o.t == Rewritten(cfg, t, i, was, now))
  {
  }

  // ----- delete and clear ---------------------------------------------------------

  function UnlinkAll(cfg: Config, ch: seq<seq<seq<nat>>>, i: nat, rec: Bytes): seq<seq<seq<nat>>>
    requires cfg.nbuckets > 0 && |ch| == |cfg.keys|
  {
    seq(|ch|, k requires 0 <= k < |ch| => UnlinkKey(cfg, k, ch[k], i, rec))
  }

  /** The chains while the keys below n are unlinked. */
  function UnlinkBelow(cfg: Config, ch: seq<seq<seq<nat>>>, i: nat, rec: Bytes, n: nat): (r: seq<seq<seq<nat>>>)
    requires cfg.nbuckets > 0 && |ch| == |cfg.keys|
    ensures |r| == |ch|
  {
    seq(|ch|, k requires 0 <= k < |ch| => if k < n then UnlinkKey(cfg, k, ch[k], i, rec) else ch[k])
  }

  lemma UnlinkNext(cfg: Config, ch: seq<seq<seq<nat>>>, i: nat, rec: Bytes, n: nat)
    requires cfg.nbuckets > 0 && n < |ch| == |cfg.keys| && |ch[n]| == cfg.nbuckets
    ensures UnlinkBelow(cfg, ch, i, rec, n)[n] == ch[n]
    ensures UnlinkBelow(cfg, ch, i, rec, n + 1) ==
                UnlinkBelow(cfg, ch, i, rec, n)[n := UnlinkFrom(ch[n], cfg.Home(n, rec), i)]
  {
  }

  lemma UnlinkEnds(cfg: Config, ch: seq<seq<seq<nat>>>, i: nat, rec: Bytes)
    requires cfg.nbuckets > 0 && |ch| == |cfg.keys|
    ensures UnlinkBelow(cfg, ch, i, rec, 0) == ch && UnlinkBelow(cfg, ch, i, rec, |ch|) == UnlinkAll(cfg, ch, i, rec)
  {
  }

  function DeleteRow(cfg: Config, t: Table, i: nat, gen: nat): Outcome
    requires Ready(cfg, t) && i < |t.slots|
  {
    var x := t.slots[i];
    if !x.Accepts(gen) then Outcome(t, Gone, NIL, 0)
    else Outcome(Table(t.slots[i := x.(state := Deleted, bumps := x.bumps + 1)], [i] + t.free,
        UnlinkAll(cfg, t.ch, i, x.image)), Ok, NIL, 0)
  }

  lemma DeleteRefines(cfg: Config, t: Table, i: nat, gen: nat)
    requires Inv(cfg, t) && i < |t.slots|
    ensures Ready(cfg, t)
    ensures var o := DeleteRow(cfg, t, i, gen);
            && Inv(cfg, o.t)
            && (o.code == Ok <==> t.slots[i].Accepts(gen)) && (o.code == Ok || o.code == Gone)
            && (o.code == Ok ==> Rows(o.t.slots) == Rows(t.slots) - {i} && o.t.slots[i].bumps == t.slots[i].bumps + 1)
            && (o.code != Ok ==> o.t == t)
  {
    InvReady(cfg, t);
    if t.slots[i].Accepts(gen) {
      var o := DeleteRow(cfg, t, i, gen);
      forall k | 0 <= k < |cfg.keys| ensures KeyIndexed(cfg, o.t.slots, k, o.t.ch[k]) {
        UnlinkIndexed(cfg, t.slots, k, t.ch[k], i, o.t.slots[i]);
      }
      assert Rows(o.t.slots) == Rows(t.slots) - {i};
      assert forall j :: j in o.t.free <==> j == i || j in t.free;
      assert Distinct(o.t.free);
    }
  }

  lemma DeleteCounts(cfg: Config, t: Table, i: nat, gen: nat)
    requires Inv(cfg, t) && i < |t.slots| && t.slots[i].Accepts(gen)
    ensures Ready(cfg, t) && i !in t.free && Inv(cfg, DeleteRow(cfg, t, i, gen).t)
    ensures |Rows(DeleteRow(cfg, t, i, gen).t.slots)| == |Rows(t.slots)| - 1
  {
    DeleteRefines(cfg, t, i, gen);
    assert (Rows(t.slots) - {i}).Keys == Rows(t.slots).Keys - {i};
  }

  function Wiped(slots: seq<Slot>): (r: seq<Slot>)
    ensures |r| == |slots|
  {
    seq(|slots|, i requires 0 <= i < |slots| => slots[i].(state := Free, bumps := slots[i].bumps + 1))
  }

  /** n - 1, ..., 1, 0 */
  function Countdown(n: nat): (s: seq<nat>)
    ensures |s| == n && forall j :: 0 <= j < n ==> s[j] == n - 1 - j
  {
    if n == 0 then [] else [n - 1] + Countdown(n - 1)
  }

  /** Every bucket of every key empty. */
  function NoChains(cfg: Config): seq<seq<seq<nat>>> {
    seq(|cfg.keys|, _ => seq(cfg.nbuckets, _ => []))
  }

  /** Clear puts every slot on the freelist, also those beyond the row limit. */
  function ClearAll(cfg: Config, t: Table): Table {
    Table(Wiped(t.slots), Countdown(|t.slots|), NoChains(cfg))
  }

  lemma ClearRefines(cfg: Config, t: Table)
    requires Inv(cfg, t)
    ensures Inv(cfg, ClearAll(cfg, t)) && Rows(ClearAll(cfg, t).slots) == map[]
    ensures forall i :: 0 <= i < |t.slots| ==>
              i in ClearAll(cfg, t).free && ClearAll(cfg, t).slots[i].bumps == t.slots[i].bumps + 1
  {
    var t' := ClearAll(cfg, t);
    forall i | 0 <= i < |t.slots| ensures i in t'.free {
      assert t'.free[|t.slots| - 1 - i] == i;
    }
    forall k | 0 <= k < |cfg.keys| ensures KeyIndexed(cfg, t'.slots, k, t'.ch[k]) {
      assert forall i: nat :: !IsActive(t'.slots, i);
    }
  }

  lemma ClearCounts(cfg: Config, t: Table)
    requires Inv(cfg, t)
    ensures Inv(cfg, ClearAll(cfg, t)) && Ready(cfg, ClearAll(cfg, t)) && |Rows(ClearAll(cfg, t).slots)| == 0
  {
    ClearRefines(cfg, t);
    InvReady(cfg, ClearAll(cfg, t));
  }
}
