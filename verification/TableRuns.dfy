/** Runs of whole operations: uniqueness, the row limit and the life of row
    references. */
module TableRuns {
  import opened Keys
  import opened Slots
  import opened Chain
  import opened Table
  import opened Operations

  datatype Op =
    | Insert(rec: Bytes, mem: bool)
    | Change(i: nat, gen: nat, was: Bytes, now: Bytes, locked: bool)
    | Remove(i: nat, gen: nat)
    | Clear

  function Empty(cfg: Config): Table { Table([], [], NoChains(cfg)) }

  /** What the store demands of its callers: slot numbers it has handed out, and
      for an accepted update an old record with the row's present keys. */
  predicate Allowed(cfg: Config, t: Table, op: Op) {
    && Ready(cfg, t)
    && (op.Change? ==> op.i < |t.slots| && (t.slots[op.i].Accepts(op.gen) ==> CarriesKeys(cfg, t.slots[op.i], op.was)))
    && (op.Remove? ==> op.i < |t.slots|)
  }

  function Apply(cfg: Config, t: Table, op: Op): Table
    requires Allowed(cfg, t, op)
  {
    match op
    case Insert(rec, mem) => InsertRow(cfg, t, rec, mem).t
    case Change(i, gen, was, now, locked) =>
      if locked then UpdateLocked(cfg, t, i, gen, was, now).t else Update(cfg, t, i, gen, was, now).t
    case Remove(i, gen) => DeleteRow(cfg, t, i, gen).t
    case Clear => ClearAll(cfg, t)
  }

  ghost predicate IsRun(cfg: Config, run: seq<Table>, ops: seq<Op>) {
    && cfg.Valid()
    && |run| == |ops| + 1
    && run[0] == Empty(cfg)
    && forall n :: 0 <= n < |ops| ==> Allowed(cfg, run[n], ops[n]) && run[n + 1] == Apply(cfg, run[n], ops[n])
  }

  /** What every operation keeps. */
  ghost predicate Sound(cfg: Config, t: Table) { Inv(cfg, t) && Unique(cfg, Rows(t.slots)) }

  lemma EmptySound(cfg: Config)
    requires cfg.Valid()
    ensures Sound(cfg, Empty(cfg))
  {
    assert Cap(cfg) >= 0;
  }

  lemma UniqueLess(cfg: Config, rows: map<nat, Row>, i: nat)
    requires Unique(cfg, rows)
    ensures Unique(cfg, rows - {i})
  {
  }

  lemma ApplySound(cfg: Config, t: Table, op: Op)
    requires Sound(cfg, t) && Allowed(cfg, t, op)
    ensures Sound(cfg, Apply(cfg, t, op))
  {
    assert cfg.Valid();
    hide Inv, Breaks, InsertRow, UpdateLocked, Update, DeleteRow, ClearAll;
    var rows := Rows(t.slots);
    match op {
      case Insert(rec, mem) =>
        InsertRefines(cfg, t, rec, mem);
        var o := InsertRow(cfg, t, rec, mem);
        if o.code == Ok {
          SelfAbsent(cfg, rows, o.slot, rec);
          BreaksExactly(cfg, rows, o.slot, Row(o.t.slots[o.slot].bumps, rec));
        }
      case Change(i, gen, was, now, locked) =>
        UpdateRefines(cfg, t, i, gen, was, now);
        BreaksExactly(cfg, rows, i, Row(t.slots[i].bumps, now));
      case Remove(i, gen) =>
        DeleteRefines(cfg, t, i, gen);
        UniqueLess(cfg, rows, i);
      case Clear => ClearRefines(cfg, t);
    }
  }

  /** What each operation does to the rows. */
  lemma ApplyRefines(cfg: Config, t: Table, op: Op)
    requires Sound(cfg, t) && Allowed(cfg, t, op)
    ensures var rows, rows' := Rows(t.slots), Rows(Apply(cfg, t, op).slots);
            match op
            case Insert(rec, mem) =>
              if (t.free != [] || (|t.slots| < cfg.maxRecords && mem)) && !Breaks(cfg, rows, NIL, rec)
              then exists i: nat, life: nat :: i !in rows && rows' == rows[i := Row(life, rec)]
              else rows' == rows
            case Change(i, gen, was, now, _) =>
              if t.slots[i].Accepts(gen) && !Breaks(cfg, rows, i, now)
              then rows' == rows[i := Row(t.slots[i].bumps, now)]
              else rows' == rows
            case Remove(i, gen) => rows' == if t.slots[i].Accepts(gen) then rows - {i} else rows
            case Clear => rows' == map[]
  {
    hide Inv, Breaks, InsertRow, UpdateLocked, Update, DeleteRow, ClearAll;
    match op {
      case Insert(rec, mem) =>
        InsertRefines(cfg, t, rec, mem);
        var o := InsertRow(cfg, t, rec, mem);
        if o.code == Ok { assert Rows(o.t.slots) == Rows(t.slots)[o.slot := Row(o.t.slots[o.slot].bumps, rec)]; }
      case Change(i, gen, was, now, locked) => UpdateRefines(cfg, t, i, gen, was, now);
      case Remove(i, gen) => DeleteRefines(cfg, t, i, gen);
      case Clear => ClearRefines(cfg, t);
    }
  }

  lemma SelfAbsent(cfg: Config, rows: map<nat, Row>, i: nat, rec: Bytes)
    requires i !in rows
    ensures Breaks(cfg, rows, i, rec) <==> Breaks(cfg, rows, NIL, rec)
  {
    forall k: nat | k < |cfg.keys| ensures BreaksKey(cfg, rows, i, k, rec) <==> BreaksKey(cfg, rows, NIL, k, rec) {
    }
  }

  /** Over every run of whole operations the representation holds and no two
      rows without NULL parts are equal under a unique key. */
  lemma {:induction false} RunSound(cfg: Config, run: seq<Table>, ops: seq<Op>, n: nat)
    requires IsRun(cfg, run, ops) && n < |run|
    ensures Sound(cfg, run[n])
  {
    hide Sound;
    if n == 0 {
      EmptySound(cfg);
    } else {
      RunSound(cfg, run, ops, n - 1);
      assert run[n - 1 + 1] == Apply(cfg, run[n - 1], ops[n - 1]);
      ApplySound(cfg, run[n - 1], ops[n - 1]);
    }
  }

  // ----- the row limit ---------------------------------------------------------

  /** Every slot in use or ready for use is below the row limit. */
  ghost predicate Bounded(cfg: Config, t: Table) {
    && (forall i :: i in t.free ==> i < cfg.maxRecords)
    && (forall i :: 0 <= i < |t.slots| && t.slots[i].state == Active ==> i < cfg.maxRecords)
  }

  lemma {:induction false} AtMost(s: set<nat>, n: nat)
    requires forall i :: i in s ==> i < n
    ensures |s| <= n
  {
    if n > 0 {
      AtMost(s - {n - 1}, n - 1);
      assert s <= (s - {n - 1}) + {n - 1};
    } else {
      assert s == {};
    }
  }

  lemma BoundedRows(cfg: Config, t: Table)
    requires Bounded(cfg, t)
    ensures |Rows(t.slots)| <= cfg.maxRecords
  {
    AtMost(Rows(t.slots).Keys, cfg.maxRecords);
  }

  lemma ApplyBounded(cfg: Config, t: Table, op: Op)
    requires Inv(cfg, t) && Allowed(cfg, t, op) && Bounded(cfg, t) && !op.Clear?
    ensures Bounded(cfg, Apply(cfg, t, op))
  {
    hide KeyIndexed, AnyDup, FirstDup, LinkAll, UnlinkAll, MoveAll;
    if op.Insert? {
      AllocateKeeps(cfg, t, op.mem);
      var (t1, o) := Allocate(cfg, t, op.mem);
      assert Bounded(cfg, t1) && (o.Some? ==> o.value < cfg.maxRecords) by { AllocateBounded(cfg, t, op.mem); }
      hide Allocate, Inv;
    }
  }

  lemma AllocateBounded(cfg: Config, t: Table, mem: bool)
    requires Inv(cfg, t) && Bounded(cfg, t)
    ensures var (t', o) := Allocate(cfg, t, mem); Bounded(cfg, t') && (o.Some? ==> o.value < cfg.maxRecords)
  {
    AllocateKeeps(cfg, t, mem);
    hide KeyIndexed;
    var (t', o) := Allocate(cfg, t, mem);
    forall i | 0 <= i < |t'.slots| && t'.slots[i].state == Active ensures i < cfg.maxRecords {
      assert i in Rows(t'.slots);
      assert i in Rows(t.slots);
    }
    if t.free != [] {
      assert t.free[0] in t.free;
      assert forall i :: i in t'.free ==> i in t.free;
    }
  }

  /** Clear keeps the limit exactly when no slot beyond it was ever allocated. */
  lemma ClearBounded(cfg: Config, t: Table)
    requires Inv(cfg, t)
    ensures Bounded(cfg, ClearAll(cfg, t)) <==> |t.slots| <= cfg.maxRecords
  {
    ClearRefines(cfg, t);
    var t' := ClearAll(cfg, t);
    if |t.slots| > cfg.maxRecords {
      assert |t.slots| - 1 in t'.free;
    }
  }

  lemma {:induction false} RunBounded(cfg: Config, run: seq<Table>, ops: seq<Op>, n: nat)
    requires IsRun(cfg, run, ops) && n < |run|
    requires (forall j :: 0 <= j < n ==> !ops[j].Clear?) || cfg.maxRecords % CHUNK == 0
    ensures Bounded(cfg, run[n])
  {
    if n > 0 {
      RunBounded(cfg, run, ops, n - 1);
      RunSound(cfg, run, ops, n - 1);
      assert run[n - 1 + 1] == Apply(cfg, run[n - 1], ops[n - 1]);
      hide Bounded, Unique;
      if ops[n - 1].Clear? {
        assert Cap(cfg) * CHUNK == cfg.maxRecords;
        ClearBounded(cfg, run[n - 1]);
      } else {
        ApplyBounded(cfg, run[n - 1], ops[n - 1]);
      }
    }
  }

  /** The number of rows: never above the capacity of the chunks, and within the
      row limit as long as the table is not cleared or the limit fills whole
      chunks. */
  lemma RowLimit(cfg: Config, run: seq<Table>, ops: seq<Op>, n: nat)
    requires IsRun(cfg, run, ops) && n < |run|
    ensures |Rows(run[n].slots)| <= Cap(cfg) * CHUNK
    ensures (forall j :: 0 <= j < n ==> !ops[j].Clear?) || cfg.maxRecords % CHUNK == 0 ==>
              |Rows(run[n].slots)| <= cfg.maxRecords
  {
    RunSound(cfg, run, ops, n);
    AtMost(Rows(run[n].slots).Keys, |run[n].slots|);
    if (forall j :: 0 <= j < n ==> !ops[j].Clear?) || cfg.maxRecords % CHUNK == 0 {
      RunBounded(cfg, run, ops, n);
      BoundedRows(cfg, run[n]);
    }
  }

  ghost function Last(run: seq<Table>, ops: seq<Op>): Table
    requires |run| == |ops| + 1
  {
    run[|ops|]
  }

  lemma More(cfg: Config, run: seq<Table>, ops: seq<Op>, op: Op) returns (run': seq<Table>, ops': seq<Op>)
    requires IsRun(cfg, run, ops) && Allowed(cfg, Last(run, ops), op)
    ensures IsRun(cfg, run', ops') && |run'| == |ops'| + 1 && ops' == ops + [op]
            && Last(run', ops') == Apply(cfg, Last(run, ops), op)
  {
    hide Allowed, Apply;
    run', ops' := run + [Apply(cfg, Last(run, ops), op)], ops + [op];
    forall n | 0 <= n < |ops'| ensures Allowed(cfg, run'[n], ops'[n]) && run'[n + 1] == Apply(cfg, run'[n], ops'[n]) {
      if n < |ops| { assert Allowed(cfg, run[n], ops[n]) && run[n + 1] == Apply(cfg, run[n], ops[n]); }
    }
  }

  lemma {:induction false} Pigeonhole(s: set<nat>, n: nat) returns (i: nat)
    requires |s| < n
    ensures i < n && i !in s
  {
    if n - 1 in s {
      i := Pigeonhole(s - {n - 1}, n - 1);
    } else {
      i := n - 1;
    }
  }

  /** Every slot that is no row's is on the freelist. */
  ghost predicate AllIn(t: Table) {
    forall i :: 0 <= i < |t.slots| && t.slots[i].state != Active ==> i in t.free
  }

  /** Records of which no two are equal under a unique key. */
  ghost predicate Diverse(cfg: Config, recs: seq<Bytes>) {
    forall k, a, b ::
      && 0 <= k < |cfg.keys| && 0 <= a < |recs| && 0 <= b < |recs| && a != b
      && cfg.keys[k].unique && !cfg.keys[k].ops.hasNull(recs[a]) ==>
      !cfg.keys[k].ops.sameRec(recs[a], recs[b])
  }

  /** Every row is one of the first m records. */
  ghost predicate Among(rows: map<nat, Row>, recs: seq<Bytes>, m: nat) {
    m <= |recs| && forall j :: j in rows ==> exists q :: 0 <= q < m && rows[j].rec == recs[q]
  }

  lemma NextFits(cfg: Config, rows: map<nat, Row>, recs: seq<Bytes>, m: nat)
    requires cfg.Valid() && Diverse(cfg, recs) && Among(rows, recs, m) && m < |recs|
    ensures !Breaks(cfg, rows, NIL, recs[m])
  {
    forall k, j | 0 <= k < |cfg.keys| && j in rows && cfg.Checked(k, recs[m])
      ensures !cfg.Same(k, rows[j].rec, recs[m])
    {
      assert cfg.keys[k].ops.Contract();
      var q :| 0 <= q < m && rows[j].rec == recs[q];
      assert !cfg.Same(k, recs[m], recs[q]);
    }
  }

  lemma OneMore(rows: map<nat, Row>, recs: seq<Bytes>, m: nat, i: nat, r: Row)
    requires Among(rows, recs, m) && m < |recs| && r.rec == recs[m]
    ensures Among(rows[i := r], recs, m + 1)
  {
    var rows' := rows[i := r];
    forall j | j in rows' ensures exists q :: 0 <= q < m + 1 && rows'[j].rec == recs[q] {
      if j != i {
        var q :| 0 <= q < m && rows[j].rec == recs[q];
      } else {
        assert rows'[j].rec == recs[m];
      }
    }
  }

  /** The table so far: as many of the records as it has rows. */
  ghost predicate Filling(cfg: Config, recs: seq<Bytes>, t: Table) {
    Diverse(cfg, recs) && Among(Rows(t.slots), recs, |Rows(t.slots)|)
  }

  /** While there is room, the next of the records goes in. */
  lemma InsertOne(cfg: Config, recs: seq<Bytes>, t: Table)
    requires Inv(cfg, t) && Filling(cfg, recs, t) && |Rows(t.slots)| < |recs|
             && (t.free != [] || |t.slots| < cfg.maxRecords)
    ensures Ready(cfg, t)
    ensures var t' := InsertRow(cfg, t, recs[|Rows(t.slots)|], true).t;
            && Filling(cfg, recs, t') && |Rows(t'.slots)| == |Rows(t.slots)| + 1
            && (t.free != [] && AllIn(t) ==> AllIn(t') && |t'.slots| == |t.slots|)
  {
    var m := |Rows(t.slots)|;
    InvReady(cfg, t);
    InsertRefines(cfg, t, recs[m], true);
    NextFits(cfg, Rows(t.slots), recs, m);
    var o := InsertRow(cfg, t, recs[m], true);
    OneMore(Rows(t.slots), recs, m, o.slot, Row(o.t.slots[o.slot].bumps, recs[m]));
    if t.free != [] && AllIn(t) { InsertAllIn(cfg, t, recs[m]); }
    hide Inv, Rows, Breaks, Diverse, Among, InsertRow, AllIn;
  }

  lemma InsertAllIn(cfg: Config, t: Table, rec: Bytes)
    requires Ready(cfg, t) && t.free != [] && AllIn(t) && InsertRow(cfg, t, rec, true).code == Ok
    ensures var t' := InsertRow(cfg, t, rec, true).t; AllIn(t') && |t'.slots| == |t.slots|
  {
    assert forall i :: i in t.free ==> i == t.free[0] || i in t.free[1..];
    hide AnyDup, LinkAll;
  }

  /** Fill the table until it has more slots than its row limit. */
  lemma {:induction false} Overgrow(cfg: Config, recs: seq<Bytes>, run: seq<Table>, ops: seq<Op>)
    returns (run': seq<Table>, ops': seq<Op>)
    requires IsRun(cfg, run, ops) && cfg.maxRecords % CHUNK != 0 && cfg.maxRecords < |recs|
             && Filling(cfg, recs, Last(run, ops))
    ensures IsRun(cfg, run', ops') && |Last(run', ops').slots| > cfg.maxRecords
    decreases cfg.maxRecords - |Rows(Last(run, ops).slots)|
  {
    var t := Last(run, ops);
    hide IsRun, Apply, InsertRow, Filling;
    RunSound(cfg, run, ops, |ops|);
    AtMost(Rows(t.slots).Keys, |t.slots|);
    if |t.slots| > cfg.maxRecords {
      run', ops' := run, ops;
    } else {
      InsertOne(cfg, recs, t);
      var rec := recs[|Rows(t.slots)|];
      run', ops' := More(cfg, run, ops, Insert(rec, true));
      ApplyInsert(cfg, t, rec);
      run', ops' := Overgrow(cfg, recs, run', ops');
    }
  }

  lemma ApplyInsert(cfg: Config, t: Table, rec: Bytes)
    requires Ready(cfg, t)
    ensures Apply(cfg, t, Insert(rec, true)) == InsertRow(cfg, t, rec, true).t
  {
  }

  lemma {:induction false} FillTo(cfg: Config, recs: seq<Bytes>, run: seq<Table>, ops: seq<Op>, goal: nat)
    returns (run': seq<Table>, ops': seq<Op>)
    requires IsRun(cfg, run, ops) && AllIn(Last(run, ops)) && Filling(cfg, recs, Last(run, ops)) && goal <= |recs|
    requires |Rows(Last(run, ops).slots)| <= goal <= |Last(run, ops).slots|
    ensures IsRun(cfg, run', ops') && |Rows(Last(run', ops').slots)| == goal
    decreases goal - |Rows(Last(run, ops).slots)|
  {
    var t := Last(run, ops);
    hide IsRun, Apply, InsertRow, Filling;
    if |Rows(t.slots)| == goal {
      run', ops' := run, ops;
    } else {
      RunSound(cfg, run, ops, |ops|);
      var i := Pigeonhole(Rows(t.slots).Keys, |t.slots|);
      assert i in t.free;
      InsertOne(cfg, recs, t);
      var rec := recs[|Rows(t.slots)|];
      run', ops' := More(cfg, run, ops, Insert(rec, true));
      ApplyInsert(cfg, t, rec);
      run', ops' := FillTo(cfg, recs, run', ops', goal);
    }
  }

  /** Clearing undoes the limit: one that does not fill whole chunks can be exceeded with
      any records that fit together. */
  lemma LimitExceeded(cfg: Config, recs: seq<Bytes>) returns (run: seq<Table>, ops: seq<Op>)
    requires cfg.Valid() && cfg.maxRecords % CHUNK != 0 && Diverse(cfg, recs) && |recs| == cfg.maxRecords + 1
    ensures IsRun(cfg, run, ops) && |Rows(Last(run, ops).slots)| > cfg.maxRecords
  {
    run, ops := Overgrow(cfg, recs, [Empty(cfg)], []);
    RunSound(cfg, run, ops, |ops|);
    InvReady(cfg, Last(run, ops));
    ClearRefines(cfg, Last(run, ops));
    hide IsRun, Diverse;
    run, ops := More(cfg, run, ops, Clear);
    run, ops := FillTo(cfg, recs, run, ops, cfg.maxRecords + 1);
  }

  /** Some of a set's elements, one after the other. */
  lemma {:induction false} Listed(s: set<nat>, n: nat) returns (r: seq<nat>)
    requires n <= |s|
    ensures |r| == n && Distinct(r) && forall i :: 0 <= i < n ==> r[i] in s
  {
    if n == 0 {
      r := [];
    } else {
      var x :| x in s;
      r := Listed(s - {x}, n - 1);
      r := [x] + r;
    }
  }

  /** The rows of a table fit together. */
  lemma RowsDiverse(cfg: Config, rows: map<nat, Row>, n: nat) returns (recs: seq<Bytes>)
    requires Unique(cfg, rows) && n <= |rows|
    ensures |recs| == n && Diverse(cfg, recs)
  {
    var r := Listed(rows.Keys, n);
    recs := seq(n, j requires 0 <= j < n => rows[r[j]].rec);
    forall k, a, b | 0 <= k < |cfg.keys| && 0 <= a < n && 0 <= b < n && a != b && cfg.Checked(k, recs[a])
      ensures !cfg.Same(k, recs[a], recs[b])
    {
      assert r[a] != r[b] && rows[r[a]].rec == recs[a] && rows[r[b]].rec == recs[b];
    }
  }

  /** The row limit can be exceeded if and only if it does not fill whole chunks and one
      record more than the limit can be found of which no two are equal under a unique
      key. */
  lemma LimitIff(cfg: Config)
    requires cfg.Valid()
    ensures (exists run: seq<Table>, ops :: IsRun(cfg, run, ops) && |Rows(run[|ops|].slots)| > cfg.maxRecords)
            <==> cfg.maxRecords % CHUNK != 0 && exists recs :: Diverse(cfg, recs) && |recs| == cfg.maxRecords + 1
  {
    if run: seq<Table>, ops :| IsRun(cfg, run, ops) && |Rows(run[|ops|].slots)| > cfg.maxRecords {
      RunSound(cfg, run, ops, |ops|);
      RowLimit(cfg, run, ops, |ops|);
      hide IsRun, Inv, Unique, Diverse, Rows;
      var recs := RowsDiverse(cfg, Rows(run[|ops|].slots), cfg.maxRecords + 1);
    }
    if recs :| cfg.maxRecords % CHUNK != 0 && Diverse(cfg, recs) && |recs| == cfg.maxRecords + 1 {
      hide IsRun, Diverse, Rows;
      var run, ops := LimitExceeded(cfg, recs);
    }
  }

  // ----- references -------------------------------------------------------------

  /** From t to t' slot i keeps its generation or moves on, and if its row is no
      longer ACTIVE it has moved on. */
  predicate Ages(t: Table, t': Table, i: nat) {
    i < |t.slots| ==>
      && i < |t'.slots| && t.slots[i].bumps <= t'.slots[i].bumps
      && (t.slots[i].state == Active && t'.slots[i].bumps == t.slots[i].bumps ==> t'.slots[i].state == Active)
  }

  lemma AgesOn(a: Table, b: Table, c: Table, i: nat)
    requires Ages(a, b, i) && Ages(b, c, i)
    ensures Ages(a, c, i)
  {
  }

  lemma ApplyAges(cfg: Config, t: Table, op: Op, i: nat)
    requires Inv(cfg, t) && Allowed(cfg, t, op)
    ensures Ages(t, Apply(cfg, t, op), i)
  {
    hide KeyIndexed, AnyDup, FirstDup, LinkAll, UnlinkAll, MoveAll;
    if op.Insert? {
      AllocateKeeps(cfg, t, op.mem);
      assert i in Rows(t.slots) <==> IsActive(t.slots, i);
    }
  }

  lemma {:induction false} RunAges(cfg: Config, run: seq<Table>, ops: seq<Op>, m: nat, n: nat, i: nat)
    requires IsRun(cfg, run, ops) && m <= n < |run|
    ensures Ages(run[m], run[n], i)
    decreases n
  {
    hide Inv, Unique, Apply, Allowed;
    if m < n {
      RunSound(cfg, run, ops, n - 1);
      assert run[n - 1 + 1] == Apply(cfg, run[n - 1], ops[n - 1]);
      hide Ages;
      RunAges(cfg, run, ops, m, n - 1, i);
      ApplyAges(cfg, run[n - 1], ops[n - 1], i);
      AgesOn(run[m], run[n - 1], run[n], i);
    }
  }

  /** A reference taken from an ACTIVE row at step m is accepted at step n if and
      only if that same lifetime has lasted all the while, as long as the
      generation has not gone through all 2^32 values. */
  lemma StaleReferences(cfg: Config, run: seq<Table>, ops: seq<Op>, m: nat, n: nat, i: nat)
    requires IsRun(cfg, run, ops) && m <= n < |run| && IsActive(run[m].slots, i)
    requires i < |run[n].slots| ==> run[n].slots[i].bumps - run[m].slots[i].bumps < U32
    ensures i < |run[n].slots|
    ensures run[n].slots[i].Accepts(run[m].slots[i].Gen()) <==>
              forall j :: m <= j <= n ==> IsActive(run[j].slots, i) && run[j].slots[i].bumps == run[m].slots[i].bumps
  {
    RunAges(cfg, run, ops, m, n, i);
    var g := run[m].slots[i].bumps;
    if run[n].slots[i].Accepts(run[m].slots[i].Gen()) {
      SameGeneration(g, run[n].slots[i].bumps);
      forall j | m <= j <= n ensures IsActive(run[j].slots, i) && run[j].slots[i].bumps == g {
        RunAges(cfg, run, ops, m, j, i);
        RunAges(cfg, run, ops, j, n, i);
      }
    }
  }

  lemma SameGeneration(a: nat, b: nat)
    requires a <= b < a + U32 && a % U32 == b % U32
    ensures a == b
  {
  }

  // ----- the seq counters -----------------------------------------------------------------

  /** No image write is left half done. */
  predicate Even(t: Table) { forall i :: 0 <= i < |t.slots| ==> t.slots[i].stamps % 2 == 0 }

  lemma ApplyEven(cfg: Config, t: Table, op: Op)
    requires Inv(cfg, t) && Allowed(cfg, t, op) && Even(t)
    ensures Even(Apply(cfg, t, op))
    ensures forall i :: 0 <= i < |t.slots| ==>
              var x, y := t.slots[i], Apply(cfg, t, op).slots[i];
              y.stamps == x.stamps || (op.Change? && op.i == i && y.stamps == x.stamps + 2 && y.image == op.now)
  {
    hide KeyIndexed, AnyDup, FirstDup, LinkAll, UnlinkAll, MoveAll;
    if op.Insert? {
      AllocateKeeps(cfg, t, op.mem);
    }
  }

  /** Between operations every slot's seq counter is even. */
  lemma {:induction false} RunEven(cfg: Config, run: seq<Table>, ops: seq<Op>, n: nat)
    requires IsRun(cfg, run, ops) && n < |run|
    ensures Even(run[n])
  {
    hide Inv, Unique, Apply, Allowed;
    if n > 0 {
      RunSound(cfg, run, ops, n - 1);
      assert run[n - 1 + 1] == Apply(cfg, run[n - 1], ops[n - 1]);
      RunEven(cfg, run, ops, n - 1);
      hide Even;
      ApplyEven(cfg, run[n - 1], ops[n - 1]);
    }
  }

  // ----- lost updates -------------------------------------------------------------------

  /** Without a read check an accepted update does not look at the image it replaces:
      from any state of any run a session with a current reference can write over a row,
      whatever old image it passes, as long as that has the row's keys and the new one
      breaks no uniqueness.  Every write whose old image is not the row's loses the one
      before. */
  lemma LostUpdate(cfg: Config, run: seq<Table>, ops: seq<Op>, i: nat, was: Bytes, now: Bytes)
    returns (run': seq<Table>, ops': seq<Op>)
    requires IsRun(cfg, run, ops) && IsActive(Last(run, ops).slots, i)
    requires var t := Last(run, ops); CarriesKeys(cfg, t.slots[i], was) && !Breaks(cfg, Rows(t.slots), i, now)
    ensures IsRun(cfg, run', ops') && ops' == ops + [Change(i, Last(run, ops).slots[i].Gen(), was, now, true)]
    ensures Last(run', ops').slots == Last(run, ops).slots[i := Written(Last(run, ops).slots[i], now)]
  {
    RunSound(cfg, run, ops, |ops|);
    var t := Last(run, ops);
    InvReady(cfg, t);
    UpdateRefines(cfg, t, i, t.slots[i].Gen(), was, now);
    hide IsRun, Inv, Unique, CarriesKeys, Breaks, FirstDup;
    run', ops' := More(cfg, run, ops, Change(i, t.slots[i].Gen(), was, now, true));
  }
}
