/** The row store between operations, with its freelist and chains as
    sequences: what each whole operation does, what it keeps, and how it
    refines a plain map from slots to rows. */
module Table {
  import opened Keys
  import opened Slots
  import opened Chain

  const CHUNK: nat := 4096

  datatype Table = Table(slots: seq<Slot>, free: seq<nat>, ch: seq<seq<seq<nat>>>)

  /** The number of chunks the store may allocate. */
  function Cap(cfg: Config): nat { (cfg.maxRecords + CHUNK - 1) / CHUNK }

  predicate IsActive(slots: seq<Slot>, i: int) { 0 <= i < |slots| && slots[i].state == Active }

  // ----- the invariant -------------------------------------------------------

  ghost predicate Shape(cfg: Config, t: Table) {
    && cfg.Valid()
    && |t.slots| % CHUNK == 0 && |t.slots| <= Cap(cfg) * CHUNK
    && |t.ch| == |cfg.keys|
  }

  /** The freelist repeats nothing and holds no ACTIVE slot; every other slot
      below the row limit is on it. */
  ghost predicate Conserved(cfg: Config, t: Table) {
    && Distinct(t.free)
    && (forall i :: i in t.free ==> i < |t.slots| && t.slots[i].state != Active)
    && (forall i :: 0 <= i < |t.slots| && i < cfg.maxRecords && t.slots[i].state != Active ==> i in t.free)
  }

  predicate Belongs(cfg: Config, slots: seq<Slot>, k: nat, b: nat, i: nat)
    requires cfg.nbuckets > 0 && k < |cfg.keys|
  {
    IsActive(slots, i) && cfg.Home(k, slots[i].image) == b
  }

  /** The chains of key k hold exactly the ACTIVE slots, each once, in the
      bucket of its image. */
  ghost predicate KeyIndexed(cfg: Config, slots: seq<Slot>, k: nat, c: seq<seq<nat>>)
    requires cfg.nbuckets > 0 && k < |cfg.keys|
  {
    && |c| == cfg.nbuckets
    && (forall b :: 0 <= b < |c| ==> Distinct(c[b]))
    && (forall b, i: nat :: 0 <= b < |c| ==> (i in c[b] <==> Belongs(cfg, slots, k, b, i)))
  }

  ghost predicate Inv(cfg: Config, t: Table) {
    && Shape(cfg, t)
    && Conserved(cfg, t)
    && forall k :: 0 <= k < |cfg.keys| ==> KeyIndexed(cfg, t.slots, k, t.ch[k])
  }

  // ----- the abstract table --------------------------------------------------

  /** A live row: the generation count of its lifetime and its record. */
  datatype Row = Row(life: nat, rec: Bytes)

  function Rows(slots: seq<Slot>): map<nat, Row> {
    map i: nat | i < |slots| && slots[i].state == Active :: Row(slots[i].bumps, slots[i].image)
  }

  /** No two rows without NULL parts compare equal under a unique key. */
  ghost predicate Unique(cfg: Config, rows: map<nat, Row>) {
    forall k, i, j ::
      && 0 <= k < |cfg.keys| && i in rows && j in rows && i != j
      && cfg.keys[k].unique && !cfg.keys[k].ops.hasNull(rows[i].rec) ==>
      !cfg.keys[k].ops.sameRec(rows[i].rec, rows[j].rec)
  }

  /** Some row other than `self` equals rec under unique key k. */
  ghost predicate BreaksKey(cfg: Config, rows: map<nat, Row>, self: int, k: nat, rec: Bytes)
    requires k < |cfg.keys|
  {
    && cfg.keys[k].unique && !cfg.keys[k].ops.hasNull(rec)
    && exists j :: j in rows && j != self && cfg.keys[k].ops.sameRec(rows[j].rec, rec)
  }

  ghost predicate Breaks(cfg: Config, rows: map<nat, Row>, self: int, rec: Bytes) {
    exists k :: 0 <= k < |cfg.keys| && BreaksKey(cfg, rows, self, k, rec)
  }

  /** Breaks is exactly what its name says: storing rec as row i would end
      uniqueness. */
  lemma BreaksExactly(cfg: Config, rows: map<nat, Row>, i: nat, r: Row)
    requires cfg.Valid() && Unique(cfg, rows)
    ensures Unique(cfg, rows[i := r]) <==> !Breaks(cfg, rows, i, r.rec)
  {
    var rows' := rows[i := r];
    if Breaks(cfg, rows, i, r.rec) {
      var k :| 0 <= k < |cfg.keys| && BreaksKey(cfg, rows, i, k, r.rec);
      var j :| j in rows && j != i && cfg.Same(k, rows[j].rec, r.rec);
      SameHome(cfg, k, rows[j].rec, r.rec);
      assert rows'[j] == rows[j] && rows'[i] == r;
      assert !Unique(cfg, rows');
    } else {
      forall k, a, b | 0 <= k < |cfg.keys| && a in rows' && b in rows' && a != b && cfg.Checked(k, rows'[a].rec)
        ensures !cfg.keys[k].ops.sameRec(rows'[a].rec, rows'[b].rec)
      {
        assert cfg.keys[k].ops.Contract();
        assert !BreaksKey(cfg, rows, i, k, r.rec);
        if cfg.Same(k, rows'[a].rec, rows'[b].rec) {
          SameHome(cfg, k, rows'[a].rec, rows'[b].rec);
        }
      }
    }
  }

  // ----- chains ----------------------------------------------------------------

  function LinkKey(cfg: Config, k: nat, c: seq<seq<nat>>, i: nat, rec: Bytes): (r: seq<seq<nat>>)
    requires cfg.nbuckets > 0 && k < |cfg.keys|
    ensures |r| == |c|
  {
    if |c| == cfg.nbuckets then LinkIn(c, cfg.Home(k, rec), i) else c
  }

  function UnlinkKey(cfg: Config, k: nat, c: seq<seq<nat>>, i: nat, rec: Bytes): (r: seq<seq<nat>>)
    requires cfg.nbuckets > 0 && k < |cfg.keys|
    ensures |r| == |c|
  {
    if |c| == cfg.nbuckets then UnlinkFrom(c, cfg.Home(k, rec), i) else c
  }

  /** A key whose columns changed: out of the old bucket, into the new one. */
  function MoveKey(cfg: Config, k: nat, c: seq<seq<nat>>, i: nat, was: Bytes, now: Bytes): (r: seq<seq<nat>>)
    requires cfg.nbuckets > 0 && k < |cfg.keys|
    ensures |r| == |c|
  {
    if cfg.Same(k, was, now) then c else LinkKey(cfg, k, UnlinkKey(cfg, k, c, i, was), i, now)
  }

  lemma LinkIndexed(cfg: Config, slots: seq<Slot>, k: nat, c: seq<seq<nat>>, i: nat, x: Slot)
    requires cfg.nbuckets > 0 && k < |cfg.keys| && KeyIndexed(cfg, slots, k, c)
    requires i < |slots| && slots[i].state != Active && x.state == Active
    ensures KeyIndexed(cfg, slots[i := x], k, LinkKey(cfg, k, c, i, x.image))
  {
    var h := cfg.Home(k, x.image);
    var c' := LinkKey(cfg, k, c, i, x.image);
    assert i !in c[h];
    forall b: nat, j: nat | b < |c| ensures j in c'[b] <==> Belongs(cfg, slots[i := x], k, b, j) {
      assert j in c[b] <==> Belongs(cfg, slots, k, b, j);
    }
  }

  lemma UnlinkIndexed(cfg: Config, slots: seq<Slot>, k: nat, c: seq<seq<nat>>, i: nat, x: Slot)
    requires cfg.nbuckets > 0 && k < |cfg.keys| && KeyIndexed(cfg, slots, k, c)
    requires i < |slots| && slots[i].state == Active && x.state != Active
    ensures KeyIndexed(cfg, slots[i := x], k, UnlinkKey(cfg, k, c, i, slots[i].image))
  {
    RemoveContent(c[cfg.Home(k, slots[i].image)], i);
    var c' := UnlinkKey(cfg, k, c, i, slots[i].image);
    forall b: nat, j: nat | b < |c| ensures j in c'[b] <==> Belongs(cfg, slots[i := x], k, b, j) {
      assert j in c[b] <==> Belongs(cfg, slots, k, b, j);
    }
  }

  // ----- lookups -----------------------------------------------------------------

  /** A chain node the lookup of `key` reports. */
  predicate Hit(cfg: Config, slots: seq<Slot>, k: nat, key: Bytes, i: nat)
    requires k < |cfg.keys|
  {
    IsActive(slots, i) && cfg.keys[k].ops.matches(slots[i].image, key)
  }

  /** The slots of a chain that the lookup reports, in chain order. */
  function Hits(cfg: Config, slots: seq<Slot>, k: nat, key: Bytes, s: seq<nat>): (r: seq<nat>)
    requires k < |cfg.keys|
  {
    if s == [] then []
    else (if Hit(cfg, slots, k, key, s[0]) then [s[0]] else []) + Hits(cfg, slots, k, key, s[1..])
  }

  lemma {:induction false} HitsContent(cfg: Config, slots: seq<Slot>, k: nat, key: Bytes, s: seq<nat>)
    requires k < |cfg.keys|
    ensures forall i :: i in Hits(cfg, slots, k, key, s) <==> i in s && Hit(cfg, slots, k, key, i)
    ensures Distinct(s) ==> Distinct(Hits(cfg, slots, k, key, s))
  {
    if s != [] {
      HitsContent(cfg, slots, k, key, s[1..]);
      assert forall i :: i in s <==> i == s[0] || i in s[1..];
      if Distinct(s) {
        assert s[0] !in s[1..];
        assert Distinct(s[1..]);
      }
    }
  }

  /** The chain a key hashes to. */
  function Bucketful(cfg: Config, t: Table, k: nat, key: Bytes): seq<nat>
    requires cfg.nbuckets > 0 && k < |cfg.keys| == |t.ch| && |t.ch[k]| == cfg.nbuckets
  {
    t.ch[k][cfg.KeyBucket(k, key)]
  }

  /** Looking only in the bucket of the key finds what a scan over all ACTIVE
      rows would find: each matching row exactly once, nothing else. */
  lemma LookupComplete(cfg: Config, t: Table, k: nat, key: Bytes)
    requires Inv(cfg, t) && k < |cfg.keys|
    ensures |t.ch[k]| == cfg.nbuckets
    ensures Distinct(Hits(cfg, t.slots, k, key, Bucketful(cfg, t, k, key)))
    ensures forall i :: i in Hits(cfg, t.slots, k, key, Bucketful(cfg, t, k, key)) <==>
              i in Rows(t.slots) && cfg.keys[k].ops.matches(Rows(t.slots)[i].rec, key)
  {
    assert KeyIndexed(cfg, t.slots, k, t.ch[k]);
    assert cfg.keys[k].ops.Contract();
    HitsContent(cfg, t.slots, k, key, Bucketful(cfg, t, k, key));
  }

  function Elements(s: seq<nat>): set<nat> { set i | i in s }

  lemma {:induction false} DistinctCard(s: seq<nat>)
    requires Distinct(s)
    ensures |Elements(s)| == |s|
  {
    if s != [] {
      var n := |s| - 1;
      DistinctCard(s[..n]);
      assert Elements(s) == Elements(s[..n]) + {s[n]} && s[n] !in Elements(s[..n]);
    }
  }

  /** The part of a chain that follows slot cur; nothing if cur is not in it. */
  function After(s: seq<nat>, cur: int): (r: seq<nat>) {
    if s == [] then [] else if s[0] == cur then s[1..] else After(s[1..], cur)
  }

  /** Nothing follows a slot that is not in the chain, and the rest of the chain one that
      is. */
  lemma {:induction false} AfterIs(s: seq<nat>, cur: int, p: nat)
    requires p <= |s| && (forall q :: 0 <= q < p ==> s[q] != cur) && (p < |s| ==> s[p] == cur)
    ensures After(s, cur) == if p < |s| then s[p + 1..] else []
    decreases |s|
  {
    if p > 0 {
      AfterIs(s[1..], cur, p - 1);
    }
  }

  lemma HitsFirst(cfg: Config, slots: seq<Slot>, k: nat, key: Bytes, s: seq<nat>)
    requires k < |cfg.keys| && Hits(cfg, slots, k, key, s) != []
    ensures s != []
    ensures Hits(cfg, slots, k, key, s) ==
              (if Hit(cfg, slots, k, key, s[0]) then [s[0]] else []) + Hits(cfg, slots, k, key, s[1..])
  {
  }

  /** What the lookup still has to report after one of its hits. */
  lemma {:induction false} HitsAfter(cfg: Config, slots: seq<Slot>, k: nat, key: Bytes, s: seq<nat>, j: nat)
    requires k < |cfg.keys| && Distinct(s) && j < |Hits(cfg, slots, k, key, s)|
    ensures Hits(cfg, slots, k, key, After(s, Hits(cfg, slots, k, key, s)[j])) == Hits(cfg, slots, k, key, s)[j + 1..]
  {
    var hs, rest := Hits(cfg, slots, k, key, s), Hits(cfg, slots, k, key, s[1..]);
    HitsContent(cfg, slots, k, key, s[1..]);
    HitsFirst(cfg, slots, k, key, s);
    assert Distinct(s[1..]) && forall q :: 0 <= q < |s[1..]| ==> s[1..][q] != s[0];
    hide Hits, Distinct, Hit;
    if Hit(cfg, slots, k, key, s[0]) {
      assert hs == [s[0]] + rest;
      if j > 0 {
        assert hs[j] == rest[j - 1] && rest[j - 1] in rest;
        HitsAfter(cfg, slots, k, key, s[1..], j - 1);
      }
    } else {
      assert hs == rest && rest[j] in rest;
      HitsAfter(cfg, slots, k, key, s[1..], j);
    }
  }

  /** The duplicate check on the chain of rec's bucket. */
  predicate Dup(cfg: Config, t: Table, k: nat, rec: Bytes)
    requires cfg.nbuckets > 0 && k < |cfg.keys| == |t.ch| && |t.ch[k]| == cfg.nbuckets
  {
    && cfg.keys[k].unique && !cfg.keys[k].ops.hasNull(rec)
    && exists p :: 0 <= p < |t.ch[k][cfg.Home(k, rec)]| && Clash(cfg, t.slots, k, t.ch[k][cfg.Home(k, rec)][p], rec)
  }

  predicate Clash(cfg: Config, slots: seq<Slot>, k: nat, j: nat, rec: Bytes)
    requires k < |cfg.keys|
  {
    IsActive(slots, j) && cfg.Same(k, slots[j].image, rec)
  }

  /** The check depends on the rows and the key's own chains only. */
  lemma DupByRows(cfg: Config, t: Table, t': Table, k: nat, rec: Bytes)
    requires cfg.nbuckets > 0 && k < |cfg.keys| == |t.ch| == |t'.ch| && |t.ch[k]| == cfg.nbuckets
    requires t'.ch[k] == t.ch[k] && Rows(t'.slots) == Rows(t.slots)
    ensures Dup(cfg, t', k, rec) <==> Dup(cfg, t, k, rec)
  {
    forall j: nat ensures Clash(cfg, t'.slots, k, j, rec) <==> Clash(cfg, t.slots, k, j, rec) {
      assert IsActive(t.slots, j) <==> j in Rows(t.slots);
      assert IsActive(t'.slots, j) <==> j in Rows(t'.slots);
    }
  }

  /** The bucket-local check sees every row that rec would collide with. */
  lemma DupIsBreak(cfg: Config, t: Table, k: nat, self: int, rec: Bytes)
    requires Inv(cfg, t) && k < |cfg.keys|
    requires IsActive(t.slots, self) ==> !cfg.Same(k, t.slots[self].image, rec)
    ensures |t.ch[k]| == cfg.nbuckets
    ensures Dup(cfg, t, k, rec) <==> BreaksKey(cfg, Rows(t.slots), self, k, rec)
  {
    assert KeyIndexed(cfg, t.slots, k, t.ch[k]);
    var s := t.ch[k][cfg.Home(k, rec)];
    if cfg.Checked(k, rec) {
      forall j: nat | IsActive(t.slots, j) && cfg.Same(k, t.slots[j].image, rec) ensures j in s {
        SameHome(cfg, k, t.slots[j].image, rec);
      }
      if BreaksKey(cfg, Rows(t.slots), self, k, rec) {
        var j :| j in Rows(t.slots) && j != self && cfg.Same(k, Rows(t.slots)[j].rec, rec);
        assert j in s;
        var p :| 0 <= p < |s| && s[p] == j;
        assert Clash(cfg, t.slots, k, s[p], rec);
      }
      if Dup(cfg, t, k, rec) {
        var p :| 0 <= p < |s| && Clash(cfg, t.slots, k, s[p], rec);
        assert s[p] in Rows(t.slots);
      }
    }
  }
}
