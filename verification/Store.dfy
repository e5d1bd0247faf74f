/** The row store itself: slots, intrusive chains and freelist updated in place.

    Each method is proved against the whole-operation functions of module
    Operations.  The ghost fields hold the freelist and the chains as sequences
    and the locks taken and given back, in order. */
module Store {
  import opened Keys
  import opened Slots
  import opened Chain
  import opened LockOrder
  import opened LockSet
  import opened LockArray
  import T = Table
  import O = Operations
  import P = LockPrograms
  import K = LockSkeletons

  /** The limits a table is created with. */
  function Defaults(wanted: Config): Config {
    wanted.(nbuckets := if wanted.nbuckets == 0 then 1024 else wanted.nbuckets,
            maxRecords := if wanted.maxRecords == 0 then 1 else wanted.maxRecords)
  }

  /** Every key has its head cells, and every slot its next cell under every key. */
  ghost predicate Fitted(cfg: Config, n: nat, head: seq<seq<int>>, next: seq<seq<int>>, ch: seq<seq<seq<nat>>>) {
    && |head| == |next| == |ch| == |cfg.keys|
    && forall k :: 0 <= k < |cfg.keys| ==> |head[k]| == |ch[k]| == cfg.nbuckets && |next[k]| == n
  }

  /** The cells of every key represent its chains. */
  ghost predicate Wired(cfg: Config, n: nat, head: seq<seq<int>>, next: seq<seq<int>>, ch: seq<seq<seq<nat>>>) {
    Fitted(cfg, n, head, next, ch) && forall k :: 0 <= k < |cfg.keys| ==> Represents(head[k], next[k], ch[k])
  }

  class Store {
    const cfg: Config
    var slots: seq<Slot>
    var freeHead: int
    var freeNext: seq<int>
    var head: seq<seq<int>>
    var next: seq<seq<int>>
    var records: int
    var held: set<Lock>
    ghost var free: seq<nat>
    ghost var ch: seq<seq<seq<nat>>>
    ghost var trail: seq<P.Act>

    /** Cells and slots have the right sizes, and the freelist is spelled out. */
    ghost predicate Shaped()
      reads this`slots, this`freeHead, this`freeNext, this`head, this`next, this`free, this`ch
    {
      && cfg.Valid()
      && O.Ready(cfg, Abs())
      && Fitted(cfg, |slots|, head, next, ch)
      && |freeNext| == |slots| && Spells(freeHead, freeNext, free)
    }

    /** The cells spell out the ghost sequences. */
    ghost predicate Linked()
      reads this`slots, this`freeHead, this`freeNext, this`head, this`next, this`free, this`ch
    {
      && cfg.Valid()
      && O.Ready(cfg, Abs())
      && Wired(cfg, |slots|, head, next, ch)
      && |freeNext| == |slots| && Spells(freeHead, freeNext, free)
    }

    ghost function Abs(): T.Table
      reads this`slots, this`free, this`ch
    {
      T.Table(slots, free, ch)
    }

    /** What holds whenever no operation is in progress. */
    ghost predicate Valid()
      reads this`slots, this`freeHead, this`freeNext, this`head, this`next, this`free, this`ch, this`records
    {
      Linked() && T.Inv(cfg, Abs()) && records == |T.Rows(slots)|
    }

    /** Of the cells alone: under every key they lead to every row, in its bucket, and to
        nothing else. */
    ghost predicate Sound()
      reads this`slots, this`head, this`next
    {
      && cfg.nbuckets > 0 && |head| == |next| == |cfg.keys|
      && forall k :: 0 <= k < |cfg.keys| ==> O.KeySound(cfg, slots, k, head[k], next[k])
    }

    lemma ValidIsSound()
      requires Valid()
      ensures Sound()
    {
      forall k | 0 <= k < |cfg.keys| ensures O.KeySound(cfg, slots, k, head[k], next[k]) {
        assert Represents(head[k], next[k], ch[k]) && T.KeyIndexed(cfg, slots, k, ch[k]);
      }
    }

    lemma IsReady()
      requires Valid()
      ensures O.Ready(cfg, Abs())
    {
    }

    /** The caller holds at most row locks. */
    predicate OnlyRows()
      reads this`held
    {
      forall l :: l in held ==> l.Row?
    }

    predicate OnlyRowsAnd(m: Lock)
      reads this`held
    {
      forall l :: l in held ==> l.Row? || l == m
    }

    /** Zero stands for one row, and for 1024 buckets. */
    constructor (wanted: Config)
      requires Defaults(wanted).Valid()
      ensures cfg == Defaults(wanted) && Valid() && Abs() == T.Table([], [], O.NoChains(cfg))
      ensures cfg.keys == wanted.keys && cfg.nbuckets == (if wanted.nbuckets == 0 then 1024 else wanted.nbuckets)
      ensures cfg.maxRecords == if wanted.maxRecords == 0 then 1 else wanted.maxRecords
      ensures held == {} && trail == []
    {
      cfg := Defaults(wanted);
      slots, freeHead, freeNext := [], NIL, [];
      head, next := seq(|wanted.keys|, _ => seq(Defaults(wanted).nbuckets, _ => NIL)), seq(|wanted.keys|, _ => []);
      records, held := 0, {};
      free, ch, trail := [], O.NoChains(Defaults(wanted)), [];
    }

    // ----- locks -----------------------------------------------------------------

    /** Spinning on a lock one holds oneself would never end. */
    method Acquire(l: Lock)
      requires l !in held
      modifies this`held, this`trail
      ensures held == old(held) + {l} && trail == old(trail) + [P.Take(l)]
    {
      held := held + {l};
      trail := trail + [P.Take(l)];
    }

    method Release(l: Lock)
      requires l in held
      modifies this`held, this`trail
      ensures held == old(held) - {l} && trail == old(trail) + [P.Give(l)]
    {
      held := held - {l};
      trail := trail + [P.Give(l)];
    }

    // ----- chains ------------------------------------------------------------------

    /** Walk the cells of a chain to slot idx: the slot whose cell leads to it
        (NIL for the head cell), and the position in the chain. */
    method Seek(k: nat, b: nat, idx: nat) returns (prev: int, found: bool, ghost p: nat)
      requires k < |head| && k < |next| && k < |ch| && b < |head[k]| && b < |ch[k]|
      requires Spells(head[k][b], next[k], ch[k][b])
      ensures found <==> idx in ch[k][b]
      ensures found ==> p < |ch[k][b]| && ch[k][b][p] == idx && prev == if p == 0 then NIL else ch[k][b][p - 1]
    {
      hide At;
      ghost var s := ch[k][b];
      prev, p := NIL, 0;
      var cur := head[k][b];
      while cur != NIL && cur != idx
        invariant p <= |s| && idx !in s[..p] && cur == At(s, p)
        invariant prev == if p == 0 then NIL else s[p - 1]
        decreases |s| - p
      {
        AtIs(s, p);
        assert s[p] < |next[k]| && next[k][s[p]] == At(s, p + 1);
        prev, cur := cur, next[k][cur];
        assert s[..p + 1] == s[..p] + [s[p]];
        p := p + 1;
      }
      AtIs(s, p);
      assert p == |s| ==> s[..p] == s;
      found := cur != NIL;
    }

    /** Write the cell that leads to slot idx. */
    method Cut(k: nat, b: nat, idx: nat, prev: int, ghost p: nat)
      requires Shaped() && k < |cfg.keys| && b < cfg.nbuckets && Represents(head[k], next[k], ch[k])
      requires p < |ch[k][b]| && ch[k][b][p] == idx && prev == if p == 0 then NIL else ch[k][b][p - 1]
      modifies this`head, this`next, this`ch
      ensures Shaped() && ch == old(ch)[k := UnlinkFrom(old(ch)[k], b, idx)]
      ensures Represents(head[k], next[k], ch[k]) && head == old(head)[k := head[k]] && next == old(next)[k := next[k]]
    {
      hide Represents, UnlinkFrom, Drop, Config.Valid, Spells;
      UnlinkKeeps(head[k], next[k], ch[k], b, p);
      if prev == NIL {
        head := head[k := head[k][b := next[k][idx]]];
      } else {
        next := next[k := next[k][prev := next[k][idx]]];
      }
      ch := ch[k := UnlinkFrom(ch[k], b, idx)];
    }

    /** Take slot idx out of a chain, if it is there; only the cells of key k change. */
    method ChainUnlink(k: nat, b: nat, idx: nat) returns (code: Code)
      requires Shaped() && k < |cfg.keys| && b < cfg.nbuckets && Represents(head[k], next[k], ch[k])
      modifies this`head, this`next, this`ch
      ensures Shaped() && ch == old(ch)[k := UnlinkFrom(old(ch)[k], b, idx)]
      ensures Represents(head[k], next[k], ch[k]) && head == old(head)[k := head[k]] && next == old(next)[k := next[k]]
      ensures old(Linked()) ==> Linked()
      ensures code == if idx in old(ch)[k][b] then Ok else NotFound
      ensures code == NotFound ==> head == old(head) && next == old(next)
    {
      ghost var p;
      var prev, found;
      prev, found, p := Seek(k, b, idx);
      hide Represents, Spells, Fitted, Config.Valid;
      if found {
        Cut(k, b, idx, prev, p);
        code := Ok;
      } else {
        RemoveAbsent(ch[k][b], idx);
        assert UnlinkFrom(ch[k], b, idx) == ch[k];
        code := NotFound;
      }
      Rewire(k, old(head), old(next), old(ch));
    }

    /** When only key k has new cells and they represent its chains, linked stays
        linked. */
    lemma Rewire(k: nat, head0: seq<seq<int>>, next0: seq<seq<int>>, ch0: seq<seq<seq<nat>>>)
      requires Shaped() && k < |cfg.keys| && k < |head0| && k < |next0| && k < |ch0|
      requires head == head0[k := head[k]] && next == next0[k := next[k]] && ch == ch0[k := ch[k]]
      ensures Represents(head[k], next[k], ch[k]) && Wired(cfg, |slots|, head0, next0, ch0) ==> Linked()
    {
    }

    /** Put slot idx in front of a chain.  A slot that is still in some chain of the key
        takes that chain's tail along: its one next cell is overwritten. */
    method ChainLink(k: nat, b: nat, idx: nat)
      requires Shaped() && k < |cfg.keys| && b < cfg.nbuckets && idx < |slots|
      modifies this`head, this`next, this`ch
      ensures Shaped() && ch == old(ch)[k := LinkIn(old(ch)[k], b, idx)]
      ensures next == old(next)[k := old(next)[k][idx := old(head)[k][b]]]
              && head == old(head)[k := old(head)[k][b := idx]]
      ensures old(Represents(head[k], next[k], ch[k]) && Absent(ch[k], idx)) ==> Represents(head[k], next[k], ch[k])
      ensures old(Linked() && Absent(ch[k], idx)) ==> Linked()
    {
      hide Represents, Spells, Config.Valid, Absent;
      ghost var ok := Represents(head[k], next[k], ch[k]) && Absent(ch[k], idx);
      if ok { ScribbleKeeps(head[k], next[k], ch[k], idx, head[k][b]); }
      next := next[k := next[k][idx := head[k][b]]];
      if ok { LinkKeeps(head[k], next[k], ch[k], b, idx); }
      head := head[k := head[k][b := idx]];
      ch := ch[k := LinkIn(ch[k], b, idx)];
      Rewire(k, old(head), old(next), old(ch));
    }

    // ----- slots -------------------------------------------------------------------

    /** A new chunk of blank slots whose cells point nowhere. */
    method GrowChunk(mem: bool) returns (code: Code)
      requires Linked()
      modifies this`slots, this`freeNext, this`next
      ensures Linked()
      ensures code == if |old(slots)| / T.CHUNK >= T.Cap(cfg) then Full else if mem then Ok else NoMem
      ensures slots == if code == Ok then old(slots) + seq(T.CHUNK, _ => O.Blank(cfg)) else old(slots)
      ensures old(freeNext) <= freeNext
    {
      if |slots| / T.CHUNK >= T.Cap(cfg) {
        return Full;
      }
      if !mem {
        return NoMem;
      }
      slots := slots + seq(T.CHUNK, _ => O.Blank(cfg));
      freeNext := freeNext + seq(T.CHUNK, _ => NIL);
      var was := next;
      next := seq(|was|, k requires 0 <= k < |was| => was[k] + seq(T.CHUNK, _ => NIL));
      forall k | 0 <= k < |cfg.keys| ensures Represents(head[k], next[k], ch[k]) {
        assert Represents(head[k], was[k], ch[k]);
        hide Represents, Spells, KeyOps.Contract;
        MoreCells(head[k], was[k], ch[k], seq(T.CHUNK, _ => NIL));
      }
      hide Represents;
      code := Ok;
    }

    method FreeSlot(idx: nat)
      requires Linked() && idx < |slots| && idx !in free
      modifies this`freeHead, this`freeNext, this`free
      ensures Linked() && free == [idx] + old(free)
    {
      freeNext := freeNext[idx := freeHead];
      freeHead := idx;
      free := [idx] + free;
      forall p | 0 <= p < |free| ensures free[p] < |freeNext| && freeNext[free[p]] == At(free, p + 1) {
        if p > 0 { assert free[p] == old(free)[p - 1]; assert free[p] in old(free); }
      }
    }

    method AllocSlot(mem: bool) returns (idx: int)
      requires Linked() && |slots| % T.CHUNK == 0 && Distinct(free)
      modifies this`slots, this`freeHead, this`freeNext, this`next, this`free
      ensures Linked()
      ensures (Abs(), if idx == NIL then None else Some(idx)) == O.Allocate(cfg, old(Abs()), mem)
      ensures idx >= NIL
    {
      if freeHead != NIL {
        idx := freeHead;
        freeHead := freeNext[idx];
        free := free[1..];
        assert forall p :: 0 <= p < |free| ==> free[p] == old(free)[p + 1];
        return;
      }
      var total := |slots|;
      if total >= cfg.maxRecords {
        return NIL;
      }
      O.CapFits(total, cfg.maxRecords);
      var code := GrowChunk(mem);
      if code != Ok {
        return NIL;
      }
      var end := if total + T.CHUNK > cfg.maxRecords then cfg.maxRecords else total + T.CHUNK;
      PushDown(total + 1, end);
      idx := total;
    }

    /** Push hi - 1, ..., lo on the empty freelist. */
    method PushDown(lo: nat, hi: nat)
      requires Linked() && free == [] && lo <= hi <= |slots|
      modifies this`freeHead, this`freeNext, this`free
      ensures Linked() && free == O.Range(lo, hi)
    {
      hide Linked;
      var i := hi;
      while i > lo
        invariant lo <= i <= hi && Linked() && free == O.Range(i, hi)
      {
        i := i - 1;
        FreeSlot(i);
        assert free == O.Range(i, hi);
      }
    }

    // ----- reads -------------------------------------------------------------------

    /** Copy a row; with check, only if its generation is the expected one. */
    method ReadRow(idx: nat, check: Option<nat>) returns (code: Code, buf: Bytes)
      requires idx < |slots|
      ensures code ==
                if slots[idx].state == Active && (check.Some? ==> slots[idx].Gen() == check.value) then Ok else Gone
      ensures code == Ok ==> buf == slots[idx].image
    {
      if slots[idx].state != Active || (check.Some? && slots[idx].Gen() != check.value) {
        return Gone, [];
      }
      return Ok, slots[idx].image;
    }

    /** The first ACTIVE slot at or after pos. */
    method ScanNext(pos: nat) returns (code: Code, pos': nat, buf: Bytes)
      ensures code == Ok || code == Eof
      ensures code == Ok ==> pos < pos' <= |slots| && T.IsActive(slots, pos' - 1) && buf == slots[pos' - 1].image
      ensures forall i :: pos <= i < |slots| && (code == Ok ==> i < pos' - 1) ==> slots[i].state != Active
    {
      pos', buf := pos, [];
      while pos' < |slots|
        invariant pos <= pos' && (pos' <= |slots| || pos' == pos)
        invariant forall i :: pos <= i < pos' && i < |slots| ==> slots[i].state != Active
      {
        var idx := pos';
        pos' := pos' + 1;
        code, buf := ReadRow(idx, None);
        if code == Ok {
          return;
        }
      }
      code := Eof;
    }

    /** A cell walk stands at position p of a chain. */
    lemma Step(k: nat, b: nat, p: nat, h: int)
      requires Linked() && k < |cfg.keys| && b < cfg.nbuckets && p <= |ch[k][b]| && h == At(ch[k][b], p)
      ensures h == NIL <==> p == |ch[k][b]|
      ensures h != NIL ==> h == ch[k][b][p] && h < |slots| && next[k][h] == At(ch[k][b], p + 1)
      ensures head[k][b] == At(ch[k][b], 0)
    {
      assert Represents(head[k], next[k], ch[k]);
      assert Spells(head[k][b], next[k], ch[k][b]);
    }

    /** A lookup that has the given hits reports the first of them. */
    ghost predicate Reports(hits: seq<nat>, code: Code, idx: int, buf: Bytes)
      reads this`slots
    {
      if hits == [] then code == NotFound
      else code == Ok && idx == hits[0] && T.IsActive(slots, idx) && buf == slots[idx].image
    }

    /** The walk of find, under the bucket lock. */
    method WalkFind(k: nat, b: nat, key: Bytes) returns (code: Code, idx: int, buf: Bytes)
      requires Linked() && k < |cfg.keys| && b < cfg.nbuckets
      ensures Reports(T.Hits(cfg, slots, k, key, ch[k][b]), code, idx, buf)
    {
      hide Represents;
      ghost var s, p := ch[k][b], 0;
      Step(k, b, 0, At(s, 0));
      hide At;
      var h := head[k][b];
      assert s[0..] == s;
      while h != NIL
        invariant p <= |s| && h == At(s, p)
        invariant T.Hits(cfg, slots, k, key, s) == T.Hits(cfg, slots, k, key, s[p..])
        decreases |s| - p
      {
        Step(k, b, p, h);
        assert s[p..] == [s[p]] + s[p + 1..];
        code, buf := ReadRow(h, None);
        if code == Ok && cfg.keys[k].ops.matches(buf, key) {
          return Ok, h, buf;
        }
        h := next[k][h];
        p := p + 1;
      }
      Step(k, b, p, h);
      return NotFound, NIL, [];
    }

    method Find(k: nat, key: Bytes) returns (code: Code, idx: int, buf: Bytes)
      requires Linked() && k < |cfg.keys| && OnlyRows()
      modifies this`held, this`trail
      ensures held == old(held) && trail == old(trail) + K.ActsOf(cfg, K.Find(k, cfg.KeyBucket(k, key)))
      ensures Reports(T.Hits(cfg, slots, k, key, T.Bucketful(cfg, Abs(), k, key)), code, idx, buf)
    {
      var b := cfg.KeyBucket(k, key);
      Acquire(Bucket(k, b));
      code, idx, buf := WalkFind(k, b, key);
      Release(Bucket(k, b));
    }

    method WalkFindNext(k: nat, b: nat, key: Bytes, cur: int) returns (code: Code, idx: int, buf: Bytes)
      requires Linked() && k < |cfg.keys| && b < cfg.nbuckets && Distinct(ch[k][b])
      ensures Reports(T.Hits(cfg, slots, k, key, T.After(ch[k][b], cur)), code, idx, buf)
    {
      hide Represents;
      var afterCur := false;
      ghost var s, p := ch[k][b], 0;
      Step(k, b, 0, At(s, 0));
      hide At;
      var h := head[k][b];
      assert s[0..] == s;
      while h != NIL
        invariant p <= |s| && h == At(s, p)
        invariant afterCur ==>
                    cur !in s[p..] && T.Hits(cfg, slots, k, key, T.After(s, cur)) == T.Hits(cfg, slots, k, key, s[p..])
        invariant !afterCur ==> T.After(s, cur) == T.After(s[p..], cur)
        decreases |s| - p
      {
        Step(k, b, p, h);
        assert s[p..] == [s[p]] + s[p + 1..];
        if h == cur {
          afterCur := true;
        } else if afterCur {
          code, buf := ReadRow(h, None);
          if code == Ok && cfg.keys[k].ops.matches(buf, key) {
            return Ok, h, buf;
          }
        }
        h := next[k][h];
        p := p + 1;
      }
      Step(k, b, p, h);
      return NotFound, NIL, [];
    }

    /** Continue after slot cur.  If cur has left the chain the walk never begins
        to look, and finds nothing. */
    method FindNext(k: nat, key: Bytes, cur: int) returns (code: Code, idx: int, buf: Bytes)
      requires Linked() && k < |cfg.keys| && OnlyRows()
      modifies this`held, this`trail
      ensures held == old(held) && trail == old(trail) + K.ActsOf(cfg, K.Find(k, cfg.KeyBucket(k, key)))
      ensures Reports(T.Hits(cfg, slots, k, key, T.After(T.Bucketful(cfg, Abs(), k, key), cur)), code, idx, buf)
      ensures (forall p :: 0 <= p < |ch[k][cfg.KeyBucket(k, key)]| ==> ch[k][cfg.KeyBucket(k, key)][p] != cur) ==>
                code == NotFound
    {
      var b := cfg.KeyBucket(k, key);
      if forall p :: 0 <= p < |ch[k][b]| ==> ch[k][b][p] != cur { T.AfterIs(ch[k][b], cur, |ch[k][b]|); }
      Acquire(Bucket(k, b));
      assert Represents(head[k], next[k], ch[k]);
      code, idx, buf := WalkFindNext(k, b, key, cur);
      Release(Bucket(k, b));
    }

    /** Whether an ACTIVE row of the bucket equals rec under unique key k. */
    method DupCheck(k: nat, b: nat, rec: Bytes) returns (code: Code)
      requires Linked() && k < |cfg.keys| && b == cfg.Home(k, rec)
      ensures code == if T.Dup(cfg, Abs(), k, rec) then DupKey else Ok
    {
      hide Represents;
      if !cfg.Checked(k, rec) {
        return Ok;
      }
      ghost var s, p := ch[k][b], 0;
      Step(k, b, 0, At(s, 0));
      hide At;
      var h := head[k][b];
      while h != NIL
        invariant p <= |s| && h == At(s, p)
        invariant forall q :: 0 <= q < p ==> !T.Clash(cfg, slots, k, s[q], rec)
        decreases |s| - p
      {
        Step(k, b, p, h);
        var found, scratch := ReadRow(h, None);
        if found == Ok && cfg.Same(k, scratch, rec) {
          assert T.Clash(cfg, slots, k, s[p], rec);
          return DupKey;
        }
        h := next[k][h];
        p := p + 1;
      }
      Step(k, b, p, h);
      code := Ok;
    }

    /** The hash lookup agrees with a scan of all rows. */
    method FindRow(k: nat, key: Bytes) returns (code: Code, idx: int, buf: Bytes)
      requires Valid() && k < |cfg.keys| && OnlyRows()
      modifies this`held, this`trail
      ensures held == old(held)
      ensures code == Ok || code == NotFound
      ensures code == Ok ==> T.IsActive(slots, idx) && buf == slots[idx].image && cfg.keys[k].ops.matches(buf, key)
      ensures code == NotFound ==>
                forall i: nat :: T.IsActive(slots, i) ==> !cfg.keys[k].ops.matches(slots[i].image, key)
    {
      T.LookupComplete(cfg, Abs(), k, key);
      ghost var hits := AllHits(k, key);
      assert forall i: nat :: T.IsActive(slots, i) ==> i in T.Rows(slots);
      hide T.Inv, T.Hits, Wired, Spells;
      code, idx, buf := Find(k, key);
      assert hits != [] ==> hits[0] in hits;
    }

    /** The continued lookup reports rows that match. */
    method FindNextRow(k: nat, key: Bytes, cur: int) returns (code: Code, idx: int, buf: Bytes)
      requires Valid() && k < |cfg.keys| && OnlyRows()
      modifies this`held, this`trail
      ensures held == old(held) && trail == old(trail) + K.Touch(Bucket(k, cfg.KeyBucket(k, key)))
      ensures Reports(T.Hits(cfg, slots, k, key, T.After(T.Bucketful(cfg, Abs(), k, key), cur)), code, idx, buf)
      ensures code == Ok ==> cfg.keys[k].ops.matches(buf, key)
    {
      hide T.Inv, T.Rows, Wired, Fitted, Spells, T.After, T.Bucketful;
      ghost var s := T.After(T.Bucketful(cfg, Abs(), k, key), cur);
      T.HitsContent(cfg, slots, k, key, s);
      hide T.Hits;
      assert T.Hits(cfg, slots, k, key, s) != [] ==> T.Hits(cfg, slots, k, key, s)[0] in T.Hits(cfg, slots, k, key, s);
      code, idx, buf := FindNext(k, key, cur);
    }

    // ----- whole lookups -------------------------------------------------------------

    ghost function AllHits(k: nat, key: Bytes): seq<nat>
      requires Linked() && k < |cfg.keys|
      reads this`slots, this`freeHead, this`freeNext, this`head, this`next, this`free, this`ch
    {
      T.Hits(cfg, slots, k, key, T.Bucketful(cfg, Abs(), k, key))
    }

    /** A lookup under way: the hits found so far, and what the last call reported. */
    ghost predicate Upto(hits: seq<nat>, found: seq<nat>, code: Code, cur: int, buf: Bytes)
      reads this`slots
    {
      |found| <= |hits| && found == hits[..|found|] && Reports(hits[|found|..], code, cur, buf)
    }

    /** From one hit to the next. */
    method NextHit(k: nat, key: Bytes, ghost found: seq<nat>, cur: int, ghost buf0: Bytes)
      returns (code: Code, idx: int, buf: Bytes)
      requires Linked() && k < |cfg.keys| && OnlyRows() && Distinct(T.Bucketful(cfg, Abs(), k, key))
      requires Upto(AllHits(k, key), found, Ok, cur, buf0)
      modifies this`held, this`trail
      ensures held == old(held) && |found| < |AllHits(k, key)| && Upto(AllHits(k, key), found + [cur], code, idx, buf)
    {
      hide Upto, Reports, T.Hits, T.After, Distinct, Wired, Fitted, Spells, Config.Valid;
      ghost var hits := AllHits(k, key);
      UptoMeans(hits, found, Ok, cur, buf0);
      T.HitsAfter(cfg, slots, k, key, T.Bucketful(cfg, Abs(), k, key), |found|);
      code, idx, buf := FindNext(k, key, cur);
      UptoNext(hits, found, cur, buf0, code, idx, buf);
    }

    lemma UptoNext(hits: seq<nat>, found: seq<nat>, cur: int, buf0: Bytes, code: Code, idx: int, buf: Bytes)
      requires Upto(hits, found, Ok, cur, buf0) && |found| < |hits| && cur >= 0
               && Reports(hits[|found| + 1..], code, idx, buf)
      ensures Upto(hits, found + [cur], code, idx, buf)
    {
      assert hits[|found|] == cur;
      assert hits[..|found| + 1] == found + [cur];
    }

    lemma UptoMeans(hits: seq<nat>, found: seq<nat>, code: Code, cur: int, buf: Bytes)
      requires Upto(hits, found, code, cur, buf)
      ensures if code == Ok then |found| < |hits| && cur == hits[|found|] else found == hits
    {
      assert hits[..|hits|] == hits;
    }

    lemma UptoStarts(hits: seq<nat>, code: Code, cur: int, buf: Bytes)
      requires Reports(hits, code, cur, buf)
      ensures Upto(hits, [], code, cur, buf)
    {
      assert hits[0..] == hits;
    }

    /** find, then find_next until it fails. */
    method CollectHits(k: nat, key: Bytes) returns (found: seq<nat>)
      requires Linked() && k < |cfg.keys| && OnlyRows() && Distinct(T.Bucketful(cfg, Abs(), k, key))
      modifies this`held, this`trail
      ensures held == old(held) && found == AllHits(k, key)
    {
      hide Upto, Reports, Distinct, Wired, Fitted, Spells, Config.Valid, T.Hits;
      ghost var hits := AllHits(k, key);
      found := [];
      var code, cur, buf := Find(k, key);
      UptoStarts(hits, code, cur, buf);
      UptoMeans(hits, found, code, cur, buf);
      while code == Ok
        invariant held == old(held) && Upto(hits, found, code, cur, buf)
        invariant if code == Ok then |found| < |hits| && cur == hits[|found|] else found == hits
        decreases |hits| - |found|
      {
        hide AllHits;
        ghost var f, b := found, buf;
        found := found + [cur];
        code, cur, buf := NextHit(k, key, f, cur, b);
        UptoMeans(hits, found, code, cur, buf);
      }
    }

    /** Every row with the key, once, and nothing else. */
    method EnumerateKey(k: nat, key: Bytes) returns (found: seq<nat>)
      requires Valid() && k < |cfg.keys| && OnlyRows()
      modifies this`held, this`trail
      ensures held == old(held) && Distinct(found)
      ensures forall i :: i in found <==> i in T.Rows(slots) && cfg.keys[k].ops.matches(T.Rows(slots)[i].rec, key)
    {
      T.LookupComplete(cfg, Abs(), k, key);
      assert Represents(head[k], next[k], ch[k]);
      hide T.Inv, T.Hits, T.Rows, Distinct, Spells;
      found := CollectHits(k, key);
    }

    /** scan_next from the start: every row once, in slot order. */
    method EnumerateAll() returns (found: seq<nat>)
      requires Valid()
      ensures Distinct(found) && |found| == records
      ensures forall i :: i in found <==> i in T.Rows(slots)
    {
      found := [];
      var pos: nat := 0;
      var code := Ok;
      while code == Ok
        invariant pos <= |slots| && Scanned(found, pos, if code == Ok then pos else |slots|)
        decreases if code == Ok then |slots| - pos + 1 else 0
      {
        hide Linked, T.Inv, T.Rows, Scanned;
        var c, p, buf := ScanNext(pos);
        if c == Ok {
          ScannedNext(found, pos, p);
          found, pos := found + [p - 1], p;
        } else {
          ScannedAll(found, pos);
        }
        code := c;
      }
      T.DistinctCard(found);
      hide Linked, T.Inv;
      assert T.Elements(found) == T.Rows(slots).Keys;
    }

    lemma ScannedNext(found: seq<nat>, pos: nat, p: nat)
      requires Scanned(found, pos, pos) && pos < p <= |slots| && T.IsActive(slots, p - 1)
      requires forall i :: pos <= i < p - 1 ==> slots[i].state != Active
      ensures Scanned(found + [p - 1], p, p)
    {
    }

    lemma ScannedAll(found: seq<nat>, pos: nat)
      requires Scanned(found, pos, pos) && forall i :: pos <= i < |slots| ==> slots[i].state != Active
      ensures Scanned(found, pos, |slots|)
    {
    }

    /** A scan has found the ACTIVE slots below upto, all of them below pos. */
    ghost predicate Scanned(found: seq<nat>, pos: nat, upto: nat)
      reads this`slots
    {
      && Distinct(found) && (forall j :: 0 <= j < |found| ==> found[j] < pos && T.IsActive(slots, found[j]))
      && forall i: nat :: i < upto && T.IsActive(slots, i) ==> i in found
    }

    // ----- insert --------------------------------------------------------------------

    /** Under the lock of its bucket, check rec against key k and link slot idx. */
    method LinkKey(k: nat, idx: nat, rec: Bytes) returns (code: Code)
      requires Linked() && k < |cfg.keys| && idx < |slots| && OnlyRowsAnd(Struct) && Absent(ch[k], idx)
      modifies this`head, this`next, this`ch, this`held, this`trail
      ensures Linked() && held == old(held) && trail == old(trail) + K.Touch(Bucket(k, cfg.Home(k, rec)))
      ensures code == if T.Dup(cfg, old(Abs()), k, rec) then DupKey else Ok
      ensures ch == if code == Ok then old(ch)[k := LinkIn(old(ch)[k], cfg.Home(k, rec), idx)] else old(ch)
    {
      hide Wired, Spells, Fitted, Absent, T.Dup, Config.Valid;
      var b := cfg.Home(k, rec);
      Acquire(Bucket(k, b));
      IsShaped();
      code := DupCheck(k, b, rec);
      if code == Ok {
        ChainLink(k, b, idx);
      }
      Release(Bucket(k, b));
    }

    /** An insert of rec that started from t0 has slot idx linked under the keys below
        n, and has visited as many. */
    ghost predicate Linking(t0: T.Table, trail0: seq<P.Act>, idx: nat, rec: Bytes, n: nat, visited: nat)
      reads this
    {
      && Linked() && O.Ready(cfg, t0) && n <= visited <= |cfg.keys| && idx < |slots|
      && slots == t0.slots && ch == O.LinkBelow(cfg, t0.ch, idx, rec, n)
      && (forall k :: 0 <= k < |cfg.keys| ==> Absent(t0.ch[k], idx))
      && (forall k :: 0 <= k < n ==> !T.Dup(cfg, t0, k, rec))
      && trail == trail0 + K.Touches(K.BucketsOf(cfg, rec, O.Range(0, |cfg.keys|)[..visited]))
    }

    method LinkStep(ghost t0: T.Table, ghost trail0: seq<P.Act>, idx: nat, rec: Bytes, n: nat) returns (code: Code)
      requires Linking(t0, trail0, idx, rec, n, n) && n < |cfg.keys| && OnlyRowsAnd(Struct)
      modifies this`head, this`next, this`ch, this`held, this`trail
      ensures held == old(held) && code == if T.Dup(cfg, t0, n, rec) then DupKey else Ok
      ensures Linking(t0, trail0, idx, rec, if code == Ok then n + 1 else n, n + 1)
    {
      hide Wired, Fitted, Absent, T.Dup, T.Rows, Spells, K.Touches, K.BucketsOf, Config.Valid, K.Touch, O.LinkBelow,
           LinkIn;
      O.LinkNext(cfg, t0.ch, idx, rec, n);
      T.DupByRows(cfg, t0, Abs(), n, rec);
      K.TouchMore(cfg, rec, O.Range(0, |cfg.keys|), n);
      code := LinkKey(n, idx, rec);
    }

    /** Link slot idx under one key after another, one bucket lock at a time, up to
        the first key under which rec is a duplicate. */
    method LinkKeys(idx: nat, rec: Bytes) returns (n: nat)
      requires Linked() && idx < |slots| && OnlyRowsAnd(Struct) && forall k :: 0 <= k < |ch| ==> Absent(ch[k], idx)
      modifies this`head, this`next, this`ch, this`held, this`trail
      ensures Linked() && held == old(held) && n <= |cfg.keys|
      ensures ch == O.LinkBelow(cfg, old(ch), idx, rec, n)
      ensures forall k :: 0 <= k < n ==> !T.Dup(cfg, old(Abs()), k, rec)
      ensures n < |cfg.keys| ==> T.Dup(cfg, old(Abs()), n, rec)
      ensures trail == old(trail) + K.Touches(K.BucketsOf(cfg, rec,
                O.Range(0, |cfg.keys|)[..if n < |cfg.keys| then n + 1 else n]))
    {
      ghost var t0, trail0 := Abs(), trail;
      O.LinkEnds(cfg, ch, idx, rec);
      K.TouchNone(cfg, rec, O.Range(0, |cfg.keys|));
      assert Linking(t0, trail0, idx, rec, 0, 0);
      n := 0;
      var code := Ok;
      while n < |cfg.keys| && code == Ok
        invariant n <= |cfg.keys| && held == old(held)
        invariant code == Ok ==> Linking(t0, trail0, idx, rec, n, n)
        invariant code != Ok ==> n < |cfg.keys| && Linking(t0, trail0, idx, rec, n, n + 1) && T.Dup(cfg, t0, n, rec)
        decreases |cfg.keys| - n, code == Ok
      {
        hide Linking, T.Dup, Absent;
        code := LinkStep(t0, trail0, idx, rec, n);
        if code == Ok {
          n := n + 1;
        }
      }
    }

    /** A rollback that started with n keys linked over the chains ch0 has left of them
        to unlink. */
    ghost predicate Unlinking(ch0: seq<seq<seq<nat>>>, trail0: seq<P.Act>, idx: nat, rec: Bytes, n: nat, left: nat)
      reads this
    {
      && Linked() && left <= n <= |cfg.keys| == |ch0| && (forall k :: 0 <= k < |ch0| ==> |ch0[k]| == cfg.nbuckets)
      && ch == O.LinkBelow(cfg, ch0, idx, rec, left)
      && trail == trail0 + K.Touches(K.BucketsOf(cfg, rec, O.Countdown(n)[..n - left]))
    }

    method UnlinkStep(ghost ch0: seq<seq<seq<nat>>>, ghost trail0: seq<P.Act>, idx: nat, rec: Bytes, ghost n: nat,
                      k: nat)
      requires Unlinking(ch0, trail0, idx, rec, n, k + 1) && OnlyRowsAnd(Struct)
      modifies this`head, this`next, this`ch, this`held, this`trail
      ensures held == old(held) && Unlinking(ch0, trail0, idx, rec, n, k)
    {
      hide Wired, Fitted, Spells, K.Touches, K.BucketsOf, KeyOps.Contract;
      O.LinkNext(cfg, ch0, idx, rec, k);
      K.TouchMore(cfg, rec, O.Countdown(n), n - (k + 1));
      UnlinkVisit(k, idx, rec);
    }

    /** The rollback: unlink the keys below n again, last first.  The counter is an
        unsigned 32-bit number that the loop's own test decrements; it is returned as
        the loop leaves it. */
    method UnlinkKeys(idx: nat, rec: Bytes, n: nat, ghost ch0: seq<seq<seq<nat>>>) returns (k: nat)
      requires Linked() && n <= |cfg.keys| == |ch0| && OnlyRowsAnd(Struct)
      requires (forall k :: 0 <= k < |ch0| ==> |ch0[k]| == cfg.nbuckets) && ch == O.LinkBelow(cfg, ch0, idx, rec, n)
      modifies this`head, this`next, this`ch, this`held, this`trail
      ensures Linked() && held == old(held) && ch == ch0 && k < U32
      ensures trail == old(trail) + K.Touches(K.BucketsOf(cfg, rec, O.Countdown(n)))
      ensures (k + 1) % U32 == 0
    {
      hide Wired, Fitted, Spells, K.Touches, K.BucketsOf, KeyOps.Contract;
      O.LinkEnds(cfg, ch0, idx, rec);
      K.TouchNone(cfg, rec, O.Countdown(n));
      ghost var trail0, left: nat := trail, n;
      k := n;
      var go := k > 0;
      k := Decremented(k);
      while go
        invariant left <= n && go == (left > 0) && k == (if left > 0 then left - 1 else U32 - 1)
        invariant held == old(held) && Unlinking(ch0, trail0, idx, rec, n, left)
        decreases left
      {
        hide Unlinking, Linked;
        UnlinkStep(ch0, trail0, idx, rec, n, k);
        left := left - 1;
        go := k > 0;
        k := Decremented(k);
      }
      assert O.Countdown(n)[..n] == O.Countdown(n);
    }

    method UnlinkVisit(k: nat, idx: nat, rec: Bytes)
      requires Linked() && k < |cfg.keys| && Bucket(k, cfg.Home(k, rec)) !in held
      modifies this`head, this`next, this`ch, this`held, this`trail
      ensures Linked() && held == old(held) && trail == old(trail) + K.Touch(Bucket(k, cfg.Home(k, rec)))
      ensures ch == old(ch)[k := UnlinkFrom(old(ch)[k], cfg.Home(k, rec), idx)]
    {
      var b := cfg.Home(k, rec);
      Acquire(Bucket(k, b));
      assert Represents(head[k], next[k], ch[k]);
      IsShaped();
      hide Wired, Fitted, Spells, Config.Valid, UnlinkFrom, Represents;
      var _ := ChainUnlink(k, b, idx);
      Release(Bucket(k, b));
    }

    /** Take slot idx back out of the keys below n, and give it back. */
    method Retract(idx: nat, rec: Bytes, n: nat, ghost ch0: seq<seq<seq<nat>>>) returns (k: nat)
      requires Linked() && n <= |cfg.keys| == |ch0| && OnlyRowsAnd(Struct) && idx < |slots| && idx !in free
      requires (forall k :: 0 <= k < |ch0| ==> |ch0[k]| == cfg.nbuckets) && ch == O.LinkBelow(cfg, ch0, idx, rec, n)
      modifies this`head, this`next, this`ch, this`held, this`trail, this`freeHead, this`freeNext, this`free
      ensures Linked() && held == old(held) && ch == ch0 && free == [idx] + old(free)
      ensures trail == old(trail) + K.Touches(K.BucketsOf(cfg, rec, O.Countdown(n)))
      ensures (k + 1) % U32 == 0
    {
      hide Wired, Fitted, K.Touches, K.BucketsOf, KeyOps.Contract;
      k := UnlinkKeys(idx, rec, n, ch0);
      FreeSlot(idx);
    }

    /** The part of an insert that has its slot: fill it, link it, and publish it or
        give it back. */
    method Install(idx: nat, rec: Bytes, ghost t: T.Table, ghost mem: bool) returns (code: Code, slot: int, errkey: nat)
      requires Linked() && OnlyRowsAnd(Struct) && T.Inv(cfg, t) && O.Allocate(cfg, t, mem) == (Abs(), Some(idx))
      modifies this
      ensures Linked() && held == old(held) && O.Ready(cfg, t) && records == old(records) + if code == Ok then 1 else 0
      ensures O.Outcome(Abs(), code, slot, errkey) == O.InsertRow(cfg, t, rec, mem)
      ensures trail == old(trail) + K.Touches(K.BucketsOf(cfg, rec, O.Visits(cfg, t, rec)))
    {
      hide Wired, Fitted, Spells, T.Inv, T.Dup, T.Rows, Absent, O.InsertRow, O.Allocate, Config.Valid, K.Touches,
           K.BucketsOf, O.Visits;
      ghost var t1 := Abs();
      O.InsertByParts(cfg, t, rec, mem, t1, idx);
      O.LinkEnds(cfg, t.ch, idx, rec);
      slots := slots[idx := slots[idx].(image := rec)];
      assert Abs() == O.Filled(t1, idx, rec);
      var n := LinkKeys(idx, rec);
      K.VisitsAre(cfg, t, rec, n);
      if n < |cfg.keys| {
        var k := Retract(idx, rec, n, t.ch);
        code, slot, errkey := DupKey, NIL, (k + 1) % U32;
      } else {
        slots := slots[idx := slots[idx].(state := Active)];
        assert slots == t1.slots[idx := t1.slots[idx].(image := rec, state := Active)];
        records := records + 1;
        code, slot, errkey := Ok, idx, 0;
      }
    }

    /** The acts of an insert into table t. */
    /** The buckets an insert goes through, none if it gets no slot. */
    ghost function Visited(t: T.Table, rec: Bytes, mem: bool): (ks: seq<nat>)
      requires O.Ready(cfg, t)
      ensures forall j :: 0 <= j < |ks| ==> ks[j] < |cfg.keys|
    {
      if O.Allocate(cfg, t, mem).1.None? then [] else O.Visits(cfg, t, rec)
    }

    method InsertRow(rec: Bytes, mem: bool) returns (code: Code, slot: int, errkey: nat)
      requires Valid() && OnlyRows()
      modifies this
      ensures Valid() && held == old(held) && O.Ready(cfg, old(Abs()))
      ensures O.Outcome(Abs(), code, slot, errkey) == O.InsertRow(cfg, old(Abs()), rec, mem)
      ensures trail == old(trail) + K.ActsOf(cfg, K.Insert(rec, Visited(old(Abs()), rec, mem)))
      ensures trail == old(trail) + K.JobActs(cfg, K.Write(rec, Visited(old(Abs()), rec, mem)))
      ensures |old(slots)| <= |slots| && (code == Ok ==> 0 <= slot < |slots|)
      ensures forall i :: 0 <= i < |old(slots)| && old(slots)[i].state == Active ==> slots[i] == old(slots)[i]
    {
      hide Wired, Fitted, Spells, T.Inv, T.Rows, O.InsertRow, O.Allocate, Config.Valid, K.Touches, K.BucketsOf,
           O.Visits;
      ghost var t := Abs();
      O.InsertTouches(cfg, t, rec, mem);
      O.InsertCounts(cfg, t, rec, mem);
      K.TouchNone(cfg, rec, []);
      Acquire(Struct);
      var idx := AllocSlot(mem);
      if idx == NIL {
        code, slot, errkey := if |slots| / T.CHUNK >= T.Cap(cfg) then Full else NoMem, NIL, 0;
      } else {
        code, slot, errkey := Install(idx, rec, t, mem);
      }
      Release(Struct);
    }

    // ----- update --------------------------------------------------------------------

    method AcquireAll(a: array<Lock>, nl: nat)
      requires nl <= a.Length && Sorted(a[..nl]) && (forall j :: 0 <= j < nl ==> InRange(a[j]))
      requires OnlyRows()
      modifies this`held, this`trail
      ensures trail == old(trail) + K.Takes(Firsts(a[..nl], nl)) && held == old(held) + LocksIn(a[..nl])
    {
      hide Sorted, HandlerRank, K.Takes, Above;
      ghost var s := a[..nl];
      K.NoActs();
      var i := 0;
      while i < nl
        invariant i <= nl && trail == old(trail) + K.Takes(Firsts(s, i)) && held == old(held) + LocksIn(s[..i])
      {
        FirstsNext(s, i, {});
        hide Firsts, LocksIn, InRange;
        if i == 0 || a[i] != a[i - 1] {
          Acquire(a[i]);
        }
        i := i + 1;
      }
      assert s[..nl] == s;
    }

    /** Every exit releases in reverse order, again skipping duplicates. */
    method ReleaseAll(a: array<Lock>, nl: nat)
      requires nl <= a.Length && Sorted(a[..nl]) && (forall j :: 0 <= j < nl ==> InRange(a[j]))
      requires forall j :: 0 <= j < nl ==> a[j] in held
      modifies this`held, this`trail
      ensures held == old(held) - LocksIn(a[..nl]) && trail == old(trail) + K.Gives(Firsts(a[..nl], nl))
    {
      hide Sorted, HandlerRank, K.Gives;
      ghost var s, rest, done := a[..nl], held - LocksIn(a[..nl]), [];
      var j := nl;
      K.NoActs();
      assert s[..nl] == s;
      assert held == rest + LocksIn(s[..j]);
      while j > 0
        invariant j <= nl && held == rest + LocksIn(s[..j])
        invariant trail == old(trail) + done && done + K.Gives(Firsts(s, j)) == K.Gives(Firsts(s, nl))
      {
        j := j - 1;
        FirstsNext(s, j, rest);
        hide Firsts, LocksIn;
        if j == 0 || a[j] != a[j - 1] {
          Release(a[j]);
          assert done + ([P.Give(s[j])] + K.Gives(Firsts(s, j))) == (done + [P.Give(s[j])]) + K.Gives(Firsts(s, j));
          done := done + [P.Give(s[j])];
        }
      }
    }

    /** Collect, sort and take the bucket locks of the changed keys: exactly the
        old and new buckets, once each, in ascending order. */
    method LockBuckets(ks: seq<nat>, was: Bytes, now: Bytes) returns (a: array<Lock>, nl: nat)
      requires cfg.Valid() && OnlyRows() && ks == Changed(cfg, was, now)
      modifies this`held, this`trail
      ensures fresh(a) && Prepared(cfg, a, nl, was, now) && Firsts(a[..nl], nl) == Locks(cfg, was, now)
      ensures trail == old(trail) + K.Takes(Locks(cfg, was, now)) && held == old(held) + LocksIn(Locks(cfg, was, now))
    {
      hide Sorted, Locks, Firsts, Config.Valid, K.Takes;
      a, nl := Prepare(cfg, ks, was, now);
      AcquireAll(a, nl);
    }

    /** The duplicate checks of an update, for the changed keys in turn. */
    method CheckDups(ks: seq<nat>, now: Bytes) returns (dup: Option<nat>)
      requires Linked() && forall j :: 0 <= j < |ks| ==> ks[j] < |cfg.keys|
      ensures dup == O.FirstDup(cfg, Abs(), ks, now)
    {
      hide Wired, Fitted, Spells, T.Dup, Config.Valid;
      var n := 0;
      assert ks[0..] == ks;
      while n < |ks|
        invariant n <= |ks| && O.FirstDup(cfg, Abs(), ks, now) == O.FirstDup(cfg, Abs(), ks[n..], now)
      {
        assert ks[n..][0] == ks[n] && ks[n..][1..] == ks[n + 1..];
        var code := DupCheck(ks[n], cfg.Home(ks[n], now), now);
        if code != Ok {
          return Some(ks[n]);
        }
        n := n + 1;
      }
      return None;
    }

    /** Move slot idx from its old to its new bucket under one key. */
    method Rechain(k: nat, idx: nat, was: Bytes, now: Bytes)
      requires Shaped() && k < |cfg.keys| && idx < |slots| && Represents(head[k], next[k], ch[k])
      modifies this`head, this`next, this`ch
      ensures Shaped() && head == old(head)[k := head[k]] && next == old(next)[k := next[k]]
      ensures ch == old(ch)[k := LinkIn(UnlinkFrom(old(ch)[k], cfg.Home(k, was), idx), cfg.Home(k, now), idx)]
      ensures Shifted(old(ch)[k], old(head)[k], old(next)[k], ch[k], head[k], next[k], cfg.Home(k, was),
                cfg.Home(k, now), idx)
    {
      var bold := cfg.Home(k, was);
      RemoveContent(ch[k][bold], idx);
      assert OnlyIn(ch[k], idx, bold) ==> Absent(UnlinkFrom(ch[k], bold, idx), idx);
      hide Wired, Fitted, Spells, Represents, Remove, Distinct, Config.Valid, UnlinkFrom, LinkIn, Absent;
      var _ := ChainUnlink(k, bold, idx);
      ChainLink(k, cfg.Home(k, now), idx);
    }

    /** A commit that started from the cells and chains h, x and c has moved slot idx under
        the keys ks. */
    ghost predicate MovedTo(h: seq<seq<int>>, x: seq<seq<int>>, c: seq<seq<seq<nat>>>,
                            idx: nat, was: Bytes, now: Bytes, ks: seq<nat>)
      reads this`slots, this`freeHead, this`freeNext, this`head, this`next, this`free, this`ch
    {
      && Shaped() && idx < |slots| && Wired(cfg, |slots|, h, x, c) && ch == O.MoveBelow(cfg, c, idx, was, now, ks)
      && forall k :: 0 <= k < |cfg.keys| ==>
           if k in ks
           then Shifted(c[k], h[k], x[k], ch[k], head[k], next[k], cfg.Home(k, was), cfg.Home(k, now), idx)
           else head[k] == h[k] && next[k] == x[k]
    }

    /** One round of the commit loop. */
    method MoveNext(ks: seq<nat>, n: nat, idx: nat, was: Bytes, now: Bytes,
                    ghost h: seq<seq<int>>, ghost x: seq<seq<int>>, ghost c: seq<seq<seq<nat>>>)
      requires n < |ks| && ks[n] < |cfg.keys| && ks[n] !in ks[..n] && MovedTo(h, x, c, idx, was, now, ks[..n])
      modifies this`head, this`next, this`ch
      ensures MovedTo(h, x, c, idx, was, now, ks[..n + 1])
    {
      hide Spells, Config.Valid, LinkIn, UnlinkFrom, Represents, Shifted, KeyOps.Contract;
      var k := ks[n];
      assert |c[k]| == cfg.nbuckets && |head| == |next| == |ch| == |cfg.keys|;
      hide O.MoveBelow;
      O.MoveNext(cfg, c, idx, was, now, ks, n);
      assert Represents(head[k], next[k], ch[k]);
      Rechain(k, idx, was, now);
      assert ks[..n + 1] == ks[..n] + [k];
    }

    method MoveKeys(ks: seq<nat>, idx: nat, was: Bytes, now: Bytes)
      requires Linked() && ks == Changed(cfg, was, now) && idx < |slots|
      modifies this`head, this`next, this`ch
      ensures MovedTo(old(head), old(next), old(ch), idx, was, now, ks) && ch == O.MoveAll(cfg, old(ch), idx, was, now)
    {
      IsShaped();
      O.MoveEnds(cfg, ch, idx, was, now);
      assert ks[..0] == [];
      assert MovedTo(head, next, ch, idx, was, now, ks[..0]);
      var n := 0;
      while n < |ks|
        invariant n <= |ks| && MovedTo(old(head), old(next), old(ch), idx, was, now, ks[..n])
      {
        hide MovedTo, KeyOps.Contract;
        assert ks[n] in ks;
        MoveNext(ks, n, idx, was, now, old(head), old(next), old(ch));
        n := n + 1;
      }
      assert ks[..n] == ks;
    }

    lemma IsShaped()
      requires Linked()
      ensures Shaped()
    {
    }

    /** The cells after an accepted update, key by key. */
    ghost predicate Recells(t: T.Table, h: seq<seq<int>>, x: seq<seq<int>>, idx: nat, was: Bytes, now: Bytes)
      reads this`head, this`next
    {
      && cfg.nbuckets > 0 && idx < |t.slots| && |head| == |next| == |h| == |x| == |t.ch| == |cfg.keys|
      && forall k :: 0 <= k < |cfg.keys| ==>
           && |h[k]| == cfg.nbuckets && idx < |x[k]|
           && O.Recelled(cfg, k, t.ch[k], idx, t.slots[idx].image, was, now, h[k], x[k], head[k], next[k])
    }

    /** What the outcome o of an update of slot idx in table t, with cells h and x, has
        made of the store.  Its rows are as o says.  The cells lead to all of them, and
        the store is in order, if and only if the old record was good enough; then its
        chains are as o says, too.  In any case the cells are known key by key. */
    ghost predicate Updated(o: O.Outcome, t: T.Table, h: seq<seq<int>>, x: seq<seq<int>>, idx: nat, was: Bytes,
                            now: Bytes)
      requires cfg.nbuckets > 0 && idx < |t.slots|
      reads this`slots, this`freeHead, this`freeNext, this`head, this`next, this`free, this`ch, this`records
    {
      && slots == o.t.slots && free == o.t.free
      && (Sound() <==> (o.code == Ok ==> O.Rechains(cfg, t.slots[idx], was, now)))
      && (Valid() <==> Sound()) && (Valid() ==> Abs() == o.t)
      && if o.code == Ok then Recells(t, h, x, idx, was, now) else head == h && next == x
    }

    /** The commit loop has written the cells an update is to write. */
    lemma MovedRecells(t: T.Table, h: seq<seq<int>>, x: seq<seq<int>>, idx: nat, was: Bytes, now: Bytes)
      requires T.Inv(cfg, t) && O.Ready(cfg, t) && T.IsActive(t.slots, idx) && |slots| == |t.slots|
      requires MovedTo(h, x, t.ch, idx, was, now, Changed(cfg, was, now)) && ch == O.MoveAll(cfg, t.ch, idx, was, now)
      ensures Recells(t, h, x, idx, was, now)
      ensures O.Rechains(cfg, t.slots[idx], was, now) ==> Linked()
    {
      O.RewrittenCounts(cfg, t, idx, was, now);
      hide T.Inv, Spells, Represents, O.Rewritten, KeyOps.Contract, T.Rows;
      forall k | 0 <= k < |cfg.keys|
        ensures O.Recelled(cfg, k, t.ch[k], idx, t.slots[idx].image, was, now, h[k], x[k], head[k], next[k])
        ensures O.Rechains(cfg, t.slots[idx], was, now) ==> Represents(head[k], next[k], ch[k])
      {
        assert k in Changed(cfg, was, now) <==> !cfg.Same(k, was, now);
        assert cfg.Home(k, was) == cfg.Home(k, t.slots[idx].image) ==> OnlyIn(t.ch[k], idx, cfg.Home(k, was));
        assert ch[k] == T.MoveKey(cfg, k, t.ch[k], idx, was, now);
      }
    }

    /** The cells decide whether the store is in order. */
    lemma Settles(t: T.Table, h: seq<seq<int>>, x: seq<seq<int>>, idx: nat, was: Bytes, now: Bytes)
      requires T.Inv(cfg, t) && O.Ready(cfg, t) && T.IsActive(t.slots, idx) && Wired(cfg, |t.slots|, h, x, t.ch)
      requires Abs() == O.Rewritten(cfg, t, idx, was, now) && records == |T.Rows(t.slots)|
      requires Recells(t, h, x, idx, was, now) && (O.Rechains(cfg, t.slots[idx], was, now) ==> Linked())
      ensures Updated(O.Outcome(O.Rewritten(cfg, t, idx, was, now), Ok, NIL, 0), t, h, x, idx, was, now)
    {
      hide T.Inv, Spells, Represents, O.Rewritten, KeyOps.Contract, T.Rows, O.Recelled, O.KeySound, O.Rechains;
      O.RewrittenCounts(cfg, t, idx, was, now);
      O.CellsSoundIff(cfg, t, idx, was, now, h, x, head, next);
      if Valid() { ValidIsSound(); }
    }

    /** An update that is refused leaves everything alone. */
    lemma Untouched(o: O.Outcome, idx: nat, was: Bytes, now: Bytes)
      requires Valid() && o.t == Abs() && o.code != Ok && idx < |slots|
      ensures Updated(o, Abs(), head, next, idx, was, now)
    {
      ValidIsSound();
    }

    /** The image write and the re-chaining of an accepted update. */
    method Commit(ks: seq<nat>, idx: nat, was: Bytes, now: Bytes)
      requires Valid() && ks == Changed(cfg, was, now) && T.IsActive(slots, idx)
      modifies this`slots, this`head, this`next, this`ch
      ensures Updated(O.Outcome(O.Rewritten(cfg, old(Abs()), idx, was, now), Ok, NIL, 0), old(Abs()), old(head),
                old(next), idx, was, now)
    {
      hide T.Inv, T.Rows, Config.Valid, O.MoveAll, O.Rechains, Spells, MovedTo, Recells, Wired, Updated, Fitted,
           Changed;
      ghost var t, h, x := Abs(), head, next;
      slots := slots[idx := O.Written(slots[idx], now)];
      MoveKeys(ks, idx, was, now);
      MovedRecells(t, h, x, idx, was, now);
      Settles(t, h, x, idx, was, now);
    }

    /** The dup checks and the commit of an update whose slot test has passed. */
    method CheckedCommit(ks: seq<nat>, idx: nat, gen: nat, was: Bytes, now: Bytes) returns (code: Code, errkey: nat)
      requires Valid() && ks == Changed(cfg, was, now) && idx < |slots| && slots[idx].Accepts(gen)
      modifies this`slots, this`head, this`next, this`ch
      ensures var o := O.UpdateLocked(cfg, old(Abs()), idx, gen, was, now);
              code == o.code && errkey == o.errkey && Updated(o, old(Abs()), old(head), old(next), idx, was, now)
    {
      hide Linked, T.Inv, T.Rows, Config.Valid, O.Rewritten, O.Rechains, O.FirstDup, Updated;
      IsReady();
      var dup := CheckDups(ks, now);
      if dup.Some? {
        Untouched(O.UpdateLocked(cfg, Abs(), idx, gen, was, now), idx, was, now);
        return DupKey, dup.value + 1;
      }
      Commit(ks, idx, was, now);
      return Ok, 0;
    }

    /** Update under a wlock the caller holds. */
    method UpdateRowLocked(idx: nat, gen: nat, was: Bytes, now: Bytes) returns (code: Code, errkey: nat)
      requires Valid() && OnlyRows() && Row(idx) in held && idx < |slots|
      modifies this
      ensures held == old(held)
      ensures var o := O.UpdateLocked(cfg, old(Abs()), idx, gen, was, now);
              code == o.code && errkey == o.errkey && Updated(o, old(Abs()), old(head), old(next), idx, was, now)
      ensures trail == old(trail) + if old(slots[idx].Accepts(gen)) then K.JobActs(cfg, K.UpdateLocked(was, now))
                else []
    {
      hide T.Inv, Wired, Fitted, Spells, T.Rows, O.Rewritten, O.Rechains, O.FirstDup, Locks, KeyOps.Contract, K.Takes,
           K.Gives;
      if !slots[idx].Accepts(gen) {
        Untouched(O.UpdateLocked(cfg, Abs(), idx, gen, was, now), idx, was, now);
        return Gone, 0;
      }
      var ks := ChangedKeys(cfg, was, now);
      if ks == [] {
        NoLocks(cfg, was, now);
        K.NoActs();
        Commit(ks, idx, was, now);
        return Ok, 0;
      }
      code, errkey := KeyChangeLocked(ks, idx, gen, was, now);
    }

    method KeyChangeLocked(ks: seq<nat>, idx: nat, gen: nat, was: Bytes, now: Bytes) returns (code: Code, errkey: nat)
      requires Valid() && OnlyRows() && idx < |slots| && slots[idx].Accepts(gen) && ks == Changed(cfg, was, now)
      modifies this
      ensures held == old(held)
      ensures var o := O.UpdateLocked(cfg, old(Abs()), idx, gen, was, now);
              code == o.code && errkey == o.errkey && Updated(o, old(Abs()), old(head), old(next), idx, was, now)
      ensures trail == old(trail) + K.UpdateLockedActs(Locks(cfg, was, now))
    {
      hide Updated, T.Inv, Wired, Fitted, Spells, T.Rows, O.UpdateLocked, O.Rechains, Locks, KeyOps.Contract, K.Takes,
           K.Gives;
      var a, nl := LockBuckets(ks, was, now);
      hide Sorted, Config.Valid;
      code, errkey := CheckedCommit(ks, idx, gen, was, now);
      ReleaseAll(a, nl);
    }

    /** Under its own wlock, test the slot and commit. */
    method LockedCommit(ks: seq<nat>, idx: nat, gen: nat, was: Bytes, now: Bytes) returns (code: Code)
      requires Valid() && ks == Changed(cfg, was, now) && idx < |slots| && Row(idx) !in held
      modifies this
      ensures held == old(held) && trail == old(trail) + K.Touch(Row(idx))
      ensures code == if old(slots)[idx].Accepts(gen) then Ok else Gone
      ensures var t := if code == Ok then O.Rewritten(cfg, old(Abs()), idx, was, now) else old(Abs());
              Updated(O.Outcome(t, code, NIL, 0), old(Abs()), old(head), old(next), idx, was, now)
    {
      hide T.Inv, Wired, Fitted, Spells, T.Rows, O.Rewritten, O.Rechains, Config.Valid, Updated;
      Acquire(Row(idx));
      code := Gone;
      if slots[idx].Accepts(gen) {
        Commit(ks, idx, was, now);
        code := Ok;
      } else {
        Untouched(O.Outcome(Abs(), Gone, NIL, 0), idx, was, now);
      }
      Release(Row(idx));
    }

    /** The checks and the commit of an update that holds its bucket locks only. */
    method CheckedLockedCommit(ks: seq<nat>, idx: nat, gen: nat, was: Bytes, now: Bytes)
      returns (code: Code, errkey: nat)
      requires Valid() && ks == Changed(cfg, was, now) && idx < |slots| && Row(idx) !in held
      modifies this
      ensures held == old(held)
      ensures var o := O.Update(cfg, old(Abs()), idx, gen, was, now);
              code == o.code && errkey == o.errkey && Updated(o, old(Abs()), old(head), old(next), idx, was, now)
      ensures trail == old(trail) + if code == DupKey then [] else K.Touch(Row(idx))
    {
      hide Linked, T.Inv, T.Rows, O.Rewritten, O.Rechains, O.FirstDup, Config.Valid, K.Touch, Updated;
      errkey := 0;
      IsReady();
      var dup := CheckDups(ks, now);
      if dup.Some? {
        Untouched(O.Update(cfg, Abs(), idx, gen, was, now), idx, was, now);
        code, errkey := DupKey, dup.value + 1;
      } else {
        code := LockedCommit(ks, idx, gen, was, now);
      }
    }

    /** The key-change path: bucket locks, checks, wlock, commit. */
    method KeyChange(ks: seq<nat>, idx: nat, gen: nat, was: Bytes, now: Bytes) returns (code: Code, errkey: nat)
      requires ks == Changed(cfg, was, now)
      requires Valid() && OnlyRows() && Row(idx) !in held && idx < |slots|
      modifies this
      ensures held == old(held)
      ensures var o := O.Update(cfg, old(Abs()), idx, gen, was, now);
              code == o.code && errkey == o.errkey && Updated(o, old(Abs()), old(head), old(next), idx, was, now)
      ensures trail == old(trail) + K.UpdateActs(Locks(cfg, was, now), idx, code == DupKey)
    {
      hide Updated, T.Inv, Wired, Fitted, Spells, T.Rows, O.Update, O.Rechains, Locks, KeyOps.Contract, K.Takes,
           K.Gives, K.Touch;
      var a, nl := LockBuckets(ks, was, now);
      hide Sorted, Config.Valid;
      code, errkey := CheckedLockedCommit(ks, idx, gen, was, now);
      ReleaseAll(a, nl);
    }

    /** Update that takes the wlock itself, after the bucket locks. */
    method UpdateRow(idx: nat, gen: nat, was: Bytes, now: Bytes) returns (code: Code, errkey: nat)
      requires Valid() && OnlyRows() && Row(idx) !in held && idx < |slots|
      modifies this
      ensures held == old(held)
      ensures var o := O.Update(cfg, old(Abs()), idx, gen, was, now);
              code == o.code && errkey == o.errkey && Updated(o, old(Abs()), old(head), old(next), idx, was, now)
      ensures trail == old(trail) + K.ActsOf(cfg, K.Update(was, now, idx, code == DupKey))
    {
      hide T.Inv, Wired, Fitted, Spells, T.Rows, O.Rewritten, O.Rechains, O.FirstDup, Locks, KeyOps.Contract, K.Takes,
           K.Gives, K.Touch;
      var ks := ChangedKeys(cfg, was, now);
      if ks == [] {
        NoLocks(cfg, was, now);
        K.NoActs();
        code := LockedCommit(ks, idx, gen, was, now);
        errkey := 0;
        assert [] + K.Touch(Row(idx)) + [] == K.Touch(Row(idx));
      } else {
        code, errkey := KeyChange(ks, idx, gen, was, now);
      }
    }

    // ----- delete --------------------------------------------------------------------

    /** Take slot idx out of every key, one bucket lock at a time. */
    method UnlinkRow(idx: nat, rec: Bytes)
      requires Linked() && OnlyRows()
      modifies this`head, this`next, this`ch, this`held, this`trail
      ensures Linked() && held == old(held) && ch == O.UnlinkAll(cfg, old(ch), idx, rec)
      ensures trail == old(trail) + K.Touches(K.BucketsOf(cfg, rec, O.Range(0, |cfg.keys|)))
    {
      hide Wired, Fitted, Spells, Config.Valid, UnlinkFrom, K.Touches, K.BucketsOf, K.Touch;
      ghost var ks := O.Range(0, |cfg.keys|);
      K.TouchNone(cfg, rec, ks);
      O.UnlinkEnds(cfg, ch, idx, rec);
      hide O.UnlinkBelow;
      var k := 0;
      while k < |cfg.keys|
        invariant Linked() && held == old(held) && 0 <= k <= |cfg.keys|
        invariant ch == O.UnlinkBelow(cfg, old(ch), idx, rec, k)
        invariant trail == old(trail) + K.Touches(K.BucketsOf(cfg, rec, ks[..k]))
      {
        K.TouchMore(cfg, rec, ks, k);
        O.UnlinkNext(cfg, old(ch), idx, rec, k);
        UnlinkVisit(k, idx, rec);
        k := k + 1;
      }
      assert ks[..k] == ks;
    }

    /** The end of a delete: the slot is dead, its generation moves on, and it
        goes to the head of the freelist. */
    method Retire(idx: nat)
      requires Linked() && OnlyRows() && idx < |slots| && idx !in free
      modifies this`slots, this`records, this`held, this`trail, this`freeHead, this`freeNext, this`free
      ensures Linked() && held == old(held) && trail == old(trail) + K.Touch(Struct)
      ensures records == old(records) - 1 && free == [idx] + old(free)
      ensures slots == old(slots)[idx := old(slots)[idx].(state := Deleted, bumps := old(slots)[idx].bumps + 1)]
    {
      hide Wired, Fitted, Spells, Config.Valid;
      slots := slots[idx := slots[idx].(state := Deleted)];
      slots := slots[idx := slots[idx].(bumps := slots[idx].bumps + 1)];
      records := records - 1;
      Acquire(Struct);
      FreeSlot(idx);
      Release(Struct);
    }

    /** The common part of both deletes, from the DELETING mark on. */
    method Recycle(idx: nat, ghost gen: nat, ghost t: T.Table)
      requires Linked() && OnlyRows() && T.Inv(cfg, t) && records == |T.Rows(t.slots)|
      requires idx < |t.slots| && t.slots[idx].Accepts(gen)
               && Abs() == t.(slots := t.slots[idx := t.slots[idx].(state := Deleting)])
      modifies this
      ensures Valid() && held == old(held) && O.Ready(cfg, t) && Abs() == O.DeleteRow(cfg, t, idx, gen).t
      ensures trail == old(trail) + K.EraseActs(cfg, t.slots[idx].image)
    {
      hide T.Inv, Wired, Fitted, Spells, T.Rows, Config.Valid, O.UnlinkAll, K.Touches, K.BucketsOf, K.Touch;
      O.DeleteCounts(cfg, t, idx, gen);
      var scratch := slots[idx].image;
      UnlinkRow(idx, scratch);
      Retire(idx);
      assert slots == O.DeleteRow(cfg, t, idx, gen).t.slots;
    }

    /** Delete under a wlock the caller holds and keeps. */
    method DeleteRowLocked(idx: nat, gen: nat) returns (code: Code)
      requires Valid() && OnlyRows() && Row(idx) in held && idx < |slots|
      modifies this
      ensures Valid() && held == old(held)
      ensures O.Outcome(Abs(), code, NIL, 0) == O.DeleteRow(cfg, old(Abs()), idx, gen)
      ensures trail == old(trail) + if code == Ok then K.JobActs(cfg, K.DeleteLocked(old(slots)[idx].image)) else []
    {
      hide T.Inv, Wired, Fitted, Spells, T.Rows, Config.Valid, K.EraseActs;
      if !slots[idx].Accepts(gen) {
        return Gone;
      }
      ghost var t := Abs();
      slots := slots[idx := slots[idx].(state := Deleting)];
      Recycle(idx, gen, t);
      return Ok;
    }

    /** Delete that gives its wlock up as soon as the slot is marked. */
    method DeleteRow(idx: nat, gen: nat) returns (code: Code)
      requires Valid() && OnlyRows() && Row(idx) !in held && idx < |slots|
      modifies this
      ensures Valid() && held == old(held)
      ensures O.Outcome(Abs(), code, NIL, 0) == O.DeleteRow(cfg, old(Abs()), idx, gen)
      ensures trail == old(trail) + K.ActsOf(cfg, K.Delete(idx, old(slots)[idx].image, code == Ok))
    {
      hide T.Inv, Wired, Fitted, Spells, T.Rows, Config.Valid, K.EraseActs;
      Acquire(Row(idx));
      if !slots[idx].Accepts(gen) {
        Release(Row(idx));
        return Gone;
      }
      ghost var t := Abs();
      slots := slots[idx := slots[idx].(state := Deleting)];
      Release(Row(idx));
      Recycle(idx, gen, t);
      return Ok;
    }

    // ----- clear ---------------------------------------------------------------------

    /** Empty every bucket, one lock at a time. */
    method ClearHeads()
      requires Linked() && OnlyRowsAnd(Struct)
      modifies this`head, this`ch, this`held, this`trail
      ensures Linked() && held == old(held) && ch == O.NoChains(cfg)
      ensures trail == old(trail) + K.Touches(K.AllBuckets(cfg, |cfg.keys|))
    {
      hide Wired, Fitted, Spells, Config.Valid, K.Touches;
      K.NoActs();
      var k := 0;
      while k < |cfg.keys|
        invariant 0 <= k <= |cfg.keys| && Linked() && held == old(held)
        invariant forall j, b :: 0 <= j < k && 0 <= b < cfg.nbuckets ==> ch[j][b] == []
        invariant trail == old(trail) + K.Touches(K.AllBuckets(cfg, k))
      {
        K.TouchesConcat(K.AllBuckets(cfg, k), K.KeyBuckets(k, cfg.nbuckets));
        ClearKey(k);
        k := k + 1;
      }
      forall j | 0 <= j < |cfg.keys| ensures ch[j] == O.NoChains(cfg)[j] {
      }
    }

    method ClearKey(k: nat)
      requires Linked() && OnlyRowsAnd(Struct) && k < |cfg.keys|
      modifies this`head, this`ch, this`held, this`trail
      ensures Linked() && held == old(held) && (forall b :: 0 <= b < cfg.nbuckets ==> ch[k][b] == [])
      ensures forall j :: 0 <= j < |cfg.keys| && j != k ==> ch[j] == old(ch)[j]
      ensures trail == old(trail) + K.Touches(K.KeyBuckets(k, cfg.nbuckets))
    {
      hide Wired, Fitted, Spells, Config.Valid, K.Touches;
      K.NoActs();
      var b := 0;
      assert K.KeyBuckets(k, 0) == [];
      while b < cfg.nbuckets
        invariant 0 <= b <= cfg.nbuckets && Linked() && held == old(held)
        invariant forall c :: 0 <= c < b ==> ch[k][c] == []
        invariant forall j :: 0 <= j < |cfg.keys| && j != k ==> ch[j] == old(ch)[j]
        invariant trail == old(trail) + K.Touches(K.KeyBuckets(k, b))
      {
        K.Grown(K.KeyBuckets(k, b), Bucket(k, b));
        assert K.KeyBuckets(k, b + 1) == K.KeyBuckets(k, b) + [Bucket(k, b)];
        EmptyBucket(k, b);
        b := b + 1;
      }
    }

    method EmptyBucket(k: nat, b: nat)
      requires Linked() && k < |cfg.keys| && b < cfg.nbuckets && Bucket(k, b) !in held
      modifies this`head, this`ch, this`held, this`trail
      ensures Linked() && held == old(held) && trail == old(trail) + K.Touch(Bucket(k, b))
      ensures ch == old(ch)[k := old(ch)[k][b := []]]
    {
      Acquire(Bucket(k, b));
      assert Represents(head[k], next[k], ch[k]);
      assert Represents(head[k][b := NIL], next[k], ch[k][b := []]);
      head := head[k := head[k][b := NIL]];
      ch := ch[k := ch[k][b := []]];
      Release(Bucket(k, b));
    }

    /** Free every slot, under its wlock, with a new generation. */
    method WipeSlots()
      requires Linked() && forall l :: l in held ==> l == Struct
      modifies this`slots, this`held, this`trail
      ensures Linked() && held == old(held) && slots == O.Wiped(old(slots))
      ensures trail == old(trail) + K.Touches(K.RowsBelow(|slots|))
    {
      hide Wired, Fitted, Spells, Config.Valid, K.Touches;
      K.NoActs();
      var i := 0;
      assert K.RowsBelow(0) == [];
      while i < |slots|
        invariant 0 <= i <= |slots| == |old(slots)| && Linked() && held == old(held)
        invariant forall j :: 0 <= j < |slots| ==>
                    slots[j] == if j < i then old(slots)[j].(state := Free, bumps := old(slots)[j].bumps + 1)
                        else old(slots)[j]
        invariant trail == old(trail) + K.Touches(K.RowsBelow(i))
      {
        K.Grown(K.RowsBelow(i), Row(i));
        assert K.RowsBelow(i + 1) == K.RowsBelow(i) + [Row(i)];
        WipeSlot(i);
        i := i + 1;
      }
    }

    method WipeSlot(i: nat)
      requires Linked() && i < |slots| && Row(i) !in held
      modifies this`slots, this`held, this`trail
      ensures Linked() && held == old(held) && trail == old(trail) + K.Touch(Row(i))
      ensures slots == old(slots)[i := old(slots)[i].(state := Free, bumps := old(slots)[i].bumps + 1)]
    {
      hide Wired, Fitted, Spells, Config.Valid;
      Acquire(Row(i));
      slots := slots[i := slots[i].(state := Free, bumps := slots[i].bumps + 1)];
      Release(Row(i));
    }

    /** Rebuild the freelist from all slots, first slot deepest. */
    method RebuildFree()
      requires Linked()
      modifies this`freeHead, this`freeNext, this`free
      ensures Linked() && free == O.Countdown(|slots|)
    {
      freeHead, free := NIL, [];
      var i := 0;
      while i < |slots|
        invariant 0 <= i <= |slots| && Linked() && free == O.Countdown(i)
      {
        FreeSlot(i);
        i := i + 1;
      }
    }

    method Clear()
      requires Valid() && held == {}
      modifies this
      ensures Valid() && held == {} && Abs() == O.ClearAll(cfg, old(Abs()))
      ensures trail == old(trail) + K.ActsOf(cfg, K.Clear(|slots|))
    {
      hide Linked, T.Inv, T.Rows, O.Wiped, O.Countdown, O.NoChains, K.Touches, K.AllBuckets, K.RowsBelow;
      O.ClearCounts(cfg, Abs());
      Acquire(Struct);
      ClearHeads();
      WipeSlots();
      RebuildFree();
      records := 0;
      Release(Struct);
      Joined(old(trail), [P.Take(Struct)], K.Touches(K.AllBuckets(cfg, |cfg.keys|)), K.Touches(K.RowsBelow(|slots|)),
          [P.Give(Struct)]);
    }
  }

  lemma Joined(s: seq<P.Act>, a: seq<P.Act>, b: seq<P.Act>, c: seq<P.Act>, d: seq<P.Act>)
    ensures s + a + b + c + d == s + (a + b + c + d)
  {
  }

  /** More cells that no chain comes to. */
  lemma MoreCells(heads: seq<int>, next: seq<int>, c: seq<seq<nat>>, more: seq<int>)
    requires Represents(heads, next, c)
    ensures Represents(heads, next + more, c)
  {
    forall b | 0 <= b < |c| ensures Spells(heads[b], next + more, c[b]) {
      assert Spells(heads[b], next, c[b]);
    }
  }

  /** One less, as an unsigned 32-bit number. */
  function Decremented(k: nat): (r: nat)
    requires k < U32
    ensures r == if k > 0 then k - 1 else U32 - 1
  {
    (k + U32 - 1) % U32
  }

  /** One entry more: a new lock, unless it repeats the entry before. */
  lemma FirstsNext(s: seq<Lock>, n: nat, rest: set<Lock>)
    requires n < |s| && Sorted(s) && (forall j :: 0 <= j < |s| ==> InRange(s[j])) && rest !! LocksIn(s)
    ensures LocksIn(s[..n + 1]) == LocksIn(s[..n]) + {s[n]} && s[n] !in rest && s[n].Bucket?
    ensures rest + LocksIn(s[..n]) == rest + LocksIn(s[..n + 1]) - if Opens(s, n) then {s[n]} else {}
    ensures Opens(s, n) <==> s[n] !in LocksIn(s[..n])
    ensures Opens(s, n) ==> K.Takes(Firsts(s, n + 1)) == K.Takes(Firsts(s, n)) + [P.Take(s[n])]
    ensures Opens(s, n) ==> K.Gives(Firsts(s, n + 1)) == [P.Give(s[n])] + K.Gives(Firsts(s, n))
    ensures !Opens(s, n) ==> Firsts(s, n + 1) == Firsts(s, n)
  {
    hide Sorted, HandlerRank, K.Takes, K.Gives, Above;
    OpensIsNew(s, n);
    assert s[n] in LocksIn(s);
    K.Grown(Firsts(s, n), s[n]);
  }

  /** What moving slot i from bucket a to bucket b makes of cells and chains. */
  ghost predicate Shifted(c: seq<seq<nat>>, heads: seq<int>, next: seq<int>,
                          c': seq<seq<nat>>, heads': seq<int>, next': seq<int>, a: nat, b: nat, i: nat)
    requires a < |c| && b < |heads| && i < |next|
  {
    && (OnlyIn(c, i, a) ==> Represents(heads', next', c'))
    && (i !in c[a] ==> heads' == heads[b := i] && next' == next[i := heads[b]])
  }

  /** Slot i is at most in bucket b. */
  ghost predicate OnlyIn(c: seq<seq<nat>>, i: nat, b: nat) {
    forall x :: 0 <= x < |c| && i in c[x] ==> x == b
  }
}
