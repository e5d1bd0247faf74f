/** What inserts, deletes, row locks and lookups come to, from the call to its end. */
module ProtocolOutcomes {
  import opened Keys
  import opened Slots
  import opened Chain
  import opened LockOrder
  import opened Protocol
  import opened ProtocolInvariant
  import opened ProtocolRuns
  import opened ProtocolTheorems
  import opened ProtocolCalls
  import E = ProtocolEffects
  import U = ProtocolUnique

  // ----- inserts ------------------------------------------------------------------------------

  /** A thread at the insert of rec. */
  predicate Inserts(pc: Pc, rec: Bytes) { (pc.Inserting? || pc.Undoing?) && pc.rec == rec }

  /** It has shown its row, or it has been refused. */
  predicate InsertDecided(pc: Pc) { pc.Undoing? || (pc.Inserting? && pc.n.InsEnd?) }

  /** An insert is refused in state s: there is no slot to be had, or rec is a duplicate. */
  ghost predicate InsertRefused(cfg: Config, s: World, rec: Bytes) {
    s.ready == 0 || s.free == [] || exists k, j :: Duplicate(cfg, s, k, j, rec)
  }

  predicate Publishes(pc: Pc) { pc.Inserting? && pc.n.InsPublish? }

  /** What a step of an insert comes to. */
  ghost predicate InsertOn(cfg: Config, s: World, t: Tid, rec: Bytes, o: Option<World>)
    requires t in s.th
  {
    o.Some? ==>
      && t in o.value.th && (Inserts(o.value.th[t].pc, rec) || (InsertDecided(s.th[t].pc) && o.value.th[t].pc.Idle?))
      && (InsertDecided(o.value.th[t].pc) && !InsertDecided(s.th[t].pc) ==>
            Publishes(s.th[t].pc) || InsertRefused(cfg, s, rec))
  }

  lemma DupExec(cfg: Config, s: World, t: Tid, rec: Bytes, i: nat, k: nat, cur: int)
    requires Runs(cfg, s, t) && s.th[t].pc == Inserting(rec, InsDup(i, k, cur)) && WalksWell(cfg, s.th[t].pc)
    ensures InsertOn(cfg, s, t, rec, ExecInsert(cfg, s, t, rec, InsDup(i, k, cur)))
  {
    hide KeyOps.Contract;
    if cur != NIL && Clash(cfg, s, k, cur, rec) { assert Duplicate(cfg, s, k, cur, rec); }
  }

  lemma PlainExec(cfg: Config, s: World, t: Tid, rec: Bytes, p: InsPc)
    requires Runs(cfg, s, t) && s.th[t].pc == Inserting(rec, p) && !p.InsDup?
    ensures InsertOn(cfg, s, t, rec, ExecInsert(cfg, s, t, rec, p))
  {
    hide KeyOps.Contract, LinkIn, Config.Home, Config.Checked, Publish, Pop, Clash, Duplicate;
  }

  lemma UndoExec(cfg: Config, s: World, t: Tid, rec: Bytes)
    requires Runs(cfg, s, t) && s.th[t].pc.Undoing? && s.th[t].pc.rec == rec
    ensures var o := ExecUndo(cfg, s, t, rec, s.th[t].pc.i, s.th[t].pc.o);
            o.Some? ==> t in o.value.th && Inserts(o.value.th[t].pc, rec) && InsertDecided(o.value.th[t].pc)
  {
    hide KeyOps.Contract, Config.Home, LinkIn, UnlinkFrom, Cut;
  }

  lemma GrowStays(s: World, t: Tid)
    requires t in s.th
    ensures var o := Grow(s, t); o.Some? ==> o.value.th == s.th && !InsertDecided(s.th[t].pc) && !s.th[t].pc.Idle?
  {
  }

  lemma InsertStep(cfg: Config, s: World, t: Tid, s': World, rec: Bytes)
    requires Step(cfg, s, t, s') && Inserts(s.th[t].pc, rec) && WalksWell(cfg, s.th[t].pc)
    ensures t in s'.th && (Inserts(s'.th[t].pc, rec) || s'.th[t].pc.Idle?)
    ensures s'.th[t].pc.Idle? ==> InsertDecided(s.th[t].pc)
    ensures InsertDecided(s'.th[t].pc) && !InsertDecided(s.th[t].pc) ==>
              Publishes(s.th[t].pc) || InsertRefused(cfg, s, rec)
  {
    hide ExecInsert, ExecUndo, WalksWell, InsertRefused, KeyOps.Contract, Grow;
    GrowStays(s, t);
    var pc := s.th[t].pc;
    if pc.Undoing? {
      UndoExec(cfg, s, t, rec);
    } else if pc.n.InsDup? {
      DupExec(cfg, s, t, rec, pc.n.i, pc.n.k, pc.n.cur);
    } else {
      PlainExec(cfg, s, t, rec, pc.n);
    }
  }

  /** In state n a thread is still at the insert of rec; and once it is decided, there was a
      step c that showed the row, or one that refused it. */
  ghost predicate InsertTold(cfg: Config, run: seq<World>, who: seq<Tid>, m: nat, n: nat, t: Tid, rec: Bytes, c: nat)
    requires n < |run| == |who| + 1 && t in run[n].th
  {
    && Inserts(run[n].th[t].pc, rec)
    && (InsertDecided(run[n].th[t].pc) ==>
          && m < c < n && who[c] == t && t in run[c].th && Inserts(run[c].th[t].pc, rec)
          && (Publishes(run[c].th[t].pc) || InsertRefused(cfg, run[c], rec)))
  }

  lemma InsertToldOn(cfg: Config, run: seq<World>, who: seq<Tid>, m: nat, n: nat, t: Tid, rec: Bytes, c: nat)
    returns (c': nat)
    requires m < n < |run| - 1 == |who| && t in run[n].th && InsertTold(cfg, run, who, m, n, t, rec, c)
    requires Step(cfg, run[n], who[n], run[n + 1]) && WalksWell(cfg, run[n].th[t].pc)
    requires t in run[n + 1].th && !run[n + 1].th[t].pc.Idle? && (who[n] != t ==> run[n + 1].th[t] == run[n].th[t])
    ensures InsertTold(cfg, run, who, m, n + 1, t, rec, c')
  {
    c' := c;
    hide Step, InsertRefused, WalksWell;
    if who[n] == t {
      InsertStep(cfg, run[n], t, run[n + 1], rec);
      if !InsertDecided(run[n].th[t].pc) { c' := n; }
    }
  }

  lemma InsertToldFirst(cfg: Config, run: seq<World>, who: seq<Tid>, m: nat, t: Tid, rec: Bytes)
    requires m < |who| && |run| == |who| + 1 && Runs(cfg, run[m], t) && run[m].th[t].pc.Idle?
    requires Begin(cfg, run[m], t, Insert(rec)) == Some(run[m + 1]) && t in run[m + 1].th
    ensures InsertTold(cfg, run, who, m, m + 1, t, rec, 0)
  {
  }

  lemma {:induction false} InsertGoesOn(cfg: Config, run: seq<World>, who: seq<Tid>, m: nat, n: nat, t: Tid, rec: Bytes)
    returns (c: nat)
    requires During(cfg, run, who, m, n, t, Insert(rec))
    ensures InsertTold(cfg, run, who, m, n, t, rec, c)
    decreases n
  {
    hide During, IsRun, Inv, Step, WalksWell, Begin, Runs, InsertTold;
    DuringMeans(cfg, run, who, m, n, t, Insert(rec));
    if n == m + 1 {
      InsertToldFirst(cfg, run, who, m, t, rec);
      c := 0;
    } else {
      Back(cfg, run, who, m, n, t, Insert(rec));
      DuringMeans(cfg, run, who, m, n - 1, t, Insert(rec));
      c := InsertGoesOn(cfg, run, who, m, n - 1, t, rec);
      RunWalksWell(cfg, run, who, n - 1, t);
      c := InsertToldOn(cfg, run, who, m, n - 1, t, rec, c);
    }
  }

  /** The step that shows an inserted row. */
  lemma ShowStep(cfg: Config, s: World, t: Tid, s': World, rec: Bytes)
    requires Inv(cfg, s) && Step(cfg, s, t, s') && Publishes(s.th[t].pc) && s.th[t].pc.rec == rec
    ensures var i := s.th[t].pc.n.i;
            && i < |s.slots| && s.slots[i].state != Active && s.slots[i].image == rec
            && s'.slots == s.slots[i := s.slots[i].(state := Active)]
  {
    U.Knowing(cfg, s, t);
    U.ShownIsHidden(cfg, s, t);
    hide Inv, KeyOps.Contract;
  }

  /** An insert from the call to its end: at some step in between one slot turned ACTIVE with
      the record it was called for, or it was refused, there being no slot to be had, or the
      record being a duplicate. */
  lemma InsertEnds(cfg: Config, run: seq<World>, who: seq<Tid>, m: nat, n: nat, t: Tid, rec: Bytes) returns (c: nat)
    requires Ends(cfg, run, who, m, n, t, Insert(rec))
    ensures m < c < n && who[c] == t && t in run[c].th
    ensures || InsertRefused(cfg, run[c], rec)
            || exists i :: 0 <= i < |run[c].slots| && run[c].slots[i].state != Active && run[c].slots[i].image == rec
                 && run[c + 1].slots == run[c].slots[i := run[c].slots[i].(state := Active)]
  {
    c := InsertGoesOn(cfg, run, who, m, n, t, rec);
    hide Inv, Step, WalksWell, InsertRefused, Begin, Runs;
    RunWalksWell(cfg, run, who, n, t);
    assert Step(cfg, run[n], who[n], run[n + 1]);
    InsertStep(cfg, run[n], t, run[n + 1], rec);
    RunInv(cfg, run, who, c);
    assert Step(cfg, run[c], who[c], run[c + 1]);
    if Publishes(run[c].th[t].pc) { ShowStep(cfg, run[c], t, run[c + 1], rec); }
  }

  // ----- lookups --------------------------------------------------------------------------------

  /** Slot j shows a row with the key, and no other thread is at work on it. */
  ghost predicate Offers(cfg: Config, s: World, t: Tid, k: nat, key: Bytes, j: nat)
    requires k < |cfg.keys|
  {
    && j < |s.slots| && s.slots[j].state == Active && cfg.keys[k].ops.matches(s.slots[j].image, key)
    && (Row(j) in s.owner ==> s.owner[Row(j)] == t)
  }

  /** It does so in every state after m and up to n. */
  ghost predicate Offered(cfg: Config, run: seq<World>, m: nat, n: nat, t: Tid, k: nat, key: Bytes, j: nat)
    requires k < |cfg.keys|
  {
    forall x :: m < x <= n && x < |run| ==> Offers(cfg, run[x], t, k, key, j)
  }

  /** Such a row is in the chain the lookup goes through. */
  lemma OfferIsChained(cfg: Config, s: World, t: Tid, k: nat, key: Bytes, j: nat)
    requires Inv(cfg, s) && t in s.th && s.th[t].pc.Finding? && k < |cfg.keys| && Offers(cfg, s, t, k, key, j)
    ensures j in s.ch[k][cfg.KeyBucket(k, key)]
  {
    assert Sized(cfg, s) by { BothSized(cfg, s); }
    MatchIsHome(cfg, k, s.slots[j].image, key);
    NoCustody(cfg, s.th[t]);
    hide Inv, KeyOps.Contract;
    if Row(j) in s.owner {
      E.RowIsSettled(cfg, s, t, j);
    } else {
      IndexOf(cfg, s);
    }
  }

  lemma MatchIsHome(cfg: Config, k: nat, rec: Bytes, key: Bytes)
    requires cfg.Valid() && k < |cfg.keys| && cfg.keys[k].ops.matches(rec, key)
    ensures cfg.Home(k, rec) == cfg.KeyBucket(k, key)
  {
    assert cfg.keys[k].ops.Contract();
  }

  lemma NoCustody(cfg: Config, th: Thread)
    requires cfg.nbuckets > 0 && th.pc.Finding?
    ensures FactsOf(cfg, th).cust.None?
  {
  }

  /** A walk begins with all of the chain ahead. */
  lemma AheadFirst(head: int, next: seq<int>, c: seq<nat>, j: nat)
    requires Spells(head, next, c) && j in c
    ensures U.Ahead(c, head, j)
  {
    var q :| 0 <= q < |c| && c[q] == j;
    assert c[0] == head;
  }

  /** What is ahead, but not here, is ahead of the next cell. */
  lemma AheadNext(head: int, next: seq<int>, c: seq<nat>, cur: int, j: nat)
    requires Spells(head, next, c) && Distinct(c) && U.Ahead(c, cur, j) && cur != j
    ensures 0 <= cur < |next| && U.Ahead(c, next[cur], j)
  {
    var p, q :| 0 <= p <= q < |c| && c[p] == cur && c[q] == j;
    assert next[c[p]] == At(c, p + 1);
    hide Spells, Distinct;
    assert 0 <= p + 1 <= q < |c| && c[p + 1] == next[cur] && c[q] == j;
  }

  /** Every row offered all the while up to state n is still ahead of cur. */
  ghost predicate StillAhead(cfg: Config, run: seq<World>, m: nat, n: nat, t: Tid, k: nat, key: Bytes, cur: int)
    requires n < |run| && k < |cfg.keys| && Sized(cfg, run[n])
  {
    forall j: nat :: Offered(cfg, run, m, n, t, k, key, j) ==> U.Ahead(run[n].ch[k][cfg.KeyBucket(k, key)], cur, j)
  }

  /** What a lookup knows in state n: while it walks, every row offered all the while is still
      ahead; at its end it has come to a row with the key, or no row was offered all the
      while. */
  ghost predicate LookTold(cfg: Config, run: seq<World>, who: seq<Tid>, m: nat, n: nat, t: Tid, k: nat, key: Bytes,
                           c: nat)
    requires n < |run| == |who| + 1 && k < |cfg.keys| && Sized(cfg, run[n])
  {
    && t in run[n].th && run[n].th[t].pc.Finding?
    && run[n].th[t].pc == Finding(k, cfg.KeyBucket(k, key), key, run[n].th[t].pc.f)
    && match run[n].th[t].pc.f
       case FindWait => true
       case FindWalk(cur) => StillAhead(cfg, run, m, n, t, k, key, cur)
       case FindEnd(found) =>
         if found == NIL then forall j: nat :: !Offered(cfg, run, m, n, t, k, key, j)
         else
           && m < c < n && who[c] == t && 0 <= found < |run[c].slots| && run[c].slots[found].state == Active
           && cfg.keys[k].ops.matches(run[c].slots[found].image, key)
  }

  lemma LessOffered(cfg: Config, run: seq<World>, m: nat, n: nat, n': nat, t: Tid, k: nat, key: Bytes)
    requires k < |cfg.keys| && m < n < n' == n + 1 < |run|
    ensures forall j: nat :: Offered(cfg, run, m, n', t, k, key, j) ==>
              Offered(cfg, run, m, n, t, k, key, j) && Offers(cfg, run[n], t, k, key, j)
  {
    hide Offers;
  }

  /** The chain a lookup goes through is its own while it walks. */
  lemma ChainStays(cfg: Config, s: World, u: Tid, s': World, t: Tid)
    requires Inv(cfg, s) && Step(cfg, s, u, s') && t in s.th && t != u && s.th[t].pc.Finding? && !s.th[t].pc.f.FindWait?
    ensures Sized(cfg, s) && Sized(cfg, s')
    ensures s.th[t].pc.k < |cfg.keys| && s.th[t].pc.b < cfg.nbuckets
    ensures s'.ch[s.th[t].pc.k][s.th[t].pc.b] == s.ch[s.th[t].pc.k][s.th[t].pc.b]
  {
    StepIsGood(cfg, s, u, s');
    hide Indexed, FreeOk, Settled, History, CustodyOk, Step, KeyOps.Contract;
    LookOwns(cfg, s, t);
    hide Inv, ThreadOk;
    assert Untouched(cfg, s, s', t);
  }

  lemma LookOwns(cfg: Config, s: World, t: Tid)
    requires Inv(cfg, s) && t in s.th && s.th[t].pc.Finding? && !s.th[t].pc.f.FindWait?
    ensures Sized(cfg, s) && s.th[t].pc.k < |cfg.keys| && s.th[t].pc.b < cfg.nbuckets
    ensures Owns(s.owner, Bucket(s.th[t].pc.k, s.th[t].pc.b), t)
  {
    hide Indexed, FreeOk, Settled, History, CustodyOk, KeyOps.Contract;
    assert ThreadOk(cfg, s, t);
  }

  lemma LookExec(cfg: Config, s: World, t: Tid, s': World, k: nat, b: nat, key: Bytes, f: FindPc)
    requires Step(cfg, s, t, s') && s.th[t].pc == Finding(k, b, key, f)
    ensures k < |cfg.keys| && b < cfg.nbuckets && t in s'.th && s'.ch == s.ch && s'.slots == s.slots
    ensures match f
            case FindWait => s'.th[t].pc == Finding(k, b, key, FindWalk(s.head[k][b]))
            case FindWalk(cur) =>
              && (cur != NIL ==> 0 <= cur < |s.slots|)
              && s'.th[t].pc == Finding(k, b, key,
                   if cur == NIL || (s.slots[cur].state == Active && cfg.keys[k].ops.matches(s.slots[cur].image, key))
                   then FindEnd(cur) else FindWalk(s.next[k][cur]))
            case FindEnd(_) => s'.th[t].pc.Idle?
  {
    hide KeyOps.Contract;
  }

  /** The cells of a bucket. */
  lemma BucketSpells(cfg: Config, s: World, k: nat, b: nat)
    requires Inv(cfg, s) && k < |cfg.keys| && b < cfg.nbuckets
    ensures Spells(s.head[k][b], s.next[k], s.ch[k][b]) && Distinct(s.ch[k][b])
  {
    hide FreeOk, Settled, History, CustodyOk, ThreadOk, KeyOps.Contract;
    assert Represents(s.head[k], s.next[k], s.ch[k]);
  }

  lemma LookBegins(cfg: Config, s: World, t: Tid, k: nat, key: Bytes, j: nat)
    requires Inv(cfg, s) && t in s.th && s.th[t].pc.Finding? && k < |cfg.keys| && Offers(cfg, s, t, k, key, j)
    ensures U.Ahead(s.ch[k][cfg.KeyBucket(k, key)], s.head[k][cfg.KeyBucket(k, key)], j)
  {
    OfferIsChained(cfg, s, t, k, key, j);
    BucketSpells(cfg, s, k, cfg.KeyBucket(k, key));
    hide Inv, Offers, Spells;
    AheadFirst(s.head[k][cfg.KeyBucket(k, key)], s.next[k], s.ch[k][cfg.KeyBucket(k, key)], j);
  }

  lemma LookWalksOn(cfg: Config, s: World, k: nat, b: nat, cur: int, j: nat)
    requires Inv(cfg, s) && k < |cfg.keys| && b < cfg.nbuckets && U.Ahead(s.ch[k][b], cur, j) && cur != j
    ensures 0 <= cur < |s.next[k]| && U.Ahead(s.ch[k][b], s.next[k][cur], j)
  {
    BucketSpells(cfg, s, k, b);
    hide Inv, Spells;
    AheadNext(s.head[k][b], s.next[k], s.ch[k][b], cur, j);
  }

  /** Under another thread's step. */
  lemma AheadKept(cfg: Config, run: seq<World>, u: Tid, m: nat, n: nat, n': nat, t: Tid, k: nat, key: Bytes, cur: int)
    requires m < n < n' == n + 1 < |run| && Inv(cfg, run[n]) && Step(cfg, run[n], u, run[n']) && k < |cfg.keys|
    requires Sized(cfg, run[n]) && Sized(cfg, run[n']) && StillAhead(cfg, run, m, n, t, k, key, cur) && t != u
    requires t in run[n].th && run[n].th[t].pc == Finding(k, cfg.KeyBucket(k, key), key, FindWalk(cur))
    ensures StillAhead(cfg, run, m, n', t, k, key, cur)
  {
    hide Inv, Step, Offers, Offered, U.Ahead, Sized;
    LessOffered(cfg, run, m, n, n', t, k, key);
    ChainStays(cfg, run[n], u, run[n'], t);
  }

  /** When the walk begins. */
  lemma AheadBegins(cfg: Config, run: seq<World>, m: nat, n: nat, n': nat, t: Tid, k: nat, key: Bytes)
    requires m < n < n' == n + 1 < |run| && Inv(cfg, run[n]) && k < |cfg.keys| && run[n'].ch == run[n].ch
    requires Sized(cfg, run[n]) && Sized(cfg, run[n']) && t in run[n].th && run[n].th[t].pc.Finding?
    ensures StillAhead(cfg, run, m, n', t, k, key, run[n].head[k][cfg.KeyBucket(k, key)])
  {
    hide Inv, Offers, Offered, U.Ahead, KeyOps.Contract;
    LessOffered(cfg, run, m, n, n', t, k, key);
    forall j: nat | Offered(cfg, run, m, n', t, k, key, j)
      ensures U.Ahead(run[n'].ch[k][cfg.KeyBucket(k, key)], run[n].head[k][cfg.KeyBucket(k, key)], j)
    {
      LookBegins(cfg, run[n], t, k, key, j);
    }
  }

  /** From a slot that is not a row with the key to the next cell. */
  lemma AheadMoves(cfg: Config, run: seq<World>, m: nat, n: nat, n': nat, t: Tid, k: nat, key: Bytes, cur: int)
    requires m < n < n' == n + 1 < |run| && Inv(cfg, run[n]) && k < |cfg.keys| && run[n'].ch == run[n].ch
    requires Sized(cfg, run[n]) && Sized(cfg, run[n']) && StillAhead(cfg, run, m, n, t, k, key, cur)
    requires 0 <= cur < |run[n].slots|
    requires run[n].slots[cur].state != Active || !cfg.keys[k].ops.matches(run[n].slots[cur].image, key)
    ensures StillAhead(cfg, run, m, n', t, k, key, run[n].next[k][cur])
  {
    LessOffered(cfg, run, m, n, n', t, k, key);
    assert |run[n].next[k]| == |run[n].slots|;
    hide Inv, Offered, U.Ahead, Sized;
    forall j: nat | Offered(cfg, run, m, n', t, k, key, j)
      ensures U.Ahead(run[n'].ch[k][cfg.KeyBucket(k, key)], run[n].next[k][cur], j)
    {
      LookWalksOn(cfg, run[n], k, cfg.KeyBucket(k, key), cur, j);
    }
  }

  /** At the end of the chain nothing is ahead. */
  lemma NothingAhead(cfg: Config, run: seq<World>, m: nat, n: nat, n': nat, t: Tid, k: nat, key: Bytes)
    requires m < n < n' == n + 1 < |run| && k < |cfg.keys| && Sized(cfg, run[n])
    requires StillAhead(cfg, run, m, n, t, k, key, NIL)
    ensures forall j: nat :: !Offered(cfg, run, m, n', t, k, key, j)
  {
    hide Offers, Offered, U.Ahead, KeyOps.Contract;
    LessOffered(cfg, run, m, n, n', t, k, key);
    forall j: nat ensures !U.Ahead(run[n].ch[k][cfg.KeyBucket(k, key)], NIL, j) {
      NotPastEnd(run[n].ch[k][cfg.KeyBucket(k, key)], j);
    }
  }

  lemma NotPastEnd(c: seq<nat>, j: nat)
    ensures !U.Ahead(c, NIL, j)
  {
  }

  lemma LookToldOn(cfg: Config, run: seq<World>, who: seq<Tid>, m: nat, n: nat, n': nat, t: Tid, k: nat, key: Bytes,
                   c: nat)
    returns (c': nat)
    requires m < n < n' == n + 1 < |run| == |who| + 1 && k < |cfg.keys| && Sized(cfg, run[n]) && Sized(cfg, run[n'])
    requires Inv(cfg, run[n]) && LookTold(cfg, run, who, m, n, t, k, key, c) && Step(cfg, run[n], who[n], run[n'])
    requires t in run[n'].th && !run[n'].th[t].pc.Idle? && (who[n] != t ==> run[n'].th[t] == run[n].th[t])
    ensures LookTold(cfg, run, who, m, n', t, k, key, c')
  {
    hide Inv, Step, Offers, Offered, StillAhead, Sized;
    c' := c;
    LessOffered(cfg, run, m, n, n', t, k, key);
    var f := run[n].th[t].pc.f;
    if who[n] != t {
      if f.FindWalk? { AheadKept(cfg, run, who[n], m, n, n', t, k, key, f.cur); }
    } else {
      LookExec(cfg, run[n], t, run[n'], k, cfg.KeyBucket(k, key), key, f);
      if f.FindWait? {
        AheadBegins(cfg, run, m, n, n', t, k, key);
      } else if f.FindWalk? && f.cur == NIL {
        NothingAhead(cfg, run, m, n, n', t, k, key);
      } else if f.FindWalk? {
        c' := n;
        if run[n'].th[t].pc.f.FindWalk? { AheadMoves(cfg, run, m, n, n', t, k, key, f.cur); }
      }
    }
  }

  lemma BothSized(cfg: Config, s: World)
    requires Inv(cfg, s)
    ensures Sized(cfg, s)
  {
    hide Indexed, FreeOk, Settled, History, CustodyOk, ThreadOk;
  }

  lemma LookToldFirst(cfg: Config, run: seq<World>, who: seq<Tid>, m: nat, t: Tid, k: nat, key: Bytes)
    requires m < |who| && |run| == |who| + 1 && Runs(cfg, run[m], t) && run[m].th[t].pc.Idle?
    requires Begin(cfg, run[m], t, Lookup(k, key)) == Some(run[m + 1]) && t in run[m + 1].th && Sized(cfg, run[m + 1])
    ensures k < |cfg.keys| && LookTold(cfg, run, who, m, m + 1, t, k, key, 0)
  {
  }

  lemma {:induction false} LookGoesOn(cfg: Config, run: seq<World>, who: seq<Tid>, m: nat, n: nat, t: Tid, k: nat,
                                      key: Bytes)
    returns (c: nat)
    requires During(cfg, run, who, m, n, t, Lookup(k, key))
    ensures k < |cfg.keys| && Inv(cfg, run[n]) && Sized(cfg, run[n]) && LookTold(cfg, run, who, m, n, t, k, key, c)
    decreases n
  {
    hide During, IsRun, Inv, Step, Begin, Runs, LookTold;
    DuringMeans(cfg, run, who, m, n, t, Lookup(k, key));
    RunInv(cfg, run, who, n);
    BothSized(cfg, run[n]);
    if n == m + 1 {
      LookToldFirst(cfg, run, who, m, t, k, key);
      c := 0;
    } else {
      Back(cfg, run, who, m, n, t, Lookup(k, key));
      DuringMeans(cfg, run, who, m, n - 1, t, Lookup(k, key));
      c := LookGoesOn(cfg, run, who, m, n - 1, t, k, key);
      c := LookToldOn(cfg, run, who, m, n - 1, n, t, k, key, c);
    }
  }

  /** A lookup from the call to its end.  If it found a slot, that slot showed a row with the
      key when the lookup came to it; if it found none, then for every slot there was a
      moment at which it did not show such a row or another thread was at work on it. */
  lemma LookupEnds(cfg: Config, run: seq<World>, who: seq<Tid>, m: nat, n: nat, t: Tid, k: nat, key: Bytes)
    returns (c: nat)
    requires Ends(cfg, run, who, m, n, t, Lookup(k, key))
    ensures k < |cfg.keys| && run[n].th[t].pc.Finding? && run[n].th[t].pc.f.FindEnd?
    ensures var found := run[n].th[t].pc.f.found;
            if found == NIL then forall j: nat :: !Offered(cfg, run, m, n, t, k, key, j)
            else
              && m < c < n && who[c] == t && 0 <= found < |run[c].slots| && run[c].slots[found].state == Active
              && cfg.keys[k].ops.matches(run[c].slots[found].image, key)
  {
    hide Inv, Step, Begin, Runs, Offers, Offered, StillAhead;
    c := LookGoesOn(cfg, run, who, m, n, t, k, key);
    assert Step(cfg, run[n], who[n], run[n + 1]);
    LookExec(cfg, run[n], t, run[n + 1], k, cfg.KeyBucket(k, key), key, run[n].th[t].pc.f);
  }

  // ----- generations ------------------------------------------------------------------------------

  /** No generation goes back. */
  ghost predicate Older(s: World, o: Option<World>) {
    o.Some? ==>
        |o.value.slots| == |s.slots| && forall i :: 0 <= i < |s.slots| ==> s.slots[i].bumps <= o.value.slots[i].bumps
  }

  lemma InsertOlder(cfg: Config, s: World, t: Tid, rec: Bytes, p: InsPc)
    requires Runs(cfg, s, t) && s.th[t].pc == Inserting(rec, p)
    ensures Older(s, ExecInsert(cfg, s, t, rec, p))
  {
    hide KeyOps.Contract, LinkIn, Config.Home, Config.Checked, Clash;
  }

  lemma UpdateOlder(cfg: Config, s: World, t: Tid, u: Upd, p: UpPc)
    requires Runs(cfg, s, t) && s.th[t].pc == Updating(u, p)
    ensures Older(s, ExecUpdate(cfg, s, t, u, p))
  {
    hide KeyOps.Contract, Config.Home, Config.Checked, Clash, Upd.Valid;
  }

  lemma MoveOlder(cfg: Config, s: World, t: Tid, u: Upd, j: nat, m: MovePc)
    requires Runs(cfg, s, t) && s.th[t].pc == Moving(u, j, m)
    ensures Older(s, ExecMove(cfg, s, t, u, j, m))
  {
    hide KeyOps.Contract, Config.Home, Upd.Valid, LinkIn, UnlinkFrom;
  }

  lemma UndoOlder(cfg: Config, s: World, t: Tid, rec: Bytes, i: nat, o: UndoPc)
    requires Runs(cfg, s, t) && s.th[t].pc == Undoing(rec, i, o)
    ensures Older(s, ExecUndo(cfg, s, t, rec, i, o))
  {
    hide KeyOps.Contract, Config.Home, LinkIn, UnlinkFrom;
  }

  lemma DeleteOlder(cfg: Config, s: World, t: Tid, i: nat, rec: Bytes, d: DelPc)
    requires Runs(cfg, s, t) && s.th[t].pc == Removing(i, rec, d)
    ensures Older(s, ExecDelete(cfg, s, t, i, rec, d))
  {
    hide KeyOps.Contract, Config.Home, LinkIn, UnlinkFrom;
  }

  lemma StepOlder(cfg: Config, s: World, t: Tid, s': World)
    requires Step(cfg, s, t, s')
    ensures Older(s, Some(s'))
  {
    hide KeyOps.Contract, ExecInsert, ExecUpdate, ExecMove, ExecUndo, ExecDelete, Upd.Valid;
    match s.th[t].pc {
      case Inserting(rec, p) => InsertOlder(cfg, s, t, rec, p);
      case Updating(u, p) => UpdateOlder(cfg, s, t, u, p);
      case Moving(u, j, m) => MoveOlder(cfg, s, t, u, j, m);
      case Undoing(rec, i, o) => UndoOlder(cfg, s, t, rec, i, o);
      case Removing(i, rec, d) => DeleteOlder(cfg, s, t, i, rec, d);
      case _ =>
    }
  }

  // ----- deletes ----------------------------------------------------------------------------------

  /** A handler is asked to delete its row, which it believes to be was. */
  ghost predicate AsksErase(s: World, t: Tid, call: Call, i: nat, was: Bytes)
    requires t in s.th
  {
    && s.th[t].row == Some(i)
    && match call
       case ModifySeen(job) => job == Erase && s.th[t].seen.Some? && s.th[t].seen.value.buf == was
       case ModifyChecked(_, image, job) => job == Erase && image == was
       case _ => false
  }

  /** A thread before, and one after, the mark of a delete. */
  predicate BeforeMark(pc: Pc, i: nat, was: Bytes) { pc.Checking? && pc.i == i && pc.was == was && pc.job == Erase }

  predicate AfterMark(pc: Pc, i: nat) { pc.Removing? && pc.i == i }

  /** The generation has been moved on. */
  predicate Bumped(pc: Pc) { pc.Removing? && (pc.d.DelWait? || pc.d.DelPush? || pc.d.DelEnd?) }

  /** A delete is refused in state s: its row is gone, or not what the handler believes it to
      be. */
  predicate EraseRefused(s: World, pc: Pc, i: nat, was: Bytes) {
    pc.Checking? && i < |s.slots| && (!s.slots[i].Accepts(pc.g) || s.slots[i].image != was)
  }

  /** The step that takes a row away. */
  ghost predicate Marks(s: World, s': World, i: nat, was: Bytes) {
    && i < |s.slots| && s.slots[i].state == Active && s.slots[i].image == was
    && s'.slots == s.slots[i := s.slots[i].(state := Deleting)]
  }

  lemma MarkExec(cfg: Config, s: World, t: Tid, i: nat, g: nat, was: Bytes, c: CheckPc)
    requires Runs(cfg, s, t) && s.th[t].pc == Checking(i, g, was, Erase, c)
    requires c.Ready? ==> i < |s.slots| && s.slots[i].state == Active && s.slots[i].image == was
    ensures var o := ExecCheck(cfg, s, t, i, g, was, Erase, c);
            && o.Some? && t in o.value.th
            && (|| BeforeMark(o.value.th[t].pc, i, was)
                || (o.value.th[t].pc == Locking(Unrow) && EraseRefused(s, s.th[t].pc, i, was))
                || (AfterMark(o.value.th[t].pc, i) && !Bumped(o.value.th[t].pc) && Marks(s, o.value, i, was)))
  {
    hide KeyOps.Contract, Start;
  }

  lemma MarkStep(cfg: Config, s: World, t: Tid, s': World, i: nat, was: Bytes)
    requires Step(cfg, s, t, s') && BeforeMark(s.th[t].pc, i, was)
    requires s.th[t].pc.c.Ready? ==> i < |s.slots| && s.slots[i].state == Active && s.slots[i].image == was
    ensures t in s'.th
    ensures || BeforeMark(s'.th[t].pc, i, was)
            || (s'.th[t].pc == Locking(Unrow) && EraseRefused(s, s.th[t].pc, i, was))
            || (AfterMark(s'.th[t].pc, i) && !Bumped(s'.th[t].pc) && Marks(s, s', i, was))
  {
    hide KeyOps.Contract, ExecCheck, EraseRefused, Marks;
    MarkExec(cfg, s, t, i, s.th[t].pc.g, was, s.th[t].pc.c);
  }

  /** What a step of a delete of slot i comes to. */
  ghost predicate RemoveOn(s: World, t: Tid, i: nat, o: Option<World>)
    requires t in s.th
  {
    o.Some? ==>
      && t in o.value.th && i < |s.slots| == |o.value.slots|
      && (AfterMark(o.value.th[t].pc, i) || (o.value.th[t].pc == Locking(Unrow) && Bumped(s.th[t].pc)))
      && (Bumped(o.value.th[t].pc) && !Bumped(s.th[t].pc) ==> s.slots[i].bumps < o.value.slots[i].bumps)
  }

  lemma UnlinkExec(cfg: Config, s: World, t: Tid, i: nat, rec: Bytes, k: nat, w: Walk)
    requires Runs(cfg, s, t) && s.th[t].pc == Removing(i, rec, DelUnlink(k, w))
    ensures RemoveOn(s, t, i, ExecDelete(cfg, s, t, i, rec, DelUnlink(k, w)))
  {
    hide KeyOps.Contract, Config.Home, UnlinkFrom;
  }

  lemma RemoveExec(cfg: Config, s: World, t: Tid, i: nat, rec: Bytes, d: DelPc)
    requires Runs(cfg, s, t) && s.th[t].pc == Removing(i, rec, d) && !d.DelUnlink?
    ensures RemoveOn(s, t, i, ExecDelete(cfg, s, t, i, rec, d))
  {
    hide KeyOps.Contract, Config.Home, UnlinkFrom, UnlinkRound, Further;
  }

  lemma RemoveStep(cfg: Config, s: World, t: Tid, s': World, i: nat)
    requires Step(cfg, s, t, s') && AfterMark(s.th[t].pc, i)
    ensures t in s'.th && (AfterMark(s'.th[t].pc, i) || (s'.th[t].pc == Locking(Unrow) && Bumped(s.th[t].pc)))
    ensures i < |s.slots| == |s'.slots|
    ensures Bumped(s'.th[t].pc) && !Bumped(s.th[t].pc) ==> s.slots[i].bumps < s'.slots[i].bumps
  {
    hide KeyOps.Contract, ExecDelete;
    var rec, d := s.th[t].pc.rec, s.th[t].pc.d;
    if d.DelUnlink? { UnlinkExec(cfg, s, t, i, rec, d.k, d.w); } else { RemoveExec(cfg, s, t, i, rec, d); }
  }

  /** In state n a delete of slot i is before its mark, or step c has marked the row, and its
      generation moves on before the end; or step c refused it. */
  ghost predicate EraseTold(cfg: Config, run: seq<World>, who: seq<Tid>, m: nat, n: nat, t: Tid, i: nat, was: Bytes,
                            c: nat)
    requires n < |run| == |who| + 1 && t in run[n].th
  {
    || BeforeMark(run[n].th[t].pc, i, was)
    || (&& m < c < n && who[c] == t && t in run[c].th
        && ((run[n].th[t].pc == Locking(Unrow) && EraseRefused(run[c], run[c].th[t].pc, i, was))
            || (&& (AfterMark(run[n].th[t].pc, i) || run[n].th[t].pc == Locking(Unrow))
                && Marks(run[c], run[c + 1], i, was) && |run[n].slots| == |run[c].slots|
                && run[c].slots[i].bumps <= run[n].slots[i].bumps
                && (Bumped(run[n].th[t].pc) || run[n].th[t].pc == Locking(Unrow) ==>
                      run[c].slots[i].bumps < run[n].slots[i].bumps))))
  }

  /** A delete in its own step. */
  lemma EraseToldOn(cfg: Config, run: seq<World>, who: seq<Tid>, m: nat, n: nat, n': nat, t: Tid,
                    i: nat, was: Bytes, c: nat) returns (c': nat)
    requires m < n < n' == n + 1 < |run| == |who| + 1 && t in run[n].th && EraseTold(cfg, run, who, m, n, t, i, was, c)
    requires Step(cfg, run[n], who[n], run[n'])
    requires BeforeMark(run[n].th[t].pc, i, was) && run[n].th[t].pc.c.Ready? ==>
               i < |run[n].slots| && run[n].slots[i].state == Active && run[n].slots[i].image == was
    requires t in run[n'].th && !run[n'].th[t].pc.Idle? && (who[n] != t ==> run[n'].th[t] == run[n].th[t])
    ensures EraseTold(cfg, run, who, m, n', t, i, was, c')
  {
    hide Step, EraseRefused;
    StepOlder(cfg, run[n], who[n], run[n']);
    c' := c;
    if who[n] == t {
      if BeforeMark(run[n].th[t].pc, i, was) {
        MarkStep(cfg, run[n], t, run[n'], i, was);
        c' := n;
      } else if run[n].th[t].pc == Locking(Unrow) {
        UnrowStep(cfg, run[n], t, run[n']);
      } else {
        RemoveStep(cfg, run[n], t, run[n'], i);
      }
    }
  }

  lemma UnrowStep(cfg: Config, s: World, t: Tid, s': World)
    requires Step(cfg, s, t, s') && s.th[t].pc == Locking(Unrow)
    ensures t in s'.th && s'.th[t].pc.Idle?
  {
    hide KeyOps.Contract;
  }

  lemma EraseToldFirst(cfg: Config, run: seq<World>, who: seq<Tid>, m: nat, t: Tid, call: Call, i: nat, was: Bytes)
    requires m < |who| && |run| == |who| + 1 && Runs(cfg, run[m], t) && run[m].th[t].pc.Idle?
    requires Begin(cfg, run[m], t, call) == Some(run[m + 1]) && t in run[m + 1].th && AsksErase(run[m], t, call, i, was)
    ensures EraseTold(cfg, run, who, m, m + 1, t, i, was, 0)
  {
  }

  lemma ReadyIsFresh(cfg: Config, run: seq<World>, who: seq<Tid>, n: nat, t: Tid, i: nat, was: Bytes)
    requires IsRun(cfg, run, who) && n < |run| && t in run[n].th
    requires BeforeMark(run[n].th[t].pc, i, was) && run[n].th[t].pc.c.Ready?
    ensures i < |run[n].slots| && run[n].slots[i].state == Active && run[n].slots[i].image == was
  {
    hide IsRun;
    JobsStartFresh(cfg, run, who, n, t);
  }

  lemma {:induction false} EraseGoesOn(cfg: Config, run: seq<World>, who: seq<Tid>, m: nat, n: nat, t: Tid, call: Call,
                                       i: nat, was: Bytes)
    returns (c: nat)
    requires During(cfg, run, who, m, n, t, call) && AsksErase(run[m], t, call, i, was)
    ensures EraseTold(cfg, run, who, m, n, t, i, was, c)
    decreases n
  {
    hide During, IsRun, Inv, Step, Begin, Runs, EraseTold, AsksErase;
    DuringMeans(cfg, run, who, m, n, t, call);
    if n == m + 1 {
      EraseToldFirst(cfg, run, who, m, t, call, i, was);
      c := 0;
    } else {
      Back(cfg, run, who, m, n, t, call);
      DuringMeans(cfg, run, who, m, n - 1, t, call);
      c := EraseGoesOn(cfg, run, who, m, n - 1, t, call, i, was);
      if BeforeMark(run[n - 1].th[t].pc, i, was) && run[n - 1].th[t].pc.c.Ready? {
        ReadyIsFresh(cfg, run, who, n - 1, t, i, was);
      }
      c := EraseToldOn(cfg, run, who, m, n - 1, n, t, i, was, c);
    }
  }

  /** A delete comes back by way of giving up its row lock. */
  lemma EraseLeaves(cfg: Config, s: World, t: Tid, s': World, i: nat, was: Bytes)
    requires Step(cfg, s, t, s') && t in s'.th && s'.th[t].pc.Idle?
    requires BeforeMark(s.th[t].pc, i, was) && s.th[t].pc.c.Ready? ==>
               i < |s.slots| && s.slots[i].state == Active && s.slots[i].image == was
    requires BeforeMark(s.th[t].pc, i, was) || AfterMark(s.th[t].pc, i) || s.th[t].pc == Locking(Unrow)
    ensures s.th[t].pc == Locking(Unrow)
  {
    var pc := s.th[t].pc;
    hide Step, EraseRefused, Marks;
    if BeforeMark(pc, i, was) {
      MarkStep(cfg, s, t, s', i, was);
    } else if AfterMark(pc, i) {
      RemoveStep(cfg, s, t, s', i);
    }
  }

  /** A delete from the call to its end: at some step in between its row, with the image the
      handler believed it to have, was taken away, and its generation has moved on since; or
      it was refused, the row being gone or another one. */
  lemma EraseEnds(cfg: Config, run: seq<World>, who: seq<Tid>, m: nat, n: nat, t: Tid, call: Call, i: nat, was: Bytes)
    returns (c: nat)
    requires Ends(cfg, run, who, m, n, t, call) && AsksErase(run[m], t, call, i, was)
    ensures m < c < n && who[c] == t && t in run[c].th
    ensures || EraseRefused(run[c], run[c].th[t].pc, i, was)
            || (&& Marks(run[c], run[c + 1], i, was) && |run[n].slots| == |run[c].slots|
                && run[c].slots[i].bumps < run[n].slots[i].bumps)
  {
    hide Inv, Step, Begin, Runs, AsksErase, EraseRefused, Marks;
    c := EraseGoesOn(cfg, run, who, m, n, t, call, i, was);
    assert Step(cfg, run[n], who[n], run[n + 1]);
    if BeforeMark(run[n].th[t].pc, i, was) && run[n].th[t].pc.c.Ready? { ReadyIsFresh(cfg, run, who, n, t, i, was); }
    EraseLeaves(cfg, run[n], t, run[n + 1], i, was);
  }

  // ----- row locks ----------------------------------------------------------------------------------

  /** A thread that locks and reads slot i again. */
  predicate Relocks(pc: Pc, i: nat) { pc.Locking? && !pc.r.Unrow? && pc.r.i == i }

  /** A re-read fails in state s: the slot is not ACTIVE, or not of the generation read. */
  predicate LockRefused(s: World, pc: Pc, i: nat) {
    pc.Locking? && i < |s.slots| && (s.slots[i].state != Active || (pc.r.ReGenCheck? && s.slots[i].Gen() != pc.r.g))
  }

  lemma RowStep(cfg: Config, s: World, t: Tid, s': World, i: nat)
    requires Step(cfg, s, t, s') && Relocks(s.th[t].pc, i)
    ensures t in s'.th && i < |s.slots|
    ensures || Relocks(s'.th[t].pc, i)
            || (s'.th[t].pc == Locking(Unrow) && LockRefused(s, s.th[t].pc, i))
            || (&& s.th[t].pc.r.ReCopy? && s'.th[t].pc.Idle? && s'.th[t].row == Some(i) && s'.slots == s.slots
                && s'.th[t].seen == Some(Seen(s.th[t].pc.r.g, s.slots[i].image)))
  {
    hide KeyOps.Contract;
  }

  ghost predicate LockTold(run: seq<World>, who: seq<Tid>, m: nat, n: nat, t: Tid, i: nat, c: nat)
    requires n < |run| == |who| + 1 && t in run[n].th
  {
    || Relocks(run[n].th[t].pc, i)
    || (&& run[n].th[t].pc == Locking(Unrow)
        && m < c < n && who[c] == t && t in run[c].th && LockRefused(run[c], run[c].th[t].pc, i))
  }

  lemma LockToldFirst(cfg: Config, run: seq<World>, who: seq<Tid>, m: nat, t: Tid, i: nat)
    requires m < |who| && |run| == |who| + 1 && Runs(cfg, run[m], t) && run[m].th[t].pc.Idle?
    requires Begin(cfg, run[m], t, LockRow(i)) == Some(run[m + 1]) && t in run[m + 1].th
    ensures LockTold(run, who, m, m + 1, t, i, 0)
  {
  }

  lemma {:induction false} LockGoesOn(cfg: Config, run: seq<World>, who: seq<Tid>, m: nat, n: nat, t: Tid, i: nat)
    returns (c: nat)
    requires During(cfg, run, who, m, n, t, LockRow(i))
    ensures LockTold(run, who, m, n, t, i, c)
    decreases n
  {
    hide During, IsRun, Inv, Step, Begin, Runs, LockRefused;
    DuringMeans(cfg, run, who, m, n, t, LockRow(i));
    if n == m + 1 {
      LockToldFirst(cfg, run, who, m, t, i);
      c := 0;
    } else {
      Back(cfg, run, who, m, n, t, LockRow(i));
      DuringMeans(cfg, run, who, m, n - 1, t, LockRow(i));
      c := LockGoesOn(cfg, run, who, m, n - 1, t, i);
      if who[n - 1] == t && Relocks(run[n - 1].th[t].pc, i) {
        RowStep(cfg, run[n - 1], t, run[n], i);
        c := n - 1;
      } else if who[n - 1] == t {
        UnrowStep(cfg, run[n - 1], t, run[n]);
      }
    }
  }

  /** A row lock from the call to its end: the handler has the wlock of the slot it was
      called for and the present image of the row there; or it has none, the slot not having
      been ACTIVE at some step in between. */
  lemma LockEnds(cfg: Config, run: seq<World>, who: seq<Tid>, m: nat, n: nat, t: Tid, i: nat) returns (c: nat)
    requires Ends(cfg, run, who, m, n, t, LockRow(i))
    ensures var th, s := run[n + 1].th[t], run[n + 1];
            || (&& th.row == Some(i) && Owns(s.owner, Row(i), t) && th.seen.Some? && i < |s.slots|
                && s.slots[i].Accepts(th.seen.value.g) && s.slots[i].image == th.seen.value.buf)
            || (&& th.row.None? && !Owns(s.owner, Row(i), t)
                && m < c < n && who[c] == t && t in run[c].th && LockRefused(run[c], run[c].th[t].pc, i))
  {
    hide Inv, Step, Begin, Runs, LockRefused;
    c := LockGoesOn(cfg, run, who, m, n, t, i);
    assert Step(cfg, run[n], who[n], run[n + 1]);
    RowAccounting(cfg, run, who, n + 1, t, i);
    if Relocks(run[n].th[t].pc, i) {
      RowStep(cfg, run[n], t, run[n + 1], i);
      SeenIsFresh(cfg, run, who, n + 1, t, i);
    } else {
      UnrowGives(cfg, run[n], t, run[n + 1]);
    }
  }

  lemma UnrowGives(cfg: Config, s: World, t: Tid, s': World)
    requires Step(cfg, s, t, s') && s.th[t].pc == Locking(Unrow)
    ensures t in s'.th && s'.th[t].row.None?
  {
    hide KeyOps.Contract;
  }

  /** The image a handler has read under its row lock is the row's. */
  lemma SeenIsFresh(cfg: Config, run: seq<World>, who: seq<Tid>, n: nat, t: Tid, i: nat)
    requires IsRun(cfg, run, who) && n < |run| && t in run[n].th
    requires run[n].th[t].row == Some(i) && run[n].th[t].seen.Some?
    ensures i < |run[n].slots| && run[n].slots[i].Accepts(run[n].th[t].seen.value.g)
    ensures run[n].slots[i].image == run[n].th[t].seen.value.buf
  {
    RunInv(cfg, run, who, n);
    hide IsRun, Indexed, FreeOk, Settled, History, CustodyOk, KeyOps.Contract;
    assert ThreadOk(cfg, run[n], t);
  }
}
