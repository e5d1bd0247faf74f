/** Every step of every thread preserves the invariant. */
module ProtocolSteps {
  import opened Keys
  import opened Chain
  import opened LockOrder
  import opened LockSet
  import opened Protocol
  import opened ProtocolInvariant

  /** The cells of a chain lead to its own slots. */
  lemma CellsLead(cfg: Config, s: World, k: nat, b: nat, cur: int)
    requires Sized(cfg, s) && Indexed(cfg, s) && k < |cfg.keys| && b < cfg.nbuckets
    requires cur >= 0 ==> In(s, k, b, cur)
    ensures CursorHolds(s, CursorFact(k, b, s.head[k][b])) && Slotish(|s.slots|, s.head[k][b])
    ensures cur >= 0 ==>
              cur < |s.slots| && CursorHolds(s, CursorFact(k, b, s.next[k][cur])) && Slotish(|s.slots|, s.next[k][cur])
  {
    var c := s.ch[k][b];
    assert Represents(s.head[k], s.next[k], s.ch[k]);
    assert Spells(s.head[k][b], s.next[k], c);
    hide Indexed, Represents, KeyOps.Contract;
    if cur >= 0 {
      var p :| 0 <= p < |c| && c[p] == cur;
      assert s.next[k][c[p]] == At(c, p + 1);
    }
  }

  ghost predicate Running(cfg: Config, s: World, t: Tid) {
    Sized(cfg, s) && Inv(cfg, s) && t in s.th && ThreadOk(cfg, s, t)
  }

  /** A walk that has not found its slot yet moves one cell on. */
  lemma WalkOn(cfg: Config, s: World, f: WalkFact)
    requires Sized(cfg, s) && Indexed(cfg, s) && f.k < |cfg.keys| && f.b < cfg.nbuckets
    requires WalkHolds(s, f) && In(s, f.k, f.b, f.i)
    requires f.w.prev != NIL ==> 0 <= f.w.prev < |s.slots|
    requires f.w.p < |s.ch[f.k][f.b]| && Peek(s, f.k, f.b, f.w) == s.ch[f.k][f.b][f.w.p] != f.i
    ensures WalkHolds(s, f.(w := Further(s, f.k, f.b, f.w))) && Slotish(|s.slots|, Peek(s, f.k, f.b, f.w))
  {
    hide Indexed, KeyOps.Contract;
    var c := s.ch[f.k][f.b];
    CellsLead(cfg, s, f.k, f.b, c[f.w.p]);
    assert c[..f.w.p + 1] == c[..f.w.p] + [c[f.w.p]];
  }

  // ----- homes -------------------------------------------------------------

  lemma LinkHome(cfg: Config, s: World, k: nat, b: nat, i: nat, home: seq<Option<nat>>)
    requires Sized(cfg, s) && k < |cfg.keys| && b < cfg.nbuckets && AtHome(cfg, s, i, home)
    ensures Sized(cfg, SetHead(s, k, b, i)) && AtHome(cfg, SetHead(s, k, b, i), i, home[k := Some(b)])
  {
    var s1 := SetHead(s, k, b, i);
    assert In(s1, k, b, i);
    assert forall m, c :: 0 <= m < |cfg.keys| && m != k && 0 <= c < cfg.nbuckets ==> In(s1, m, c, i) == In(s, m, c, i);
  }

  lemma CutHome(cfg: Config, s: World, s1: World, k: nat, i: nat, home: seq<Option<nat>>)
    requires Sized(cfg, s) && Sized(cfg, s1) && k < |cfg.keys| && AtHome(cfg, s, i, home)
    requires Absent(s1.ch[k], i) && forall m :: 0 <= m < |cfg.keys| && m != k ==> s1.ch[m] == s.ch[m]
    ensures AtHome(cfg, s1, i, home[k := None])
  {
    forall m | 0 <= m < |cfg.keys| && m != k && home[m].Some? ensures In(s1, m, home[m].value, i) {
      assert In(s, m, home[m].value, i);
    }
  }

  lemma HomesShift(cfg: Config, rec: Bytes, k: nat)
    requires cfg.nbuckets > 0 && k < |cfg.keys|
    ensures HomesOf(cfg, rec, 0, k)[k := Some(cfg.Home(k, rec))] == HomesOf(cfg, rec, 0, k + 1)
    ensures HomesOf(cfg, rec, 0, k + 1)[k := None] == HomesOf(cfg, rec, 0, k)
    ensures HomesOf(cfg, rec, k, |cfg.keys|)[k := None] == HomesOf(cfg, rec, k + 1, |cfg.keys|)
  {
  }

  lemma HomesNone(cfg: Config, rec: Bytes, lo: nat, hi: nat)
    requires cfg.nbuckets > 0 && (hi <= lo || |cfg.keys| <= lo)
    ensures HomesOf(cfg, rec, lo, hi) == HomesOf(cfg, [], 0, 0)
  {
  }

  lemma MidwayShift(cfg: Config, u: Upd, j: nat)
    requires cfg.nbuckets > 0 && u.Valid(cfg) && j < |u.ks|
    ensures var k := u.ks[j];
            && HomesMidway(cfg, u, k, false)[k := None] == HomesMidway(cfg, u, k, true)
            && HomesMidway(cfg, u, k, true)[k := Some(cfg.Home(k, u.now))] ==
                   HomesMidway(cfg, u, UpKey(cfg, u, j + 1), false)
  {
    var k, k' := u.ks[j], UpKey(cfg, u, j + 1);
    forall m | 0 <= m < |cfg.keys| && m != k ensures (m < k || m !in u.ks) <==> (m < k' || m !in u.ks) {
      if m in u.ks {
        var n :| 0 <= n < |u.ks| && u.ks[n] == m;
      }
    }
  }

  lemma MidwayStart(cfg: Config, s: World, u: Upd)
    requires Sized(cfg, s) && u.Valid(cfg) && Everywhere(cfg, s, u.i, u.was)
    ensures AtHome(cfg, s, u.i, HomesMidway(cfg, u, UpKey(cfg, u, 0), false))
  {
    forall m | 0 <= m < |cfg.keys| ensures In(s, m, HomesMidway(cfg, u, UpKey(cfg, u, 0), false)[m].value, u.i) {
      assert In(s, m, cfg.Home(m, u.was), u.i);
      if m !in u.ks { SameHome(cfg, m, u.was, u.now); }
    }
  }

  lemma MidwayLinked(cfg: Config, s: World, u: Upd, j: nat)
    requires Sized(cfg, s) && u.Valid(cfg) && j < |u.ks| && AtHome(cfg, s, u.i, HomesMidway(cfg, u, u.ks[j], true))
    ensures var s1 := SetHead(s, u.ks[j], cfg.Home(u.ks[j], u.now), u.i);
            && Absent(s.ch[u.ks[j]], u.i) && Sized(cfg, s1)
            && AtHome(cfg, s1, u.i, HomesMidway(cfg, u, UpKey(cfg, u, j + 1), false))
  {
    var k := u.ks[j];
    assert HomesMidway(cfg, u, k, true)[k] == None;
    LinkHome(cfg, s, k, cfg.Home(k, u.now), u.i, HomesMidway(cfg, u, k, true));
    MidwayShift(cfg, u, j);
  }

  lemma MidwayOpen(cfg: Config, s: World, t: Tid, u: Upd)
    requires Sized(cfg, s) && u.Valid(cfg) && u.i < |s.slots| && Everywhere(cfg, s, u.i, u.was)
    ensures var s1 := Rewrite(s, u.i, u.was, u.now).(cust := s.cust[u.i := t]);
            Sized(cfg, s1) && AtHome(cfg, s1, u.i, HomesMidway(cfg, u, UpKey(cfg, u, 0), false))
  {
    var s1 := Rewrite(s, u.i, u.was, u.now).(cust := s.cust[u.i := t]);
    EverywhereSame(cfg, s, s1, u.i, u.was);
    MidwayStart(cfg, s1, u);
  }

  lemma MidwayEnd(cfg: Config, s: World, u: Upd)
    requires Sized(cfg, s) && AtHome(cfg, s, u.i, HomesMidway(cfg, u, |cfg.keys|, false))
    ensures Everywhere(cfg, s, u.i, u.now)
  {
    forall m | 0 <= m < |cfg.keys| ensures In(s, m, cfg.Home(m, u.now), u.i) {
      assert HomesMidway(cfg, u, |cfg.keys|, false)[m] == Some(cfg.Home(m, u.now));
    }
  }

  lemma EverywhereSame(cfg: Config, s: World, s1: World, i: nat, rec: Bytes)
    requires Sized(cfg, s) && Sized(cfg, s1) && s1.ch == s.ch && Everywhere(cfg, s, i, rec)
    ensures Everywhere(cfg, s1, i, rec)
  {
    forall k | 0 <= k < |cfg.keys| ensures In(s1, k, cfg.Home(k, rec), i) {
      assert In(s, k, cfg.Home(k, rec), i);
    }
  }

  lemma EverywhereHome(cfg: Config, s: World, i: nat, rec: Bytes)
    requires Sized(cfg, s) && Everywhere(cfg, s, i, rec)
    ensures AtHome(cfg, s, i, HomesOf(cfg, rec, 0, |cfg.keys|))
  {
    forall k | 0 <= k < |cfg.keys| ensures In(s, k, HomesOf(cfg, rec, 0, |cfg.keys|)[k].value, i) {
      assert In(s, k, cfg.Home(k, rec), i);
    }
  }

  lemma HoldsAll(cfg: Config, u: Upd, k: nat)
    requires cfg.nbuckets > 0 && u.Valid(cfg) && k in u.ks
    ensures k < |cfg.keys|
    ensures Bucket(k, cfg.Home(k, u.was)) in FirstLocks(u, |u.ls|)
    ensures Bucket(k, cfg.Home(k, u.now)) in FirstLocks(u, |u.ls|)
  {
    assert Involved(cfg, u.ks, u.was, u.now, Bucket(k, cfg.Home(k, u.was)));
    assert Involved(cfg, u.ks, u.was, u.now, Bucket(k, cfg.Home(k, u.now)));
    assert Bucket(k, cfg.Home(k, u.was)) in u.ls && Bucket(k, cfg.Home(k, u.now)) in u.ls;
  }

  lemma StartValid(cfg: Config, i: nat, was: Bytes, now: Bytes)
    requires cfg.Valid()
    ensures Upd(i, was, now, Changed(cfg, was, now), Locks(cfg, was, now)).Valid(cfg)
  {
    LocksContent(cfg, was, now);
  }

  lemma FirstLocksNone(u: Upd)
    ensures FirstLocks(u, 0) == {}
  {
  }

  lemma FirstLocksGrow(u: Upd, n: nat)
    requires n < |u.ls| && Ascending(u.ls)
    ensures FirstLocks(u, n + 1) == FirstLocks(u, n) + {u.ls[n]}
    ensures FirstLocks(u, n) == FirstLocks(u, n + 1) - {u.ls[n]}
    ensures u.ls[n] in FirstLocks(u, n + 1)
  {
  }
}
