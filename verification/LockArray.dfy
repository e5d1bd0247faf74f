/** The lock array of a key-changing update: collection of the old and new
    buckets, insertion sort, and the skip of adjacent duplicates. */
module LockArray {
  import opened Keys
  import opened LockOrder
  import opened LockSet

  /** Two entries for each of up to 64 changed keys. */
  const CAPACITY: nat := 128

  /** The keys whose columns differ between two records. */
  method ChangedKeys(cfg: Config, was: Bytes, now: Bytes) returns (ks: seq<nat>)
    requires |cfg.keys| <= MAX_KEYS
    ensures ks == Changed(cfg, was, now)
  {
    ChangedNone(cfg, was, now);
    hide Config.Same, ChangedBelow;
    ks := [];
    var k: nat := 0;
    while k < |cfg.keys| && |ks| < MAX_KEYS
      invariant |ks| <= k <= |cfg.keys| && ks == ChangedBelow(cfg, k, was, now)
    {
      ChangedNext(cfg, k, was, now);
      if !cfg.Same(k, was, now) {
        ks := ks + [k];
      }
      k := k + 1;
    }
  }

  lemma ChangedNone(cfg: Config, was: Bytes, now: Bytes)
    ensures ChangedBelow(cfg, 0, was, now) == []
  {
  }

  lemma ChangedNext(cfg: Config, n: nat, was: Bytes, now: Bytes)
    requires n < |cfg.keys|
    ensures cfg.Same(n, was, now) ==> ChangedBelow(cfg, n + 1, was, now) == ChangedBelow(cfg, n, was, now)
    ensures !cfg.Same(n, was, now) ==> ChangedBelow(cfg, n + 1, was, now) == ChangedBelow(cfg, n, was, now) + [n]
  {
  }

  /** An entry that has been collected after the keys ks[..n]. */
  lemma InvolvedNext(cfg: Config, ks: seq<nat>, n: nat, was: Bytes, now: Bytes, l: Lock)
    requires cfg.nbuckets > 0 && n < |ks| && forall j :: 0 <= j < |ks| ==> ks[j] < |cfg.keys|
    ensures Involved(cfg, ks[..n + 1], was, now, l) <==>
              Involved(cfg, ks[..n], was, now, l) || l == Bucket(ks[n], cfg.Home(ks[n], now))
                  || l == Bucket(ks[n], cfg.Home(ks[n], was))
  {
    assert ks[..n + 1] == ks[..n] + [ks[n]];
  }

  /** Collect the old and the new bucket of every changed key.  A key whose two
      buckets coincide is entered twice: both tests come before the entries. */
  method Collect(cfg: Config, ks: seq<nat>, was: Bytes, now: Bytes) returns (a: array<Lock>, nl: nat)
    requires cfg.nbuckets > 0 && |ks| <= MAX_KEYS && forall j :: 0 <= j < |ks| ==> ks[j] < |cfg.keys|
    ensures fresh(a) && a.Length == CAPACITY && nl <= 2 * |ks|
    ensures forall l :: l in a[..nl] <==> Involved(cfg, ks, was, now, l)
  {
    a := new Lock[CAPACITY](_ => Struct);
    nl := 0;
    var n := 0;
    while n < |ks|
      invariant n <= |ks| && nl <= 2 * n
      invariant forall l :: l in a[..nl] <==> Involved(cfg, ks[..n], was, now, l)
    {
      var k := ks[n];
      var bnew, bold := Bucket(k, cfg.Home(k, now)), Bucket(k, cfg.Home(k, was));
      var haveNew := Holds(a, nl, bnew);
      var haveOld := Holds(a, nl, bold);
      ghost var was' := a[..nl];
      if !haveNew {
        a[nl] := bnew;
        nl := nl + 1;
        assert a[..nl] == was' + [bnew];
      }
      assert forall l :: l in a[..nl] <==> l in was' || l == bnew;
      ghost var mid := a[..nl];
      if !haveOld {
        a[nl] := bold;
        nl := nl + 1;
        assert a[..nl] == mid + [bold];
      }
      assert forall l :: l in a[..nl] <==> l in mid || l == bold;
      forall l ensures l in a[..nl] <==> Involved(cfg, ks[..n + 1], was, now, l) {
        InvolvedNext(cfg, ks, n, was, now, l);
      }
      n := n + 1;
    }
    assert ks[..n] == ks;
  }

  method Holds(a: array<Lock>, nl: nat, l: Lock) returns (have: bool)
    requires nl <= a.Length
    ensures have <==> l in a[..nl]
  {
    have := false;
    var j := 0;
    while j < nl
      invariant j <= nl && (have <==> l in a[..j])
    {
      if a[j] == l { have := true; }
      j := j + 1;
    }
  }

  // ----- sorting -----------------------------------------------------------------

  ghost predicate Sorted(s: seq<Lock>) {
    forall i, j :: 0 <= i < j < |s| ==> HandlerRank(s[i]) <= HandlerRank(s[j])
  }

  /** s with v inserted at position j. */
  function Inserted(s: seq<Lock>, j: nat, v: Lock): (r: seq<Lock>)
    requires j <= |s|
    ensures |r| == |s| + 1
    ensures forall p :: 0 <= p < |r| ==> r[p] == if p < j then s[p] else if p == j then v else s[p - 1]
  {
    s[..j] + [v] + s[j..]
  }

  lemma InsertedPermutes(s: seq<Lock>, j: nat, v: Lock)
    requires j <= |s|
    ensures multiset(Inserted(s, j, v)) == multiset(s) + multiset{v}
  {
    assert s == s[..j] + s[j..];
  }

  lemma InsertedSorted(s: seq<Lock>, j: nat, v: Lock)
    requires Sorted(s) && j <= |s|
    requires j > 0 ==> HandlerRank(s[j - 1]) <= HandlerRank(v)
    requires j < |s| ==> HandlerRank(v) < HandlerRank(s[j])
    ensures Sorted(Inserted(s, j, v))
  {
    hide HandlerRank;
    var r := Inserted(s, j, v);
    assert forall p :: 0 <= p < j ==> HandlerRank(s[p]) <= HandlerRank(v);
    assert forall p :: j <= p < |s| ==> HandlerRank(v) <= HandlerRank(s[p]);
    hide Inserted;
  }

  /** One round of the insertion sort: entry i moves down to its place. */
  method Settle(a: array<Lock>, i: nat)
    requires i < a.Length && Sorted(a[..i])
    modifies a
    ensures Sorted(a[..i + 1]) && multiset(a[..i + 1]) == multiset(old(a[..i + 1]))
    ensures a[i + 1..] == old(a[i + 1..])
  {
    hide HandlerRank;
    ghost var s := a[..i];
    var v := a[i];
    var j := i;
    while j > 0 && HandlerRank(a[j - 1]) > HandlerRank(v)
      invariant j <= i && (forall p :: 0 <= p < j ==> a[p] == s[p])
      invariant forall p :: j < p <= i ==> a[p] == s[p - 1]
      invariant j < i ==> HandlerRank(v) < HandlerRank(s[j])
      invariant a[i + 1..] == old(a[i + 1..])
    {
      a[j] := a[j - 1];
      j := j - 1;
    }
    a[j] := v;
    InsertedSorted(s, j, v);
    InsertedPermutes(s, j, v);
    hide Sorted;
    assert a[..i + 1] == Inserted(s, j, v);
    assert old(a[..i + 1]) == s + [v];
  }

  method Sort(a: array<Lock>, nl: nat)
    requires nl <= a.Length
    modifies a
    ensures Sorted(a[..nl]) && multiset(a[..nl]) == multiset(old(a[..nl]))
  {
    var i := 1;
    while i < nl
      invariant nl >= 1 ==> 1 <= i <= nl
      invariant nl >= 1 ==> Sorted(a[..i]) && multiset(a[..i]) == multiset(old(a[..i]))
      invariant i <= a.Length ==> a[i..] == old(a[i..])
    {
      hide Sorted;
      assert a[i] == a[i..][0] == old(a[i]);
      assert a[..i + 1] == a[..i] + [a[i]];
      assert old(a[..i + 1]) == old(a[..i]) + [old(a[i])];
      assert a[i + 1..] == a[i..][1..] && old(a[i + 1..]) == old(a[i..])[1..];
      Settle(a, i);
      i := i + 1;
    }
    assert nl == 0 ==> a[..nl] == [];
  }

  // ----- adjacent duplicates -----------------------------------------------------

  /** Entry j opens a run of equal entries. */
  predicate Opens(s: seq<Lock>, j: nat)
    requires j < |s|
  {
    j == 0 || s[j] != s[j - 1]
  }

  /** The entries below n that open a run: what the loop acquires. */
  function Firsts(s: seq<Lock>, n: nat): (r: seq<Lock>)
    requires n <= |s|
  {
    if n == 0 then [] else Firsts(s, n - 1) + if Opens(s, n - 1) then [s[n - 1]] else []
  }

  lemma {:induction false} FirstsContent(s: seq<Lock>, n: nat)
    requires n <= |s| && Sorted(s) && forall j :: 0 <= j < |s| ==> InRange(s[j])
    ensures Ascending(Firsts(s, n))
    ensures forall l :: l in Firsts(s, n) <==> l in s[..n]
    ensures n > 0 ==> Firsts(s, n) != [] && Firsts(s, n)[|Firsts(s, n)| - 1] == s[n - 1]
  {
    if n > 0 {
      FirstsContent(s, n - 1);
      assert s[..n] == s[..n - 1] + [s[n - 1]];
      if n > 1 {
        RankInjective(s[n - 2], s[n - 1]);
      }
      hide HandlerRank;
    }
  }

  lemma RankInjective(l: Lock, m: Lock)
    requires InRange(l) && InRange(m)
    ensures HandlerRank(l) == HandlerRank(m) ==> l == m
  {
  }

  /** A strictly ascending list is determined by its elements. */
  lemma {:induction false} AscendingUnique(s: seq<Lock>, r: seq<Lock>)
    requires Ascending(s) && Ascending(r) && forall l :: l in s <==> l in r
    ensures s == r
    decreases |s|
  {
    hide HandlerRank;
    if r != [] { assert r[0] in r; }
    if s != [] {
      assert s[0] in s && s[0] in r;
      var q :| 0 <= q < |r| && r[q] == s[0];
      assert r[0] in s;
      var p :| 0 <= p < |s| && s[p] == r[0];
      assert s[0] == r[0];
      var s', r' := s[1..], r[1..];
      forall l ensures l in s' <==> l in r' {
        assert l in s <==> l == s[0] || l in s';
        assert l in r <==> l == r[0] || l in r';
        assert s[0] !in s' && r[0] !in r';
      }
      AscendingUnique(s', r');
      assert s == [s[0]] + s' && r == [r[0]] + r';
    }
  }

  /** Whatever the order of collection, what gets locked is the lock list of the
      update: every old and new bucket of the changed keys, once, ascending. */
  lemma SkipIsLocks(cfg: Config, was: Bytes, now: Bytes, s: seq<Lock>)
    requires cfg.Valid() && Sorted(s)
    requires forall l :: l in s <==> Involved(cfg, Changed(cfg, was, now), was, now, l)
    ensures Firsts(s, |s|) == Locks(cfg, was, now)
  {
    hide HandlerRank, Locks, Sorted, Firsts, KeyOps.Contract, Config.Home;
    forall j | 0 <= j < |s| ensures InRange(s[j]) {
      assert s[j] in s;
    }
    hide Involved, Config.Valid;
    FirstsContent(s, |s|);
    assert s[..|s|] == s;
    LocksContent(cfg, was, now);
    AscendingUnique(Firsts(s, |s|), Locks(cfg, was, now));
  }

  function LocksIn(s: seq<Lock>): set<Lock> { set l | l in s }

  /** An entry that opens its run is new to the entries before it; any other is
      among them. */
  lemma OpensIsNew(s: seq<Lock>, n: nat)
    requires n < |s| && Sorted(s) && forall j :: 0 <= j < |s| ==> InRange(s[j])
    ensures Opens(s, n) <==> s[n] !in s[..n]
    ensures LocksIn(s[..n + 1]) == LocksIn(s[..n]) + {s[n]}
    ensures Opens(s, n) ==> Above(HandlerRank, LocksIn(s[..n]), s[n])
  {
    hide HandlerRank;
    assert s[..n + 1] == s[..n] + [s[n]];
    if n > 0 {
      assert s[..n][n - 1] == s[n - 1];
      RankInjective(s[n - 1], s[n]);
      forall j | 0 <= j < n && s[j] == s[n] ensures s[n - 1] == s[n] {
        assert HandlerRank(s[j]) <= HandlerRank(s[n - 1]) || j == n - 1;
      }
      assert forall j :: 0 <= j < n ==> HandlerRank(s[j]) <= HandlerRank(s[n - 1]) <= HandlerRank(s[n]);
    }
  }

  /** The array after collection and sorting. */
  ghost predicate Prepared(cfg: Config, a: array<Lock>, nl: nat, was: Bytes, now: Bytes)
    requires cfg.nbuckets > 0
    reads a
  {
    && nl <= a.Length && Sorted(a[..nl])
    && (forall j :: 0 <= j < nl ==> InRange(a[j]))
    && LocksIn(a[..nl]) == LocksIn(Locks(cfg, was, now))
  }

  method Prepare(cfg: Config, ks: seq<nat>, was: Bytes, now: Bytes) returns (a: array<Lock>, nl: nat)
    requires cfg.Valid() && ks == Changed(cfg, was, now)
    ensures fresh(a) && Prepared(cfg, a, nl, was, now) && Firsts(a[..nl], nl) == Locks(cfg, was, now)
  {
    a, nl := Collect(cfg, ks, was, now);
    ghost var s := a[..nl];
    hide Sorted, Locks, Firsts, Config.Valid, Involved, Changed, InRange;
    Sort(a, nl);
    SortedPrepares(cfg, ks, was, now, s, a[..nl]);
    assert forall j :: 0 <= j < nl ==> a[j] == a[..nl][j];
  }

  lemma SortedPrepares(cfg: Config, ks: seq<nat>, was: Bytes, now: Bytes, s: seq<Lock>, r: seq<Lock>)
    requires cfg.Valid() && ks == Changed(cfg, was, now) && multiset(r) == multiset(s) && Sorted(r)
    requires forall l :: l in s <==> Involved(cfg, ks, was, now, l)
    ensures forall j :: 0 <= j < |r| ==> InRange(r[j])
    ensures LocksIn(r) == LocksIn(Locks(cfg, was, now)) && Firsts(r, |r|) == Locks(cfg, was, now)
  {
    SortedContent(cfg, ks, was, now, s, r);
    SkipIsLocks(cfg, was, now, r);
    LocksContent(cfg, was, now);
    hide Sorted, Locks, Firsts, Config.Valid, Involved, Changed, InRange;
  }

  lemma SortedContent(cfg: Config, ks: seq<nat>, was: Bytes, now: Bytes, s: seq<Lock>, r: seq<Lock>)
    requires cfg.Valid() && (forall j :: 0 <= j < |ks| ==> ks[j] < |cfg.keys|) && multiset(r) == multiset(s)
    requires forall l :: l in s <==> Involved(cfg, ks, was, now, l)
    ensures forall l :: l in r <==> Involved(cfg, ks, was, now, l)
    ensures forall j :: 0 <= j < |r| ==> InRange(r[j])
  {
    forall l ensures l in r <==> l in s {
      assert l in r <==> l in multiset(r);
    }
    forall j | 0 <= j < |r| ensures InRange(r[j]) {
      assert r[j] in r;
    }
  }
}
