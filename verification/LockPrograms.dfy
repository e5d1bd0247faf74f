/** Threads that take and give back locks by fixed programs: climbing in one
    common rank is enough to keep any number of them going, in every
    interleaving. */
module LockPrograms {
  import opened Keys
  import opened LockOrder

  datatype Act = Take(l: Lock) | Give(l: Lock)

  function After(held: set<Lock>, a: Act): set<Lock> {
    if a.Take? then held + {a.l} else held - {a.l}
  }

  /** The locks held after some acts. */
  function HeldFrom(held: set<Lock>, acts: seq<Act>): set<Lock>
    decreases |acts|
  {
    if acts == [] then held else HeldFrom(After(held, acts[0]), acts[1..])
  }

  /** Every lock is taken above all locks held, and only held locks are given back. */
  ghost predicate ClimbsFrom(rank: Lock -> int, held: set<Lock>, acts: seq<Act>)
    decreases |acts|
  {
    acts != [] ==>
      && (if acts[0].Take? then Above(rank, held, acts[0].l) else acts[0].l in held)
      && ClimbsFrom(rank, After(held, acts[0]), acts[1..])
  }

  /** A program that climbs and ends with nothing held. */
  ghost predicate Climbing(rank: Lock -> int, prog: seq<Act>) {
    ClimbsFrom(rank, {}, prog) && HeldFrom({}, prog) == {}
  }

  lemma {:induction false} Appended(rank: Lock -> int, held: set<Lock>, a: seq<Act>, b: seq<Act>)
    ensures HeldFrom(held, a + b) == HeldFrom(HeldFrom(held, a), b)
    ensures ClimbsFrom(rank, held, a + b) <==> ClimbsFrom(rank, held, a) && ClimbsFrom(rank, HeldFrom(held, a), b)
    decreases |a|
  {
    if a == [] {
      assert a + b == b;
    } else {
      assert (a + b)[1..] == a[1..] + b;
      Appended(rank, After(held, a[0]), a[1..], b);
    }
  }

  // ----- runs ----------------------------------------------------------------------

  /** What each thread still has to do, and who owns each lock. */
  datatype World = World(rest: map<Tid, seq<Act>>, owner: map<Lock, Tid>)

  /** What thread t does next; a lock to be taken has to be free. */
  function Next(w: World, t: Tid): Option<World>
    requires t in w.rest
  {
    if w.rest[t] == [] then None
    else
      match w.rest[t][0]
      case Take(l) => if l in w.owner then None else Some(World(w.rest[t := w.rest[t][1..]], w.owner[l := t]))
      case Give(l) => Some(World(w.rest[t := w.rest[t][1..]], if Owns(w.owner, l, t) then w.owner - {l} else w.owner))
  }

  ghost predicate IsRun(progs: map<Tid, seq<Act>>, run: seq<World>, who: seq<Tid>) {
    && |run| == |who| + 1
    && run[0] == World(progs, map[])
    && forall n :: 0 <= n < |who| ==> who[n] in run[n].rest && Next(run[n], who[n]) == Some(run[n + 1])
  }

  function Mine(owner: map<Lock, Tid>, t: Tid): set<Lock> {
    set l | l in owner && owner[l] == t
  }

  /** From the locks it owns every thread climbs to its end. */
  ghost predicate Inv(rank: Lock -> int, w: World) {
    && (forall l :: l in w.owner ==> w.owner[l] in w.rest)
    && (forall t :: t in w.rest ==>
          ClimbsFrom(rank, Mine(w.owner, t), w.rest[t]) && HeldFrom(Mine(w.owner, t), w.rest[t]) == {})
  }

  lemma NextKeeps(rank: Lock -> int, w: World, t: Tid)
    requires Inv(rank, w) && t in w.rest && Next(w, t).Some?
    ensures Inv(rank, Next(w, t).value)
  {
    var w' := Next(w, t).value;
    var a := w.rest[t][0];
    assert Mine(w'.owner, t) == After(Mine(w.owner, t), a);
    forall u | u in w'.rest && u != t ensures Mine(w'.owner, u) == Mine(w.owner, u) {
      assert a.Give? ==> Owns(w.owner, a.l, t);
    }
  }

  lemma {:induction false} RunInv(rank: Lock -> int, progs: map<Tid, seq<Act>>, run: seq<World>, who: seq<Tid>, n: nat)
    requires (forall t :: t in progs ==> Climbing(rank, progs[t])) && IsRun(progs, run, who) && n < |run|
    ensures Inv(rank, run[n])
  {
    if n > 0 {
      RunInv(rank, progs, run, who, n - 1);
      assert Next(run[n - 1], who[n - 1]) == Some(run[n - 1 + 1]);
      NextKeeps(rank, run[n - 1], who[n - 1]);
    } else {
      assert forall t :: Mine(map[], t) == {};
    }
  }

  /** In every state of every interleaving of climbing programs, either all have
      finished or some thread can go on. */
  lemma NeverStuck(rank: Lock -> int, progs: map<Tid, seq<Act>>, run: seq<World>, who: seq<Tid>, n: nat)
    requires (forall t :: t in progs ==> Climbing(rank, progs[t])) && IsRun(progs, run, who) && n < |run|
    ensures (forall t :: t in run[n].rest ==> run[n].rest[t] == [])
            || (exists t :: t in run[n].rest && Next(run[n], t).Some?)
  {
    RunInv(rank, progs, run, who, n);
    Unstuck(rank, run[n]);
  }

  lemma Unstuck(rank: Lock -> int, w: World)
    requires Inv(rank, w)
    ensures (forall t :: t in w.rest ==> w.rest[t] == []) || (exists t :: t in w.rest && Next(w, t).Some?)
  {
    if u :| u in w.rest && w.rest[u] != [] {
      var waiting := map t | t in w.rest && w.rest[t] != [] && w.rest[t][0].Take? :: w.rest[t][0].l;
      if waiting == map[] {
        assert u !in waiting;
        assert Next(w, u).Some?;
      } else {
        forall t | t in waiting ensures Climbs(w.owner, t, waiting[t], rank) {
          assert forall l :: Owns(w.owner, l, t) ==> l in Mine(w.owner, t);
        }
        NoCycle(w.owner, waiting, rank);
        var t :| t in waiting && (waiting[t] in w.owner ==> w.owner[waiting[t]] !in waiting);
        if waiting[t] !in w.owner {
          assert Next(w, t).Some?;
        } else {
          var v := w.owner[waiting[t]];
          assert waiting[t] in Mine(w.owner, v);
          assert Next(w, v).Some?;
        }
      }
    }
  }

  // ----- programs that no rank orders --------------------------------------------------

  /** Somewhere prog takes m while it holds l. */
  ghost predicate TakesUnder(prog: seq<Act>, l: Lock, m: Lock) {
    exists a, b :: prog == a + [Take(m)] + b && l in HeldFrom({}, a)
  }

  lemma TakesUnderClimbs(rank: Lock -> int, prog: seq<Act>, l: Lock, m: Lock)
    requires TakesUnder(prog, l, m)
    ensures Climbing(rank, prog) ==> rank(l) < rank(m)
  {
    var a, b :| prog == a + [Take(m)] + b && l in HeldFrom({}, a);
    Appended(rank, {}, a + [Take(m)], b);
    Appended(rank, {}, a, [Take(m)]);
  }

  /** No rank lets one program take m under l and another take l under m. */
  lemma NoCommonRank(rank: Lock -> int, p: seq<Act>, q: seq<Act>, l: Lock, m: Lock)
    requires TakesUnder(p, l, m) && TakesUnder(q, m, l)
    ensures !(Climbing(rank, p) && Climbing(rank, q))
  {
    TakesUnderClimbs(rank, p, l, m);
    TakesUnderClimbs(rank, q, m, l);
  }

  // ----- a thread on its own -------------------------------------------------------------

  /** No act takes a lock that somebody other than t owns. */
  ghost predicate Unopposed(owner: map<Lock, Tid>, t: Tid, acts: seq<Act>) {
    forall j :: 0 <= j < |acts| && acts[j].Take? && acts[j].l in owner ==> owner[acts[j].l] == t
  }

  ghost function Last(run: seq<World>, who: seq<Tid>): World
    requires |run| == |who| + 1
  {
    run[|who|]
  }

  /** Thread t can go through acts that climb and that nobody opposes, whatever the
      others wait for. */
  lemma {:induction false} RunAlone(rank: Lock -> int, progs: map<Tid, seq<Act>>, run: seq<World>, who: seq<Tid>,
                                    t: Tid, acts: seq<Act>, rest: seq<Act>)
    returns (run': seq<World>, who': seq<Tid>)
    requires IsRun(progs, run, who) && t in Last(run, who).rest && Last(run, who).rest[t] == acts + rest
    requires ClimbsFrom(rank, Mine(Last(run, who).owner, t), acts) && Unopposed(Last(run, who).owner, t, acts)
    ensures IsRun(progs, run', who')
    ensures Last(run', who').rest == Last(run, who).rest[t := rest]
    ensures Mine(Last(run', who').owner, t) == HeldFrom(Mine(Last(run, who).owner, t), acts)
    ensures forall u :: u != t ==> Mine(Last(run', who').owner, u) == Mine(Last(run, who).owner, u)
    decreases |acts|
  {
    var w := Last(run, who);
    if acts == [] {
      assert acts + rest == rest;
      assert w.rest[t := rest] == w.rest;
      run', who' := run, who;
    } else {
      var a := acts[0];
      assert (acts + rest)[0] == a && (acts + rest)[1..] == acts[1..] + rest;
      assert a.Take? && a.l in w.owner ==> a.l in Mine(w.owner, t);
      assert a.Give? ==> Owns(w.owner, a.l, t);
      var w' := Next(w, t).value;
      assert Mine(w'.owner, t) == After(Mine(w.owner, t), a);
      assert forall u :: u != t ==> Mine(w'.owner, u) == Mine(w.owner, u);
      StillUnopposed(w.owner, w'.owner, t, acts);
      Extended(progs, run, who, t, w');
      run', who' := RunAlone(rank, progs, run + [w'], who + [t], t, acts[1..], rest);
      assert w'.rest[t := rest] == w.rest[t := rest];
    }
  }

  lemma StillUnopposed(owner: map<Lock, Tid>, owner': map<Lock, Tid>, t: Tid, acts: seq<Act>)
    requires acts != [] && Unopposed(owner, t, acts) && forall u :: u != t ==> Mine(owner', u) == Mine(owner, u)
    ensures Unopposed(owner', t, acts[1..])
  {
    forall j | 0 <= j < |acts[1..]| && acts[1..][j].Take? && acts[1..][j].l in owner'
      ensures owner'[acts[1..][j].l] == t
    {
      var l, u := acts[1..][j].l, owner'[acts[1..][j].l];
      assert acts[j + 1].l == l;
      assert l in Mine(owner', u);
      assert u != t ==> l in Mine(owner, u);
    }
  }

  lemma Extended(progs: map<Tid, seq<Act>>, run: seq<World>, who: seq<Tid>, t: Tid, w': World)
    requires IsRun(progs, run, who) && t in Last(run, who).rest && Next(Last(run, who), t) == Some(w')
    ensures IsRun(progs, run + [w'], who + [t])
  {
    var r, h := run + [w'], who + [t];
    forall n | 0 <= n < |h| ensures h[n] in r[n].rest && Next(r[n], h[n]) == Some(r[n + 1]) {
      if n < |who| { assert who[n] in run[n].rest && Next(run[n], who[n]) == Some(run[n + 1]); }
    }
  }
}
