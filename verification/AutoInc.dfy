/** Auto-increment reservation: the 64-bit arithmetic of one attempt, and the
    compare-and-swap loops of reserve, observe and set over every interleaving. */
module AutoInc {
  import opened Keys

  const U64: nat := 0x1_0000_0000_0000_0000

  newtype u64 = x: int | 0 <= x < 0x1_0000_0000_0000_0000

  function Add(a: u64, b: u64): u64 { ((a as int + b as int) % U64) as u64 }

  function Mul(a: u64, b: u64): u64 { ((a as int * b as int) % U64) as u64 }

  lemma {:induction false} NotNegative(a: nat, b: nat)
    ensures a * b >= 0
  {
    if a > 0 {
      NotNegative(a - 1, b);
      assert a * b == (a - 1) * b + b;
    }
  }

  /** What a caller asks for; zero fields stand for one. */
  datatype Ask = Ask(offset: u64, inc: u64, nb: u64)
  {
    function Norm(): Ask {
      Ask(if offset == 0 then 1 else offset, if inc == 0 then 1 else inc, if nb == 0 then 1 else nb)
    }

    predicate Normal() { offset > 0 && inc > 0 && nb > 0 }

    /** The distance between the first and the last value asked for. */
    function Span(): nat
      requires Normal()
    {
      NotNegative(nb as int - 1, inc as int);
      (nb as int - 1) * inc as int
    }
  }

  /** The first value handed out and the new counter. */
  datatype Offer = Offer(first: u64, last: u64)

  /** ((r + inc - 1) / inc) * inc + offset, as the code computes it. */
  function Align(offset: u64, inc: u64, v: u64): u64
    requires inc > 0
  {
    var r: u64 := if v > offset then v - offset else 0;
    var sum := Add(r, inc - 1);
    Add(offset, Mul(sum / inc, inc))
  }

  /** One attempt from counter value cur; None is the overflow result 0. */
  function Attempt(cur: u64, a: Ask): (o: Option<Offer>)
    requires a.Normal()
  {
    var v := Add(cur, 1);
    if v == 0 then None
    else if a.inc == 1 then Finish(v, a)
    else
      var v2 := Align(a.offset, a.inc, v);
      if v2 < v then None
      else if v2 > cur then Finish(v2, a)
      else
        var w := Add(cur, a.inc);
        if w <= cur then None
        else
          var v3 := Align(a.offset, a.inc, w);
          if v3 < w || v3 == 0 then None else Finish(v3, a)
  }

  function Finish(v: u64, a: Ask): (o: Option<Offer>)
    requires a.Normal()
  {
    var last := Add(v, Mul(a.nb - 1, a.inc));
    if last < v then None else Some(Offer(v, last))
  }

  // ----- what an attempt means ---------------------------------------------

  /** x is offset + i * inc for some i >= 0. */
  ghost predicate InSeries(a: Ask, x: int) {
    exists i: nat :: x == Term(a, i)
  }

  function Term(a: Ask, i: nat): nat { a.offset as int + i * a.inc as int }

  /** The value an attempt from cur ought to hand out: cur + 1, or for inc > 1
      the least element of the series above cur. */
  ghost predicate IsNext(a: Ask, cur: u64, x: nat) {
    if a.inc == 1 then x == cur as int + 1
    else x > cur as int && InSeries(a, x) && forall y: int :: InSeries(a, y) && y > cur as int ==> x <= y
  }

  /** The number of steps from the offset to the next value, without wrap. */
  function Steps(a: Ask, cur: u64): nat
    requires a.Normal()
  {
    if cur < a.offset then 0 else (cur as int - a.offset as int) / a.inc as int + 1
  }

  function NextValue(a: Ask, cur: u64): nat
    requires a.Normal()
  {
    if a.inc == 1 then cur as int + 1 else Term(a, Steps(a, cur))
  }

  /** The rounding addition of the code stays below 2^64. */
  predicate Roomy(a: Ask, cur: u64)
    requires a.Normal()
  {
    a.inc == 1 || cur < a.offset || cur as int - a.offset as int + a.inc as int < U64
  }

  lemma MulMono(x: int, y: int, d: int)
    requires x <= y && d >= 0
    ensures x * d <= y * d
  {
  }

  /** x / d * d is x rounded down to a multiple of d. */
  lemma RoundDown(x: nat, d: nat)
    requires d > 0
    ensures x - d < x / d * d <= x
  {
  }

  lemma CeilIsFloor(x: nat, d: nat)
    requires d > 0
    ensures (x + d) / d == x / d + 1
  {
    var q := x / d;
    assert x + d == (q + 1) * d + x % d;
    DivUnique(x + d, d, q + 1, x % d);
  }

  lemma DivUnique(x: nat, d: nat, q: nat, m: nat)
    requires d > 0 && x == q * d + m && m < d
    ensures x / d == q
  {
    var p := x / d;
    RoundDown(x, d);
    if p < q {
      MulMono(p + 1, q, d);
    } else if p > q {
      MulMono(q + 1, p, d);
    }
  }

  lemma AddIs(x: u64, y: u64)
    ensures Add(x, y) as int == if x as int + y as int < U64 then x as int + y as int else x as int + y as int - U64
  {
  }

  lemma MulIs(x: u64, y: u64)
    requires x as int * y as int < U64
    ensures Mul(x, y) as int == x as int * y as int
  {
  }

  lemma SmallDiv(x: u64, d: u64)
    requires x < d
    ensures x / d == 0 && Mul(x / d, d) == 0
  {
  }

  lemma {:induction false} LeastTerm(a: Ask, cur: u64, y: int)
    requires a.Normal() && InSeries(a, y) && y > cur as int
    ensures Term(a, Steps(a, cur)) <= y
  {
    var n, d := Steps(a, cur), a.inc as int;
    var i: nat :| y == Term(a, i);
    if i < n {
      RoundDown(cur as int - a.offset as int, d);
      MulMono(i, n - 1, d);
    } else {
      MulMono(n, i, d);
    }
  }

  lemma StepsSpan(a: Ask, cur: u64)
    requires a.Normal() && cur >= a.offset
    ensures cur as int < Term(a, Steps(a, cur)) <= cur as int + a.inc as int
  {
    var x, d := cur as int - a.offset as int, a.inc as int;
    RoundDown(x, d);
    assert (x / d + 1) * d == x / d * d + d;
  }

  /** NextValue is the least element of the series above the counter. */
  lemma NextIsLeast(a: Ask, cur: u64)
    requires a.Normal()
    ensures IsNext(a, cur, NextValue(a, cur))
    ensures cur as int + 1 <= NextValue(a, cur)
    ensures cur >= a.offset ==> NextValue(a, cur) <= cur as int + a.inc as int
  {
    if cur >= a.offset {
      StepsSpan(a, cur);
    } else {
      assert Term(a, 0) == a.offset as int;
    }
    assert InSeries(a, Term(a, Steps(a, cur)));
    hide InSeries, Term;
    forall y: int | a.inc != 1 && InSeries(a, y) && y > cur as int ensures NextValue(a, cur) <= y {
      LeastTerm(a, cur, y);
    }
  }

  /** Rounding without wrap in the sum: the multiplication cannot wrap either. */
  lemma SumFits(a: Ask, cur: u64)
    requires a.Normal() && a.offset <= cur && cur as int + 1 < U64 && Roomy(a, cur) && a.inc > 1
    ensures Mul(Add(cur + 1 - a.offset, a.inc - 1) / a.inc, a.inc) as int == Steps(a, cur) * a.inc as int
  {
    var x, d := cur as int - a.offset as int, a.inc as int;
    var sum := Add(cur + 1 - a.offset, a.inc - 1);
    AddIs(cur + 1 - a.offset, a.inc - 1);
    CeilIsFloor(x, d);
    RoundDown(x + d, d);
    hide Add, Mul;
    assert (sum / a.inc) as int == Steps(a, cur);
    MulIs(sum / a.inc, a.inc);
  }

  /** A sum that wraps is below inc, so the rounding collapses to the offset. */
  lemma SumWraps(a: Ask, cur: u64)
    requires a.Normal() && cur as int + 1 < U64 && !Roomy(a, cur)
    ensures Align(a.offset, a.inc, cur + 1) == a.offset <= cur
  {
    hide Add, Mul;
    var q := Add(cur + 1 - a.offset, a.inc - 1);
    AddIs(cur + 1 - a.offset, a.inc - 1);
    SmallDiv(q, a.inc);
    AddIs(a.offset, 0);
  }

  /** The rounded value the code computes: the next value when everything fits,
      and otherwise something below cur + 1. */
  lemma AlignIs(a: Ask, cur: u64)
    requires a.Normal() && a.inc > 1 && cur as int + 1 < U64
    ensures var v2 := Align(a.offset, a.inc, cur + 1);
            if Roomy(a, cur) && NextValue(a, cur) < U64 then v2 as int == NextValue(a, cur) else v2 <= cur
  {
    if cur < a.offset {
      AlignLow(a, cur);
    } else if Roomy(a, cur) {
      AlignFits(a, cur);
    } else {
      hide Add, Mul;
      SumWraps(a, cur);
    }
  }

  lemma AlignLow(a: Ask, cur: u64)
    requires a.Normal() && a.inc > 1 && cur as int + 1 < U64 && cur < a.offset
    ensures Align(a.offset, a.inc, cur + 1) as int == NextValue(a, cur) && Roomy(a, cur)
  {
    hide Add, Mul;
    AddIs(0, a.inc - 1);
    SmallDiv(a.inc - 1, a.inc);
    AddIs(a.offset, 0);
    assert Term(a, 0) == a.offset as int;
  }

  lemma AlignFits(a: Ask, cur: u64)
    requires a.Normal() && a.inc > 1 && cur as int + 1 < U64 && cur >= a.offset && Roomy(a, cur)
    ensures var v2 := Align(a.offset, a.inc, cur + 1);
            if NextValue(a, cur) < U64 then v2 as int == NextValue(a, cur) else v2 <= cur
  {
    hide Add, Mul;
    var p := Mul(Add(cur + 1 - a.offset, a.inc - 1) / a.inc, a.inc);
    assert Align(a.offset, a.inc, cur + 1) == Add(a.offset, p);
    SumFits(a, cur);
    assert NextValue(a, cur) == Term(a, Steps(a, cur)) == a.offset as int + p as int;
    hide Term, Steps, NextValue, Align, Roomy;
    StepsSpan(a, cur);
    AddIs(a.offset, p);
  }

  /** An attempt without the second rounding. */
  function PlainAttempt(cur: u64, a: Ask): (o: Option<Offer>)
    requires a.Normal()
  {
    var v := Add(cur, 1);
    if v == 0 then None
    else if a.inc == 1 then Finish(v, a)
    else
      var v2 := Align(a.offset, a.inc, v);
      if v2 < v then None else Finish(v2, a)
  }

  /** The second rounding of the code is dead: attempts are the same without it. */
  lemma FallbackIsDead(cur: u64, a: Ask)
    requires a.Normal()
    ensures Attempt(cur, a) == PlainAttempt(cur, a)
  {
    AddIs(cur, 1);
    hide Add, Align, Finish;
  }

  lemma RoomyByOne(a: Ask, cur: u64)
    requires a.Normal()
    ensures a.inc == 1 ==> Roomy(a, cur)
  {
  }

  /** Every attempt: it succeeds exactly when the rounding addition does not
      wrap, the next value fits and the wrapped span fits above it; the value
      handed out is then the next value, and the new counter is the true last
      value of the interval exactly when the span itself does not wrap. */
  lemma AttemptExact(cur: u64, a: Ask)
    requires a.Normal()
    ensures var x, o := NextValue(a, cur), Attempt(cur, a);
            && IsNext(a, cur, x)
            && (o.Some? <==> Roomy(a, cur) && x + a.Span() % U64 < U64)
            && (o.Some? ==> o.value.first as int == x && o.value.last as int == x + a.Span() % U64)
  {
    NextIsLeast(a, cur);
    AddIs(cur, 1);
    forall v: u64
      ensures Finish(v, a) ==
                if v as int + a.Span() % U64 < U64 then Some(Offer(v, v + (a.Span() % U64) as u64)) else None
    {
      AddIs(v, Mul(a.nb - 1, a.inc));
    }
    hide Add, Mul, Align, Finish, IsNext, Steps, Ask.Span, Roomy;
    if cur as int + 1 < U64 && a.inc > 1 {
      AlignIs(a, cur);
    }
    assert a.inc == 1 ==> Roomy(a, cur) by { RoomyByOne(a, cur); }
  }

  /** Reservation arithmetic for a span below 2^64: the result is 0 exactly
      when the true interval does not fit or the rounding addition wraps. */
  lemma ReserveCorrect(cur: u64, a: Ask)
    requires a.Normal() && a.Span() < U64
    ensures var o := Attempt(cur, a);
            && (o.Some? <==> Roomy(a, cur) && NextValue(a, cur) + a.Span() < U64)
            && (o.Some? ==>
                  IsNext(a, cur, o.value.first as int) && o.value.last as int == o.value.first as int + a.Span())
  {
    AttemptExact(cur, a);
    assert a.Span() % U64 == a.Span();
  }

  /** The refusal can be spurious: from 2^64 - 9, in steps of 10 from 1, the next
      value 2^64 - 5 fits, and the code still reports overflow. */
  lemma SpuriousOverflow()
    ensures var a := Ask(1, 10, 1);
            && Attempt(0xffff_ffff_ffff_fff7, a) == None
            && IsNext(a, 0xffff_ffff_ffff_fff7, 0xffff_ffff_ffff_fffb)
            && 0xffff_ffff_ffff_fffb + a.Span() < U64
  {
    var a := Ask(1, 10, 1);
    var cur: u64 := 0xffff_ffff_ffff_fff7;
    NextIsLeast(a, cur);
    AttemptExact(cur, a);
    DivUnique(0xffff_ffff_ffff_fff6, 10, 0x1999_9999_9999_9998, 6);
    assert Steps(a, cur) == 0x1999_9999_9999_9999;
    assert NextValue(a, cur) == 0xffff_ffff_ffff_fffb;
  }

  // ----- the compare-and-swap loops ---------------------------------------

  type Tid = nat

  /** A reserve, or an observe/set that raises the counter to a value, with the
      counter value it last saw. */
  datatype Pc =
    | Idle
    | Reserving(a: Ask, seen: Option<u64>)
    | Raising(value: u64, seen: Option<u64>)

  /** What has taken effect: an interval handed out, or a value the counter was
      raised to (or found at or above). */
  datatype Event =
    | Took(first: u64, last: u64, inc: u64, nb: u64)
    | Saw(value: u64)
  {
    function Top(): u64 { if Took? then last else value }
  }

  datatype Call = Reserve(offset: u64, inc: u64, nb: u64) | Observe(value: u64) | SetNext(value: u64)

  /** log and calls are auxiliary: what has taken effect, and what each thread was last
      called for. */
  datatype World = World(counter: u64, th: map<Tid, Pc>, log: seq<Event>, calls: map<Tid, Call>)

  /** How a call starts.  Setting the next value to use raises the counter to
      the value before it. */
  function Start(c: Call): Pc {
    match c
    case Reserve(offset, inc, nb) => Reserving(Ask(offset, inc, nb).Norm(), None)
    case Observe(value) => Raising(value, None)
    case SetNext(value) => Raising(if value > 0 then value - 1 else 0, None)
  }

  function Go(w: World, t: Tid, pc: Pc): World { w.(th := w.th[t := pc]) }

  /** The swap of thread t takes effect. */
  function Commit(w: World, t: Tid, e: Event): World {
    Go(w.(counter := e.Top(), log := w.log + [e]), t, Idle)
  }

  /** The compare-and-swap from cur to e.Top(): it can succeed only while the
      counter is cur, and may also fail spuriously; failing loads the counter. */
  ghost predicate Swap(w: World, t: Tid, cur: u64, e: Event, retry: Pc, w': World) {
    (w.counter == cur && w' == Commit(w, t, e)) || w' == Go(w, t, retry)
  }

  ghost predicate ReserveStep(w: World, t: Tid, a: Ask, cur: u64, w': World)
    requires a.Normal()
  {
    match Attempt(cur, a)
    case None => w' == Go(w, t, Idle)
    case Some(o) => Swap(w, t, cur, Took(o.first, o.last, a.inc, a.nb), Reserving(a, Some(w.counter)), w')
  }

  ghost predicate RaiseStep(w: World, t: Tid, value: u64, cur: u64, w': World) {
    if value <= cur then w' == Go(w.(log := w.log + [Saw(value)]), t, Idle)
    else Swap(w, t, cur, Saw(value), Raising(value, Some(w.counter)), w')
  }

  /** Thread t is called. */
  ghost predicate Calls(w: World, t: Tid, c: Call, w': World) {
    w' == Go(w.(calls := w.calls[t := c]), t, Start(c))
  }

  ghost predicate Step(w: World, t: Tid, w': World) {
    t in w.th &&
    match w.th[t]
    case Idle => exists c: Call :: Calls(w, t, c, w')
    case Reserving(a, None) => w' == Go(w, t, Reserving(a, Some(w.counter)))
    case Reserving(a, Some(cur)) => a.Normal() && ReserveStep(w, t, a, cur, w')
    case Raising(v, None) => w' == Go(w, t, Raising(v, Some(w.counter)))
    case Raising(v, Some(cur)) => RaiseStep(w, t, v, cur, w')
  }

  /** A run from an untouched counter, who[n] taking the n-th step. */
  ghost predicate IsRun(run: seq<World>, who: seq<Tid>) {
    && |run| == |who| + 1
    && run[0].log == [] && (forall t :: t in run[0].th ==> run[0].th[t] == Idle)
    && forall n :: 0 <= n < |who| ==> Step(run[n], who[n], run[n + 1])
  }

  /** The j-th value of an interval. */
  function ValueOf(e: Event, j: nat): nat
    requires e.Took?
  {
    NotNegative(j, e.inc as int);
    e.first as int + j * e.inc as int
  }

  /** The true distance from the first to the last value of an interval. */
  function SpanOf(e: Event): nat
    requires e.Took? && e.nb > 0
  {
    NotNegative(e.nb as int - 1, e.inc as int);
    (e.nb as int - 1) * e.inc as int
  }

  predicate Seen(pc: Pc, counter: u64) {
    match pc
    case Idle => true
    case Reserving(a, seen) => a.Normal() && (seen.Some? ==> seen.value <= counter)
    case Raising(_, seen) => seen.Some? ==> seen.value <= counter
  }

  /** An interval lies above everything that took effect before it. */
  ghost predicate Above(e: Event, earlier: seq<Event>) {
    e.Took? ==>
      && e.first <= e.last && e.nb > 0
      && (SpanOf(e) < U64 ==> e.last as int == e.first as int + SpanOf(e))
      && forall p :: 0 <= p < |earlier| ==> earlier[p].Top() < e.first
  }

  ghost predicate Inv(w: World) {
    && (forall t :: t in w.th ==> Seen(w.th[t], w.counter))
    && (forall p :: 0 <= p < |w.log| ==> w.log[p].Top() <= w.counter)
    && (forall p :: 0 <= p < |w.log| ==> Above(w.log[p], w.log[..p]))
  }

  /** An event that takes effect at the end of the log, above the counter. */
  lemma Append(log: seq<Event>, e: Event, counter: u64)
    requires forall p :: 0 <= p < |log| ==> log[p].Top() <= counter
    requires forall p :: 0 <= p < |log| ==> Above(log[p], log[..p])
    requires Above(e, []) && (e.Took? ==> counter < e.first)
    ensures forall p :: 0 <= p <= |log| ==> Above((log + [e])[p], (log + [e])[..p])
  {
    forall p | 0 <= p <= |log| ensures Above((log + [e])[p], (log + [e])[..p]) {
      if p < |log| {
        assert (log + [e])[..p] == log[..p];
      } else {
        assert (log + [e])[..p] == log;
      }
    }
  }

  /** What an attempt on cur takes lies above cur. */
  lemma TakesAbove(cur: u64, a: Ask)
    requires a.Normal() && Attempt(cur, a).Some?
    ensures var o := Attempt(cur, a).value;
            cur < o.first <= o.last && Above(Took(o.first, o.last, a.inc, a.nb), [])
  {
    AttemptExact(cur, a);
    hide Attempt, NextValue, Roomy;
  }

  lemma StepKeepsInv(w: World, t: Tid, w': World)
    requires Inv(w) && Step(w, t, w')
    ensures Inv(w') && w.counter <= w'.counter && w.log <= w'.log
  {
    match w.th[t] {
      case Idle =>
        var c: Call :| Calls(w, t, c, w');
        GoKeeps(w.(calls := w.calls[t := c]), t, Start(c));
      case Reserving(a, None) => GoKeeps(w, t, Reserving(a, Some(w.counter)));
      case Reserving(a, Some(cur)) => ReserveKeeps(w, t, a, cur, w');
      case Raising(v, None) => GoKeeps(w, t, Raising(v, Some(w.counter)));
      case Raising(v, Some(cur)) => RaiseKeeps(w, t, v, cur, w');
    }
  }

  lemma GoKeeps(w: World, t: Tid, pc: Pc)
    requires Inv(w) && Seen(pc, w.counter)
    ensures Inv(Go(w, t, pc))
  {
    hide Above;
  }

  lemma CommitKeeps(w: World, t: Tid, e: Event)
    requires Inv(w) && Above(e, []) && w.counter <= e.Top() && (e.Took? ==> w.counter < e.first)
    ensures Inv(Commit(w, t, e))
  {
    Append(w.log, e, w.counter);
    hide Above;
  }

  lemma ReserveKeeps(w: World, t: Tid, a: Ask, cur: u64, w': World)
    requires Inv(w) && a.Normal() && cur <= w.counter && ReserveStep(w, t, a, cur, w')
    ensures Inv(w') && w.counter <= w'.counter && w.log <= w'.log
  {
    hide Inv, Above, Attempt;
    match Attempt(cur, a) {
      case None => GoKeeps(w, t, Idle);
      case Some(o) =>
        GoKeeps(w, t, Reserving(a, Some(w.counter)));
        TakesAbove(cur, a);
        if w.counter == cur { CommitKeeps(w, t, Took(o.first, o.last, a.inc, a.nb)); }
    }
  }

  lemma RaiseKeeps(w: World, t: Tid, v: u64, cur: u64, w': World)
    requires Inv(w) && cur <= w.counter && RaiseStep(w, t, v, cur, w')
    ensures Inv(w') && w.counter <= w'.counter && w.log <= w'.log
  {
    if v <= cur {
      Append(w.log, Saw(v), w.counter);
    } else {
      hide Inv;
      GoKeeps(w, t, Raising(v, Some(w.counter)));
      if w.counter == cur { CommitKeeps(w, t, Saw(v)); }
    }
  }

  lemma {:induction false} RunInv(run: seq<World>, who: seq<Tid>, n: nat)
    requires IsRun(run, who) && n < |run|
    ensures Inv(run[n])
  {
    if n > 0 {
      RunInv(run, who, n - 1);
      assert Step(run[n - 1], who[n - 1], run[n - 1 + 1]);
      StepKeepsInv(run[n - 1], who[n - 1], run[n]);
    }
  }

  /** The counter never decreases, and what took effect stays in effect. */
  lemma {:induction false} NeverDecreases(run: seq<World>, who: seq<Tid>, m: nat, n: nat)
    requires IsRun(run, who) && m <= n < |run|
    ensures run[m].counter <= run[n].counter && run[m].log <= run[n].log
    decreases n
  {
    if m < n {
      NeverDecreases(run, who, m, n - 1);
      RunInv(run, who, n - 1);
      assert Step(run[n - 1], who[n - 1], run[n - 1 + 1]);
      StepKeepsInv(run[n - 1], who[n - 1], run[n]);
    }
  }

  /** The values of an interval lie between its first and its last. */
  lemma ValuesBetween(e: Event, j: nat)
    requires e.Took? && j < e.nb as int
    ensures e.first as int <= ValueOf(e, j) <= e.first as int + SpanOf(e)
  {
    MulMono(j, e.nb as int - 1, e.inc as int);
  }

  /** Over every interleaving: each value handed out exceeds every value
      observed or handed out by an earlier reservation, so reservations are
      pairwise disjoint.  The earlier reservation's span must be below 2^64. */
  lemma Disjoint(run: seq<World>, who: seq<Tid>, n: nat, p: nat, q: nat, j: nat)
    requires IsRun(run, who) && n < |run| && p < q < |run[n].log|
    requires run[n].log[q].Took? && j < run[n].log[q].nb as int
    ensures var e, f := run[n].log[p], run[n].log[q];
            && (e.Saw? ==> e.value as int < ValueOf(f, j))
            && (e.Took? && e.nb > 0 && SpanOf(e) < U64 ==>
                  forall i :: 0 <= i < e.nb as int ==> ValueOf(e, i) < ValueOf(f, j))
            && (SpanOf(f) < U64 ==> ValueOf(f, j) <= run[n].counter as int)
  {
    RunInv(run, who, n);
    var e, f := run[n].log[p], run[n].log[q];
    assert run[n].log[..q][p] == e;
    assert Above(e, run[n].log[..p]) && Above(f, run[n].log[..q]);
    ValuesBetween(f, j);
    if e.Took? && SpanOf(e) < U64 {
      forall i | 0 <= i < e.nb as int ensures ValueOf(e, i) < ValueOf(f, j) {
        ValuesBetween(e, i);
      }
    }
  }

  // ----- what the calls get -------------------------------------------------------

  function OneIfZero(x: u64): u64 { if x == 0 then 1 else x }

  /** What a thread works at is what it was called for: a reservation with the offset,
      increment and count of the call, zero read as one, or the value to raise to. */
  ghost predicate Serves(w: World, t: Tid)
    requires t in w.th
  {
    match w.th[t]
    case Idle => true
    case Reserving(a, _) =>
      && t in w.calls && w.calls[t].Reserve?
      && a == Ask(OneIfZero(w.calls[t].offset), OneIfZero(w.calls[t].inc), OneIfZero(w.calls[t].nb))
    case Raising(v, _) => t in w.calls && RaisesTo(w.calls[t]) == Some(v as int)
  }

  /** The value up to which a call sees to it that none is handed out any more. */
  function RaisesTo(c: Call): Option<int> {
    match c
    case Reserve(_, _, _) => None
    case Observe(v) => Some(v as int)
    case SetNext(v) => Some(if v == 0 then 0 else v as int - 1)
  }

  lemma {:induction false} RunServes(run: seq<World>, who: seq<Tid>, n: nat, t: Tid)
    requires IsRun(run, who) && n < |run| && t in run[n].th
    ensures Serves(run[n], t)
  {
    if n > 0 {
      assert Step(run[n - 1], who[n - 1], run[n - 1 + 1]);
      hide Attempt;
      RunServes(run, who, n - 1, t);
    }
  }

  /** Thread t comes back from its call with step n. */
  ghost predicate Returns(run: seq<World>, who: seq<Tid>, n: nat, t: Tid) {
    && IsRun(run, who) && n < |who| && who[n] == t && t in run[n].th && !run[n].th[t].Idle?
    && t in run[n + 1].th && run[n + 1].th[t].Idle?
  }

  /** How a call ends.  Observing or setting raises the counter to its value if it was
      below, whatever others do; a reservation takes what an attempt on the counter
      gives, or, refused on a counter it has seen, nothing. */
  lemma CallEnds(run: seq<World>, who: seq<Tid>, n: nat, t: Tid)
    requires Returns(run, who, n, t)
    ensures t in run[n].calls
    ensures match run[n].calls[t]
            case Observe(v) => run[n + 1].counter == if run[n].counter < v then v else run[n].counter
            case SetNext(v) =>
              run[n + 1].counter as int ==
                if v > 0 && run[n].counter as int < v as int - 1 then v as int - 1 else run[n].counter as int
            case Reserve(offset, inc, nb) =>
              var a := Ask(OneIfZero(offset), OneIfZero(inc), OneIfZero(nb));
              if run[n + 1].log == run[n].log
              then
                && run[n + 1].counter == run[n].counter
                && exists cur :: cur <= run[n].counter && Attempt(cur, a).None?
              else
                var o := Attempt(run[n].counter, a);
                && o.Some? && run[n + 1].counter == o.value.last
                && run[n + 1].log == run[n].log + [Took(o.value.first, o.value.last, OneIfZero(inc), OneIfZero(nb))]
  {
    RunInv(run, who, n);
    RunServes(run, who, n, t);
    assert Step(run[n], t, run[n + 1]);
    hide Attempt;
    assert Seen(run[n].th[t], run[n].counter);
  }

  /** Once a call to observe v is back, every value handed out later exceeds v. */
  lemma ObservedIsPast(run: seq<World>, who: seq<Tid>, m: nat, n: nat, t: Tid, q: nat, j: nat)
    requires Returns(run, who, m, t) && m < n < |run| && t in run[m].calls && RaisesTo(run[m].calls[t]).Some?
    requires |run[m + 1].log| <= q < |run[n].log| && run[n].log[q].Took? && j < run[n].log[q].nb as int
    ensures RaisesTo(run[m].calls[t]).value <= run[n].counter as int
    ensures RaisesTo(run[m].calls[t]).value < ValueOf(run[n].log[q], j)
  {
    var v := RaisesTo(run[m].calls[t]).value;
    CallEnds(run, who, m, t);
    NeverDecreases(run, who, m + 1, n);
    RunInv(run, who, n);
    RunServes(run, who, m, t);
    assert Step(run[m], t, run[m + 1]);
    assert run[m + 1].log[|run[m].log|] == Saw(v as u64);
    hide Step, Inv, Attempt;
    Disjoint(run, who, n, |run[m].log|, q, j);
  }

  /** A call that no other thread disturbs. */
  lemma {:induction false} Undisturbed(run: seq<World>, who: seq<Tid>, m: nat, n: nat, t: Tid, c: Call)
    requires IsRun(run, who) && m < n < |run| && t in run[m].th && run[m].th[t].Idle? && Calls(run[m], t, c, run[m + 1])
    requires forall j :: m <= j < n ==> who[j] == t
    requires forall j :: m < j <= n ==> t in run[j].th && !run[j].th[t].Idle?
    ensures run[n].counter == run[m].counter && t in run[n].calls && run[n].calls[t] == c
    ensures run[n].log == run[m].log
    ensures run[n].th[t].seen.Some? ==> run[n].th[t].seen.value == run[m].counter
    decreases n
  {
    if m + 1 < n {
      Undisturbed(run, who, m, n - 1, t, c);
      assert Step(run[n - 1], who[n - 1], run[n - 1 + 1]);
      hide Attempt;
    }
  }

  /** Alone, from counter c: observe(v) leaves max(c, v), set(v) leaves max(c, v - 1) or,
      for 0, c, and a reservation gets what one attempt on c gives. */
  lemma Alone(run: seq<World>, who: seq<Tid>, m: nat, n: nat, t: Tid, c: Call)
    requires Returns(run, who, n, t) && m < n && t in run[m].th && run[m].th[t].Idle? && Calls(run[m], t, c, run[m + 1])
    requires forall j :: m <= j < n ==> who[j] == t
    requires forall j :: m < j <= n ==> t in run[j].th && !run[j].th[t].Idle?
    ensures match c
            case Observe(v) => run[n + 1].counter == if run[m].counter < v then v else run[m].counter
            case SetNext(v) =>
              run[n + 1].counter as int ==
                if v > 0 && run[m].counter as int < v as int - 1 then v as int - 1 else run[m].counter as int
            case Reserve(offset, inc, nb) =>
              var o := Attempt(run[m].counter, Ask(OneIfZero(offset), OneIfZero(inc), OneIfZero(nb)));
              && run[n + 1].counter == (if o.Some? then o.value.last else run[m].counter)
              && run[n + 1].log ==
                   run[m].log + if o.Some? then [Took(o.value.first, o.value.last, OneIfZero(inc), OneIfZero(nb))]
                       else []
  {
    Undisturbed(run, who, m, n, t, c);
    CallEnds(run, who, n, t);
    RunServes(run, who, n, t);
    assert Step(run[n], t, run[n + 1]);
    hide Attempt;
  }

  /** Without that bound a wrap goes unnoticed: the span 2^32 * 2^32 counts as
      zero, and the next reservation hands out 2^32 + 1 a second time. */
  lemma UnnoticedWrap()
    ensures var a := Ask(1, 0x1_0000_0000, 0x1_0000_0001);
            && a.Span() == U64
            && Attempt(0, a) == Some(Offer(1, 1))
            && Attempt(1, a) == Some(Offer(0x1_0000_0001, 0x1_0000_0001))
            && ValueOf(Took(1, 1, a.inc, a.nb), 1) == ValueOf(Took(0x1_0000_0001, 0x1_0000_0001, a.inc, a.nb), 0)
  {
    var a := Ask(1, 0x1_0000_0000, 0x1_0000_0001);
    hide Attempt, IsNext, InSeries;
    AttemptExact(0, a);
    AttemptExact(1, a);
    assert a.Span() == 0x1_0000_0000 * 0x1_0000_0000 == U64;
    assert Steps(a, 0) == 0 && Steps(a, 1) == 1;
    assert Term(a, 0) == 1 && Term(a, 1) == 0x1_0000_0001;
    assert NextValue(a, 0) == 1 && NextValue(a, 1) == 0x1_0000_0001;
    assert 1 * 0x1_0000_0000 == 0x1_0000_0000;
  }
}
