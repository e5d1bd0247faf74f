/** Intrusive hash chains.

    One key owns an array of bucket heads and one `next` cell per slot; -1
    ends a chain.  The chains a key represents are given as sequences, and the
    two mutations of the core (link at the head, unlink through a cell) are
    shown to keep the representation. */
module Chain {

  const NIL: int := -1

  ghost predicate Distinct(s: seq<nat>) {
    forall p, q :: 0 <= p < q < |s| ==> s[p] != s[q]
  }

  /** The value stored in the cell that leads to position p of a chain. */
  function At(s: seq<nat>, p: nat): int {
    if p < |s| then s[p] else NIL
  }

  lemma AtIs(s: seq<nat>, p: nat)
    ensures if At(s, p) == NIL then p >= |s| else p < |s| && At(s, p) == s[p]
  {
  }

  /** `head` and the `next` cells spell out the sequence s. */
  ghost predicate Spells(head: int, next: seq<int>, s: seq<nat>) {
    && head == At(s, 0)
    && forall p :: 0 <= p < |s| ==> s[p] < |next| && next[s[p]] == At(s, p + 1)
  }

  /** No slot is in two buckets of one key. */
  ghost predicate Apart(ch: seq<seq<nat>>) {
    forall b, c, i :: 0 <= b < |ch| && 0 <= c < |ch| && i in ch[b] && i in ch[c] ==> b == c
  }

  /** The heads and next cells of one key represent the chains ch: every chain
      is finite, ends in NIL and repeats no slot, and no two chains meet. */
  ghost predicate Represents(heads: seq<int>, next: seq<int>, ch: seq<seq<nat>>) {
    && |heads| == |ch|
    && (forall b :: 0 <= b < |ch| ==> Spells(heads[b], next, ch[b]))
    && (forall b :: 0 <= b < |ch| ==> Distinct(ch[b]))
    && Apart(ch)
  }

  ghost predicate Absent(ch: seq<seq<nat>>, i: nat) {
    forall b :: 0 <= b < |ch| ==> i !in ch[b]
  }

  /** The sequence without the element at position p. */
  function Drop(s: seq<nat>, p: nat): (r: seq<nat>)
    requires p < |s|
    ensures |r| == |s| - 1
  {
    s[..p] + s[p + 1..]
  }

  /** The sequence without the first occurrence of i. */
  function Remove(s: seq<nat>, i: nat): (r: seq<nat>) {
    if s == [] then []
    else if s[0] == i then s[1..]
    else [s[0]] + Remove(s[1..], i)
  }

  function LinkIn(ch: seq<seq<nat>>, b: nat, i: nat): (r: seq<seq<nat>>)
    requires b < |ch|
    ensures |r| == |ch|
  {
    ch[b := [i] + ch[b]]
  }

  function UnlinkFrom(ch: seq<seq<nat>>, b: nat, i: nat): (r: seq<seq<nat>>)
    requires b < |ch|
    ensures |r| == |ch|
  {
    ch[b := Remove(ch[b], i)]
  }

  /** What a walk finds at position p, and that it has not run off the chain
      while slot i is still ahead. */
  lemma WalkAt(head: int, next: seq<int>, s: seq<nat>, p: nat, i: nat)
    requires Spells(head, next, s) && p <= |s| && i in s && i !in s[..p]
    ensures p < |s| && (p > 0 ==> s[p - 1] < |next|)
    ensures (if p == 0 then head else next[s[p - 1]]) == s[p]
  {
    assert s == s[..p] + s[p..];
  }

  /** A slot that is in no chain may have its next cell overwritten. */
  lemma ScribbleKeeps(heads: seq<int>, next: seq<int>, ch: seq<seq<nat>>, i: nat, v: int)
    requires Represents(heads, next, ch) && i < |next| && Absent(ch, i)
    ensures Represents(heads, next[i := v], ch)
  {
    forall b | 0 <= b < |ch| ensures Spells(heads[b], next[i := v], ch[b]) {
      assert Spells(heads[b], next, ch[b]);
      assert forall p :: 0 <= p < |ch[b]| ==> ch[b][p] != i;
    }
  }

  /** Writing the head cell completes a link whose next cell already points at
      the old head. */
  lemma LinkKeeps(heads: seq<int>, next: seq<int>, ch: seq<seq<nat>>, b: nat, i: nat)
    requires Represents(heads, next, ch) && b < |ch| && i < |next| && Absent(ch, i)
    requires next[i] == heads[b]
    ensures Represents(heads[b := i], next, LinkIn(ch, b, i))
  {
    var c := LinkIn(ch, b, i);
    assert Spells(heads[b], next, ch[b]);
    forall p | 0 <= p < |c[b]| ensures next[c[b][p]] == At(c[b], p + 1) {
      if p > 0 { assert c[b][p] == ch[b][p - 1]; }
    }
    assert Spells(i, next, c[b]);
    assert Distinct(c[b]);
  }

  lemma {:induction false} RemoveIsDrop(s: seq<nat>, p: nat)
    requires p < |s| && Distinct(s)
    ensures Remove(s, s[p]) == Drop(s, p)
  {
    if p == 0 {
      assert Drop(s, 0) == s[1..];
    } else {
      assert s[0] != s[p];
      RemoveIsDrop(s[1..], p - 1);
      assert Drop(s, p) == [s[0]] + Drop(s[1..], p - 1);
    }
  }

  lemma {:induction false} RemoveAbsent(s: seq<nat>, i: nat)
    requires i !in s
    ensures Remove(s, i) == s
  {
    if s != [] {
      RemoveAbsent(s[1..], i);
    }
  }

  /** Unlinking a slot that was just linked at the head restores the chain as
      a sequence. */
  lemma UnlinkUndoesLink(ch: seq<seq<nat>>, b: nat, i: nat)
    requires b < |ch|
    ensures UnlinkFrom(LinkIn(ch, b, i), b, i) == ch
  {
    assert ([i] + ch[b])[1..] == ch[b];
  }

  lemma DropMembers(s: seq<nat>, p: nat, x: nat)
    requires p < |s| && Distinct(s)
    ensures x in Drop(s, p) <==> x in s && x != s[p]
  {
    var r := Drop(s, p);
    if x in s && x != s[p] {
      var q :| 0 <= q < |s| && s[q] == x;
      assert r[if q < p then q else q - 1] == x;
    }
    if x in r {
      var q :| 0 <= q < |r| && r[q] == x;
      assert s[if q < p then q else q + 1] == x;
    }
  }

  lemma DropDistinct(s: seq<nat>, p: nat)
    requires p < |s| && Distinct(s)
    ensures Distinct(Drop(s, p))
  {
    var r := Drop(s, p);
    forall u, v | 0 <= u < v < |r| ensures r[u] != r[v] {
      var u', v' := if u < p then u else u + 1, if v < p then v else v + 1;
      assert r[u] == s[u'] && r[v] == s[v'];
    }
  }

  /** What is left of a repeat-free chain: everything but the removed slot. */
  lemma {:induction false} RemoveContent(s: seq<nat>, i: nat)
    requires Distinct(s)
    ensures Distinct(Remove(s, i))
    ensures forall x :: x in Remove(s, i) <==> x in s && x != i
  {
    if i in s {
      var p :| 0 <= p < |s| && s[p] == i;
      RemoveIsDrop(s, p);
      DropDistinct(s, p);
      hide Drop, Distinct, Remove;
      forall x: nat ensures x in Drop(s, p) <==> x in s && x != i {
        DropMembers(s, p, x);
      }
    } else {
      RemoveAbsent(s, i);
    }
  }

  /** The cells of a key after the core's unlink wrote the cell that leads to
      position p. */
  function HeadsAfter(heads: seq<int>, next: seq<int>, s: seq<nat>, b: nat, p: nat): (r: seq<int>)
    requires b < |heads| && p < |s| && s[p] < |next|
    ensures |r| == |heads|
  {
    if p == 0 then heads[b := next[s[p]]] else heads
  }

  function NextAfter(next: seq<int>, s: seq<nat>, p: nat): (r: seq<int>)
    requires p < |s| && s[p] < |next| && (p > 0 ==> s[p - 1] < |next|)
    ensures |r| == |next|
  {
    if p == 0 then next else next[s[p - 1] := next[s[p]]]
  }

  /** One write, through the cell that leads to it, takes a slot out of its
      chain and leaves every other chain as it was. */
  lemma UnlinkKeeps(heads: seq<int>, next: seq<int>, ch: seq<seq<nat>>, b: nat, p: nat)
    requires Represents(heads, next, ch) && b < |ch| && p < |ch[b]|
    ensures forall q :: 0 <= q < |ch[b]| ==> ch[b][q] < |next|
    ensures Represents(HeadsAfter(heads, next, ch[b], b, p), NextAfter(next, ch[b], p), ch[b := Drop(ch[b], p)])
    ensures UnlinkFrom(ch, b, ch[b][p]) == ch[b := Drop(ch[b], p)]
    ensures Absent(UnlinkFrom(ch, b, ch[b][p]), ch[b][p])
  {
    var s := ch[b];
    assert Spells(heads[b], next, s);
    var h', n', c' := HeadsAfter(heads, next, s, b, p), NextAfter(next, s, p), ch[b := Drop(s, p)];
    RemoveIsDrop(s, p);
    RemoveContent(s, s[p]);
    forall c | 0 <= c < |c'| ensures Spells(h'[c], n', c'[c]) && Distinct(c'[c]) {
      assert Spells(heads[c], next, ch[c]);
      if c == b {
        SpellsDropped(heads[b], next, s, p);
      } else if p > 0 {
        assert s[p - 1] in ch[b];
        assert s[p - 1] !in ch[c];
        assert forall q :: 0 <= q < |ch[c]| ==> ch[c][q] != s[p - 1];
      }
    }
    assert forall x :: x in c'[b] ==> x in ch[b];
    assert Apart(c');
    forall c | 0 <= c < |c'| ensures s[p] !in c'[c] {
      assert s[p] in ch[b];
    }
  }

  lemma SpellsDropped(head: int, next: seq<int>, s: seq<nat>, p: nat)
    requires Spells(head, next, s) && Distinct(s) && p < |s|
    ensures Spells(if p == 0 then next[s[p]] else head, NextAfter(next, s, p), Drop(s, p))
  {
    var n', r := NextAfter(next, s, p), Drop(s, p);
    forall q | 0 <= q < |r| ensures r[q] < |n'| && n'[r[q]] == At(r, q + 1) {
      if q < p {
        assert r[q] == s[q];
        if q + 1 < p {
          assert s[q] != s[p - 1];
        }
      } else {
        assert r[q] == s[q + 1];
        assert p > 0 ==> s[q + 1] != s[p - 1];
      }
    }
  }

  // ----- what cells can spell ----------------------------------------------------

  /** From position o on, a chain of cells that agree with those of s runs like s. */
  lemma {:induction false} Follows(head: int, next: seq<int>, s: seq<nat>, head': int, next': seq<int>, s': seq<nat>,
                                   o: nat, p: nat)
    requires Spells(head, next, s) && Spells(head', next', s') && p < |s| && At(s', o) == s[0]
    requires forall q :: 0 <= q < p ==> s[q] < |next'| && next'[s[q]] == next[s[q]]
    ensures o + p < |s'| && s'[o + p] == s[p]
  {
    if p > 0 {
      Follows(head, next, s, head', next', s', o, p - 1);
      assert next[s[p - 1]] == At(s, p) && next'[s'[o + p - 1]] == At(s', o + p);
    }
  }

  /** Cells spell one chain at most. */
  lemma SpellsOnce(head: int, next: seq<int>, s: seq<nat>, s': seq<nat>)
    requires Spells(head, next, s) && Spells(head, next, s')
    ensures s == s'
  {
    if |s| > 0 { Follows(head, next, s, head, next, s', 0, |s| - 1); }
    if |s'| > 0 { Follows(head, next, s', head, next, s, 0, |s'| - 1); }
    forall p | 0 <= p < |s| ensures s'[p] == s[p] { Follows(head, next, s, head, next, s', 0, p); }
  }

  lemma RepresentsOnce(heads: seq<int>, next: seq<int>, ch: seq<seq<nat>>, ch': seq<seq<nat>>)
    requires Represents(heads, next, ch) && Represents(heads, next, ch')
    ensures ch == ch'
  {
    forall b | 0 <= b < |ch| ensures ch[b] == ch'[b] { SpellsOnce(heads[b], next, ch[b], ch'[b]); }
  }

  /** The chain that slot i is in still leads to it after a link at b, by way of i itself
      if it is the same chain. */
  lemma StillThere(heads: seq<int>, next: seq<int>, s: seq<nat>, h: nat, b: nat, p: nat, s': seq<nat>)
    requires h < |heads| && b < |heads| && Spells(heads[h], next, s) && Distinct(s) && p < |s|
    requires Spells(heads[b := s[p]][h], next[s[p] := heads[b]], s')
    ensures var o := if b == h then 1 else 0;
            o + p < |s'| && s'[o + p] == s[p] && (b == h ==> s'[0] == s[p])
  {
    var next' := next[s[p] := heads[b]];
    assert b == h ==> s' != [] && s'[0] == s[p] && next'[s'[0]] == At(s', 1);
    Follows(heads[h], next, s, heads[b := s[p]][h], next', s', if b == h then 1 else 0, p);
  }

  lemma Doubled(heads: seq<int>, next: seq<int>, ch: seq<seq<nat>>, h: nat, b: nat, p: nat, ch': seq<seq<nat>>)
    requires Represents(heads, next, ch) && h < |ch| && b < |ch| && p < |ch[h]| && ch[h][p] < |next| && |ch'| == |ch|
    requires forall c :: 0 <= c < |ch'| ==> Spells(heads[b := ch[h][p]][c], next[ch[h][p] := heads[b]], ch'[c])
    ensures if b == h then !Distinct(ch'[h]) else !Apart(ch')
  {
    assert Spells(heads[b := ch[h][p]][b], next[ch[h][p] := heads[b]], ch'[b]);
    assert ch'[b] != [] && ch'[b][0] == ch[h][p];
    hide Spells;
    StillThere(heads, next, ch[h], h, b, p, ch'[h]);
    if b == h {
      assert ch'[h][0] == ch'[h][1 + p];
    } else {
      assert ch[h][p] in ch'[h] && ch[h][p] in ch'[b];
    }
  }

  /** Linking a slot that is still in a chain: the cells then represent no chains at
      all.  The chain it is in runs on into the one it is linked to, or into itself. */
  lemma LinkTwice(heads: seq<int>, next: seq<int>, ch: seq<seq<nat>>, h: nat, b: nat, i: nat, ch': seq<seq<nat>>)
    requires Represents(heads, next, ch) && h < |ch| && b < |ch| && i in ch[h] && i < |next|
    ensures !Represents(heads[b := i], next[i := heads[b]], ch')
  {
    var p :| 0 <= p < |ch[h]| && ch[h][p] == i;
    if Represents(heads[b := i], next[i := heads[b]], ch') {
      hide Spells, Distinct, Apart;
      Doubled(heads, next, ch, h, b, p, ch');
    }
  }
}
