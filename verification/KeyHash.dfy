/** Hashing and comparing keys, over arbitrary segment lists.

    A key is looked at in three forms: in a record against another record, in a
    record against a packed search key, and by its hash in either form.  Character
    sets and the byte hasher are the server's and stay uninterpreted; memory past
    the end of a buffer reads as zero. */
module KeyHash {
  import opened Keys

  datatype Hasher = Hasher(nr1: bv64, nr2: bv64)

  /** A character set: bytes per character at most, the byte position of a
      character, the collating hash and collation equality. */
  datatype Charset = Charset(
    mbmaxlen: nat,
    charpos: (Bytes, nat) -> nat,
    hashSort: (Hasher, Bytes) -> Hasher,
    same: (Bytes, Bytes) -> bool)
  {
    /** Texts that collate equal hash equal. */
    ghost predicate Congruent() {
      forall a, b, h :: same(a, b) ==> hashSort(h, a) == hashSort(h, b)
    }

    ghost predicate Equivalence() {
      && (forall a :: same(a, a))
      && (forall a, b :: same(a, b) ==> same(b, a))
      && (forall a, b, c :: same(a, b) && same(b, c) ==> same(a, c))
    }
  }

  datatype Kind = Text | VarText | BitField | Other

  /** A key segment; nullBit is 0 for a column that cannot be NULL, bitStart is the
      size of the length prefix of a VARCHAR, and bitLength the number of bits of
      an uneven BIT column kept apart from its full bytes. */
  datatype Seg = Seg(kind: Kind, start: nat, length: nat, nullPos: nat, nullBit: bv8, cs: Charset,
                     bitPos: nat, bitStart: nat, bitLength: nat)
  {
    predicate Uneven() { kind == BitField && bitLength > 0 }
  }

  /** The segments of a key, with the server's byte hasher and its start value. */
  datatype Key = Key(segs: seq<Seg>, add: (Hasher, byte) -> Hasher, seed: Hasher)

  // ----- buffers ----------------------------------------------------------------

  function At(b: Bytes, i: nat): byte { if i < |b| then b[i] else 0 }

  function Cut(b: Bytes, i: nat, n: nat): (r: Bytes)
    ensures |r| == n
  {
    seq(n, (j: nat) => At(b, i + j))
  }

  function Word(b: Bytes, i: nat): nat { At(b, i) as nat + 256 * At(b, i + 1) as nat }

  function Min(a: nat, b: nat): nat { if a < b then a else b }

  /** The bits of an uneven BIT column that lie outside its full bytes. */
  function Bits(rec: Bytes, seg: Seg): byte {
    (Word(rec, seg.bitPos) / Pow2(seg.bitStart) % Pow2(seg.bitLength) % 256) as byte
  }

  /** A prefix of at most so many characters. */
  function Prefix(cs: Charset, s: Bytes, chars: nat): Bytes { s[..Min(cs.charpos(s, chars), |s|)] }

  // ----- what a segment contributes ------------------------------------------------

  /** A segment's value: NULL, a text to be collated, or bytes. */
  datatype Part = Null | Chars(text: Bytes) | Raw(bytes: Bytes)

  function Masked(rec: Bytes, seg: Seg): bv8 { (At(rec, seg.nullPos) as bv8) & seg.nullBit }

  predicate IsNull(rec: Bytes, seg: Seg) { seg.nullBit != 0 && Masked(rec, seg) != 0 }

  function VarLength(rec: Bytes, seg: Seg): nat {
    if seg.bitStart == 1 then At(rec, seg.start) as nat else Word(rec, seg.start)
  }

  function RecPart(seg: Seg, rec: Bytes): Part {
    if IsNull(rec, seg) then Null
    else match seg.kind
      case Text =>
        var s := Cut(rec, seg.start, seg.length);
        Chars(if seg.cs.mbmaxlen > 1 then Prefix(seg.cs, s, seg.length / seg.cs.mbmaxlen) else s)
      case VarText =>
        var n := VarLength(rec, seg);
        Chars(if seg.cs.mbmaxlen > 1
              then Prefix(seg.cs, Cut(rec, seg.start + seg.bitStart, n), seg.length / seg.cs.mbmaxlen)
              else Cut(rec, seg.start + seg.bitStart, Min(n, seg.length)))
      case _ =>
        if seg.Uneven() then Raw([Bits(rec, seg)] + Cut(rec, seg.start, if seg.length > 0 then seg.length - 1 else 0))
        else Raw(Cut(rec, seg.start, seg.length))
  }

  /** The value of a segment that starts at position p of a packed key. */
  function KeyPart(seg: Seg, key: Bytes, p: nat): Part {
    var q := if seg.nullBit != 0 then p + 1 else p;
    if seg.nullBit != 0 && At(key, p) != 0 then Null
    else match seg.kind
      case Text =>
        var s := Cut(key, q, seg.length);
        Chars(if seg.cs.mbmaxlen > 1 then Prefix(seg.cs, s, seg.length / seg.cs.mbmaxlen) else s)
      case VarText =>
        var s := Cut(key, q + 2, Word(key, q));
        Chars(if seg.cs.mbmaxlen > 1 then Prefix(seg.cs, s, seg.length / seg.cs.mbmaxlen) else s)
      case _ => Raw(Cut(key, q, seg.length))
  }

  /** The room a segment takes up in a packed key: what the hash function skips. */
  function Width(seg: Seg): nat {
    seg.length + (if seg.nullBit != 0 then 1 else 0) + (if seg.kind == VarText then 2 else 0)
  }

  /** What the comparison with a packed key skips: one byte too many for an uneven
      BIT value. */
  function Skipped(seg: Seg, rec: Bytes): nat {
    Width(seg) + if seg.Uneven() && !IsNull(rec, seg) then 1 else 0
  }

  function AddAll(add: (Hasher, byte) -> Hasher, h: Hasher, s: Bytes): Hasher
    decreases |s|
  {
    if s == [] then h else AddAll(add, add(h, s[0]), s[1..])
  }

  /** What a NULL does to the hash. */
  function NullStep(h: Hasher): Hasher { h.(nr1 := h.nr1 ^ ((h.nr1 << 1) | 1)) }

  function Absorb(add: (Hasher, byte) -> Hasher, h: Hasher, seg: Seg, p: Part): Hasher {
    match p
    case Null => NullStep(h)
    case Chars(s) => seg.cs.hashSort(h, s)
    case Raw(s) => AddAll(add, h, s)
  }

  predicate SamePart(seg: Seg, a: Part, b: Part) {
    match (a, b)
    case (Null, Null) => true
    case (Chars(s), Chars(r)) => seg.cs.same(s, r)
    case (Raw(s), Raw(r)) => s == r
    case _ => false
  }

  // ----- the four key functions, segment by segment -------------------------------

  function RecHashFrom(key: Key, n: nat, rec: Bytes, h: Hasher): Hasher
    requires n <= |key.segs|
    decreases |key.segs| - n
  {
    if n == |key.segs| then h
    else RecHashFrom(key, n + 1, rec, Absorb(key.add, h, key.segs[n], RecPart(key.segs[n], rec)))
  }

  function KeyHashFrom(key: Key, n: nat, k: Bytes, p: nat, h: Hasher): Hasher
    requires n <= |key.segs|
    decreases |key.segs| - n
  {
    if n == |key.segs| then h
    else KeyHashFrom(key, n + 1, k, p + Width(key.segs[n]), Absorb(key.add, h, key.segs[n], KeyPart(key.segs[n], k, p)))
  }

  predicate RecSameFrom(key: Key, n: nat, a: Bytes, b: Bytes)
    requires n <= |key.segs|
    decreases |key.segs| - n
  {
    n < |key.segs| ==>
      && (key.segs[n].nullBit != 0 ==> Masked(a, key.segs[n]) == Masked(b, key.segs[n]))
      && SamePart(key.segs[n], RecPart(key.segs[n], a), RecPart(key.segs[n], b))
      && RecSameFrom(key, n + 1, a, b)
  }

  /** A NULL marker other than 0 and 1 equals neither. */
  predicate Marked(seg: Seg, k: Bytes, p: nat) { seg.nullBit != 0 ==> At(k, p) <= 1 }

  predicate MatchesFrom(key: Key, n: nat, rec: Bytes, k: Bytes, p: nat)
    requires n <= |key.segs|
    decreases |key.segs| - n
  {
    n < |key.segs| ==>
      && Marked(key.segs[n], k, p)
      && SamePart(key.segs[n], RecPart(key.segs[n], rec), KeyPart(key.segs[n], k, p))
      && MatchesFrom(key, n + 1, rec, k, p + Skipped(key.segs[n], rec))
  }

  function HashOf(h: Hasher): nat { (h.nr1 as int) % U32 }

  predicate HasNull(key: Key, rec: Bytes) {
    exists n :: 0 <= n < |key.segs| && IsNull(rec, key.segs[n])
  }

  /** The callbacks the core is given for a key. */
  function OpsOf(key: Key): KeyOps {
    KeyOps(
      rec => HashOf(RecHashFrom(key, 0, rec, key.seed)),
      k => HashOf(KeyHashFrom(key, 0, k, 0, key.seed)),
      (a, b) => RecSameFrom(key, 0, a, b),
      (rec, k) => MatchesFrom(key, 0, rec, k, 0),
      rec => HasNull(key, rec))
  }

  // ----- congruence -----------------------------------------------------------------

  ghost predicate Congruent(key: Key) {
    forall n :: 0 <= n < |key.segs| ==> key.segs[n].cs.Congruent()
  }

  lemma SameAbsorb(add: (Hasher, byte) -> Hasher, h: Hasher, seg: Seg, a: Part, b: Part)
    requires seg.cs.Congruent() && SamePart(seg, a, b)
    ensures Absorb(add, h, seg, a) == Absorb(add, h, seg, b)
  {
  }

  /** Records that compare equal hash equal. */
  lemma {:induction false} SameHash(key: Key, n: nat, a: Bytes, b: Bytes, h: Hasher)
    requires n <= |key.segs| && Congruent(key) && RecSameFrom(key, n, a, b)
    ensures RecHashFrom(key, n, a, h) == RecHashFrom(key, n, b, h)
    decreases |key.segs| - n
  {
    hide RecPart, Absorb, SamePart;
    if n < |key.segs| {
      SameAbsorb(key.add, h, key.segs[n], RecPart(key.segs[n], a), RecPart(key.segs[n], b));
      SameHash(key, n + 1, a, b, Absorb(key.add, h, key.segs[n], RecPart(key.segs[n], a)));
    }
  }

  /** No uneven BIT segment except in last position. */
  predicate BitLast(key: Key) { forall n :: 0 <= n < |key.segs| - 1 ==> !key.segs[n].Uneven() }

  /** A record that matches a packed key hashes like that key. */
  lemma {:induction false} MatchHash(key: Key, n: nat, rec: Bytes, k: Bytes, p: nat, h: Hasher)
    requires n <= |key.segs| && Congruent(key) && BitLast(key) && MatchesFrom(key, n, rec, k, p)
    ensures RecHashFrom(key, n, rec, h) == KeyHashFrom(key, n, k, p, h)
    decreases |key.segs| - n
  {
    hide RecPart, KeyPart, Absorb, SamePart;
    if n < |key.segs| {
      SameAbsorb(key.add, h, key.segs[n], RecPart(key.segs[n], rec), KeyPart(key.segs[n], k, p));
      if n + 1 < |key.segs| {
        MatchHash(key, n + 1, rec, k, p + Width(key.segs[n]),
            Absorb(key.add, h, key.segs[n], RecPart(key.segs[n], rec)));
      }
    }
  }

  ghost predicate Collates(key: Key) {
    forall n :: 0 <= n < |key.segs| ==> key.segs[n].cs.Equivalence()
  }

  lemma {:induction false} SameEquivalence(key: Key, n: nat, a: Bytes, b: Bytes, c: Bytes)
    requires n <= |key.segs| && Collates(key)
    ensures RecSameFrom(key, n, a, a)
    ensures RecSameFrom(key, n, a, b) ==> RecSameFrom(key, n, b, a)
    ensures RecSameFrom(key, n, a, b) && RecSameFrom(key, n, b, c) ==> RecSameFrom(key, n, a, c)
    decreases |key.segs| - n
  {
    hide RecPart;
    if n < |key.segs| {
      assert key.segs[n].cs.Equivalence();
      SameEquivalence(key, n + 1, a, b, c);
    }
  }

  lemma {:induction false} SameNull(key: Key, n: nat, a: Bytes, b: Bytes, m: nat)
    requires n <= m < |key.segs| && RecSameFrom(key, n, a, b)
    ensures IsNull(a, key.segs[m]) == IsNull(b, key.segs[m])
    decreases m - n
  {
    hide Masked, RecPart, SamePart;
    if n < m {
      SameNull(key, n + 1, a, b, m);
    }
  }

  /** The engine's key functions are what the index needs, for every list of
      segments with an uneven BIT segment at most in last position. */
  lemma OpsContract(key: Key)
    requires Congruent(key) && Collates(key) && BitLast(key)
    ensures OpsOf(key).Contract()
  {
    forall a, b, c
      ensures RecSameFrom(key, 0, a, a)
      ensures RecSameFrom(key, 0, a, b) ==> RecSameFrom(key, 0, b, a)
      ensures RecSameFrom(key, 0, a, b) && RecSameFrom(key, 0, b, c) ==> RecSameFrom(key, 0, a, c)
    {
      SameEquivalence(key, 0, a, b, c);
    }
    forall a, b | RecSameFrom(key, 0, a, b)
      ensures RecHashFrom(key, 0, a, key.seed) == RecHashFrom(key, 0, b, key.seed) && HasNull(key, a) == HasNull(key, b)
    {
      SameHash(key, 0, a, b, key.seed);
      forall m: nat | m < |key.segs| ensures IsNull(a, key.segs[m]) == IsNull(b, key.segs[m]) {
        SameNull(key, 0, a, b, m);
      }
    }
    forall rec, k | MatchesFrom(key, 0, rec, k, 0)
      ensures RecHashFrom(key, 0, rec, key.seed) == KeyHashFrom(key, 0, k, 0, key.seed)
    {
      MatchHash(key, 0, rec, k, 0, key.seed);
    }
    hide RecSameFrom, MatchesFrom, RecHashFrom, KeyHashFrom, HasNull, IsNull;
  }

  // ----- what the key functions mean --------------------------------------------------

  /** At most as many bytes of a text, or for longer characters as many characters, as
      the segment has. */
  function Clip(seg: Seg, s: Bytes): Bytes {
    var n := if seg.cs.mbmaxlen > 1 then seg.cs.charpos(s, seg.length / seg.cs.mbmaxlen) else seg.length;
    if n < |s| then s[..n] else s
  }

  /** The text of a column, as the record has it. */
  function ColumnText(seg: Seg, rec: Bytes): Bytes {
    if seg.kind == Text then Clip(seg, Cut(rec, seg.start, seg.length))
    else
      var n := At(rec, seg.start) as nat + if seg.bitStart == 1 then 0 else 256 * At(rec, seg.start + 1) as nat;
      Clip(seg, Cut(rec, seg.start + seg.bitStart, n))
  }

  /** The full bytes of a column of bytes. */
  function FullBytes(seg: Seg): nat { if seg.Uneven() && seg.length > 0 then seg.length - 1 else seg.length }

  /** The NULL bit of a column, as the record has it. */
  function NullBits(seg: Seg, rec: Bytes): bv8 { (At(rec, seg.nullPos) as bv8) & seg.nullBit }

  /** Two records agree on a column: NULL in both, or in neither and of equal value. */
  ghost predicate AgreesOn(seg: Seg, a: Bytes, b: Bytes) {
    && NullBits(seg, a) == NullBits(seg, b)
    && (NullBits(seg, a) == 0 ==>
          if seg.kind == Text || seg.kind == VarText then seg.cs.same(ColumnText(seg, a), ColumnText(seg, b))
          else
            && (seg.Uneven() ==> Bits(a, seg) == Bits(b, seg))
            && forall i: nat :: seg.start <= i < seg.start + FullBytes(seg) ==> At(a, i) == At(b, i))
  }

  lemma CutsEqual(a: Bytes, b: Bytes, i: nat, n: nat)
    ensures Cut(a, i, n) == Cut(b, i, n) <==> forall j: nat :: i <= j < i + n ==> At(a, j) == At(b, j)
  {
    if Cut(a, i, n) == Cut(b, i, n) {
      forall j: nat | i <= j < i + n ensures At(a, j) == At(b, j) {
        assert Cut(a, i, n)[j - i] == Cut(b, i, n)[j - i];
      }
    }
  }

  /** Without a NULL bit no value is NULL. */
  lemma NoNullBit(seg: Seg, rec: Bytes)
    ensures NullBits(seg, rec) == Masked(rec, seg) && (seg.nullBit == 0 ==> NullBits(seg, rec) == 0)
  {
  }

  lemma ClipIs(seg: Seg, s: Bytes)
    ensures Clip(seg, s) == if seg.cs.mbmaxlen > 1 then Prefix(seg.cs, s, seg.length / seg.cs.mbmaxlen)
              else s[..Min(|s|, seg.length)]
  {
    assert s[..|s|] == s;
  }

  lemma TextIs(seg: Seg, rec: Bytes)
    requires (seg.kind == Text || seg.kind == VarText) && !IsNull(rec, seg)
    ensures RecPart(seg, rec) == Chars(ColumnText(seg, rec))
  {
    hide Prefix, Masked, Clip;
    if seg.kind == Text {
      var s := Cut(rec, seg.start, seg.length);
      ClipIs(seg, s);
      assert s[..seg.length] == s;
    } else {
      var n := VarLength(rec, seg);
      ClipIs(seg, Cut(rec, seg.start + seg.bitStart, n));
      assert Cut(rec, seg.start + seg.bitStart, n)[..Min(n, seg.length)] ==
             Cut(rec, seg.start + seg.bitStart, Min(n, seg.length));
    }
  }

  lemma PartsMean(seg: Seg, a: Bytes, b: Bytes)
    ensures AgreesOn(seg, a, b) <==>
              (seg.nullBit != 0 ==> Masked(a, seg) == Masked(b, seg)) && SamePart(seg, RecPart(seg, a), RecPart(seg, b))
  {
    NoNullBit(seg, a);
    NoNullBit(seg, b);
    hide Masked, NullBits, Bits;
    if NullBits(seg, a) == NullBits(seg, b) == 0 {
      if seg.kind == Text || seg.kind == VarText {
        TextIs(seg, a);
        TextIs(seg, b);
        hide RecPart, ColumnText;
      } else {
        CutsEqual(a, b, seg.start, FullBytes(seg));
        var s, r := Cut(a, seg.start, FullBytes(seg)), Cut(b, seg.start, FullBytes(seg));
        assert ([Bits(a, seg)] + s)[0] == Bits(a, seg) && ([Bits(a, seg)] + s)[1..] == s;
        assert ([Bits(b, seg)] + r)[0] == Bits(b, seg) && ([Bits(b, seg)] + r)[1..] == r;
        hide Cut;
      }
    }
  }

  lemma {:induction false} SameFromMeans(key: Key, n: nat, a: Bytes, b: Bytes)
    requires n <= |key.segs|
    ensures RecSameFrom(key, n, a, b) <==> forall m :: n <= m < |key.segs| ==> AgreesOn(key.segs[m], a, b)
    decreases |key.segs| - n
  {
    hide AgreesOn, RecPart, SamePart, Masked;
    if n < |key.segs| {
      PartsMean(key.segs[n], a, b);
      SameFromMeans(key, n + 1, a, b);
    }
  }

  /** Records are the same under a key if and only if they agree on every column of it. */
  lemma SameMeans(key: Key, a: Bytes, b: Bytes)
    ensures OpsOf(key).sameRec(a, b) <==> forall n :: 0 <= n < |key.segs| ==> AgreesOn(key.segs[n], a, b)
  {
    SameFromMeans(key, 0, a, b);
    hide RecSameFrom, AgreesOn;
  }

  /** Nothing outside the columns of a key matters to it. */
  lemma OnlyColumnsMatter(key: Key, a: Bytes, b: Bytes)
    requires Collates(key)
    requires forall n :: 0 <= n < |key.segs| ==>
               var seg := key.segs[n];
               && NullBits(seg, a) == NullBits(seg, b) && Bits(a, seg) == Bits(b, seg)
               && forall i: nat :: seg.start <= i < seg.start + Reach(seg, a) ==> At(a, i) == At(b, i)
    ensures OpsOf(key).sameRec(a, b)
  {
    forall n | 0 <= n < |key.segs| ensures AgreesOn(key.segs[n], a, b) {
      var seg := key.segs[n];
      assert seg.cs.Equivalence();
      hide Bits, NullBits;
      if seg.kind == Text || seg.kind == VarText { SameText(seg, a, b); }
    }
    SameMeans(key, a, b);
    hide AgreesOn, OpsOf;
  }

  /** How many bytes of a record, from the start of a column, belong to its value. */
  function Reach(seg: Seg, rec: Bytes): nat {
    if seg.kind == VarText then 2 + seg.bitStart + VarLength(rec, seg) else seg.length
  }

  lemma SameText(seg: Seg, a: Bytes, b: Bytes)
    requires (seg.kind == Text || seg.kind == VarText)
    requires forall i: nat :: seg.start <= i < seg.start + Reach(seg, a) ==> At(a, i) == At(b, i)
    ensures ColumnText(seg, a) == ColumnText(seg, b)
  {
    hide Clip;
    if seg.kind == VarText {
      assert At(a, seg.start) == At(b, seg.start) && At(a, seg.start + 1) == At(b, seg.start + 1);
      CutsEqual(a, b, seg.start + seg.bitStart, VarLength(a, seg));
    } else {
      CutsEqual(a, b, seg.start, seg.length);
    }
  }

  // ----- the odd bits of a BIT column ---------------------------------------------------

  function Bit(x: nat, j: nat): nat { if j == 0 then x % 2 else Bit(x / 2, j - 1) }

  /** A remainder keeps the low bits, ... */
  lemma {:induction false} LowBits(x: nat, l: nat, j: nat)
    requires j < l
    ensures Bit(x % Pow2(l), j) == Bit(x, j)
    decreases l
  {
    DoubledRemainder(x, Pow2(l - 1));
    if j > 0 {
      LowBits(x / 2, l - 1, j - 1);
    }
  }

  lemma DivDouble(x: nat, m: nat)
    requires m > 0
    ensures x / (2 * m) == x / 2 / m
  {
    DoubledRemainder(x, m);
    var q, r := x / 2 / m, x / 2 % m;
    assert x / 2 == q * m + r && x == 2 * (x / 2) + x % 2;
    assert 2 * (q * m) == q * (2 * m);
    var p := x / (2 * m);
    assert x == p * (2 * m) + x % (2 * m);
    assert p * (2 * m) == q * (2 * m);
    SameFactor(p, q, 2 * m);
  }

  lemma SameFactor(p: nat, q: nat, m: nat)
    requires m > 0 && p * m == q * m
    ensures p == q
  {
    if p < q { AtLeast(p, q, m); } else if q < p { AtLeast(q, p, m); }
  }

  /** ... and a quotient the high ones. */
  lemma {:induction false} HighBits(x: nat, s: nat, j: nat)
    ensures Bit(Quotient(x, Pow2(s)), j) == Bit(x, s + j)
    decreases s
  {
    if s > 0 {
      DivDouble(x, Pow2(s - 1));
      HighBits(x / 2, s - 1, j);
    }
  }

  function Quotient(x: nat, m: nat): nat
    requires m > 0
  {
    x / m
  }

  lemma Pow2Of8()
    ensures Pow2(8) == 256
  {
    assert Pow2(4) == 16;
  }

  lemma WordBits(b: Bytes, i: nat, p: nat)
    requires p < 16
    ensures Bit(Word(b, i), p) == Bit(At(b, i + p / 8) as nat, p % 8)
  {
    var w, lo, hi := Word(b, i), At(b, i) as nat, At(b, i + 1) as nat;
    Pow2Of8();
    assert w % 256 == lo && w / 256 == hi;
    hide Bit, Word, At;
    if p < 8 {
      LowBits(w, 8, p);
    } else {
      HighBits(w, 8, p - 8);
    }
  }

  /** Bit j of the odd bits is the bit of the record that many places behind the first. */
  lemma BitsAre(seg: Seg, rec: Bytes, j: nat)
    requires j < seg.bitLength <= 8 && seg.bitStart + j < 16
    ensures Bit(Bits(rec, seg) as nat, j) ==
                Bit(At(rec, seg.bitPos + (seg.bitStart + j) / 8) as nat, (seg.bitStart + j) % 8)
  {
    hide Bit, Word, At, Pow2;
    var w := Word(rec, seg.bitPos);
    var q := Quotient(w, Pow2(seg.bitStart));
    var r := Remainder(q, Pow2(seg.bitLength));
    assert Bits(rec, seg) as nat == r % 256;
    hide Bits, Quotient;
    Pow2Of8();
    LowBits(r, 8, j);
    LowBits(q, seg.bitLength, j);
    HighBits(w, seg.bitStart, j);
    WordBits(rec, seg.bitPos, seg.bitStart + j);
  }

  function Remainder(x: nat, m: nat): nat
    requires m > 0
  {
    x % m
  }

  /** A record has a NULL part if and only if some column's NULL bit is set. */
  lemma NullMeans(key: Key, rec: Bytes)
    ensures OpsOf(key).hasNull(rec) <==> exists n :: 0 <= n < |key.segs| && NullBits(key.segs[n], rec) != 0
  {
    forall n | 0 <= n < |key.segs| ensures IsNull(rec, key.segs[n]) <==> NullBits(key.segs[n], rec) != 0 {
      NoNullBit(key.segs[n], rec);
    }
    hide IsNull, NullBits, RecHashFrom, KeyHashFrom, RecSameFrom, MatchesFrom;
  }

  // ----- the two walks over a packed key ---------------------------------------------

  /** Where the hash function, and where the comparison, looks for segment n. */
  function HashPos(key: Key, n: nat): nat
    requires n <= |key.segs|
  {
    if n == 0 then 0 else HashPos(key, n - 1) + Width(key.segs[n - 1])
  }

  function ComparePos(key: Key, n: nat, rec: Bytes): nat
    requires n <= |key.segs|
  {
    if n == 0 then 0 else ComparePos(key, n - 1, rec) + Skipped(key.segs[n - 1], rec)
  }

  /** The text at position q of a packed key; a VARCHAR has two bytes of length. */
  function PackedText(seg: Seg, k: Bytes, q: nat): Bytes {
    if seg.kind == Text then Clip(seg, Cut(k, q, seg.length))
    else
      var s := Cut(k, q + 2, At(k, q) as nat + 256 * At(k, q + 1) as nat);
      if seg.cs.mbmaxlen > 1 then Clip(seg, s) else s
  }

  lemma PackedTextIs(seg: Seg, k: Bytes, p: nat)
    requires (seg.kind == Text || seg.kind == VarText) && (seg.nullBit != 0 ==> At(k, p) == 0)
    ensures KeyPart(seg, k, p) == Chars(PackedText(seg, k, if seg.nullBit == 0 then p else p + 1))
  {
    hide Prefix, Clip;
    var q := if seg.nullBit == 0 then p else p + 1;
    if seg.kind == Text {
      ClipIs(seg, Cut(k, q, seg.length));
      assert Cut(k, q, seg.length)[..seg.length] == Cut(k, q, seg.length);
    } else {
      ClipIs(seg, Cut(k, q + 2, Word(k, q)));
    }
  }

  /** A record agrees with the column at position p of a packed key: the NULL marker is
      the record's, and, unless NULL, the value after it is.  An uneven BIT column has its
      odd bits first. */
  ghost predicate AgreesAt(seg: Seg, rec: Bytes, k: Bytes, p: nat) {
    var q := if seg.nullBit == 0 then p else p + 1;
    && (seg.nullBit != 0 ==> At(k, p) == if NullBits(seg, rec) != 0 then 1 else 0)
    && (NullBits(seg, rec) == 0 ==>
          if seg.kind == Text || seg.kind == VarText then seg.cs.same(ColumnText(seg, rec), PackedText(seg, k, q))
          else
            && (seg.Uneven() ==> Bits(rec, seg) == At(k, q))
            && Cut(rec, seg.start, FullBytes(seg)) == Cut(k, if seg.Uneven() then q + 1 else q, FullBytes(seg)))
  }

  lemma KeyPartMeans(seg: Seg, rec: Bytes, k: Bytes, p: nat)
    requires seg.Uneven() ==> seg.length > 0
    ensures AgreesAt(seg, rec, k, p) <==> Marked(seg, k, p) && SamePart(seg, RecPart(seg, rec), KeyPart(seg, k, p))
  {
    NoNullBit(seg, rec);
    hide Masked, NullBits, Bits;
    var q := if seg.nullBit == 0 then p else p + 1;
    if NullBits(seg, rec) == 0 && (seg.nullBit != 0 ==> At(k, p) == 0) {
      if seg.kind == Text || seg.kind == VarText {
        TextIs(seg, rec);
        PackedTextIs(seg, k, p);
        hide RecPart, KeyPart, ColumnText, PackedText;
      } else if seg.Uneven() {
        FirstApart(k, q, seg.length, Bits(rec, seg), Cut(rec, seg.start, seg.length - 1));
        hide Cut;
      }
    }
  }

  lemma {:induction false} MatchFromMeans(key: Key, n: nat, rec: Bytes, k: Bytes)
    requires n <= |key.segs| && forall m :: 0 <= m < |key.segs| && key.segs[m].Uneven() ==> key.segs[m].length > 0
    ensures MatchesFrom(key, n, rec, k, ComparePos(key, n, rec)) <==>
              forall m :: n <= m < |key.segs| ==> AgreesAt(key.segs[m], rec, k, ComparePos(key, m, rec))
    decreases |key.segs| - n
  {
    hide AgreesAt, RecPart, KeyPart, SamePart, Marked, Skipped;
    if n < |key.segs| {
      assert ComparePos(key, n + 1, rec) == ComparePos(key, n, rec) + Skipped(key.segs[n], rec);
      hide ComparePos;
      KeyPartMeans(key.segs[n], rec, k, ComparePos(key, n, rec));
      MatchFromMeans(key, n + 1, rec, k);
    }
  }

  /** A record matches a packed key if and only if it agrees with every column of it, at
      the places the comparison looks for them. */
  lemma MatchMeans(key: Key, rec: Bytes, k: Bytes)
    requires forall m :: 0 <= m < |key.segs| && key.segs[m].Uneven() ==> key.segs[m].length > 0
    ensures OpsOf(key).matches(rec, k) <==>
              forall m :: 0 <= m < |key.segs| ==> AgreesAt(key.segs[m], rec, k, ComparePos(key, m, rec))
  {
    MatchFromMeans(key, 0, rec, k);
    hide MatchesFrom, AgreesAt;
  }

  // ----- what is hashed -----------------------------------------------------------------

  lemma {:induction false} AddAllConcat(add: (Hasher, byte) -> Hasher, h: Hasher, s: Bytes, r: Bytes)
    ensures AddAll(add, h, s + r) == AddAll(add, AddAll(add, h, s), r)
    decreases |s|
  {
    if s == [] {
      assert s + r == r;
    } else {
      assert (s + r)[1..] == s[1..] + r;
      AddAllConcat(add, add(h, s[0]), s[1..], r);
    }
  }

  /** The bytes of the columns of a key, one after the other; the odd bits of an uneven
      BIT column come first. */
  function ColumnBytes(key: Key, n: nat, rec: Bytes): Bytes
    requires n <= |key.segs|
    decreases |key.segs| - n
  {
    if n == |key.segs| then []
    else
      var seg := key.segs[n];
      (if seg.Uneven() then [Bits(rec, seg)] else []) + Cut(rec, seg.start, FullBytes(seg))
          + ColumnBytes(key, n + 1, rec)
  }

  lemma {:induction false} RecHashRuns(key: Key, n: nat, rec: Bytes, h: Hasher)
    requires n <= |key.segs| && forall m :: n <= m < |key.segs| ==>
               Plain(key.segs[m]) && NullBits(key.segs[m], rec) == 0
    ensures RecHashFrom(key, n, rec, h) == AddAll(key.add, h, ColumnBytes(key, n, rec))
    decreases |key.segs| - n
  {
    if n < |key.segs| {
      var seg := key.segs[n];
      NoNullBit(seg, rec);
      hide Masked, NullBits, Bits, Cut, AddAll;
      var s := (if seg.Uneven() then [Bits(rec, seg)] else []) + Cut(rec, seg.start, FullBytes(seg));
      assert RecPart(seg, rec) == Raw(s) by { assert !seg.Uneven() ==> [] + Cut(rec, seg.start, seg.length) == s; }
      AddAllConcat(key.add, h, s, ColumnBytes(key, n + 1, rec));
      RecHashRuns(key, n + 1, rec, AddAll(key.add, h, s));
    }
  }

  lemma {:induction false} KeyHashRuns(key: Key, n: nat, k: Bytes, h: Hasher)
    requires n <= |key.segs| && forall m :: 0 <= m < |key.segs| ==> Plain(key.segs[m]) && key.segs[m].nullBit == 0
    ensures HashPos(key, n) <= HashPos(key, |key.segs|)
    ensures KeyHashFrom(key, n, k, HashPos(key, n), h) ==
              AddAll(key.add, h, Cut(k, HashPos(key, n), HashPos(key, |key.segs|) - HashPos(key, n)))
    decreases |key.segs| - n
  {
    hide AddAll, Cut;
    if n < |key.segs| {
      var seg, p := key.segs[n], HashPos(key, n);
      assert KeyPart(seg, k, p) == Raw(Cut(k, p, seg.length)) && HashPos(key, n + 1) == p + seg.length;
      KeyHashRuns(key, n + 1, k, AddAll(key.add, h, Cut(k, p, seg.length)));
      var rest := HashPos(key, |key.segs|) - (p + seg.length);
      CutConcat(k, p, seg.length, rest);
      AddAllConcat(key.add, h, Cut(k, p, seg.length), Cut(k, p + seg.length, rest));
    } else {
      AddNone(key.add, h, k, HashPos(key, n));
    }
  }

  lemma AddNone(add: (Hasher, byte) -> Hasher, h: Hasher, k: Bytes, p: nat)
    ensures AddAll(add, h, Cut(k, p, 0)) == h
  {
  }

  lemma CutConcat(b: Bytes, i: nat, m: nat, n: nat)
    ensures Cut(b, i, m + n) == Cut(b, i, m) + Cut(b, i + m, n)
  {
  }

  /** What the value of a column of bytes adds to the hash: the odd bits, if any, and then
      the full bytes. */
  function OddFirst(seg: Seg, bits: byte, full: Bytes): Bytes { if seg.Uneven() then [bits] + full else full }

  /** What one column of a record does to the hash: NULL, text or bytes. */
  function OverColumn(key: Key, seg: Seg, rec: Bytes, h: Hasher): Hasher {
    if NullBits(seg, rec) != 0 then Hasher(h.nr1 ^ ((h.nr1 << 1) | 1), h.nr2)
    else if seg.kind == Text || seg.kind == VarText then seg.cs.hashSort(h, ColumnText(seg, rec))
    else AddAll(key.add, h, OddFirst(seg, Bits(rec, seg), Cut(rec, seg.start, FullBytes(seg))))
  }

  /** And the column at position p of a packed key. */
  function OverPacked(key: Key, seg: Seg, k: Bytes, p: nat, h: Hasher): Hasher {
    var q := if seg.nullBit == 0 then p else p + 1;
    if seg.nullBit != 0 && At(k, p) != 0 then Hasher(h.nr1 ^ ((h.nr1 << 1) | 1), h.nr2)
    else if seg.kind == Text || seg.kind == VarText then seg.cs.hashSort(h, PackedText(seg, k, q))
    else AddAll(key.add, h, Cut(k, q, seg.length))
  }

  /** A hash over the columns of a record, one after the other. */
  function OverRecord(key: Key, n: nat, rec: Bytes, h: Hasher): Hasher
    requires n <= |key.segs|
    decreases |key.segs| - n
  {
    if n == |key.segs| then h else OverRecord(key, n + 1, rec, OverColumn(key, key.segs[n], rec, h))
  }

  /** The same over the columns of a packed key. */
  function OverKey(key: Key, n: nat, k: Bytes, h: Hasher): Hasher
    requires n <= |key.segs|
    decreases |key.segs| - n
  {
    if n == |key.segs| then h else OverKey(key, n + 1, k, OverPacked(key, key.segs[n], k, HashPos(key, n), h))
  }

  lemma RecPartAdds(key: Key, seg: Seg, rec: Bytes, h: Hasher)
    requires seg.Uneven() ==> seg.length > 0
    ensures Absorb(key.add, h, seg, RecPart(seg, rec)) == OverColumn(key, seg, rec, h)
  {
    NoNullBit(seg, rec);
    if NullBits(seg, rec) == 0 && (seg.kind == Text || seg.kind == VarText) {
      TextIs(seg, rec);
      hide RecPart, ColumnText;
    }
    hide Masked, NullBits, Bits, Cut, AddAll;
  }

  lemma KeyPartAdds(key: Key, seg: Seg, k: Bytes, p: nat, h: Hasher)
    ensures Absorb(key.add, h, seg, KeyPart(seg, k, p)) == OverPacked(key, seg, k, p, h)
  {
    if !(seg.nullBit != 0 && At(k, p) != 0) && (seg.kind == Text || seg.kind == VarText) {
      PackedTextIs(seg, k, p);
      hide KeyPart, PackedText;
    }
    hide Cut, AddAll;
  }

  lemma {:induction false} OverRecordIs(key: Key, n: nat, rec: Bytes, h: Hasher)
    requires n <= |key.segs| && forall m :: 0 <= m < |key.segs| && key.segs[m].Uneven() ==> key.segs[m].length > 0
    ensures RecHashFrom(key, n, rec, h) == OverRecord(key, n, rec, h)
    decreases |key.segs| - n
  {
    if n < |key.segs| {
      hide Absorb, RecPart, OverColumn;
      RecPartAdds(key, key.segs[n], rec, h);
      OverRecordIs(key, n + 1, rec, Absorb(key.add, h, key.segs[n], RecPart(key.segs[n], rec)));
    }
  }

  lemma {:induction false} OverKeyIs(key: Key, n: nat, k: Bytes, h: Hasher)
    requires n <= |key.segs|
    ensures KeyHashFrom(key, n, k, HashPos(key, n), h) == OverKey(key, n, k, h)
    decreases |key.segs| - n
  {
    if n < |key.segs| {
      var p := HashPos(key, n);
      assert HashPos(key, n + 1) == p + Width(key.segs[n]);
      hide Absorb, KeyPart, OverPacked, Width, HashPos;
      KeyPartAdds(key, key.segs[n], k, p, h);
      OverKeyIs(key, n + 1, k, Absorb(key.add, h, key.segs[n], KeyPart(key.segs[n], k, p)));
    }
  }

  /** The hash of a record is the hash over its columns, whatever they are, ... */
  lemma RecHashMeans(key: Key, rec: Bytes)
    requires forall m :: 0 <= m < |key.segs| && key.segs[m].Uneven() ==> key.segs[m].length > 0
    ensures OpsOf(key).hashRec(rec) == HashOf(OverRecord(key, 0, rec, key.seed))
  {
    hide RecHashFrom, OverRecord, HashOf;
    OverRecordIs(key, 0, rec, key.seed);
  }

  /** ... and that of a packed key the hash over its. */
  lemma KeyHashMeans(key: Key, k: Bytes)
    ensures OpsOf(key).hashKey(k) == HashOf(OverKey(key, 0, k, key.seed))
  {
    hide KeyHashFrom, OverKey, HashOf;
    OverKeyIs(key, 0, k, key.seed);
    StartsAtZero(key);
  }

  /** Over columns of plain bytes the hash of a record without NULL is the byte hasher run
      over the columns, ... */
  lemma RecHashPlain(key: Key, rec: Bytes)
    requires forall m :: 0 <= m < |key.segs| ==> Plain(key.segs[m]) && NullBits(key.segs[m], rec) == 0
    ensures OpsOf(key).hashRec(rec) == HashOf(AddAll(key.add, key.seed, ColumnBytes(key, 0, rec)))
  {
    hide RecHashFrom, AddAll, ColumnBytes, HashOf, NullBits, Plain;
    RecHashRuns(key, 0, rec, key.seed);
  }

  /** ... and that of a packed key the hasher run over the key. */
  lemma KeyHashPlain(key: Key, k: Bytes)
    requires forall m :: 0 <= m < |key.segs| ==> Plain(key.segs[m]) && key.segs[m].nullBit == 0
    ensures OpsOf(key).hashKey(k) == HashOf(AddAll(key.add, key.seed, Cut(k, 0, HashPos(key, |key.segs|))))
  {
    StartsAtZero(key);
    hide KeyHashFrom, AddAll, Cut, HashOf, Plain, HashPos;
    KeyHashRuns(key, 0, k, key.seed);
  }

  lemma {:induction false} ComparesAhead(key: Key, n: nat, rec: Bytes)
    requires n <= |key.segs|
    ensures HashPos(key, n) <= ComparePos(key, n, rec)
    ensures BitLast(key) && n < |key.segs| ==> ComparePos(key, n, rec) == HashPos(key, n)
  {
    if n > 0 {
      ComparesAhead(key, n - 1, rec);
    }
  }

  lemma UnevenParts(key: Key, m: nat)
    requires m < |key.segs| && key.segs[m].Uneven()
    ensures ComparePos(key, m + 1, []) > HashPos(key, m + 1)
  {
    ComparesAhead(key, m, []);
    assert Masked([], key.segs[m]) == 0 & key.segs[m].nullBit == 0;
  }

  /** Both look in the same places, whatever the record, if and only if no uneven
      BIT segment comes before the last. */
  lemma WalksAgree(key: Key)
    ensures BitLast(key) <==> forall n: nat, rec: Bytes :: n < |key.segs| ==> ComparePos(key, n, rec) == HashPos(key, n)
  {
    hide Seg.Uneven;
    if BitLast(key) {
      forall n: nat, rec: Bytes | n < |key.segs| ensures ComparePos(key, n, rec) == HashPos(key, n) {
        ComparesAhead(key, n, rec);
      }
    } else {
      var m: nat :| m < |key.segs| - 1 && key.segs[m].Uneven();
      UnevenParts(key, m);
      var n: nat, rec: Bytes := m + 1, [];
      assert ComparePos(key, n, rec) != HashPos(key, n);
    }
  }

  // ----- what the difference does to lookups ------------------------------------------

  /** A segment of plain bytes; an uneven BIT has at least the byte of its odd bits. */
  predicate Plain(seg: Seg) { (seg.kind == BitField || seg.kind == Other) && (seg.Uneven() ==> seg.length > 0) }

  /** A hasher that notices bytes other than zero. */
  function Notice(h: Hasher, b: byte): Hasher { if b == 0 then h else Hasher(1, 0) }

  const ZERO := Hasher(0, 0)

  ghost predicate Zeros(s: Bytes) { forall i :: 0 <= i < |s| ==> s[i] == 0 }

  lemma {:induction false} ZerosUnnoticed(h: Hasher, s: Bytes)
    requires Zeros(s)
    ensures AddAll(Notice, h, s) == h
    decreases |s|
  {
    if s != [] {
      ZerosUnnoticed(h, s[1..]);
    }
  }

  /** The empty record reads as zeros everywhere. */
  lemma EmptyPart(seg: Seg)
    requires Plain(seg)
    ensures RecPart(seg, []).Raw? && |RecPart(seg, []).bytes| == seg.length && Zeros(RecPart(seg, []).bytes)
            && !IsNull([], seg)
  {
    assert Masked([], seg) == 0 & seg.nullBit == 0;
    NoBits(seg);
    CutAt([], seg.start, seg.length);
    CutAt([], seg.start, if seg.length > 0 then seg.length - 1 else 0);
    hide Bits, Cut;
  }

  lemma NoBits(seg: Seg)
    ensures Bits([], seg) == 0
  {
    assert Word([], seg.bitPos) == 0;
  }

  lemma {:induction false} EmptyHash(key: Key, n: nat, h: Hasher)
    requires n <= |key.segs| && key.add == Notice && forall j :: 0 <= j < |key.segs| ==> Plain(key.segs[j])
    ensures RecHashFrom(key, n, [], h) == h
    decreases |key.segs| - n
  {
    hide RecPart;
    if n < |key.segs| {
      EmptyPart(key.segs[n]);
      ZerosUnnoticed(h, RecPart(key.segs[n], []).bytes);
      EmptyHash(key, n + 1, h);
    }
  }

  /** The packed key has zeros from lo on, up to hi. */
  ghost predicate Blank(k: Bytes, lo: nat, hi: nat) { forall i: nat :: lo <= i < hi ==> At(k, i) == 0 }

  lemma BlankPart(seg: Seg, k: Bytes, p: nat)
    requires Plain(seg) && Blank(k, p, p + Width(seg))
    ensures KeyPart(seg, k, p).Raw? && |KeyPart(seg, k, p).bytes| == seg.length && Zeros(KeyPart(seg, k, p).bytes)
            && Marked(seg, k, p)
  {
  }

  /** One segment of zeros matches the empty record. */
  lemma BlankMatches(seg: Seg, k: Bytes, p: nat)
    requires Plain(seg) && Blank(k, p, p + Width(seg))
    ensures Marked(seg, k, p) && SamePart(seg, RecPart(seg, []), KeyPart(seg, k, p))
  {
    EmptyPart(seg);
    BlankPart(seg, k, p);
    hide RecPart, KeyPart;
    assert RecPart(seg, []).bytes == KeyPart(seg, k, p).bytes;
  }

  lemma BeyondBlank(k: Bytes, lo: nat, hi: nat)
    requires |k| <= lo
    ensures Blank(k, lo, hi)
  {
  }

  /** Nothing but zeros ahead: the rest matches, and the hash stays. */
  lemma {:induction false} BlankRest(key: Key, n: nat, k: Bytes, p: nat, h: Hasher)
    requires n <= |key.segs| && key.add == Notice && (forall j :: 0 <= j < |key.segs| ==> Plain(key.segs[j]))
             && |k| <= p
    ensures MatchesFrom(key, n, [], k, p) && KeyHashFrom(key, n, k, p, h) == h
    decreases |key.segs| - n
  {
    hide RecPart, KeyPart, SamePart, Marked, Width, Plain, Blank, Absorb, IsNull, Seg.Uneven;
    if n < |key.segs| {
      var seg := key.segs[n];
      BeyondBlank(k, p, p + Width(seg));
      BlankMatches(seg, k, p);
      BlankAbsorb(seg, k, p, h);
      BlankRest(key, n + 1, k, p + Skipped(seg, []), h);
      BlankRest(key, n + 1, k, p + Width(seg), h);
    }
  }

  /** Up to the uneven segment m comparison and hash go together; then the comparison
      steps over position q, where the key's one byte that is not zero is. */
  lemma {:induction false} MatchesPast(key: Key, j: nat, m: nat, k: Bytes, q: nat)
    requires j <= m < |key.segs| && key.add == Notice && (forall i :: 0 <= i < |key.segs| ==> Plain(key.segs[i]))
    requires (forall i :: 0 <= i < m ==> !key.segs[i].Uneven()) && key.segs[m].Uneven()
    requires q == HashPos(key, m + 1) && |k| == q + 1 && Blank(k, 0, q)
    ensures MatchesFrom(key, j, [], k, HashPos(key, j))
    decreases m - j
  {
    hide RecPart, KeyPart, SamePart, Marked, Width, Plain, Blank, IsNull;
    var seg, p := key.segs[j], HashPos(key, j);
    PosGrows(key, j + 1, m + 1);
    assert HashPos(key, j + 1) == p + Width(seg);
    BlankShorter(k, p, p + Width(seg), q);
    BlankMatches(seg, k, p);
    EmptyPart(seg);
    if j < m {
      MatchesPast(key, j + 1, m, k, q);
    } else {
      BlankRest(key, m + 1, k, q + 1, ZERO);
    }
  }

  lemma {:induction false} PosGrows(key: Key, j: nat, n: nat)
    requires j <= n <= |key.segs|
    ensures HashPos(key, j) <= HashPos(key, n)
    decreases n
  {
    if j < n { PosGrows(key, j, n - 1); }
  }

  /** The hash comes to position q in the first segment of any width after m, and
      notices. */
  lemma {:induction false} HashNotices(key: Key, j: nat, n: nat, k: Bytes, q: nat)
    requires j <= n < |key.segs| && key.add == Notice && (forall i :: 0 <= i < |key.segs| ==> Plain(key.segs[i]))
    requires q == HashPos(key, n) && Width(key.segs[n]) > 0 && |k| == q + 1 && Blank(k, 0, q) && k[q] == 1
    ensures KeyHashFrom(key, j, k, HashPos(key, j), ZERO).nr1 == 1
    decreases n - j
  {
    hide Absorb, KeyPart, Width, Plain, Blank, NullStep;
    var seg, p := key.segs[j], HashPos(key, j);
    if j < n {
      PosGrows(key, j + 1, n);
      assert HashPos(key, j + 1) == p + Width(seg);
      BlankShorter(k, p, p + Width(seg), q);
      BlankAbsorb(seg, k, p, ZERO);
      HashNotices(key, j + 1, n, k, q);
    } else {
      NoticesHere(key, seg, k, q);
      BlankRest(key, n + 1, k, q + Width(seg), Absorb(Notice, ZERO, seg, KeyPart(seg, k, q)));
    }
  }

  lemma BlankShorter(k: Bytes, lo: nat, hi: nat, q: nat)
    requires Blank(k, 0, q) && hi <= q
    ensures Blank(k, lo, hi)
  {
  }

  lemma BlankAbsorb(seg: Seg, k: Bytes, p: nat, h: Hasher)
    requires Plain(seg) && Blank(k, p, p + Width(seg))
    ensures Absorb(Notice, h, seg, KeyPart(seg, k, p)) == h
  {
    BlankPart(seg, k, p);
    hide KeyPart, NullStep;
    ZerosUnnoticed(h, KeyPart(seg, k, p).bytes);
  }

  lemma CutAt(b: Bytes, i: nat, n: nat)
    ensures forall j: nat :: j < n ==> Cut(b, i, n)[j] == At(b, i + j)
  {
  }

  lemma NoticesHere(key: Key, seg: Seg, k: Bytes, q: nat)
    requires Plain(seg) && Width(seg) > 0 && |k| == q + 1 && k[q] == 1
    ensures Absorb(Notice, ZERO, seg, KeyPart(seg, k, q)).nr1 == 1
  {
    if seg.nullBit == 0 {
      var s := Cut(k, q, seg.length);
      CutAt(k, q, seg.length);
      assert s[0] == 1;
      assert forall i :: 0 <= i < |s[1..]| ==> s[1..][i] == s[i + 1];
      ZerosUnnoticed(Hasher(1, 0), s[1..]);
    } else {
      assert NullStep(ZERO).nr1 == 1;
    }
  }

  /** With an uneven BIT segment m before a segment n of positive length, whatever the
      other segments of plain bytes are, some hasher, record and key match with
      different hashes: the index does not find a row it holds. */
  lemma UnevenBitBreaks(segs: seq<Seg>, m: nat, n: nat) returns (key: Key, rec: Bytes, k: Bytes)
    requires m < n < |segs| && segs[m].Uneven() && segs[n].length > 0 && forall i :: 0 <= i < |segs| ==> Plain(segs[i])
    ensures key.segs == segs && OpsOf(key).matches(rec, k) && OpsOf(key).hashRec(rec) != OpsOf(key).hashKey(k)
  {
    hide Width, Plain, HashPos, Seg.Uneven, NullStep, MatchesFrom, RecHashFrom, KeyHashFrom, HashOf;
    key, rec := Key(segs, Notice, ZERO), [];
    var u := FirstUneven(segs, m);
    var v := FirstWide(key, u, n);
    var q := HashPos(key, v);
    k := seq(q, _ => 0) + [1];
    assert Blank(k, 0, q) && HashPos(key, 0) == 0 by { StartsAtZero(key); }
    MatchesPast(key, 0, u, k, q);
    HashNotices(key, 0, v, k, q);
    EmptyHash(key, 0, ZERO);
    NoticedHash(KeyHashFrom(key, 0, k, 0, ZERO));
  }

  lemma NoticedHash(h: Hasher)
    requires h.nr1 == 1
    ensures HashOf(h) != HashOf(ZERO)
  {
  }

  lemma StartsAtZero(key: Key)
    ensures HashPos(key, 0) == 0
  {
  }

  lemma FirstUneven(segs: seq<Seg>, m: nat) returns (u: nat)
    requires m < |segs| && segs[m].Uneven()
    ensures u <= m && segs[u].Uneven() && forall i :: 0 <= i < u ==> !segs[i].Uneven()
  {
    u := 0;
    while !segs[u].Uneven()
      invariant u <= m && forall i :: 0 <= i < u ==> !segs[i].Uneven()
      decreases m - u
    {
      u := u + 1;
    }
  }

  lemma FirstWide(key: Key, u: nat, n: nat) returns (v: nat)
    requires u < n < |key.segs| && key.segs[n].length > 0
    ensures u < v <= n && Width(key.segs[v]) > 0 && HashPos(key, v) == HashPos(key, u + 1)
  {
    v := u + 1;
    while Width(key.segs[v]) == 0
      invariant u < v <= n && HashPos(key, v) == HashPos(key, u + 1)
      decreases n - v
    {
      v := v + 1;
    }
  }

  // ----- the loops ---------------------------------------------------------------------

  lemma {:induction false} AddAllAppend(add: (Hasher, byte) -> Hasher, h: Hasher, s: Bytes, v: byte)
    ensures AddAll(add, h, s + [v]) == add(AddAll(add, h, s), v)
    decreases |s|
  {
    if s == [] {
      assert (s + [v])[1..] == [];
    } else {
      assert (s + [v])[1..] == s[1..] + [v];
      AddAllAppend(add, add(h, s[0]), s[1..], v);
    }
  }

  /** Hash the bytes from pos up to end. */
  method AddRange(add: (Hasher, byte) -> Hasher, h0: Hasher, b: Bytes, pos: nat, end: nat) returns (h: Hasher)
    requires pos <= end
    ensures h == AddAll(add, h0, Cut(b, pos, end - pos))
  {
    h := h0;
    var i := pos;
    while i < end
      invariant pos <= i <= end && h == AddAll(add, h0, Cut(b, pos, i - pos))
    {
      AddAllAppend(add, h0, Cut(b, pos, i - pos), At(b, i));
      assert Cut(b, pos, i + 1 - pos) == Cut(b, pos, i - pos) + [At(b, i)];
      h := add(h, At(b, i));
      i := i + 1;
    }
  }

  /** One segment of a record. */
  method AddRecPart(key: Key, seg: Seg, rec: Bytes, h0: Hasher) returns (h: Hasher)
    requires seg.Uneven() ==> seg.length > 0
    ensures h == Absorb(key.add, h0, seg, RecPart(seg, rec))
  {
    hide NullStep;
    if seg.nullBit != 0 && Masked(rec, seg) != 0 {
      return NullStep(h0);
    }
    if seg.kind == Text {
      var s := Cut(rec, seg.start, seg.length);
      var n := seg.length;
      if seg.cs.mbmaxlen > 1 {
        n := Min(seg.cs.charpos(s, seg.length / seg.cs.mbmaxlen), seg.length);
      }
      assert s[..seg.length] == s;
      h := seg.cs.hashSort(h0, s[..n]);
    } else if seg.kind == VarText {
      var n := VarLength(rec, seg);
      if seg.cs.mbmaxlen > 1 {
        var s := Cut(rec, seg.start + seg.bitStart, n);
        n := Min(n, seg.cs.charpos(s, seg.length / seg.cs.mbmaxlen));
        assert Cut(rec, seg.start + seg.bitStart, n) == s[..n];
      } else {
        n := Min(n, seg.length);
      }
      h := seg.cs.hashSort(h0, Cut(rec, seg.start + seg.bitStart, n));
    } else {
      var end := seg.start + seg.length;
      h := h0;
      if seg.kind == BitField && seg.bitLength > 0 {
        h := key.add(h, Bits(rec, seg));
        end := end - 1;
        var tail := Cut(rec, seg.start, seg.length - 1);
        assert ([Bits(rec, seg)] + tail)[1..] == tail;
      }
      h := AddRange(key.add, h, rec, seg.start, end);
    }
  }

  method RecHash(key: Key, rec: Bytes) returns (r: nat)
    requires forall n :: 0 <= n < |key.segs| && key.segs[n].Uneven() ==> key.segs[n].length > 0
    ensures r == OpsOf(key).hashRec(rec)
  {
    hide Absorb, RecPart;
    var h, n := key.seed, 0;
    while n < |key.segs|
      invariant n <= |key.segs| && RecHashFrom(key, n, rec, h) == RecHashFrom(key, 0, rec, key.seed)
    {
      h := AddRecPart(key, key.segs[n], rec, h);
      n := n + 1;
    }
    r := HashOf(h);
  }

  /** The value of a packed segment that is not NULL. */
  method AddKeyValue(key: Key, seg: Seg, k: Bytes, p: nat, h0: Hasher) returns (h: Hasher)
    requires !(seg.nullBit != 0 && At(k, p) != 0)
    ensures h == Absorb(key.add, h0, seg, KeyPart(seg, k, p))
  {
    hide NullStep, AddAll;
    if seg.kind == Text || seg.kind == VarText {
      var s, _ := KeyText(seg, k, p);
      h := seg.cs.hashSort(h0, s);
    } else {
      var pos := if seg.nullBit != 0 then p + 1 else p;
      h := AddRange(key.add, h0, k, pos, pos + seg.length);
    }
  }

  /** One segment of a packed key, and where the next one starts. */
  method AddKeyPart(key: Key, seg: Seg, k: Bytes, p: nat, h0: Hasher) returns (h: Hasher, p': nat)
    ensures h == Absorb(key.add, h0, seg, KeyPart(seg, k, p)) && p' == p + Width(seg)
  {
    hide NullStep;
    p' := p + seg.length;
    if seg.nullBit != 0 {
      p' := p' + 1;
    }
    if seg.kind == VarText {
      p' := p' + 2;
    }
    if seg.nullBit != 0 && At(k, p) != 0 {
      h := NullStep(h0);
    } else {
      h := AddKeyValue(key, seg, k, p, h0);
    }
  }

  method PackedHash(key: Key, k: Bytes) returns (r: nat)
    ensures r == OpsOf(key).hashKey(k)
  {
    hide Absorb, KeyPart;
    var h, n, p := key.seed, 0, 0;
    while n < |key.segs|
      invariant n <= |key.segs| && KeyHashFrom(key, n, k, p, h) == KeyHashFrom(key, 0, k, 0, key.seed)
    {
      h, p := AddKeyPart(key, key.segs[n], k, p, h);
      n := n + 1;
    }
    r := HashOf(h);
  }

  /** The text of a record segment that is compared: at most so many characters,
      or bytes, of it. */
  method RecText(seg: Seg, rec: Bytes) returns (s: Bytes)
    requires (seg.kind == Text || seg.kind == VarText) && !IsNull(rec, seg)
    ensures RecPart(seg, rec) == Chars(s)
  {
    var pos, n := seg.start, seg.length;
    if seg.kind == VarText {
      n := VarLength(rec, seg);
      pos := pos + seg.bitStart;
    }
    s := Cut(rec, pos, n);
    if seg.cs.mbmaxlen > 1 {
      s := Prefix(seg.cs, s, seg.length / seg.cs.mbmaxlen);
    } else {
      assert s[..n] == s && s[..Min(n, seg.length)] == Cut(rec, pos, Min(n, seg.length));
      s := s[..Min(n, seg.length)];
    }
  }

  /** Whether two records differ in one segment; 0 and 1 in the engine. */
  method PartsDiffer(seg: Seg, a: Bytes, b: Bytes) returns (differ: bool)
    requires seg.Uneven() ==> seg.length > 0
    ensures differ <==>
              !((seg.nullBit != 0 ==> Masked(a, seg) == Masked(b, seg))
                  && SamePart(seg, RecPart(seg, a), RecPart(seg, b)))
  {
    if seg.nullBit != 0 {
      if Masked(a, seg) != Masked(b, seg) { return true; }
      if Masked(a, seg) != 0 { return false; }
    }
    if seg.kind == Text || seg.kind == VarText {
      var s := RecText(seg, a);
      var r := RecText(seg, b);
      return !seg.cs.same(s, r);
    }
    var dec := 0;
    if seg.kind == BitField && seg.bitLength > 0 {
      dec := 1;
      ghost var u, v := RecPart(seg, a).bytes, RecPart(seg, b).bytes;
      assert u[0] == Bits(a, seg) && u[1..] == Cut(a, seg.start, seg.length - 1);
      assert v[0] == Bits(b, seg) && v[1..] == Cut(b, seg.start, seg.length - 1);
      assert u == [u[0]] + u[1..] && v == [v[0]] + v[1..];
      if Bits(a, seg) != Bits(b, seg) { return true; }
    }
    differ := Cut(a, seg.start, seg.length - dec) != Cut(b, seg.start, seg.length - dec);
  }

  method CompareRecs(key: Key, a: Bytes, b: Bytes) returns (differ: bool)
    requires forall n :: 0 <= n < |key.segs| && key.segs[n].Uneven() ==> key.segs[n].length > 0
    ensures differ <==> !OpsOf(key).sameRec(a, b)
  {
    hide RecPart, SamePart;
    var n := 0;
    while n < |key.segs|
      invariant n <= |key.segs| && (RecSameFrom(key, n, a, b) <==> RecSameFrom(key, 0, a, b))
    {
      differ := PartsDiffer(key.segs[n], a, b);
      if differ { return; }
      n := n + 1;
    }
    differ := false;
  }

  /** The text of a packed key segment whose value starts at p. */
  method KeyText(seg: Seg, k: Bytes, p: nat) returns (s: Bytes, p': nat)
    requires (seg.kind == Text || seg.kind == VarText) && !(seg.nullBit != 0 && At(k, p) != 0)
    ensures KeyPart(seg, k, p) == Chars(s)
    ensures p' == p + Width(seg) - seg.length
  {
    hide Prefix, Cut, Word;
    p' := if seg.nullBit != 0 then p + 1 else p;
    var n := seg.length;
    if seg.kind == VarText {
      n := Word(k, p');
      p' := p' + 2;
    }
    s := Cut(k, p', n);
    if seg.cs.mbmaxlen > 1 {
      s := Prefix(seg.cs, s, seg.length / seg.cs.mbmaxlen);
    }
  }

  /** Bytes are compared like their first byte and the others. */
  lemma FirstApart(k: Bytes, p: nat, n: nat, b: byte, rest: Bytes)
    requires n > 0
    ensures [b] + rest == Cut(k, p, n) <==> b == At(k, p) && rest == Cut(k, p + 1, n - 1)
  {
    var v := Cut(k, p, n);
    assert v[0] == At(k, p) && v[1..] == Cut(k, p + 1, n - 1) && v == [v[0]] + v[1..];
    assert ([b] + rest)[0] == b && ([b] + rest)[1..] == rest;
  }

  /** Whether a record differs from a packed key in the segment at p, and where the
      comparison looks next. */
  method KeyDiffers(seg: Seg, rec: Bytes, k: Bytes, p: nat) returns (differ: bool, p': nat)
    requires seg.Uneven() ==> seg.length > 0
    ensures differ <==> !(Marked(seg, k, p) && SamePart(seg, RecPart(seg, rec), KeyPart(seg, k, p)))
    ensures !differ ==> p' == p + Skipped(seg, rec)
  {
    p' := p;
    if seg.nullBit != 0 {
      var foundNull := if Masked(rec, seg) != 0 then 1 else 0;
      if foundNull != At(k, p) { return true, p'; }
      p' := p' + 1;
      if foundNull == 1 {
        if seg.kind == VarText { p' := p' + 2; }
        return false, p' + seg.length;
      }
    }
    if seg.kind == Text || seg.kind == VarText {
      var s := RecText(seg, rec);
      var r;
      r, p' := KeyText(seg, k, p);
      return !seg.cs.same(s, r), p' + seg.length;
    }
    var dec := 0;
    hide Cut, Bits, Masked;
    if seg.kind == BitField && seg.bitLength > 0 {
      dec := 1;
      FirstApart(k, p', seg.length, Bits(rec, seg), Cut(rec, seg.start, seg.length - 1));
      if Bits(rec, seg) != At(k, p') { return true, p'; }
      p' := p' + 1;
    }
    differ := Cut(rec, seg.start, seg.length - dec) != Cut(k, p', seg.length - dec);
    p' := p' + seg.length;
  }

  method CompareKey(key: Key, rec: Bytes, k: Bytes) returns (differ: bool)
    requires forall n :: 0 <= n < |key.segs| && key.segs[n].Uneven() ==> key.segs[n].length > 0
    ensures differ <==> !OpsOf(key).matches(rec, k)
  {
    hide RecPart, KeyPart, SamePart, Skipped, Marked;
    var n, p := 0, 0;
    while n < |key.segs|
      invariant n <= |key.segs| && (MatchesFrom(key, n, rec, k, p) <==> MatchesFrom(key, 0, rec, k, 0))
    {
      differ, p := KeyDiffers(key.segs[n], rec, k, p);
      if differ { return; }
      n := n + 1;
    }
    differ := false;
  }

  method NullInKey(key: Key, rec: Bytes) returns (found: bool)
    ensures found <==> OpsOf(key).hasNull(rec)
  {
    hide Masked, RecSameFrom, MatchesFrom, RecHashFrom, KeyHashFrom, HashOf;
    var n := 0;
    while n < |key.segs|
      invariant n <= |key.segs| && forall m :: 0 <= m < n ==> !IsNull(rec, key.segs[m])
    {
      if key.segs[n].nullBit != 0 && Masked(rec, key.segs[n]) != 0 {
        assert IsNull(rec, key.segs[n]);
        return true;
      }
      n := n + 1;
    }
    found := false;
  }

  // ----- packing a key -------------------------------------------------------------------

  /** How many bytes of the record a segment's packed form copies. */
  function Copied(seg: Seg, rec: Bytes): nat {
    var n := if seg.cs.mbmaxlen > 1
             then Min(seg.cs.charpos(Cut(rec, seg.start, seg.length), seg.length / seg.cs.mbmaxlen), seg.length)
             else seg.length;
    if seg.kind == VarText then n + seg.bitStart
    else if seg.Uneven() && n > 0 then n - 1
    else n
  }

  function PackedSeg(seg: Seg, rec: Bytes): Bytes {
    (if seg.nullBit == 0 then [] else if Masked(rec, seg) != 0 then [1] else [0])
    + (if seg.Uneven() then [Bits(rec, seg)] else [])
    + Cut(rec, seg.start, Copied(seg, rec))
  }

  function PackedFrom(key: Key, n: nat, rec: Bytes): Bytes
    requires n <= |key.segs|
    decreases |key.segs| - n
  {
    if n == |key.segs| then [] else PackedSeg(key.segs[n], rec) + PackedFrom(key, n + 1, rec)
  }

  /** Append one segment to the packed key. */
  method PackSeg(seg: Seg, rec: Bytes, before: Bytes) returns (k: Bytes)
    requires seg.Uneven() ==> seg.length > 0 && seg.cs.mbmaxlen <= 1
    ensures k == before + PackedSeg(seg, rec)
  {
    var count := seg.length;
    k := before;
    if seg.nullBit != 0 {
      k := k + [if Masked(rec, seg) != 0 then 1 else 0];
    }
    if seg.cs.mbmaxlen > 1 {
      count := Min(seg.cs.charpos(Cut(rec, seg.start, seg.length), count / seg.cs.mbmaxlen), seg.length);
    }
    if seg.kind == VarText {
      count := count + seg.bitStart;
    } else if seg.kind == BitField && seg.bitLength > 0 {
      k := k + [Bits(rec, seg)];
      count := count - 1;
    }
    k := k + Cut(rec, seg.start, count);
  }

  method MakeKey(key: Key, rec: Bytes) returns (k: Bytes)
    requires forall n :: 0 <= n < |key.segs| && key.segs[n].Uneven() ==>
               key.segs[n].length > 0 && key.segs[n].cs.mbmaxlen <= 1
    ensures k == PackedFrom(key, 0, rec)
  {
    hide PackedSeg;
    k := [];
    var n := 0;
    while n < |key.segs|
      invariant n <= |key.segs| && k + PackedFrom(key, n, rec) == PackedFrom(key, 0, rec)
    {
      ghost var s, rest := PackedSeg(key.segs[n], rec), PackedFrom(key, n + 1, rec);
      assert k + (s + rest) == (k + s) + rest;
      k := PackSeg(key.segs[n], rec, k);
      n := n + 1;
    }
    assert k + [] == k;
  }

  /** The layouts packing was written for: single-byte character sets, two-byte
      VARCHAR lengths, and values no longer than the segment. */
  predicate Packs(seg: Seg, rec: Bytes) {
    && seg.cs.mbmaxlen <= 1
    && (seg.kind == VarText ==> seg.bitStart == 2 && VarLength(rec, seg) <= seg.length)
    && (seg.Uneven() ==> seg.length > 0)
  }

  lemma CutOf(b: Bytes, i: nat, n: nat, j: nat, m: nat)
    requires j + m <= n
    ensures Cut(b, i, n)[j..j + m] == Cut(b, i + j, m)
  {
  }

  lemma CutWithin(pre: Bytes, s: Bytes, post: Bytes, j: nat, m: nat)
    requires j + m <= |s|
    ensures Cut(pre + s + post, |pre| + j, m) == s[j..j + m]
  {
    var k := pre + s + post;
    var l, r := Cut(k, |pre| + j, m), s[j..j + m];
    forall i | 0 <= i < m ensures l[i] == r[i] {
      var at := |pre| + j + i;
      assert l[i] == At(k, at) == k[at] == s[at - |pre|];
    }
  }

  lemma PackedWidth(seg: Seg, rec: Bytes)
    requires Packs(seg, rec)
    ensures |PackedSeg(seg, rec)| == Width(seg)
  {
  }

  /** A packed segment reads back as the record's value. */
  lemma PackedReads(seg: Seg, rec: Bytes, pre: Bytes, post: Bytes)
    requires Packs(seg, rec) && seg.cs.Equivalence()
    ensures Marked(seg, pre + PackedSeg(seg, rec) + post, |pre|)
    ensures SamePart(seg, RecPart(seg, rec), KeyPart(seg, pre + PackedSeg(seg, rec) + post, |pre|))
  {
    var s := PackedSeg(seg, rec);
    var k := pre + s + post;
    var d := if seg.nullBit != 0 then 1 else 0;
    PackedWidth(seg, rec);
    if d == 1 {
      assert k[|pre|] == s[0] == if Masked(rec, seg) != 0 then 1 else 0;
    }
    hide Masked, Bits;
    if !IsNull(rec, seg) {
      if seg.kind == VarText {
        VarReads(seg, rec, pre, post);
      } else {
        CutWithin(pre, s, post, d, seg.length);
        if seg.Uneven() {
          assert s[d..] == [Bits(rec, seg)] + Cut(rec, seg.start, seg.length - 1);
        } else {
          assert s[d..] == Cut(rec, seg.start, seg.length);
        }
        assert s[d..d + seg.length] == s[d..];
      }
    }
  }

  /** The length and the bytes of a packed VARCHAR. */
  lemma VarCut(seg: Seg, rec: Bytes, pre: Bytes, post: Bytes, d: nat)
    requires Packs(seg, rec) && seg.kind == VarText && d == if seg.nullBit != 0 then 1 else 0
    ensures var k := pre + PackedSeg(seg, rec) + post;
            Word(k, |pre| + d) == VarLength(rec, seg)
                && Cut(k, |pre| + d + 2, VarLength(rec, seg)) == Cut(rec, seg.start + 2, VarLength(rec, seg))
  {
    var s := PackedSeg(seg, rec);
    var k := pre + s + post;
    var n := VarLength(rec, seg);
    assert |s| == d + seg.length + 2 && s[d..] == Cut(rec, seg.start, seg.length + 2);
    assert s[d] == s[d..][0] == At(rec, seg.start) && s[d + 1] == s[d..][1] == At(rec, seg.start + 1);
    hide PackedSeg;
    assert k[|pre| + d] == s[d] && k[|pre| + d + 1] == s[d + 1];
    CutWithin(pre, s, post, d + 2, n);
    CutOf(rec, seg.start, seg.length + 2, 2, n);
    assert s[d + 2..d + 2 + n] == s[d..][2..2 + n];
  }

  lemma VarReads(seg: Seg, rec: Bytes, pre: Bytes, post: Bytes)
    requires Packs(seg, rec) && seg.kind == VarText && !IsNull(rec, seg) && seg.cs.Equivalence()
    ensures SamePart(seg, RecPart(seg, rec), KeyPart(seg, pre + PackedSeg(seg, rec) + post, |pre|))
  {
    var k := pre + PackedSeg(seg, rec) + post;
    VarCut(seg, rec, pre, post, if seg.nullBit != 0 then 1 else 0);
    if seg.nullBit != 0 {
      assert k[|pre|] == PackedSeg(seg, rec)[0] == 0;
    }
    hide PackedSeg, Cut, Word;
  }

  lemma {:induction false} PackedMatches(key: Key, n: nat, rec: Bytes, pre: Bytes)
    requires n <= |key.segs| && Collates(key) && BitLast(key)
             && forall m :: 0 <= m < |key.segs| ==> Packs(key.segs[m], rec)
    ensures MatchesFrom(key, n, rec, pre + PackedFrom(key, n, rec), |pre|)
    decreases |key.segs| - n
  {
    hide RecPart, KeyPart, SamePart, Collates, Marked, PackedSeg, Packs;
    if n < |key.segs| {
      var seg := key.segs[n];
      var s, rest := PackedSeg(seg, rec), PackedFrom(key, n + 1, rec);
      assert Packs(seg, rec);
      assert seg.cs.Equivalence() by { CollatesAt(key, n); }
      PackedReads(seg, rec, pre, rest);
      PackedWidth(seg, rec);
      assert pre + PackedFrom(key, n, rec) == pre + s + rest;
      if n + 1 < |key.segs| {
        PackedMatches(key, n + 1, rec, pre + s);
      }
    }
  }

  lemma CollatesAt(key: Key, n: nat)
    requires Collates(key) && n < |key.segs|
    ensures key.segs[n].cs.Equivalence()
  {
  }

  /** Packing a record's key gives a key that the record matches, and that leads
      to the record's own hash. */
  lemma PackRoundTrip(key: Key, rec: Bytes)
    requires Congruent(key) && Collates(key) && BitLast(key)
             && forall m :: 0 <= m < |key.segs| ==> Packs(key.segs[m], rec)
    ensures OpsOf(key).matches(rec, PackedFrom(key, 0, rec))
    ensures OpsOf(key).hashKey(PackedFrom(key, 0, rec)) == OpsOf(key).hashRec(rec)
  {
    PackedMatches(key, 0, rec, []);
    assert [] + PackedFrom(key, 0, rec) == PackedFrom(key, 0, rec);
    MatchHash(key, 0, rec, PackedFrom(key, 0, rec), 0, key.seed);
  }

  /** A VARCHAR column that compares its bytes. */
  ghost predicate Varchar(seg: Seg) {
    && seg.kind == VarText && seg.nullBit == 0 && 1 <= seg.bitStart <= 2 && seg.cs.mbmaxlen <= 1
    && forall a, b :: seg.cs.same(a, b) <==> a == b
  }

  /** Packing copies the length as it is, and every reader takes two bytes for it.  So a
      one-byte length does only if the value is nothing but zeros, and zero follows. */
  ghost predicate PacksWell(seg: Seg, rec: Bytes) {
    && VarLength(rec, seg) <= seg.length
    && (seg.bitStart == 1 ==> Blank(rec, seg.start + 1, seg.start + 1 + Min(VarLength(rec, seg) + 1, seg.length)))
  }

  /** The packed value that the readers see is the record's. */
  predicate ReadsBack(seg: Seg, rec: Bytes) {
    var k := PackedSeg(seg, rec);
    Cut(rec, seg.start + seg.bitStart, Min(VarLength(rec, seg), seg.length)) == Cut(k, 2, Word(k, 0))
  }

  lemma PackedAt(seg: Seg, rec: Bytes, i: nat)
    requires Varchar(seg)
    ensures At(PackedSeg(seg, rec), i) == if i < seg.length + seg.bitStart then At(rec, seg.start + i) else 0
  {
  }

  /** Bytes that equal their successors, the first of them zero, are all zero. */
  lemma {:induction false} AllZero(seg: Seg, rec: Bytes, n: nat, i: nat)
    requires Varchar(seg) && seg.bitStart == 1 && i <= n <= seg.length && i < seg.length && At(rec, seg.start + 1) == 0
    requires Cut(PackedSeg(seg, rec), 2, n) == Cut(rec, seg.start + 1, n)
    ensures At(rec, seg.start + 1 + i) == 0
  {
    hide PackedSeg, Varchar;
    if i > 0 {
      AllZero(seg, rec, n, i - 1);
      assert Cut(PackedSeg(seg, rec), 2, n)[i - 1] == Cut(rec, seg.start + 1, n)[i - 1];
      PackedAt(seg, rec, 2 + (i - 1));
    }
  }

  lemma TwoByteReads(seg: Seg, rec: Bytes)
    requires Varchar(seg) && seg.bitStart == 2
    ensures ReadsBack(seg, rec) <==> PacksWell(seg, rec)
  {
    var k, n := PackedSeg(seg, rec), VarLength(rec, seg);
    PackedAt(seg, rec, 0);
    PackedAt(seg, rec, 1);
    hide PackedSeg;
    if n <= seg.length {
      var a, b := Cut(rec, seg.start + 2, n), Cut(k, 2, n);
      forall i | 0 <= i < n ensures a[i] == b[i] { PackedAt(seg, rec, 2 + i); }
    }
  }

  lemma OneByteReads(seg: Seg, rec: Bytes)
    requires Varchar(seg) && seg.bitStart == 1
    ensures ReadsBack(seg, rec) <==> PacksWell(seg, rec)
  {
    var k, n := PackedSeg(seg, rec), VarLength(rec, seg);
    PackedAt(seg, rec, 0);
    PackedAt(seg, rec, 1);
    hide PackedSeg, Varchar;
    if ReadsBack(seg, rec) {
      assert |Cut(k, 2, Word(k, 0))| == Min(n, seg.length);
      forall i: nat | seg.start + 1 <= i < seg.start + 1 + Min(n + 1, seg.length) ensures At(rec, i) == 0 {
        AllZero(seg, rec, n, i - seg.start - 1);
      }
    }
    if PacksWell(seg, rec) {
      assert Word(k, 0) == n;
      var a, b := Cut(rec, seg.start + 1, n), Cut(k, 2, n);
      forall i | 0 <= i < n ensures a[i] == b[i] {
        PackedAt(seg, rec, 2 + i);
        assert At(rec, seg.start + 1 + i) == 0;
      }
    }
  }

  lemma VarParts(seg: Seg, rec: Bytes)
    requires Varchar(seg)
    ensures var k := PackedSeg(seg, rec);
            Marked(seg, k, 0) && (SamePart(seg, RecPart(seg, rec), KeyPart(seg, k, 0)) <==> ReadsBack(seg, rec))
  {
    hide PackedSeg, Cut, Word, VarLength;
  }

  lemma OneSegment(key: Key, rec: Bytes, k: Bytes)
    requires |key.segs| == 1
    ensures PackedFrom(key, 0, rec) == PackedSeg(key.segs[0], rec)
    ensures MatchesFrom(key, 0, rec, k, 0) <==>
              Marked(key.segs[0], k, 0) && SamePart(key.segs[0], RecPart(key.segs[0], rec), KeyPart(key.segs[0], k, 0))
  {
    hide PackedSeg, Marked, SamePart, RecPart, KeyPart, Skipped;
    assert PackedSeg(key.segs[0], rec) + [] == PackedSeg(key.segs[0], rec);
  }

  /** Whether a record matches its own packed key, for every VARCHAR column and value. */
  lemma VarPacksExactly(key: Key, rec: Bytes)
    requires |key.segs| == 1 && Varchar(key.segs[0])
    ensures OpsOf(key).matches(rec, PackedFrom(key, 0, rec)) <==> PacksWell(key.segs[0], rec)
  {
    var seg := key.segs[0];
    VarParts(seg, rec);
    OneSegment(key, rec, PackedSeg(seg, rec));
    if seg.bitStart == 2 { TwoByteReads(seg, rec); } else { OneByteReads(seg, rec); }
    hide PacksWell, ReadsBack, PackedSeg, MatchesFrom, PackedFrom, Marked, SamePart, RecPart, KeyPart;
  }

  /** A VARCHAR value, compared bytewise, with a one-byte length and a first byte other
      than zero. */
  ghost predicate ShortLength(seg: Seg, rec: Bytes) {
    && seg.kind == VarText && !IsNull(rec, seg) && seg.bitStart == 1 && seg.length > 0 && seg.cs.mbmaxlen <= 1
    && At(rec, seg.start + 1) != 0 && forall a, b :: seg.cs.same(a, b) <==> a == b
  }

  /** Its second byte is taken for a part of the length. */
  lemma ShortLengthReads(seg: Seg, rec: Bytes, pre: Bytes, post: Bytes)
    requires ShortLength(seg, rec)
    ensures !SamePart(seg, RecPart(seg, rec), KeyPart(seg, pre + PackedSeg(seg, rec) + post, |pre|))
  {
    var s := PackedSeg(seg, rec);
    var k := pre + s + post;
    var d := if seg.nullBit != 0 then 1 else 0;
    assert |s| == d + seg.length + 1 && s[d..] == Cut(rec, seg.start, seg.length + 1);
    assert s[d] == s[d..][0] == At(rec, seg.start) && s[d + 1] == s[d..][1] == At(rec, seg.start + 1);
    assert d == 1 ==> s[0] == 0 && k[|pre|] == s[0];
    hide PackedSeg, Masked;
    assert k[|pre| + d] == s[d] && k[|pre| + d + 1] == s[d + 1];
    assert Word(k, |pre| + d) > VarLength(rec, seg);
    assert |RecPart(seg, rec).text| <= VarLength(rec, seg) && |KeyPart(seg, k, |pre|).text| == Word(k, |pre| + d);
  }

  lemma {:induction false} LostFrom(key: Key, n: nat, m: nat, rec: Bytes, pre: Bytes)
    requires n <= m < |key.segs| && ShortLength(key.segs[m], rec)
    requires forall j :: n <= j < m ==> Packs(key.segs[j], rec) && !key.segs[j].Uneven()
    ensures !MatchesFrom(key, n, rec, pre + PackedFrom(key, n, rec), |pre|)
    decreases m - n
  {
    hide RecPart, KeyPart, SamePart, Marked, PackedSeg, Packs, ShortLength;
    var seg := key.segs[n];
    var s, rest := PackedSeg(seg, rec), PackedFrom(key, n + 1, rec);
    assert pre + PackedFrom(key, n, rec) == pre + s + rest;
    if n < m {
      PackedWidth(seg, rec);
      LostFrom(key, n + 1, m, rec, pre + s);
    } else {
      ShortLengthReads(seg, rec, pre, rest);
    }
  }

  /** Such a value in segment m, behind segments that pack well, is enough: the record does
      not match its own packed key. */
  lemma OneByteLengthLost(key: Key, m: nat, rec: Bytes)
    requires m < |key.segs| && ShortLength(key.segs[m], rec)
    requires forall j :: 0 <= j < m ==> Packs(key.segs[j], rec) && !key.segs[j].Uneven()
    ensures !OpsOf(key).matches(rec, PackedFrom(key, 0, rec))
  {
    LostFrom(key, 0, m, rec, []);
    assert [] + PackedFrom(key, 0, rec) == PackedFrom(key, 0, rec);
    hide MatchesFrom, PackedFrom, ShortLength, Packs;
  }
}
