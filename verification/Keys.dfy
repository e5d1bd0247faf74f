/** Record images, search keys and the per-key callbacks of the row store.

    The concurrency core is key-format agnostic: each hash key supplies five
    callbacks, modelled here as function-valued fields.  `Contract` is all the
    index relies on; module KeyHash discharges it for the engine's own
    hash and comparison routines. */
module Keys {

  newtype byte = x: int | 0 <= x < 256

  type Bytes = seq<byte>

  datatype Option<+T> = None | Some(value: T)

  /** The callback record of one key.  The comparison callbacks return zero
      for equality in the engine; here they return that equality. */
  datatype KeyOps = KeyOps(
    hashRec: Bytes -> nat,
    hashKey: Bytes -> nat,
    sameRec: (Bytes, Bytes) -> bool,
    matches: (Bytes, Bytes) -> bool,
    hasNull: Bytes -> bool)
  {
    /** Record comparison is an equivalence, and it respects the hash and the
        NULL test; a record that matches a packed key hashes like that key. */
    ghost predicate Contract() {
      && (forall a :: sameRec(a, a))
      && (forall a, b :: sameRec(a, b) ==> sameRec(b, a))
      && (forall a, b, c :: sameRec(a, b) && sameRec(b, c) ==> sameRec(a, c))
      && (forall a, b :: sameRec(a, b) ==> hashRec(a) == hashRec(b) && hasNull(a) == hasNull(b))
      && (forall r, k :: matches(r, k) ==> hashRec(r) == hashKey(k))
    }
  }

  /** nullable: some part of the key can be NULL. */
  datatype KeyDef = KeyDef(ops: KeyOps, unique: bool, nullable: bool)

  /** Table-wide constants: the keys, the bucket count every key shares, the
      row limit and the content of uninitialised record memory. */
  datatype Config = Config(keys: seq<KeyDef>, nbuckets: nat, maxRecords: nat, blank: Bytes)
  {
    ghost predicate Valid() {
      && 0 < nbuckets <= U32
      && maxRecords > 0
      && |keys| <= MAX_KEYS
      && forall k :: 0 <= k < |keys| ==> keys[k].ops.Contract()
    }

    /** The bucket of a record under key k.  The engine masks the hash with
        nbuckets - 1, which for its power-of-two sizes is this remainder. */
    function Home(k: nat, rec: Bytes): (b: nat)
      requires nbuckets > 0 && k < |keys|
      ensures b < nbuckets
    {
      keys[k].ops.hashRec(rec) % nbuckets
    }

    function KeyBucket(k: nat, key: Bytes): (b: nat)
      requires nbuckets > 0 && k < |keys|
      ensures b < nbuckets
    {
      keys[k].ops.hashKey(key) % nbuckets
    }

    predicate Same(k: nat, a: Bytes, b: Bytes)
      requires k < |keys|
    {
      keys[k].ops.sameRec(a, b)
    }

    /** Whether a duplicate check applies to rec under key k at all. */
    predicate Checked(k: nat, rec: Bytes)
      requires k < |keys|
    {
      keys[k].unique && !keys[k].ops.hasNull(rec)
    }
  }

  /** Records that compare equal share their bucket. */
  lemma SameHome(cfg: Config, k: nat, a: Bytes, b: Bytes)
    requires cfg.Valid() && k < |cfg.keys| && cfg.Same(k, a, b)
    ensures cfg.Home(k, a) == cfg.Home(k, b) && cfg.Checked(k, a) == cfg.Checked(k, b)
  {
    assert cfg.keys[k].ops.Contract();
  }

  function Pow2(n: nat): (r: nat)
    ensures r > 0
  {
    if n == 0 then 1 else 2 * Pow2(n - 1)
  }

  /** Bitwise and. */
  function And(a: nat, b: nat): nat {
    if a == 0 || b == 0 then 0 else (a % 2) * (b % 2) + 2 * And(a / 2, b / 2)
  }

  lemma Distributes(p: nat, m: nat)
    ensures (p + 1) * m == p * m + m
  {
  }

  lemma {:induction false} AtLeast(p: nat, q: nat, m: nat)
    requires p < q
    ensures p * m + m <= q * m
  {
    Distributes(q - 1, m);
    if p < q - 1 {
      AtLeast(p, q - 1, m);
    }
  }

  lemma RemainderIs(x: nat, m: nat, q: nat, r: nat)
    requires r < m && x == q * m + r
    ensures x % m == r
  {
    var p := x / m;
    assert x == p * m + x % m;
    if p < q {
      AtLeast(p, q, m);
    } else if q < p {
      AtLeast(q, p, m);
    }
  }

  lemma DoubledRemainder(h: nat, m: nat)
    requires m > 0
    ensures h % (2 * m) == h % 2 + 2 * (h / 2 % m)
  {
    var q, r := h / 2 / m, h / 2 % m;
    assert h / 2 == q * m + r;
    assert 2 * (q * m) == q * (2 * m);
    RemainderIs(h, 2 * m, q, h % 2 + 2 * r);
  }

  lemma AndOdd(h: nat, m: nat)
    requires m > 0
    ensures And(h, 2 * m - 1) == h % 2 + 2 * And(h / 2, m - 1)
  {
    assert (2 * m - 1) % 2 == 1 && (2 * m - 1) / 2 == m - 1;
  }

  /** Masking a hash with nbuckets - 1 is the remainder, for the power-of-two
      bucket counts the engine uses. */
  lemma {:induction false} MaskIsRemainder(h: nat, j: nat)
    ensures And(h, Pow2(j) - 1) == h % Pow2(j)
  {
    if j > 0 {
      var m := Pow2(j - 1);
      assert Pow2(j) == 2 * m;
      hide And, Pow2;
      MaskIsRemainder(h / 2, j - 1);
      DoubledRemainder(h, m);
      AndOdd(h, m);
    }
  }

  /** So the bucket of a record, or of a packed key, is its hash under that mask. */
  lemma HomeIsMasked(cfg: Config, k: nat, rec: Bytes, key: Bytes, j: nat)
    requires k < |cfg.keys| && cfg.nbuckets == Pow2(j)
    ensures cfg.Home(k, rec) == And(cfg.keys[k].ops.hashRec(rec), cfg.nbuckets - 1)
    ensures cfg.KeyBucket(k, key) == And(cfg.keys[k].ops.hashKey(key), cfg.nbuckets - 1)
  {
    MaskIsRemainder(cfg.keys[k].ops.hashRec(rec), j);
    MaskIsRemainder(cfg.keys[k].ops.hashKey(key), j);
    hide And, Pow2;
  }

  const MAX_KEYS: nat := 64
  const U32: nat := 0x1_0000_0000
}

/** The row slots and the return codes of the core. */
module Slots {
  import opened Keys

  datatype State = Free | Active | Deleted | Deleting

  /** One slot.  `bumps` counts the generation increments the slot has seen;
      the stored generation is that count in 32-bit arithmetic.  `stamps`
      counts the increments of the seqlock counter. */
  datatype Slot = Slot(state: State, stamps: nat, bumps: nat, image: Bytes)
  {
    function Gen(): nat { bumps % U32 }

    /** The test every generation-checked access makes. */
    predicate Accepts(gen: nat) { state == Active && Gen() == gen }
  }

  datatype Code = Ok | NotFound | Eof | Gone | DupKey | Full | NoMem
}
