/** A handler: the read-modify-write cycle of write statements over the store.

    Between a lookup and the row lock that follows it, other sessions may run
    whole operations on rows this handler has not locked; each read takes those
    operations as a parameter. */
module Handler {
  import opened Keys
  import opened Slots
  import opened LockOrder
  import opened Chain
  import S = Store
  import T = Table
  import O = Operations

  datatype Result =
    | Done | KeyNotFound | EndOfFile | RowDeleted | RowChanged | Duplicate | FileFull | OutOfMemory | WrongIndex
    | Crashed

  /** How the core's codes reach the server. */
  function ResultOf(code: Code): Result {
    match code
    case Ok => Done
    case Full => FileFull
    case NoMem => OutOfMemory
    case Gone => RowDeleted
    case DupKey => Duplicate
    case NotFound => KeyNotFound
    case Eof => Crashed
  }

  /** An operation of another session. */
  datatype Foreign =
    | Insert(rec: Bytes, mem: bool)
    | Update(i: nat, gen: nat, was: Bytes, now: Bytes)
    | Delete(i: nat, gen: nat)

  /** What such an operation does, unless it has to wait for a row in held. */
  function Performed(cfg: Config, t: T.Table, held: set<Lock>, op: Foreign): T.Table
    requires O.Ready(cfg, t)
  {
    match op
    case Insert(rec, mem) => O.InsertRow(cfg, t, rec, mem).t
    case Update(i, gen, was, now) =>
      if i < |t.slots| && Row(i) !in held && (t.slots[i].Accepts(gen) ==> O.Rechains(cfg, t.slots[i], was, now))
      then O.Update(cfg, t, i, gen, was, now).t
      else t
    case Delete(i, gen) => if i < |t.slots| && Row(i) !in held then O.DeleteRow(cfg, t, i, gen).t else t
  }

  ghost function AllPerformed(cfg: Config, t: T.Table, held: set<Lock>, ops: seq<Foreign>): T.Table
    decreases |ops|
  {
    if ops == [] || !O.Ready(cfg, t) then t else AllPerformed(cfg, Performed(cfg, t, held, ops[0]), held, ops[1..])
  }

  datatype LockType = ReadLock | WriteLock | Unlock

  /** Slot i shows a row with the key. */
  predicate Shows(slots: seq<Slot>, i: int, def: KeyDef, key: Bytes) {
    0 <= i < |slots| && slots[i].state == Active && def.ops.matches(slots[i].image, key)
  }

  class Handler {
    const store: S.Store
    var writeStmt: bool
    var rowLocked: bool
    var lockedSlot: int
    var currentSlot: int
    var currentGen: nat
    var lastInx: int
    var lastKey: Bytes
    var scanPos: nat
    var readCheck: bool

    /** The handler owns exactly the wlock that rowLocked and lockedSlot name, and
        only in a write statement. */
    ghost predicate Accounts()
      reads this, store
    {
      && (if rowLocked then writeStmt && 0 <= lockedSlot < |store.slots| else lockedSlot == NIL)
      && store.held == (if rowLocked then {Row(lockedSlot)} else {})
    }

    ghost predicate Valid()
      reads this, store
    {
      store.Valid() && Accounts() && NIL <= currentSlot < |store.slots| && NIL <= lastInx < |store.cfg.keys|
    }

    /** The server has been given the present image of the current row, under the
        row lock: what a locked update or delete needs. */
    ghost predicate Current(buf: Bytes)
      reads this, store
    {
      && rowLocked && lockedSlot == currentSlot
      && 0 <= currentSlot < |store.slots| && store.slots[currentSlot].Accepts(currentGen)
      && buf == store.slots[currentSlot].image
    }

    /** Debug builds open handles with the read check on. */
    constructor (store: S.Store, debug: bool)
      requires store.Valid() && store.held == {}
      ensures this.store == store && Valid() && !rowLocked && !writeStmt && readCheck == debug
    {
      this.store := store;
      writeStmt, rowLocked, lockedSlot := false, false, NIL;
      currentSlot, currentGen, lastInx, lastKey, scanPos, readCheck := NIL, 0, NIL, [], 0, debug;
    }

    // ----- the row lock ---------------------------------------------------------------

    method UnlockCurrentRow()
      requires Valid()
      modifies this`rowLocked, this`lockedSlot, store`held, store`trail
      ensures Valid() && !rowLocked && store.held == {}
    {
      hide S.Store.Valid;
      if !rowLocked {
        return;
      }
      store.Release(Row(lockedSlot));
      rowLocked, lockedSlot := false, NIL;
    }

    /** Take the wlock of the current row, moving it there from another row. */
    method LockCurrentRow()
      requires Valid() && writeStmt
      modifies this`rowLocked, this`lockedSlot, store`held, store`trail
      ensures Valid() && (currentSlot >= 0 ==> rowLocked && lockedSlot == currentSlot)
      ensures currentSlot < 0 ==> rowLocked == old(rowLocked) && lockedSlot == old(lockedSlot)
    {
      hide S.Store.Valid;
      if currentSlot < 0 || (rowLocked && lockedSlot == currentSlot) {
        return;
      }
      if rowLocked {
        UnlockCurrentRow();
      }
      store.Acquire(Row(currentSlot));
      rowLocked, lockedSlot := true, currentSlot;
    }

    /** What other sessions may do in the meantime: whole operations, updates and
        deletes only of rows whose wlock this handler does not hold.  A row it
        holds stays as it is. */
    method Others(ops: seq<Foreign>)
      requires store.Valid() && store.OnlyRows()
      modifies store
      ensures store.Valid() && store.held == old(store.held) && |old(store.slots)| <= |store.slots|
      ensures forall i: nat :: i < |old(store.slots)| && Row(i) in store.held && old(store.slots)[i].state == Active ==>
                store.slots[i] == old(store.slots)[i]
      ensures store.Abs() == AllPerformed(store.cfg, old(store.Abs()), store.held, ops)
    {
      hide S.Store.Valid, Performed, O.Ready;
      var n := 0;
      ghost var all := AllPerformed(store.cfg, store.Abs(), store.held, ops);
      assert ops[0..] == ops;
      while n < |ops|
        invariant n <= |ops| && all == AllPerformed(store.cfg, store.Abs(), store.held, ops[n..])
        invariant store.Valid() && store.held == old(store.held) && |old(store.slots)| <= |store.slots|
        invariant forall i: nat ::
                    i < |old(store.slots)| && Row(i) in store.held && old(store.slots)[i].state == Active ==>
                    store.slots[i] == old(store.slots)[i]
      {
        assert ops[n..][0] == ops[n] && ops[n..][1..] == ops[n + 1..];
        One(ops[n]);
        n := n + 1;
      }
    }

    method One(op: Foreign)
      requires store.Valid() && store.OnlyRows()
      modifies store
      ensures store.Valid() && store.held == old(store.held) && |old(store.slots)| <= |store.slots|
      ensures forall i: nat :: i < |old(store.slots)| && Row(i) in store.held && old(store.slots)[i].state == Active ==>
                store.slots[i] == old(store.slots)[i]
      ensures O.Ready(store.cfg, old(store.Abs()))
              && store.Abs() == Performed(store.cfg, old(store.Abs()), store.held, op)
    {
      store.IsReady();
      hide S.Store.Valid, O.InsertRow, O.Update, O.DeleteRow, O.Rechains, O.Ready;
      match op {
        case Insert(rec, mem) =>
          var code, slot, errkey := store.InsertRow(rec, mem);
        case Update(i, gen, was, now) =>
          if i < |store.slots| && Row(i) !in store.held
              && (store.slots[i].Accepts(gen) ==> O.Rechains(store.cfg, store.slots[i], was, now)) {
            OneUpdate(i, gen, was, now);
          }
        case Delete(i, gen) =>
          if i < |store.slots| && Row(i) !in store.held {
            OneDelete(i, gen);
          }
      }
    }

    method OneUpdate(i: nat, gen: nat, was: Bytes, now: Bytes)
      requires store.Valid() && store.OnlyRows() && i < |store.slots| && Row(i) !in store.held
      requires store.slots[i].Accepts(gen) ==> O.Rechains(store.cfg, store.slots[i], was, now)
      modifies store
      ensures store.Valid() && store.held == old(store.held) && |old(store.slots)| == |store.slots|
      ensures forall j: nat :: j < |store.slots| && j != i ==> store.slots[j] == old(store.slots)[j]
      ensures O.Ready(store.cfg, old(store.Abs()))
      ensures store.Abs() == O.Update(store.cfg, old(store.Abs()), i, gen, was, now).t
    {
      store.IsReady();
      hide S.Store.Valid, O.Rechains, O.Ready, O.FirstDup, O.MoveAll, S.Store.Sound, S.Store.Recells;
      var code, errkey := store.UpdateRow(i, gen, was, now);
    }

    method OneDelete(i: nat, gen: nat)
      requires store.Valid() && store.OnlyRows() && i < |store.slots| && Row(i) !in store.held
      modifies store
      ensures store.Valid() && store.held == old(store.held) && |old(store.slots)| == |store.slots|
      ensures forall j: nat :: j < |store.slots| && j != i ==> store.slots[j] == old(store.slots)[j]
      ensures O.Ready(store.cfg, old(store.Abs()))
      ensures store.Abs() == O.DeleteRow(store.cfg, old(store.Abs()), i, gen).t
    {
      store.IsReady();
      hide S.Store.Valid, O.Ready, O.UnlinkAll;
      var code := store.DeleteRow(i, gen);
    }

    /** After a lookup of a write statement: lock the row found and read it again,
        with whatever generation it has by then.  It works exactly if the slot is
        ACTIVE under the lock. */
    method LockAndReread(between: seq<Foreign>) returns (ok: bool, buf: Bytes)
      requires Valid() && writeStmt && currentSlot >= 0
      modifies this`rowLocked, this`lockedSlot, this`currentGen, store
      ensures Valid() && (if ok then Current(buf) else !rowLocked)
      ensures |old(store.slots)| <= |store.slots| && (ok <==> store.slots[currentSlot].state == Active)
      ensures store.Abs() == AllPerformed(store.cfg, old(store.Abs()), old(store.held), between)
    {
      hide S.Store.Valid;
      Others(between);
      LockCurrentRow();
      var g := store.slots[currentSlot].Gen();
      var code;
      code, buf := store.ReadRow(currentSlot, Some(g));
      ok := code == Ok;
      if ok {
        currentGen := g;
      } else {
        UnlockCurrentRow();
      }
    }

    // ----- reads -----------------------------------------------------------------------

    /** A successful lookup: remember the row, and in a write statement lock it. */
    method Adopt(slot: nat, gen: nat, buf0: Bytes, between: seq<Foreign>, miss: Result)
      returns (res: Result, buf: Bytes)
      requires Valid() && slot < |store.slots| && miss != Done
      modifies this`rowLocked, this`lockedSlot, this`currentSlot, this`currentGen, store
      ensures Valid() && currentSlot == slot && (res == Done || res == miss)
      ensures writeStmt ==> if res == Done then Current(buf) else !rowLocked
      ensures writeStmt ==> (res == Done <==> T.IsActive(store.slots, slot))
      ensures between == [] ==> store.Abs() == old(store.Abs())
      ensures !writeStmt ==> res == Done && buf == buf0 && currentGen == gen && store.Abs() == old(store.Abs())
    {
      hide S.Store.Valid;
      currentSlot, currentGen := slot, gen;
      res, buf := Done, buf0;
      if writeStmt {
        var ok;
        ok, buf := LockAndReread(between);
        if !ok { res := miss; }
      }
    }

    /** Exact lookup.  The row it ends up with matched when it was looked up.  A read
        statement takes no lock and finds a row exactly when one matches; a write statement
        that succeeds has the row locked and its present image, and fails only if none
        matched or the row found was gone when it was locked.  With no other session in
        between, both find a row exactly when one matches. */
    method IndexRead(k: nat, key: Bytes, between: seq<Foreign>) returns (res: Result, buf: Bytes)
      requires Valid() && k < |store.cfg.keys|
      modifies this`rowLocked, this`lockedSlot, this`currentSlot, this`currentGen, this`lastInx, this`lastKey, store
      ensures Valid() && (res == Done || res == KeyNotFound)
      ensures writeStmt && res == Done ==> Current(buf)
      ensures !writeStmt ==> store.held == {} && store.Abs() == old(store.Abs())
      ensures !writeStmt || between == [] ==>
                store.Abs() == old(store.Abs()) && if res == Done then Found(k, key, buf) else NoMatch(k, key)
      ensures res == Done ==> Shows(old(store.slots), currentSlot, store.cfg.keys[k], key)
      ensures writeStmt && res != Done ==>
                || old(NoMatch(k, key))
                || (Shows(old(store.slots), currentSlot, store.cfg.keys[k], key) && !rowLocked
                    && store.slots[currentSlot].state != Active)
      ensures res == Done ==>
                && lastInx == k
                && lastKey == if !store.cfg.keys[k].unique || store.cfg.keys[k].nullable then key else old(lastKey)
    {
      hide S.Store.Valid;
      var code, idx;
      code, idx, buf := store.FindRow(k, key);
      if code != Ok {
        return KeyNotFound, [];
      }
      if !store.cfg.keys[k].unique || store.cfg.keys[k].nullable {
        lastKey := key;
      }
      lastInx := k;
      res, buf := Adopt(idx, store.slots[idx].Gen(), buf, between, KeyNotFound);
    }

    ghost predicate Found(k: nat, key: Bytes, buf: Bytes)
      requires k < |store.cfg.keys|
      reads this, store
    {
      && T.IsActive(store.slots, currentSlot) && store.slots[currentSlot].Accepts(currentGen)
      && buf == store.slots[currentSlot].image && store.cfg.keys[k].ops.matches(buf, key)
    }

    ghost predicate NoMatch(k: nat, key: Bytes)
      requires k < |store.cfg.keys|
      reads this, store
    {
      forall i: nat :: T.IsActive(store.slots, i) ==> !store.cfg.keys[k].ops.matches(store.slots[i].image, key)
    }

    /** What the index still has to offer after the current row, for the key of the
        last lookup. */
    ghost function Following(): seq<nat>
      requires store.Valid() && 0 <= lastInx < |store.cfg.keys|
      reads this, store
    {
      store.IsReady();
      T.Hits(store.cfg, store.slots, lastInx, lastKey,
          T.After(T.Bucketful(store.cfg, store.Abs(), lastInx, lastKey), currentSlot))
    }

    /** The next row of an index lookup: the first that follows the current one, end of
        file exactly when none does.  A write statement locks it and reads it again. */
    method IndexNext(between: seq<Foreign>) returns (res: Result, buf: Bytes)
      requires Valid()
      modifies this`rowLocked, this`lockedSlot, this`currentSlot, this`currentGen, store
      ensures Valid() && (res == Done || res == EndOfFile || res == WrongIndex || res == KeyNotFound)
      ensures res == WrongIndex <==> lastInx < 0
      ensures lastInx >= 0 ==> (res == EndOfFile <==> old(Following()) == [])
      ensures lastInx >= 0 && old(Following()) != [] ==> currentSlot == old(Following())[0]
      ensures lastInx >= 0 && old(Following()) != [] ==>
                Shows(old(store.slots), currentSlot, store.cfg.keys[lastInx], lastKey)
      ensures writeStmt && res == Done ==> Current(buf)
      ensures writeStmt && lastInx >= 0 && old(Following()) != [] ==>
                (res == Done <==> T.IsActive(store.slots, currentSlot))
      ensures !writeStmt ==> store.held == {} && store.Abs() == old(store.Abs()) && res != KeyNotFound
      ensures between == [] ==> store.Abs() == old(store.Abs()) && res != KeyNotFound
      ensures (!writeStmt || between == []) && res == Done ==> Found(lastInx, lastKey, buf)
    {
      hide S.Store.Valid, T.Hits, T.After, T.Bucketful, O.Ready;
      if lastInx < 0 {
        return WrongIndex, [];
      }
      var code, idx, image := NextHit();
      hide Following;
      if code == Ok {
        res, buf := Adopt(idx, store.slots[idx].Gen(), image, between, KeyNotFound);
      } else {
        res, buf := EndOfFile, [];
      }
    }

    method NextHit() returns (code: Code, idx: int, buf: Bytes)
      requires Valid() && lastInx >= 0
      modifies store`held, store`trail
      ensures store.held == old(store.held) && (code == Ok || code == NotFound)
      ensures code == NotFound <==> Following() == []
      ensures code == Ok ==>
                && idx == Following()[0] && T.IsActive(store.slots, idx) && buf == store.slots[idx].image
                && store.cfg.keys[lastInx].ops.matches(buf, lastKey)
    {
      hide S.Store.Valid, T.Hits, T.After, T.Bucketful, O.Ready;
      store.IsReady();
      code, idx, buf := store.FindNextRow(lastInx, lastKey, currentSlot);
    }

    method RndInit(scan: bool)
      requires Valid()
      modifies this`rowLocked, this`lockedSlot, this`lastInx, this`scanPos, this`currentSlot, store`held, store`trail
      ensures Valid() && (scan ==> !rowLocked && scanPos == 0 && currentSlot == NIL && lastInx == NIL)
      ensures !scan ==> rowLocked == old(rowLocked) && scanPos == old(scanPos) && currentSlot == old(currentSlot)
    {
      if scan {
        UnlockCurrentRow();
        lastInx, scanPos, currentSlot := NIL, 0, NIL;
      }
    }

    /** The next row of a scan; a row deleted before it could be locked is reported
        as such, with its lock given back. */
    method RndNext(between: seq<Foreign>) returns (res: Result, buf: Bytes)
      requires Valid()
      modifies this`rowLocked, this`lockedSlot, this`currentSlot, this`currentGen, this`scanPos, store
      ensures Valid() && (res == Done || res == EndOfFile || res == RowDeleted)
      ensures writeStmt && res == Done ==> Current(buf)
      ensures writeStmt && res != EndOfFile ==> (res == Done <==> T.IsActive(store.slots, currentSlot))
      ensures between == [] ==> store.Abs() == old(store.Abs()) && res != RowDeleted
      ensures !writeStmt ==> store.held == {} && store.Abs() == old(store.Abs()) && res != RowDeleted
      ensures res == EndOfFile <==>
                forall i :: old(scanPos) <= i < |old(store.slots)| ==> old(store.slots)[i].state != Active
      ensures res != EndOfFile ==>
                && scanPos == currentSlot + 1 && old(scanPos) <= currentSlot < |old(store.slots)|
                && old(store.slots)[currentSlot].state == Active
                && forall i :: old(scanPos) <= i < currentSlot ==> old(store.slots)[i].state != Active
      ensures !writeStmt && res == Done ==>
                currentGen == store.slots[currentSlot].Gen() && buf == store.slots[currentSlot].image
    {
      hide S.Store.Valid;
      var code, pos;
      code, pos, buf := store.ScanNext(scanPos);
      if code != Ok {
        return EndOfFile, [];
      }
      scanPos := pos;
      res, buf := Adopt(pos - 1, store.slots[pos - 1].Gen(), buf, between, RowDeleted);
    }

    /** Read by reference: accepted exactly while the row is ACTIVE with the
        generation of the reference. */
    method RndPos(slot: int, gen: nat, between: seq<Foreign>) returns (res: Result, buf: Bytes)
      requires Valid() && NIL <= slot < |store.slots|
      modifies this`rowLocked, this`lockedSlot, this`currentSlot, this`currentGen, this`lastInx, store
      ensures Valid() && (res == Done || res == EndOfFile || res == RowDeleted)
      ensures res == EndOfFile <==> slot == NIL
      ensures slot >= 0 && !old(store.slots)[slot].Accepts(gen) ==> res == RowDeleted && store.Abs() == old(store.Abs())
      ensures slot >= 0 && old(store.slots)[slot].Accepts(gen) ==>
                currentSlot == slot && (writeStmt ==> (res == Done <==> T.IsActive(store.slots, slot)))
      ensures writeStmt && res == Done ==> Current(buf)
      ensures !writeStmt || between == [] ==> store.Abs() == old(store.Abs())
      ensures !writeStmt ==> store.held == {}
      ensures (!writeStmt || between == []) && slot >= 0 && old(store.slots)[slot].Accepts(gen) ==>
                res == Done && buf == old(store.slots)[slot].image
    {
      hide S.Store.Valid;
      lastInx := NIL;
      if slot == NIL {
        return EndOfFile, [];
      }
      var code;
      code, buf := store.ReadRow(slot, Some(gen));
      if code != Ok {
        return RowDeleted, [];
      }
      res, buf := Adopt(slot, gen, buf, between, RowDeleted);
    }

    // ----- writes ----------------------------------------------------------------------

    method WriteRow(rec: Bytes, mem: bool) returns (res: Result)
      requires Valid()
      modifies this`lastInx, this`currentSlot, this`currentGen, store
      ensures Valid() && rowLocked == old(rowLocked) && store.held == old(store.held)
      ensures var o := O.InsertRow(store.cfg, old(store.Abs()), rec, mem);
              && store.Abs() == o.t && res == ResultOf(o.code)
              && (if res == Done
                  then
                    && lastInx == NIL && currentSlot == o.slot && 0 <= currentSlot < |store.slots|
                    && currentGen == store.slots[currentSlot].Gen()
                  else lastInx == old(lastInx) && currentSlot == old(currentSlot) && currentGen == old(currentGen))
    {
      hide S.Store.Valid, O.InsertRow;
      var code, slot, errkey := store.InsertRow(rec, mem);
      res := ResultOf(code);
      if code == Ok {
        lastInx, currentSlot, currentGen := NIL, slot, store.slots[slot].Gen();
      }
    }

    /** The current row is locked, or can be. */
    predicate Lockable()
      reads this`rowLocked, this`lockedSlot, this`currentSlot, this`writeStmt
    {
      (rowLocked && lockedSlot == currentSlot) || (writeStmt && currentSlot >= 0 && !rowLocked)
    }

    /** The row lock an update or delete needs: kept from the read, or taken now. */
    method EnsureLocked(between: seq<Foreign>) returns (ok: bool)
      requires Valid()
      modifies this`rowLocked, this`lockedSlot, store
      ensures Valid() && (if ok then rowLocked && lockedSlot == currentSlot else !rowLocked)
      ensures old(rowLocked && lockedSlot == currentSlot) || between == [] ==> store.Abs() == old(store.Abs())
      ensures ok == old(Lockable())
    {
      hide S.Store.Valid;
      if !(writeStmt && rowLocked && lockedSlot == currentSlot) {
        if writeStmt && currentSlot >= 0 && !rowLocked {
          Others(between);
          LockCurrentRow();
        }
        if !(rowLocked && lockedSlot == currentSlot) {
          UnlockCurrentRow();
          return false;
        }
      }
      ok := true;
    }

    /** What the read check makes of a slot. */
    function ReadChecked(x: Slot, was: Bytes): Result
      reads this`readCheck, this`currentGen
    {
      if !readCheck then Done
      else if !x.Accepts(currentGen) then RowDeleted
      else if x.image != was then RowChanged
      else Done
    }

    /** The read check: the row still is what the server believes it is. */
    method CheckRead(was: Bytes) returns (res: Result)
      requires Valid() && currentSlot >= 0
      ensures res == ReadChecked(store.slots[currentSlot], was)
    {
      if readCheck {
        var code, scratch := store.ReadRow(currentSlot, Some(currentGen));
        if code != Ok { return ResultOf(code); }
        if was != scratch { return RowChanged; }
      }
      res := Done;
    }

    /** Update the current row.  `at` is the table when the row lock is held: as it was
        if the lock was kept from the read, and otherwise after whatever others have
        done while this handler waited.  Whatever happens, no lock is kept.  With the
        read check on, a write goes through only over the image that was passed;
        without it, over any image of the row, and the cells of the index still lead
        to the rows afterwards if and only if the old record was good enough. */
    method UpdateRow(was: Bytes, now: Bytes, between: seq<Foreign>) returns (res: Result, ghost at: T.Table)
      requires Valid()
      modifies this`rowLocked, this`lockedSlot, store
      ensures Accounts() && !rowLocked && store.held == {}
      ensures O.Ready(store.cfg, at) && |store.slots| == |at.slots| && currentSlot < |at.slots|
      ensures res == Done ==>
                && 0 <= currentSlot && at.slots[currentSlot].Accepts(currentGen)
                && (readCheck ==> at.slots[currentSlot].image == was)
                && store.slots == O.Rewritten(store.cfg, at, currentSlot, was, now).slots
                && (store.Sound() ==> store.Abs() == O.Rewritten(store.cfg, at, currentSlot, was, now))
      ensures res != Done ==> store.Abs() == at
      ensures store.Sound() <==> (res == Done ==> O.Rechains(store.cfg, at.slots[currentSlot], was, now))
      ensures Valid() <==> store.Sound()
      ensures old(rowLocked && lockedSlot == currentSlot) || between == [] ==> at == old(store.Abs())
      ensures old(Current(was)) ==> Valid()
      ensures res ==
                if !old(Lockable()) || currentSlot < 0 then RowChanged
                else if ReadChecked(at.slots[currentSlot], was) != Done then ReadChecked(at.slots[currentSlot], was)
                else ResultOf(O.UpdateLocked(store.cfg, at, currentSlot, currentGen, was, now).code)
    {
      hide S.Store.Valid, O.Rechains, O.Rewritten, O.FirstDup, O.Ready, S.Store.Sound;
      var ok := EnsureLocked(between);
      at := store.Abs();
      store.IsReady();
      if !ok {
        store.ValidIsSound();
        return RowChanged, at;
      }
      res := UpdateLocked(was, now);
      LetGo();
    }

    /** Read check and update under the row lock. */
    method UpdateLocked(was: Bytes, now: Bytes) returns (res: Result)
      requires Valid() && rowLocked && lockedSlot == currentSlot
      modifies store
      ensures Accounts() && |store.slots| == |old(store.slots)| && O.Ready(store.cfg, old(store.Abs()))
      ensures res == Done ==>
                && old(store.slots)[currentSlot].Accepts(currentGen)
                && (readCheck ==> old(store.slots)[currentSlot].image == was)
                && store.slots == O.Rewritten(store.cfg, old(store.Abs()), currentSlot, was, now).slots
                && (store.Sound() ==> store.Abs() == O.Rewritten(store.cfg, old(store.Abs()), currentSlot, was, now))
      ensures res != Done ==> store.Abs() == old(store.Abs())
      ensures store.Sound() <==> (res == Done ==> O.Rechains(store.cfg, old(store.slots)[currentSlot], was, now))
      ensures store.Valid() <==> store.Sound()
      ensures old(Current(was)) ==> store.Valid()
      ensures res ==
                if old(ReadChecked(store.slots[currentSlot], was)) != Done
                    then old(ReadChecked(store.slots[currentSlot], was))
                else ResultOf(O.UpdateLocked(store.cfg, old(store.Abs()), currentSlot, currentGen, was, now).code)
    {
      hide S.Store.Valid, O.FirstDup, O.Rechains, O.CarriesKeys, O.Rewritten, O.Ready, O.UpdateLocked, S.Store.Sound;
      store.IsReady();
      store.ValidIsSound();
      if Current(was) { SelfRechains(was, now); }
      O.UpdateSizes(store.cfg, store.Abs(), currentSlot, currentGen, was, now);
      res := CheckRead(was);
      if res == Done {
        var code, errkey := store.UpdateRowLocked(currentSlot, currentGen, was, now);
        res := ResultOf(code);
      }
    }

    lemma SelfRechains(was: Bytes, now: Bytes)
      requires Valid() && currentSlot >= 0 && store.slots[currentSlot].image == was
      ensures O.Rechains(store.cfg, store.slots[currentSlot], was, now)
    {
      forall k | 0 <= k < |store.cfg.keys| ensures store.cfg.Same(k, was, was) {
        assert store.cfg.keys[k].ops.Contract();
      }
      O.CarriesRechains(store.cfg, store.slots[currentSlot], was, now);
    }

    /** Give the row lock back, whatever state the store is in. */
    method LetGo()
      requires Accounts()
      modifies this`rowLocked, this`lockedSlot, store`held, store`trail
      ensures Accounts() && !rowLocked && store.held == {}
    {
      if rowLocked {
        store.Release(Row(lockedSlot));
        rowLocked, lockedSlot := false, NIL;
      }
    }

    /** Delete the current row. */
    method DeleteRow(was: Bytes, between: seq<Foreign>) returns (res: Result, ghost at: T.Table)
      requires Valid()
      modifies this`rowLocked, this`lockedSlot, this`currentSlot, store
      ensures Valid() && !rowLocked && store.held == {}
      ensures O.Ready(store.cfg, at) && old(currentSlot) < |at.slots|
      ensures res == Done ==>
                && 0 <= old(currentSlot) && at.slots[old(currentSlot)].Accepts(currentGen)
                && (readCheck ==> at.slots[old(currentSlot)].image == was)
                && store.Abs() == O.DeleteRow(store.cfg, at, old(currentSlot), currentGen).t && currentSlot == NIL
      ensures res != Done ==> store.Abs() == at && currentSlot == old(currentSlot)
      ensures old(rowLocked && lockedSlot == currentSlot) || between == [] ==> at == old(store.Abs())
      ensures res ==
                if !old(Lockable()) || old(currentSlot) < 0 then RowChanged
                else if ReadChecked(at.slots[old(currentSlot)], was) != Done
                then ReadChecked(at.slots[old(currentSlot)], was)
                else if at.slots[old(currentSlot)].Accepts(currentGen) then Done
                else RowDeleted
    {
      hide S.Store.Valid, O.Ready;
      var ok := EnsureLocked(between);
      at := store.Abs();
      store.IsReady();
      if !ok {
        return RowChanged, at;
      }
      res := CheckRead(was);
      if res == Done {
        var code := store.DeleteRowLocked(currentSlot, currentGen);
        res := ResultOf(code);
        if code == Ok { currentSlot := NIL; }
      }
      UnlockCurrentRow();
    }

    // ----- statement boundaries ----------------------------------------------------------

    method Reset()
      requires Valid()
      modifies this`rowLocked, this`lockedSlot, this`lastInx, this`scanPos, this`currentSlot, store`held, store`trail
      ensures Valid() && !rowLocked && store.held == {} && lastInx == NIL && scanPos == 0 && currentSlot == NIL
    {
      UnlockCurrentRow();
      lastInx, scanPos, currentSlot := NIL, 0, NIL;
    }

    method ExternalLock(lock: LockType)
      requires Valid()
      modifies this`writeStmt, this`rowLocked, this`lockedSlot, store`held, store`trail
      ensures Valid()
      ensures writeStmt == (if lock == WriteLock then true else if lock == Unlock then false else old(writeStmt))
      ensures lock == Unlock ==> !rowLocked && store.held == {}
      ensures lock != Unlock ==> rowLocked == old(rowLocked) && store.held == old(store.held)
    {
      if lock == WriteLock {
        writeStmt := true;
      } else if lock == Unlock {
        UnlockCurrentRow();
        writeStmt := false;
      }
    }

    /** Clear goes through every wlock: a handler that still holds one waits for
        itself and never comes back. */
    method DeleteAllRows() returns (done: bool)
      requires Valid()
      modifies store
      ensures done == !old(rowLocked)
      ensures done ==> Valid() && store.Abs() == O.ClearAll(store.cfg, old(store.Abs()))
    {
      hide S.Store.Valid;
      if rowLocked {
        return false;
      }
      store.Clear();
      done := true;
    }

    /** One read-modify-write cycle of a write statement, with other sessions at work
        before the row is locked and again before it is written: the row written matched
        the key when it was looked up, and the image handed to f is still its image when
        the result replaces it.  Undisturbed, the image matches the key, and the cycle ends
        as the update operation does, or with key not found exactly when no row matches. */
    method ReadModifyWrite(k: nat, key: Bytes, f: Bytes -> Bytes, before: seq<Foreign>, during: seq<Foreign>)
      returns (res: Result, buf: Bytes, ghost at: T.Table)
      requires Valid() && writeStmt && k < |store.cfg.keys|
      modifies this, store
      ensures Valid()
      ensures res == Done ==>
                && 0 <= currentSlot < |at.slots| && at.slots[currentSlot].Accepts(currentGen)
                && at.slots[currentSlot].image == buf
                && O.Ready(store.cfg, at) && store.Abs() == O.Rewritten(store.cfg, at, currentSlot, buf, f(buf))
                && !rowLocked && store.held == {}
                && Shows(old(store.slots), currentSlot, store.cfg.keys[k], key)
      ensures before == [] && during == [] ==>
                && at == old(store.Abs())
                && if old(NoMatch(k, key)) then res == KeyNotFound
                   else
                     && Shows(at.slots, currentSlot, store.cfg.keys[k], key) && buf == at.slots[currentSlot].image
                     && O.Ready(store.cfg, at)
                     && res == ResultOf(O.UpdateLocked(store.cfg, at, currentSlot, currentGen, buf, f(buf)).code)
    {
      hide S.Store.Valid, O.Rewritten, O.FirstDup;
      at := store.Abs();
      res, buf := IndexRead(k, key, before);
      if res == Done {
        Others(during);
        res, at := UpdateRow(buf, f(buf), []);
      }
    }
  }
}
