/**
 The blob slots over a pod's whole life: writes and clears that work or fail, power cuts, reboots.
 */
module BlobRuns {
  import opened Bits
  import opened NorFlash
  import opened BlobStore

  // If the slot reads as present, its data hashes to what its header says.
  ghost predicate Honest(f: seq<byte>, id: nat, hash: seq<byte> -> seq<byte>) {
    id < SLOTS && End(id) <= |f| && Slot(f, id).present ==>
      var i := Slot(f, id);
      Base(id) + HDR_SIZE + i.len <= |f| && hash(f[Base(id) + HDR_SIZE..Base(id) + HDR_SIZE + i.len]) == i.sha
  }

  // A write, complete or cut anywhere, or a clear.
  ghost predicate Touched(f: seq<byte>, g: seq<byte>, hash: seq<byte> -> seq<byte>) {
    || (exists id: nat, b :: id < SLOTS && WellFormed(id, b) && Atomic(f, g, id, b, hash))
    || (exists id: nat :: Cleared(f, g, id))
  }

  ghost predicate Cleared(f: seq<byte>, g: seq<byte>, id: nat) {
    && id < SLOTS && End(id) <= |f| && SameOutside(f, g, Base(id), Base(id) + HDR_SIZE)
    && (g == f || Slot(g, id) == EMPTY)
  }

  lemma PresentInside(f: seq<byte>, id: nat)
    requires id < SLOTS && End(id) <= |f|
    ensures Slot(f, id).len <= Capacity(id)
  {
  }

  // A slot whose bytes all stay is as honest as it was.
  lemma UntouchedStaysHonest(f: seq<byte>, g: seq<byte>, at: nat, to: nat, id: nat, hash: seq<byte> -> seq<byte>)
    requires SameOutside(f, g, at, to) && Honest(f, id, hash)
    requires id < SLOTS && End(id) <= |f| && (to <= Base(id) || End(id) <= at)
    ensures Honest(g, id, hash)
  {
    hide Slot;
    SlotIsLocal(f, g, id, at, to);
    PresentInside(f, id);
    var lo := Base(id) + HDR_SIZE;
    RangeKept(f, g, at, to, lo, lo + Slot(f, id).len);
  }

  lemma WriteStaysHonest(f: seq<byte>, g: seq<byte>, id: nat, b: Blob, i: nat, hash: seq<byte> -> seq<byte>)
    requires id < SLOTS && WellFormed(id, b) && Atomic(f, g, id, b, hash) && Honest(f, i, hash)
    ensures Honest(g, i, hash)
  {
    hide Slot, SameOutside;
    SameLength(f, g, Base(id), End(id));
    if i < SLOTS && End(i) <= |f| && i != id {
      SlotsDisjoint(i, id);
      UntouchedStaysHonest(f, g, Base(id), End(id), i, hash);
    }
  }

  lemma ClearStaysHonest(f: seq<byte>, g: seq<byte>, id: nat, i: nat, hash: seq<byte> -> seq<byte>)
    requires Cleared(f, g, id) && Honest(f, i, hash)
    ensures Honest(g, i, hash)
  {
    hide Slot, SameOutside;
    SameLength(f, g, Base(id), Base(id) + HDR_SIZE);
    if i < SLOTS && End(i) <= |f| && i != id {
      SlotsDisjoint(i, id);
      UntouchedStaysHonest(f, g, Base(id), Base(id) + HDR_SIZE, i, hash);
    }
  }

  lemma SameLength(f: seq<byte>, g: seq<byte>, lo: nat, hi: nat)
    requires SameOutside(f, g, lo, hi)
    ensures |g| == |f|
  {
  }

  /** A blank chip has nothing to lie about. */
  lemma BlankIsHonest(f: seq<byte>, id: nat, hash: seq<byte> -> seq<byte>)
    requires IsBlank(f, 0, |f|)
    ensures Honest(f, id, hash)
  {
    hide Slot;
    if id < SLOTS && End(id) <= |f| {
      assert IsBlank(f, Base(id), Base(id) + 4);
      BlankIsEmpty(f, id);
    }
  }

  /** Over any history of writes and clears, complete or cut anywhere, an honest slot stays honest: whenever it reads as
      present, its data hashes to its header. */
  lemma {:induction false} HistoryStaysHonest(fs: seq<seq<byte>>, i: nat, hash: seq<byte> -> seq<byte>)
    requires fs != [] && Honest(fs[0], i, hash)
    requires forall k :: 0 <= k < |fs| - 1 ==> Touched(fs[k], fs[k + 1], hash)
    ensures forall f :: f in fs ==> Honest(f, i, hash)
  {
    hide Honest, Touched;
    for n := 1 to |fs|
      invariant forall k :: 0 <= k < n ==> Honest(fs[k], i, hash)
    {
      TouchStaysHonest(fs[n - 1], fs[n], i, hash);
    }
  }

  lemma TouchStaysHonest(f: seq<byte>, g: seq<byte>, i: nat, hash: seq<byte> -> seq<byte>)
    requires Touched(f, g, hash) && Honest(f, i, hash)
    ensures Honest(g, i, hash)
  {
    hide Honest, Atomic, Cleared;
    if id: nat, b :| id < SLOTS && WellFormed(id, b) && Atomic(f, g, id, b, hash) {
      WriteStaysHonest(f, g, id, b, i, hash);
    } else {
      var id: nat :| Cleared(f, g, id);
      ClearStaysHonest(f, g, id, i, hash);
    }
  }

  // What happens to a store. A power cut is a command that failed, and the boot after it.
  datatype Op = WriteOp(id: nat, b: Blob, src: Source) | ClearOp(id: nat) | BootOp(usable: bool)

  /** The same of the calls: through any of them, whatever fails in each, an honest slot stays honest, and the data of a
      slot that the cache then shows hashes to what the cache says. */
  method Live(store: Store, ops: seq<Op>)
    requires store.Valid() && forall op :: op in ops && op.WriteOp? ==> Delivers(op.src, op.b.len)
    modifies store
    ensures store.Valid() && |store.flash| == old(|store.flash|)
    ensures forall id: nat :: Honest(old(store.flash), id, store.hash) ==> Honest(store.flash, id, store.hash)
    ensures forall id: nat | id < SLOTS && Honest(old(store.flash), id, store.hash) ::
        Shown(store.info, store.flash, id, store.hash)
  {
    hide Honest, Shown, Atomic, Slot, SameOutside, CacheOk, Delivers;
    for n := 0 to |ops|
      invariant store.Valid() && |store.flash| == old(|store.flash|)
      invariant forall id: nat :: Honest(old(store.flash), id, store.hash) ==> Honest(store.flash, id, store.hash)
    {
      Do(store, ops[n]);
    }
    forall id: nat | id < SLOTS && Honest(old(store.flash), id, store.hash)
      ensures Shown(store.info, store.flash, id, store.hash)
    {
      HonestIsShown(store, id);
    }
  }

  method Do(store: Store, op: Op)
    requires store.Valid() && (op.WriteOp? ==> Delivers(op.src, op.b.len))
    modifies store
    ensures store.Valid() && |store.flash| == old(|store.flash|)
    ensures forall id: nat :: Honest(old(store.flash), id, store.hash) ==> Honest(store.flash, id, store.hash)
  {
    hide Honest, Atomic, Slot, SameOutside, CacheOk, Delivers;
    ghost var f, hash := store.flash, store.hash;
    match op {
      case WriteOp(id, b, src) =>
        var r := store.Write(id, b, src);
        forall i | Honest(f, i, hash)
          ensures Honest(store.flash, i, hash)
        {
          if r != Refused { WriteStaysHonest(f, store.flash, id, b, i, hash); }
        }
      case ClearOp(id) =>
        ghost var fits := store.SlotOk(id);
        var _ := store.Clear(id);
        forall i | Honest(f, i, hash)
          ensures Honest(store.flash, i, hash)
        {
          if fits { ClearStaysHonest(f, store.flash, id, i, hash); }
        }
      case BootOp(usable) =>
        var _, _ := store.Load(usable);
    }
  }

  // The data of a slot that the cache shows hashes to what the cache says.
  ghost predicate Shown(info: seq<Info>, f: seq<byte>, id: nat, hash: seq<byte> -> seq<byte>) {
    id < SLOTS && id < |info| && info[id].present ==>
      var lo := Base(id) + HDR_SIZE;
      lo + info[id].len <= |f| && hash(f[lo..lo + info[id].len]) == info[id].sha
  }

  lemma HonestIsShown(store: Store, id: nat)
    requires store.Valid() && id < SLOTS && Honest(store.flash, id, store.hash)
    ensures Shown(store.info, store.flash, id, store.hash)
  {
    hide Slot;
    SlotsDisjoint(id, id);
  }
}
