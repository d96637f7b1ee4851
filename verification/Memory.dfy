/** The memory that `BytesMut`, `Bytes` and `Vec<u8>` values share.

    A pointer is an allocation id and an offset. Every live value is a `Handle`; the bytes it
    may touch are its window [off, off + cap). Handles of one allocation are either one sole
    owner (vector kind) or the holders of one reference-counted `Shared` block. */
module Memory {
  import opened Arithmetic
  import opened DataWord

  type byte = n: nat | n < 256
  type Id = nat

  /** Which vtable a reference-counted `Bytes` carries. */
  datatype Vtable = Promotable | SharedTable | MutTable

  datatype Form =
    | VecForm                              // a plain Vec<u8>
    | MutVec(word: nat)                    // BytesMut, vector kind
    | MutArc(shared: Id)                   // BytesMut, shared kind
    | ViewStatic(text: seq<byte>)          // Bytes over static memory
    | ViewVec                              // Bytes over a boxed slice, not yet promoted
    | ViewArc(shared: Id, vtable: Vtable)  // Bytes, shared

  datatype Handle = Handle(form: Form, alloc: Id, off: nat, len: nat, cap: nat)

  /** What else a `Shared` block records: the vector's length, its capacity and the capacity class for a
      block made by `BytesMut`, the size to free for a block made by `Bytes`. */
  datatype Origin = FromMut(vecLen: nat, cap: nat, repr: nat) | FromView(size: nat)

  datatype Shared = Shared(alloc: Id, count: nat, origin: Origin)

  type Allocs = map<Id, seq<byte>>
  type Shareds = map<Id, Shared>
  type Handles = map<Id, Handle>

  datatype World = World(
    allocs: Allocs, shareds: Shareds, handles: Handles, nextAlloc: nat, nextId: nat, freed: multiset<Id>)

  predicate Solo(h: Handle) {
    h.form.VecForm? || h.form.MutVec? || h.form.ViewVec?
  }

  predicate IsView(h: Handle) {
    h.form.ViewStatic? || h.form.ViewVec? || h.form.ViewArc?
  }

  predicate IsMut(h: Handle) {
    h.form.MutVec? || h.form.MutArc?
  }

  predicate Uses(h: Handle, a: Id) {
    !h.form.ViewStatic? && h.alloc == a
  }

  predicate HeldBy(h: Handle, s: Id) {
    (h.form.MutArc? || h.form.ViewArc?) && h.form.shared == s
  }

  /** No byte lies in both windows. */
  predicate Disjoint(g: Handle, h: Handle) {
    g.cap == 0 || h.cap == 0 || g.off + g.cap <= h.off || h.off + h.cap <= g.off
  }

  /** Two live values never get in each other's way: on one allocation they are both holders of
      a shared block, and their windows are disjoint unless both only read. */
  predicate Apart(g: Handle, h: Handle) {
    !g.form.ViewStatic? && Uses(h, g.alloc) ==>
      !Solo(g) && !Solo(h) && ((IsView(g) && IsView(h)) || Disjoint(g, h))
  }

  predicate FormOk(allocs: Allocs, shareds: Shareds, h: Handle)
    requires !h.form.ViewStatic? ==> h.alloc in allocs
  {
    match h.form
    case VecForm => h.off == 0 && h.cap == |allocs[h.alloc]|
    case MutVec(word) =>
      word < WORD && Kind(word) == 1 && VecPos(word) == h.off && h.off + h.cap == |allocs[h.alloc]|
    case MutArc(s) => s in shareds && shareds[s].alloc == h.alloc && shareds[s].origin.FromMut?
    case ViewStatic(text) => h.cap == h.len && h.off + h.len <= |text|
    case ViewVec => h.cap == h.len && h.off + h.len == |allocs[h.alloc]|
    case ViewArc(s, vtable) =>
      && s in shareds && shareds[s].alloc == h.alloc && h.cap == h.len
      && (vtable.MutTable? <==> shareds[s].origin.FromMut?)
  }

  /** A handle is in bounds and of the shape its form promises. In vector kind a `Bytes` ends
      where its allocation ends, which is what makes the recomputed size the allocated size. */
  predicate HandleOk(allocs: Allocs, shareds: Shareds, h: Handle) {
    && h.len <= h.cap
    && (!h.form.ViewStatic? ==> h.alloc in allocs && h.off + h.cap <= |allocs[h.alloc]|)
    && FormOk(allocs, shareds, h)
  }

  function Holders(handles: Handles, s: Id): set<Id> {
    set k | k in handles && HeldBy(handles[k], s)
  }

  predicate OriginOk(mem: seq<byte>, origin: Origin) {
    match origin
    case FromMut(vecLen, cap, repr) => vecLen <= cap == |mem| && repr <= 7
    case FromView(size) => size == |mem|
  }

  /** Every handle on the allocation is a holder of the shared block. */
  predicate AllHold(handles: Handles, a: Id, s: Id) {
    forall k :: k in handles && Uses(handles[k], a) ==> HeldBy(handles[k], s)
  }

  /** A shared block counts its holders, and owns its allocation alone. */
  predicate SharedOk(allocs: Allocs, handles: Handles, s: Id, sh: Shared) {
    && sh.alloc in allocs
    && sh.count == |Holders(handles, s)| > 0
    && OriginOk(allocs[sh.alloc], sh.origin)
    && AllHold(handles, sh.alloc, s)
  }

  predicate HandlesOk(w: World) {
    forall k {:trigger HandleOk(w.allocs, w.shareds, w.handles[k])} ::
      k in w.handles ==> k < w.nextId && HandleOk(w.allocs, w.shareds, w.handles[k])
  }

  predicate AllApart(handles: Handles) {
    forall j, k {:trigger Apart(handles[j], handles[k])} ::
      j in handles && k in handles && j != k ==> Apart(handles[j], handles[k])
  }

  predicate SharedsOk(w: World) {
    forall s {:trigger SharedOk(w.allocs, w.handles, s, w.shareds[s])} ::
      s in w.shareds ==> s < w.nextId && SharedOk(w.allocs, w.handles, s, w.shareds[s])
  }

  predicate OneBlockEach(shareds: Shareds) {
    forall s, t :: s in shareds && t in shareds && s != t ==> shareds[s].alloc != shareds[t].alloc
  }

  predicate Owned(handles: Handles, a: Id) {
    exists k :: k in handles && Uses(handles[k], a)
  }

  /** Nothing leaks: a live allocation is in use by a live handle. */
  predicate AllOwned(allocs: Allocs, handles: Handles, nextAlloc: nat) {
    forall a {:trigger Owned(handles, a)} ::
      a in allocs ==> a < nextAlloc && Owned(handles, a)
  }

  /** Every allocation ever made is live and never freed, or gone and freed exactly once. */
  ghost predicate FreedOnce(allocs: Allocs, nextAlloc: nat, freed: multiset<Id>) {
    forall a: Id :: freed[a] == if a < nextAlloc && a !in allocs then 1 else 0
  }

  ghost predicate Inv(w: World) {
    && HandlesOk(w) && AllApart(w.handles) && SharedsOk(w) && OneBlockEach(w.shareds)
    && AllOwned(w.allocs, w.handles, w.nextAlloc) && FreedOnce(w.allocs, w.nextAlloc, w.freed)
  }

  /** The capacity class that a `BytesMut` of the form carries, in its word or in its block. */
  function ClassIn(shareds: Shareds, form: Form): nat {
    match form
    case MutVec(word) => Class(word)
    case MutArc(s) => if s in shareds && shareds[s].origin.FromMut? then shareds[s].origin.repr else 0
    case _ => 0
  }

  predicate SameClass(o: Origin, p: Origin) {
    o.FromMut? == p.FromMut? && (o.FromMut? ==> o.repr == p.repr)
  }

  /** A block keeps its maker and its class for life, and its id is never used again. */
  ghost predicate Evolves(w: World, w': World) {
    && w.nextId <= w'.nextId
    && forall s :: s in w'.shareds && s < w.nextId ==>
         s in w.shareds && SameClass(w.shareds[s].origin, w'.shareds[s].origin)
  }

  function Slice(m: seq<byte>, lo: nat, hi: nat): seq<byte> {
    if lo <= hi <= |m| then m[lo..hi] else []
  }

  function Contents(allocs: Allocs, h: Handle): seq<byte> {
    if h.form.ViewStatic? then Slice(h.form.text, h.off, h.off + h.len)
    else if h.alloc in allocs then Slice(allocs[h.alloc], h.off, h.off + h.len)
    else []
  }

  /** What a user sees: one independent byte string per live value. */
  function Abs(allocs: Allocs, handles: Handles): map<Id, seq<byte>> {
    map k | k in handles :: Contents(allocs, handles[k])
  }

  // ---- State changes that every operation is made of ----

  /** A block with one reference less. */
  function OneLess(sh: Shared): Shared
    requires sh.count > 0
  {
    sh.(count := sh.count - 1)
  }

  /** The value `k` is dropped: the last holder frees the shared block and its allocation. */
  function Release(w: World, k: Id): World
    requires k in w.handles
    requires HandlesOk(w) && SharedsOk(w)
  {
    var h := w.handles[k];
    HandleFact(w, k);
    if h.form.ViewStatic? then w.(handles := w.handles - {k})
    else if Solo(h) then
      w.(handles := w.handles - {k}, allocs := w.allocs - {h.alloc}, freed := w.freed + multiset{h.alloc})
    else
      var s := h.form.shared;
      var sh := w.shareds[s];
      SharedFact(w, s);
      if sh.count == 1 then
        w.(handles := w.handles - {k}, shareds := w.shareds - {s}, allocs := w.allocs - {h.alloc},
           freed := w.freed + multiset{h.alloc})
      else
        w.(handles := w.handles - {k}, shareds := w.shareds[s := OneLess(sh)])
  }

  /** A sole owner `k` on a new allocation. */
  function Place(w: World, k: Id, h: Handle, mem: seq<byte>): World {
    w.(handles := w.handles[k := h], allocs := w.allocs[w.nextAlloc := mem], nextAlloc := w.nextAlloc + 1)
  }

  /** The handle `k` changes within its allocation and keeps its owner. */
  function Replace(w: World, k: Id, h: Handle): World {
    w.(handles := w.handles[k := h])
  }

  /** The sole owner `k` becomes the only holder of the new shared block `s`. */
  function Promote(w: World, k: Id, s: Id, h: Handle, origin: Origin): World {
    w.(handles := w.handles[k := h], shareds := w.shareds[s := Shared(h.alloc, 1, origin)])
  }

  /** The only holder `k` of `s` becomes the sole owner of the allocation. */
  function Demote(w: World, k: Id, s: Id, h: Handle): World {
    w.(handles := w.handles[k := h], shareds := w.shareds - {s})
  }

  /** One more holder of `s`. */
  function AddHolder(w: World, k: Id, s: Id, h: Handle): World
    requires s in w.shareds
  {
    w.(handles := w.handles[k := h], shareds := w.shareds[s := w.shareds[s].(count := w.shareds[s].count + 1)])
  }

  /** Bytes written at `at` of an allocation. */
  function Overwrite(m: seq<byte>, at: nat, src: seq<byte>): (r: seq<byte>)
    requires at + |src| <= |m|
    ensures |r| == |m|
  {
    m[..at] + src + m[at + |src|..]
  }

  function Write(w: World, a: Id, at: nat, src: seq<byte>): World
    requires a in w.allocs && at + |src| <= |w.allocs[a]|
  {
    w.(allocs := w.allocs[a := Overwrite(w.allocs[a], at, src)])
  }

  // ---- Each of them keeps the invariant ----

  lemma HandleFact(w: World, k: Id)
    requires HandlesOk(w) && k in w.handles
    ensures k < w.nextId && HandleOk(w.allocs, w.shareds, w.handles[k])
  {
    var fact := HandleOk(w.allocs, w.shareds, w.handles[k]);
  }

  lemma SharedFact(w: World, s: Id)
    requires SharedsOk(w) && s in w.shareds
    ensures s < w.nextId && SharedOk(w.allocs, w.handles, s, w.shareds[s])
  {
    var fact := SharedOk(w.allocs, w.handles, s, w.shareds[s]);
  }

  lemma OnlyHolder(w: World, k: Id, s: Id)
    requires HandlesOk(w) && SharedsOk(w)
    requires k in w.handles && HeldBy(w.handles[k], s) && s in w.shareds && w.shareds[s].count == 1
    ensures Holders(w.handles, s) == {k} && w.shareds[s].alloc == w.handles[k].alloc
    ensures forall j :: j in w.handles && j != k ==> !Uses(w.handles[j], w.handles[k].alloc)
  {
    HandleFact(w, k);
    SharedFact(w, s);
    var rest := Holders(w.handles, s) - {k};
    assert |rest| == 0;
    assert Holders(w.handles, s) == {k};
    forall j | j in w.handles && Uses(w.handles[j], w.handles[k].alloc)
      ensures j == k
    {
      assert j in Holders(w.handles, s);
    }
  }

  lemma UserOf(w: World, a: Id) returns (k: Id)
    requires AllOwned(w.allocs, w.handles, w.nextAlloc) && a in w.allocs
    ensures a < w.nextAlloc && k in w.handles && Uses(w.handles[k], a)
  {
    var owned := Owned(w.handles, a);
    k :| k in w.handles && Uses(w.handles[k], a);
  }

  lemma HoldersReplaced(handles: Handles, k: Id, h: Handle, s: Id)
    requires k in handles && HeldBy(h, s) == HeldBy(handles[k], s)
    ensures Holders(handles[k := h], s) == Holders(handles, s)
  {
  }

  lemma HoldersAdded(handles: Handles, k: Id, h: Handle, s: Id)
    requires k !in handles
    ensures |Holders(handles[k := h], s)| == |Holders(handles, s)| + if HeldBy(h, s) then 1 else 0
  {
    var before, after := Holders(handles, s), Holders(handles[k := h], s);
    assert after == if HeldBy(h, s) then before + {k} else before;
  }

  lemma HoldersRemoved(handles: Handles, k: Id, s: Id)
    requires k in handles
    ensures |Holders(handles - {k}, s)| == |Holders(handles, s)| - if HeldBy(handles[k], s) then 1 else 0
  {
    var before, after := Holders(handles, s), Holders(handles - {k}, s);
    assert after == before - {k};
    assert HeldBy(handles[k], s) ==> k in before;
  }

  /** The blocks stay sound when `k` becomes a handle that holds what it held before. */
  lemma SharedsReplaced(w: World, k: Id, h: Handle)
    requires SharedsOk(w) && k in w.handles
    requires forall s :: HeldBy(h, s) == HeldBy(w.handles[k], s)
    requires forall a :: Uses(h, a) == Uses(w.handles[k], a)
    ensures SharedsOk(Replace(w, k, h))
  {
    forall s | s in w.shareds
      ensures s < w.nextId && SharedOk(w.allocs, w.handles[k := h], s, w.shareds[s])
    {
      SharedFact(w, s);
      HoldersReplaced(w.handles, k, h, s);
    }
  }

  /** The blocks that neither the old nor the new `k` touches stay sound. */
  lemma SharedElsewhere(w: World, k: Id, h: Handle, s: Id)
    requires SharedsOk(w) && s in w.shareds && k in w.handles
    requires !HeldBy(w.handles[k], s) && !HeldBy(h, s) && !Uses(h, w.shareds[s].alloc)
    ensures s < w.nextId && SharedOk(w.allocs, w.handles[k := h], s, w.shareds[s])
  {
    SharedFact(w, s);
    HoldersReplaced(w.handles, k, h, s);
  }

  lemma SharedUntouched(w: World, k: Id, h: Handle, s: Id)
    requires SharedsOk(w) && s in w.shareds && k !in w.handles
    requires !HeldBy(h, s) && !Uses(h, w.shareds[s].alloc)
    ensures s < w.nextId && SharedOk(w.allocs, w.handles[k := h], s, w.shareds[s])
  {
    SharedFact(w, s);
    HoldersAdded(w.handles, k, h, s);
  }

  lemma ApartUpdated(handles: Handles, k: Id, h: Handle)
    requires AllApart(handles)
    requires forall j :: j in handles && j != k ==> Apart(h, handles[j]) && Apart(handles[j], h)
    ensures AllApart(handles[k := h])
  {
  }

  lemma ApartRemoved(handles: Handles, k: Id)
    requires AllApart(handles)
    ensures AllApart(handles - {k})
  {
  }

  lemma HandlesUpdated(w: World, k: Id, h: Handle)
    requires HandlesOk(w) && HandleOk(w.allocs, w.shareds, h) && k < w.nextId
    ensures HandlesOk(Replace(w, k, h))
  {
    var handles := w.handles[k := h];
    forall j | j in handles
      ensures j < w.nextId && HandleOk(w.allocs, w.shareds, handles[j])
    {
      if j != k {
        HandleFact(w, j);
      }
    }
  }

  lemma OwnedUpdated(w: World, k: Id, h: Handle)
    requires AllOwned(w.allocs, w.handles, w.nextAlloc)
    requires forall a :: k in w.handles && Uses(w.handles[k], a) ==> Uses(h, a)
    ensures AllOwned(w.allocs, w.handles[k := h], w.nextAlloc)
  {
    forall a | a in w.allocs
      ensures a < w.nextAlloc && Owned(w.handles[k := h], a)
    {
      var j := UserOf(w, a);
      assert Uses(w.handles[k := h][j], a);
    }
  }

  lemma AllocIsNew(w: World)
    requires HandlesOk(w) && SharedsOk(w) && AllOwned(w.allocs, w.handles, w.nextAlloc)
    ensures w.nextAlloc !in w.allocs
    ensures forall j :: j in w.handles ==> !Uses(w.handles[j], w.nextAlloc)
    ensures forall s :: s in w.shareds ==> w.shareds[s].alloc != w.nextAlloc
  {
    if w.nextAlloc in w.allocs {
      var j := UserOf(w, w.nextAlloc);
    }
    forall j | j in w.handles
      ensures !Uses(w.handles[j], w.nextAlloc)
    {
      HandleFact(w, j);
    }
    forall s | s in w.shareds
      ensures w.shareds[s].alloc != w.nextAlloc
    {
      SharedFact(w, s);
    }
  }

  /** Nobody else uses the allocation of a sole owner, and no shared block is on it. */
  lemma SoloAlone(w: World, k: Id)
    requires SharedsOk(w) && AllApart(w.handles) && k in w.handles && Solo(w.handles[k])
    ensures forall j :: j in w.handles && j != k ==> !Uses(w.handles[j], w.handles[k].alloc)
    ensures forall s :: s in w.shareds ==> w.shareds[s].alloc != w.handles[k].alloc
  {
    forall j | j in w.handles && j != k
      ensures !Uses(w.handles[j], w.handles[k].alloc)
    {
      var apart := Apart(w.handles[k], w.handles[j]);
    }
    forall s | s in w.shareds
      ensures w.shareds[s].alloc != w.handles[k].alloc
    {
      SharedFact(w, s);
      assert !HeldBy(w.handles[k], s);
    }
  }

  lemma ReplaceKeeps(w: World, k: Id, h: Handle)
    requires Inv(w) && k in w.handles
    requires HandleOk(w.allocs, w.shareds, h)
    requires forall s :: HeldBy(h, s) == HeldBy(w.handles[k], s)
    requires forall a :: Uses(h, a) == Uses(w.handles[k], a)
    requires forall j :: j in w.handles && j != k ==> Apart(h, w.handles[j]) && Apart(w.handles[j], h)
    ensures Inv(Replace(w, k, h))
  {
    HandleFact(w, k);
    SharedsReplaced(w, k, h);
    ApartUpdated(w.handles, k, h);
    OwnedUpdated(w, k, h);
    HandlesUpdated(w, k, h);
  }

  lemma UpdateAbs(allocs: Allocs, handles: Handles, k: Id, h: Handle)
    ensures Abs(allocs, handles[k := h]) == Abs(allocs, handles)[k := Contents(allocs, h)]
  {
  }

  lemma PlaceKeeps(w: World, k: Id, h: Handle, mem: seq<byte>)
    requires Inv(w) && k !in w.handles && k < w.nextId
    requires Solo(h) && h.alloc == w.nextAlloc
    requires HandleOk(w.allocs[w.nextAlloc := mem], w.shareds, h)
    ensures Inv(Place(w, k, h, mem))
  {
    var w' := Place(w, k, h, mem);
    AllocIsNew(w);
    ApartUpdated(w.handles, k, h);
    assert HandlesOk(w') by {
      forall j | j in w.handles
        ensures j < w.nextId && HandleOk(w'.allocs, w.shareds, w.handles[j])
      {
        HandleFact(w, j);
      }
    }
    assert SharedsOk(w') by {
      forall s | s in w.shareds
        ensures s < w.nextId && SharedOk(w'.allocs, w'.handles, s, w.shareds[s])
      {
        SharedUntouched(w, k, h, s);
      }
    }
    assert AllOwned(w'.allocs, w'.handles, w'.nextAlloc) by {
      assert Uses(w'.handles[k], w.nextAlloc);
      forall a | a in w.allocs
        ensures a < w.nextAlloc && Owned(w'.handles, a)
      {
        var j := UserOf(w, a);
        assert Uses(w'.handles[j], a);
      }
    }
  }

  lemma PlaceAbs(w: World, k: Id, h: Handle, mem: seq<byte>)
    requires HandlesOk(w) && SharedsOk(w) && AllOwned(w.allocs, w.handles, w.nextAlloc) && k !in w.handles
    ensures var allocs := w.allocs[w.nextAlloc := mem];
            Abs(allocs, w.handles[k := h]) == Abs(w.allocs, w.handles)[k := Contents(allocs, h)]
  {
    AllocIsNew(w);
  }

  lemma PlaceStaticKeeps(w: World, k: Id, h: Handle)
    requires Inv(w) && k !in w.handles && k < w.nextId
    requires h.form.ViewStatic? && HandleOk(w.allocs, w.shareds, h)
    ensures Inv(Replace(w, k, h))
  {
    ApartUpdated(w.handles, k, h);
    OwnedUpdated(w, k, h);
    HandlesUpdated(w, k, h);
    forall s | s in w.shareds
      ensures s < w.nextId && SharedOk(w.allocs, w.handles[k := h], s, w.shareds[s])
    {
      SharedUntouched(w, k, h, s);
    }
  }

  lemma PromoteKeeps(w: World, k: Id, s: Id, h: Handle, origin: Origin)
    requires Inv(w) && k in w.handles && s !in w.shareds && s < w.nextId
    requires Solo(w.handles[k]) && Uses(h, w.handles[k].alloc)
    requires HeldBy(h, s) && h.alloc in w.allocs && OriginOk(w.allocs[h.alloc], origin)
    requires HandleOk(w.allocs, w.shareds[s := Shared(h.alloc, 1, origin)], h)
    ensures Inv(Promote(w, k, s, h, origin))
  {
    var w' := Promote(w, k, s, h, origin);
    SoloAlone(w, k);
    HandleFact(w, k);
    ApartUpdated(w.handles, k, h);
    OwnedUpdated(w, k, h);
    assert HandlesOk(w') by {
      forall j | j in w.handles && j != k
        ensures j < w.nextId && HandleOk(w.allocs, w'.shareds, w.handles[j])
      {
        HandleFact(w, j);
      }
    }
    assert SharedsOk(w') by {
      assert Holders(w'.handles, s) == {k} by {
        forall j | j in w.handles && HeldBy(w.handles[j], s)
          ensures false
        {
          HandleFact(w, j);
        }
      }
      forall t | t in w.shareds
        ensures t < w.nextId && SharedOk(w.allocs, w'.handles, t, w.shareds[t])
      {
        SharedElsewhere(w, k, h, t);
      }
    }
  }

  lemma DemoteKeeps(w: World, k: Id, s: Id, h: Handle)
    requires Inv(w) && k in w.handles && HeldBy(w.handles[k], s)
    requires s in w.shareds && w.shareds[s].count == 1
    requires Solo(h) && Uses(h, w.handles[k].alloc) && HandleOk(w.allocs, w.shareds, h)
    ensures Inv(Demote(w, k, s, h))
  {
    var w' := Demote(w, k, s, h);
    OnlyHolder(w, k, s);
    HandleFact(w, k);
    ApartUpdated(w.handles, k, h);
    OwnedUpdated(w, k, h);
    assert HandlesOk(w') by {
      forall j | j in w.handles && j != k
        ensures j < w.nextId && HandleOk(w.allocs, w'.shareds, w.handles[j])
      {
        HandleFact(w, j);
        assert j !in Holders(w.handles, s);
      }
    }
    assert SharedsOk(w') by {
      forall t | t in w'.shareds
        ensures t < w.nextId && SharedOk(w.allocs, w'.handles, t, w.shareds[t])
      {
        SharedElsewhere(w, k, h, t);
      }
    }
  }

  lemma AddHolderKeeps(w: World, k: Id, s: Id, h: Handle)
    requires Inv(w) && k !in w.handles && k < w.nextId && s in w.shareds
    requires HeldBy(h, s) && Uses(h, w.shareds[s].alloc) && HandleOk(w.allocs, w.shareds, h)
    requires forall j :: j in w.handles ==> Apart(h, w.handles[j]) && Apart(w.handles[j], h)
    ensures Inv(AddHolder(w, k, s, h))
  {
    var w' := AddHolder(w, k, s, h);
    ApartUpdated(w.handles, k, h);
    OwnedUpdated(w, k, h);
    assert HandlesOk(w') by {
      forall j | j in w'.handles
        ensures j < w.nextId && HandleOk(w.allocs, w'.shareds, w'.handles[j])
      {
        if j != k {
          HandleFact(w, j);
        }
      }
    }
    assert SharedsOk(w') by {
      SharedFact(w, s);
      HoldersAdded(w.handles, k, h, s);
      forall t | t in w.shareds && t != s
        ensures t < w.nextId && SharedOk(w.allocs, w'.handles, t, w.shareds[t])
      {
        SharedUntouched(w, k, h, t);
      }
    }
  }

  /** What the freed allocation leaves behind: nobody else was on it. */
  lemma FreeKeeps(w: World, k: Id, shareds: Shareds)
    requires Inv(w) && k in w.handles && !w.handles[k].form.ViewStatic?
    requires forall j :: j in w.handles && j != k ==> !Uses(w.handles[j], w.handles[k].alloc)
    requires forall s :: s in shareds <==> s in w.shareds && w.shareds[s].alloc != w.handles[k].alloc
    requires forall s :: s in shareds ==> shareds[s] == w.shareds[s]
    ensures var a := w.handles[k].alloc;
            Inv(w.(handles := w.handles - {k}, shareds := shareds, allocs := w.allocs - {a},
                   freed := w.freed + multiset{a}))
  {
    var a0 := w.handles[k].alloc;
    var w' := w.(handles := w.handles - {k}, shareds := shareds, allocs := w.allocs - {a0},
                 freed := w.freed + multiset{a0});
    HandleFact(w, k);
    ApartRemoved(w.handles, k);
    assert a0 < w.nextAlloc by {
      var j := UserOf(w, a0);
    }
    assert HandlesOk(w') by {
      forall j | j in w'.handles
        ensures j < w.nextId && HandleOk(w'.allocs, shareds, w.handles[j])
      {
        HandleFact(w, j);
      }
    }
    assert SharedsOk(w') by {
      forall s | s in shareds
        ensures s < w.nextId && SharedOk(w'.allocs, w'.handles, s, shareds[s])
      {
        SharedFact(w, s);
        HoldersRemoved(w.handles, k, s);
      }
    }
    assert AllOwned(w'.allocs, w'.handles, w'.nextAlloc) by {
      forall a | a in w'.allocs
        ensures a < w.nextAlloc && Owned(w'.handles, a)
      {
        var j := UserOf(w, a);
        assert Uses(w'.handles[j], a);
      }
    }
  }

  lemma LeaveKeeps(w: World, k: Id, s: Id)
    requires Inv(w) && k in w.handles && HeldBy(w.handles[k], s)
    requires s in w.shareds && w.shareds[s].count > 1
    ensures Inv(w.(handles := w.handles - {k},
                   shareds := w.shareds[s := OneLess(w.shareds[s])]))
  {
    var w' := w.(handles := w.handles - {k},
                 shareds := w.shareds[s := OneLess(w.shareds[s])]);
    HandleFact(w, k);
    ApartRemoved(w.handles, k);
    SharedFact(w, s);
    HoldersRemoved(w.handles, k, s);
    assert HandlesOk(w') by {
      forall j | j in w'.handles
        ensures j < w.nextId && HandleOk(w.allocs, w'.shareds, w.handles[j])
      {
        HandleFact(w, j);
      }
    }
    assert SharedsOk(w') by {
      forall t | t in w.shareds
        ensures t < w.nextId && SharedOk(w.allocs, w'.handles, t, w'.shareds[t])
      {
        SharedFact(w, t);
        HoldersRemoved(w.handles, k, t);
      }
    }
    assert AllOwned(w'.allocs, w'.handles, w'.nextAlloc) by {
      forall a | a in w.allocs
        ensures a < w.nextAlloc && Owned(w'.handles, a)
      {
        var j := UserOf(w, a);
        if j == k {
          assert Holders(w'.handles, s) != {};
          j :| j in Holders(w'.handles, s);
          HandleFact(w, j);
        }
        assert Uses(w'.handles[j], a);
      }
    }
  }

  /** Dropping a value keeps the invariant; in particular the last holder frees the allocation,
      once, and an earlier holder does not. */
  lemma ReleaseKeeps(w: World, k: Id)
    requires Inv(w) && k in w.handles
    ensures Inv(Release(w, k))
  {
    var h := w.handles[k];
    HandleFact(w, k);
    if h.form.ViewStatic? {
      StaticLeaveKeeps(w, k);
    } else if Solo(h) {
      SoloAlone(w, k);
      FreeKeeps(w, k, w.shareds);
    } else {
      var s := h.form.shared;
      SharedFact(w, s);
      if w.shareds[s].count == 1 {
        OnlyHolder(w, k, s);
        FreeKeeps(w, k, w.shareds - {s});
      } else {
        LeaveKeeps(w, k, s);
      }
    }
  }

  lemma StaticLeaveKeeps(w: World, k: Id)
    requires Inv(w) && k in w.handles && w.handles[k].form.ViewStatic?
    ensures Inv(w.(handles := w.handles - {k}))
  {
    var w' := w.(handles := w.handles - {k});
    ApartRemoved(w.handles, k);
    assert HandlesOk(w') by {
      forall j | j in w'.handles
        ensures j < w.nextId && HandleOk(w.allocs, w.shareds, w.handles[j])
      {
        HandleFact(w, j);
      }
    }
    assert SharedsOk(w') by {
      forall s | s in w.shareds
        ensures s < w.nextId && SharedOk(w.allocs, w'.handles, s, w.shareds[s])
      {
        SharedFact(w, s);
        HoldersRemoved(w.handles, k, s);
      }
    }
    assert AllOwned(w'.allocs, w'.handles, w'.nextAlloc) by {
      forall a | a in w.allocs
        ensures a < w.nextAlloc && Owned(w'.handles, a)
      {
        var j := UserOf(w, a);
        assert Uses(w'.handles[j], a);
      }
    }
  }

  /** Dropping a value changes no other value's bytes. */
  lemma ReleaseEvolves(w: World, k: Id)
    requires HandlesOk(w) && SharedsOk(w) && k in w.handles
    ensures Evolves(w, Release(w, k)) && Release(w, k).handles == w.handles - {k}
  {
    HandleFact(w, k);
  }

  lemma ReleaseAbs(w: World, k: Id)
    requires Inv(w) && k in w.handles
    ensures Abs(Release(w, k).allocs, w.handles - {k}) == Abs(w.allocs, w.handles) - {k}
  {
    var h := w.handles[k];
    HandleFact(w, k);
    if Solo(h) {
      SoloAlone(w, k);
    } else if !h.form.ViewStatic? {
      SharedFact(w, h.form.shared);
      if w.shareds[h.form.shared].count == 1 {
        OnlyHolder(w, k, h.form.shared);
      }
    }
  }

  lemma WriteKeeps(w: World, a: Id, at: nat, src: seq<byte>)
    requires Inv(w) && a in w.allocs && at + |src| <= |w.allocs[a]|
    ensures Inv(Write(w, a, at, src))
  {
    var w' := Write(w, a, at, src);
    assert HandlesOk(w') by {
      forall j | j in w.handles
        ensures j < w.nextId && HandleOk(w'.allocs, w.shareds, w.handles[j])
      {
        HandleFact(w, j);
      }
    }
    assert SharedsOk(w') by {
      forall s | s in w.shareds
        ensures s < w.nextId && SharedOk(w'.allocs, w.handles, s, w.shareds[s])
      {
        SharedFact(w, s);
      }
    }
    assert AllOwned(w'.allocs, w'.handles, w'.nextAlloc) by {
      forall b | b in w.allocs
        ensures b < w.nextAlloc && Owned(w.handles, b)
      {
        var j := UserOf(w, b);
      }
    }
  }

  lemma OverwriteElsewhere(mem: seq<byte>, at: nat, src: seq<byte>, lo: nat, hi: nat)
    requires at + |src| <= |mem| && lo <= hi <= |mem| && (hi <= at || at + |src| <= lo || lo == hi || src == [])
    ensures Slice(Overwrite(mem, at, src), lo, hi) == Slice(mem, lo, hi)
  {
  }

  /** Writing inside the window of a value that may write leaves every other value's bytes alone. */
  lemma WriteIsLocal(w: World, k: Id, at: nat, src: seq<byte>, j: Id)
    requires Inv(w) && k in w.handles && j in w.handles && j != k && !IsView(w.handles[k])
    requires w.handles[k].alloc in w.allocs
    requires w.handles[k].off <= at && at + |src| <= w.handles[k].off + w.handles[k].cap
    requires at + |src| <= |w.allocs[w.handles[k].alloc]|
    ensures Contents(Write(w, w.handles[k].alloc, at, src).allocs, w.handles[j])
         == Contents(w.allocs, w.handles[j])
  {
    var apart := Apart(w.handles[k], w.handles[j]);
    HandleFact(w, j);
    var h := w.handles[j];
    if Uses(h, w.handles[k].alloc) {
      OverwriteElsewhere(w.allocs[h.alloc], at, src, h.off, h.off + h.len);
    }
  }

  lemma WriteAbs(w: World, k: Id, at: nat, src: seq<byte>)
    requires Inv(w) && k in w.handles && !IsView(w.handles[k])
    requires w.handles[k].alloc in w.allocs
    requires w.handles[k].off <= at && at + |src| <= w.handles[k].off + w.handles[k].cap
    requires at + |src| <= |w.allocs[w.handles[k].alloc]|
    ensures var w' := Write(w, w.handles[k].alloc, at, src);
            Abs(w'.allocs, w.handles) == Abs(w.allocs, w.handles)[k := Contents(w'.allocs, w.handles[k])]
  {
    var w' := Write(w, w.handles[k].alloc, at, src);
    forall j | j in w.handles && j != k
      ensures Contents(w'.allocs, w.handles[j]) == Contents(w.allocs, w.handles[j])
    {
      WriteIsLocal(w, k, at, src, j);
    }
  }
}
