/** Conversions among `BytesMut`, `Bytes` and `Vec<u8>`: the value keeps its id and its bytes, every other
    value is untouched, and the buffer is reused exactly when nobody else holds it. */
module Conversions {
  import opened DataWord
  import opened Memory
  import opened Heap
  import opened BytesMut
  import opened BytesMutReserve
  import opened BytesViews

  /** The size of the block behind a value that holds it alone, as each representation computes it. */
  function BlockSize(w: World, k: Id): nat
    requires k in w.handles && HandleOk(w.allocs, w.shareds, w.handles[k]) && !w.handles[k].form.ViewStatic?
  {
    var h := w.handles[k];
    match h.form
    case VecForm => h.cap
    case MutVec(word) => h.cap + VecPos(word)
    case ViewVec => h.off + h.len
    case MutArc(s) => w.shareds[s].origin.cap
    case ViewArc(s, _) => if w.shareds[s].origin.FromView? then w.shareds[s].origin.size else w.shareds[s].origin.cap
  }

  /** Every representation recomputes the size its block was allocated with. */
  lemma BlockSizeIsAllocated(w: World, k: Id)
    requires Inv(w) && k in w.handles && !w.handles[k].form.ViewStatic?
    ensures HandleOk(w.allocs, w.shareds, w.handles[k])
    ensures BlockSize(w, k) == |w.allocs[w.handles[k].alloc]|
  {
    HandleFact(w, k);
    if w.handles[k].form.ViewArc? || w.handles[k].form.MutArc? {
      SharedFact(w, w.handles[k].form.shared);
    }
  }

  lemma OwnWholeKeeps(w: World, k: Id, h: Handle)
    requires Inv(w) && k in w.handles && Unique(w, k)
    requires h.form.VecForm? && h.alloc == w.handles[k].alloc && HandleOk(w.allocs, w.shareds, h)
    ensures var shareds := if Solo(w.handles[k]) then w.shareds else w.shareds - {w.handles[k].form.shared};
            Inv(w.(handles := w.handles[k := h], shareds := shareds))
    ensures Abs(w.allocs, w.handles[k := h]) == Abs(w.allocs, w.handles)[k := Contents(w.allocs, h)]
  {
    if Solo(w.handles[k]) {
      SoloReplaceKeeps(w, k, h);
    } else {
      DemoteKeeps(w, k, w.handles[k].form.shared, h);
    }
    UpdateAbs(w.allocs, w.handles, k, h);
  }

  /** The vector that a value which holds its block alone consists of: the first `len` bytes of the block.
      A shared block is given up without freeing the buffer. */
  method OwnWhole(m: Arena, k: Id, len: nat)
    requires m.Valid() && k in m.handles && Unique(m.State(), k)
    requires m.handles[k].alloc in m.allocs && len <= |m.allocs[m.handles[k].alloc]|
    modifies m`handles, m`shareds
    ensures m.Valid()
    ensures m.Bytes() == old(m.Bytes())[k := m.allocs[old(m.handles[k].alloc)][..len]]
    ensures var a := old(m.handles[k].alloc);
            m.handles == old(m.handles)[k := Handle(VecForm, a, 0, len, |m.allocs[a]|)]
    ensures Evolves(old(m.State()), m.State())
  {
    ghost var w := m.State();
    BlockSizeIsAllocated(w, k);
    var h := m.handles[k];
    var cap := BlockSize(World(m.allocs, m.shareds, m.handles, m.nextAlloc, m.nextId, multiset{}), k);
    var h' := Handle(VecForm, h.alloc, 0, len, cap);
    OwnWholeKeeps(w, k, h');
    if h.form.MutArc? || h.form.ViewArc? {
      m.shareds := m.shareds - {h.form.shared};
    }
    m.handles := m.handles[k := h'];
    assert Contents(m.allocs, h') == m.allocs[h.alloc][..len];
  }

  /** Bytes of a plain vector's block move to its front. */
  method MoveToFront(m: Arena, k: Id, from: nat, len: nat, ghost c: seq<byte>)
    requires m.Valid() && k in m.handles && m.handles[k].form.VecForm?
    requires HandleOk(m.allocs, m.shareds, m.handles[k])
    requires m.handles[k].off == 0 && len == m.handles[k].len
    requires from + len <= |m.allocs[m.handles[k].alloc]|
    requires c == m.allocs[m.handles[k].alloc][from..from + len]
    modifies m`allocs
    ensures m.Valid() && m.Bytes() == old(m.Bytes())[k := c]
  {
    ghost var w := m.State();
    var a := m.handles[k].alloc;
    FrontWriteKeeps(w, k, c);
    m.Copy(a, from, a, 0, len);
    assert m.State() == Write(w, a, 0, c);
  }

  /** The bytes move to the front of the block, which becomes a plain vector. */
  method TakeVec(m: Arena, k: Id)
    requires m.Valid() && k in m.handles && Unique(m.State(), k)
    modifies m`handles, m`shareds, m`allocs
    ensures m.Valid() && m.Bytes() == old(m.Bytes())
    ensures k in m.handles && m.handles == old(m.handles)[k := m.handles[k]] && m.handles[k].form.VecForm?
    ensures m.handles[k].alloc == old(m.handles[k].alloc)
    ensures Evolves(old(m.State()), m.State())
  {
    ghost var bytes := m.Bytes();
    HandleFact(m.State(), k);
    var h := m.handles[k];
    ghost var c, front := bytes[k], m.allocs[h.alloc][..h.len];
    assert c == m.allocs[h.alloc][h.off..h.off + h.len];
    SetTwice(bytes, k, front, c);
    OwnWhole(m, k, h.len);
    HandleFact(m.State(), k);
    MoveToFront(m, k, h.off, h.len, c);
  }

  /** A static view is copied to a new vector. */
  method CopyOutStatic(m: Arena, k: Id)
    requires m.Valid() && k in m.handles && m.handles[k].form.ViewStatic?
    modifies m`handles, m`allocs, m`nextAlloc
    ensures m.Valid() && m.Bytes() == old(m.Bytes())
    ensures k in m.handles && m.handles == old(m.handles)[k := m.handles[k]] && m.handles[k].form.VecForm?
    ensures m.handles[k].alloc == old(m.nextAlloc)
  {
    ghost var w := m.State();
    HandleFact(w, k);
    AllocIsNew(w);
    var h := m.handles[k];
    var a, cap := m.ToVec(h.form.text[h.off..h.off + h.len]);
    var h' := Handle(VecForm, a, 0, h.len, cap);
    CopiedKeeps(w, k, h', m.allocs[a]);
    m.handles := m.handles[k := h'];
    assert m.handles == (w.handles - {k})[k := h'];
    assert m.State() == Place(Release(w, k), k, h', m.allocs[a]);
  }

  /** A holder that is not alone is copied to a new vector and lets the old block go. */
  method CopyOutShared(m: Arena, k: Id)
    requires m.Valid() && k in m.handles && (m.handles[k].form.MutArc? || m.handles[k].form.ViewArc?)
    requires !Unique(m.State(), k)
    modifies m`handles, m`shareds, m`allocs, m`nextAlloc, m`freed
    ensures m.Valid() && m.Bytes() == old(m.Bytes())
    ensures k in m.handles && m.handles == old(m.handles)[k := m.handles[k]] && m.handles[k].form.VecForm?
    ensures m.handles[k].alloc == old(m.nextAlloc) && m.freed == old(m.freed)
    ensures Evolves(old(m.State()), m.State())
  {
    ghost var w := m.State();
    HandleFact(w, k);
    AllocIsNew(w);
    var h := m.handles[k];
    SharedFact(w, h.form.shared);
    var src := m.allocs[h.alloc][h.off..h.off + h.len];
    assert src == Contents(w.allocs, h);
    var a, cap := m.ToVec(src);
    var h' := Handle(VecForm, a, 0, h.len, cap);
    m.ReleaseShared(h.form.shared);
    m.handles := m.handles[k := h'];
    ghost var mem := m.allocs[a];
    LeftKeeps(w, k, h.form.shared, h', mem);
    assert m.State() == Left(w, k, h.form.shared, h', mem);
  }

  // ---- The conversions ----

  /** The whole buffer up to the end of a window, without what lies before the window. */
  lemma EndOfPrefix(allocs: Allocs, h: Handle, end: nat)
    requires !h.form.ViewStatic? && h.alloc in allocs && end == h.off + h.len <= |allocs[h.alloc]|
    ensures DropTo(allocs[h.alloc][..end], h.off) == Contents(allocs, h)
  {
  }

  lemma ThereAndBack(
    b0: map<Id, seq<byte>>, b1: map<Id, seq<byte>>, b2: map<Id, seq<byte>>, k: Id, whole: seq<byte>, off: nat)
    requires k in b0 && b1 == b0[k := whole] && b2 == b1[k := DropTo(b1[k], off)] && DropTo(whole, off) == b0[k]
    ensures b2 == b0
  {
  }

  /** The only holder of a buffer takes it over whole, as a view. */
  method OwnWholeView(m: Arena, k: Id, len: nat)
    requires m.Valid() && k in m.handles && Unique(m.State(), k)
    requires m.handles[k].alloc in m.allocs && len <= |m.allocs[m.handles[k].alloc]|
    modifies m`handles, m`shareds, m`allocs, m`nextId, m`freed
    ensures m.Valid()
    ensures m.Bytes() == old(m.Bytes())[k := old(m.allocs[m.handles[k].alloc][..len])]
    ensures k in m.handles && m.handles == old(m.handles)[k := m.handles[k]] && IsView(m.handles[k])
    ensures m.handles[k].off == 0 && m.handles[k].len == len
    ensures !m.handles[k].form.ViewStatic? ==> m.handles[k].alloc == old(m.handles[k].alloc)
    ensures Evolves(old(m.State()), m.State())
  {
    OwnWhole(m, k, len);
    ViewFromVec(m, k);
  }

  method MoveViewStart(m: Arena, k: Id, count: nat)
    requires m.Valid() && k in m.handles && IsView(m.handles[k]) && count <= m.handles[k].len
    modifies m`handles
    ensures m.Valid() && m.Bytes() == old(m.Bytes())[k := DropTo(old(m.Bytes()[k]), count)]
    ensures k in m.handles && m.handles == old(m.handles)[k := m.handles[k]]
    ensures m.handles[k].form == old(m.handles[k].form) && m.handles[k].alloc == old(m.handles[k].alloc)
    ensures m.handles[k].off == old(m.handles[k].off) + count
  {
    var ok := AdvanceView(m, k, count);
  }

  /** Freezing a vector-backed value takes the whole vector and moves the start of the view to its place. */
  method FreezeVec(m: Arena, k: Id)
    requires m.Valid() && k in m.handles && m.handles[k].form.MutVec?
    modifies m`handles, m`shareds, m`allocs, m`nextId, m`freed
    ensures m.Valid() && m.Bytes() == old(m.Bytes())
    ensures k in m.handles && m.handles == old(m.handles)[k := m.handles[k]] && IsView(m.handles[k])
    ensures !m.handles[k].form.ViewStatic? ==>
              m.handles[k].alloc == old(m.handles[k].alloc) && m.handles[k].off == old(m.handles[k].off)
    ensures Evolves(old(m.State()), m.State())
  {
    ghost var w := m.State();
    ghost var bytes := m.Bytes();
    HandleFact(w, k);
    var h := m.handles[k];
    var offset := VecPos(h.form.word);
    var end := offset + h.len;
    ghost var whole := w.allocs[h.alloc][..end];
    EndOfPrefix(w.allocs, h, end);
    OwnWholeView(m, k, end);
    ghost var bytes1 := m.Bytes();
    MoveViewStart(m, k, offset);
    ThereAndBack(bytes, bytes1, m.Bytes(), k, whole, offset);
  }

  /** `BytesMut::freeze`: the same bytes at the same place, for reading only; nothing is allocated. */
  method Freeze(m: Arena, k: Id)
    requires m.Valid() && k in m.handles && IsMut(m.handles[k])
    modifies m`handles, m`shareds, m`allocs, m`nextId, m`freed
    ensures m.Valid() && m.Bytes() == old(m.Bytes())
    ensures k in m.handles && m.handles == old(m.handles)[k := m.handles[k]] && IsView(m.handles[k])
    ensures !m.handles[k].form.ViewStatic? ==>
              m.handles[k].alloc == old(m.handles[k].alloc) && m.handles[k].off == old(m.handles[k].off)
    ensures Evolves(old(m.State()), m.State())
  {
    ghost var w := m.State();
    ghost var bytes := m.Bytes();
    HandleFact(w, k);
    var h := m.handles[k];
    if h.form.MutVec? {
      FreezeVec(m, k);
    } else {
      var h' := h.(form := ViewArc(h.form.shared, MutTable), cap := h.len);
      ShrinkKeeps(w, k, h');
      SetTwice(bytes, k, [], Contents(w.allocs, h'));
      m.handles := m.handles[k := h'];
    }
  }

  /** `From<BytesMut> for Vec` and `From<Bytes> for Vec`. */
  method IntoVec(m: Arena, k: Id)
    requires m.Valid() && k in m.handles
    modifies m`handles, m`shareds, m`allocs, m`nextAlloc, m`freed
    ensures m.Valid() && m.Bytes() == old(m.Bytes())
    ensures k in m.handles && m.handles == old(m.handles)[k := m.handles[k]] && m.handles[k].form.VecForm?
    ensures old(Unique(m.State(), k)) ==>
              m.handles[k].alloc == old(m.handles[k].alloc) && m.nextAlloc == old(m.nextAlloc)
    ensures !old(Unique(m.State(), k)) ==> m.handles[k].alloc == old(m.nextAlloc)
    ensures Evolves(old(m.State()), m.State())
  {
    HandleFact(m.State(), k);
    var h := m.handles[k];
    if h.form.ViewStatic? {
      CopyOutStatic(m, k);
    } else if (h.form.MutArc? || h.form.ViewArc?) && m.shareds[h.form.shared].count != 1 {
      CopyOutShared(m, k);
    } else {
      TakeVec(m, k);
    }
  }

  /** The only holder of a block made by `BytesMut` turns back into a `BytesMut` in place. */
  method Thaw(m: Arena, k: Id)
    requires m.Valid() && k in m.handles && m.handles[k].form.ViewArc? && Unique(m.State(), k)
    requires m.handles[k].form.vtable.MutTable?
    modifies m`handles
    ensures m.Valid() && m.Bytes() == old(m.Bytes())
    ensures k in m.handles && m.handles == old(m.handles)[k := m.handles[k]] && m.handles[k].form.MutArc?
    ensures m.handles[k].alloc == old(m.handles[k].alloc) && m.handles[k].off == old(m.handles[k].off)
    ensures m.handles[k].alloc in m.allocs && m.handles[k].cap == |m.allocs[m.handles[k].alloc]| - m.handles[k].off
  {
    ghost var w := m.State();
    HandleFact(w, k);
    var h := m.handles[k];
    SharedFact(w, h.form.shared);
    var h' := h.(form := MutArc(h.form.shared), cap := m.shareds[h.form.shared].origin.cap - h.off);
    OnlyHolder(w, k, h.form.shared);
    ReplaceKeeps(w, k, h');
    UpdateAbs(w.allocs, w.handles, k, h');
    SetTwice(m.Bytes(), k, [], Contents(w.allocs, h'));
    m.handles := m.handles[k := h'];
  }

  method MoveStart(m: Arena, k: Id, count: nat)
    requires m.Valid() && k in m.handles && IsMut(m.handles[k]) && count <= m.handles[k].cap
    modifies m`handles, m`shareds, m`nextId
    ensures m.Valid() && m.Bytes() == old(m.Bytes())[k := DropTo(old(m.Bytes()[k]), count)]
    ensures k in m.handles && m.handles == old(m.handles)[k := m.handles[k]] && IsMut(m.handles[k])
    ensures m.handles[k] == Shifted(old(m.handles[k]), count).(form := m.handles[k].form)
    ensures Evolves(old(m.State()), m.State())
  {
    AdvancedKeeps(m.State(), k, count);
    AdvancedShape(m.State(), k, count);
    AdvanceUnchecked(m, k, count);
  }

  /** The only holder of a buffer takes it over whole, as a vector-backed `BytesMut`. */
  method OwnWholeMut(m: Arena, k: Id, len: nat)
    requires m.Valid() && k in m.handles && Unique(m.State(), k)
    requires m.handles[k].alloc in m.allocs && len <= |m.allocs[m.handles[k].alloc]|
    modifies m`handles, m`shareds
    ensures m.Valid()
    ensures m.Bytes() == old(m.Bytes())[k := m.allocs[old(m.handles[k].alloc)][..len]]
    ensures k in m.handles && m.handles == old(m.handles)[k := m.handles[k]] && m.handles[k].form.MutVec?
    ensures var cap := |m.allocs[old(m.handles[k].alloc)]|;
            m.handles[k] == Handle(m.handles[k].form, old(m.handles[k].alloc), 0, len, cap)
    ensures Evolves(old(m.State()), m.State())
  {
    OwnWhole(m, k, len);
    MutFromVec(m, k);
  }

  /** The only holder of any other buffer turns into a vector-backed `BytesMut`, advanced to its place. */
  method RebuildMut(m: Arena, k: Id)
    requires m.Valid() && k in m.handles && IsView(m.handles[k]) && Unique(m.State(), k)
    modifies m`handles, m`shareds, m`nextId
    ensures m.Valid() && m.Bytes() == old(m.Bytes())
    ensures k in m.handles && m.handles == old(m.handles)[k := m.handles[k]] && IsMut(m.handles[k])
    ensures m.handles[k].alloc == old(m.handles[k].alloc) && m.handles[k].off == old(m.handles[k].off)
    ensures m.handles[k].alloc in m.allocs && m.handles[k].cap == |m.allocs[m.handles[k].alloc]| - m.handles[k].off
    ensures Evolves(old(m.State()), m.State())
  {
    ghost var w := m.State();
    ghost var bytes := m.Bytes();
    HandleFact(w, k);
    var h := m.handles[k];
    var end := h.off + h.len;
    ghost var whole := w.allocs[h.alloc][..end];
    EndOfPrefix(w.allocs, h, end);
    OwnWholeMut(m, k, end);
    ghost var w1, bytes1 := m.State(), m.Bytes();
    MoveStart(m, k, h.off);
    ThereAndBack(bytes, bytes1, m.Bytes(), k, whole, h.off);
    SetTwice(w.handles, k, w1.handles[k], m.handles[k]);
    EvolvesTwice(w, w1, m.State());
  }

  /** What the data word of a promotable view points to: its buffer, tagged by an odd word, or the shared block it was
      promoted to, whose address is even. */
  datatype Target = OfBuffer(addr: nat) | OfBlock(addr: nat)

  function DataWordOf(t: Target): nat {
    match t
    case OfBuffer(addr) => if addr % 2 == 0 then addr + 1 else addr
    case OfBlock(addr) => addr
  }

  /** The two ways of `promotable_to_mut`. */
  datatype Way = ThroughBlock | RebuildVector

  function WayMeant(word: nat): Way {
    if Kind(word) == 0 then ThroughBlock else RebuildVector
  }

  /** As written the kind is the word times the mask 1, which is never the kind of a block. */
  function WayWritten(word: nat): Way {
    if word * 1 == 0 then ThroughBlock else RebuildVector
  }

  /** The way meant is the one of the target.  The way written rebuilds a vector always, so it is right exactly as long
      as the view has not been promoted, and afterwards takes the block for the buffer. */
  lemma WrittenWayIsRightUntilPromotion(t: Target)
    requires t.OfBlock? ==> t.addr > 0 && t.addr % 2 == 0
    ensures WayMeant(DataWordOf(t)) == if t.OfBlock? then ThroughBlock else RebuildVector
    ensures WayWritten(DataWordOf(t)) == RebuildVector
    ensures WayWritten(DataWordOf(t)) == WayMeant(DataWordOf(t)) <==> t.OfBuffer?
  {
    if t.OfBuffer? && t.addr % 2 == 0 {
      assert (t.addr + 1) % 2 == 1;
    }
  }

  /** `From<Bytes> for BytesMut`, as meant: the kind of a promotable view is its low bit. */
  method IntoMut(m: Arena, k: Id)
    requires m.Valid() && k in m.handles && IsView(m.handles[k])
    modifies m`handles, m`shareds, m`allocs, m`nextAlloc, m`nextId, m`freed
    ensures m.Valid() && m.Bytes() == old(m.Bytes())
    ensures k in m.handles && m.handles == old(m.handles)[k := m.handles[k]] && IsMut(m.handles[k])
    ensures old(Unique(m.State(), k)) ==>
              && m.handles[k].alloc == old(m.handles[k].alloc) && m.handles[k].off == old(m.handles[k].off)
              && m.nextAlloc == old(m.nextAlloc)
              && m.handles[k].alloc in m.allocs && m.handles[k].cap == |m.allocs[m.handles[k].alloc]| - m.handles[k].off
    ensures !old(Unique(m.State(), k)) ==> m.handles[k].alloc == old(m.nextAlloc)
    ensures Evolves(old(m.State()), m.State())
  {
    HandleFact(m.State(), k);
    var h := m.handles[k];
    if h.form.ViewStatic? {
      CopyOutStatic(m, k);
      MutFromVec(m, k);
    } else if h.form.ViewArc? && m.shareds[h.form.shared].count != 1 {
      CopyOutShared(m, k);
      MutFromVec(m, k);
    } else if h.form.ViewArc? && h.form.vtable.MutTable? {
      Thaw(m, k);
    } else {
      RebuildMut(m, k);
    }
  }

  /** `try_into_mut`: succeeds exactly on a unique view, and otherwise gives the view back. */
  method TryIntoMut(m: Arena, k: Id) returns (ok: bool)
    requires m.Valid() && k in m.handles && IsView(m.handles[k])
    modifies m`handles, m`shareds, m`allocs, m`nextAlloc, m`nextId, m`freed
    ensures m.Valid() && m.Bytes() == old(m.Bytes()) && (ok <==> old(Unique(m.State(), k)))
    ensures !ok ==> m.State() == old(m.State())
    ensures ok ==> k in m.handles && IsMut(m.handles[k]) && m.nextAlloc == old(m.nextAlloc)
  {
    HandleFact(m.State(), k);
    var h := m.handles[k];
    ok := h.form.ViewVec? || (h.form.ViewArc? && m.shareds[h.form.shared].count == 1);
    if ok {
      IntoMut(m, k);
    }
  }
}
