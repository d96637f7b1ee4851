/** `BytesMut::reserve_inner`, its callers, and the operations that join windows again. */
module BytesMutReserve {
  import opened Arithmetic
  import opened Wrappers
  import opened DataWord
  import opened Memory
  import opened Heap
  import opened BytesMut

  // ---- Reserving ----

  /** Whether there is room now, or the panic of a sum beyond a machine word. */
  datatype Outcome = Reserved(ok: bool) | Overflow

  /** The only user of an allocation may move its bytes to the front and take the whole block. */
  lemma ToFrontKeeps(w: World, k: Id, h: Handle)
    requires Inv(w) && k in w.handles && IsMut(w.handles[k]) && IsMut(h)
    requires forall j :: j in w.handles && j != k ==> !Uses(w.handles[j], w.handles[k].alloc)
    requires HandleOk(w.allocs, w.shareds, h)
    requires h.alloc == w.handles[k].alloc && h.off == 0 && h.len == w.handles[k].len
    requires forall s :: HeldBy(h, s) == HeldBy(w.handles[k], s)
    ensures var c := Contents(w.allocs, w.handles[k]);
            && |c| <= |w.allocs[h.alloc]|
            && var w' := Write(Replace(w, k, h), h.alloc, 0, c);
               Inv(w') && Abs(w'.allocs, w'.handles) == Abs(w.allocs, w.handles)
  {
    HandleFact(w, k);
    var c := Contents(w.allocs, w.handles[k]);
    ReplaceKeeps(w, k, h);
    UpdateAbs(w.allocs, w.handles, k, h);
    var w1 := Replace(w, k, h);
    WriteKeeps(w1, h.alloc, 0, c);
    WriteAbs(w1, k, 0, c);
    assert Contents(Write(w1, h.alloc, 0, c).allocs, h) == c;
  }

  /** A handle leaves its block for a new one of its own. */
  lemma RehomeKeeps(w: World, k: Id, h: Handle, mem: seq<byte>)
    requires Inv(w) && k in w.handles
    requires Solo(h) && h.alloc == w.nextAlloc && HandleOk(map[w.nextAlloc := mem], map[], h)
    ensures Inv(Place(Release(w, k), k, h, mem))
  {
    HandleFact(w, k);
    ReleaseKeeps(w, k);
    PlaceKeeps(Release(w, k), k, h, mem);
  }

  lemma SetTwice<V>(m: map<Id, V>, k: Id, c: V, d: V)
    ensures m[k := c][k := d] == m[k := d]
    ensures k in m && m[k] == d ==> m[k := d] == m
  {
  }

  lemma RemoveThenSet(bytes: map<Id, seq<byte>>, k: Id, c: seq<byte>)
    ensures (bytes - {k})[k := c] == bytes[k := c]
  {
  }

  lemma NewContents(allocs: Allocs, a: Id, mem: seq<byte>, h: Handle)
    requires h.alloc == a
    ensures Contents(allocs[a := mem], h) == Contents(map[a := mem], h)
  {
  }

  lemma RehomeAbs(w: World, k: Id, h: Handle, mem: seq<byte>)
    requires Inv(w) && k in w.handles && h.alloc == w.nextAlloc && !h.form.ViewStatic?
    ensures var w' := Place(Release(w, k), k, h, mem);
            Abs(w'.allocs, w'.handles) == Abs(w.allocs, w.handles)[k := Contents(map[w.nextAlloc := mem], h)]
  {
    ReleaseKeeps(w, k);
    ReleaseAbs(w, k);
    var r := Release(w, k);
    PlaceAbs(r, k, h, mem);
    NewContents(r.allocs, w.nextAlloc, mem, h);
    RemoveThenSet(Abs(w.allocs, w.handles), k, Contents(map[w.nextAlloc := mem], h));
  }

  /** A value moved to a new block with the same bytes. */
  lemma CopiedKeeps(w: World, k: Id, h: Handle, mem: seq<byte>)
    requires Inv(w) && k in w.handles
    requires Solo(h) && h.alloc == w.nextAlloc && HandleOk(map[w.nextAlloc := mem], map[], h)
    requires Contents(map[w.nextAlloc := mem], h) == Contents(w.allocs, w.handles[k])
    ensures var w' := Place(Release(w, k), k, h, mem);
            Inv(w') && Abs(w'.allocs, w'.handles) == Abs(w.allocs, w.handles)
  {
    RehomeKeeps(w, k, h, mem);
    RehomeAbs(w, k, h, mem);
    SetTwice(Abs(w.allocs, w.handles), k, [], Contents(w.allocs, w.handles[k]));
  }

  /** The room that `reserve_inner` can make without allocating. */
  predicate Reclaimable(w: World, k: Id, additional: nat)
    requires k in w.handles && IsMut(w.handles[k]) && HandleOk(w.allocs, w.shareds, w.handles[k])
  {
    var h := w.handles[k];
    var size := |w.allocs[h.alloc]|;
    if h.form.MutVec? then h.cap - h.len + h.off >= additional && h.off >= h.len
    else
      && h.off + h.len + additional <= USIZE_MAX && w.shareds[h.form.shared].count == 1
      && (size >= h.len + additional + h.off || (size >= h.len + additional && h.off >= h.len))
  }

  /** The sums of `reserve_inner` that leave a machine word: the new capacity, which is checked and counts only with
      permission to allocate, and for the only holder of a block that capacity plus the offset. */
  predicate Overflows(w: World, k: Id, additional: nat, allocate: bool)
    requires k in w.handles
  {
    var h := w.handles[k];
    && h.form.MutArc? && h.form.shared in w.shareds
    && if h.len + additional > USIZE_MAX then allocate
       else w.shareds[h.form.shared].count == 1 && h.off + h.len + additional > USIZE_MAX
  }

  /** No other value uses the allocation of this one. */
  ghost predicate AloneOn(w: World, k: Id)
    requires k in w.handles
  {
    forall j :: j in w.handles && j != k ==> !Uses(w.handles[j], w.handles[k].alloc)
  }

  /** A count of one says exactly that the holder is alone on the allocation. */
  lemma OneIsAlone(w: World, k: Id, s: Id)
    requires Inv(w) && k in w.handles && HeldBy(w.handles[k], s)
    ensures s in w.shareds && (w.shareds[s].count == 1 <==> AloneOn(w, k))
  {
    HandleFact(w, k);
    SharedFact(w, s);
    if w.shareds[s].count == 1 {
      OnlyHolder(w, k, s);
    } else {
      var rest := w.handles - {k};
      HoldersRemoved(w.handles, k, s);
      assert Holders(rest, s) != {};
      var j :| j in Holders(rest, s);
      HandleFact(w, j);
      assert Uses(w.handles[j], w.handles[k].alloc);
    }
  }

  /** The room of an allocation that a value which is alone on it can be given: all of it once the bytes moved to the
      front, which must not overlap themselves, or in shared kind what follows its start. */
  ghost predicate CanReuse(w: World, k: Id, additional: nat)
    requires k in w.handles && w.handles[k].alloc in w.allocs
  {
    var h := w.handles[k];
    var size := |w.allocs[h.alloc]|;
    && AloneOn(w, k)
    && (h.form.MutArc? ==> h.off + h.len + additional <= USIZE_MAX)
    && ((size >= h.len + additional && h.off >= h.len) || (h.form.MutArc? && size >= h.off + h.len + additional))
  }

  /** What `reserve_inner` can reclaim, and when its sums overflow, said of the values and the allocation alone. */
  lemma ReclaimableIff(w: World, k: Id, additional: nat, allocate: bool)
    requires Inv(w) && k in w.handles && IsMut(w.handles[k])
    ensures HandleOk(w.allocs, w.shareds, w.handles[k])
    ensures Reclaimable(w, k, additional) <==> CanReuse(w, k, additional)
    ensures var h := w.handles[k];
            Overflows(w, k, additional, allocate) <==>
              && h.form.MutArc?
              && if h.len + additional > USIZE_MAX then allocate
                 else AloneOn(w, k) && h.off + h.len + additional > USIZE_MAX
  {
    HandleFact(w, k);
    if w.handles[k].form.MutVec? {
      SoloAlone(w, k);
    } else {
      OneIsAlone(w, k, w.handles[k].form.shared);
    }
  }

  /** Were the second sum to wrap instead of panicking, the test for room would always pass, and the new window would
      leave the block: that happens exactly when the sum does not fit a machine word. */
  lemma WrappedSumOversteps(size: nat, off: nat, newCap: nat)
    requires off <= size < WORD && newCap < WORD
    ensures size >= (newCap + off) % WORD && off + newCap > size <==> newCap + off >= WORD
  {
    if newCap + off >= WORD {
      MultipleHasNoRest(WORD, 1, newCap + off - WORD);
    } else {
      MultipleHasNoRest(WORD, 0, newCap + off);
    }
  }

  /** The same bytes at the same offset of two blocks that agree on a prefix. */
  lemma SamePrefix(a: seq<byte>, b: seq<byte>, off: nat, len: nat)
    requires off + len <= |a| && off + len <= |b| && a[..off + len] == b[..off + len]
    ensures a[off..off + len] == b[off..off + len]
  {
    assert a[off..off + len] == a[..off + len][off..];
    assert b[off..off + len] == b[..off + len][off..];
  }

  /** A vector-kind handle whose block is replaced by one that agrees on its bytes. */
  lemma GrownVecKeeps(w: World, k: Id, h': Handle, mem: seq<byte>)
    requires Inv(w) && k in w.handles && w.handles[k].form.MutVec?
    requires HandleOk(w.allocs, w.shareds, w.handles[k])
    requires var h := w.handles[k];
             && h.off + h.len <= |mem| && mem[..h.off + h.len] == w.allocs[h.alloc][..h.off + h.len]
             && h' == h.(alloc := w.nextAlloc, cap := |mem| - h.off)
    ensures var w' := Place(Release(w, k), k, h', mem);
            Inv(w') && Abs(w'.allocs, w'.handles) == Abs(w.allocs, w.handles)
  {
    var h := w.handles[k];
    SamePrefix(mem, w.allocs[h.alloc], h.off, h.len);
    CopiedKeeps(w, k, h', mem);
  }

  lemma FrontVecKeeps(w: World, k: Id, h': Handle)
    requires Inv(w) && k in w.handles && w.handles[k].form.MutVec?
    requires HandleOk(w.allocs, w.shareds, w.handles[k])
    requires var h := w.handles[k];
             h' == h.(off := 0, form := MutVec(SetVecPos(h.form.word, 0)), cap := h.cap + h.off)
    ensures var c := Contents(w.allocs, w.handles[k]);
            && |c| <= |w.allocs[h'.alloc]|
            && var w' := Write(Replace(w, k, h'), h'.alloc, 0, c);
               Inv(w') && Abs(w'.allocs, w'.handles) == Abs(w.allocs, w.handles)
  {
    SoloAlone(w, k);
    ToFrontKeeps(w, k, h');
  }

  /** `Vec::reserve` on the rebuilt vector of a vector-kind handle. */
  method GrowVec(m: Arena, k: Id, additional: nat)
    requires m.Valid() && k in m.handles && m.handles[k].form.MutVec?
    requires HandleOk(m.allocs, m.shareds, m.handles[k])
    modifies m`handles, m`allocs, m`nextAlloc, m`freed
    ensures m.Valid() && m.Bytes() == old(m.Bytes())
    ensures k in m.handles && m.handles == old(m.handles)[k := m.handles[k]]
    ensures m.handles[k].form == old(m.handles[k].form) && m.handles[k].len == old(m.handles[k].len)
    ensures m.handles[k].cap - m.handles[k].len >= additional
    ensures m.nextAlloc == old(m.nextAlloc) <==> old(m.handles[k].cap - m.handles[k].len) >= additional
  {
    ghost var w := m.State();
    var h := m.handles[k];
    var offset := VecPos(h.form.word);
    AllocIsNew(w);
    var b, cap := m.VecReserve(h.alloc, h.len + offset, h.cap + offset, additional);
    var h' := h.(alloc := b, cap := cap - offset);
    m.handles := m.handles[k := h'];
    if b == h.alloc {
      assert m.handles == w.handles;
    } else {
      GrownVecKeeps(w, k, h', m.allocs[b]);
      assert m.State() == Place(Release(w, k), k, h', m.allocs[b]);
    }
  }

  /** The vector-kind half of `reserve_inner`. */
  method ReserveVec(m: Arena, k: Id, additional: nat, allocate: bool) returns (ok: bool)
    requires m.Valid() && k in m.handles && m.handles[k].form.MutVec?
    requires HandleOk(m.allocs, m.shareds, m.handles[k])
    modifies m`handles, m`allocs, m`nextAlloc, m`freed
    ensures m.Valid() && m.Bytes() == old(m.Bytes())
    ensures !ok ==> !allocate && m.State() == old(m.State())
    ensures !allocate ==> (ok <==> Reclaimable(old(m.State()), k, additional))
    ensures !allocate ==>
              m.allocs.Keys == old(m.allocs.Keys) && m.nextAlloc == old(m.nextAlloc) && m.freed == old(m.freed)
    ensures k in m.handles && m.handles == old(m.handles)[k := m.handles[k]] && m.handles[k].form.MutVec?
    ensures m.handles[k].len == old(m.handles[k].len)
    ensures Class(m.handles[k].form.word) == Class(old(m.handles[k].form.word))
    ensures ok ==> m.handles[k].cap - m.handles[k].len >= additional
    ensures ok ==> (m.nextAlloc == old(m.nextAlloc) <==>
                    || Reclaimable(old(m.State()), k, additional)
                    || old(m.handles[k].cap - m.handles[k].len) >= additional)
    ensures Reclaimable(old(m.State()), k, additional) ==>
              m.allocs.Keys == old(m.allocs.Keys) && m.freed == old(m.freed)
  {
    ghost var w := m.State();
    var h := m.handles[k];
    var offset := VecPos(h.form.word);
    if h.cap - h.len + offset >= additional && offset >= h.len {
      var base := h.off - offset;
      var h' := h.(off := base, form := MutVec(SetVecPos(h.form.word, 0)), cap := h.cap + offset);
      FrontVecKeeps(w, k, h');
      m.CopyNonoverlapping(h.alloc, h.off, h.alloc, base, h.len);
      m.handles := m.handles[k := h'];
      assert m.State() == Write(Replace(w, k, h'), h.alloc, 0, Contents(w.allocs, h));
      return true;
    }
    if !allocate {
      return false;
    }
    GrowVec(m, k, additional);
    return true;
  }

  /** The only holder may take any part of its block that starts where it does. */
  lemma WidenKeeps(w: World, k: Id, s: Id, h: Handle)
    requires Inv(w) && k in w.handles && w.handles[k].form == MutArc(s)
    requires s in w.shareds && w.shareds[s].count == 1
    requires h == w.handles[k].(cap := h.cap) && HandleOk(w.allocs, w.shareds, h)
    ensures Inv(Replace(w, k, h)) && Abs(w.allocs, w.handles[k := h]) == Abs(w.allocs, w.handles)
  {
    OnlyHolder(w, k, s);
    ReplaceKeeps(w, k, h);
    UpdateAbs(w.allocs, w.handles, k, h);
  }

  lemma FrontArcKeeps(w: World, k: Id, s: Id, h: Handle)
    requires Inv(w) && k in w.handles && w.handles[k].form == MutArc(s)
    requires s in w.shareds && w.shareds[s].count == 1
    requires h == w.handles[k].(off := 0, cap := h.cap) && HandleOk(w.allocs, w.shareds, h)
    ensures var c := Contents(w.allocs, w.handles[k]);
            && |c| <= |w.allocs[h.alloc]|
            && var w' := Write(Replace(w, k, h), h.alloc, 0, c);
               Inv(w') && Abs(w'.allocs, w'.handles) == Abs(w.allocs, w.handles)
  {
    OnlyHolder(w, k, s);
    ToFrontKeeps(w, k, h);
  }

  /** The state after the only holder's vector moved to a new block. */
  function Regrown(w: World, k: Id, s: Id, h: Handle, mem: seq<byte>, origin: Origin): World
    requires k in w.handles && HandlesOk(w) && SharedsOk(w)
  {
    var temp := Handle(VecForm, w.nextAlloc, 0, 0, |mem|);
    Promote(Place(Release(w, k), k, temp, mem), k, s, h, origin)
  }

  lemma RegrownKeeps(w: World, k: Id, s: Id, h: Handle, mem: seq<byte>, origin: Origin)
    requires Inv(w) && k in w.handles && w.handles[k].form == MutArc(s)
    requires s in w.shareds && w.shareds[s].count == 1 && s < w.nextId
    requires origin.FromMut? && OriginOk(mem, origin)
    requires h.form == MutArc(s) && h.alloc == w.nextAlloc && h.len <= h.cap && h.off + h.cap <= |mem|
    ensures Inv(Regrown(w, k, s, h, mem, origin))
  {
    var temp := Handle(VecForm, w.nextAlloc, 0, 0, |mem|);
    HandleFact(w, k);
    RehomeKeeps(w, k, temp, mem);
    PromoteKeeps(Place(Release(w, k), k, temp, mem), k, s, h, origin);
  }

  lemma RegrownAbs(w: World, k: Id, s: Id, h: Handle, mem: seq<byte>, origin: Origin)
    requires Inv(w) && k in w.handles && h.alloc == w.nextAlloc && !h.form.ViewStatic?
    ensures var w' := Regrown(w, k, s, h, mem, origin);
            Abs(w'.allocs, w'.handles) == Abs(w.allocs, w.handles)[k := Contents(map[w.nextAlloc := mem], h)]
  {
    var temp := Handle(VecForm, w.nextAlloc, 0, 0, |mem|);
    var r := Release(w, k);
    RehomeAbs(w, k, h, mem);
    assert r.handles[k := temp][k := h] == r.handles[k := h];
  }

  lemma RegrownFields(w: World, k: Id, s: Id, h: Handle, mem: seq<byte>, origin: Origin)
    requires HandlesOk(w) && SharedsOk(w) && k in w.handles && w.handles[k].form == MutArc(s)
    requires s in w.shareds && w.shareds[s].count == 1
    ensures var a := w.handles[k].alloc;
            Regrown(w, k, s, h, mem, origin)
            == World((w.allocs - {a})[w.nextAlloc := mem], w.shareds[s := Shared(h.alloc, 1, origin)],
                     w.handles[k := h], w.nextAlloc + 1, w.nextId, w.freed + multiset{a})
  {
    HandleFact(w, k);
  }

  /** The only holder's bytes are the same in the new block. */
  lemma RegrownSame(w: World, k: Id, s: Id, h: Handle, mem: seq<byte>, origin: Origin)
    requires Inv(w) && k in w.handles && w.handles[k].form == MutArc(s) && HandleOk(w.allocs, w.shareds, w.handles[k])
    requires w.shareds[s].count == 1 && s < w.nextId && origin.FromMut? && OriginOk(mem, origin)
    requires h == w.handles[k].(alloc := w.nextAlloc, cap := h.cap) && h.len <= h.cap && h.off + h.cap <= |mem|
    requires mem[..h.off + h.len] == w.allocs[w.handles[k].alloc][..h.off + h.len]
    ensures var w' := Regrown(w, k, s, h, mem, origin);
            Inv(w') && Abs(w'.allocs, w'.handles) == Abs(w.allocs, w.handles)
  {
    var g := w.handles[k];
    SamePrefix(mem, w.allocs[g.alloc], h.off, h.len);
    var c := Contents(w.allocs, g);
    assert Contents(map[w.nextAlloc := mem], h) == c;
    RegrownKeeps(w, k, s, h, mem, origin);
    RegrownAbs(w, k, s, h, mem, origin);
    SetTwice(Abs(w.allocs, w.handles), k, c, c);
  }

  /** A capacity shifted left by one bit in a machine word. */
  function Doubled(cap: nat): nat {
    cap * 2 % WORD
  }

  /** The last resort of the only holder: its vector grows, at least doubling. */
  method GrowUnique(m: Arena, k: Id, s: Id, needed: nat)
    requires m.Valid() && k in m.handles && m.handles[k].form == MutArc(s)
    requires HandleOk(m.allocs, m.shareds, m.handles[k]) && m.shareds[s].count == 1
    requires m.handles[k].len <= needed && |m.allocs[m.handles[k].alloc]| < m.handles[k].off + needed
    modifies m`handles, m`shareds, m`allocs, m`nextAlloc, m`freed
    ensures m.Valid() && m.Bytes() == old(m.Bytes())
    ensures k in m.handles && m.handles == old(m.handles)[k := m.handles[k]] && m.handles[k].form == MutArc(s)
    ensures s in m.shareds && m.shareds == old(m.shareds)[s := m.shareds[s]]
    ensures SameClass(old(m.shareds[s].origin), m.shareds[s].origin)
    ensures m.handles[k].len == old(m.handles[k].len) && m.handles[k].cap >= needed
    ensures m.handles[k].off + m.handles[k].cap >= Doubled(|old(m.allocs[m.handles[k].alloc])|)
    ensures m.nextAlloc == old(m.nextAlloc) + 1
  {
    ghost var w := m.State();
    SharedFact(w, s);
    var h := m.handles[k];
    var offset := h.off;
    var vCap := m.shareds[s].origin.cap;
    var newCap := Max(Doubled(vCap), needed + offset);
    AllocIsNew(w);
    var b, cap := m.VecReserve(h.alloc, offset + h.len, vCap, newCap - (offset + h.len));
    var origin := FromMut(offset + h.len, cap, m.shareds[s].origin.repr);
    var h' := h.(alloc := b, cap := cap - offset);
    m.shareds := m.shareds[s := m.shareds[s].(alloc := b, origin := origin)];
    m.handles := m.handles[k := h'];
    ghost var mem := m.allocs[b];
    RegrownSame(w, k, s, h', mem, origin);
    RegrownFields(w, k, s, h', mem, origin);
    assert m.State() == Regrown(w, k, s, h', mem, origin);
  }

  /** The half of `reserve_inner` for the only holder of a shared block. */
  method ReserveUnique(m: Arena, k: Id, s: Id, additional: nat, allocate: bool) returns (r: Outcome)
    requires m.Valid() && k in m.handles && m.handles[k].form == MutArc(s)
    requires HandleOk(m.allocs, m.shareds, m.handles[k]) && m.shareds[s].count == 1
    requires m.handles[k].len + additional <= USIZE_MAX
    modifies m`handles, m`shareds, m`allocs, m`nextAlloc, m`freed
    ensures m.Valid() && m.Bytes() == old(m.Bytes())
    ensures r.Overflow? <==> old(m.handles[k].off + m.handles[k].len) + additional > USIZE_MAX
    ensures r != Reserved(true) ==> m.State() == old(m.State())
    ensures r == Reserved(false) ==> !allocate
    ensures !allocate ==> (r == Reserved(true) <==> Reclaimable(old(m.State()), k, additional))
    ensures !allocate ==>
              m.allocs.Keys == old(m.allocs.Keys) && m.nextAlloc == old(m.nextAlloc) && m.freed == old(m.freed)
    ensures k in m.handles && m.handles == old(m.handles)[k := m.handles[k]] && m.handles[k].form == MutArc(s)
    ensures s in m.shareds && m.shareds == old(m.shareds)[s := m.shareds[s]]
    ensures SameClass(old(m.shareds[s].origin), m.shareds[s].origin)
    ensures m.handles[k].len == old(m.handles[k].len)
    ensures r == Reserved(true) ==> m.handles[k].cap - m.handles[k].len >= additional
    ensures m.nextAlloc == old(m.nextAlloc) <==> r != Reserved(true) || Reclaimable(old(m.State()), k, additional)
    ensures Reclaimable(old(m.State()), k, additional) ==>
              m.allocs.Keys == old(m.allocs.Keys) && m.freed == old(m.freed)
  {
    ghost var w := m.State();
    SharedFact(w, s);
    var h := m.handles[k];
    var newCap := h.len + additional;
    var vCap := m.shareds[s].origin.cap;
    var offset := h.off;
    if newCap + offset > USIZE_MAX {
      return Overflow;
    }
    if vCap >= newCap + offset {
      WidenKeeps(w, k, s, h.(cap := newCap));
      m.handles := m.handles[k := h.(cap := newCap)];
      return Reserved(true);
    }
    if vCap >= newCap && offset >= h.len {
      FrontArcKeeps(w, k, s, h.(off := 0, cap := vCap));
      m.CopyNonoverlapping(h.alloc, offset, h.alloc, 0, h.len);
      m.handles := m.handles[k := h.(off := 0, cap := vCap)];
      assert m.State() == Write(Replace(w, k, h.(off := 0, cap := vCap)), h.alloc, 0, Contents(w.allocs, h));
      return Reserved(true);
    }
    if !allocate {
      return Reserved(false);
    }
    GrowUnique(m, k, s, newCap);
    return Reserved(true);
  }

  /** The state after a holder that is not alone left for a new block. */
  function Left(w: World, k: Id, s: Id, h: Handle, mem: seq<byte>): World
    requires s in w.shareds && w.shareds[s].count > 0
  {
    World(w.allocs[w.nextAlloc := mem], w.shareds[s := OneLess(w.shareds[s])], w.handles[k := h], w.nextAlloc + 1,
          w.nextId, w.freed)
  }

  lemma LeftKeeps(w: World, k: Id, s: Id, h: Handle, mem: seq<byte>)
    requires Inv(w) && k in w.handles && HeldBy(w.handles[k], s) && s in w.shareds && w.shareds[s].count > 1
    requires Solo(h) && h.alloc == w.nextAlloc && HandleOk(map[w.nextAlloc := mem], map[], h)
    requires Contents(map[w.nextAlloc := mem], h) == Contents(w.allocs, w.handles[k])
    ensures var w' := Left(w, k, s, h, mem);
            Inv(w') && Abs(w'.allocs, w'.handles) == Abs(w.allocs, w.handles) && Evolves(w, w')
  {
    HandleFact(w, k);
    CopiedKeeps(w, k, h, mem);
    assert Place(Release(w, k), k, h, mem) == Left(w, k, s, h, mem);
  }

  lemma CopiedToFront(junk: seq<byte>, src: seq<byte>)
    requires |src| <= |junk|
    ensures Slice(Overwrite(junk, 0, src), 0, |src|) == src
  {
  }

  /** A holder that is not alone copies its bytes to a block of its own, at least as large as the
      class of the old one, and lets go of the old block. */
  method Detach(m: Arena, k: Id, s: Id, needed: nat)
    requires m.Valid() && k in m.handles && m.handles[k].form == MutArc(s)
    requires HandleOk(m.allocs, m.shareds, m.handles[k]) && m.shareds[s].count != 1
    requires m.handles[k].len <= needed
    modifies m`handles, m`shareds, m`allocs, m`nextAlloc, m`freed
    ensures m.Valid() && m.Bytes() == old(m.Bytes())
    ensures k in m.handles && m.handles == old(m.handles)[k := m.handles[k]] && m.handles[k].form.MutVec?
    ensures Class(m.handles[k].form.word) == old(m.shareds[s].origin.repr)
    ensures m.handles[k].len == old(m.handles[k].len) && m.handles[k].cap >= needed
    ensures m.handles[k].cap >= OriginalCapacityFromRepr(Class(m.handles[k].form.word))
    ensures m.freed == old(m.freed) && m.nextAlloc == old(m.nextAlloc) + 1
    ensures s in old(m.shareds)
    ensures old(m.shareds[s].count) > 0
    ensures m.shareds == old(m.shareds)[s := OneLess(old(m.shareds[s]))]
  {
    ghost var w := m.State();
    SharedFact(w, s);
    AllocIsNew(w);
    var h := m.handles[k];
    var repr := m.shareds[s].origin.repr;
    var newCap := Max(needed, OriginalCapacityFromRepr(repr));
    var b, cap := m.Alloc(newCap);
    ghost var junk := m.allocs[b];
    CopiedToFront(junk, Contents(w.allocs, h));
    m.CopyNonoverlapping(h.alloc, h.off, b, 0, h.len);
    m.ReleaseShared(s);
    var h' := Handle(MutVec(NewWord(repr)), b, 0, h.len, cap);
    m.handles := m.handles[k := h'];
    ghost var mem := m.allocs[b];
    LeftKeeps(w, k, s, h', mem);
    SetTwice(w.allocs, b, junk, mem);
    assert m.State() == Left(w, k, s, h', mem);
  }

  /** `reserve_inner`. With success there is room for `additional` bytes, every value has its bytes, no
      other handle moved and the capacity class survives. Without permission to allocate it succeeds
      exactly when the room can be reclaimed, and then it neither allocates nor frees. */
  method ReserveInner(m: Arena, k: Id, additional: nat, allocate: bool) returns (r: Outcome)
    requires m.Valid() && k in m.handles && IsMut(m.handles[k])
    modifies m`handles, m`shareds, m`allocs, m`nextAlloc, m`freed
    ensures m.Valid() && m.Bytes() == old(m.Bytes())
    ensures HandleOk(old(m.allocs), old(m.shareds), old(m.handles[k]))
    ensures r.Overflow? <==> Overflows(old(m.State()), k, additional, allocate)
    ensures r != Reserved(true) ==> m.State() == old(m.State())
    ensures r == Reserved(false) ==> !allocate
    ensures !allocate ==> (r == Reserved(true) <==> Reclaimable(old(m.State()), k, additional))
    ensures !allocate ==>
              m.allocs.Keys == old(m.allocs.Keys) && m.nextAlloc == old(m.nextAlloc) && m.freed == old(m.freed)
    ensures k in m.handles && IsMut(m.handles[k]) && m.handles == old(m.handles)[k := m.handles[k]]
    ensures HandleOk(m.allocs, m.shareds, m.handles[k]) && ClassOf(m.State(), k) == ClassOf(old(m.State()), k)
    ensures Evolves(old(m.State()), m.State())
    ensures m.handles[k].len == old(m.handles[k].len)
    ensures r == Reserved(true) ==> m.handles[k].cap - m.handles[k].len >= additional
    ensures old(m.handles[k].cap - m.handles[k].len) < additional && r == Reserved(true) ==>
              (m.nextAlloc == old(m.nextAlloc) <==> Reclaimable(old(m.State()), k, additional))
    ensures CanReuse(old(m.State()), k, additional) ==>
              && r == Reserved(true) && m.nextAlloc == old(m.nextAlloc)
              && m.allocs.Keys == old(m.allocs.Keys) && m.freed == old(m.freed)
  {
    ReclaimableIff(m.State(), k, additional, allocate);
    if m.handles[k].form.MutVec? {
      var ok := ReserveVec(m, k, additional, allocate);
      HandleFact(m.State(), k);
      return Reserved(ok);
    }
    r := ReserveShared(m, k, additional, allocate);
  }

  /** The half of `reserve_inner` for a value in shared kind. */
  method ReserveShared(m: Arena, k: Id, additional: nat, allocate: bool) returns (r: Outcome)
    requires m.Valid() && k in m.handles && m.handles[k].form.MutArc?
    requires HandleOk(m.allocs, m.shareds, m.handles[k])
    modifies m`handles, m`shareds, m`allocs, m`nextAlloc, m`freed
    ensures m.Valid() && m.Bytes() == old(m.Bytes())
    ensures r.Overflow? <==> Overflows(old(m.State()), k, additional, allocate)
    ensures r != Reserved(true) ==> m.State() == old(m.State())
    ensures r == Reserved(false) ==> !allocate
    ensures !allocate ==> (r == Reserved(true) <==> Reclaimable(old(m.State()), k, additional))
    ensures !allocate ==>
              m.allocs.Keys == old(m.allocs.Keys) && m.nextAlloc == old(m.nextAlloc) && m.freed == old(m.freed)
    ensures k in m.handles && IsMut(m.handles[k]) && m.handles == old(m.handles)[k := m.handles[k]]
    ensures HandleOk(m.allocs, m.shareds, m.handles[k]) && ClassOf(m.State(), k) == ClassOf(old(m.State()), k)
    ensures Evolves(old(m.State()), m.State())
    ensures m.handles[k].len == old(m.handles[k].len)
    ensures r == Reserved(true) ==> m.handles[k].cap - m.handles[k].len >= additional
    ensures r == Reserved(true) ==> (m.nextAlloc == old(m.nextAlloc) <==> Reclaimable(old(m.State()), k, additional))
    ensures Reclaimable(old(m.State()), k, additional) ==>
              m.allocs.Keys == old(m.allocs.Keys) && m.freed == old(m.freed)
  {
    var h := m.handles[k];
    var s := h.form.shared;
    if h.len + additional > USIZE_MAX {
      return if allocate then Overflow else Reserved(false);
    }
    if m.shareds[s].count == 1 {
      r := ReserveUnique(m, k, s, additional, allocate);
      HandleFact(m.State(), k);
      return;
    }
    if !allocate {
      return Reserved(false);
    }
    Detach(m, k, s, h.len + additional);
    HandleFact(m.State(), k);
    return Reserved(true);
  }

  /** `reserve`: nothing happens when there is room; otherwise there is room afterwards, in the same allocation when it
      can be reused, unless a sum overflows. */
  method Reserve(m: Arena, k: Id, additional: nat) returns (r: Outcome)
    requires m.Valid() && k in m.handles && IsMut(m.handles[k])
    modifies m`handles, m`shareds, m`allocs, m`nextAlloc, m`freed
    ensures m.Valid() && m.Bytes() == old(m.Bytes())
    ensures HandleOk(old(m.allocs), old(m.shareds), old(m.handles[k]))
    ensures k in m.handles && IsMut(m.handles[k]) && m.handles == old(m.handles)[k := m.handles[k]]
    ensures ClassOf(m.State(), k) == ClassOf(old(m.State()), k) && Evolves(old(m.State()), m.State())
    ensures var room := old(m.handles[k].cap - m.handles[k].len);
            && (r == if additional > room && Overflows(old(m.State()), k, additional, true) then Overflow
                     else Reserved(true))
            && (additional <= room || r.Overflow? ==> m.State() == old(m.State()))
            && (r == Reserved(true) ==>
                (m.nextAlloc == old(m.nextAlloc) <==> additional <= room || CanReuse(old(m.State()), k, additional)))
    ensures r == Reserved(true) ==> m.handles[k].cap - m.handles[k].len >= additional
  {
    ReclaimableIff(m.State(), k, additional, true);
    r := Reserved(true);
    if additional > m.handles[k].cap - m.handles[k].len {
      r := ReserveInner(m, k, additional, true);
    }
  }

  /** `try_reclaim` as documented: it never allocates, and succeeds exactly when there is room already
      or room can be reclaimed. */
  method TryReclaim(m: Arena, k: Id, additional: nat) returns (r: Outcome)
    requires m.Valid() && k in m.handles && IsMut(m.handles[k])
    modifies m`handles, m`shareds, m`allocs, m`nextAlloc, m`freed
    ensures m.Valid() && m.Bytes() == old(m.Bytes())
    ensures m.allocs.Keys == old(m.allocs.Keys) && m.nextAlloc == old(m.nextAlloc) && m.freed == old(m.freed)
    ensures HandleOk(old(m.allocs), old(m.shareds), old(m.handles[k])) && k in m.handles
    ensures IsMut(m.handles[k]) && m.handles == old(m.handles)[k := m.handles[k]]
    ensures ClassOf(m.State(), k) == ClassOf(old(m.State()), k) && Evolves(old(m.State()), m.State())
    ensures var room := old(m.handles[k].cap - m.handles[k].len);
            && (r.Overflow? <==> additional > room && Overflows(old(m.State()), k, additional, false))
            && (r == Reserved(true) <==> additional <= room || CanReuse(old(m.State()), k, additional))
    ensures r == Reserved(true) ==> m.handles[k].cap - m.handles[k].len >= additional
    ensures r != Reserved(true) || additional <= old(m.handles[k].cap - m.handles[k].len) ==>
              m.State() == old(m.State())
  {
    ReclaimableIff(m.State(), k, additional, false);
    if additional <= m.handles[k].cap - m.handles[k].len {
      return Reserved(true);
    }
    r := ReserveInner(m, k, additional, false);
  }

  /** `try_reclaim` as written passes `true`: it always succeeds or panics, and keeps the promise not to
      allocate exactly when the documented one would have succeeded. */
  method TryReclaimAsWritten(m: Arena, k: Id, additional: nat) returns (r: Outcome)
    requires m.Valid() && k in m.handles && IsMut(m.handles[k])
    modifies m`handles, m`shareds, m`allocs, m`nextAlloc, m`freed
    ensures m.Valid() && m.Bytes() == old(m.Bytes())
    ensures HandleOk(old(m.allocs), old(m.shareds), old(m.handles[k])) && k in m.handles
    ensures r != Reserved(false)
    ensures r.Overflow? <==>
              && additional > old(m.handles[k].cap - m.handles[k].len)
              && Overflows(old(m.State()), k, additional, true)
    ensures r.Overflow? ==> m.State() == old(m.State())
    ensures r == Reserved(true) ==>
              && m.handles[k].cap - m.handles[k].len >= additional
              && (m.nextAlloc == old(m.nextAlloc) <==>
                  additional <= old(m.handles[k].cap - m.handles[k].len) || CanReuse(old(m.State()), k, additional))
  {
    ReclaimableIff(m.State(), k, additional, true);
    if additional <= m.handles[k].cap - m.handles[k].len {
      return Reserved(true);
    }
    r := ReserveInner(m, k, additional, true);
  }

  /** A full vector of one byte: asked for room for one more, it allocates, where the documentation promises a
      refusal. */
  lemma FullVecCannotReclaim()
    ensures var w := World(map[0 := [0]], map[], map[0 := Handle(MutVec(NewWord(0)), 0, 0, 1, 1)], 1, 1, multiset{});
            Inv(w) && !CanReuse(w, 0, 1) && !Overflows(w, 0, 1, true)
  {
  }

  // ---- Classes across steps ----

  /** A value that keeps its form keeps its capacity class, whatever happens to other values. */
  lemma ClassKept(w: World, w': World, k: Id)
    requires HandlesOk(w) && SharedsOk(w) && HandlesOk(w') && Evolves(w, w')
    requires k in w.handles && k in w'.handles && w'.handles[k].form == w.handles[k].form
    ensures ClassOf(w', k) == ClassOf(w, k)
  {
    HandleFact(w, k);
    HandleFact(w', k);
    if w.handles[k].form.MutArc? {
      SharedFact(w, w.handles[k].form.shared);
    }
  }

  lemma EvolvesTwice(w: World, w1: World, w2: World)
    requires Evolves(w, w1) && Evolves(w1, w2)
    ensures Evolves(w, w2)
  {
  }

  // ---- Dropping ----

  /** The allocation goes away exactly with its last user. */
  lemma LastUserFrees(w: World, k: Id)
    requires Inv(w) && k in w.handles && !w.handles[k].form.ViewStatic?
    ensures w.handles[k].alloc in w.allocs
    ensures w.handles[k].alloc !in Release(w, k).allocs
       <==> forall j :: j in w.handles - {k} ==> !Uses((w.handles - {k})[j], w.handles[k].alloc)
  {
    HandleFact(w, k);
    var h := w.handles[k];
    if Solo(h) {
      SoloAlone(w, k);
    } else {
      var s := h.form.shared;
      SharedFact(w, s);
      if w.shareds[s].count == 1 {
        OnlyHolder(w, k, s);
      } else {
        HoldersRemoved(w.handles, k, s);
        assert Holders(w.handles - {k}, s) != {};
        var j :| j in Holders(w.handles - {k}, s);
        HandleFact(w, j);
        assert Uses((w.handles - {k})[j], h.alloc);
      }
    }
  }

  /** `Drop`: every other value keeps its bytes, and the allocation is freed, with the size it was
      allocated with, exactly when no other value uses it. */
  method Drop(m: Arena, k: Id)
    requires m.Valid() && k in m.handles && IsMut(m.handles[k])
    modifies m`handles, m`shareds, m`allocs, m`freed
    ensures m.Valid() && m.Bytes() == old(m.Bytes()) - {k}
    ensures m.handles == old(m.handles) - {k}
    ensures m.State() == Release(old(m.State()), k) && Evolves(old(m.State()), m.State())
    ensures var a := old(m.handles[k].alloc);
            && a in old(m.allocs)
            && (a !in m.allocs <==> forall j :: j in m.handles ==> !Uses(m.handles[j], a))
  {
    ghost var w := m.State();
    HandleFact(w, k);
    ReleaseKeeps(w, k);
    ReleaseAbs(w, k);
    ReleaseEvolves(w, k);
    LastUserFrees(w, k);
    var h := m.handles[k];
    if h.form.MutVec? {
      var offset := VecPos(h.form.word);
      m.Dealloc(h.alloc, h.cap + offset);
    } else {
      SharedFact(w, h.form.shared);
      m.ReleaseShared(h.form.shared);
    }
    m.handles := m.handles - {k};
    assert m.State() == Release(w, k);
  }

  // ---- Writing ----

  lemma OverwriteAfter(mem: seq<byte>, off: nat, len: nat, src: seq<byte>)
    requires off + len + |src| <= |mem|
    ensures Slice(Overwrite(mem, off + len, src), off, off + len + |src|) == Slice(mem, off, off + len) + src
  {
  }

  /** One byte of a string replaced. */
  function SetByte(c: seq<byte>, i: nat, value: byte): seq<byte> {
    TakeTo(c, i) + [value] + DropTo(c, i + 1)
  }

  lemma OverwriteInside(mem: seq<byte>, off: nat, len: nat, i: nat, value: byte)
    requires off + len <= |mem| && i < len
    ensures Slice(Overwrite(mem, off + i, [value]), off, off + len) == SetByte(Slice(mem, off, off + len), i, value)
  {
  }

  /** Bytes written right after the contents, into spare capacity. */
  lemma AppendKeeps(w: World, k: Id, src: seq<byte>, at: nat, h': Handle)
    requires Inv(w) && k in w.handles && IsMut(w.handles[k])
    requires HandleOk(w.allocs, w.shareds, w.handles[k]) && at == w.handles[k].off + w.handles[k].len
    requires h' == w.handles[k].(len := w.handles[k].len + |src|) && h'.len <= h'.cap
    ensures var w' := Replace(Write(w, h'.alloc, at, src), k, h');
            && Inv(w')
            && Abs(w'.allocs, w'.handles) == Abs(w.allocs, w.handles)[k := Contents(w.allocs, w.handles[k]) + src]
  {
    WriteKeeps(w, h'.alloc, at, src);
    var w1 := Write(w, h'.alloc, at, src);
    HandleFact(w1, k);
    ShrinkKeeps(w1, k, h');
    AppendAbs(w, k, src, at, h');
  }

  lemma AppendContents(allocs: Allocs, h: Handle, src: seq<byte>, at: nat, h': Handle)
    requires IsMut(h) && h.alloc in allocs && at == h.off + h.len && at + |src| <= |allocs[h.alloc]|
    requires h' == h.(len := h.len + |src|)
    ensures var mem := Overwrite(allocs[h.alloc], at, src);
            Contents(allocs[h.alloc := mem], h') == Contents(allocs, h) + src
  {
    OverwriteAfter(allocs[h.alloc], h.off, h.len, src);
  }

  lemma AppendAbs(w: World, k: Id, src: seq<byte>, at: nat, h': Handle)
    requires Inv(w) && k in w.handles && IsMut(w.handles[k])
    requires HandleOk(w.allocs, w.shareds, w.handles[k]) && at == w.handles[k].off + w.handles[k].len
    requires h' == w.handles[k].(len := w.handles[k].len + |src|) && h'.len <= h'.cap
    ensures var w1 := Write(w, h'.alloc, at, src);
            Abs(w1.allocs, w.handles[k := h']) ==
            Abs(w.allocs, w.handles)[k := Contents(w.allocs, w.handles[k]) + src]
  {
    var h := w.handles[k];
    WriteAbs(w, k, at, src);
    AppendContents(w.allocs, h, src, at, h');
    var allocs := Write(w, h.alloc, at, src).allocs;
    UpdateTwice(allocs, w.handles, k, h', Abs(w.allocs, w.handles), Contents(allocs, h), Contents(w.allocs, h) + src);
  }

  /** A handle updated after its bytes changed. */
  lemma UpdateTwice(allocs: Allocs, handles: Handles, k: Id, h: Handle, bytes: map<Id, seq<byte>>, c: seq<byte>,
                    d: seq<byte>)
    requires Abs(allocs, handles) == bytes[k := c] && Contents(allocs, h) == d
    ensures Abs(allocs, handles[k := h]) == bytes[k := d]
  {
    UpdateAbs(allocs, handles, k, h);
    SetTwice(bytes, k, c, d);
  }

  lemma StoreContents(allocs: Allocs, h: Handle, i: nat, value: byte, at: nat)
    requires IsMut(h) && h.alloc in allocs && h.off + h.len <= |allocs[h.alloc]| && i < h.len && at == h.off + i
    ensures var mem := Overwrite(allocs[h.alloc], at, [value]);
            Contents(allocs[h.alloc := mem], h) == SetByte(Contents(allocs, h), i, value)
  {
    OverwriteInside(allocs[h.alloc], h.off, h.len, i, value);
  }

  lemma StoreAbs(w: World, k: Id, i: nat, value: byte, at: nat)
    requires Inv(w) && k in w.handles && IsMut(w.handles[k]) && i < w.handles[k].len && at == w.handles[k].off + i
    requires HandleOk(w.allocs, w.shareds, w.handles[k])
    ensures var h := w.handles[k];
            Abs(Write(w, h.alloc, at, [value]).allocs, w.handles) ==
            Abs(w.allocs, w.handles)[k := SetByte(Contents(w.allocs, h), i, value)]
  {
    StoreContents(w.allocs, w.handles[k], i, value, at);
    WriteAbs(w, k, at, [value]);
  }

  /** The copy into spare capacity, and `advance_mut`. */
  method Append(m: Arena, k: Id, src: seq<byte>)
    requires m.Valid() && k in m.handles && IsMut(m.handles[k])
    requires m.handles[k].len + |src| <= m.handles[k].cap
    modifies m`handles, m`allocs
    ensures m.Valid() && m.Bytes() == old(m.Bytes())[k := old(m.Bytes()[k]) + src]
    ensures m.handles == old(m.handles)[k := old(m.handles[k]).(len := old(m.handles[k].len) + |src|)]
  {
    ghost var w := m.State();
    HandleFact(w, k);
    var h := m.handles[k];
    var at, h' := h.off + h.len, h.(len := h.len + |src|);
    AppendKeeps(w, k, src, at, h');
    m.allocs := m.allocs[h.alloc := Overwrite(m.allocs[h.alloc], at, src)];
    m.handles := m.handles[k := h'];
    assert m.State() == Replace(Write(w, h.alloc, at, src), k, h');
  }

  /** Whether appending so many bytes panics: they need room, and making it overflows. */
  predicate ExtendPanics(w: World, k: Id, n: nat)
    requires k in w.handles
  {
    w.handles[k].len + n > w.handles[k].cap && Overflows(w, k, n, true)
  }

  /** `extend_from_slice`: the bytes are appended, nobody else notices, and the capacity class survives.  It panics
      exactly when the room it needs overflows, and then nothing changed. */
  method ExtendFromSlice(m: Arena, k: Id, src: seq<byte>) returns (ok: bool)
    requires m.Valid() && k in m.handles && IsMut(m.handles[k])
    modifies m`handles, m`shareds, m`allocs, m`nextAlloc, m`freed
    ensures m.Valid() && (ok <==> !ExtendPanics(old(m.State()), k, |src|))
    ensures !ok ==> m.State() == old(m.State())
    ensures ok ==> m.Bytes() == old(m.Bytes())[k := old(m.Bytes()[k]) + src]
    ensures k in m.handles && IsMut(m.handles[k]) && m.handles == old(m.handles)[k := m.handles[k]]
    ensures ClassOf(m.State(), k) == ClassOf(old(m.State()), k) && Evolves(old(m.State()), m.State())
  {
    HandleFact(m.State(), k);
    if |src| > m.handles[k].cap - m.handles[k].len {
      var r := ReserveInner(m, k, |src|, true);
      if r.Overflow? {
        return false;
      }
    }
    Append(m, k, src);
    return true;
  }

  /** A byte stored through `DerefMut`. */
  method Store(m: Arena, k: Id, i: nat, value: byte)
    requires m.Valid() && k in m.handles && IsMut(m.handles[k]) && i < m.handles[k].len
    modifies m`allocs
    ensures m.Valid()
    ensures m.Bytes() == old(m.Bytes())[k := SetByte(old(m.Bytes()[k]), i, value)]
  {
    ghost var w := m.State();
    HandleFact(w, k);
    var h := m.handles[k];
    var at := h.off + i;
    WriteKeeps(w, h.alloc, at, [value]);
    StoreAbs(w, k, i, value, at);
    m.allocs := m.allocs[h.alloc := Overwrite(m.allocs[h.alloc], at, [value])];
    assert m.State() == Write(w, h.alloc, at, [value]);
  }

  // ---- Joining ----

  /** Two holders of one block whose bytes are adjacent: the first one has no spare capacity, because
      the windows are disjoint. */
  lemma AdjacentHasNoSpare(w: World, k: Id, o: Id)
    requires Inv(w) && k in w.handles && o in w.handles && k != o
    requires w.handles[k].form.MutArc? && w.handles[o].form == w.handles[k].form
    requires w.handles[o].cap > 0 && w.handles[k].off + w.handles[k].len == w.handles[o].off
    ensures w.handles[k].cap == w.handles[k].len && w.handles[k].alloc == w.handles[o].alloc
  {
    HandleFact(w, k);
    HandleFact(w, o);
    var apart := Apart(w.handles[k], w.handles[o]);
  }

  function Merged(g: Handle, h: Handle): Handle {
    g.(len := g.len + h.len, cap := g.cap + h.cap)
  }

  lemma MergeKeeps(w: World, k: Id, o: Id)
    requires Inv(w) && k in w.handles && o in w.handles && k != o
    requires w.handles[k].form.MutArc? && w.handles[o].form == w.handles[k].form
    requires w.handles[o].cap > 0 && w.handles[k].off + w.handles[k].len == w.handles[o].off
    ensures Inv(Replace(Release(w, o), k, Merged(w.handles[k], w.handles[o])))
  {
    var g, h := w.handles[k], w.handles[o];
    AdjacentHasNoSpare(w, k, o);
    HandleFact(w, k);
    HandleFact(w, o);
    ReleaseKeeps(w, o);
    var r := Release(w, o);
    HandleFact(r, k);
    forall j | j in r.handles && j != k
      ensures Apart(Merged(g, h), r.handles[j]) && Apart(r.handles[j], Merged(g, h))
    {
      var a1, a2 := Apart(g, w.handles[j]), Apart(w.handles[j], g);
      var a3, a4 := Apart(h, w.handles[j]), Apart(w.handles[j], h);
    }
    ReplaceKeeps(r, k, Merged(g, h));
  }

  lemma JoinSlices(mem: seq<byte>, off: nat, mid: nat, end: nat)
    requires off <= mid <= end <= |mem|
    ensures Slice(mem, off, end) == Slice(mem, off, mid) + Slice(mem, mid, end)
  {
  }

  lemma MergeAbs(w: World, k: Id, o: Id)
    requires Inv(w) && k in w.handles && o in w.handles && k != o
    requires w.handles[k].form.MutArc? && w.handles[o].form == w.handles[k].form
    requires w.handles[o].cap > 0 && w.handles[k].off + w.handles[k].len == w.handles[o].off
    ensures var w' := Replace(Release(w, o), k, Merged(w.handles[k], w.handles[o]));
            var bytes := Abs(w.allocs, w.handles);
            Abs(w'.allocs, w'.handles) == (bytes - {o})[k := bytes[k] + bytes[o]]
  {
    var g, h := w.handles[k], w.handles[o];
    AdjacentHasNoSpare(w, k, o);
    HandleFact(w, k);
    HandleFact(w, o);
    ReleaseAbs(w, o);
    ReleaseKeeps(w, o);
    var r := Release(w, o);
    HandleFact(r, k);
    UpdateAbs(r.allocs, r.handles, k, Merged(g, h));
    JoinSlices(w.allocs[g.alloc], g.off, h.off, h.off + h.len);
    assert r.allocs[g.alloc] == w.allocs[g.alloc];
    assert Contents(r.allocs, Merged(g, h)) == Contents(w.allocs, g) + Contents(w.allocs, h);
  }

  /** The test of `try_unsplit` on two handles with capacity. */
  predicate Adjoins(g: Handle, h: Handle) {
    h.cap > 0 && g.alloc == h.alloc && g.off + g.len == h.off && g.form.MutArc? && h.form == g.form
  }

  lemma JoinMaps(bytes: map<Id, seq<byte>>, k: Id, o: Id, c: seq<byte>)
    requires k in bytes && o in bytes && k != o
    ensures bytes[o] == [] ==> bytes - {o} == (bytes - {o})[k := bytes[k] + bytes[o]]
    ensures bytes[k] == [] ==> bytes - {k} == (bytes - {k, o})[o := bytes[k] + bytes[o]]
    ensures (bytes - {o})[k := c] == (bytes - {k, o})[k := c] == bytes[k := c] - {o}
  {
    assert bytes[k] + [] == bytes[k] && [] + bytes[o] == bytes[o];
  }

  /** Two adjacent windows become one, and the second handle lets go of the block. */
  method Absorb(m: Arena, k: Id, o: Id)
    requires m.Valid() && k in m.handles && o in m.handles && k != o
    requires Adjoins(m.handles[k], m.handles[o])
    modifies m`handles, m`shareds, m`allocs, m`freed
    ensures m.Valid()
    ensures m.handles == (old(m.handles) - {o})[k := Merged(old(m.handles[k]), old(m.handles[o]))]
    ensures m.Bytes() == (old(m.Bytes()) - {o})[k := old(m.Bytes()[k]) + old(m.Bytes()[o])]
    ensures m.handles[k].alloc in m.allocs && Evolves(old(m.State()), m.State())
    ensures m.handles[k].form.shared in m.shareds
  {
    ghost var w := m.State();
    MergeKeeps(w, k, o);
    MergeAbs(w, k, o);
    var merged := Merged(m.handles[k], m.handles[o]);
    Drop(m, o);
    m.handles := m.handles[k := merged];
    assert m.State() == Replace(Release(w, o), k, merged);
    HandleFact(m.State(), k);
  }

  /** `try_unsplit`: joins in place, consuming `o`, or changes nothing. */
  method TryUnsplit(m: Arena, k: Id, o: Id) returns (ok: bool)
    requires m.Valid() && k in m.handles && o in m.handles && k != o
    requires IsMut(m.handles[k]) && IsMut(m.handles[o])
    modifies m`handles, m`shareds, m`allocs, m`freed
    ensures m.Valid()
    ensures ok <==> old(m.handles[o].cap == 0 || Adjoins(m.handles[k], m.handles[o]))
    ensures !ok ==> m.State() == old(m.State())
    ensures ok ==> m.handles == (old(m.handles) - {o})[k := Merged(old(m.handles[k]), old(m.handles[o]))]
    ensures ok ==> m.Bytes() == (old(m.Bytes()) - {o})[k := old(m.Bytes()[k]) + old(m.Bytes()[o])]
    ensures ClassOf(m.State(), k) == ClassOf(old(m.State()), k) && Evolves(old(m.State()), m.State())
  {
    ghost var w := m.State();
    ghost var bytes := m.Bytes();
    JoinMaps(bytes, k, o, []);
    if m.handles[o].cap == 0 {
      HandleFact(w, o);
      assert bytes[o] == [];
      Drop(m, o);
      assert m.handles == (w.handles - {o})[k := Merged(w.handles[k], w.handles[o])];
      ClassKept(w, m.State(), k);
      return true;
    }
    ok := Adjoins(m.handles[k], m.handles[o]);
    if ok {
      Absorb(m, k, o);
      ClassKept(w, m.State(), k);
    }
  }

  /** Whether joining panics: it needs to copy, and the copy overflows. */
  predicate UnsplitPanics(w: World, k: Id, o: Id)
    requires k in w.handles && o in w.handles
  {
    var g, h := w.handles[k], w.handles[o];
    g.len > 0 && h.cap > 0 && !Adjoins(g, h) && ExtendPanics(w, k, h.len)
  }

  /** `unsplit`: the result, which lives on under `r`, holds the bytes of `k` followed by those of `o`, whichever way
      they are joined, and has the capacity class of the value it lives on as.  A panic drops `o` and changes nothing
      else. */
  method Unsplit(m: Arena, k: Id, o: Id) returns (r: Option<Id>)
    requires m.Valid() && k in m.handles && o in m.handles && k != o
    requires IsMut(m.handles[k]) && IsMut(m.handles[o])
    modifies m`handles, m`shareds, m`allocs, m`nextAlloc, m`freed
    ensures m.Valid()
    ensures r == if UnsplitPanics(old(m.State()), k, o) then None
                 else Some(if old(m.handles[k].len) == 0 then o else k)
    ensures r.None? ==> m.State() == Release(old(m.State()), o) && m.Bytes() == old(m.Bytes()) - {o}
    ensures r.Some? ==> m.Bytes() == (old(m.Bytes()) - {k, o})[r.value := old(m.Bytes()[k]) + old(m.Bytes()[o])]
    ensures r.Some? ==>
              && r.value in m.handles && IsMut(m.handles[r.value])
              && m.handles == (old(m.handles) - {k, o})[r.value := m.handles[r.value]]
              && ClassOf(m.State(), r.value) == ClassOf(old(m.State()), r.value)
    ensures old(m.handles[k].len) == 0 ==> m.handles == old(m.handles) - {k}
    ensures old(m.handles[k].len > 0 && (m.handles[o].cap == 0 || Adjoins(m.handles[k], m.handles[o]))) ==>
              m.handles == (old(m.handles) - {o})[k := Merged(old(m.handles[k]), old(m.handles[o]))]
    ensures Evolves(old(m.State()), m.State())
  {
    if m.handles[k].len == 0 {
      DropEmpty(m, k, o);
      return Some(o);
    }
    ghost var handles, bytes := m.handles, m.Bytes();
    JoinMaps(bytes, k, o, bytes[k] + bytes[o]);
    HandleFact(m.State(), o);
    var src := m.allocs[m.handles[o].alloc][m.handles[o].off..m.handles[o].off + m.handles[o].len];
    var ok := TryUnsplit(m, k, o);
    if !ok {
      ok := CopyAndDrop(m, k, o, src);
    }
    JoinHandles(handles, k, o, m.handles[k]);
    r := if ok then Some(k) else None;
  }

  lemma JoinHandles(handles: Handles, k: Id, o: Id, h: Handle)
    requires k in handles && o in handles && k != o
    ensures (handles - {o})[k := h] == (handles - {k, o})[k := h]
    ensures handles - {k} == (handles - {k, o})[o := handles[o]]
  {
  }

  /** Joining onto an empty value replaces it by the other one. */
  method DropEmpty(m: Arena, k: Id, o: Id)
    requires m.Valid() && k in m.handles && o in m.handles && k != o
    requires IsMut(m.handles[k]) && IsMut(m.handles[o]) && m.handles[k].len == 0
    modifies m`handles, m`shareds, m`allocs, m`freed
    ensures m.Valid() && Evolves(old(m.State()), m.State())
    ensures m.Bytes() == (old(m.Bytes()) - {k, o})[o := old(m.Bytes()[k]) + old(m.Bytes()[o])]
    ensures m.handles == old(m.handles) - {k} == (old(m.handles) - {k, o})[o := old(m.handles[o])]
    ensures ClassOf(m.State(), o) == ClassOf(old(m.State()), o)
  {
    ghost var w := m.State();
    HandleFact(w, k);
    JoinMaps(m.Bytes(), k, o, []);
    JoinHandles(m.handles, k, o, m.handles[k]);
    Drop(m, k);
    ClassKept(w, m.State(), o);
  }

  /** The copying way to join two values; `o` is dropped in any case. */
  method CopyAndDrop(m: Arena, k: Id, o: Id, src: seq<byte>) returns (ok: bool)
    requires m.Valid() && k in m.handles && o in m.handles && k != o
    requires IsMut(m.handles[k]) && IsMut(m.handles[o]) && src == m.Bytes()[o]
    modifies m`handles, m`shareds, m`allocs, m`nextAlloc, m`freed
    ensures m.Valid() && (ok <==> !ExtendPanics(old(m.State()), k, |src|))
    ensures !ok ==> m.State() == Release(old(m.State()), o) && m.Bytes() == old(m.Bytes()) - {o}
    ensures ok ==> m.Bytes() == old(m.Bytes())[k := old(m.Bytes()[k]) + src] - {o}
    ensures k in m.handles && IsMut(m.handles[k]) && m.handles == (old(m.handles) - {o})[k := m.handles[k]]
    ensures ClassOf(m.State(), k) == ClassOf(old(m.State()), k) && Evolves(old(m.State()), m.State())
  {
    ghost var w := m.State();
    ok := ExtendFromSlice(m, k, src);
    ghost var w1 := m.State();
    Drop(m, o);
    ClassKept(w1, m.State(), k);
    EvolvesTwice(w, w1, m.State());
  }

  /** The two windows of a split are joined without a panic, and those of a split inside the contents in place. */
  lemma HalvesJoin(w: World, w': World, k: Id, k2: Id, at: nat)
    requires k in w.handles && IsMut(w.handles[k]) && HandleOk(w.allocs, w.shareds, w.handles[k])
    requires at <= w.handles[k].cap
    requires var h := w.handles[k];
             SplitInto(w, w', k, k2, h.(cap := at, len := Min(h.len, at)), Shifted(h, at))
    ensures !UnsplitPanics(w', k, k2)
    ensures var g, h := w'.handles[k], w'.handles[k2];
            at <= w.handles[k].len ==>
              if g.len == 0 then h == w.handles[k].(form := h.form)
              else (h.cap == 0 || Adjoins(g, h)) && Merged(g, h) == w.handles[k].(form := g.form)
  {
  }

  lemma SplitAndRejoin(bytes: map<Id, seq<byte>>, k: Id, o: Id, at: nat)
    requires k in bytes && o !in bytes
    ensures var c := bytes[k];
            && TakeTo(c, at) + DropTo(c, at) == c
            && bytes[k := TakeTo(c, at)][o := DropTo(c, at)] - {k, o} == bytes - {k}
  {
  }

  /** Splitting and joining again gives the bytes back; a split inside the contents even gives the whole
      window back, without copying. */
  method SplitOffThenUnsplit(m: Arena, k: Id, at: nat) returns (r: Id)
    requires m.Valid() && k in m.handles && IsMut(m.handles[k]) && at <= m.handles[k].cap
    modifies m`handles, m`shareds, m`allocs, m`nextAlloc, m`nextId, m`freed
    ensures m.Valid() && r in m.handles
    ensures m.Bytes() == (old(m.Bytes()) - {k})[r := old(m.Bytes()[k])]
    ensures at <= old(m.handles[k].len) ==> m.handles[r] == old(m.handles[k]).(form := m.handles[r].form)
    ensures ClassOf(m.State(), r) == ClassOf(old(m.State()), k)
  {
    ghost var bytes := m.Bytes();
    ghost var c := bytes[k];
    ghost var w := m.State();
    HandleFact(w, k);
    var other := SplitOff(m, k, at);
    HalvesJoin(w, m.State(), k, other.value, at);
    SplitAndRejoin(bytes, k, other.value, at);
    var joined := Unsplit(m, k, other.value);
    r := joined.value;
  }
}
