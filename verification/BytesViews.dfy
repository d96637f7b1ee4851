/** `Bytes`: read-only views that share an allocation, and their promotion to a shared block. */
module BytesViews {
  import opened Arithmetic
  import opened Wrappers
  import opened DataWord
  import opened Memory
  import opened Heap
  import opened BytesMut
  import opened BytesMutReserve

  /** Nobody else holds the allocation, so the buffer may be reused. */
  predicate Unique(w: World, k: Id)
    requires k in w.handles
  {
    var h := w.handles[k];
    match h.form
    case MutArc(s) => s in w.shareds && w.shareds[s].count == 1
    case ViewArc(s, _) => s in w.shareds && w.shareds[s].count == 1
    case ViewStatic(_) => false
    case _ => true
  }

  // ---- State changes ----

  /** A sole owner stays one in another form. */
  lemma SoloReplaceKeeps(w: World, k: Id, h: Handle)
    requires Inv(w) && k in w.handles && Solo(w.handles[k]) && Solo(h)
    requires h.alloc == w.handles[k].alloc && HandleOk(w.allocs, w.shareds, h)
    ensures Inv(Replace(w, k, h))
    ensures Abs(w.allocs, w.handles[k := h]) == Abs(w.allocs, w.handles)[k := Contents(w.allocs, h)]
  {
    SoloAlone(w, k);
    ReplaceKeeps(w, k, h);
    UpdateAbs(w.allocs, w.handles, k, h);
  }

  /** A value may reuse its buffer exactly when it has one that no other value uses. */
  lemma UniqueIsAlone(w: World, k: Id)
    requires Inv(w) && k in w.handles
    ensures Unique(w, k) <==> !w.handles[k].form.ViewStatic? && AloneOn(w, k)
  {
    var form := w.handles[k].form;
    if form.MutArc? || form.ViewArc? {
      OneIsAlone(w, k, form.shared);
    } else if !form.ViewStatic? {
      SoloAlone(w, k);
    }
  }

  /** Bytes copied to the front of a block by its owner. */
  lemma FrontWriteKeeps(w: World, k: Id, c: seq<byte>)
    requires Inv(w) && k in w.handles && !IsView(w.handles[k])
    requires HandleOk(w.allocs, w.shareds, w.handles[k])
    requires w.handles[k].off == 0 && w.handles[k].len == |c|
    ensures var w' := Write(w, w.handles[k].alloc, 0, c);
            Inv(w') && Abs(w'.allocs, w'.handles) == Abs(w.allocs, w.handles)[k := c]
  {
    var h := w.handles[k];
    WriteKeeps(w, h.alloc, 0, c);
    WriteAbs(w, k, 0, c);
    assert Contents(Write(w, h.alloc, 0, c).allocs, h) == c;
  }

  /** A second view on the bytes of a first one. */
  lemma ViewJoinsKeeps(w: World, k: Id, k2: Id, s: Id, h: Handle)
    requires Inv(w) && k in w.handles && w.handles[k].form.ViewArc? && HeldBy(w.handles[k], s) && s in w.shareds
    requires k2 !in w.handles && k2 < w.nextId
    requires h.form.ViewArc? && h.form.shared == s && HandleOk(w.allocs, w.shareds, h)
    requires h == w.handles[k].(form := h.form)
    ensures Inv(AddHolder(w, k2, s, h))
    ensures Abs(w.allocs, w.handles[k2 := h]) == Abs(w.allocs, w.handles)[k2 := Contents(w.allocs, w.handles[k])]
  {
    HandleFact(w, k);
    forall j | j in w.handles
      ensures Apart(h, w.handles[j]) && Apart(w.handles[j], h)
    {
      if j != k {
        var apart, apart' := Apart(w.handles[k], w.handles[j]), Apart(w.handles[j], w.handles[k]);
      }
    }
    AddHolderKeeps(w, k2, s, h);
    UpdateAbs(w.allocs, w.handles, k2, h);
  }

  /** `shallow_clone_vec` without a competitor: the view is now held by a block of count one. The size it
      records, offset plus length, is the size of the allocation because the view ends where it ends. */
  function ViewPromoted(w: World, k: Id): World
    requires k in w.handles
  {
    var h := w.handles[k];
    Promote(w.(nextId := w.nextId + 1), k, w.nextId, h.(form := ViewArc(w.nextId, Promotable)), FromView(h.off + h.len))
  }

  lemma ViewPromotedKeeps(w: World, k: Id)
    requires Inv(w) && k in w.handles && w.handles[k].form.ViewVec?
    ensures Inv(ViewPromoted(w, k))
    ensures Abs(w.allocs, ViewPromoted(w, k).handles) == Abs(w.allocs, w.handles)
  {
    var h := w.handles[k];
    HandleFact(w, k);
    MoreIdsKeeps(w, 1);
    IdIsNew(w);
    var h' := h.(form := ViewArc(w.nextId, Promotable));
    PromoteKeeps(w.(nextId := w.nextId + 1), k, w.nextId, h', FromView(h.off + h.len));
    UpdateAbs(w.allocs, w.handles, k, h');
  }

  // ---- Creating ----

  /** A `Vec<u8>` with the given bytes and unspecified spare capacity. */
  method NewVec(m: Arena, src: seq<byte>) returns (k: Id)
    requires m.Valid()
    modifies m`handles, m`allocs, m`nextAlloc, m`nextId
    ensures m.Valid() && k !in old(m.handles) && m.Bytes() == old(m.Bytes())[k := src]
    ensures k in m.handles && m.handles == old(m.handles)[k := m.handles[k]] && m.handles[k].form.VecForm?
    ensures Evolves(old(m.State()), m.State())
  {
    ghost var w := m.State();
    AllocIsNew(w);
    IdIsNew(w);
    MoreIdsKeeps(w, 1);
    var a, cap := m.ToVec(src);
    k := m.nextId;
    m.nextId := m.nextId + 1;
    var h := Handle(VecForm, a, 0, |src|, cap);
    m.handles := m.handles[k := h];
    PlaceKeeps(w.(nextId := w.nextId + 1), k, h, m.allocs[a]);
    PlaceAbs(w.(nextId := w.nextId + 1), k, h, m.allocs[a]);
    assert m.State() == Place(w.(nextId := w.nextId + 1), k, h, m.allocs[a]);
  }

  method DropVec(m: Arena, k: Id)
    requires m.Valid() && k in m.handles && m.handles[k].form.VecForm?
    modifies m`handles, m`allocs, m`freed
    ensures m.Valid() && m.Bytes() == old(m.Bytes()) - {k}
    ensures m.State() == Release(old(m.State()), k)
  {
    ghost var w := m.State();
    HandleFact(w, k);
    ReleaseKeeps(w, k);
    ReleaseAbs(w, k);
    m.Dealloc(m.handles[k].alloc, m.handles[k].cap);
    m.handles := m.handles - {k};
    assert m.State() == Release(w, k);
  }

  /** `Bytes::from_static`. */
  method FromStatic(m: Arena, text: seq<byte>) returns (k: Id)
    requires m.Valid()
    modifies m`handles, m`nextId
    ensures m.Valid() && k !in old(m.handles) && m.Bytes() == old(m.Bytes())[k := text]
    ensures m.handles == old(m.handles)[k := Handle(ViewStatic(text), 0, 0, |text|, |text|)]
    ensures Evolves(old(m.State()), m.State())
  {
    ghost var w := m.State();
    IdIsNew(w);
    MoreIdsKeeps(w, 1);
    k := m.nextId;
    m.nextId := m.nextId + 1;
    var h := Handle(ViewStatic(text), 0, 0, |text|, |text|);
    m.handles := m.handles[k := h];
    PlaceStaticKeeps(w.(nextId := w.nextId + 1), k, h);
    UpdateAbs(w.allocs, w.handles, k, h);
    assert Contents(w.allocs, h) == text;
    assert m.State() == Replace(w.(nextId := w.nextId + 1), k, h);
  }

  /** `BytesMut::from_vec`: the class recorded in the word is that of the vector's capacity. */
  method MutFromVec(m: Arena, k: Id)
    requires m.Valid() && k in m.handles && m.handles[k].form.VecForm?
    modifies m`handles
    ensures m.Valid() && m.Bytes() == old(m.Bytes())
    ensures k in m.handles && m.handles == old(m.handles)[k := old(m.handles[k]).(form := m.handles[k].form)]
    ensures m.handles[k].form.MutVec? && Class(m.handles[k].form.word) == OriginalCapacityToRepr(m.handles[k].cap)
  {
    ghost var w := m.State();
    HandleFact(w, k);
    var h := m.handles[k];
    var h' := h.(form := MutVec(NewWord(OriginalCapacityToRepr(h.cap))));
    SoloReplaceKeeps(w, k, h');
    SetTwice(m.Bytes(), k, [], Contents(w.allocs, h'));
    m.handles := m.handles[k := h'];
  }

  lemma EmptyBoxKeeps(w: World, k: Id, h: Handle)
    requires Inv(w) && k in w.handles && w.handles[k].form.VecForm? && w.handles[k].len == 0
    requires h == Handle(ViewStatic([]), 0, 0, 0, 0)
    ensures var a := w.handles[k].alloc;
            var w' := w.(handles := w.handles[k := h], allocs := w.allocs - {a}, freed := w.freed + multiset{a});
            && w' == Replace(Release(w, k), k, h)
            && Inv(w') && Abs(w'.allocs, w'.handles) == Abs(w.allocs, w.handles)
  {
    HandleFact(w, k);
    ReleaseKeeps(w, k);
    ReleaseAbs(w, k);
    var r := Release(w, k);
    PlaceStaticKeeps(r, k, h);
    UpdateAbs(r.allocs, r.handles, k, h);
    RemoveThenSet(Abs(w.allocs, w.handles), k, []);
    SetTwice(Abs(w.allocs, w.handles), k, [], []);
    assert r.handles[k := h] == w.handles[k := h];
  }

  /** A vector with spare capacity becomes the one holder of a shared block that records its capacity. */
  method ShareVec(m: Arena, k: Id)
    requires m.Valid() && k in m.handles && m.handles[k].form.VecForm?
    modifies m`handles, m`shareds, m`nextId
    ensures m.Valid() && m.Bytes() == old(m.Bytes())
    ensures k in m.handles && m.handles == old(m.handles)[k := m.handles[k]]
    ensures m.handles[k].form == ViewArc(old(m.nextId), SharedTable)
    ensures m.handles[k] == old(m.handles[k]).(form := m.handles[k].form, cap := old(m.handles[k].len))
    ensures Unique(m.State(), k)
    ensures Evolves(old(m.State()), m.State())
  {
    ghost var w := m.State();
    HandleFact(w, k);
    var h := m.handles[k];
    var s := m.nextId;
    var h' := h.(form := ViewArc(s, SharedTable), cap := h.len);
    IdIsNew(w);
    MoreIdsKeeps(w, 1);
    PromoteKeeps(w.(nextId := w.nextId + 1), k, s, h', FromView(h.cap));
    UpdateAbs(w.allocs, w.handles, k, h');
    SetTwice(m.Bytes(), k, [], Contents(w.allocs, h'));
    m.nextId := m.nextId + 1;
    m.shareds := m.shareds[s := Shared(h.alloc, 1, FromView(h.cap))];
    m.handles := m.handles[k := h'];
    assert m.State() == Promote(w.(nextId := w.nextId + 1), k, s, h', FromView(h.cap));
  }

  /** `Bytes::from(Box<[u8]>)` on a full vector. An empty box has no allocation, so the result is the
      static empty view. */
  method BoxVec(m: Arena, k: Id)
    requires m.Valid() && k in m.handles && m.handles[k].form.VecForm? && m.handles[k].len == m.handles[k].cap
    modifies m`handles, m`allocs, m`freed
    ensures m.Valid() && m.Bytes() == old(m.Bytes())
    ensures k in m.handles && m.handles == old(m.handles)[k := m.handles[k]]
    ensures old(m.handles[k].len) == 0 ==> m.handles[k] == Handle(ViewStatic([]), 0, 0, 0, 0)
    ensures old(m.handles[k].len) > 0 ==> m.handles[k] == old(m.handles[k]).(form := ViewVec)
  {
    ghost var w := m.State();
    HandleFact(w, k);
    var h := m.handles[k];
    if h.len == 0 {
      EmptyBoxKeeps(w, k, Handle(ViewStatic([]), 0, 0, 0, 0));
      m.Dealloc(h.alloc, h.cap);
      m.handles := m.handles[k := Handle(ViewStatic([]), 0, 0, 0, 0)];
    } else {
      SoloReplaceKeeps(w, k, h.(form := ViewVec));
      SetTwice(m.Bytes(), k, [], Contents(w.allocs, h.(form := ViewVec)));
      m.handles := m.handles[k := h.(form := ViewVec)];
    }
  }

  /** `Bytes::from(Vec)`: a full vector becomes a boxed slice, any other one a shared block. */
  method ViewFromVec(m: Arena, k: Id)
    requires m.Valid() && k in m.handles && m.handles[k].form.VecForm?
    modifies m`handles, m`shareds, m`allocs, m`nextId, m`freed
    ensures m.Valid() && m.Bytes() == old(m.Bytes())
    ensures k in m.handles && m.handles == old(m.handles)[k := m.handles[k]] && IsView(m.handles[k])
    ensures m.handles[k].off == 0 && m.handles[k].len == old(m.handles[k].len)
    ensures !m.handles[k].form.ViewStatic? ==> m.handles[k].alloc == old(m.handles[k].alloc) && Unique(m.State(), k)
    ensures m.handles[k].form.ViewStatic? <==> old(m.handles[k].cap) == 0
    ensures Evolves(old(m.State()), m.State())
  {
    HandleFact(m.State(), k);
    if m.handles[k].len == m.handles[k].cap {
      BoxVec(m, k);
    } else {
      ShareVec(m, k);
    }
  }

  // ---- Reading operations ----

  /** `shallow_clone_vec` up to the new reference: the view moves to a shared block. */
  method PromoteView(m: Arena, k: Id)
    requires m.Valid() && k in m.handles && m.handles[k].form.ViewVec?
    modifies m`handles, m`shareds, m`nextId
    ensures m.Valid() && m.Bytes() == old(m.Bytes()) && Evolves(old(m.State()), m.State())
    ensures m.handles == old(m.handles)[k := old(m.handles[k]).(form := ViewArc(old(m.nextId), Promotable))]
  {
    ghost var w := m.State();
    ViewPromotedKeeps(w, k);
    var h := m.handles[k];
    var s := m.nextId;
    m.nextId := m.nextId + 1;
    m.shareds := m.shareds[s := Shared(h.alloc, 1, FromView(h.off + h.len))];
    m.handles := m.handles[k := h.(form := ViewArc(s, Promotable))];
    assert m.State() == ViewPromoted(w, k);
  }

  /** `clone`: the clone has the same bytes and everybody else keeps theirs; nothing is allocated. */
  method Clone(m: Arena, k: Id) returns (k2: Id)
    requires m.Valid() && k in m.handles && IsView(m.handles[k])
    modifies m`handles, m`shareds, m`nextId
    ensures m.Valid() && k2 !in old(m.handles) && m.Bytes() == old(m.Bytes())[k2 := old(m.Bytes()[k])]
    ensures m.handles.Keys == old(m.handles.Keys) + {k2}
    ensures !m.handles[k].form.ViewVec? && !m.handles[k2].form.ViewVec?
    ensures m.handles == old(m.handles)[k := m.handles[k]][k2 := m.handles[k2]]
    ensures m.handles[k] == old(m.handles[k]).(form := m.handles[k].form)
    ensures m.handles[k2] == m.handles[k].(form := m.handles[k2].form)
    ensures old(m.handles[k].form.ViewArc? || m.handles[k].form.ViewStatic?) ==> m.handles[k] == old(m.handles[k])
    ensures IsView(m.handles[k]) && IsView(m.handles[k2]) && m.handles[k2].form.ViewArc? == m.handles[k].form.ViewArc?
    ensures Evolves(old(m.State()), m.State())
  {
    var h := m.handles[k];
    HandleFact(m.State(), k);
    if h.form.ViewStatic? {
      k2 := CloneStatic(m, k);
    } else {
      if h.form.ViewVec? {
        PromoteView(m, k);
      }
      k2 := CloneArc(m, k);
    }
  }

  method CloneStatic(m: Arena, k: Id) returns (k2: Id)
    requires m.Valid() && k in m.handles && m.handles[k].form.ViewStatic?
    modifies m`handles, m`nextId
    ensures m.Valid() && k2 !in old(m.handles) && m.Bytes() == old(m.Bytes())[k2 := old(m.Bytes()[k])]
    ensures m.handles == old(m.handles)[k2 := old(m.handles[k])]
    ensures Evolves(old(m.State()), m.State())
  {
    ghost var w := m.State();
    HandleFact(w, k);
    IdIsNew(w);
    MoreIdsKeeps(w, 1);
    k2 := m.nextId;
    m.nextId := m.nextId + 1;
    m.handles := m.handles[k2 := m.handles[k]];
    PlaceStaticKeeps(w.(nextId := w.nextId + 1), k2, w.handles[k]);
    UpdateAbs(w.allocs, w.handles, k2, w.handles[k]);
    assert m.State() == Replace(w.(nextId := w.nextId + 1), k2, w.handles[k]);
  }

  function ClonedArc(w: World, k: Id): World
    requires k in w.handles && w.handles[k].form.ViewArc? && w.handles[k].form.shared in w.shareds
  {
    var h := w.handles[k];
    var vtable := if h.form.vtable.MutTable? then MutTable else SharedTable;
    AddHolder(w.(nextId := w.nextId + 1), w.nextId, h.form.shared, h.(form := ViewArc(h.form.shared, vtable)))
  }

  lemma ClonedArcKeeps(w: World, k: Id)
    requires Inv(w) && k in w.handles && w.handles[k].form.ViewArc? && w.handles[k].form.shared in w.shareds
    ensures var w' := ClonedArc(w, k);
            && w.nextId !in w.handles && Inv(w') && Evolves(w, w')
            && Abs(w'.allocs, w'.handles) == Abs(w.allocs, w.handles)[w.nextId := Contents(w.allocs, w.handles[k])]
  {
    HandleFact(w, k);
    IdIsNew(w);
    MoreIdsKeeps(w, 1);
    var w1, k2 := w.(nextId := w.nextId + 1), w.nextId;
    ViewJoinsKeeps(w1, k, k2, w.handles[k].form.shared, ClonedArc(w, k).handles[k2]);
  }

  /** `shallow_clone_arc`, as meant: one more reference is counted. */
  method CloneArc(m: Arena, k: Id) returns (k2: Id)
    requires m.Valid() && k in m.handles && m.handles[k].form.ViewArc?
    modifies m`handles, m`shareds, m`nextId
    ensures m.Valid() && k2 !in old(m.handles) && m.Bytes() == old(m.Bytes())[k2 := old(m.Bytes()[k])]
    ensures k2 in m.handles && m.handles == old(m.handles)[k2 := m.handles[k2]]
    ensures m.handles[k2] == m.handles[k].(form := m.handles[k2].form) && m.handles[k2].form.ViewArc?
    ensures Evolves(old(m.State()), m.State())
  {
    ghost var w := m.State();
    HandleFact(w, k);
    ClonedArcKeeps(w, k);
    var h := m.handles[k];
    var s := h.form.shared;
    k2 := m.nextId;
    m.nextId := m.nextId + 1;
    var h2 := h.(form := ViewArc(s, if h.form.vtable.MutTable? then MutTable else SharedTable));
    m.shareds := m.shareds[s := m.shareds[s].(count := m.shareds[s].count + 1)];
    m.handles := m.handles[k2 := h2];
    assert m.State() == ClonedArc(w, k);
  }

  /** `shallow_clone_arc` as written loads the count and does not add to it. */
  function ClonedAsWritten(w: World, k: Id): World
    requires k in w.handles && w.handles[k].form.ViewArc?
  {
    var h := w.handles[k];
    var vtable := if h.form.vtable.MutTable? then MutTable else SharedTable;
    w.(handles := w.handles[w.nextId := h.(form := ViewArc(h.form.shared, vtable))], nextId := w.nextId + 1)
  }

  /** From every sound state the count falls one behind the holders, so the buffer would go while one of them is
      left. */
  lemma ClonedAsWrittenMiscounts(w: World, k: Id)
    requires Inv(w) && k in w.handles && w.handles[k].form.ViewArc?
    ensures var w' := ClonedAsWritten(w, k);
            var s := w.handles[k].form.shared;
            s in w'.shareds && w'.shareds[s].count + 1 == |Holders(w'.handles, s)| && !Inv(w')
  {
    var w' := ClonedAsWritten(w, k);
    var s := w.handles[k].form.shared;
    HandleFact(w, k);
    SharedFact(w, s);
    IdIsNew(w);
    HoldersAdded(w.handles, w.nextId, w'.handles[w.nextId], s);
    if Inv(w') {
      SharedFact(w', s);
    }
  }

  function Sub(s: seq<byte>, begin: nat, len: nat): seq<byte> {
    Slice(s, begin, begin + len)
  }

  lemma SubOfSlice(mem: seq<byte>, off: nat, len: nat, begin: nat, n: nat)
    requires off + len <= |mem| && begin + n <= len
    ensures Sub(Slice(mem, off, off + len), begin, n) == Slice(mem, off + begin, off + begin + n)
  {
    var a, b := mem[off..off + len][begin..begin + n], mem[off + begin..off + begin + n];
    assert |a| == |b| == n;
    assert forall i :: 0 <= i < n ==> a[i] == b[i];
  }

  lemma TakeAndDrop(c: seq<byte>, at: nat, rest: nat)
    ensures at == 0 ==> TakeTo(c, at) == [] && DropTo(c, at) == c
    ensures at == |c| ==> TakeTo(c, at) == c && DropTo(c, at) == []
    ensures at + rest == |c| ==> Sub(c, 0, at) == TakeTo(c, at) && Sub(c, at, rest) == DropTo(c, at)
  {
  }

  /** A value that keeps its bytes next to a new one. */
  lemma KeepAndAdd(bytes: map<Id, seq<byte>>, k: Id, e: Id, d: seq<byte>)
    requires k in bytes && e !in bytes
    ensures (bytes - {k})[k := bytes[k]][e := d] == bytes[e := d]
    ensures (bytes - {k})[e := d][k := bytes[k]] == bytes[e := d]
  {
  }

  lemma SplitMaps(bytes: map<Id, seq<byte>>, k: Id, other: Id, c: seq<byte>, d: seq<byte>)
    requires k in bytes && other !in bytes
    ensures bytes[other := d][k := c] == (bytes - {k})[k := c][other := d]
  {
  }

  lemma AddAndRemove(bytes: map<Id, seq<byte>>, self: Id, other: Id, c: seq<byte>, d: seq<byte>)
    requires self != other && other !in bytes
    ensures bytes[self := c][other := d] - {other} == bytes[self := c]
  {
  }

  lemma NarrowKeeps(w: World, k: Id, h: Handle)
    requires Inv(w) && k in w.handles && IsView(w.handles[k])
    requires h == w.handles[k].(off := h.off, len := h.len, cap := h.len)
    requires w.handles[k].off <= h.off && h.off + h.len <= w.handles[k].off + w.handles[k].len
    requires w.handles[k].form.ViewVec? ==> h.off + h.len == w.handles[k].off + w.handles[k].len
    ensures Inv(Replace(w, k, h))
    ensures Abs(w.allocs, w.handles[k := h])
         == Abs(w.allocs, w.handles)[k := Sub(Contents(w.allocs, w.handles[k]), h.off - w.handles[k].off, h.len)]
  {
    HandleFact(w, k);
    if h.form.ViewStatic? {
      ReplaceKeeps(w, k, h);
      UpdateAbs(w.allocs, w.handles, k, h);
    } else {
      ShrinkKeeps(w, k, h);
    }
    var mem := if h.form.ViewStatic? then h.form.text else w.allocs[h.alloc];
    SubOfSlice(mem, w.handles[k].off, w.handles[k].len, h.off - w.handles[k].off, h.len);
  }

  /** The view moves inside its range; a view in vector kind must keep its end. */
  method Narrow(m: Arena, k: Id, begin: nat, len: nat)
    requires m.Valid() && k in m.handles && IsView(m.handles[k]) && begin + len <= m.handles[k].len
    requires m.handles[k].form.ViewVec? ==> begin + len == m.handles[k].len
    modifies m`handles
    ensures m.Valid() && m.Bytes() == old(m.Bytes())[k := Sub(old(m.Bytes()[k]), begin, len)]
    ensures var h := old(m.handles[k]);
            m.handles == old(m.handles)[k := h.(off := h.off + begin, len := len, cap := len)]
  {
    var h := m.handles[k];
    NarrowKeeps(m.State(), k, h.(off := h.off + begin, len := len, cap := len));
    m.handles := m.handles[k := h.(off := h.off + begin, len := len, cap := len)];
  }

  lemma ShiftedView(h: Handle, count: nat, rest: nat)
    requires count + rest == h.len
    ensures h.(off := h.off + count, len := rest, cap := rest) == Shifted(h.(cap := h.len), count)
  {
  }

  /** `Buf::advance` on a view. */
  method AdvanceView(m: Arena, k: Id, count: nat) returns (ok: bool)
    requires m.Valid() && k in m.handles && IsView(m.handles[k])
    modifies m`handles
    ensures m.Valid() && (ok <==> count <= old(m.handles[k].len))
    ensures !ok ==> m.State() == old(m.State())
    ensures ok ==> m.Bytes() == old(m.Bytes())[k := DropTo(old(m.Bytes()[k]), count)]
    ensures ok ==> m.handles == old(m.handles)[k := Shifted(old(m.handles[k]).(cap := old(m.handles[k].len)), count)]
  {
    HandleFact(m.State(), k);
    var h := m.handles[k];
    ok := count <= h.len;
    if ok {
      var rest := h.len - count;
      TakeAndDrop(m.Bytes()[k], count, rest);
      ShiftedView(h, count, rest);
      Narrow(m, k, count, rest);
    }
  }

  /** A new view on part of the bytes of `k`, which is promoted when it was not shared yet. */
  method CloneRange(m: Arena, k: Id, begin: nat, n: nat) returns (k2: Id)
    requires m.Valid() && k in m.handles && IsView(m.handles[k]) && begin + n <= m.handles[k].len
    modifies m`handles, m`shareds, m`nextId
    ensures m.Valid() && k2 !in old(m.handles) && m.Bytes() == old(m.Bytes())[k2 := Sub(old(m.Bytes()[k]), begin, n)]
    ensures m.handles.Keys == old(m.handles.Keys) + {k2} && IsView(m.handles[k]) && IsView(m.handles[k2])
    ensures m.handles == old(m.handles)[k := m.handles[k]][k2 := m.handles[k2]]
    ensures m.handles[k] == old(m.handles[k]).(form := m.handles[k].form) && !m.handles[k].form.ViewVec?
    ensures Evolves(old(m.State()), m.State())
  {
    ghost var bytes := m.Bytes();
    k2 := Clone(m, k);
    Narrow(m, k2, begin, n);
    SetTwice(bytes, k2, bytes[k], Sub(bytes[k], begin, n));
  }

  /** One range goes to a new view, `k` keeps another one. */
  method Cut(m: Arena, k: Id, begin: nat, n: nat, keepBegin: nat, keep: nat) returns (k2: Id)
    requires m.Valid() && k in m.handles && IsView(m.handles[k])
    requires begin + n <= m.handles[k].len && keepBegin + keep <= m.handles[k].len
    modifies m`handles, m`shareds, m`nextId
    ensures m.Valid() && k2 !in old(m.handles) && k in m.handles && k2 in m.handles
    ensures var c := old(m.Bytes()[k]);
            m.Bytes() == (old(m.Bytes()) - {k})[k := Sub(c, keepBegin, keep)][k2 := Sub(c, begin, n)]
    ensures IsView(m.handles[k]) && IsView(m.handles[k2])
    ensures m.handles - {k, k2} == old(m.handles) - {k}
    ensures Evolves(old(m.State()), m.State())
  {
    ghost var bytes := m.Bytes();
    k2 := CloneRange(m, k, begin, n);
    Narrow(m, k, keepBegin, keep);
    SplitMaps(bytes, k, k2, Sub(bytes[k], keepBegin, keep), Sub(bytes[k], begin, n));
  }

  datatype Bound = Included(n: nat) | Excluded(n: nat) | Unbounded

  /** The bounds of `slice` as indices; none when adding one to a bound overflows. */
  function RangeStart(b: Bound): Option<nat> {
    match b
    case Included(n) => Some(n)
    case Excluded(n) => if n == USIZE_MAX then None else Some(n + 1)
    case Unbounded => Some(0)
  }

  function RangeEnd(b: Bound, len: nat): Option<nat> {
    match b
    case Included(n) => if n == USIZE_MAX then None else Some(n + 1)
    case Excluded(n) => Some(n)
    case Unbounded => Some(len)
  }

  /** Whether an index of a string of some length meets both bounds. */
  predicate Meets(from: Bound, to: Bound, len: nat, i: nat) {
    && (match from
        case Included(n) => n <= i
        case Excluded(n) => n < i
        case Unbounded => true)
    && (match to
        case Included(n) => i <= n
        case Excluded(n) => i < n
        case Unbounded => i < len)
  }

  /** The indices between the computed bounds are those that meet the given ones; none is a bound whose sum does not
      fit a machine word. */
  lemma RangeMeets(from: Bound, to: Bound, len: nat, i: nat)
    ensures RangeStart(from).None? <==> from == Excluded(USIZE_MAX)
    ensures RangeEnd(to, len).None? <==> to == Included(USIZE_MAX)
    ensures var lo, hi := RangeStart(from), RangeEnd(to, len);
            lo.Some? && hi.Some? ==> (lo.value <= i < hi.value <==> Meets(from, to, len, i))
    ensures RangeStart(from).Some? ==> (RangeStart(from).value <= i <==> Meets(from, Unbounded, i + 1, i))
    ensures RangeEnd(to, len).Some? ==> (i < RangeEnd(to, len).value <==> Meets(Unbounded, to, len, i))
  {
  }

  /** The bytes among the first `n` whose index meets both bounds, in order. */
  function Selected(c: seq<byte>, from: Bound, to: Bound, n: nat): seq<byte>
    requires n <= |c|
  {
    if n == 0 then []
    else Selected(c, from, to, n - 1) + if Meets(from, to, |c|, n - 1) then [c[n - 1]] else []
  }

  lemma {:induction false} SelectedPart(c: seq<byte>, from: Bound, to: Bound, n: nat, lo: nat, hi: nat)
    requires n <= |c| && lo <= hi <= |c| && RangeStart(from) == Some(lo) && RangeEnd(to, |c|) == Some(hi)
    ensures Selected(c, from, to, n) == c[Min(lo, n)..Min(hi, n)]
  {
    if n > 0 {
      SelectedPart(c, from, to, n - 1, lo, hi);
      RangeMeets(from, to, |c|, n - 1);
      if lo <= n - 1 < hi {
        assert c[lo..n] == c[lo..n - 1] + [c[n - 1]];
      }
    }
  }

  lemma SelectedIsRange(c: seq<byte>, from: Bound, to: Bound, lo: nat, hi: nat, n: nat)
    requires lo + n == hi <= |c| && RangeStart(from) == Some(lo) && RangeEnd(to, |c|) == Some(hi)
    ensures Selected(c, from, to, |c|) == Sub(c, lo, n)
  {
    SelectedPart(c, from, to, |c|, lo, hi);
  }

  /** `slice(range)`: a new view on the bytes in the range; it panics on a range that is reversed, ends
      past the length or overflows. */
  method SliceView(m: Arena, k: Id, from: Bound, to: Bound) returns (r: Option<Id>)
    requires m.Valid() && k in m.handles && IsView(m.handles[k])
    modifies m`handles, m`shareds, m`nextId
    ensures m.Valid()
    ensures var lo, hi := RangeStart(from), RangeEnd(to, old(m.handles[k].len));
            && (r.Some? <==> lo.Some? && hi.Some? && lo.value <= hi.value <= old(m.handles[k].len))
            && (r.None? ==> m.State() == old(m.State()))
            && (r.Some? ==>
                && r.value !in old(m.handles) && r.value in m.handles && IsView(m.handles[r.value])
                && k in m.handles && IsView(m.handles[k])
                && m.handles == old(m.handles)[k := m.handles[k]][r.value := m.handles[r.value]]
                && var c := old(m.Bytes()[k]);
                   m.Bytes() == old(m.Bytes())[r.value := Selected(c, from, to, |c|)])
    ensures Evolves(old(m.State()), m.State())
  {
    var lo, hi := RangeStart(from), RangeEnd(to, m.handles[k].len);
    if lo.None? || hi.None? || lo.value > hi.value || hi.value > m.handles[k].len {
      return None;
    }
    HandleFact(m.State(), k);
    var n := hi.value - lo.value;
    SelectedIsRange(m.Bytes()[k], from, to, lo.value, hi.value, n);
    var k2 := SliceRange(m, k, lo.value, n);
    return Some(k2);
  }

  /** A new view on a range within the bytes; an empty one is static. */
  method SliceRange(m: Arena, k: Id, begin: nat, n: nat) returns (k2: Id)
    requires m.Valid() && k in m.handles && IsView(m.handles[k]) && begin + n <= m.handles[k].len
    modifies m`handles, m`shareds, m`nextId
    ensures m.Valid() && k2 !in old(m.handles) && m.Bytes() == old(m.Bytes())[k2 := Sub(old(m.Bytes()[k]), begin, n)]
    ensures k in m.handles && k2 in m.handles && IsView(m.handles[k]) && IsView(m.handles[k2])
    ensures m.handles == old(m.handles)[k := m.handles[k]][k2 := m.handles[k2]]
    ensures Evolves(old(m.State()), m.State())
  {
    if n == 0 {
      HandleFact(m.State(), k);
      assert Sub(m.Bytes()[k], begin, 0) == [];
      k2 := FromStatic(m, []);
    } else {
      k2 := CloneRange(m, k, begin, n);
    }
  }

  /** Dropping a view. In vector kind the size given to the allocator is recomputed as offset plus
      length, and that is the size of the allocation. */
  method DropView(m: Arena, k: Id)
    requires m.Valid() && k in m.handles && IsView(m.handles[k])
    modifies m`handles, m`shareds, m`allocs, m`freed
    ensures m.Valid() && m.Bytes() == old(m.Bytes()) - {k}
    ensures m.State() == Release(old(m.State()), k)
    ensures m.handles == old(m.handles) - {k}
    ensures Evolves(old(m.State()), m.State())
  {
    ghost var w := m.State();
    HandleFact(w, k);
    ReleaseKeeps(w, k);
    ReleaseAbs(w, k);
    var h := m.handles[k];
    if h.form.ViewVec? {
      m.Dealloc(h.alloc, h.off + h.len);
    } else if h.form.ViewArc? {
      SharedFact(w, h.form.shared);
      m.ReleaseShared(h.form.shared);
    }
    m.handles := m.handles - {k};
    assert m.State() == Release(w, k);
  }

  /** An empty view next to one that keeps its bytes. */
  method AddEmpty(m: Arena, k: Id) returns (empty: Id)
    requires m.Valid() && k in m.handles && IsView(m.handles[k])
    modifies m`handles, m`nextId
    ensures m.Valid() && Evolves(old(m.State()), m.State())
    ensures empty !in old(m.handles) && empty in m.handles && k in m.handles
    ensures IsView(m.handles[empty]) && IsView(m.handles[k])
    ensures m.handles - {k, empty} == m.handles - {empty, k} == old(m.handles) - {k}
    ensures var c := old(m.Bytes()[k]);
            m.Bytes() == (old(m.Bytes()) - {k})[k := c][empty := []] == (old(m.Bytes()) - {k})[empty := []][k := c]
  {
    ghost var bytes := m.Bytes();
    empty := FromStatic(m, []);
    KeepAndAdd(bytes, k, empty, []);
  }

  /** `split_off(at)` on a view. `self` and the returned view live on under the two ids; panics past the
      length. */
  method SplitOffView(m: Arena, k: Id, at: nat) returns (r: Option<(Id, Id)>)
    requires m.Valid() && k in m.handles && IsView(m.handles[k])
    modifies m`handles, m`shareds, m`nextId
    ensures m.Valid() && (r.None? <==> at > old(m.handles[k].len))
    ensures r.None? ==> m.State() == old(m.State())
    ensures r.Some? ==>
              && var (self, other) := r.value;
                 && self != other && self in m.handles && other in m.handles
                 && (self == k || self !in old(m.handles)) && (other == k || other !in old(m.handles))
                 && IsView(m.handles[self]) && IsView(m.handles[other])
                 && m.handles - {self, other} == old(m.handles) - {k}
                 && var c := old(m.Bytes()[k]);
                    m.Bytes() == (old(m.Bytes()) - {k})[self := TakeTo(c, at)][other := DropTo(c, at)]
    ensures Evolves(old(m.State()), m.State())
  {
    ghost var bytes := m.Bytes();
    ghost var c := bytes[k];
    HandleFact(m.State(), k);
    var len := m.handles[k].len;
    var rest := if at <= len then len - at else 0;
    TakeAndDrop(c, at, rest);
    assert |c| == len;
    if at == len {
      var empty := AddEmpty(m, k);
      return Some((k, empty));
    }
    if at == 0 {
      var empty := AddEmpty(m, k);
      return Some((empty, k));
    }
    if at > len {
      return None;
    }
    var ret := Cut(m, k, at, rest, 0, at);
    return Some((k, ret));
  }

  /** `split_to(at)` on a view. */
  method SplitToView(m: Arena, k: Id, at: nat) returns (r: Option<(Id, Id)>)
    requires m.Valid() && k in m.handles && IsView(m.handles[k])
    modifies m`handles, m`shareds, m`nextId
    ensures m.Valid() && (r.None? <==> at > old(m.handles[k].len))
    ensures r.None? ==> m.State() == old(m.State())
    ensures r.Some? ==>
              && var (self, other) := r.value;
                 && self != other && self in m.handles && other in m.handles
                 && (self == k || self !in old(m.handles)) && (other == k || other !in old(m.handles))
                 && IsView(m.handles[self]) && IsView(m.handles[other])
                 && m.handles - {self, other} == old(m.handles) - {k}
                 && var c := old(m.Bytes()[k]);
                    m.Bytes() == (old(m.Bytes()) - {k})[self := DropTo(c, at)][other := TakeTo(c, at)]
    ensures Evolves(old(m.State()), m.State())
  {
    ghost var bytes := m.Bytes();
    ghost var c := bytes[k];
    HandleFact(m.State(), k);
    var len := m.handles[k].len;
    var rest := if at <= len then len - at else 0;
    TakeAndDrop(c, at, rest);
    assert |c| == len;
    if at == len {
      var empty := AddEmpty(m, k);
      return Some((empty, k));
    }
    if at == 0 {
      var empty := AddEmpty(m, k);
      return Some((k, empty));
    }
    if at > len {
      return None;
    }
    var ret := Cut(m, k, 0, at, at, rest);
    return Some((k, ret));
  }

  /** The front stays under `self`, the rest is dropped. */
  method SplitAndDrop(m: Arena, k: Id, len: nat) returns (self: Id)
    requires m.Valid() && k in m.handles && IsView(m.handles[k]) && len < m.handles[k].len
    modifies m`handles, m`shareds, m`allocs, m`nextId, m`freed
    ensures m.Valid() && self in m.handles && IsView(m.handles[self]) && (self == k || self !in old(m.handles))
    ensures m.Bytes() == (old(m.Bytes()) - {k})[self := TakeTo(old(m.Bytes()[k]), len)]
    ensures m.handles - {self} == old(m.handles) - {k}
    ensures Evolves(old(m.State()), m.State())
  {
    ghost var bytes, handles := m.Bytes(), m.handles;
    ghost var c, d := TakeTo(bytes[k], len), DropTo(bytes[k], len);
    var r := SplitOffView(m, k, len);
    self := r.value.0;
    AddAndRemove(bytes - {k}, self, r.value.1, c, d);
    DropView(m, r.value.1);
  }

  /** `truncate` on a view: in a promotable view the end moves only through `split_off`, which promotes. */
  method TruncateView(m: Arena, k: Id, len: nat) returns (self: Id)
    requires m.Valid() && k in m.handles && IsView(m.handles[k])
    modifies m`handles, m`shareds, m`allocs, m`nextId, m`freed
    ensures m.Valid() && self in m.handles && IsView(m.handles[self]) && (self == k || self !in old(m.handles))
    ensures m.Bytes() == (old(m.Bytes()) - {k})[self := TakeTo(old(m.Bytes()[k]), len)]
    ensures m.handles - {self} == old(m.handles) - {k}
    ensures Evolves(old(m.State()), m.State())
  {
    ghost var bytes := m.Bytes();
    ghost var c := TakeTo(bytes[k], len);
    HandleFact(m.State(), k);
    TakeAndDrop(bytes[k], len, if len <= |bytes[k]| then |bytes[k]| - len else 0);
    RemoveThenSet(bytes, k, c);
    SetTwice(bytes, k, c, c);
    self := k;
    var form := m.handles[k].form;
    if len < m.handles[k].len {
      if form.ViewVec? || (form.ViewArc? && form.vtable.Promotable?) {
        self := SplitAndDrop(m, k, len);
      } else {
        Narrow(m, k, 0, len);
      }
    }
  }
}
