/** `BytesMut`: the operations that carve an allocation into windows, move handles between vector
    kind and shared kind, and put windows together again. */
module BytesMut {
  import opened Arithmetic
  import opened Wrappers
  import opened DataWord
  import opened Memory
  import opened Heap

  predicate Within(g: Handle, h: Handle) {
    h.off <= g.off && g.off + g.cap <= h.off + h.cap
  }

  /** The capacity class a `BytesMut` was created with. */
  function ClassOf(w: World, k: Id): nat
    requires k in w.handles
  {
    ClassIn(w.shareds, w.handles[k].form)
  }

  function TakeTo(s: seq<byte>, n: nat): seq<byte> {
    if n <= |s| then s[..n] else s
  }

  function DropTo(s: seq<byte>, n: nat): seq<byte> {
    if n <= |s| then s[n..] else []
  }

  // ---- Promotion, cloning and advancing as state changes ----

  /** `promote_to_shared(count)`. */
  function Promoted(w: World, k: Id, count: nat): World
    requires k in w.handles && w.handles[k].form.MutVec?
  {
    var h := w.handles[k];
    var s := w.nextId;
    var pos := VecPos(h.form.word);
    var origin := FromMut(h.len + pos, h.cap + pos, Class(h.form.word));
    w.(handles := w.handles[k := h.(form := MutArc(s))],
       shareds := w.shareds[s := Shared(h.alloc, count, origin)],
       nextId := w.nextId + 1)
  }

  lemma MoreIdsKeeps(w: World, n: nat)
    requires Inv(w)
    ensures Inv(w.(nextId := w.nextId + n))
  {
    var w' := w.(nextId := w.nextId + n);
    forall j | j in w.handles
      ensures j < w'.nextId && HandleOk(w.allocs, w.shareds, w.handles[j])
    {
      HandleFact(w, j);
    }
    forall s | s in w.shareds
      ensures s < w'.nextId && SharedOk(w.allocs, w.handles, s, w.shareds[s])
    {
      SharedFact(w, s);
    }
  }

  lemma IdIsNew(w: World)
    requires HandlesOk(w) && SharedsOk(w)
    ensures w.nextId !in w.handles && w.nextId !in w.shareds
  {
    if w.nextId in w.handles {
      HandleFact(w, w.nextId);
    }
    if w.nextId in w.shareds {
      SharedFact(w, w.nextId);
    }
  }

  lemma PromotedKeeps(w: World, k: Id)
    requires Inv(w) && k in w.handles && w.handles[k].form.MutVec?
    ensures Inv(Promoted(w, k, 1))
    ensures Abs(w.allocs, Promoted(w, k, 1).handles) == Abs(w.allocs, w.handles)
  {
    var w0 := w.(nextId := w.nextId + 1);
    MoreIdsKeeps(w, 1);
    IdIsNew(w);
    HandleFact(w, k);
    var h := w.handles[k];
    var h' := h.(form := MutArc(w.nextId));
    var pos := VecPos(h.form.word);
    var origin := FromMut(h.len + pos, h.cap + pos, Class(h.form.word));
    PromoteKeeps(w0, k, w.nextId, h', origin);
    assert Promoted(w, k, 1) == Promote(w0, k, w.nextId, h', origin);
    UpdateAbs(w.allocs, w.handles, k, h');
  }

  /** `promote_to_shared`: the block takes over the rebuilt vector, whose capacity reaches from the start of the
      allocation to the end of the window, and the class from the packed word. */
  method PromoteToShared(m: Arena, k: Id, count: nat)
    requires k in m.handles && m.handles[k].form.MutVec?
    modifies m`handles, m`shareds, m`nextId
    ensures m.State() == Promoted(old(m.State()), k, count)
  {
    var h := m.handles[k];
    var repr := Class(h.form.word);
    var offset := VecPos(h.form.word);
    var s := m.nextId;
    m.nextId := m.nextId + 1;
    m.shareds := m.shareds[s := Shared(h.alloc, count, FromMut(h.len + offset, h.cap + offset, repr))];
    m.handles := m.handles[k := h.(form := MutArc(s))];
  }

  /** `shallow_clone`: two handles on one window, to be narrowed by the caller. */
  function Cloned(w: World, k: Id): World
    requires k in w.handles && IsMut(w.handles[k])
    requires w.handles[k].form.MutArc? ==> w.handles[k].form.shared in w.shareds
  {
    var p := if w.handles[k].form.MutArc? then
               var s := w.handles[k].form.shared;
               w.(shareds := w.shareds[s := w.shareds[s].(count := w.shareds[s].count + 1)])
             else Promoted(w, k, 2);
    p.(handles := p.handles[p.nextId := p.handles[k]], nextId := p.nextId + 1)
  }

  method ShallowClone(m: Arena, k: Id) returns (other: Id)
    requires k in m.handles && IsMut(m.handles[k])
    requires m.handles[k].form.MutArc? ==> m.handles[k].form.shared in m.shareds
    modifies m`handles, m`shareds, m`nextId
    ensures m.State() == Cloned(old(m.State()), k)
    ensures m.nextId == other + 1
  {
    if m.handles[k].form.MutArc? {
      var s := m.handles[k].form.shared;
      m.shareds := m.shareds[s := m.shareds[s].(count := m.shareds[s].count + 1)];
    } else {
      PromoteToShared(m, k, 2);
    }
    other := m.nextId;
    m.nextId := m.nextId + 1;
    m.handles := m.handles[other := m.handles[k]];
  }

  function Advanced(w: World, k: Id, count: nat): World
    requires k in w.handles && IsMut(w.handles[k])
    requires count <= w.handles[k].cap
  {
    if count == 0 then w
    else
      var h := w.handles[k];
      var p := if h.form.MutVec? then
                 if VecPos(h.form.word) + count <= MAX_VEC_POS then
                   var word := SetVecPos(h.form.word, VecPos(h.form.word) + count);
                   w.(handles := w.handles[k := h.(form := MutVec(word))])
                 else Promoted(w, k, 1)
               else w;
      var g := p.handles[k];
      p.(handles := p.handles[k := Shifted(g, count)])
  }

  /** `advance_unchecked`. */
  method AdvanceUnchecked(m: Arena, k: Id, count: nat)
    requires k in m.handles && IsMut(m.handles[k])
    requires count <= m.handles[k].cap
    modifies m`handles, m`shareds, m`nextId
    ensures m.State() == Advanced(old(m.State()), k, count)
  {
    if count == 0 {
      return;
    }
    if m.handles[k].form.MutVec? {
      var pos := VecPos(m.handles[k].form.word) + count;
      if pos <= MAX_VEC_POS {
        var word := SetVecPos(m.handles[k].form.word, pos);
        m.handles := m.handles[k := m.handles[k].(form := MutVec(word))];
      } else {
        PromoteToShared(m, k, 1);
      }
    }
    var h := m.handles[k];
    var len := if count <= h.len then h.len - count else 0;
    m.handles := m.handles[k := h.(off := h.off + count, len := len, cap := h.cap - count)];
  }

  /** A handle that keeps its form and shrinks inside its window gets in nobody's way. */
  lemma ShrinkKeeps(w: World, k: Id, h: Handle)
    requires Inv(w) && k in w.handles && !w.handles[k].form.ViewStatic?
    requires HandleOk(w.allocs, w.shareds, h) && Within(h, w.handles[k])
    requires h.alloc == w.handles[k].alloc
    requires !h.form.ViewStatic? && Solo(h) == Solo(w.handles[k])
    requires forall s :: HeldBy(h, s) == HeldBy(w.handles[k], s)
    requires IsView(w.handles[k]) ==> IsView(h)
    ensures Inv(Replace(w, k, h))
    ensures Abs(w.allocs, w.handles[k := h]) == Abs(w.allocs, w.handles)[k := Contents(w.allocs, h)]
  {
    forall j | j in w.handles && j != k
      ensures Apart(h, w.handles[j]) && Apart(w.handles[j], h)
    {
      var apart := Apart(w.handles[k], w.handles[j]);
      var apart' := Apart(w.handles[j], w.handles[k]);
    }
    ReplaceKeeps(w, k, h);
    UpdateAbs(w.allocs, w.handles, k, h);
  }

  function Shifted(h: Handle, count: nat): Handle
    requires count <= h.cap
  {
    h.(off := h.off + count, len := if count <= h.len then h.len - count else 0, cap := h.cap - count)
  }

  lemma ShiftedForm(h: Handle, form: Form, count: nat)
    requires count <= h.cap
    ensures Shifted(h.(form := form), count) == Shifted(h, count).(form := form)
  {
  }

  lemma ShiftedContents(allocs: Allocs, h: Handle, count: nat)
    requires count <= h.cap && h.len <= h.cap && !h.form.ViewStatic?
    requires h.alloc in allocs && h.off + h.cap <= |allocs[h.alloc]|
    ensures Contents(allocs, Shifted(h, count)) == DropTo(Contents(allocs, h), count)
  {
  }

  lemma ShiftKeeps(w: World, k: Id, h: Handle, count: nat)
    requires Inv(w) && k in w.handles && IsMut(w.handles[k]) && count <= w.handles[k].cap
    requires IsMut(h) && h == Shifted(w.handles[k], count).(form := h.form)
    requires HandleOk(w.allocs, w.shareds, h)
    requires h.form == w.handles[k].form || (h.form.MutVec? && w.handles[k].form.MutVec?)
    ensures Inv(Replace(w, k, h))
    ensures Abs(w.allocs, w.handles[k := h])
         == Abs(w.allocs, w.handles)[k := DropTo(Contents(w.allocs, w.handles[k]), count)]
  {
    HandleFact(w, k);
    ShiftedContents(w.allocs, w.handles[k], count);
    ShrinkKeeps(w, k, h);
  }

  lemma AdvancedKeeps(w: World, k: Id, count: nat)
    requires Inv(w) && k in w.handles && IsMut(w.handles[k]) && count <= w.handles[k].cap
    ensures var w' := Advanced(w, k, count);
            && Inv(w') && w'.allocs == w.allocs && w'.freed == w.freed && w'.nextAlloc == w.nextAlloc
            && Abs(w.allocs, w'.handles)
            == Abs(w.allocs, w.handles)[k := DropTo(Contents(w.allocs, w.handles[k]), count)]
  {
    HandleFact(w, k);
    var h := w.handles[k];
    if count == 0 {
      ShiftKeeps(w, k, h, 0);
    } else if h.form.MutArc? {
      ShiftKeeps(w, k, Shifted(h, count), count);
    } else if VecPos(h.form.word) + count <= MAX_VEC_POS {
      AdvancedInVec(w, k, count);
    } else {
      AdvancedByPromotion(w, k, count);
    }
  }

  lemma AdvancedByPromotion(w: World, k: Id, count: nat)
    requires Inv(w) && k in w.handles && w.handles[k].form.MutVec? && 0 < count <= w.handles[k].cap
    requires VecPos(w.handles[k].form.word) + count > MAX_VEC_POS
    ensures var w' := Advanced(w, k, count);
            && Inv(w') && w'.allocs == w.allocs && w'.freed == w.freed && w'.nextAlloc == w.nextAlloc
            && Abs(w.allocs, w'.handles)
            == Abs(w.allocs, w.handles)[k := DropTo(Contents(w.allocs, w.handles[k]), count)]
  {
    HandleFact(w, k);
    PromotedKeeps(w, k);
    var p := Promoted(w, k, 1);
    HandleFact(p, k);
    var h := Shifted(p.handles[k], count);
    ShiftKeeps(p, k, h, count);
    assert Advanced(w, k, count) == Replace(p, k, h);
  }

  lemma AdvancedInVec(w: World, k: Id, count: nat)
    requires Inv(w) && k in w.handles && w.handles[k].form.MutVec? && 0 < count <= w.handles[k].cap
    requires VecPos(w.handles[k].form.word) + count <= MAX_VEC_POS
    ensures var w' := Advanced(w, k, count);
            && Inv(w') && w' == Replace(w, k, w'.handles[k])
            && Abs(w.allocs, w'.handles)
            == Abs(w.allocs, w.handles)[k := DropTo(Contents(w.allocs, w.handles[k]), count)]
  {
    HandleFact(w, k);
    var h := w.handles[k];
    var word := SetVecPos(h.form.word, VecPos(h.form.word) + count);
    var h' := Shifted(h, count).(form := MutVec(word));
    ShiftKeeps(w, k, h', count);
    assert Advanced(w, k, count) == Replace(w, k, h');
  }

  /** A vector-backed value stays one exactly as long as the distance from the start of its vector fits the word. */
  lemma AdvancedStaysPacked(w: World, k: Id, count: nat)
    requires Inv(w) && k in w.handles && IsMut(w.handles[k]) && count <= w.handles[k].cap
    ensures var w' := Advanced(w, k, count);
            && k in w'.handles
            && (w'.handles[k].form.MutVec? <==>
                  w.handles[k].form.MutVec? && (count == 0 || w.handles[k].off + count <= USIZE_MAX / 32))
            && (w'.handles[k].form.MutVec? || w.handles[k].form.MutArc? ==> w'.shareds == w.shareds)
  {
    HandleFact(w, k);
  }

  lemma AdvancedShape(w: World, k: Id, count: nat)
    requires k in w.handles && IsMut(w.handles[k]) && count <= w.handles[k].cap
    ensures var w' := Advanced(w, k, count);
            && k in w'.handles && w'.handles == w.handles[k := w'.handles[k]] && IsMut(w'.handles[k])
            && w'.handles[k] == Shifted(w.handles[k], count).(form := w'.handles[k].form)
  {
  }

  lemma AdvancedKeepsClass(w: World, k: Id, count: nat)
    requires k in w.handles && IsMut(w.handles[k]) && count <= w.handles[k].cap
    requires HandleOk(w.allocs, w.shareds, w.handles[k])
    ensures var w' := Advanced(w, k, count);
            && HandleOk(w'.allocs, w'.shareds, w'.handles[k]) && ClassOf(w', k) == ClassOf(w, k)
            && Evolves(w, w')
  {
  }

  // ---- Splitting ----

  /** One window carved into two disjoint ones, the second under a new handle. */
  lemma CarveKeeps(w: World, k: Id, k2: Id, s: Id, h1: Handle, h2: Handle)
    requires Inv(w) && k in w.handles && k2 !in w.handles && k2 < w.nextId && s in w.shareds
    requires w.handles[k].form == h1.form == h2.form == MutArc(s)
    requires w.handles[k].alloc == h1.alloc == h2.alloc
    requires h1.len <= h1.cap && h2.len <= h2.cap
    requires Within(h1, w.handles[k]) && Within(h2, w.handles[k]) && Disjoint(h1, h2)
    ensures var w' := AddHolder(Replace(w, k, h1), k2, s, h2);
            && Inv(w')
            && Abs(w.allocs, w'.handles)
            == Abs(w.allocs, w.handles)[k := Contents(w.allocs, h1)][k2 := Contents(w.allocs, h2)]
  {
    HandleFact(w, k);
    ShrinkKeeps(w, k, h1);
    var w1 := Replace(w, k, h1);
    forall j | j in w1.handles
      ensures Apart(h2, w1.handles[j]) && Apart(w1.handles[j], h2)
    {
      if j != k {
        var apart := Apart(w.handles[k], w.handles[j]);
        var apart' := Apart(w.handles[j], w.handles[k]);
      }
    }
    AddHolderKeeps(w1, k2, s, h2);
    UpdateAbs(w.allocs, w1.handles, k2, h2);
  }

  /** What a handle looks like once it shares its allocation. */
  function SharedForm(w: World, k: Id): World
    requires k in w.handles && IsMut(w.handles[k])
  {
    if w.handles[k].form.MutArc? then w else Promoted(w, k, 1)
  }

  lemma SharedFormKeeps(w: World, k: Id)
    requires Inv(w) && k in w.handles && IsMut(w.handles[k])
    ensures var p := SharedForm(w, k);
            && Inv(p) && p.handles[k].form.MutArc?
            && p.handles[k] == w.handles[k].(form := p.handles[k].form)
            && p.allocs == w.allocs && p.freed == w.freed && p.nextAlloc == w.nextAlloc
            && Abs(w.allocs, p.handles) == Abs(w.allocs, w.handles)
            && p.nextId !in p.handles && p.handles.Keys == w.handles.Keys
            && p.handles[k].form.shared in p.shareds
  {
    HandleFact(w, k);
    if w.handles[k].form.MutVec? {
      PromotedKeeps(w, k);
    }
    IdIsNew(SharedForm(w, k));
  }

  lemma SharedFormClass(w: World, k: Id)
    requires k in w.handles && IsMut(w.handles[k]) && HandleOk(w.allocs, w.shareds, w.handles[k])
    ensures var p := SharedForm(w, k);
            HandleOk(p.allocs, p.shareds, p.handles[k]) && ClassOf(p, k) == ClassOf(w, k)
  {
  }

  /** The two windows a split leaves. */
  ghost predicate SplitInto(w: World, w': World, k: Id, k2: Id, h1: Handle, h2: Handle)
    requires k in w.handles && IsMut(w.handles[k])
    requires HandleOk(w.allocs, w.shareds, w.handles[k])
  {
    && k2 !in w.handles && k in w'.handles && k2 in w'.handles
    && w'.handles == w.handles[k := w'.handles[k]][k2 := w'.handles[k2]]
    && w'.handles[k] == h1.(form := w'.handles[k].form)
    && w'.handles[k2] == h2.(form := w'.handles[k].form)
    && IsMut(w'.handles[k]) && IsMut(w'.handles[k2])
    && HandleOk(w'.allocs, w'.shareds, w'.handles[k]) && HandleOk(w'.allocs, w'.shareds, w'.handles[k2])
    && ClassOf(w', k) == ClassOf(w', k2) == ClassOf(w, k)
    && w'.allocs == w.allocs && w'.freed == w.freed && Evolves(w, w')
  }

  /** The state after a split into windows `h1`, kept by `k`, and `h2`, under the next free id. */
  function Split(w: World, k: Id, h1: Handle, h2: Handle): World
    requires k in w.handles && IsMut(w.handles[k])
    requires w.handles[k].form.MutArc? ==> w.handles[k].form.shared in w.shareds
  {
    var p := SharedForm(w, k);
    var form := p.handles[k].form;
    AddHolder(Replace(p, k, h1.(form := form)), p.nextId, form.shared, h2.(form := form)).(nextId := p.nextId + 1)
  }

  lemma SplitIsCarving(w: World, k: Id, h1: Handle, h2: Handle)
    requires k in w.handles && IsMut(w.handles[k])
    requires w.handles[k].form.MutArc? ==> w.handles[k].form.shared in w.shareds
    ensures var p := SharedForm(w, k);
            var p1 := p.(nextId := p.nextId + 1);
            var form := p.handles[k].form;
            && form.MutArc? && form.shared in p.shareds
            && Split(w, k, h1, h2)
            == AddHolder(Replace(p1, k, h1.(form := form)), p.nextId, form.shared, h2.(form := form))
  {
  }

  lemma SplitKeeps(w: World, k: Id, h1: Handle, h2: Handle)
    requires Inv(w) && k in w.handles && IsMut(w.handles[k])
    requires w.handles[k].alloc == h1.alloc == h2.alloc
    requires h1.form == h2.form == w.handles[k].form
    requires h1.len <= h1.cap && h2.len <= h2.cap
    requires Within(h1, w.handles[k]) && Within(h2, w.handles[k]) && Disjoint(h1, h2)
    ensures HandleOk(w.allocs, w.shareds, w.handles[k])
    ensures Inv(Split(w, k, h1, h2))
    ensures Abs(w.allocs, Split(w, k, h1, h2).handles)
         == Abs(w.allocs, w.handles)[k := Contents(w.allocs, h1)][SharedForm(w, k).nextId := Contents(w.allocs, h2)]
  {
    HandleFact(w, k);
    SharedFormKeeps(w, k);
    SplitIsCarving(w, k, h1, h2);
    var p := SharedForm(w, k);
    var form := p.handles[k].form;
    MoreIdsKeeps(p, 1);
    CarveKeeps(p.(nextId := p.nextId + 1), k, p.nextId, form.shared, h1.(form := form), h2.(form := form));
    assert Contents(w.allocs, h1.(form := form)) == Contents(w.allocs, h1);
    assert Contents(w.allocs, h2.(form := form)) == Contents(w.allocs, h2);
  }

  lemma SplitShape(w: World, k: Id, h1: Handle, h2: Handle)
    requires Inv(w) && k in w.handles && IsMut(w.handles[k])
    requires HandleOk(w.allocs, w.shareds, w.handles[k])
    requires Inv(Split(w, k, h1, h2))
    ensures SplitInto(w, Split(w, k, h1, h2), k, SharedForm(w, k).nextId, h1, h2)
  {
    SharedFormKeeps(w, k);
    SharedFormClass(w, k);
    var w' := Split(w, k, h1, h2);
    HandleFact(w', k);
    HandleFact(w', SharedForm(w, k).nextId);
  }

  lemma NarrowedContents(allocs: Allocs, h: Handle, at: nat, h': Handle)
    requires h.len <= h.cap && !h.form.ViewStatic? && !h'.form.ViewStatic?
    requires h.alloc in allocs && h.off + h.cap <= |allocs[h.alloc]|
    requires h'.alloc == h.alloc && h'.off == h.off && h'.len == Min(h.len, at)
    ensures Contents(allocs, h') == TakeTo(Contents(allocs, h), at)
  {
  }

  /** The two parts of a window under the two handles, in either order. */
  lemma SplitParts(w: World, k: Id, at: nat, h1: Handle, h2: Handle)
    requires Inv(w) && k in w.handles && IsMut(w.handles[k]) && at <= w.handles[k].cap
    requires var h := w.handles[k];
             var low, high := h.(cap := at, len := Min(h.len, at)), Shifted(h, at);
             (h1, h2) == (low, high) || (h1, h2) == (high, low)
    ensures HandleOk(w.allocs, w.shareds, w.handles[k])
    ensures Inv(Split(w, k, h1, h2)) && SplitInto(w, Split(w, k, h1, h2), k, SharedForm(w, k).nextId, h1, h2)
    ensures var h := w.handles[k];
            var c := Contents(w.allocs, h);
            var c1, c2 := if h1 == Shifted(h, at) then DropTo(c, at) else TakeTo(c, at),
                          if h2 == Shifted(h, at) then DropTo(c, at) else TakeTo(c, at);
            Abs(w.allocs, Split(w, k, h1, h2).handles)
            == Abs(w.allocs, w.handles)[k := c1][SharedForm(w, k).nextId := c2]
  {
    HandleFact(w, k);
    var h := w.handles[k];
    SplitKeeps(w, k, h1, h2);
    SplitShape(w, k, h1, h2);
    ShiftedContents(w.allocs, h, at);
    NarrowedContents(w.allocs, h, at, h.(cap := at, len := Min(h.len, at)));
  }

  /** Cloning and then narrowing both handles is a split. */
  lemma CloneThenNarrow(w: World, k: Id, h1: Handle, h2: Handle)
    requires HandlesOk(w) && SharedsOk(w) && k in w.handles && IsMut(w.handles[k])
    requires w.handles[k].form.MutArc? ==> w.handles[k].form.shared in w.shareds
    ensures var c := Cloned(w, k);
            var k2 := SharedForm(w, k).nextId;
            && k in c.handles && k2 in c.handles && k2 != k && c.nextId == k2 + 1
            && c.handles[k] == c.handles[k2] == w.handles[k].(form := c.handles[k].form) && c.handles[k].form.MutArc?
            && c.(handles := c.handles[k := h1.(form := c.handles[k].form)][k2 := h2.(form := c.handles[k].form)])
            == Split(w, k, h1, h2)
  {
    HandleFact(w, k);
    IdIsNew(w);
  }

  /** `advance_unchecked` in shared kind only moves the start. */
  method AdvanceShared(m: Arena, k: Id, count: nat)
    requires k in m.handles && m.handles[k].form.MutArc? && count <= m.handles[k].cap
    modifies m`handles, m`shareds, m`nextId
    ensures m.State() == Replace(old(m.State()), k, Shifted(old(m.handles[k]), count))
  {
    ghost var handles := m.handles;
    AdvanceUnchecked(m, k, count);
    assert m.handles == handles[k := Shifted(handles[k], count)];
  }

  /** The steps of `split_off` past its check: clone, advance the clone, cut the value short. */
  method CloneAndCut(m: Arena, k: Id, at: nat) returns (other: Id)
    requires m.Valid() && k in m.handles && IsMut(m.handles[k]) && at <= m.handles[k].cap
    requires HandleOk(m.allocs, m.shareds, m.handles[k])
    modifies m`handles, m`shareds, m`nextId
    ensures other == SharedForm(old(m.State()), k).nextId
    ensures var h := old(m.handles[k]);
            m.State() == Split(old(m.State()), k, h.(cap := at, len := Min(h.len, at)), Shifted(h, at))
  {
    ghost var w := m.State();
    ghost var h := m.handles[k];
    ghost var h1, h2 := h.(cap := at, len := Min(h.len, at)), Shifted(h, at);
    CloneThenNarrow(w, k, h1, h2);
    other := ShallowClone(m, k);
    ghost var c := m.State();
    ghost var form := m.handles[k].form;
    ShiftedForm(h, form, at);
    AdvanceShared(m, other, at);
    m.handles := m.handles[k := m.handles[k].(cap := at, len := Min(m.handles[k].len, at))];
    assert m.handles == c.handles[k := h1.(form := form)][other := h2.(form := form)];
  }

  /** `split_off(at)`: afterwards the value ends at `at` and the new one starts there, in bytes and in
      capacity. It panics exactly when `at` lies beyond the capacity. */
  method SplitOff(m: Arena, k: Id, at: nat) returns (r: Option<Id>)
    requires m.Valid() && k in m.handles && IsMut(m.handles[k])
    modifies m`handles, m`shareds, m`nextId
    ensures m.Valid()
    ensures r.None? <==> at > old(m.handles[k].cap)
    ensures r.None? ==> m.State() == old(m.State())
    ensures r.Some? ==>
              && HandleOk(old(m.allocs), old(m.shareds), old(m.handles[k]))
              && SplitInto(old(m.State()), m.State(), k, r.value,
                           old(m.handles[k]).(cap := at, len := Min(old(m.handles[k].len), at)),
                           Shifted(old(m.handles[k]), at))
              && var c := old(m.Bytes()[k]);
                 m.Bytes() == old(m.Bytes())[k := TakeTo(c, at)][r.value := DropTo(c, at)]
  {
    if at > m.handles[k].cap {
      return None;
    }
    ghost var w := m.State();
    HandleFact(w, k);
    ghost var h := m.handles[k];
    SplitParts(w, k, at, h.(cap := at, len := Min(h.len, at)), Shifted(h, at));
    var other := CloneAndCut(m, k, at);
    r := Some(other);
  }

  /** The steps of `split_to` past its check: clone, advance the value, cut the clone short. */
  method CloneAndAdvance(m: Arena, k: Id, at: nat) returns (other: Id)
    requires m.Valid() && k in m.handles && IsMut(m.handles[k]) && at <= m.handles[k].len
    requires HandleOk(m.allocs, m.shareds, m.handles[k])
    modifies m`handles, m`shareds, m`nextId
    ensures other == SharedForm(old(m.State()), k).nextId
    ensures var h := old(m.handles[k]);
            m.State() == Split(old(m.State()), k, Shifted(h, at), h.(cap := at, len := at))
  {
    ghost var w := m.State();
    ghost var h := m.handles[k];
    ghost var h1, h2 := Shifted(h, at), h.(cap := at, len := at);
    CloneThenNarrow(w, k, h1, h2);
    other := ShallowClone(m, k);
    ghost var c := m.State();
    ghost var form := m.handles[k].form;
    ShiftedForm(h, form, at);
    AdvanceShared(m, k, at);
    m.handles := m.handles[other := m.handles[other].(cap := at, len := at)];
    assert m.handles == c.handles[k := h1.(form := form)][other := h2.(form := form)];
  }

  /** `split_to(at)`: the new value takes the first `at` bytes, the old one keeps the rest and its spare
      capacity. It panics exactly when `at` lies beyond the length. */
  method SplitTo(m: Arena, k: Id, at: nat) returns (r: Option<Id>)
    requires m.Valid() && k in m.handles && IsMut(m.handles[k])
    modifies m`handles, m`shareds, m`nextId
    ensures m.Valid()
    ensures r.None? <==> at > old(m.handles[k].len)
    ensures r.None? ==> m.State() == old(m.State())
    ensures r.Some? ==>
              && HandleOk(old(m.allocs), old(m.shareds), old(m.handles[k]))
              && SplitInto(old(m.State()), m.State(), k, r.value, Shifted(old(m.handles[k]), at),
                           old(m.handles[k]).(cap := at, len := at))
              && var c := old(m.Bytes()[k]);
                 m.Bytes() == old(m.Bytes())[k := DropTo(c, at)][r.value := TakeTo(c, at)]
  {
    if at > m.handles[k].len {
      return None;
    }
    ghost var w := m.State();
    HandleFact(w, k);
    ghost var h := m.handles[k];
    SplitParts(w, k, at, Shifted(h, at), h.(cap := at, len := at));
    var other := CloneAndAdvance(m, k, at);
    r := Some(other);
  }

  // ---- Moving and truncating ----

  /** `Buf::advance`: the first `count` bytes are gone; it panics past the length. */
  method Advance(m: Arena, k: Id, count: nat) returns (ok: bool)
    requires m.Valid() && k in m.handles && IsMut(m.handles[k])
    modifies m`handles, m`shareds, m`nextId
    ensures m.Valid()
    ensures ok <==> count <= old(m.handles[k].len)
    ensures !ok ==> m.State() == old(m.State())
    ensures ok ==> m.Bytes() == old(m.Bytes())[k := DropTo(old(m.Bytes()[k]), count)]
    ensures HandleOk(old(m.allocs), old(m.shareds), old(m.handles[k])) && k in m.handles && IsMut(m.handles[k])
    ensures HandleOk(m.allocs, m.shareds, m.handles[k]) && ClassOf(m.State(), k) == ClassOf(old(m.State()), k)
    ensures ok ==> m.handles == old(m.handles)[k := Shifted(old(m.handles[k]), count).(form := m.handles[k].form)]
    ensures Evolves(old(m.State()), m.State())
  {
    HandleFact(m.State(), k);
    ok := count <= m.handles[k].len;
    if ok {
      AdvancedShape(m.State(), k, count);
      AdvancedKeeps(m.State(), k, count);
      AdvancedKeepsClass(m.State(), k, count);
      AdvanceUnchecked(m, k, count);
    }
  }

  /** `truncate`. */
  method Truncate(m: Arena, k: Id, len: nat)
    requires m.Valid() && k in m.handles && IsMut(m.handles[k])
    modifies m`handles
    ensures m.Valid()
    ensures m.Bytes() == old(m.Bytes())[k := TakeTo(old(m.Bytes()[k]), len)]
    ensures m.handles == old(m.handles)[k := old(m.handles[k]).(len := Min(old(m.handles[k].len), len))]
  {
    ghost var w := m.State();
    ghost var h := m.handles[k];
    HandleFact(w, k);
    NarrowedContents(w.allocs, h, len, h.(len := Min(h.len, len)));
    ShrinkKeeps(w, k, h.(len := Min(h.len, len)));
    if len <= m.handles[k].len {
      m.handles := m.handles[k := m.handles[k].(len := len)];
    }
    assert m.handles == old(m.handles)[k := h.(len := Min(h.len, len))];
  }
}
