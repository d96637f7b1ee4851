/** Whole runs: any sequence of operations, on any values, in any order. */
module Runs {
  import opened Arithmetic
  import opened Wrappers
  import opened DataWord
  import opened Memory
  import opened Heap
  import opened BytesMut
  import opened BytesMutReserve
  import opened BytesViews
  import opened Conversions

  datatype Op =
    | NewVecOp(src: seq<byte>)
    | StaticOp(text: seq<byte>)
    | MutFromVecOp(k: Id)
    | ViewFromVecOp(k: Id)
    | SplitOffOp(k: Id, at: nat)
    | SplitToOp(k: Id, at: nat)
    | AdvanceOp(k: Id, count: nat)
    | TruncateOp(k: Id, len: nat)
    | ReserveOp(k: Id, additional: nat, allocate: bool)
    | ExtendOp(k: Id, src: seq<byte>)
    | StoreOp(k: Id, i: nat, value: byte)
    | UnsplitOp(k: Id, other: Id)
    | FreezeOp(k: Id)
    | IntoVecOp(k: Id)
    | IntoMutOp(k: Id)
    | CloneOp(k: Id)
    | SliceOp(k: Id, from: Bound, to: Bound)
    | DropOp(k: Id)

  // ---- What a user sees ----

  /** A value as its owner sees it: its kind, its bytes, and the capacity it reports; a `BytesMut` also carries the
      capacity class it was created with. */
  datatype Value =
    | AVec(cap: nat, bytes: seq<byte>)
    | AMut(class_: nat, cap: nat, bytes: seq<byte>)
    | AView(bytes: seq<byte>)

  type Values = map<Id, Value>

  function ValueOf(allocs: Allocs, shareds: Shareds, h: Handle): Value {
    var c := Contents(allocs, h);
    if IsView(h) then AView(c)
    else if IsMut(h) then AMut(ClassIn(shareds, h.form), h.cap, c)
    else AVec(h.cap, c)
  }

  function ValuesOf(w: World): Values {
    map k | k in w.handles :: ValueOf(w.allocs, w.shareds, w.handles[k])
  }

  /** A new value. */
  ghost predicate Added(b: Values, a: Values, v: Value) {
    exists k: Id :: k !in b && a == b[k := v]
  }

  /** One value became two, one of which may go on under the old id. */
  ghost predicate Divided(b: Values, a: Values, k: Id, self: Value, other: Value) {
    exists i: Id, j: Id :: IsDivided(b, a, k, i, j, self, other)
  }

  predicate IsDivided(b: Values, a: Values, k: Id, i: Id, j: Id, self: Value, other: Value) {
    i != j && (i == k || i !in b) && (j == k || j !in b) && a == (b - {k})[i := self][j := other]
  }

  /** One value went on as another one, perhaps under a new id. */
  ghost predicate Moved(b: Values, a: Values, k: Id, v: Value) {
    exists i: Id :: IsMoved(b, a, k, i, v)
  }

  predicate IsMoved(b: Values, a: Values, k: Id, i: Id, v: Value) {
    (i == k || i !in b) && a == (b - {k})[i := v]
  }

  /** One value became a vector, or a `BytesMut`, of some capacity that holds its bytes. */
  ghost predicate BecameVec(b: Values, a: Values, k: Id, c: seq<byte>) {
    exists cap: nat :: cap >= |c| && a == b[k := AVec(cap, c)]
  }

  ghost predicate BecameMut(b: Values, a: Values, k: Id, c: seq<byte>) {
    exists class_: nat, cap: nat :: class_ <= 7 && cap >= |c| && a == b[k := AMut(class_, cap, c)]
  }

  /** A `BytesMut` of the same class has some capacity with so much room. */
  ghost predicate HasRoom(b: Values, a: Values, k: Id, class_: nat, c: seq<byte>, room: nat) {
    exists cap: nat :: cap >= |c| + room && a == b[k := AMut(class_, cap, c)]
  }

  /** What an operation does to a vector; one that a vector does not have changes nothing. */
  predicate SeenVec(op: Op, b: Values, a: Values, k: Id, cap: nat, c: seq<byte>) {
    match op
    case MutFromVecOp(_) => a == b[k := AMut(OriginalCapacityToRepr(cap), cap, c)]
    case ViewFromVecOp(_) => a == b[k := AView(c)]
    case DropOp(_) => a == b - {k}
    case _ => a == b
  }

  /** What an operation does to a `Bytes`; one that panics changes nothing. */
  ghost predicate SeenView(op: Op, b: Values, a: Values, k: Id, c: seq<byte>) {
    match op
    case SplitOffOp(_, at) =>
      if at > |c| then a == b else Divided(b, a, k, AView(TakeTo(c, at)), AView(DropTo(c, at)))
    case SplitToOp(_, at) =>
      if at > |c| then a == b else Divided(b, a, k, AView(DropTo(c, at)), AView(TakeTo(c, at)))
    case AdvanceOp(_, count) => a == if count > |c| then b else b[k := AView(DropTo(c, count))]
    case TruncateOp(_, len) => Moved(b, a, k, AView(TakeTo(c, len)))
    case CloneOp(_) => Added(b, a, AView(c))
    case SliceOp(_, from, to) =>
      var lo, hi := RangeStart(from), RangeEnd(to, |c|);
      if lo.Some? && hi.Some? && lo.value <= hi.value <= |c| then
        Added(b, a, AView(Selected(c, from, to, |c|)))
      else a == b
    case IntoVecOp(_) => BecameVec(b, a, k, c)
    case IntoMutOp(_) => BecameMut(b, a, k, c)
    case DropOp(_) => a == b - {k}
    case _ => a == b
  }

  ghost predicate CanReclaim(w: World, k: Id, additional: nat)
    requires k in w.handles
  {
    w.handles[k].alloc in w.allocs && CanReuse(w, k, additional)
  }

  /** What an operation does to a `BytesMut`: its capacity goes with its bytes, its class stays, and a reserve leaves
      the room asked for: with permission to allocate unless a sum overflows, without it exactly when the room can be
      reclaimed. */
  ghost predicate SeenMut(w: World, op: Op, b: Values, a: Values, k: Id, class_: nat, cap: nat, c: seq<byte>)
    requires k in w.handles && b == ValuesOf(w)
  {
    match op
    case SplitOffOp(_, at) =>
      if at > cap then a == b
      else Divided(b, a, k, AMut(class_, at, TakeTo(c, at)), AMut(class_, cap - at, DropTo(c, at)))
    case SplitToOp(_, at) =>
      if at > |c| || at > cap then a == b
      else Divided(b, a, k, AMut(class_, cap - at, DropTo(c, at)), AMut(class_, at, TakeTo(c, at)))
    case AdvanceOp(_, count) =>
      a == if count > |c| || count > cap then b else b[k := AMut(class_, cap - count, DropTo(c, count))]
    case TruncateOp(_, len) => a == b[k := AMut(class_, cap, TakeTo(c, len))]
    case ReserveOp(_, additional, allocate) =>
      var able := if allocate then !Overflows(w, k, additional, true) else CanReclaim(w, k, additional);
      if cap >= |c| + additional || !able then a == b else HasRoom(b, a, k, class_, c, additional)
    case ExtendOp(_, src) =>
      if ExtendPanics(w, k, |src|) then a == b else HasRoom(b, a, k, class_, c + src, 0)
    case StoreOp(_, i, value) => a == if i < |c| then b[k := AMut(class_, cap, SetByte(c, i, value))] else b
    case UnsplitOp(_, o) =>
      if o !in b || o == k || !b[o].AMut? then a == b
      else if UnsplitPanics(w, k, o) then a == b - {o}
      else if c == [] then a == b - {k}
      else HasRoom(b - {o}, a, k, class_, c + b[o].bytes, 0)
    case FreezeOp(_) => a == b[k := AView(c)]
    case IntoVecOp(_) => BecameVec(b, a, k, c)
    case DropOp(_) => a == b - {k}
    case _ => a == b
  }

  /** What one operation does to all values. */
  ghost predicate IsStep(w: World, op: Op, w': World) {
    var b, a := ValuesOf(w), ValuesOf(w');
    if op.NewVecOp? then exists cap: nat :: cap >= |op.src| && Added(b, a, AVec(cap, op.src))
    else if op.StaticOp? then Added(b, a, AView(op.text))
    else if op.k !in b then a == b
    else
      match b[op.k]
      case AVec(cap, c) => SeenVec(op, b, a, op.k, cap, c)
      case AMut(class_, cap, c) => SeenMut(w, op, b, a, op.k, class_, cap, c)
      case AView(c) => SeenView(op, b, a, op.k, c)
  }

  ghost predicate DoesToView(w: World, op: Op, w': World, k: Id)
    requires k in w.handles
  {
    SeenView(op, ValuesOf(w), ValuesOf(w'), k, Contents(w.allocs, w.handles[k]))
  }

  ghost predicate DoesToMut(w: World, op: Op, w': World, k: Id)
    requires k in w.handles
  {
    var h := w.handles[k];
    SeenMut(w, op, ValuesOf(w), ValuesOf(w'), k, ClassIn(w.shareds, h.form), h.cap, Contents(w.allocs, h))
  }

  // ---- From handles to values ----

  /** The state grew out of another one: blocks keep their class. */
  ghost predicate Follows(w: World, w': World) {
    Inv(w) && Inv(w') && Evolves(w, w')
  }

  lemma SameValue(w: World, w': World, k: Id)
    requires Follows(w, w') && k in w.handles && k in w'.handles && w'.handles[k] == w.handles[k]
    requires Abs(w'.allocs, w'.handles)[k] == Abs(w.allocs, w.handles)[k]
    ensures ValuesOf(w')[k] == ValuesOf(w)[k]
  {
    ClassKept(w, w', k);
  }

  lemma SetInMap<V>(b: map<Id, V>, a: map<Id, V>, k: Id)
    requires k in a && a.Keys == b.Keys + {k}
    requires forall j :: j in b && j != k ==> a[j] == b[j]
    ensures a == b[k := a[k]]
  {
  }

  lemma TwoInMap<V>(b: map<Id, V>, a: map<Id, V>, k: Id, i: Id, j: Id)
    requires i in a && j in a && a.Keys == b.Keys - {k} + {i, j}
    requires forall o :: o in a && o != i && o != j ==> a[o] == b[o]
    ensures a == (b - {k})[i := a[i]][j := a[j]]
  {
  }

  /** A value changed or was added, and nothing else. */
  lemma OneSet(w: World, w': World, k: Id, c: seq<byte>)
    requires Follows(w, w') && k in w'.handles && w'.handles == w.handles[k := w'.handles[k]]
    requires Abs(w'.allocs, w'.handles) == Abs(w.allocs, w.handles)[k := c]
    ensures ValuesOf(w') == ValuesOf(w)[k := ValuesOf(w')[k]] && ValuesOf(w')[k].bytes == c
  {
    assert Abs(w'.allocs, w'.handles)[k] == c;
    forall j | j in w.handles && j != k
      ensures ValuesOf(w')[j] == ValuesOf(w)[j]
    {
      SameValue(w, w', j);
    }
    SetInMap(ValuesOf(w), ValuesOf(w'), k);
  }

  /** A value went away, and nothing else changed. */
  lemma OneGone(w: World, w': World, k: Id)
    requires Follows(w, w') && w'.handles == w.handles - {k}
    requires Abs(w'.allocs, w'.handles) == Abs(w.allocs, w.handles) - {k}
    ensures ValuesOf(w') == ValuesOf(w) - {k}
  {
    forall j | j in w'.handles
      ensures ValuesOf(w')[j] == ValuesOf(w)[j]
    {
      SameValue(w, w', j);
    }
  }

  /** What an exchange of one entry for two says entry by entry. */
  lemma Exchanged<V>(b: map<Id, V>, a: map<Id, V>, k: Id, i: Id, j: Id)
    requires i in a && j in a && a - {i, j} == b - {k}
    ensures a.Keys == b.Keys - {k} + {i, j}
    ensures forall o :: o in a && o != i && o != j ==> o in b && o != k && a[o] == b[o]
  {
    var rest := a - {i, j};
    assert forall o :: o in a && o != i && o != j ==> o in rest && rest[o] == a[o];
    assert forall o :: o in rest ==> o in b && o != k && b[o] == rest[o];
    assert forall o :: o in b && o != k ==> o in rest;
  }

  lemma ExchangedFor<V>(b: map<Id, V>, a: map<Id, V>, k: Id, i: Id, j: Id, c: V, d: V)
    requires i != j && (i == k || i !in b) && (j == k || j !in b) && a == (b - {k})[i := c][j := d]
    ensures i in a && j in a && a[i] == c && a[j] == d && a - {i, j} == b - {k}
  {
  }

  /** A value gave way to two, one of which may have its id. */
  lemma OneForTwo(w: World, w': World, k: Id, i: Id, j: Id)
    requires Follows(w, w') && i in w'.handles && j in w'.handles
    requires w'.handles - {i, j} == w.handles - {k}
    requires Abs(w'.allocs, w'.handles) - {i, j} == Abs(w.allocs, w.handles) - {k}
    ensures ValuesOf(w') == (ValuesOf(w) - {k})[i := ValuesOf(w')[i]][j := ValuesOf(w')[j]]
  {
    Exchanged(Abs(w.allocs, w.handles), Abs(w'.allocs, w'.handles), k, i, j);
    Exchanged(w.handles, w'.handles, k, i, j);
    forall o | o in w'.handles && o != i && o != j
      ensures ValuesOf(w')[o] == ValuesOf(w)[o]
    {
      SameValue(w, w', o);
    }
    TwoInMap(ValuesOf(w), ValuesOf(w'), k, i, j);
  }

  lemma LengthOf(w: World, k: Id)
    requires Inv(w) && k in w.handles
    ensures |Contents(w.allocs, w.handles[k])| == w.handles[k].len <= w.handles[k].cap
  {
    HandleFact(w, k);
  }

  lemma ClassIsSmall(w: World, k: Id)
    requires Inv(w) && k in w.handles
    ensures ClassIn(w.shareds, w.handles[k].form) <= 7
  {
    HandleFact(w, k);
    if w.handles[k].form.MutArc? {
      SharedFact(w, w.handles[k].form.shared);
    }
  }

  lemma DividedInto(b: Values, a: Values, k: Id, i: Id, j: Id, self: Value, other: Value)
    requires IsDivided(b, a, k, i, j, self, other)
    ensures Divided(b, a, k, self, other)
  {
  }

  lemma AddedAs(b: Values, a: Values, k: Id, v: Value)
    requires k !in b && a == b[k := v]
    ensures Added(b, a, v)
  {
  }

  lemma MovedTo(b: Values, a: Values, k: Id, i: Id, v: Value)
    requires IsMoved(b, a, k, i, v)
    ensures Moved(b, a, k, v)
  {
  }

  /** A value that stays under its id, or a new one next to it, and a value that is only looked at. */
  lemma TouchedAndAdded(w: World, w': World, k: Id, k2: Id, c: seq<byte>)
    requires Follows(w, w') && k in w.handles && IsView(w.handles[k]) && k2 !in w.handles
    requires k in w'.handles && IsView(w'.handles[k]) && k2 in w'.handles && IsView(w'.handles[k2])
    requires w'.handles == w.handles[k := w'.handles[k]][k2 := w'.handles[k2]]
    requires Abs(w'.allocs, w'.handles) == Abs(w.allocs, w.handles)[k2 := c]
    ensures ValuesOf(w') == ValuesOf(w)[k2 := AView(c)]
  {
    var b, a := Abs(w.allocs, w.handles), Abs(w'.allocs, w'.handles);
    assert a[k] == b[k] && a[k2] == c;
    forall j | j in w.handles
      ensures ValuesOf(w')[j] == ValuesOf(w)[j]
    {
      assert a[j] == b[j];
      if j != k {
        SameValue(w, w', j);
      }
    }
    SetInMap(ValuesOf(w), ValuesOf(w'), k2);
  }

  // ---- Steps on a view ----

  method SplitAView(m: Arena, op: Op, k: Id)
    requires m.Valid() && k in m.handles && IsView(m.handles[k])
    requires op.SplitOffOp? || op.SplitToOp?
    modifies m
    ensures m.Valid()
    ensures DoesToView(old(m.State()), op, m.State(), k)
  {
    ghost var w := m.State();
    ghost var c := m.Bytes()[k];
    LengthOf(w, k);
    var r;
    if op.SplitOffOp? {
      r := SplitOffView(m, k, op.at);
    } else {
      r := SplitToView(m, k, op.at);
    }
    if r.Some? {
      ghost var (i, j) := r.value;
      ghost var first, last := TakeTo(c, op.at), DropTo(c, op.at);
      ghost var x, y := if op.SplitOffOp? then first else last, if op.SplitOffOp? then last else first;
      ExchangedFor(Abs(w.allocs, w.handles), m.Bytes(), k, i, j, x, y);
      OneForTwo(w, m.State(), k, i, j);
      DividedInto(ValuesOf(w), ValuesOf(m.State()), k, i, j, AView(x), AView(y));
    }
  }

  method AdvanceAView(m: Arena, op: Op, k: Id)
    requires m.Valid() && k in m.handles && IsView(m.handles[k]) && op.AdvanceOp?
    modifies m
    ensures m.Valid()
    ensures DoesToView(old(m.State()), op, m.State(), k)
  {
    ghost var w := m.State();
    LengthOf(w, k);
    var ok := AdvanceView(m, k, op.count);
    if ok {
      ghost var c := Contents(w.allocs, w.handles[k]);
      ghost var rest := DropTo(c, op.count);
      OneSet(w, m.State(), k, rest);
      ViewAdvanceSeen(op, ValuesOf(w), ValuesOf(m.State()), k, c, rest);
    }
  }

  lemma ViewAdvanceSeen(op: Op, b: Values, a: Values, k: Id, c: seq<byte>, rest: seq<byte>)
    requires op.AdvanceOp? && op.count <= |c| && rest == DropTo(c, op.count) && a == b[k := AView(rest)]
    ensures SeenView(op, b, a, k, c)
  {
  }

  method TruncateAView(m: Arena, op: Op, k: Id)
    requires m.Valid() && k in m.handles && IsView(m.handles[k]) && op.TruncateOp?
    modifies m
    ensures m.Valid()
    ensures DoesToView(old(m.State()), op, m.State(), k)
  {
    ghost var w := m.State();
    var self := TruncateView(m, k, op.len);
    ViewMoved(w, m.State(), k, self, TakeTo(Contents(w.allocs, w.handles[k]), op.len));
  }

  lemma ViewMoved(w: World, w': World, k: Id, i: Id, c: seq<byte>)
    requires Follows(w, w') && k in w.handles && i in w'.handles && IsView(w'.handles[i])
    requires (i == k || i !in w.handles) && w'.handles - {i} == w.handles - {k}
    requires Abs(w'.allocs, w'.handles) == (Abs(w.allocs, w.handles) - {k})[i := c]
    ensures Moved(ValuesOf(w), ValuesOf(w'), k, AView(c))
  {
    var b, a := Abs(w.allocs, w.handles), Abs(w'.allocs, w'.handles);
    assert a[i] == c && a - {i, i} == b - {k};
    OneForTwo(w, w', k, i, i);
    MovedTo(ValuesOf(w), ValuesOf(w'), k, i, AView(c));
  }

  method CloneAView(m: Arena, op: Op, k: Id)
    requires m.Valid() && k in m.handles && IsView(m.handles[k]) && op.CloneOp?
    modifies m
    ensures m.Valid()
    ensures DoesToView(old(m.State()), op, m.State(), k)
  {
    ghost var w := m.State();
    ghost var c := m.Bytes()[k];
    var k2 := Clone(m, k);
    TouchedAndAdded(w, m.State(), k, k2, c);
    AddedAs(ValuesOf(w), ValuesOf(m.State()), k2, AView(c));
  }

  method SliceAView(m: Arena, op: Op, k: Id)
    requires m.Valid() && k in m.handles && IsView(m.handles[k]) && op.SliceOp?
    modifies m
    ensures m.Valid()
    ensures DoesToView(old(m.State()), op, m.State(), k)
  {
    ghost var w := m.State();
    ghost var c := m.Bytes()[k];
    LengthOf(w, k);
    var r := SliceView(m, k, op.from, op.to);
    if r.Some? {
      ghost var part := Selected(c, op.from, op.to, |c|);
      TouchedAndAdded(w, m.State(), k, r.value, part);
      AddedAs(ValuesOf(w), ValuesOf(m.State()), r.value, AView(part));
    }
  }

  lemma SameBytes(w: World, w': World, k: Id)
    requires Follows(w, w') && k in w.handles && k in w'.handles && w'.handles == w.handles[k := w'.handles[k]]
    requires Abs(w'.allocs, w'.handles) == Abs(w.allocs, w.handles)
    ensures ValuesOf(w') == ValuesOf(w)[k := ValuesOf(w')[k]]
    ensures ValuesOf(w')[k].bytes == Abs(w.allocs, w.handles)[k] && |ValuesOf(w')[k].bytes| <= w'.handles[k].cap
    ensures ClassIn(w'.shareds, w'.handles[k].form) <= 7
  {
    var b := Abs(w.allocs, w.handles);
    assert b == b[k := b[k]];
    OneSet(w, w', k, b[k]);
    LengthOf(w', k);
    ClassIsSmall(w', k);
  }

  /** One operation on a `Bytes`. */
  method StepView(m: Arena, op: Op, k: Id)
    requires m.Valid() && k in m.handles && IsView(m.handles[k]) && !op.NewVecOp? && !op.StaticOp?
    modifies m
    ensures m.Valid()
    ensures DoesToView(old(m.State()), op, m.State(), k)
  {
    ghost var w := m.State();
    match op
    case SplitOffOp(_, _) => SplitAView(m, op, k);
    case SplitToOp(_, _) => SplitAView(m, op, k);
    case AdvanceOp(_, _) => AdvanceAView(m, op, k);
    case TruncateOp(_, _) => TruncateAView(m, op, k);
    case CloneOp(_) => CloneAView(m, op, k);
    case SliceOp(_, _, _) => SliceAView(m, op, k);
    case IntoMutOp(_) => ViewIntoMut(m, op, k);
    case IntoVecOp(_) => ViewIntoVec(m, op, k);
    case DropOp(_) =>
      DropView(m, k);
      OneGone(w, m.State(), k);
    case _ =>
  }

  lemma BecomesVec(b: Values, a: Values, k: Id, cap: nat, c: seq<byte>)
    requires cap >= |c| && a == b[k := AVec(cap, c)]
    ensures BecameVec(b, a, k, c)
  {
  }

  lemma BecomesMut(b: Values, a: Values, k: Id, class_: nat, cap: nat, c: seq<byte>)
    requires class_ <= 7 && cap >= |c| && a == b[k := AMut(class_, cap, c)]
    ensures BecameMut(b, a, k, c)
  {
  }

  method ViewIntoVec(m: Arena, op: Op, k: Id)
    requires m.Valid() && k in m.handles && IsView(m.handles[k]) && op.IntoVecOp?
    modifies m
    ensures m.Valid()
    ensures DoesToView(old(m.State()), op, m.State(), k)
  {
    ghost var w, c := m.State(), m.Bytes()[k];
    IntoVec(m, k);
    SameBytes(w, m.State(), k);
    BecomesVec(ValuesOf(w), ValuesOf(m.State()), k, m.handles[k].cap, c);
  }

  method ViewIntoMut(m: Arena, op: Op, k: Id)
    requires m.Valid() && k in m.handles && IsView(m.handles[k]) && op.IntoMutOp?
    modifies m
    ensures m.Valid()
    ensures DoesToView(old(m.State()), op, m.State(), k)
  {
    ghost var w, c := m.State(), m.Bytes()[k];
    IntoMut(m, k);
    SameBytes(w, m.State(), k);
    var h := m.handles[k];
    BecomesMut(ValuesOf(w), ValuesOf(m.State()), k, ClassIn(m.shareds, h.form), h.cap, c);
  }

  // ---- Steps on a `BytesMut` ----

  method SplitOffAMut(m: Arena, op: Op, k: Id)
    requires m.Valid() && k in m.handles && IsMut(m.handles[k]) && op.SplitOffOp?
    modifies m
    ensures m.Valid()
    ensures DoesToMut(old(m.State()), op, m.State(), k)
  {
    ghost var w := m.State();
    ghost var h, c := m.handles[k], m.Bytes()[k];
    var r := SplitOff(m, k, op.at);
    if r.Some? {
      MutDivided(w, m.State(), k, r.value, h.(cap := op.at, len := Min(h.len, op.at)), Shifted(h, op.at),
                 TakeTo(c, op.at), DropTo(c, op.at));
    }
  }

  method SplitToAMut(m: Arena, op: Op, k: Id)
    requires m.Valid() && k in m.handles && IsMut(m.handles[k]) && op.SplitToOp?
    modifies m
    ensures m.Valid()
    ensures DoesToMut(old(m.State()), op, m.State(), k)
  {
    ghost var w := m.State();
    ghost var h, c := m.handles[k], m.Bytes()[k];
    LengthOf(w, k);
    var r := SplitTo(m, k, op.at);
    if r.Some? {
      MutDivided(w, m.State(), k, r.value, Shifted(h, op.at), h.(cap := op.at, len := op.at),
                 DropTo(c, op.at), TakeTo(c, op.at));
    }
  }

  lemma MutDivided(
    w: World, w': World, k: Id, j: Id, h1: Handle, h2: Handle, c: seq<byte>, d: seq<byte>)
    requires Inv(w) && Inv(w') && k in w.handles && IsMut(w.handles[k])
    requires HandleOk(w.allocs, w.shareds, w.handles[k]) && SplitInto(w, w', k, j, h1, h2)
    requires Abs(w'.allocs, w'.handles) == Abs(w.allocs, w.handles)[k := c][j := d]
    ensures var class_ := ClassIn(w.shareds, w.handles[k].form);
            Divided(ValuesOf(w), ValuesOf(w'), k, AMut(class_, h1.cap, c), AMut(class_, h2.cap, d))
  {
    var v := ValuesOf(w');
    SplitOnMaps(w, w', k, j, c, d);
    DividedInto(ValuesOf(w), v, k, k, j, v[k], v[j]);
  }

  /** A `BytesMut` that went on with other bytes in the same class. */
  lemma MutSet(w: World, w': World, k: Id, c: seq<byte>)
    requires Follows(w, w') && k in w.handles && IsMut(w.handles[k]) && k in w'.handles && IsMut(w'.handles[k])
    requires w'.handles == w.handles[k := w'.handles[k]] && ClassOf(w', k) == ClassOf(w, k)
    requires Abs(w'.allocs, w'.handles) == Abs(w.allocs, w.handles)[k := c]
    ensures ValuesOf(w') == ValuesOf(w)[k := AMut(ClassIn(w.shareds, w.handles[k].form), w'.handles[k].cap, c)]
    ensures |c| <= w'.handles[k].cap
  {
    OneSet(w, w', k, c);
    LengthOf(w', k);
  }

  lemma SplitOnMaps(w: World, w': World, k: Id, j: Id, c: seq<byte>, d: seq<byte>)
    requires Follows(w, w') && k in w.handles && j !in w.handles && k in w'.handles && j in w'.handles
    requires w'.handles == w.handles[k := w'.handles[k]][j := w'.handles[j]]
    requires Abs(w'.allocs, w'.handles) == Abs(w.allocs, w.handles)[k := c][j := d]
    ensures ValuesOf(w') == (ValuesOf(w) - {k})[k := ValuesOf(w')[k]][j := ValuesOf(w')[j]]
    ensures ValuesOf(w')[k].bytes == c && ValuesOf(w')[j].bytes == d
  {
    var b, a := Abs(w.allocs, w.handles), Abs(w'.allocs, w'.handles);
    assert a[k] == c && a[j] == d && a - {k, j} == b - {k};
    assert w'.handles - {k, j} == w.handles - {k};
    OneForTwo(w, w', k, k, j);
  }

  lemma SameMut(w: World, w': World, k: Id, c: seq<byte>, room: nat)
    requires Follows(w, w') && k in w.handles && IsMut(w.handles[k]) && k in w'.handles && IsMut(w'.handles[k])
    requires w'.handles == w.handles[k := w'.handles[k]] && ClassOf(w', k) == ClassOf(w, k)
    requires Abs(w'.allocs, w'.handles) == Abs(w.allocs, w.handles) && Abs(w.allocs, w.handles)[k] == c
    requires w'.handles[k].cap >= |c| + room
    ensures HasRoom(ValuesOf(w), ValuesOf(w'), k, ClassIn(w.shareds, w.handles[k].form), c, room)
  {
    SetTwice(Abs(w.allocs, w.handles), k, c, c);
    MutSet(w, w', k, c);
  }

  method ReserveInAMut(m: Arena, op: Op, k: Id)
    requires m.Valid() && k in m.handles && IsMut(m.handles[k]) && op.ReserveOp?
    modifies m
    ensures m.Valid()
    ensures DoesToMut(old(m.State()), op, m.State(), k)
  {
    ghost var w, c := m.State(), m.Bytes()[k];
    LengthOf(w, k);
    HandleFact(w, k);
    var room := m.handles[k].cap - m.handles[k].len;
    var r;
    if op.allocate {
      r := Reserve(m, k, op.additional);
    } else {
      r := TryReclaim(m, k, op.additional);
    }
    if r == Reserved(true) && op.additional > room {
      LengthOf(m.State(), k);
      SameMut(w, m.State(), k, c, op.additional);
    }
  }

  method ExtendAMut(m: Arena, op: Op, k: Id)
    requires m.Valid() && k in m.handles && IsMut(m.handles[k]) && op.ExtendOp?
    modifies m
    ensures m.Valid()
    ensures DoesToMut(old(m.State()), op, m.State(), k)
  {
    ghost var w := m.State();
    ghost var c := m.Bytes()[k];
    var ok := ExtendFromSlice(m, k, op.src);
    if ok {
      MutSet(w, m.State(), k, c + op.src);
    }
  }

  method JoinMuts(m: Arena, op: Op, k: Id)
    requires m.Valid() && k in m.handles && IsMut(m.handles[k]) && op.UnsplitOp?
    modifies m
    ensures m.Valid()
    ensures DoesToMut(old(m.State()), op, m.State(), k)
  {
    ghost var w := m.State();
    ghost var b := m.Bytes();
    var o := op.other;
    if o !in m.handles || o == k || !IsMut(m.handles[o]) {
      return;
    }
    LengthOf(w, k);
    LengthOf(w, o);
    var r := Unsplit(m, k, o);
    if r.None? {
      OneGone(w, m.State(), o);
    } else if r.value == o {
      JoinMaps(b, k, o, []);
      OneGone(w, m.State(), k);
    } else {
      JoinedValues(w, m.State(), k, o, b[k] + b[o]);
    }
  }

  lemma JoinedValues(w: World, w': World, k: Id, o: Id, c: seq<byte>)
    requires Follows(w, w') && k in w.handles && o in w.handles && k != o && k in w'.handles && IsMut(w'.handles[k])
    requires w'.handles == (w.handles - {k, o})[k := w'.handles[k]] && ClassOf(w', k) == ClassOf(w, k)
    requires Abs(w'.allocs, w'.handles) == (Abs(w.allocs, w.handles) - {k, o})[k := c]
    ensures HasRoom(ValuesOf(w) - {o}, ValuesOf(w'), k, ClassIn(w.shareds, w.handles[k].form), c, 0)
  {
    var b, a := Abs(w.allocs, w.handles), Abs(w'.allocs, w'.handles);
    assert a[k] == c;
    forall j | j in w'.handles && j != k
      ensures ValuesOf(w')[j] == (ValuesOf(w) - {o})[j]
    {
      assert a[j] == b[j];
      SameValue(w, w', j);
    }
    SetInMap(ValuesOf(w) - {o}, ValuesOf(w'), k);
    LengthOf(w', k);
  }

  method AdvanceAMut(m: Arena, op: Op, k: Id)
    requires m.Valid() && k in m.handles && IsMut(m.handles[k]) && op.AdvanceOp?
    modifies m
    ensures m.Valid()
    ensures DoesToMut(old(m.State()), op, m.State(), k)
  {
    ghost var w := m.State();
    LengthOf(w, k);
    var ok := Advance(m, k, op.count);
    if ok {
      AdvancedValue(w, m.State(), op, k);
    }
  }

  lemma AdvancedValue(w: World, w': World, op: Op, k: Id)
    requires Follows(w, w') && k in w.handles && IsMut(w.handles[k]) && k in w'.handles && IsMut(w'.handles[k])
    requires op.AdvanceOp? && op.count <= w.handles[k].len <= w.handles[k].cap
    requires w'.handles == w.handles[k := Shifted(w.handles[k], op.count).(form := w'.handles[k].form)]
    requires ClassOf(w', k) == ClassOf(w, k)
    requires Abs(w'.allocs, w'.handles)
          == Abs(w.allocs, w.handles)[k := DropTo(Contents(w.allocs, w.handles[k]), op.count)]
    ensures DoesToMut(w, op, w', k)
  {
    LengthOf(w, k);
    var h, c := w.handles[k], Contents(w.allocs, w.handles[k]);
    var rest := DropTo(c, op.count);
    MutSet(w, w', k, rest);
    AdvanceSeen(w, op, ValuesOf(w), ValuesOf(w'), k, ClassIn(w.shareds, h.form), h.cap, c, w'.handles[k].cap, rest);
  }

  lemma AdvanceSeen(
    w: World, op: Op, b: Values, a: Values, k: Id, class_: nat, cap: nat, c: seq<byte>, cap': nat, rest: seq<byte>)
    requires k in w.handles && b == ValuesOf(w) && op.AdvanceOp? && op.count <= |c| && op.count <= cap
    requires a == b[k := AMut(class_, cap', rest)] && cap' == cap - op.count && rest == DropTo(c, op.count)
    ensures SeenMut(w, op, b, a, k, class_, cap, c)
  {
  }

  method TruncateAMut(m: Arena, op: Op, k: Id)
    requires m.Valid() && k in m.handles && IsMut(m.handles[k]) && op.TruncateOp?
    modifies m
    ensures m.Valid()
    ensures DoesToMut(old(m.State()), op, m.State(), k)
  {
    ghost var w := m.State();
    Truncate(m, k, op.len);
    MutSet(w, m.State(), k, TakeTo(Contents(w.allocs, w.handles[k]), op.len));
  }

  method StoreInAMut(m: Arena, op: Op, k: Id)
    requires m.Valid() && k in m.handles && IsMut(m.handles[k]) && op.StoreOp?
    modifies m
    ensures m.Valid()
    ensures DoesToMut(old(m.State()), op, m.State(), k)
  {
    ghost var w := m.State();
    LengthOf(w, k);
    if op.i < m.handles[k].len {
      Store(m, k, op.i, op.value);
      assert w.handles == w.handles[k := w.handles[k]];
      MutSet(w, m.State(), k, SetByte(Contents(w.allocs, w.handles[k]), op.i, op.value));
    }
  }

  /** One operation on a `BytesMut`. */
  method StepMut(m: Arena, op: Op, k: Id)
    requires m.Valid() && k in m.handles && IsMut(m.handles[k]) && !op.NewVecOp? && !op.StaticOp?
    modifies m
    ensures m.Valid()
    ensures DoesToMut(old(m.State()), op, m.State(), k)
  {
    ghost var w := m.State();
    match op
    case SplitOffOp(_, _) => SplitOffAMut(m, op, k);
    case SplitToOp(_, _) => SplitToAMut(m, op, k);
    case AdvanceOp(_, _) => AdvanceAMut(m, op, k);
    case TruncateOp(_, _) => TruncateAMut(m, op, k);
    case StoreOp(_, _, _) => StoreInAMut(m, op, k);
    case ReserveOp(_, _, _) => ReserveInAMut(m, op, k);
    case ExtendOp(_, _) => ExtendAMut(m, op, k);
    case UnsplitOp(_, _) => JoinMuts(m, op, k);
    case FreezeOp(_) =>
      Freeze(m, k);
      SameBytes(w, m.State(), k);
    case IntoVecOp(_) =>
      IntoVec(m, k);
      SameBytes(w, m.State(), k);
    case DropOp(_) =>
      Drop(m, k);
      OneGone(w, m.State(), k);
    case _ =>
  }

  // ---- Steps on a vector, and new values ----

  method StepVec(m: Arena, op: Op, k: Id)
    requires m.Valid() && k in m.handles && m.handles[k].form.VecForm? && !op.NewVecOp? && !op.StaticOp?
    modifies m
    ensures m.Valid()
    ensures SeenVec(op, ValuesOf(old(m.State())), ValuesOf(m.State()), k, old(m.handles[k].cap), old(m.Bytes()[k]))
  {
    ghost var w := m.State();
    match op
    case MutFromVecOp(_) =>
      MutFromVec(m, k);
      SameBytes(w, m.State(), k);
    case ViewFromVecOp(_) =>
      ViewFromVec(m, k);
      SameBytes(w, m.State(), k);
    case DropOp(_) =>
      DropVec(m, k);
      OneGone(w, m.State(), k);
    case _ =>
  }

  method StepNew(m: Arena, op: Op)
    requires m.Valid() && (op.NewVecOp? || op.StaticOp?)
    modifies m
    ensures m.Valid() && IsStep(old(m.State()), op, m.State())
  {
    ghost var w := m.State();
    if op.NewVecOp? {
      var k := NewVec(m, op.src);
      OneSet(w, m.State(), k, op.src);
      LengthOf(m.State(), k);
      AddedAs(ValuesOf(w), ValuesOf(m.State()), k, ValuesOf(m.State())[k]);
    } else {
      var k := FromStatic(m, op.text);
      OneSet(w, m.State(), k, op.text);
      AddedAs(ValuesOf(w), ValuesOf(m.State()), k, AView(op.text));
    }
  }

  lemma ViewSteps(w: World, op: Op, w': World)
    requires !op.NewVecOp? && !op.StaticOp? && op.k in w.handles && IsView(w.handles[op.k])
    requires DoesToView(w, op, w', op.k)
    ensures IsStep(w, op, w')
  {
    assert ValuesOf(w)[op.k] == AView(Contents(w.allocs, w.handles[op.k]));
  }

  lemma MutSteps(w: World, op: Op, w': World)
    requires !op.NewVecOp? && !op.StaticOp? && op.k in w.handles && IsMut(w.handles[op.k])
    requires DoesToMut(w, op, w', op.k)
    ensures IsStep(w, op, w')
  {
    var h := w.handles[op.k];
    assert ValuesOf(w)[op.k] == AMut(ClassIn(w.shareds, h.form), h.cap, Contents(w.allocs, h));
  }

  lemma VecSteps(w: World, op: Op, w': World)
    requires !op.NewVecOp? && !op.StaticOp? && op.k in w.handles && w.handles[op.k].form.VecForm?
    requires var h := w.handles[op.k];
             SeenVec(op, ValuesOf(w), ValuesOf(w'), op.k, h.cap, Contents(w.allocs, h))
    ensures IsStep(w, op, w')
  {
    var h := w.handles[op.k];
    assert ValuesOf(w)[op.k] == AVec(h.cap, Contents(w.allocs, h));
  }

  /** One operation on an existing value. */
  method StepOld(m: Arena, op: Op, k: Id)
    requires m.Valid() && !op.NewVecOp? && !op.StaticOp? && k == op.k && k in m.handles
    modifies m
    ensures m.Valid() && IsStep(old(m.State()), op, m.State())
  {
    ghost var w := m.State();
    if IsView(m.handles[k]) {
      StepView(m, op, k);
      ViewSteps(w, op, m.State());
    } else if IsMut(m.handles[k]) {
      StepMut(m, op, k);
      MutSteps(w, op, m.State());
    } else {
      StepVec(m, op, k);
      VecSteps(w, op, m.State());
    }
  }

  /** One operation on whatever lives under the id. */
  method Step(m: Arena, op: Op)
    requires m.Valid()
    modifies m
    ensures m.Valid() && IsStep(old(m.State()), op, m.State())
  {
    if op.NewVecOp? || op.StaticOp? {
      StepNew(m, op);
    } else if op.k in m.handles {
      StepOld(m, op, op.k);
    }
  }

  /** What the invariant says of a reachable state: a byte that one value may write lies in no other
      value's window; every window is in bounds; a count is the number of its holders; a live allocation
      is in use and was never freed, and one that is gone was freed once. */
  lemma Meaning(w: World)
    requires Inv(w)
    ensures forall j, k, i: nat ::
              j in w.handles && k in w.handles && j != k && !IsView(w.handles[j])
              && Uses(w.handles[k], w.handles[j].alloc) && Covers(w.handles[j], i)
              ==> !Covers(w.handles[k], i)
    ensures forall k :: k in w.handles && !w.handles[k].form.ViewStatic? ==>
              w.handles[k].alloc in w.allocs && w.handles[k].off + w.handles[k].cap <= |w.allocs[w.handles[k].alloc]|
    ensures forall s :: s in w.shareds ==> w.shareds[s].count == |Holders(w.handles, s)|
    ensures forall a :: a in w.allocs ==> w.freed[a] == 0 && Owned(w.handles, a)
    ensures forall a: Id :: a !in w.allocs && a < w.nextAlloc ==> w.freed[a] == 1
  {
    forall j, k, i: nat |
        j in w.handles && k in w.handles && j != k && !IsView(w.handles[j])
        && Uses(w.handles[k], w.handles[j].alloc) && Covers(w.handles[j], i)
      ensures !Covers(w.handles[k], i)
    {
      var apart := Apart(w.handles[j], w.handles[k]);
      HandleFact(w, j);
      HandleFact(w, k);
      if Solo(w.handles[j]) {
        SoloAlone(w, j);
      }
    }
    forall k | k in w.handles
      ensures HandleOk(w.allocs, w.shareds, w.handles[k])
    {
      HandleFact(w, k);
    }
    forall s | s in w.shareds
      ensures w.shareds[s].count == |Holders(w.handles, s)|
    {
      SharedFact(w, s);
    }
    forall a | a in w.allocs
      ensures Owned(w.handles, a)
    {
      var k := UserOf(w, a);
    }
  }

  predicate Covers(h: Handle, i: nat) {
    h.off <= i < h.off + h.cap
  }

  /** The states of a run: the first one is empty, every one is sound, and every step does to the values
      what its operation says. */
  ghost predicate IsRun(trace: seq<World>, ops: seq<Op>) {
    && |trace| == |ops| + 1
    && trace[0].handles == map[] && trace[0].allocs == map[]
    && (forall i :: 0 <= i < |trace| ==> Inv(trace[i]))
    && (forall i :: 0 <= i < |ops| ==> IsStep(trace[i], ops[i], trace[i + 1]))
  }

  /** Any sequence of operations on any values, from an empty memory on, is such a run; in the end, once everything
      is dropped, nothing is left allocated and everything allocated was freed exactly once. */
  method Run(ops: seq<Op>) returns (m: Arena, ghost trace: seq<World>)
    ensures m.Valid() && IsRun(trace, ops) && trace[|ops|] == m.State()
    ensures m.handles == map[] ==>
              && m.allocs == map[] && m.shareds == map[]
              && forall a: Id :: m.freed[a] == if a < m.nextAlloc then 1 else 0
  {
    m := new Arena();
    trace := [m.State()];
    for i := 0 to |ops|
      invariant m.Valid() && fresh(m) && IsRun(trace, ops[..i]) && trace[i] == m.State()
    {
      ghost var w := m.State();
      Step(m, ops[i]);
      ExtendRun(trace, ops[..i], w, ops[i], m.State());
      assert ops[..i + 1] == ops[..i] + [ops[i]];
      trace := trace + [m.State()];
    }
    assert ops[..|ops|] == ops;
    if m.handles == map[] {
      Empty(m.State());
    }
  }

  lemma ExtendRun(trace: seq<World>, ops: seq<Op>, w: World, op: Op, w': World)
    requires IsRun(trace, ops) && trace[|ops|] == w && Inv(w') && IsStep(w, op, w')
    ensures IsRun(trace + [w'], ops + [op])
  {
    var longer, all := trace + [w'], ops + [op];
    forall i | 0 <= i < |all|
      ensures IsStep(longer[i], all[i], longer[i + 1])
    {
      if i < |ops| {
        var fact := IsStep(trace[i], ops[i], trace[i + 1]);
        assert longer[i] == trace[i] && longer[i + 1] == trace[i + 1] && all[i] == ops[i];
      }
    }
  }

  // ---- The capacity class over whole runs ----

  /** That an id which names a `BytesMut` before and after keeps its class. */
  predicate KeepsClass(b: Values, a: Values, k: Id) {
    k in b && k in a && b[k].AMut? && a[k].AMut? ==> a[k].class_ == b[k].class_
  }

  lemma DividedKeepsClass(b: Values, a: Values, o: Id, self: Value, other: Value, k: Id)
    requires Divided(b, a, o, self, other) && o in b
    requires b[o].AMut? && self.AMut? ==> self.class_ == b[o].class_
    requires b[o].AMut? && other.AMut? ==> other.class_ == b[o].class_
    ensures KeepsClass(b, a, k)
  {
    var i, j :| IsDivided(b, a, o, i, j, self, other);
  }

  lemma RoomKeepsClass(b: Values, gone: set<Id>, a: Values, o: Id, class_: nat, c: seq<byte>, room: nat, k: Id)
    requires HasRoom(b - gone, a, o, class_, c, room) && o in b && b[o].AMut? && class_ == b[o].class_
    ensures KeepsClass(b, a, k)
  {
    var cap: nat :| cap >= |c| + room && a == (b - gone)[o := AMut(class_, cap, c)];
  }

  lemma VecOpKeepsClass(op: Op, b: Values, a: Values, o: Id, cap: nat, c: seq<byte>, k: Id)
    requires o in b && b[o].AVec? && SeenVec(op, b, a, o, cap, c)
    ensures KeepsClass(b, a, k)
  {
  }

  lemma ViewOpKeepsClass(op: Op, b: Values, a: Values, o: Id, c: seq<byte>, k: Id)
    requires o in b && b[o].AView? && SeenView(op, b, a, o, c)
    ensures KeepsClass(b, a, k)
  {
    match op
    case SplitOffOp(_, at) =>
      if at <= |c| {
        DividedKeepsClass(b, a, o, AView(TakeTo(c, at)), AView(DropTo(c, at)), k);
      }
    case SplitToOp(_, at) =>
      if at <= |c| {
        DividedKeepsClass(b, a, o, AView(DropTo(c, at)), AView(TakeTo(c, at)), k);
      }
    case _ =>
  }

  lemma MutOpKeepsClass(w: World, op: Op, b: Values, a: Values, o: Id, class_: nat, cap: nat, c: seq<byte>, k: Id)
    requires o in w.handles && b == ValuesOf(w) && o in b && b[o] == AMut(class_, cap, c)
    requires SeenMut(w, op, b, a, o, class_, cap, c)
    ensures KeepsClass(b, a, k)
  {
    assert b - {} == b;
    match op
    case SplitOffOp(_, at) =>
      if at <= cap {
        DividedKeepsClass(b, a, o, AMut(class_, at, TakeTo(c, at)), AMut(class_, cap - at, DropTo(c, at)), k);
      }
    case SplitToOp(_, at) =>
      if at <= |c| && at <= cap {
        DividedKeepsClass(b, a, o, AMut(class_, cap - at, DropTo(c, at)), AMut(class_, at, TakeTo(c, at)), k);
      }
    case ReserveOp(_, additional, _) =>
      if a != b {
        RoomKeepsClass(b, {}, a, o, class_, c, additional, k);
      }
    case ExtendOp(_, src) =>
      if a != b {
        RoomKeepsClass(b, {}, a, o, class_, c + src, 0, k);
      }
    case UnsplitOp(_, other) =>
      if other in b && other != o && b[other].AMut? && !UnsplitPanics(w, o, other) && c != [] {
        RoomKeepsClass(b, {other}, a, o, class_, c + b[other].bytes, 0, k);
      }
    case _ =>
  }

  lemma StepKeepsClass(w: World, op: Op, w': World, k: Id)
    requires IsStep(w, op, w')
    ensures KeepsClass(ValuesOf(w), ValuesOf(w'), k)
  {
    var b, a := ValuesOf(w), ValuesOf(w');
    if !op.NewVecOp? && !op.StaticOp? && op.k in b {
      match b[op.k]
      case AVec(cap, c) => VecOpKeepsClass(op, b, a, op.k, cap, c, k);
      case AMut(class_, cap, c) => MutOpKeepsClass(w, op, b, a, op.k, class_, cap, c, k);
      case AView(c) => ViewOpKeepsClass(op, b, a, op.k, c, k);
    }
  }

  lemma StepAt(trace: seq<World>, ops: seq<Op>, n: nat)
    requires IsRun(trace, ops) && n < |ops|
    ensures IsStep(trace[n], ops[n], trace[n + 1])
  {
    var fact := IsStep(trace[n], ops[n], trace[n + 1]);
  }

  predicate NamesMut(w: World, k: Id) {
    k in w.handles && IsMut(w.handles[k])
  }

  lemma StepKeepsClassOf(w: World, op: Op, w': World, k: Id)
    requires IsStep(w, op, w') && NamesMut(w, k) && NamesMut(w', k)
    ensures ClassOf(w', k) == ClassOf(w, k)
  {
    StepKeepsClass(w, op, w', k);
  }

  /** That an id names a `BytesMut` of one class in two states. */
  ghost predicate SameMutClass(w: World, w': World, k: Id) {
    NamesMut(w, k) && NamesMut(w', k) && ClassOf(w', k) == ClassOf(w, k)
  }

  lemma {:induction false} SameAlong(trace: seq<World>, i: nat, j: nat, k: Id)
    requires i <= j < |trace| && NamesMut(trace[i], k)
    requires forall n :: i <= n < j ==> SameMutClass(trace[n], trace[n + 1], k)
    ensures SameMutClass(trace[i], trace[j], k)
  {
    if i < j {
      SameAlong(trace, i, j - 1, k);
      var last := SameMutClass(trace[j - 1], trace[j - 1 + 1], k);
    }
  }

  /** As long as an id names a `BytesMut`, its capacity class is the one it had at first, through any operations on it
      and on others. */
  lemma ClassForLife(trace: seq<World>, ops: seq<Op>, i: nat, j: nat, k: Id)
    requires IsRun(trace, ops) && i <= j < |trace|
    requires forall n :: i <= n <= j ==> NamesMut(trace[n], k)
    ensures NamesMut(trace[i], k) && NamesMut(trace[j], k) && ClassOf(trace[j], k) == ClassOf(trace[i], k)
  {
    forall n | i <= n < j
      ensures SameMutClass(trace[n], trace[n + 1], k)
    {
      StepAt(trace, ops, n);
      var named, named' := NamesMut(trace[n], k), NamesMut(trace[n + 1], k);
      StepKeepsClassOf(trace[n], ops[n], trace[n + 1], k);
    }
    SameAlong(trace, i, j, k);
  }

  /** Without values there is no memory. */
  lemma Empty(w: World)
    requires Inv(w) && w.handles == map[]
    ensures w.allocs == map[] && w.shareds == map[]
    ensures forall a: Id :: w.freed[a] == if a < w.nextAlloc then 1 else 0
  {
    forall a | a in w.allocs
      ensures false
    {
      var k := UserOf(w, a);
    }
    forall s | s in w.shareds
      ensures false
    {
      SharedFact(w, s);
    }
  }
}
