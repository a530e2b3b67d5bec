/**
 * `Vec<u8>` seen through the `OwnedBuf` interface (src/owned.rs:110-147) on values: an allocation
 * of fixed capacity and a length. For a vector the filled and the initialised regions coincide.
 */
module VecModel {
  import opened Bytes

  /** A `Vec<u8>`: its allocation (capacity = `|bytes|`) and its `len`. */
  datatype VecState = VecState(bytes: seq<Byte>, len: nat)

  /** `len <= capacity`, and the first `len` slots hold values. */
  predicate Inv(v: VecState) {
    DefinedBelow(v.bytes, v.len)
  }

  /** `filled()`: exactly the vector's `len` elements. */
  function Filled(v: VecState): (r: seq<bv8>)
    requires Inv(v)
    ensures |r| == v.len
    ensures Lift(r) == v.bytes[..v.len]
  {
    Values(v.bytes[..v.len])
  }

  /** `clear()`: the length drops to zero; the allocation is kept. */
  function Clear(v: VecState): (r: VecState)
    requires Inv(v)
    ensures Inv(r) && r.len == 0 && Filled(r) == []
    ensures r.bytes == v.bytes
  {
    v.(len := 0)
  }

  /**
   * `set_init(n)`: `set_len(max(len, n))`. The caller vouches for `Vec::set_len`'s contract:
   * `n` is within the capacity and the first `n` slots hold values.
   */
  function SetInit(v: VecState, n: nat): (r: VecState)
    requires Inv(v) && DefinedBelow(v.bytes, n)
    ensures Inv(r) && r.len >= v.len && r.len >= n
    ensures n <= v.len ==> r == v
    ensures n > v.len ==> r.len == n
    ensures r.bytes == v.bytes
  {
    v.(len := Max(v.len, n))
  }
}

/**
 * `VecCursor` (src/owned.rs:149-221) on values, AS WRITTEN: `initialized` is assigned the
 * absolute values `len` and `capacity` and is not moved by `advance`, while every view slices the
 * spare capacity (the slots after `len`) with it as if it counted spare slots.
 */
module VecCursorModel {
  import opened Bytes
  import VecModel

  /** The vector the cursor borrows, the cursor's own `initialized`, and `start`. */
  datatype CursorState = CursorState(vec: VecModel.VecState, initialized: nat, start: nat)

  /** The vector is well formed and has not shrunk below the cursor's starting length. */
  predicate Inv(c: CursorState) {
    VecModel.Inv(c.vec) && c.start <= c.vec.len
  }

  /**
   * `unfilled()`: a cursor over `v` whose `initialized` and `start` are both the current length,
   * so that it has written nothing yet.
   */
  function Unfilled(v: VecModel.VecState): (c: CursorState)
    requires VecModel.Inv(v)
    ensures Inv(c) && c.vec == v && c.start == c.vec.len
    ensures c.initialized == v.len
  {
    CursorState(v, v.len, v.len)
  }

  /** `capacity()`: the number of spare slots. */
  function Capacity(c: CursorState): (n: nat)
    requires Inv(c)
    ensures c.vec.len + n == |c.vec.bytes|
  {
    |c.vec.bytes| - c.vec.len
  }

  /** `written()`: bytes added to the vector since the cursor was made. */
  function Written(c: CursorState): (n: nat)
    requires Inv(c)
    ensures c.start + n == c.vec.len
  {
    c.vec.len - c.start
  }

  /** `spare_capacity_mut()`: the slots after `len`. */
  function Spare(c: CursorState): (r: seq<Byte>)
    requires Inv(c)
    ensures |r| == Capacity(c)
    ensures c.vec.bytes[..c.vec.len] + r == c.vec.bytes
  {
    c.vec.bytes[c.vec.len..]
  }

  /**
   * `init_ref()`: `spare[..initialized]`, which panics when `initialized` exceeds the spare room.
   * The slots come back as they are; a slot that is `Undef` is one that Rust's
   * `slice_assume_init_ref` would hand out as a `u8` without it being initialised.
   */
  function InitRef(c: CursorState): (r: Outcome<seq<Byte>>)
    requires Inv(c)
    ensures r.Ok? <==> c.initialized <= Capacity(c)
    ensures r.Ok? ==> r.value == Spare(c)[..c.initialized]
  {
    if c.initialized <= Capacity(c) then Ok(Spare(c)[..c.initialized]) else Panic
  }

  /** `init_mut()`: the window `spare[..initialized]`, in storage positions. */
  function InitMut(c: CursorState): (r: Outcome<Span>)
    requires Inv(c)
    ensures r.Ok? <==> c.initialized <= Capacity(c)
    ensures r.Ok? ==> r.value.lo == c.vec.len && r.value.hi - r.value.lo == c.initialized
  {
    if c.initialized <= Capacity(c) then Ok(Span(c.vec.len, c.vec.len + c.initialized)) else Panic
  }

  /** `uninit_mut()`: the window `spare[initialized..]`, in storage positions. */
  function UninitMut(c: CursorState): (r: Outcome<Span>)
    requires Inv(c)
    ensures r.Ok? <==> c.initialized <= Capacity(c)
    ensures r.Ok? ==> r.value.hi == |c.vec.bytes| && r.value.lo == c.vec.len + c.initialized
  {
    if c.initialized <= Capacity(c) then Ok(Span(c.vec.len + c.initialized, |c.vec.bytes|)) else Panic
  }

  /** `as_mut()` (unsafe): the whole spare capacity. */
  function AsMut(c: CursorState): (w: Span)
    requires Inv(c)
    ensures w.lo == c.vec.len && w.hi == |c.vec.bytes|
  {
    Span(c.vec.len, |c.vec.bytes|)
  }

  /**
   * A write of one slot through a mutable view: the views lie in the spare capacity, and a slot
   * in the cursor's initialised part may only receive a value (the safety rule of `as_mut`).
   */
  predicate MayStore(c: CursorState, at: nat, b: Byte) {
    c.vec.len <= at < |c.vec.bytes| && (at < c.vec.len + c.initialized ==> b.Def?)
  }

  function Store(c: CursorState, at: nat, b: Byte): (r: CursorState)
    requires Inv(c) && MayStore(c, at, b)
    ensures Inv(r) && r.vec.len == c.vec.len && r.initialized == c.initialized && r.start == c.start
    ensures |r.vec.bytes| == |c.vec.bytes| && r.vec.bytes[..c.vec.len] == c.vec.bytes[..c.vec.len]
    ensures r.vec.bytes[at] == b
    ensures forall i :: 0 <= i < |c.vec.bytes| && i != at ==> r.vec.bytes[i] == c.vec.bytes[i]
  {
    c.(vec := c.vec.(bytes := c.vec.bytes[at := b]))
  }

  /**
   * `advance(n)` (unsafe): `set_len(len + n)`. The caller vouches that the first `n` spare slots
   * hold values; `initialized` is left where it was.
   */
  function Advance(c: CursorState, n: nat): (r: CursorState)
    requires Inv(c) && DefinedBetween(c.vec.bytes, c.vec.len, c.vec.len + n)
    ensures Inv(r) && Capacity(r) + n == Capacity(c) && Written(r) == Written(c) + n
    ensures r.start == c.start && r.initialized == c.initialized && r.vec.bytes == c.vec.bytes
    ensures VecModel.Filled(r.vec)[..c.vec.len] == VecModel.Filled(c.vec)
  {
    c.(vec := c.vec.(len := c.vec.len + n))
  }

  /**
   * `ensure_init()`: zeroes `uninit_mut()` (which panics when `initialized` exceeds the spare
   * room), then sets `initialized` to the whole capacity.
   */
  function EnsureInit(c: CursorState): (r: Outcome<CursorState>)
    requires Inv(c)
    ensures r.Ok? <==> c.initialized <= Capacity(c)
    ensures r.Ok? ==> Inv(r.value) && r.value.vec.len == c.vec.len && r.value.start == c.start
    ensures r.Ok? ==> r.value.initialized == |c.vec.bytes| && |r.value.vec.bytes| == |c.vec.bytes|
    ensures r.Ok? ==> forall i :: c.vec.len + c.initialized <= i < |c.vec.bytes| ==> r.value.vec.bytes[i] == Def(0)
    ensures r.Ok? ==> r.value.vec.bytes[..c.vec.len + c.initialized] == c.vec.bytes[..c.vec.len + c.initialized]
  {
    if c.initialized <= Capacity(c) then
      var from := c.vec.len + c.initialized;
      Ok(c.(vec := c.vec.(bytes := ZeroFrom(c.vec.bytes, from)), initialized := |c.vec.bytes|))
    else
      Panic
  }

  /**
   * `set_init(n)` (unsafe): raises `initialized` to `n`. The caller vouches that the first `n`
   * spare slots hold values.
   */
  function SetInit(c: CursorState, n: nat): (r: CursorState)
    requires Inv(c) && DefinedBetween(c.vec.bytes, c.vec.len, c.vec.len + n)
    ensures Inv(r) && r.initialized >= c.initialized && r.initialized >= n
    ensures n <= c.initialized ==> r == c
    ensures n > c.initialized ==> r.initialized == n
    ensures r.vec == c.vec && r.start == c.start
  {
    c.(initialized := Max(c.initialized, n))
  }

  /**
   * `append(data)`: panics unless `data` fits in the spare capacity; otherwise copies it there and
   * advances past it.
   */
  function Append(c: CursorState, data: seq<bv8>): (r: Outcome<CursorState>)
    requires Inv(c)
    ensures r.Panic? <==> Capacity(c) < |data|
    ensures r.Ok? ==> Inv(r.value) && |r.value.vec.bytes| == |c.vec.bytes|
    ensures r.Ok? ==> Written(r.value) == Written(c) + |data| && Capacity(r.value) + |data| == Capacity(c)
    ensures r.Ok? ==> VecModel.Filled(r.value.vec) == VecModel.Filled(c.vec) + data
    ensures r.Ok? ==> r.value.vec.bytes[r.value.vec.len..] == c.vec.bytes[r.value.vec.len..]
    ensures r.Ok? ==> r.value.start == c.start && r.value.initialized == c.initialized
  {
    if Capacity(c) < |data| then Panic
    else
      var r := Advance(c.(vec := c.vec.(bytes := Splice(c.vec.bytes, c.vec.len, data))), |data|);
      assert Lift(VecModel.Filled(r.vec)) == Lift(VecModel.Filled(c.vec) + data) by {
        LiftConcat(VecModel.Filled(c.vec), data);
      }
      LiftInjective(VecModel.Filled(r.vec), VecModel.Filled(c.vec) + data);
      Ok(r)
  }

  lemma LiftInjective(a: seq<bv8>, b: seq<bv8>)
    requires Lift(a) == Lift(b)
    ensures a == b
  {
    assert forall i :: 0 <= i < |a| ==> Lift(a)[i] == Lift(b)[i];
  }

  // ---- Successive appends ------------------------------------------------------------------

  /** All chunks, one after another. */
  function Concat(chunks: seq<seq<bv8>>): (r: seq<bv8>) {
    if chunks == [] then [] else chunks[0] + Concat(chunks[1..])
  }

  /** `append` of each chunk in turn; the first panic ends the run. */
  function AppendAll(c: CursorState, chunks: seq<seq<bv8>>): (r: Outcome<CursorState>)
    requires Inv(c)
    ensures r.Ok? ==> Inv(r.value) && r.value.start == c.start && r.value.initialized == c.initialized
    ensures r.Ok? ==> |r.value.vec.bytes| == |c.vec.bytes| && r.value.vec.len >= c.vec.len
    decreases |chunks|
  {
    if chunks == [] then Ok(c)
    else
      match Append(c, chunks[0])
      case Panic => Panic
      case Ok(next) => AppendAll(next, chunks[1..])
  }

  /**
   * A run of appends succeeds exactly when all the chunks together fit in the spare capacity;
   * then `written()` has grown by their total length and the vector ends with all of them.
   */
  lemma {:induction false} AppendAllAccumulates(c: CursorState, chunks: seq<seq<bv8>>)
    requires Inv(c)
    ensures AppendAll(c, chunks).Ok? <==> |Concat(chunks)| <= Capacity(c)
    ensures AppendAll(c, chunks).Ok? ==>
      var r := AppendAll(c, chunks).value;
      Inv(r) && Written(r) == Written(c) + |Concat(chunks)|
      && VecModel.Filled(r.vec) == VecModel.Filled(c.vec) + Concat(chunks)
    decreases |chunks|
  {
    if chunks != [] {
      match Append(c, chunks[0])
      case Panic =>
      case Ok(next) =>
        AppendAllAccumulates(next, chunks[1..]);
        assert VecModel.Filled(c.vec) + chunks[0] + Concat(chunks[1..])
            == VecModel.Filled(c.vec) + Concat(chunks);
    }
  }

  // ---- Where the absolute `initialized` goes wrong ------------------------------------------

  /**
   * A vector of capacity 2 holding one byte: the cursor made from it claims `initialized == 1`,
   * so `init_ref()` hands out its one spare slot, which was never written, as an initialised byte.
   */
  lemma FreshCursorExposesUndefined()
    ensures var c := Unfilled(VecModel.VecState([Def(7), Undef], 1));
      InitRef(c) == Ok([Undef])
  {
    var c := Unfilled(VecModel.VecState([Def(7), Undef], 1));
    assert Spare(c) == [Undef];
    assert Spare(c)[..c.initialized] == [Undef];
  }

  /**
   * On the same vector, `ensure_init()` writes nothing (its `uninit_mut()` window is empty), sets
   * `initialized` to the capacity 2 although one spare slot is still undefined, and from then on
   * `init_ref()` and a second `ensure_init()` panic, since 2 exceeds the one spare slot.
   */
  lemma EnsureInitThenInitRefPanics()
    ensures var c := Unfilled(VecModel.VecState([Def(7), Undef], 1));
      EnsureInit(c).Ok?
      && EnsureInit(c).value.vec.bytes[1] == Undef
      && EnsureInit(c).value.initialized == 2
      && InitRef(EnsureInit(c).value) == Panic
      && EnsureInit(EnsureInit(c).value) == Panic
  {
    var c := Unfilled(VecModel.VecState([Def(7), Undef], 1));
    assert ZeroFrom(c.vec.bytes, 2) == c.vec.bytes;
  }

  /**
   * An empty vector of capacity 2: the caller writes slot 0 through `as_mut`, calls
   * `set_init(1)` and `advance(1)`. `initialized` stays 1 though the spare capacity has moved on
   * by one, so `init_ref()` now hands out slot 1, which was never written.
   */
  lemma AdvanceKeepsStaleInitialized()
    ensures var c0 := Unfilled(VecModel.VecState([Undef, Undef], 0));
      var c1 := Store(c0, 0, Def(5));
      var c2 := SetInit(c1, 1);
      var c3 := Advance(c2, 1);
      InitRef(c3) == Ok([Undef])
  {
    var v0 := VecModel.VecState([Undef, Undef], 0);
    var v1 := VecModel.VecState([Def(5), Undef], 0);
    var v3 := VecModel.VecState([Def(5), Undef], 1);
    assert v0.bytes[0 := Def(5)] == v1.bytes;
    assert v3.bytes[1..][..1] == [Undef];
    var c1 := CursorState(v1, 0, 0);
    var c2 := CursorState(v1, 1, 0);
    assert Store(Unfilled(v0), 0, Def(5)) == c1;
    assert SetInit(c1, 1) == c2;
    assert InitRef(Advance(c2, 1)) == Ok([Undef]);
  }
}

/**
 * `VecCursor` with `initialized` counted, as its field comment says, relative to the vector's
 * length: it is the number of spare slots known to hold values. Starting it at 0, setting it to
 * the spare room in `ensure_init` and moving it down in `advance` keeps every view in bounds and
 * every slot that `init_ref` hands out defined.
 */
module RelativeCursor {
  import opened Bytes
  import VecModel
  import VecCursorModel

  /** The first `initialized` spare slots exist and hold values. */
  predicate Inv(c: VecCursorModel.CursorState) {
    VecCursorModel.Inv(c) && c.initialized <= VecCursorModel.Capacity(c)
    && DefinedBetween(c.vec.bytes, c.vec.len, c.vec.len + c.initialized)
  }

  /** The views are sound: `init_ref()` does not panic and every slot it hands out is defined. */
  lemma InitRefDefined(c: VecCursorModel.CursorState)
    requires Inv(c)
    ensures VecCursorModel.InitRef(c).Ok? && VecCursorModel.InitMut(c).Ok? && VecCursorModel.UninitMut(c).Ok?
    ensures forall i :: 0 <= i < |VecCursorModel.InitRef(c).value| ==> VecCursorModel.InitRef(c).value[i].Def?
  {
    assert forall i :: 0 <= i < c.initialized ==> VecCursorModel.InitRef(c).value[i] == c.vec.bytes[c.vec.len + i];
  }

  /** `unfilled()`: nothing in the spare capacity is known to be defined. */
  function New(v: VecModel.VecState): (c: VecCursorModel.CursorState)
    requires VecModel.Inv(v)
    ensures Inv(c) && c.vec == v && VecCursorModel.Written(c) == 0
    ensures VecCursorModel.InitRef(c) == Ok([])
  {
    VecCursorModel.CursorState(v, 0, v.len)
  }

  /** `advance(n)`: the `n` slots leave the spare capacity, so the count drops by `n` (not below 0). */
  function Advance(c: VecCursorModel.CursorState, n: nat): (r: VecCursorModel.CursorState)
    requires Inv(c) && DefinedBetween(c.vec.bytes, c.vec.len, c.vec.len + n)
    ensures Inv(r) && VecCursorModel.Written(r) == VecCursorModel.Written(c) + n && r.start == c.start && r.vec.bytes == c.vec.bytes
    ensures c.vec.len + c.initialized <= r.vec.len + r.initialized
  {
    var moved := VecCursorModel.Advance(c, n);
    moved.(initialized := if n <= c.initialized then c.initialized - n else 0)
  }

  /** `ensure_init()`: zero the spare slots after the defined ones; then all spare slots are defined. */
  function EnsureInit(c: VecCursorModel.CursorState): (r: VecCursorModel.CursorState)
    requires Inv(c)
    ensures Inv(r) && r.initialized == VecCursorModel.Capacity(r) && r.vec.len == c.vec.len && r.start == c.start
    ensures |r.vec.bytes| == |c.vec.bytes|
    ensures VecCursorModel.InitRef(r) == Ok(VecCursorModel.Spare(r))
    ensures r.vec.bytes[..c.vec.len + c.initialized] == c.vec.bytes[..c.vec.len + c.initialized]
  {
    var from := c.vec.len + c.initialized;
    var r := c.(vec := c.vec.(bytes := ZeroFrom(c.vec.bytes, from)), initialized := VecCursorModel.Capacity(c));
    assert VecCursorModel.Spare(r)[..r.initialized] == VecCursorModel.Spare(r);
    r
  }

  /** `ensure_init()` twice is `ensure_init()` once, where the code as written panics. */
  lemma EnsureInitIdempotent(c: VecCursorModel.CursorState)
    requires Inv(c)
    ensures EnsureInit(EnsureInit(c)) == EnsureInit(c)
  {
    var r := EnsureInit(c);
    assert r.vec.len + r.initialized == |r.vec.bytes|;
    assert ZeroFrom(r.vec.bytes, |r.vec.bytes|) == r.vec.bytes;
  }

  /**
   * `set_init(n)`: the caller vouches for the first `n` spare slots. The code at src/owned.rs:209
   * already counts relatively, so this is `VecCursorModel.SetInit`; only the invariant it keeps
   * differs.
   */
  function SetInit(c: VecCursorModel.CursorState, n: nat): (r: VecCursorModel.CursorState)
    requires Inv(c) && DefinedBetween(c.vec.bytes, c.vec.len, c.vec.len + n)
    ensures Inv(r) && r.initialized >= c.initialized && r.initialized >= n
    ensures n <= c.initialized ==> r == c
    ensures n > c.initialized ==> r.initialized == n
    ensures r.vec == c.vec && r.start == c.start
  {
    VecCursorModel.SetInit(c, n)
  }

  /** `append(data)`: copy, vouch for the copied slots, advance past them. */
  function Append(c: VecCursorModel.CursorState, data: seq<bv8>): (r: Outcome<VecCursorModel.CursorState>)
    requires Inv(c)
    ensures r.Panic? <==> VecCursorModel.Capacity(c) < |data|
    ensures r.Ok? ==> Inv(r.value) && VecCursorModel.Written(r.value) == VecCursorModel.Written(c) + |data|
    ensures r.Ok? ==> VecModel.Filled(r.value.vec) == VecModel.Filled(c.vec) + data
    ensures r.Ok? ==> r.value.vec == VecCursorModel.Append(c, data).value.vec && r.value.start == c.start
    ensures r.Ok? ==> c.vec.len + c.initialized <= r.value.vec.len + r.value.initialized
  {
    if VecCursorModel.Capacity(c) < |data| then Panic
    else
      var written := c.(vec := c.vec.(bytes := Splice(c.vec.bytes, c.vec.len, data)));
      assert Inv(written);
      var r := Advance(SetInit(written, |data|), |data|);
      assert r.vec == VecCursorModel.Append(c, data).value.vec;
      Ok(r)
  }
}
