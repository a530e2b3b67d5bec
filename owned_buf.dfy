/**
 * `impl OwnedBuf for Vec<u8>` and `VecCursor` (src/owned.rs) as objects. The vector keeps a fixed
 * allocation (nothing here grows it) and a length it updates in place; the cursor borrows the
 * vector and keeps its own `initialized` and `start`. Every operation is proved to have exactly
 * the effect that modules VecModel and VecCursorModel give it, the cursor's as written.
 */
module OwnedBuffer {
  import opened Bytes
  import VecModel
  import VecCursorModel

  class Vec {
    /** The allocation; its length is `Vec::capacity()`. */
    const data: array<Byte>
    var len: nat

    function State(): (s: VecModel.VecState)
      reads this, data
    {
      VecModel.VecState(data[..], len)
    }

    ghost predicate Valid()
      reads this, data
    {
      VecModel.Inv(State())
    }

    /** `Vec::with_capacity(cap)`: an empty vector over `cap` uninitialised slots. */
    constructor WithCapacity(cap: nat)
      ensures Valid() && fresh(data)
      ensures data.Length == cap && len == 0
      ensures forall i :: 0 <= i < cap ==> data[i] == Undef
    {
      data := new Byte[cap](_ => Undef);
      len := 0;
    }

    /** `capacity()`: the size of the allocation, which bounds the length. */
    function Capacity(): (n: nat)
      reads this, data
      requires Valid()
      ensures n == |State().bytes| && len <= n
    {
      data.Length
    }

    /** `filled()`: the vector's `len` elements. */
    function Filled(): (r: seq<bv8>)
      reads this, data
      requires Valid()
      ensures |r| == len && Lift(r) == data[..len]
    {
      VecModel.Filled(State())
    }

    /** `len()`: the number of elements, which `filled()` returns. */
    function Len(): (n: nat)
      reads this, data
      requires Valid()
      ensures n == |Filled()| && n <= Capacity()
    {
      len
    }

    /** `init_len()`: for a vector, everything initialised is filled. */
    function InitLen(): (n: nat)
      reads this, data
      requires Valid()
      ensures n == Len()
    {
      len
    }

    /** `unfilled()`: a cursor whose `initialized` and `start` are the current length. */
    method Unfilled() returns (c: VecCursor)
      requires Valid()
      ensures fresh(c) && c.buf == this && c.Valid()
      ensures c.State() == VecCursorModel.Unfilled(State())
    {
      c := new VecCursor(this, len, len);
    }

    /** `clear()`: `Vec::clear`. */
    method Clear()
      requires Valid()
      modifies this
      ensures Valid()
      ensures State() == VecModel.Clear(old(State()))
    {
      len := 0;
    }

    /** `set_init(n)` (unsafe): `set_len(max(len, n))`; the caller vouches for the first `n` slots. */
    method SetInit(n: nat)
      requires Valid() && DefinedBelow(data[..], n)
      modifies this
      ensures Valid()
      ensures State() == VecModel.SetInit(old(State()), n)
    {
      len := Max(len, n);
    }
  }

  class VecCursor {
    /** `&'a mut Vec<u8>`. */
    const buf: Vec
    /** Assigned absolute positions by the code, although its comment calls it relative to `len`. */
    var initialized: nat
    /** The vector's length when the cursor was made. */
    const start: nat

    constructor (v: Vec, initialized: nat, start: nat)
      ensures buf == v && this.initialized == initialized && this.start == start
    {
      buf := v;
      this.initialized := initialized;
      this.start := start;
    }

    function State(): (s: VecCursorModel.CursorState)
      reads this, buf, buf.data
    {
      VecCursorModel.CursorState(buf.State(), initialized, start)
    }

    ghost predicate Valid()
      reads this, buf, buf.data
    {
      VecCursorModel.Inv(State())
    }

    /** `capacity()`: `capacity - len`, the spare room. */
    function Capacity(): (n: nat)
      reads this, buf, buf.data
      requires Valid()
      ensures buf.Len() + n == buf.Capacity()
    {
      buf.data.Length - buf.len
    }

    /** `written()`: `len - start`, the bytes added to the vector since the cursor was made. */
    function Written(): (n: nat)
      reads this, buf, buf.data
      requires Valid()
      ensures start + n == buf.Len()
    {
      buf.len - start
    }

    /** `init_ref()`: the first `initialized` spare slots, defined or not; panics past the spare room. */
    function InitRef(): (r: Outcome<seq<Byte>>)
      reads this, buf, buf.data
      requires Valid()
      ensures r.Ok? <==> buf.len + initialized <= buf.data.Length
      ensures r.Ok? ==> r.value == buf.data[buf.len..buf.len + initialized]
    {
      VecCursorModel.InitRef(State())
    }

    /** `init_mut()`: the window `[len, len + initialized)`, with the same panic. */
    function InitMut(): (r: Outcome<Span>)
      reads this, buf, buf.data
      requires Valid()
      ensures r.Ok? <==> buf.len + initialized <= buf.data.Length
      ensures r.Ok? ==> r.value == Span(buf.len, buf.len + initialized)
    {
      VecCursorModel.InitMut(State())
    }

    /** `uninit_mut()`: the window `[len + initialized, capacity)`, with the same panic. */
    function UninitMut(): (r: Outcome<Span>)
      reads this, buf, buf.data
      requires Valid()
      ensures r.Ok? <==> buf.len + initialized <= buf.data.Length
      ensures r.Ok? ==> r.value == Span(buf.len + initialized, buf.data.Length)
    {
      VecCursorModel.UninitMut(State())
    }

    /** `as_mut()`: the whole spare capacity. */
    function AsMut(): (w: Span)
      reads this, buf, buf.data
      requires Valid()
      ensures w == Span(buf.len, buf.data.Length)
    {
      VecCursorModel.AsMut(State())
    }

    /** `advance(n)` (unsafe): `set_len(len + n)`; the caller vouches for the next `n` slots. */
    method Advance(n: nat)
      requires Valid() && DefinedBetween(buf.data[..], buf.len, buf.len + n)
      modifies buf
      ensures Valid()
      ensures State() == VecCursorModel.Advance(old(State()), n)
    {
      buf.len := buf.len + n;
    }

    /**
     * `ensure_init()`: taking `uninit_mut()` panics when `initialized` exceeds the spare room;
     * otherwise its slots are zeroed in place and `initialized` becomes the capacity.
     */
    method EnsureInit() returns (o: Outcome<()>)
      requires Valid()
      modifies this, buf.data
      ensures Valid()
      ensures o.Panic? <==> VecCursorModel.EnsureInit(old(State())).Panic?
      ensures State() == VecCursorModel.EnsureInit(old(State())).ValueOr(old(State()))
    {
      if !(initialized <= buf.data.Length - buf.len) {
        return Panic;
      }
      ZeroTail(buf.data, buf.len + initialized);
      initialized := buf.data.Length;
      o := Ok(());
    }

    /** `set_init(n)` (unsafe): the caller vouches for the first `n` spare slots. */
    method SetInit(n: nat)
      requires Valid() && DefinedBetween(buf.data[..], buf.len, buf.len + n)
      modifies this
      ensures Valid()
      ensures State() == VecCursorModel.SetInit(old(State()), n)
    {
      initialized := Max(initialized, n);
    }

    /** `append(data)`: the assertion that `data` fits in the spare capacity is the panic. */
    method Append(data: seq<bv8>) returns (o: Outcome<()>)
      requires Valid()
      modifies buf, buf.data
      ensures Valid()
      ensures o.Panic? <==> VecCursorModel.Append(old(State()), data).Panic?
      ensures State() == VecCursorModel.Append(old(State()), data).ValueOr(old(State()))
    {
      var spare := buf.data.Length - buf.len;
      if !(|data| <= spare) {
        return Panic;
      }
      WriteSlice(buf.data, buf.len, data);
      Advance(|data|);
      o := Ok(());
    }
  }

  /**
   * Filling a vector through a cursor: two appends to an empty vector of capacity 8 leave it
   * holding both chunks, with `written()` counting all six bytes.
   */
  method AppendTwice() returns (filled: seq<bv8>, written: nat, room: nat)
    ensures filled == [1, 2, 3, 4, 5, 6]
    ensures written == 6 && room == 2
  {
    var v := new Vec.WithCapacity(8);
    var c := v.Unfilled();
    var o1 := c.Append([1, 2, 3, 4]);
    var o2 := c.Append([5, 6]);
    filled := v.Filled();
    written := c.Written();
    room := c.Capacity();
  }
}
