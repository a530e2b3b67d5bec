/**
 * `SliceBuf` and `SliceBufCursor` (src/lib.rs) as objects. The buffer borrows a storage array
 * and updates its two counters in place; a cursor holds nothing but the buffer it borrows, so all
 * of its operations change the buffer. Every operation is proved to have exactly the effect that
 * module SliceModel gives it, and `Valid()` (= `SliceModel.Inv`) is kept by all of them.
 */
module SliceBuffer {
  import opened Bytes
  import SliceModel

  class SliceBuf {
    /** The borrowed storage, `&'a mut [MaybeUninit<u8>]`; its length is the capacity. */
    const buf: array<Byte>
    var filled: nat
    var initialized: nat

    function State(): (s: SliceModel.SliceState)
      reads this, buf
    {
      SliceModel.SliceState(buf[..], filled, initialized)
    }

    ghost predicate Valid()
      reads this, buf
    {
      SliceModel.Inv(State())
    }

    /** `From<&mut [u8]>`: every slot of a `[u8]` is defined, so all of it counts as initialised. */
    constructor FromInit(slice: array<Byte>)
      requires forall i :: 0 <= i < slice.Length ==> slice[i].Def?
      ensures Valid() && buf == slice
      ensures filled == 0 && initialized == slice.Length
    {
      buf := slice;
      filled := 0;
      initialized := slice.Length;
    }

    /** `From<&mut [MaybeUninit<u8>]>`: nothing is known to be initialised. */
    constructor FromUninit(slice: array<Byte>)
      ensures Valid() && buf == slice
      ensures filled == 0 && initialized == 0
    {
      buf := slice;
      filled := 0;
      initialized := 0;
    }

    /** `capacity()`: the length of the borrowed storage, which bounds both counters. */
    function Capacity(): (n: nat)
      reads this, buf
      requires Valid()
      ensures n == |State().bytes|
      ensures filled <= initialized <= n
    {
      buf.Length
    }

    /** `filled()`: the values of the first `filled` slots. */
    function Filled(): (r: seq<bv8>)
      reads this, buf
      requires Valid()
      ensures |r| == filled && Lift(r) == buf[..filled]
    {
      SliceModel.Filled(State())
    }

    /** `len()`: the number of filled bytes, which `filled()` returns. */
    function Len(): (n: nat)
      reads this, buf
      requires Valid()
      ensures n == |Filled()|
    {
      filled
    }

    /** `init_len()`: the `initialized` counter, between the filled length and the capacity. */
    function InitLen(): (n: nat)
      reads this, buf
      requires Valid()
      ensures n == initialized
      ensures Len() <= n <= Capacity()
    {
      initialized
    }

    /** `unfilled()`: a cursor borrowing this buffer. */
    method Unfilled() returns (c: SliceBufCursor)
      ensures fresh(c) && c.buf == this
    {
      c := new SliceBufCursor(this);
    }

    /** `clear()`: `set_filled(0)`, which cannot panic. */
    method Clear()
      requires Valid()
      modifies this
      ensures Valid()
      ensures State() == SliceModel.Clear(old(State()))
    {
      var _ := SetFilled(0);
    }

    /** `set_filled(n)`: the assertion `n <= initialized` is the panic. */
    method SetFilled(n: nat) returns (o: Outcome<()>)
      requires Valid()
      modifies this
      ensures Valid()
      ensures o.Panic? <==> SliceModel.SetFilled(old(State()), n).Panic?
      ensures State() == SliceModel.SetFilled(old(State()), n).ValueOr(old(State()))
    {
      if !(n <= initialized) {
        return Panic;
      }
      filled := n;
      o := Ok(());
    }

    /** `set_init(n)` (unsafe): the caller vouches that the first `n` slots hold values. */
    method SetInit(n: nat)
      requires Valid() && DefinedBelow(buf[..], n)
      modifies this
      ensures Valid()
      ensures State() == SliceModel.SetInit(old(State()), n)
    {
      initialized := Max(initialized, n);
    }
  }

  class SliceBufCursor {
    /** `&'b mut SliceBuf<'a>`: the cursor's only field. */
    const buf: SliceBuf

    constructor (b: SliceBuf)
      ensures buf == b
    {
      buf := b;
    }

    /** `capacity()`: the room left after the filled region. */
    function Capacity(): (n: nat)
      reads buf, buf.buf
      requires buf.Valid()
      ensures buf.Len() + n == buf.Capacity()
    {
      buf.buf.Length - buf.filled
    }

    /** `initialized()`: the values of the defined slots after the filled region. */
    function Initialized(): (r: seq<bv8>)
      reads buf, buf.buf
      requires buf.Valid()
      ensures |r| == buf.initialized - buf.filled
      ensures Lift(r) == buf.buf[buf.filled..buf.initialized]
    {
      SliceModel.Initialized(buf.State())
    }

    /** `initialized_mut()`: the window `[filled, initialized)`, every slot of which holds a value. */
    function InitializedMut(): (w: Span)
      reads buf, buf.buf
      requires buf.Valid()
      ensures w.lo == buf.filled && w.hi == buf.initialized
      ensures DefinedBetween(buf.buf[..], w.lo, w.hi)
    {
      SliceModel.InitializedSpan(buf.State())
    }

    /** `uninitialized_mut()`: the window `[initialized, capacity)`. */
    function UninitializedMut(): (w: Span)
      reads buf, buf.buf
      requires buf.Valid()
      ensures w.lo == buf.initialized && w.hi == buf.buf.Length
    {
      SliceModel.UninitializedSpan(buf.State())
    }

    /** `as_mut()` (unsafe): writes through it must not undefine a slot below `initialized`. */
    function AsMut(): (w: Span)
      reads buf, buf.buf
      requires buf.Valid()
      ensures w.lo == buf.filled && w.hi == buf.buf.Length
    {
      SliceModel.UnfilledSpan(buf.State())
    }

    /** `advance(n)` (unsafe): the caller vouches that the next `n` slots hold values. */
    method Advance(n: nat)
      requires buf.Valid() && DefinedBetween(buf.buf[..], buf.filled, buf.filled + n)
      modifies buf
      ensures buf.Valid()
      ensures buf.State() == SliceModel.Advance(old(buf.State()), n)
    {
      buf.filled := buf.filled + n;
      buf.initialized := Max(buf.initialized, buf.filled);
    }

    /** `ensure_init()`: zero-fills the uninitialised tail in place. */
    method EnsureInit()
      requires buf.Valid()
      modifies buf, buf.buf
      ensures buf.Valid()
      ensures buf.State() == SliceModel.EnsureInit(old(buf.State()))
    {
      ZeroTail(buf.buf, buf.initialized);
      buf.initialized := buf.buf.Length;
    }

    /** `assume_init(n)` (unsafe): the caller vouches that `n` slots after `filled` hold values. */
    method AssumeInit(n: nat)
      requires buf.Valid() && DefinedBelow(buf.buf[..], buf.filled + n)
      modifies buf
      ensures buf.Valid()
      ensures buf.State() == SliceModel.AssumeInit(old(buf.State()), n)
    {
      buf.initialized := Max(buf.initialized, buf.filled + n);
    }

    /** `append(data)`: the assertion `capacity() >= data.len()` is the panic. */
    method Append(data: seq<bv8>) returns (o: Outcome<()>)
      requires buf.Valid()
      modifies buf, buf.buf
      ensures buf.Valid()
      ensures o.Panic? <==> SliceModel.Append(old(buf.State()), data).Panic?
      ensures buf.State() == SliceModel.Append(old(buf.State()), data).ValueOr(old(buf.State()))
    {
      if !(Capacity() >= |data|) {
        return Panic;
      }
      WriteSlice(buf.buf, buf.filled, data);
      AssumeInit(|data|);
      buf.filled := buf.filled + |data|;
      o := Ok(());
    }
  }

  /**
   * The crate's test `it_works`: over 32 uninitialised slots, a reader writes 0, 1, 2, 3 through
   * `as_mut` and advances by four; the backing storage then starts with those four bytes.
   */
  method ItWorks() returns (len: nat, backing: seq<Byte>)
    ensures len == 4
    ensures backing == Lift([0, 1, 2, 3])
  {
    var storage := new Byte[32](_ => Undef);
    var b := new SliceBuf.FromUninit(storage);
    var c := b.Unfilled();
    var raw := c.AsMut();
    storage[raw.lo] := Def(0);
    storage[raw.lo + 1] := Def(1);
    storage[raw.lo + 2] := Def(2);
    storage[raw.lo + 3] := Def(3);
    c.Advance(4);
    len := b.Len();
    backing := storage[..len];
  }

  /** Appending `[0, 1, 2, 3]` to an empty buffer of 32 uninitialised slots fills exactly those bytes. */
  method AppendFour() returns (filled: seq<bv8>, initLen: nat)
    ensures filled == [0, 1, 2, 3]
    ensures initLen >= 4
  {
    var storage := new Byte[32](_ => Undef);
    var b := new SliceBuf.FromUninit(storage);
    var c := b.Unfilled();
    var o := c.Append([0, 1, 2, 3]);
    filled := b.Filled();
    initLen := b.InitLen();
  }
}
