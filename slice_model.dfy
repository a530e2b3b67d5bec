/**
 * The state machine of `SliceBuf` and `SliceBufCursor` (src/lib.rs) on values: a fixed run of
 * slots and the two counters `filled` and `initialized`. Each function is the effect of one
 * operation; the classes in module SliceBuffer are proved to perform exactly these effects.
 */
module SliceModel {
  import opened Bytes

  /** What a `SliceBuf` holds: its borrowed storage (capacity = `|bytes|`) and its two counters. */
  datatype SliceState = SliceState(bytes: seq<Byte>, filled: nat, initialized: nat)

  /** `0 <= filled <= initialized <= capacity`, and every slot below `initialized` holds a value. */
  predicate Inv(s: SliceState) {
    s.filled <= s.initialized && DefinedBelow(s.bytes, s.initialized)
  }

  // ---- Read-only views -------------------------------------------------------------------

  /** `filled()`: the values of `[0, filled)`. */
  function Filled(s: SliceState): (r: seq<bv8>)
    requires Inv(s)
    ensures |r| == s.filled
    ensures Lift(r) == s.bytes[..s.filled]
  {
    Values(s.bytes[..s.filled])
  }

  /** The cursor's `initialized()`: the values of `[filled, initialized)`, defined but not yet filled. */
  function Initialized(s: SliceState): (r: seq<bv8>)
    requires Inv(s)
    ensures |r| == s.initialized - s.filled
    ensures Lift(r) == s.bytes[s.filled..s.initialized]
  {
    Values(s.bytes[s.filled..s.initialized])
  }

  /** The cursor's `initialized_mut()`: a window every slot of which holds a value. */
  function InitializedSpan(s: SliceState): (w: Span)
    requires Inv(s)
    ensures w.lo == s.filled && w.hi == s.initialized
    ensures DefinedBetween(s.bytes, w.lo, w.hi)
  {
    Span(s.filled, s.initialized)
  }

  /** The cursor's `uninitialized_mut()`: the rest of the storage after the defined prefix. */
  function UninitializedSpan(s: SliceState): (w: Span)
    requires Inv(s)
    ensures w.lo == s.initialized && w.hi == |s.bytes|
  {
    Span(s.initialized, |s.bytes|)
  }

  /** The cursor's `as_mut()`: everything not yet filled. */
  function UnfilledSpan(s: SliceState): (w: Span)
    requires Inv(s)
    ensures w.lo == s.filled && w.hi == |s.bytes|
  {
    Span(s.filled, |s.bytes|)
  }

  /** The three regions tile the storage: filled bytes, then defined spare bytes, then the rest. */
  lemma ViewsPartition(s: SliceState)
    requires Inv(s)
    ensures Lift(Filled(s)) + Lift(Initialized(s)) + s.bytes[UninitializedSpan(s).lo..UninitializedSpan(s).hi] == s.bytes
    ensures InitializedSpan(s).hi == UninitializedSpan(s).lo
    ensures UnfilledSpan(s).lo == InitializedSpan(s).lo
  {
    assert s.bytes == s.bytes[..s.filled] + s.bytes[s.filled..s.initialized] + s.bytes[s.initialized..];
  }

  // ---- Whole-buffer operations -----------------------------------------------------------

  /** `set_filled(n)`: panics unless `n <= initialized`; otherwise moves only the fill point. */
  function SetFilled(s: SliceState, n: nat): (r: Outcome<SliceState>)
    requires Inv(s)
    ensures r.Ok? <==> n <= s.initialized
    ensures r.Ok? ==> Inv(r.value) && r.value.filled == n
    ensures r.Ok? ==> r.value.initialized == s.initialized && r.value.bytes == s.bytes
  {
    if n <= s.initialized then Ok(s.(filled := n)) else Panic
  }

  /** `clear()` is `set_filled(0)`, which never panics: the filled region becomes empty. */
  function Clear(s: SliceState): (r: SliceState)
    requires Inv(s)
    ensures Inv(r) && r.filled == 0 && Filled(r) == []
    ensures r.initialized == s.initialized && r.bytes == s.bytes
  {
    SetFilled(s, 0).value
  }

  /**
   * `set_init(n)`: the caller promises that the first `n` slots (counted from the start of the
   * storage, as the code does) hold values; `initialized` rises to `n` if it was lower.
   */
  function SetInit(s: SliceState, n: nat): (r: SliceState)
    requires Inv(s) && DefinedBelow(s.bytes, n)
    ensures Inv(r) && r.initialized >= s.initialized && r.initialized >= n
    ensures n <= s.initialized ==> r == s
    ensures n > s.initialized ==> r.initialized == n
    ensures r.filled == s.filled && r.bytes == s.bytes
  {
    s.(initialized := Max(s.initialized, n))
  }

  // ---- Cursor operations -----------------------------------------------------------------

  /**
   * A write of one slot through a mutable view. The views start at `filled`, and a slot already
   * known to be defined may only receive a value (the safety rule of `as_mut`).
   */
  predicate MayStore(s: SliceState, at: nat, b: Byte) {
    s.filled <= at < |s.bytes| && (at < s.initialized ==> b.Def?)
  }

  function Store(s: SliceState, at: nat, b: Byte): (r: SliceState)
    requires Inv(s) && MayStore(s, at, b)
    ensures Inv(r) && r.filled == s.filled && r.initialized == s.initialized
    ensures |r.bytes| == |s.bytes| && r.bytes[..s.filled] == s.bytes[..s.filled]
    ensures r.bytes[at] == b
    ensures forall i :: 0 <= i < |s.bytes| && i != at ==> r.bytes[i] == s.bytes[i]
  {
    s.(bytes := s.bytes[at := b])
  }

  /** `advance(n)`: the caller promises that `[filled, filled + n)` hold values inside the storage. */
  function Advance(s: SliceState, n: nat): (r: SliceState)
    requires Inv(s) && DefinedBetween(s.bytes, s.filled, s.filled + n)
    ensures Inv(r) && r.filled == s.filled + n && r.initialized >= s.initialized
    ensures s.filled + n <= s.initialized ==> r.initialized == s.initialized
    ensures s.filled + n > s.initialized ==> r.initialized == s.filled + n
    ensures r.bytes == s.bytes
  {
    var filled := s.filled + n;
    s.(filled := filled, initialized := Max(s.initialized, filled))
  }

  /** `ensure_init()`: zero every slot from `initialized` on, then `initialized := capacity`. */
  function EnsureInit(s: SliceState): (r: SliceState)
    requires Inv(s)
    ensures Inv(r) && r.initialized == |r.bytes| == |s.bytes|
    ensures r.filled == s.filled && r.bytes[..s.initialized] == s.bytes[..s.initialized]
    ensures forall i :: s.initialized <= i < |s.bytes| ==> r.bytes[i] == Def(0)
  {
    s.(bytes := ZeroFrom(s.bytes, s.initialized), initialized := |s.bytes|)
  }

  /** `ensure_init()` twice is `ensure_init()` once. */
  lemma EnsureInitIdempotent(s: SliceState)
    requires Inv(s)
    ensures EnsureInit(EnsureInit(s)) == EnsureInit(s)
  {
    var t := EnsureInit(s);
    assert t.bytes[..t.initialized] == t.bytes;
  }

  /**
   * `assume_init(n)`: the caller promises that the first `n` slots after `filled` hold values;
   * `initialized` rises to `filled + n` if it was lower.
   */
  function AssumeInit(s: SliceState, n: nat): (r: SliceState)
    requires Inv(s) && DefinedBelow(s.bytes, s.filled + n)
    ensures Inv(r) && r.initialized >= s.initialized && r.initialized >= s.filled + n
    ensures s.filled + n <= s.initialized ==> r == s
    ensures s.filled + n > s.initialized ==> r.initialized == s.filled + n
    ensures r.filled == s.filled && r.bytes == s.bytes
  {
    s.(initialized := Max(s.initialized, s.filled + n))
  }

  /**
   * `append(data)`: panics unless `data` fits in the unfilled room; otherwise copies `data` to
   * `filled`, asserts those slots initialised and moves the fill point past them.
   */
  function Append(s: SliceState, data: seq<bv8>): (r: Outcome<SliceState>)
    requires Inv(s)
    ensures r.Panic? <==> |s.bytes| - s.filled < |data|
    ensures r.Ok? ==> Inv(r.value) && |r.value.bytes| == |s.bytes|
    ensures r.Ok? ==> r.value.filled == s.filled + |data| && r.value.initialized >= s.initialized
    ensures r.Ok? ==> r.value.bytes[..s.filled] == s.bytes[..s.filled]
    ensures r.Ok? ==> r.value.bytes[s.filled..r.value.filled] == Lift(data)
    ensures r.Ok? ==> r.value.bytes[r.value.filled..] == s.bytes[r.value.filled..]
  {
    if |s.bytes| - s.filled < |data| then Panic
    else
      var written := s.(bytes := Splice(s.bytes, s.filled, data));
      var assumed := AssumeInit(written, |data|);
      Ok(assumed.(filled := assumed.filled + |data|))
  }

  /** `append` is the same as writing `data` through `as_mut` and then calling `advance(|data|)`. */
  lemma AppendIsWriteThenAdvance(s: SliceState, data: seq<bv8>)
    requires Inv(s) && |data| <= |s.bytes| - s.filled
    ensures Inv(s.(bytes := Splice(s.bytes, s.filled, data)))
    ensures DefinedBetween(Splice(s.bytes, s.filled, data), s.filled, s.filled + |data|)
    ensures Append(s, data) == Ok(Advance(s.(bytes := Splice(s.bytes, s.filled, data)), |data|))
  {
  }
}

/**
 * Any sequence of calls on a `SliceBuf` and its cursors, each made within its caller contract,
 * keeps `0 <= filled <= initialized <= capacity` and never lowers `initialized`.
 */
module SliceTrace {
  import opened Bytes
  import SliceModel

  /** One call on the buffer or on a cursor over it; `Store` is a write through a mutable view. */
  datatype Op =
    | Clear
    | SetFilled(n: nat)
    | SetInit(n: nat)
    | Store(at: nat, b: Byte)
    | Advance(n: nat)
    | EnsureInit
    | AssumeInit(n: nat)
    | Append(data: seq<bv8>)

  /** The caller contract of each call: the safety comments of the unsafe ones. */
  predicate Permitted(s: SliceModel.SliceState, op: Op) {
    match op
    case SetInit(n) => DefinedBelow(s.bytes, n)
    case Store(at, b) => SliceModel.MayStore(s, at, b)
    case Advance(n) => DefinedBetween(s.bytes, s.filled, s.filled + n)
    case AssumeInit(n) => DefinedBelow(s.bytes, s.filled + n)
    case _ => true
  }

  /** The state after one permitted call; a call that panics leaves the state as it was. */
  function Step(s: SliceModel.SliceState, op: Op): (r: SliceModel.SliceState)
    requires SliceModel.Inv(s) && Permitted(s, op)
    ensures SliceModel.Inv(r) && r.initialized >= s.initialized && |r.bytes| == |s.bytes|
  {
    match op
    case Clear => SliceModel.Clear(s)
    case SetFilled(n) => SliceModel.SetFilled(s, n).ValueOr(s)
    case SetInit(n) => SliceModel.SetInit(s, n)
    case Store(at, b) => SliceModel.Store(s, at, b)
    case Advance(n) => SliceModel.Advance(s, n)
    case EnsureInit => SliceModel.EnsureInit(s)
    case AssumeInit(n) => SliceModel.AssumeInit(s, n)
    case Append(data) => SliceModel.Append(s, data).ValueOr(s)
  }

  /** Runs `ops` in order, stopping at the first call whose caller contract does not hold. */
  function Run(s: SliceModel.SliceState, ops: seq<Op>): (r: SliceModel.SliceState)
    requires SliceModel.Inv(s)
    ensures SliceModel.Inv(r)
    ensures r.initialized >= s.initialized
    ensures |r.bytes| == |s.bytes|
    decreases |ops|
  {
    if ops == [] || !Permitted(s, ops[0]) then s
    else Run(Step(s, ops[0]), ops[1..])
  }
}
