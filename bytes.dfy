/** Storage slots that may or may not hold a defined byte, and the helpers both buffers share. */
module Bytes {

  /** One storage slot: `Undef` is an uninitialised `MaybeUninit<u8>`, `Def(v)` an initialised one. */
  datatype Byte = Undef | Def(v: bv8)

  /** The result of an operation that may panic. A panic leaves the state as it was. */
  datatype Outcome<T> = Ok(value: T) | Panic {
    /** The new state after the call, or `previous` when it panicked. */
    function ValueOr(previous: T): (r: T) {
      if Ok? then value else previous
    }
  }

  /** A half-open window `[lo, hi)` of a storage array: what a mutable slice view hands out. */
  datatype Span = Span(lo: nat, hi: nat)

  /** `cmp::max` on `usize`. */
  function Max(a: nat, b: nat): (m: nat)
    ensures m >= a && m >= b
    ensures m == a || m == b
  {
    if a >= b then a else b
  }

  /** Every slot of `s` in `[lo, hi)` holds a value, and the window lies inside `s`. */
  predicate DefinedBetween(s: seq<Byte>, lo: nat, hi: nat) {
    lo <= hi <= |s| && forall i :: lo <= i < hi ==> s[i].Def?
  }

  /** The first `k` slots of `s` hold values. */
  predicate DefinedBelow(s: seq<Byte>, k: nat) {
    DefinedBetween(s, 0, k)
  }

  /** Initialised bytes seen as slots: the `&[u8]` to `&[MaybeUninit<u8>]` direction. */
  function Lift(data: seq<bv8>): (r: seq<Byte>)
    ensures |r| == |data|
    ensures forall i :: 0 <= i < |data| ==> r[i] == Def(data[i])
  {
    seq(|data|, i requires 0 <= i < |data| => Def(data[i]))
  }

  /** The values of slots known to be defined: what `MaybeUninit::slice_assume_init_ref` yields. */
  function Values(s: seq<Byte>): (r: seq<bv8>)
    requires DefinedBelow(s, |s|)
    ensures Lift(r) == s
  {
    seq(|s|, i requires 0 <= i < |s| => s[i].v)
  }

  lemma LiftConcat(a: seq<bv8>, b: seq<bv8>)
    ensures Lift(a + b) == Lift(a) + Lift(b)
  {
    assert forall i :: 0 <= i < |a| + |b| ==> Lift(a + b)[i] == (Lift(a) + Lift(b))[i];
  }

  /** `n` slots holding zero. */
  function Zeros(n: nat): (r: seq<Byte>)
    ensures |r| == n
    ensures forall i :: 0 <= i < n ==> r[i] == Def(0)
  {
    if n == 0 then [] else [Def(0)] + Zeros(n - 1)
  }

  /** `s` with `data` copied in at offset `at`: the effect of `MaybeUninit::write_slice`. */
  function Splice(s: seq<Byte>, at: nat, data: seq<bv8>): (r: seq<Byte>)
    requires at + |data| <= |s|
    ensures |r| == |s|
    ensures forall i :: 0 <= i < |s| ==> r[i] == if at <= i < at + |data| then Def(data[i - at]) else s[i]
  {
    s[..at] + Lift(data) + s[at + |data|..]
  }

  /** `s` with every slot from `from` onward overwritten with zero. */
  function ZeroFrom(s: seq<Byte>, from: nat): (r: seq<Byte>)
    requires from <= |s|
    ensures |r| == |s|
    ensures forall i :: 0 <= i < |s| ==> r[i] == if i < from then s[i] else Def(0)
  {
    s[..from] + Zeros(|s| - from)
  }

  /** Copies `data` into `a` at offset `at`, slot by slot. */
  method WriteSlice(a: array<Byte>, at: nat, data: seq<bv8>)
    requires at + |data| <= a.Length
    modifies a
    ensures a[..] == Splice(old(a[..]), at, data)
  {
    var k := 0;
    while k < |data|
      invariant k <= |data|
      invariant forall i :: 0 <= i < a.Length ==> a[i] == if at <= i < at + k then Def(data[i - at]) else old(a[i])
    {
      a[at + k] := Def(data[k]);
      k := k + 1;
    }
  }

  /** Writes zero into every slot of `a` from `from` onward: the loop `for byte in .. { byte.write(0) }`. */
  method ZeroTail(a: array<Byte>, from: nat)
    requires from <= a.Length
    modifies a
    ensures a[..] == ZeroFrom(old(a[..]), from)
  {
    var k := from;
    while k < a.Length
      invariant from <= k <= a.Length
      invariant forall i :: 0 <= i < a.Length ==> a[i] == if from <= i < k then Def(0) else old(a[i])
    {
      a[k] := Def(0);
      k := k + 1;
    }
  }
}
