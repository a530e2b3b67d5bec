# read-buf in Dafny

A model of the `read-buf` crate. The crate has two byte buffers that track nested regions of a storage area.

- `SliceBuf` (src/lib.rs) borrows a fixed slice of possibly-uninitialised bytes. It keeps two counters:
  - `filled`: the logical output;
  - `initialized`: the bytes known to hold values.
  
  The invariant is `0 <= filled <= initialized <= capacity`, and every byte below `initialized` is defined. A `SliceBufCursor` is nothing but a mutable borrow of the buffer. All writing happens through it:
  - views of the unfilled part;
  - `advance`, `assume_init` and `ensure_init`;
  - `append`.
- `Vec<u8>` implements the `OwnedBuf` interface (src/owned.rs). Its `VecCursor` works over the vector's spare capacity. It keeps `start`, the length at creation (so `written() = len - start`), and its own `initialized` count.

A storage slot is `Byte = Undef | Def(v: bv8)`. An uninitialised `MaybeUninit<u8>` is `Undef`.

A panic (`assert!`, an out-of-range slice) is the `Panic` case of `Outcome`, and the state stays as it was. The safety comments of the `unsafe` functions become `requires` clauses.

The files:

- `bytes.dfy` — module `Bytes`: slots, `Outcome`, windows (`Span`), and the two in-place loops:
  - `WriteSlice` for `MaybeUninit::write_slice`;
  - `ZeroTail` for the zero-fill loop of `ensure_init`.
- `slice_model.dfy`:
  - module `SliceModel`: each `SliceBuf` and `SliceBufCursor` operation as a function on a value `SliceState(bytes, filled, initialized)`, with the invariant each one keeps;
  - module `SliceTrace`: any sequence of permitted calls keeps the invariant and never lowers `initialized`.
- `slice_buf.dfy` — module `SliceBuffer`:
  - the classes `SliceBuf` and `SliceBufCursor`, whose fields are updated in place; each method is proved to produce exactly the `SliceModel` effect;
  - the crate's test `it_works` (`ItWorks`).
- `vec_model.dfy`:
  - module `VecModel`: the vector as `OwnedBuf`;
  - module `VecCursorModel`: the cursor as the code is written;
  - module `RelativeCursor`: the cursor with `initialized` counted relative to `len`, as its field comment says (see Findings).
- `owned_buf.dfy` — module `OwnedBuffer`: the classes `Vec` and `VecCursor`, proved against `VecModel` and `VecCursorModel`.

### Where code and documentation disagree, the code is modelled

- `SliceBuf::set_init(n)` (src/lib.rs:108-111) computes `max(initialized, n)` with an absolute `n`. Its doc comment speaks of "the first `n` unfilled bytes". The model uses the absolute `n`, and its caller contract is "the first `n` slots hold values".
- `SliceBufCursor::assume_init(n)` (src/lib.rs:189-192) counts from `filled`, as its doc says.
- `VecCursor::initialized` is documented as relative to the vector's length (src/owned.rs:151). The code stores absolute positions in it:
  - `len` in `unfilled` (src/owned.rs:131);
  - `capacity` in `ensure_init` (src/owned.rs:205);
  - it is not moved by `advance` (src/owned.rs:195-198).

  The views still slice the spare capacity with it. `OwnedBuffer.VecCursor` and `VecCursorModel` do exactly this. As a result they keep no invariant on `initialized`, and every view that slices with it can panic. Findings shows what this does.

## Model

| member | source | states |
|---|---|---|
| `Bytes.WriteSlice` | src/lib.rs:205 | copying `data` into the storage at an offset changes exactly those slots, to `data`'s values |
| `Bytes.ZeroTail` | src/lib.rs:172-174 | the zero-fill loop writes 0 into every slot from the start offset on and leaves the slots before it alone |
| `SliceModel.Filled` | src/lib.rs:53-56 | `filled()` is `filled` defined bytes, exactly the first `filled` slots |
| `SliceModel.Initialized` | src/lib.rs:127-132 | the cursor's `initialized()` is the values of `[filled, initialized)`, all defined |
| `SliceModel.InitializedSpan` | src/lib.rs:136-143 | `initialized_mut()` is `[filled, initialized)` and every slot in it is defined |
| `SliceModel.UninitializedSpan` | src/lib.rs:149-151 | `uninitialized_mut()` is `[initialized, capacity)` |
| `SliceModel.UnfilledSpan` | src/lib.rs:155-157 | `as_mut()` is `[filled, capacity)` |
| `SliceModel.ViewsPartition` | src/lib.rs:53-157 | filled bytes, defined spare bytes and the rest tile the storage in that order; the two mutable views meet at `initialized` |
| `SliceModel.SetFilled` | src/lib.rs:92-97 | panics exactly when `n > initialized`; otherwise `filled = n`, with `initialized` and all bytes unchanged and the invariant kept |
| `SliceModel.Clear` | src/lib.rs:77-79 | `filled = 0` and `filled()` is empty; `initialized` and the bytes are unchanged |
| `SliceModel.SetInit` | src/lib.rs:108-111 | a no-op when `n <= initialized`, else `initialized = n`; it never lowers `initialized`, leaves `filled` and the bytes alone, and keeps the invariant |
| `SliceModel.Store` | src/lib.rs:153-157 | a write through a view that respects `as_mut`'s rule sets exactly that slot and leaves every other slot alone; it keeps the invariant, both counters and the filled bytes |
| `SliceModel.Advance` | src/lib.rs:163-167 | `filled` grows by exactly `n`; `initialized` becomes `max(initialized, filled + n)`, so it is unchanged if it already covered the new fill point and equals the new fill point otherwise; the bytes are untouched and the invariant holds |
| `SliceModel.EnsureInit` | src/lib.rs:171-178 | every slot from the old `initialized` on becomes 0 and `initialized = capacity`; `filled` and the bytes below the old `initialized` are unchanged |
| `SliceModel.EnsureInitIdempotent` | src/lib.rs:171-178 | a second `ensure_init` changes nothing |
| `SliceModel.AssumeInit` | src/lib.rs:189-192 | `initialized` becomes `max(initialized, filled + n)`: a no-op when already covered, exactly `filled + n` otherwise; `filled` and the bytes are unchanged |
| `SliceModel.Append` | src/lib.rs:200-213 | panics exactly when `data` does not fit after `filled`, and then nothing changes; otherwise `filled` grows by `\|data\|`, the new filled tail equals `data`, the bytes before and after it are unchanged, `initialized` does not fall and the invariant holds |
| `SliceModel.AppendIsWriteThenAdvance` | src/lib.rs:200-213 | `append` equals writing `data` through `as_mut` and then `advance(\|data\|)` |
| `SliceTrace.Step` | src/lib.rs:77-213 | each buffer or cursor call, made within its caller contract, keeps the invariant and the capacity and never lowers `initialized` |
| `SliceTrace.Run` | src/lib.rs:99-102 | over any sequence of permitted calls the invariant holds, the capacity is fixed and `initialized` never decreases |
| `SliceBuffer.SliceBuf.FromInit` | src/lib.rs:18-26 | from an initialised slice: `filled = 0`, `initialized = capacity`, and the invariant holds |
| `SliceBuffer.SliceBuf.FromUninit` | src/lib.rs:35-41 | from an uninitialised slice: `filled = initialized = 0`, and the invariant holds |
| `SliceBuffer.SliceBuf.Capacity` | src/lib.rs:47-49 | `capacity()` is the storage length and bounds `filled <= initialized` |
| `SliceBuffer.SliceBuf.Filled` | src/lib.rs:53-56 | `filled()` holds `filled` values, exactly the first `filled` slots (as `SliceModel.Filled`) |
| `SliceBuffer.SliceBuf.Len` | src/lib.rs:59-61 | `len()` is the length of `filled()` |
| `SliceBuffer.SliceBuf.InitLen` | src/lib.rs:64-66 | `init_len()` is the `initialized` counter, and `len() <= init_len() <= capacity()` |
| `SliceBuffer.SliceBuf.Unfilled` | src/lib.rs:69-71 | the new cursor borrows this buffer |
| `SliceBuffer.SliceBuf.Clear` | src/lib.rs:77-79 | the in-place update performs `SliceModel.Clear` and keeps the invariant |
| `SliceBuffer.SliceBuf.SetFilled` | src/lib.rs:92-97 | reports the panic exactly when `SliceModel.SetFilled` does and otherwise performs it in place |
| `SliceBuffer.SliceBuf.SetInit` | src/lib.rs:108-111 | performs `SliceModel.SetInit` in place |
| `SliceBuffer.SliceBufCursor.Capacity` | src/lib.rs:121-123 | the cursor's capacity plus `len()` is the buffer's capacity |
| `SliceBuffer.SliceBufCursor.Initialized` | src/lib.rs:127-132 | the values of the buffer's slots `[filled, initialized)` (as `SliceModel.Initialized`) |
| `SliceBuffer.SliceBufCursor.InitializedMut` | src/lib.rs:136-143 | the window `[filled, initialized)`, every slot defined (as `SliceModel.InitializedSpan`) |
| `SliceBuffer.SliceBufCursor.UninitializedMut` | src/lib.rs:149-151 | the window `[initialized, capacity)` (as `SliceModel.UninitializedSpan`) |
| `SliceBuffer.SliceBufCursor.AsMut` | src/lib.rs:155-157 | the window `[filled, capacity)` (as `SliceModel.UnfilledSpan`) |
| `SliceBuffer.SliceBufCursor.Advance` | src/lib.rs:163-167 | performs `SliceModel.Advance` on the borrowed buffer |
| `SliceBuffer.SliceBufCursor.EnsureInit` | src/lib.rs:171-178 | zero-fills the tail in place and performs `SliceModel.EnsureInit` |
| `SliceBuffer.SliceBufCursor.AssumeInit` | src/lib.rs:189-192 | performs `SliceModel.AssumeInit` on the borrowed buffer |
| `SliceBuffer.SliceBufCursor.Append` | src/lib.rs:200-213 | panics exactly when `SliceModel.Append` does; otherwise copies in place and performs it |
| `SliceBuffer.ItWorks` | src/lib.rs:220-249 | writing 0, 1, 2, 3 through `as_mut` and calling `advance(4)` gives `len() == 4` and a backing store that starts 0, 1, 2, 3 |
| `SliceBuffer.AppendFour` | src/lib.rs:200-213 | `append([0, 1, 2, 3])` on an empty uninitialised buffer gives `filled() == [0, 1, 2, 3]` and `init_len() >= 4` |
| `VecModel.Filled` | src/owned.rs:125-127 | `filled()` is exactly the vector's `len` elements |
| `VecModel.Clear` | src/owned.rs:137-140 | `len = 0`, `filled()` is empty and the allocation is unchanged |
| `VecModel.SetInit` | src/owned.rs:142-146 | `len` becomes `max(len, n)`: it never shrinks and the allocation is unchanged |
| `VecCursorModel.Unfilled` | src/owned.rs:129-135 | a new cursor has `start = len`, so `written() = 0`, and `initialized = len` |
| `VecCursorModel.Capacity` | src/owned.rs:165-167 | the cursor's capacity is the spare room `capacity - len` |
| `VecCursorModel.Written` | src/owned.rs:169-171 | `written()` is what the length has grown by since `start` |
| `VecCursorModel.Spare` | src/owned.rs:175 | `spare_capacity_mut()` is the part of the allocation after the `len` elements, `capacity()` slots long |
| `VecCursorModel.InitRef` | src/owned.rs:173-177 | `init_ref()` panics exactly when `initialized` exceeds the spare room; otherwise it is the first `initialized` spare slots, undefined or not |
| `VecCursorModel.InitMut` | src/owned.rs:179-185 | `init_mut()` has the same panic; otherwise it is the window of the first `initialized` spare slots |
| `VecCursorModel.UninitMut` | src/owned.rs:187-189 | `uninit_mut()` has the same panic; otherwise it is the spare slots after the first `initialized` |
| `VecCursorModel.AsMut` | src/owned.rs:191-193 | `as_mut()` is the whole spare capacity |
| `VecCursorModel.Store` | src/owned.rs:69-74 | a write through a view that respects `as_mut`'s rule sets exactly that slot and leaves every other slot alone; it keeps the invariant, the counters and the vector's elements |
| `VecCursorModel.Advance` | src/owned.rs:195-198 | `len` grows by `n`, so `capacity()` falls by `n` and `written()` rises by `n`; `start`, `initialized` and the bytes are unchanged |
| `VecCursorModel.EnsureInit` | src/owned.rs:200-206 | panics exactly when `initialized` exceeds the spare room; otherwise the slots from `len + initialized` on become 0, the earlier ones are unchanged, `initialized = capacity`, and `len` and `start` are unchanged |
| `VecCursorModel.SetInit` | src/owned.rs:208-210 | `initialized` becomes `max(initialized, n)`: a no-op when already covered, exactly `n` otherwise; the vector and `start` are unchanged |
| `VecCursorModel.Append` | src/owned.rs:212-220 | panics exactly when `data` exceeds the spare room; otherwise `filled()` becomes the old `filled()` followed by `data`, `written()` grows and `capacity()` falls by `\|data\|`, the later slots, `start` and `initialized` are unchanged |
| `VecCursorModel.AppendAll` | src/owned.rs:212-220 | a run of `append` calls, stopped by the first panic, keeps the invariant, `start`, `initialized` and the allocation, and never shortens the vector |
| `VecCursorModel.AppendAllAccumulates` | src/owned.rs:51-55 | a run of appends succeeds exactly when all chunks together fit; then `written()` grows by their total and the vector ends with all of them in order |
| `VecCursorModel.FreshCursorExposesUndefined` | src/owned.rs:129-135 | see Findings: on a fresh cursor, `init_ref()` hands out a spare slot that was never written |
| `VecCursorModel.EnsureInitThenInitRefPanics` | src/owned.rs:200-206 | see Findings: after `ensure_init()`, a spare slot is still undefined, and `init_ref()` and a second `ensure_init()` panic |
| `VecCursorModel.AdvanceKeepsStaleInitialized` | src/owned.rs:195-198 | see Findings: after `advance`, `init_ref()` hands out a slot that was never written |
| `RelativeCursor.InitRefDefined` | src/owned.rs:173-189 | with `initialized` counted in spare slots and kept in bounds, no view panics and every slot `init_ref()` hands out is defined |
| `RelativeCursor.New` | src/owned.rs:129-135 | corrected `unfilled()`: it keeps the relative invariant, `written() = 0` and `init_ref()` is empty |
| `RelativeCursor.Advance` | src/owned.rs:195-198 | corrected `advance`: it keeps the relative invariant, `written()` grows by `n`, and the known-defined prefix of the storage never shrinks |
| `RelativeCursor.EnsureInit` | src/owned.rs:200-206 | corrected `ensure_init`: all spare slots are defined and `init_ref()` is the whole spare capacity |
| `RelativeCursor.EnsureInitIdempotent` | src/owned.rs:200-206 | corrected `ensure_init` twice is the same as once |
| `RelativeCursor.SetInit` | src/owned.rs:208-210 | corrected `set_init` keeps the relative invariant; `initialized` becomes `max(initialized, n)`, a no-op when already covered and exactly `n` otherwise |
| `RelativeCursor.Append` | src/owned.rs:212-220 | corrected `append` panics exactly when `data` does not fit; otherwise it keeps the relative invariant, extends `filled()` by `data`, leaves the vector (allocation and later slots) exactly as the code as written does and keeps `start`, and loses no known-defined slot |
| `OwnedBuffer.Vec.WithCapacity` | src/lib.rs:234 | stands in for `Vec::with_capacity(cap)`: an empty vector over exactly `cap` uninitialised slots (the standard library promises at least `cap`) |
| `OwnedBuffer.Vec.Capacity` | src/owned.rs:113-115 | `capacity()` is the allocation size and bounds `len` |
| `OwnedBuffer.Vec.Filled` | src/owned.rs:125-127 | `filled()` holds `len` values, exactly the first `len` slots (as `VecModel.Filled`) |
| `OwnedBuffer.Vec.Len` | src/owned.rs:117-119 | `len()` is the length of `filled()` and at most the capacity |
| `OwnedBuffer.Vec.InitLen` | src/owned.rs:121-123 | for a vector, `init_len()` always equals `len()` |
| `OwnedBuffer.Vec.Unfilled` | src/owned.rs:129-135 | the new cursor borrows this vector and is `VecCursorModel.Unfilled` of it |
| `OwnedBuffer.Vec.Clear` | src/owned.rs:137-140 | performs `VecModel.Clear` in place |
| `OwnedBuffer.Vec.SetInit` | src/owned.rs:142-146 | performs `VecModel.SetInit` in place |
| `OwnedBuffer.VecCursor.Capacity` | src/owned.rs:165-167 | the cursor's capacity plus `len()` is the vector's capacity |
| `OwnedBuffer.VecCursor.Written` | src/owned.rs:169-171 | `start + written() == len()` |
| `OwnedBuffer.VecCursor.InitRef` | src/owned.rs:173-177 | panics exactly when `len + initialized` passes the capacity; otherwise the slots `[len, len + initialized)` (as `VecCursorModel.InitRef`) |
| `OwnedBuffer.VecCursor.InitMut` | src/owned.rs:179-185 | the same panic; otherwise the window `[len, len + initialized)` (as `VecCursorModel.InitMut`) |
| `OwnedBuffer.VecCursor.UninitMut` | src/owned.rs:187-189 | the same panic; otherwise the window `[len + initialized, capacity)` (as `VecCursorModel.UninitMut`) |
| `OwnedBuffer.VecCursor.AsMut` | src/owned.rs:191-193 | the window `[len, capacity)`, the whole spare capacity (as `VecCursorModel.AsMut`) |
| `OwnedBuffer.VecCursor.Advance` | src/owned.rs:195-198 | performs `VecCursorModel.Advance` on the borrowed vector |
| `OwnedBuffer.VecCursor.EnsureInit` | src/owned.rs:200-206 | panics exactly when `VecCursorModel.EnsureInit` does; otherwise zero-fills in place and performs it |
| `OwnedBuffer.VecCursor.SetInit` | src/owned.rs:208-210 | performs `VecCursorModel.SetInit` |
| `OwnedBuffer.VecCursor.Append` | src/owned.rs:212-220 | panics exactly when `VecCursorModel.Append` does; otherwise copies in place and performs it |
| `OwnedBuffer.AppendTwice` | src/owned.rs:212-220 | two appends to an empty vector of capacity 8 leave it holding both chunks, with `written() == 6` and `capacity() == 2` |

## Left out

- `VecCursor::clone` (src/owned.rs:157-163) is not modelled. It makes a second live handle over the same vector, which is aliasing and not sequential logic.
- The `OwnedBuf` and `OwnedCursor` traits (src/owned.rs:4-107) are not modelled as interfaces, and neither is the associated cursor type with its lifetimes. The model follows what the `Vec` and `VecCursor` implementations do. Where a trait doc comment promises more than the implementation gives, the implementation is modelled. The next line is one such case.
- VecModel.Clear: does not promise that `init_len()` is unchanged, as the `OwnedBuf::clear` doc says (src/owned.rs:24-27). For a vector, `init_len()` is `len()` (src/owned.rs:121-123), and `clear` empties the vector (src/owned.rs:137-140), so `init_len()` falls to 0. The model states that: `Clear` gives `len = 0`, and `OwnedBuffer.Vec.InitLen` equals `Len()`.
- Raw-pointer and `MaybeUninit` reinterpretation is not modelled; definedness is the `Byte` datatype. `SliceBuf::FromInit` therefore takes slots that are all `Def` in place of a `&mut [u8]`.
- Vector growth and reallocation are not modelled: a vector's capacity is fixed. `Vec::with_capacity` appears only as the constructor the examples need. `Vec::with_capacity(cap)` guarantees at least `cap` slots; the model takes exactly `cap`, and `OwnedBuffer.AppendTwice`'s `capacity() == 2` depends on that. The `spare_capacity_mut` and `set_len` plumbing of the `it_works` test (src/lib.rs:234-242) is replaced by reading the storage directly.
- Mutable views (`initialized_mut`, `uninitialized_mut`, `as_mut`, `init_mut`, `uninit_mut`) are returned as windows into the storage array. The caller writes the array directly and must re-establish `Valid()`, which is the safety rule of those views. A caller indexing past a view's end, which would panic in Rust, is not modelled.
- `SliceTrace.Run` stops at the first call whose caller contract does not hold, because the behaviour after such a call is undefined.
- `usize` overflow is not modelled. `filled + n` and `len + n` cannot wrap, because every caller contract bounds `n` by the capacity.
- Thread safety is not modelled: the crate is single-user by design.

## Findings

All three rows come from `VecCursor::initialized` holding absolute positions while the views treat it as a count of spare slots. The classes in `OwnedBuffer` model the code as written, so these behaviours are visible on them. `RelativeCursor` gives the corrected bookkeeping and proves the views sound under it.

| source | as written | input that shows it | evidently intended | confidence | as-written member | corrected member |
|---|---|---|---|---|---|---|
| src/owned.rs:131 | `unfilled()` sets `initialized = len`, so `init_ref()` covers `spare[..len]` | a vector of capacity 2 holding one byte; `unfilled().init_ref()` returns the never-written spare slot as a `u8` (undefined behaviour) | a new cursor knows nothing of the spare capacity: `initialized = 0` | high (not executed) | `VecCursorModel.FreshCursorExposesUndefined` | `RelativeCursor.InitRefDefined` |
| src/owned.rs:205 | `ensure_init()` zeroes `spare[initialized..]` and then sets `initialized = capacity` | the same vector: `ensure_init()` zeroes nothing, the spare slot stays undefined, `initialized` becomes 2, and `init_ref()` or a second `ensure_init()` then panics | `initialized = capacity - len`, after which all spare slots are defined and `ensure_init()` is idempotent | high (not executed) | `VecCursorModel.EnsureInitThenInitRefPanics` | `RelativeCursor.EnsureInit` |
| src/owned.rs:195-198 | `advance(n)` grows `len` and leaves `initialized` alone | an empty vector of capacity 2: write slot 0 through `as_mut`, `set_init(1)`, `advance(1)`; `init_ref()` returns slot 1, never written | `initialized` drops by `n` (not below 0), since the advanced slots leave the spare capacity | high (not executed) | `VecCursorModel.AdvanceKeepsStaleInitialized` | `RelativeCursor.Advance` |
