# ring's native-call safety layer, in Dafny

This project models three pieces of the layer through which ring's safe Rust
code calls its native (C and assembly) routines:

- **The aliasing bridge** (`src/arithmetic/inout.rs`). `with_ra_pointers` and
  `with_rab_pointers` check the lengths of a destination slice and one or two
  input slices against an expected length, in a fixed order. On a mismatch
  they return `LenMismatchError` with the first offending length and never
  call the closure. Otherwise they call the closure once with pointers into
  the slices. A slice is modelled by its length. A pointer is modelled by a
  tag (`R`, `A`, `B`) naming the slice of the bridge's tuple it points into.
  The closure is a function over those tags, so the result is exactly the
  closure's result.
- **Limb arithmetic** (`src/arithmetic/add.rs`). `limbs_sub`, `limbs_cmov` and
  `limbs_reduce_once` go through the bridge to the native `LIMBS_sub`
  (subtract with borrow, returning an all-ones or all-zeros mask) and
  `LIMBS_select` (`r = cond ? a : b` as a bitwise blend). Each native is a
  reference loop over an `array<Limb>`. Each loop is proved against a
  specification function, and the integer meaning of that function is proved
  in little-endian radix 2^64.
- **The NEON Poly1305 state** (`src/aead/poly1305/ffi_arm_neon.rs`).
  `new_context` derives five 26-bit limbs of the clamped key half `r` and lays
  them out twice. It zeroes the other fields, keeps the second key half, and
  precomputes `r^2` and `r^4` through the native multiplier.
  `update_internal` skips empty input. `finish` consumes the state. The
  state is a class. A ghost `finished` flag stands for the move of `self`
  into `finish`, and a ghost `calls` log records the native calls in order.
  The three native routines are function values passed in a `NeonBackend`
  parameter, so every property holds whatever they compute.

Files: `inout.dfy` (module `Inout`), `limb.dfy` (module `Limb`: the limb
type, values and bitwise operations), `add.dfy` (module `LimbAdd`),
`poly1305_neon.dfy` (module `Poly1305Neon`).

Where the code differs from what one might expect of this layer, the model
follows the code:

- `add.rs` calls `with_pointers`, but `inout.rs` defines only
  `with_ra_pointers` and `with_rab_pointers`. Both calls pass three-pointer
  closures, so they are modelled as `with_rab_pointers`.
- Conditional select is meant to accept a zero length as a no-op. In the
  code, `limbs_cmov` checks `a` against `r.len()` first. An empty `r` with a
  non-empty `a` therefore fails with `a.len()`, and only an empty `r` with an
  empty `a` succeeds without calling `LIMBS_select`. `LimbsCmov` states both
  cases.
- For `(r, a)` in `limbs_cmov`, the `(RA, &[T])` impl applies with
  `RA = &mut [T]`. The closure receives `(r, r, a)` and calls
  `LIMBS_select(r, a, r, …)`, which is `if cond { r = a }`.

## Model

| member | source | states |
|---|---|---|
| `Inout.WithRaPointers` | src/arithmetic/inout.rs:25-54 | Ok iff every slice has the expected length. An error carries the first mismatching length in check order (`r`, then `a`). On Ok the payload is the closure's result on `(R, R)` for `&mut [T]` and `(R, A)` for the pair. |
| `Inout.WithRabPointers` | src/arithmetic/inout.rs:75-112 | Ok iff every slice matches. An error carries the first mismatch in check order (`b` before the inner RA's slices). On Ok the payload is the closure's result on the routed pointers. |
| `Inout.Route3` | src/arithmetic/inout.rs:57-61 | The `*mut` pointer handed to the closure always points into the destination `r`. |
| `Inout.DestRa` | src/arithmetic/inout.rs:25-36 | Single-slice RA: `Err(r.len())` iff `r.len() != expected_len`, otherwise `f(r, r)`. |
| `Inout.PairRa` | src/arithmetic/inout.rs:39-54 | Pair RA: `r` is checked before `a`, each error carries that slice's length, and success is `f(r, a)`. |
| `Inout.TrailingInputCheckedFirst` | src/arithmetic/inout.rs:106-109 | `(RA, b)`: a wrong `b` yields `Err(b.len())` whatever RA's slices are. |
| `Inout.TrailingInputDelegates` | src/arithmetic/inout.rs:106-111 | `(RA, b)` with a correct `b` equals RA's `with_ra_pointers` with the closure `f(r, a, ptr b)`. |
| `Inout.DestRab` | src/arithmetic/inout.rs:75-83 | Single-slice RAB passes `r` for all three pointers, after the one length check. |
| `Inout.TripleRab` | src/arithmetic/inout.rs:85-95 | The triple is `((r, a), b)`: checks run `b`, `r`, `a`, and success is `f(r, a, b)`. |
| `Inout.ErrorIgnoresClosure` | src/arithmetic/inout.rs:101-111 | On an error path the result does not depend on the closure, because the closure is never called. |
| `Limb.RadixIsPow2` | src/arithmetic/add.rs:26-31 | `LIMB_BASE^n == 2^(64n)`: `n` 64-bit limbs hold `64n` bits. This is the modulus meant by `2^(64n)` in the rows below. |
| `Limb.SelectLimb` | src/arithmetic/add.rs:41-48 | The blend of `mask & a` with `!mask & b` (bitwise or) yields `a` under an all-ones mask and `b` under an all-zeros mask. |
| `LimbAdd.LimbSbb` | src/arithmetic/add.rs:26-31 | One borrow step: `d - borrow_out·2^64 == x - y - borrow_in`. |
| `LimbAdd.SubValue` | src/arithmetic/add.rs:26-31 | `value(r) == value(a) - value(b) + borrow·2^(64n)`: the limbs and the borrow are the exact difference. |
| `LimbAdd.SubMeaning` | src/arithmetic/add.rs:26-31 | The borrow is set iff `value(a) < value(b)`, and `value(r) == (value(a) - value(b)) mod 2^(64n)`. |
| `LimbAdd.BorrowMask` | src/arithmetic/add.rs:30-31 | The returned mask is all-ones iff there was a borrow and all-zeros otherwise. That it is one of the two is also a fact of its type, `LimbMask`. |
| `LimbAdd.Select` | src/arithmetic/add.rs:39-48 | `r = cond ? a : b`: equal to `a` under an all-ones mask and to `b` under an all-zeros mask. |
| `LimbAdd.ReduceOnce` | src/arithmetic/add.rs:19-24 | Subtract-then-select equals `if a < m { a } else { a - m }`, on both the limbs and the values. |
| `LimbAdd.ReduceOnceReduces` | src/arithmetic/add.rs:19-24 | For `value(a) < 2·value(m)` the result is below `value(m)` and congruent to `value(a)` modulo `value(m)`. |
| `LimbAdd.LimbsSubNative` | src/arithmetic/add.rs:28-31 | The reference loop for `LIMBS_sub` writes `Sub(a, b)` into `r` and returns the borrow as a mask. |
| `LimbAdd.LimbsSelectNative` | src/arithmetic/add.rs:41-48 | The reference loop for `LIMBS_select` writes `Select(cond, a, b)` into `r`. |
| `LimbAdd.LimbsSub` | src/arithmetic/add.rs:27-37 | An empty `r` gives `Err(0)`. Otherwise errors follow the bridge order `b`, `a`. Any error leaves `r` unchanged and calls no backend. On success `r` holds `(a - b) mod 2^(64n)` and the mask is all-ones iff `a < b`. |
| `LimbAdd.LimbsCmov` | src/arithmetic/add.rs:40-56 | Ok iff `a.len() == r.len()`, else `Err(a.len())` with `r` unchanged. An all-ones mask gives `r = a`, an all-zeros mask leaves `r` unchanged. A zero length makes no backend call. |
| `LimbAdd.LimbsReduceOnce` | src/arithmetic/add.rs:19-24 | Any `limbs_sub` error is returned unchanged without reaching `limbs_cmov`. On success `r == ReduceOnce(a, m)`, whose value is `if a < m { a } else { a - m }`. |
| `Poly1305Neon.Load32` | src/aead/poly1305/ffi_arm_neon.rs:66-70 | `load32(key, i)` is the word whose little-endian bytes are `key[i..i+4]`. |
| `Poly1305Neon.RLimbs` | src/aead/poly1305/ffi_arm_neon.rs:71-75 | Each of `rv_01` … `rv_89` is below 2^26 (`rv_89` below 2^20). |
| `Poly1305Neon.RLimbsAreClampedR` | src/aead/poly1305/ffi_arm_neon.rs:71-75 | `Σ rv_k·2^(26k)` is `le(key[0..16]) & 0x0ffffffc0ffffffc0ffffffc0fffffff`, the `r` clamp of section 2.5 of RFC 8439. |
| `Poly1305Neon.ClampMaskIsByteClamp` | src/aead/poly1305/ffi_arm_neon.rs:71-75 | The clamp mask equals RFC 8439's byte-wise wording: top four bits of bytes 3, 7, 11, 15 and bottom two bits of bytes 4, 8, 12 cleared. |
| `Poly1305Neon.Spread` | src/aead/poly1305/ffi_arm_neon.rs:80-84 | `r.v[2k] == r.v[2k+1] == rv_k` for k in 0..5, and `r.v[10] == r.v[11] == 0`. |
| `Poly1305Neon.SpreadHoldsClampedR` | src/aead/poly1305/ffi_arm_neon.rs:78-84 | The even lanes and the odd lanes of `r` each read back, in radix 2^26, as the clamped key half. |
| `Poly1305Neon.State.NewContext` | src/aead/poly1305/ffi_arm_neon.rs:56-110 | A new state holds the laid-out `r` and zero `h`, `c`, `buf`, `buf_used`, with `key == key_and_nonce[16..32]`. `precomp[0]` is `addmulmod` of (zero, `r`, `r`, zero), then `precomp[1]` of (zero, `precomp[0]`, `precomp[0]`, zero). These are the only two native calls. |
| `Poly1305Neon.State.UpdateInternal` | src/aead/poly1305/ffi_arm_neon.rs:112-124 | Empty input leaves the state and the call log unchanged. Non-empty input makes one update call with length `input.len() > 0`. |
| `Poly1305Neon.State.Finish` | src/aead/poly1305/ffi_arm_neon.rs:126-133 | Makes exactly one finish call, on a zeroed `TAG_LEN` buffer, and returns its tag. The state is marked consumed, and no method accepts it afterwards. |
| `Poly1305Neon.EmptyUpdatesInvisible` | src/aead/poly1305/ffi_arm_neon.rs:119-123 | A series of updates leaves the state that its non-empty chunks alone leave. |
| `Poly1305Neon.OnlyEmptyUpdates` | src/aead/poly1305/ffi_arm_neon.rs:119-123 | Any number of empty updates leave the state as it was. |
| `Poly1305Neon.State.UpdateAll` | src/aead/poly1305/ffi_arm_neon.rs:112-124 | Calling `update_internal` once per chunk, in order, leaves the state the specification `AbsorbAll` gives. |
| `Poly1305Neon.EmptyUpdatesKeepTag` | src/aead/poly1305/ffi_arm_neon.rs:112-133 | Two `State` objects made from the same key finish with the same tag when one is fed a series of chunks and the other only its non-empty chunks. Empty updates therefore never change the tag. |

## Left out

- `src/aead/aes/aes_nohw.rs` (`set_encrypt_key`): a two-arm dispatch onto native key expansion routines whose bodies are not available. It is not part of this model.
- The bodies of `LIMBS_sub` and `LIMBS_select` are not available. The reference loops follow their documented contracts (`r = a - b` with the borrow as a mask; `r = cond ? a : b` as a per-limb blend).
- The bodies of `openssl_poly1305_neon2_addmulmod`, `CRYPTO_poly1305_update_neon` and `CRYPTO_poly1305_finish_neon` are not available. They are parameters of the model, so tag correctness and independence of chunk boundaries (beyond empty chunks) cannot be stated.
- Constant-time behaviour and the branch-free use of `LimbMask`: a functional model has no notion of timing. Only the mask's value is modelled.
- Raw pointers, `unsafe`, `#[repr(C, align(16))]` alignment, and the uninitialised `data` scratch field of `poly1305_state_st`: only the fields the Rust code writes are modelled.
- Real memory aliasing between `r`, `a` and `b`: the natives receive their inputs as values taken before the call. Each reference loop reads limb `i` of its inputs before it writes limb `i` of `r`, so this gives the same result.
- `cfg` gates: the triple impl of `AliasingSlices3` exists only off x86_64, and the Poly1305 file only on little-endian ARM. The model includes both unconditionally.
- `LimbAdd.LimbsCmov`: `cond` is typed as a true mask (all-ones or all-zeros), as the callers use it. In Rust, `LimbMask` is an alias of `Limb`, and the blend for other values of `cond` is not stated.
- `LIMB_BITS` is fixed at 64. Targets with 32-bit limbs are not modelled.
- The `Neon` token is carried as a value. CPU feature detection is outside the model.
