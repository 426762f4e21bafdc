/**
 * The ARM NEON Poly1305 state of src/aead/poly1305/ffi_arm_neon.rs.
 *
 * `State::new_context` derives the five 26-bit limbs of the clamped key
 * half `r` (section 2.5 of RFC 8439), lays each limb out twice in an
 * `fe1305x2`, zeroes the accumulator, carry, precomputation slots and
 * partial-block buffer, keeps the second key half, and then has the native
 * multiplier compute `r^2` into `precomp[0]` and `r^4` into `precomp[1]`.
 * `update_internal` forwards non-empty input to the native update routine
 * and `finish` consumes the state to produce the tag.
 *
 * The three native routines are not part of this model; they are passed in
 * as a `NeonBackend` value of functions, so every property below holds for
 * any behaviour of theirs.
 */
module Poly1305Neon {

  type Byte = bv8

  const KEY_LEN: nat := 32
  const TAG_LEN: nat := 16

  /** `Key { key_and_nonce: [u8; 32] }`. */
  type KeyBytes = s: seq<Byte> | |s| == KEY_LEN witness seq(32, _ => 0)

  /** The 16-byte authenticator output. */
  type Tag = s: seq<Byte> | |s| == TAG_LEN witness seq(16, _ => 0)

  // ---------------------------------------------------------------------
  // Key loading and the limbs of the clamped `r`.
  // ---------------------------------------------------------------------

  /** The four bytes of a word, least significant first (`u32::to_le_bytes`). */
  function ToLeBytes(w: bv32): (s: seq<Byte>)
    ensures |s| == 4
  {
    [(w & 0xff) as Byte, ((w >> 8) & 0xff) as Byte, ((w >> 16) & 0xff) as Byte, ((w >> 24) & 0xff) as Byte]
  }

  /** `load32(key, i)`: the little-endian word at `key[i..i+4]`. */
  function Load32(key: KeyBytes, i: nat): (w: bv32)
    requires i + 4 <= KEY_LEN
    ensures ToLeBytes(w) == key[i..i + 4]
  {
    (key[i] as bv32) | ((key[i + 1] as bv32) << 8) | ((key[i + 2] as bv32) << 16) | ((key[i + 3] as bv32) << 24)
  }

  /** `rv_01`, `rv_23`, `rv_45`, `rv_67`, `rv_89`: five 26-bit limbs. */
  function RLimbs(key: KeyBytes): (rv: seq<bv32>)
    ensures |rv| == 5
    ensures forall k :: 0 <= k < 5 ==> rv[k] < 0x400_0000
    ensures rv[4] < 0x10_0000
  {
    [ 0x3ffffff & Load32(key, 0),
      0x3ffff03 & (Load32(key, 3) >> 2),
      0x3ffc0ff & (Load32(key, 6) >> 4),
      0x3f03fff & (Load32(key, 9) >> 6),
      0x00fffff & (Load32(key, 12) >> 8) ]
  }

  /** The little-endian value of a 16-byte block (`u128::from_le_bytes`). */
  function LeBytes(s: seq<Byte>): bv128
    requires |s| == 16
  {
    (s[0] as bv128) | ((s[1] as bv128) << 8) | ((s[2] as bv128) << 16) | ((s[3] as bv128) << 24)
    | ((s[4] as bv128) << 32) | ((s[5] as bv128) << 40) | ((s[6] as bv128) << 48) | ((s[7] as bv128) << 56)
    | ((s[8] as bv128) << 64) | ((s[9] as bv128) << 72) | ((s[10] as bv128) << 80) | ((s[11] as bv128) << 88)
    | ((s[12] as bv128) << 96) | ((s[13] as bv128) << 104) | ((s[14] as bv128) << 112) | ((s[15] as bv128) << 120)
  }

  /** The `r` clamp of section 2.5 of RFC 8439 as a mask. */
  const CLAMP_MASK: bv128 := 0x0fff_fffc_0fff_fffc_0fff_fffc_0fff_ffff

  /** The same clamp as RFC 8439 words it, byte by byte: the top four bits of
      `r[3]`, `r[7]`, `r[11]`, `r[15]` and the bottom two bits of `r[4]`,
      `r[8]`, `r[12]` are cleared. */
  function ClampBytes(r: seq<Byte>): (c: seq<Byte>)
    requires |r| == 16
    ensures |c| == 16
  {
    [ r[0], r[1], r[2], r[3] & 0x0f,
      r[4] & 0xfc, r[5], r[6], r[7] & 0x0f,
      r[8] & 0xfc, r[9], r[10], r[11] & 0x0f,
      r[12] & 0xfc, r[13], r[14], r[15] & 0x0f ]
  }

  /** `Σ rv[k] · 2^(26k)`, in 128 bits. */
  function Radix26(rv: seq<bv32>): bv128
    requires |rv| == 5
  {
    (rv[0] as bv128) + ((rv[1] as bv128) << 26) + ((rv[2] as bv128) << 52)
      + ((rv[3] as bv128) << 78) + ((rv[4] as bv128) << 104)
  }

  /** The mask and the byte-wise wording of the clamp agree. */
  lemma ClampMaskIsByteClamp(r: seq<Byte>)
    requires |r| == 16
    ensures LeBytes(r) & CLAMP_MASK == LeBytes(ClampBytes(r))
  {
    assert r == [r[0], r[1], r[2], r[3], r[4], r[5], r[6], r[7], r[8], r[9], r[10], r[11], r[12], r[13], r[14], r[15]];
    ClampWords(r[0], r[1], r[2], r[3], r[4], r[5], r[6], r[7], r[8], r[9], r[10], r[11], r[12], r[13], r[14], r[15]);
  }

  lemma ClampWords(b0: Byte, b1: Byte, b2: Byte, b3: Byte, b4: Byte, b5: Byte, b6: Byte, b7: Byte,
                   b8: Byte, b9: Byte, b10: Byte, b11: Byte, b12: Byte, b13: Byte, b14: Byte, b15: Byte)
    ensures LeBytes([b0, b1, b2, b3, b4, b5, b6, b7, b8, b9, b10, b11, b12, b13, b14, b15]) & CLAMP_MASK
         == LeBytes([b0, b1, b2, b3 & 0x0f, b4 & 0xfc, b5, b6, b7 & 0x0f, b8 & 0xfc, b9, b10, b11 & 0x0f, b12 & 0xfc, b13, b14, b15 & 0x0f])
  {
  }

  /** The five limbs are exactly the clamped `r` in radix 2^26. */
  lemma RLimbsAreClampedR(key: KeyBytes)
    ensures Radix26(RLimbs(key)) == LeBytes(key[..16]) & CLAMP_MASK
  {
  }

  // ---------------------------------------------------------------------
  // The state layout.
  // ---------------------------------------------------------------------

  /** `fe1305x2`: twelve 32-bit lanes, of which ten are used. */
  datatype Fe1305x2 = Fe1305x2(v: seq<bv32>)

  type Fe = f: Fe1305x2 | |f.v| == 12 witness Fe1305x2(seq(12, _ => 0))

  /** `fe1305x2::ZERO`. */
  const FE_ZERO: Fe := Fe1305x2(seq(12, _ => 0))

  /** `poly1305_state_st`, without the scratch area `data` that only the
      native code writes and reads. */
  datatype StateSt = StateSt(
    r: Fe, h: Fe, c: Fe, precomp: seq<Fe>,
    buf: seq<Byte>, bufUsed: nat, key: seq<Byte>)

  type PolyState = s: StateSt | |s.precomp| == 2 && |s.buf| == 32 && |s.key| == 16
    witness StateSt(FE_ZERO, FE_ZERO, FE_ZERO, [FE_ZERO, FE_ZERO], seq(32, _ => 0), 0, seq(16, _ => 0))

  /** Each limb twice, lane pair by lane pair, and the two spare lanes zero:
      the layout of `r` in `new_context`. */
  function Spread(rv: seq<bv32>): (f: Fe)
    requires |rv| == 5
    ensures forall k :: 0 <= k < 5 ==> f.v[2 * k] == rv[k] && f.v[2 * k + 1] == rv[k]
    ensures f.v[10] == 0 && f.v[11] == 0
  {
    Fe1305x2([rv[0], rv[0], rv[1], rv[1], rv[2], rv[2], rv[3], rv[3], rv[4], rv[4], 0, 0])
  }

  /** The limbs in lanes `0, 2, …, 8` (`odd == false`) or `1, 3, …, 9`. */
  function Lanes(f: Fe, odd: bool): seq<bv32>
  {
    var o := if odd then 1 else 0;
    [f.v[o], f.v[2 + o], f.v[4 + o], f.v[6 + o], f.v[8 + o]]
  }

  /** Both lane sets of the laid-out `r` read back, in radix 2^26, as the
      clamped first key half. */
  lemma SpreadHoldsClampedR(key: KeyBytes, odd: bool)
    ensures Radix26(Lanes(Spread(RLimbs(key)), odd)) == LeBytes(key[..16]) & CLAMP_MASK
  {
    assert Lanes(Spread(RLimbs(key)), odd) == RLimbs(key);
    RLimbsAreClampedR(key);
  }

  // ---------------------------------------------------------------------
  // The native routines, as parameters.
  // ---------------------------------------------------------------------

  /** The capability token proving NEON is available. */
  datatype Neon = Neon

  /** The three native routines: `openssl_poly1305_neon2_addmulmod` gives
      the new `*r` from the old `*r`, `x`, `y` and `c`;
      `CRYPTO_poly1305_update_neon` gives the new state after absorbing the
      input; `CRYPTO_poly1305_finish_neon` gives the new state and the `mac`
      buffer after finishing. */
  datatype NeonBackend = NeonBackend(
    addMulMod: (Fe, Fe, Fe, Fe) -> Fe,
    update: (PolyState, seq<Byte>) -> PolyState,
    finish: (PolyState, Tag) -> (PolyState, Tag))

  /** The `fe1305x2` a pointer handed to `addmulmod` designates. */
  datatype FeSlot = SlotR | SlotPrecomp0 | SlotPrecomp1 | SlotZero

  /** One call into native code, as recorded by the model. */
  datatype NativeCall =
    | AddMulModCall(dst: FeSlot, x: FeSlot, y: FeSlot, c: FeSlot)
    | UpdateCall(len: nat)
    | FinishCall

  const ZERO_BUF: seq<Byte> := seq(32, _ => 0)
  const ZERO_TAG: Tag := seq(16, _ => 0)

  // ---------------------------------------------------------------------
  // Streaming, specified on values.
  // ---------------------------------------------------------------------

  /** What `update_internal` does to the state: nothing for empty input. */
  function Absorb(backend: NeonBackend, st: PolyState, input: seq<Byte>): PolyState
  {
    if |input| == 0 then st else backend.update(st, input)
  }

  /** The state after absorbing a series of chunks in order. */
  function AbsorbAll(backend: NeonBackend, st: PolyState, chunks: seq<seq<Byte>>): PolyState
    decreases |chunks|
  {
    if |chunks| == 0 then st
    else AbsorbAll(backend, Absorb(backend, st, chunks[0]), chunks[1..])
  }

  /** The chunks that reach the native update routine. */
  function NonEmpty(chunks: seq<seq<Byte>>): (ne: seq<seq<Byte>>)
    ensures forall i :: 0 <= i < |ne| ==> |ne[i]| > 0
    ensures |ne| <= |chunks|
  {
    if |chunks| == 0 then []
    else if |chunks[0]| == 0 then NonEmpty(chunks[1..])
    else [chunks[0]] + NonEmpty(chunks[1..])
  }

  /** Empty updates are invisible: a series of chunks leaves the state the
      non-empty ones alone leave it in. */
  lemma {:induction false} EmptyUpdatesInvisible(backend: NeonBackend, st: PolyState, chunks: seq<seq<Byte>>)
    ensures AbsorbAll(backend, st, chunks) == AbsorbAll(backend, st, NonEmpty(chunks))
    decreases |chunks|
  {
    if |chunks| > 0 {
      EmptyUpdatesInvisible(backend, Absorb(backend, st, chunks[0]), chunks[1..]);
      if |chunks[0]| > 0 {
        var ne := [chunks[0]] + NonEmpty(chunks[1..]);
        assert ne[0] == chunks[0] && ne[1..] == NonEmpty(chunks[1..]);
      }
    }
  }

  /** In particular any number of empty updates leave the state as it was,
      so the tag is the one `finish` gives without them. */
  lemma {:induction false} OnlyEmptyUpdates(backend: NeonBackend, st: PolyState, chunks: seq<seq<Byte>>)
    requires forall i :: 0 <= i < |chunks| ==> |chunks[i]| == 0
    ensures AbsorbAll(backend, st, chunks) == st
    decreases |chunks|
  {
    if |chunks| > 0 {
      OnlyEmptyUpdates(backend, st, chunks[1..]);
    }
  }

  /** Absorbing one more chunk after a series. */
  lemma {:induction false} AbsorbAllSnoc(backend: NeonBackend, st: PolyState, chunks: seq<seq<Byte>>, last: seq<Byte>)
    ensures AbsorbAll(backend, st, chunks + [last]) == Absorb(backend, AbsorbAll(backend, st, chunks), last)
    decreases |chunks|
  {
    if |chunks| > 0 {
      assert (chunks + [last])[1..] == chunks[1..] + [last];
      AbsorbAllSnoc(backend, Absorb(backend, st, chunks[0]), chunks[1..], last);
    }
  }

  // ---------------------------------------------------------------------
  // The state object.
  // ---------------------------------------------------------------------

  /** `State`: the native context and the capability token. `finished`
      stands for the move of `self` into `finish`; `calls` records the
      native calls made on this state, in order. */
  class State {
    var state: PolyState
    const neon: Neon
    const backend: NeonBackend
    ghost var finished: bool
    ghost var calls: seq<NativeCall>

    /** `State::new_context`. */
    constructor NewContext(key: KeyBytes, neon: Neon, backend: NeonBackend)
      ensures this.neon == neon && this.backend == backend && !finished
      ensures state.r == Spread(RLimbs(key))
      ensures state.h == FE_ZERO && state.c == FE_ZERO
      ensures state.buf == ZERO_BUF && state.bufUsed == 0 && state.key == key[16..]
      ensures state.precomp[0] == backend.addMulMod(FE_ZERO, state.r, state.r, FE_ZERO)
      ensures state.precomp[1] == backend.addMulMod(FE_ZERO, state.precomp[0], state.precomp[0], FE_ZERO)
      ensures calls == [AddMulModCall(SlotPrecomp0, SlotR, SlotR, SlotZero),
                        AddMulModCall(SlotPrecomp1, SlotPrecomp0, SlotPrecomp0, SlotZero)]
    {
      var rv := RLimbs(key);
      this.neon := neon;
      this.backend := backend;
      state := StateSt(Spread(rv), FE_ZERO, FE_ZERO, [FE_ZERO, FE_ZERO], ZERO_BUF, 0, key[16..]);
      finished := false;
      calls := [];
      new;
      // r^2 into precomp[0].
      var p0 := backend.addMulMod(state.precomp[0], state.r, state.r, FE_ZERO);
      state := state.(precomp := [p0, state.precomp[1]]);
      calls := calls + [AddMulModCall(SlotPrecomp0, SlotR, SlotR, SlotZero)];
      // r^4 into precomp[1].
      var p1 := backend.addMulMod(state.precomp[1], state.precomp[0], state.precomp[0], FE_ZERO);
      state := state.(precomp := [state.precomp[0], p1]);
      calls := calls + [AddMulModCall(SlotPrecomp1, SlotPrecomp0, SlotPrecomp0, SlotZero)];
    }

    /** `update_internal`: empty input makes no native call; otherwise one
      update call with the input's non-zero length. */
    method UpdateInternal(input: seq<Byte>)
      requires !finished
      modifies this
      ensures !finished
      ensures state == Absorb(backend, old(state), input)
      ensures |input| == 0 ==> state == old(state) && calls == old(calls)
      ensures |input| > 0 ==> calls == old(calls) + [UpdateCall(|input|)] && calls[|calls| - 1].len > 0
    {
      if |input| != 0 {
        var _ := neon;
        state := backend.update(state, input);
        calls := calls + [UpdateCall(|input|)];
      }
    }

    /** A series of `update_internal` calls, one per chunk, in order. */
    method UpdateAll(chunks: seq<seq<Byte>>)
      requires !finished
      modifies this
      ensures !finished
      ensures state == AbsorbAll(backend, old(state), chunks)
    {
      var i := 0;
      while i < |chunks|
        invariant 0 <= i <= |chunks| && !finished
        invariant state == AbsorbAll(backend, old(state), chunks[..i])
      {
        AbsorbAllSnoc(backend, old(state), chunks[..i], chunks[i]);
        assert chunks[..i + 1] == chunks[..i] + [chunks[i]];
        UpdateInternal(chunks[i]);
        i := i + 1;
      }
      assert chunks[..i] == chunks;
    }

    /** `finish`: one finish call on a zeroed tag buffer; the state is
      consumed. */
    method Finish() returns (tag: Tag)
      requires !finished
      modifies this
      ensures finished
      ensures tag == backend.finish(old(state), ZERO_TAG).1
      ensures state == backend.finish(old(state), ZERO_TAG).0
      ensures calls == old(calls) + [FinishCall]
    {
      var out := backend.finish(state, ZERO_TAG);
      state, tag := out.0, out.1;
      calls := calls + [FinishCall];
      finished := true;
    }
  }

  /** Empty updates do not change the tag: two states made from the same key,
      one fed a series of chunks and the other only its non-empty chunks,
      finish with the same tag. */
  method EmptyUpdatesKeepTag(key: KeyBytes, neon: Neon, backend: NeonBackend, chunks: seq<seq<Byte>>)
    returns (tagAll: Tag, tagNonEmpty: Tag)
    ensures tagAll == tagNonEmpty
  {
    var all := new State.NewContext(key, neon, backend);
    var nonEmpty := new State.NewContext(key, neon, backend);
    assert all.state == nonEmpty.state;
    ghost var start := all.state;
    all.UpdateAll(chunks);
    nonEmpty.UpdateAll(NonEmpty(chunks));
    EmptyUpdatesInvisible(backend, start, chunks);
    tagAll := all.Finish();
    tagNonEmpty := nonEmpty.Finish();
  }
}
