/**
 * Constant-time limb arithmetic of src/arithmetic/add.rs.
 *
 * `limbs_sub` and `limbs_cmov` validate their slices through the aliasing
 * bridge and hand the resulting pointers to the native `LIMBS_sub` and
 * `LIMBS_select`; `limbs_reduce_once` composes the two. The natives are
 * given reference loops here (subtract with borrow; a mask blend per limb)
 * whose results are pinned down by specification functions on limb
 * sequences, and the integer meaning of those functions is proved.
 *
 * The natives allow `r` to alias `a` and `b`. Both loops read limb `i` of
 * their inputs before they write limb `i` of `r`, so passing the inputs as
 * values taken before the call gives the same result as any such aliasing.
 */
module LimbAdd {
  import opened Limb
  import opened Inout

  type Bit = b: nat | b <= 1

  /** The limbs of a difference and the borrow out of its top limb. */
  datatype Difference = Difference(limbs: seq<Limb>, borrow: Bit)

  // ---------------------------------------------------------------------
  // Specification of `LIMBS_sub`.
  // ---------------------------------------------------------------------

  /** One step of subtract-with-borrow on a single limb. */
  function LimbSbb(x: Limb, y: Limb, borrowIn: Bit): (d: Difference)
    ensures |d.limbs| == 1
    ensures d.limbs[0] - d.borrow * LIMB_BASE == x - y - borrowIn
  {
    var t := x - y - borrowIn;
    if t < 0 then Difference([t + LIMB_BASE], 1) else Difference([t], 0)
  }

  /** `a - b` limb by limb from the least significant end, as the native
      loop computes it. */
  function Sub(a: seq<Limb>, b: seq<Limb>): (d: Difference)
    requires |a| == |b|
    ensures |d.limbs| == |a|
  {
    if |a| == 0 then Difference([], 0)
    else
      var n := |a| - 1;
      var low := Sub(a[..n], b[..n]);
      var top := LimbSbb(a[n], b[n], low.borrow);
      Difference(low.limbs + top.limbs, top.borrow)
  }

  /** The difference limbs and the borrow together are the exact integer
      difference: `value(r) - borrow·B^n == value(a) - value(b)`. */
  lemma {:induction false} SubValue(a: seq<Limb>, b: seq<Limb>)
    requires |a| == |b|
    ensures Value(Sub(a, b).limbs) == Value(a) - Value(b) + Sub(a, b).borrow * Radix(|a|)
  {
    if |a| > 0 {
      var n := |a| - 1;
      var low := Sub(a[..n], b[..n]);
      var top := LimbSbb(a[n], b[n], low.borrow);
      var d := Sub(a, b);
      SubValue(a[..n], b[..n]);
      assert d.limbs[..n] == low.limbs;
      assert d.limbs[n] == top.limbs[0];
      var p := Radix(n);
      assert Value(d.limbs) == Value(low.limbs) + top.limbs[0] * p;
      assert Value(a) == Value(a[..n]) + a[n] * p;
      assert Value(b) == Value(b[..n]) + b[n] * p;
      BorrowStep(Value(a[..n]), Value(b[..n]), Value(low.limbs), low.borrow, a[n], b[n], top.limbs[0], top.borrow, p);
    }
  }

  /** The arithmetic of one more limb in `SubValue`. */
  lemma BorrowStep(va: int, vb: int, vd: int, borrowIn: int, x: int, y: int, t: int, borrowOut: int, p: int)
    requires vd == va - vb + borrowIn * p
    requires t - borrowOut * LIMB_BASE == x - y - borrowIn
    ensures vd + t * p == (va + x * p) - (vb + y * p) + borrowOut * (LIMB_BASE * p)
  {
    calc {
      t * p;
      (x - y - borrowIn + borrowOut * LIMB_BASE) * p;
      x * p - y * p - borrowIn * p + borrowOut * (LIMB_BASE * p);
    }
  }

  /** The borrow out is set iff `a < b`, and the limbs hold `a - b` modulo
      `B^n`. */
  lemma SubMeaning(a: seq<Limb>, b: seq<Limb>)
    requires |a| == |b|
    ensures Sub(a, b).borrow == 1 <==> Value(a) < Value(b)
    ensures Value(Sub(a, b).limbs) == (Value(a) - Value(b)) % Radix(|a|)
  {
    var d := Sub(a, b);
    SubValue(a, b);
    ValueBound(d.limbs);
    BorrowArith(Value(a) - Value(b), Value(d.limbs), d.borrow, Radix(|a|));
  }

  lemma BorrowArith(x: int, v: nat, borrow: Bit, p: nat)
    requires v < p && v == x + borrow * p
    ensures borrow == 1 <==> x < 0
    ensures x % p == v
  {
  }

  /** The mask `LIMBS_sub` returns for a borrow. */
  function BorrowMask(borrow: Bit): (m: LimbMask)
    ensures m == ALL_ONES || m == 0
    ensures m == ALL_ONES <==> borrow == 1
  {
    if borrow == 1 then ALL_ONES else 0
  }

  // ---------------------------------------------------------------------
  // Specification of `LIMBS_select`.
  // ---------------------------------------------------------------------

  /** `r = cond ? a : b`, blended limb by limb. */
  function Select(cond: LimbMask, a: seq<Limb>, b: seq<Limb>): (r: seq<Limb>)
    requires |a| == |b|
    ensures |r| == |a|
    ensures cond == ALL_ONES ==> r == a
    ensures cond == 0 ==> r == b
  {
    seq(|a|, i requires 0 <= i < |a| => SelectLimb(cond, a[i], b[i]))
  }

  // ---------------------------------------------------------------------
  // Specification of `limbs_reduce_once`.
  // ---------------------------------------------------------------------

  /** `r = a - m`, then restore `a` when that underflowed: the selection
      picks `a` exactly when `a < m`, and the value is that of
      `if a < m { a } else { a - m }`. */
  function ReduceOnce(a: seq<Limb>, m: seq<Limb>): (r: seq<Limb>)
    requires |a| == |m|
    ensures |r| == |a|
    ensures r == if Value(a) < Value(m) then a else Sub(a, m).limbs
    ensures Value(r) == if Value(a) < Value(m) then Value(a) else Value(a) - Value(m)
  {
    SubMeaning(a, m);
    SubNoBorrow(a, m);
    var d := Sub(a, m);
    Select(BorrowMask(d.borrow), a, d.limbs)
  }

  /** Without a borrow the limbs are the plain difference. */
  lemma SubNoBorrow(a: seq<Limb>, b: seq<Limb>)
    requires |a| == |b|
    ensures Value(b) <= Value(a) ==> Value(Sub(a, b).limbs) == Value(a) - Value(b)
  {
    SubMeaning(a, b);
    SubValue(a, b);
  }

  /** For `a < 2m` one reduction lands in `[0, m)` and keeps `a mod m`. */
  lemma ReduceOnceReduces(a: seq<Limb>, m: seq<Limb>)
    requires |a| == |m|
    requires Value(a) < 2 * Value(m)
    ensures Value(ReduceOnce(a, m)) < Value(m)
    ensures Value(ReduceOnce(a, m)) % Value(m) == Value(a) % Value(m)
  {
    var x, y := Value(a), Value(m);
    if y <= x {
      ModStep(x, y);
    }
  }

  lemma ModStep(x: nat, y: nat)
    requires 0 < y <= x < 2 * y
    ensures (x - y) % y == x % y
  {
  }

  // ---------------------------------------------------------------------
  // Reference loops for the natives.
  // ---------------------------------------------------------------------

  /** `LIMBS_sub(r, a, b, num_limbs)`: `r = a - b`, returning the borrow
      as a mask. `num_limbs` is non-zero. */
  method LimbsSubNative(r: array<Limb>, a: seq<Limb>, b: seq<Limb>, numLimbs: nat) returns (underflow: LimbMask)
    requires 0 < numLimbs && r.Length == numLimbs && |a| == numLimbs && |b| == numLimbs
    modifies r
    ensures r[..] == Sub(a, b).limbs
    ensures underflow == BorrowMask(Sub(a, b).borrow)
  {
    var borrow: Bit := 0;
    var i := 0;
    while i < numLimbs
      invariant 0 <= i <= numLimbs
      invariant r[..i] == Sub(a[..i], b[..i]).limbs
      invariant borrow == Sub(a[..i], b[..i]).borrow
    {
      var step := LimbSbb(a[i], b[i], borrow);
      r[i] := step.limbs[0];
      borrow := step.borrow;
      assert a[..i + 1][..i] == a[..i] && b[..i + 1][..i] == b[..i];
      assert r[..i + 1] == r[..i] + step.limbs;
      i := i + 1;
    }
    assert a[..numLimbs] == a && b[..numLimbs] == b && r[..numLimbs] == r[..];
    underflow := BorrowMask(borrow);
  }

  /** `LIMBS_select(r, a, b, num_limbs, cond)`: `r = cond ? a : b`.
      `num_limbs` is non-zero. */
  method LimbsSelectNative(r: array<Limb>, a: seq<Limb>, b: seq<Limb>, numLimbs: nat, cond: LimbMask)
    requires 0 < numLimbs && r.Length == numLimbs && |a| == numLimbs && |b| == numLimbs
    modifies r
    ensures r[..] == Select(cond, a, b)
  {
    var i := 0;
    while i < numLimbs
      invariant 0 <= i <= numLimbs
      invariant forall j :: 0 <= j < i ==> r[j] == SelectLimb(cond, a[j], b[j])
    {
      r[i] := SelectLimb(cond, a[i], b[i]);
      i := i + 1;
    }
  }

  /** The data behind a pointer the bridge hands out, given the contents of
      the slices in the bridge's tuple. */
  function Deref(p: Ptr, r: seq<Limb>, a: seq<Limb>, b: seq<Limb>): seq<Limb>
  {
    match p
    case R => r
    case A => a
    case B => b
  }

  // ---------------------------------------------------------------------
  // The safe wrappers.
  // ---------------------------------------------------------------------

  /** `limbs_sub`: `r = a - b`, returning the underflow mask. A zero-length
      `r` is an error; otherwise the bridge checks `b`, then `r`, then `a`.
      `backendCalled` records whether `LIMBS_sub` ran. */
  method LimbsSub(r: array<Limb>, a: seq<Limb>, b: seq<Limb>)
    returns (res: Result<LimbMask>, ghost backendCalled: bool)
    modifies r
    ensures backendCalled <==> res.Ok?
    ensures res.Ok? <==> 0 < r.Length && |a| == r.Length && |b| == r.Length
    ensures r.Length == 0 ==> res == Err(LenMismatchError(0))
    ensures 0 < r.Length && |b| != r.Length ==> res == Err(LenMismatchError(|b|))
    ensures 0 < r.Length && |b| == r.Length && |a| != r.Length ==> res == Err(LenMismatchError(|a|))
    ensures res.Err? ==> r[..] == old(r[..])
    ensures res.Ok? ==> r[..] == Sub(a, b).limbs && res.value == BorrowMask(Sub(a, b).borrow)
    ensures res.Ok? ==> Value(r[..]) == (Value(a) - Value(b)) % Radix(|a|)
    ensures res.Ok? ==> (res.value == ALL_ONES <==> Value(a) < Value(b))
    ensures res.Ok? ==> (res.value == 0 <==> Value(b) <= Value(a))
  {
    var numLimbs := r.Length;
    if numLimbs == 0 {
      return Err(LenMismatchError(r.Length)), false;
    }
    // The closure reports the pointers it is called with.
    var pointers := (pr: Ptr, pa: Ptr, pb: Ptr) => (pr, pa, pb);
    var call := WithRabPointers(DestInputs(r.Length, |a|, |b|), numLimbs, pointers);
    TripleRab(r.Length, |a|, |b|, numLimbs, pointers);
    match call {
      case Err(e) =>
        res, backendCalled := Err(e), false;
      case Ok(ptrs) =>
        // The closure body: `LIMBS_sub(r, a, b, num_limbs)`.
        assert ptrs == (R, A, B);
        var rNow := r[..];
        assert Deref(ptrs.1, rNow, a, b) == a && Deref(ptrs.2, rNow, a, b) == b;
        SubMeaning(a, b);
        var underflow := LimbsSubNative(r, Deref(ptrs.1, rNow, a, b), Deref(ptrs.2, rNow, a, b), numLimbs);
        res, backendCalled := Ok(underflow), true;
    }
  }

  /** `limbs_cmov`: `if cond { r = a; }`. The bridge sees `(r, a)` as
      `(RA, b)` with `RA = r`, so it checks `a` first and passes `(r, r, a)`;
      a zero length is accepted without calling `LIMBS_select`. */
  method LimbsCmov(r: array<Limb>, a: seq<Limb>, cond: LimbMask)
    returns (res: Result<()>, ghost backendCalled: bool)
    modifies r
    ensures backendCalled <==> res.Ok? && r.Length != 0
    ensures res.Ok? <==> |a| == r.Length
    ensures res.Err? ==> res.error == LenMismatchError(|a|)
    ensures res.Err? ==> r[..] == old(r[..])
    ensures res.Ok? ==> r[..] == Select(cond, a, old(r[..]))
    ensures res.Ok? && cond == ALL_ONES ==> r[..] == a
    ensures res.Ok? && cond == 0 ==> r[..] == old(r[..])
  {
    var len := r.Length;
    // The closure reports the pointers it is called with.
    var pointers := (pr: Ptr, pa: Ptr, pb: Ptr) => (pr, pa, pb);
    var call := WithRabPointers(RaInput(Dest(len), |a|), len, pointers);
    match call {
      case Err(e) =>
        res, backendCalled := Err(e), false;
      case Ok(ptrs) =>
        assert ptrs == (R, R, B);
        // The closure body: `LIMBS_select(r, b, a, num_limbs, cond)` when
        // the length is non-zero. Here `A` is `r` itself and `B` is `a`.
        backendCalled := false;
        if len != 0 {
          var rNow := r[..];
          LimbsSelectNative(r, Deref(ptrs.2, rNow, rNow, a), Deref(ptrs.1, rNow, rNow, a), len, cond);
          backendCalled := true;
        }
        res := Ok(());
    }
  }

  /** `limbs_reduce_once`: `r = if a < m { a } else { a - m }`. An error of
      `limbs_sub` is returned as it is and `limbs_cmov` is not reached. */
  method LimbsReduceOnce(r: array<Limb>, a: seq<Limb>, m: seq<Limb>)
    returns (res: Result<()>, ghost cmovReached: bool)
    modifies r
    ensures cmovReached <==> res.Ok?
    ensures res.Ok? <==> 0 < r.Length && |a| == r.Length && |m| == r.Length
    ensures r.Length == 0 ==> res == Err(LenMismatchError(0))
    ensures 0 < r.Length && |m| != r.Length ==> res == Err(LenMismatchError(|m|))
    ensures 0 < r.Length && |m| == r.Length && |a| != r.Length ==> res == Err(LenMismatchError(|a|))
    ensures res.Err? ==> r[..] == old(r[..])
    ensures res.Ok? ==> r[..] == ReduceOnce(a, m)
    ensures res.Ok? ==> Value(r[..]) == if Value(a) < Value(m) then Value(a) else Value(a) - Value(m)
  {
    var sub, _ := LimbsSub(r, a, m);
    match sub {
      case Err(e) =>
        res, cmovReached := Err(e), false;
      case Ok(underflow) =>
        ghost var diff := r[..];
        assert diff == Sub(a, m).limbs && underflow == BorrowMask(Sub(a, m).borrow);
        var cmov, _ := LimbsCmov(r, a, underflow);
        assert r[..] == Select(underflow, a, diff) == ReduceOnce(a, m);
        res, cmovReached := cmov, true;
    }
  }
}
