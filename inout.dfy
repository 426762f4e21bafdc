/**
 * The aliasing bridge of src/arithmetic/inout.rs.
 *
 * `with_ra_pointers` and `with_rab_pointers` take a destination slice and
 * zero, one or two input slices, check every length against an expected
 * length in a fixed order, and either fail with the first mismatching
 * length or call the closure `f` exactly once with raw pointers into the
 * slices. Only the lengths and the identity of the slices matter to the
 * bridge, so a slice is described here by its length and a pointer by a
 * tag naming the slice it points into.
 */
module Inout {

  /** The slice a pointer points into, by its position in the bridge's tuple:
      the destination `r`, the input `a`, the trailing input `b`. */
  datatype Ptr = R | A | B

  /** The only error of the layer: the offending length. */
  datatype LenMismatchError = LenMismatchError(len: nat)

  datatype Result<T> = Ok(value: T) | Err(error: LenMismatchError)

  /** The implementors of `AliasingSlices2`, by slice length. */
  datatype RaSlices =
    | Dest(rLen: nat)                  // `&mut [T]`: the destination is also the input
    | DestInput(rLen: nat, aLen: nat)  // `(&mut [T], &[T])`

  /** The implementors of `AliasingSlices3`, by slice length. */
  datatype RabSlices =
    | Dest3(rLen: nat)                              // `&mut [T]`
    | DestInputs(rLen: nat, aLen: nat, bLen: nat)   // `(&mut [T], &[T], &[T])`
    | RaInput(ra: RaSlices, bLen: nat)              // `(RA, &[T])` for any `RA: AliasingSlices2`

  // ---------------------------------------------------------------------
  // Reference description: the lengths in the order they are checked, and
  // the pointers the closure receives.
  // ---------------------------------------------------------------------

  function CheckOrder2(ra: RaSlices): (lens: seq<nat>)
    ensures |lens| >= 1 && lens[0] == ra.rLen
  {
    match ra
    case Dest(r) => [r]
    case DestInput(r, a) => [r, a]
  }

  /** `b` first, then the slices of the inner pair. */
  function CheckOrder3(rab: RabSlices): (lens: seq<nat>)
    ensures |lens| >= 1
  {
    match rab
    case Dest3(r) => [r]
    case DestInputs(r, a, b) => [b, r, a]
    case RaInput(ra, b) => [b] + CheckOrder2(ra)
  }

  function Route2(ra: RaSlices): (p: (Ptr, Ptr))
    ensures p.0 == R
  {
    match ra
    case Dest(_) => (R, R)
    case DestInput(_, _) => (R, A)
  }

  function Route3(rab: RabSlices): (p: (Ptr, Ptr, Ptr))
    ensures p.0 == R
  {
    match rab
    case Dest3(_) => (R, R, R)
    case DestInputs(_, _, _) => (R, A, B)
    case RaInput(ra, _) => (Route2(ra).0, Route2(ra).1, B)
  }

  predicate AllMatch(lens: seq<nat>, expectedLen: nat) {
    forall i :: 0 <= i < |lens| ==> lens[i] == expectedLen
  }

  /** `e` is the first length in `lens` that differs from `expectedLen`. */
  predicate FirstMismatch(lens: seq<nat>, expectedLen: nat, e: nat) {
    exists i :: 0 <= i < |lens| && lens[i] != expectedLen && e == lens[i] &&
      forall j :: 0 <= j < i ==> lens[j] == expectedLen
  }

  // ---------------------------------------------------------------------
  // The bridge, written as the impls are written.
  // ---------------------------------------------------------------------

  /** `AliasingSlices2::with_ra_pointers`, both impls. */
  function WithRaPointers<X>(ra: RaSlices, expectedLen: nat, f: (Ptr, Ptr) -> X): (res: Result<X>)
    ensures res.Ok? <==> AllMatch(CheckOrder2(ra), expectedLen)
    ensures res.Err? ==> FirstMismatch(CheckOrder2(ra), expectedLen, res.error.len)
    ensures res.Ok? ==> res.value == f(Route2(ra).0, Route2(ra).1)
  {
    match ra
    case Dest(r) =>
      if r != expectedLen then Err(LenMismatchError(r))
      else
        assert FirstMismatch([r], expectedLen, r) ==> r != expectedLen;
        Ok(f(R, R))
    case DestInput(r, a) =>
      if r != expectedLen then
        assert CheckOrder2(ra)[0] == r;
        Err(LenMismatchError(r))
      else if a != expectedLen then
        assert CheckOrder2(ra)[1] == a;
        Err(LenMismatchError(a))
      else Ok(f(R, A))
  }

  /** `AliasingSlices3::with_rab_pointers`, all three impls. */
  function WithRabPointers<X>(rab: RabSlices, expectedLen: nat, f: (Ptr, Ptr, Ptr) -> X): (res: Result<X>)
    ensures res.Ok? <==> AllMatch(CheckOrder3(rab), expectedLen)
    ensures res.Err? ==> FirstMismatch(CheckOrder3(rab), expectedLen, res.error.len)
    ensures res.Ok? ==> res.value == f(Route3(rab).0, Route3(rab).1, Route3(rab).2)
    decreases rab.DestInputs?
  {
    match rab
    case Dest3(r) =>
      WithRaPointers(Dest(r), expectedLen, (pr, pa) => f(pr, pr, pa))
    case DestInputs(r, a, b) =>
      assert CheckOrder3(rab) == CheckOrder3(RaInput(DestInput(r, a), b));
      WithRabPointers(RaInput(DestInput(r, a), b), expectedLen, f)
    case RaInput(ra, b) =>
      if b != expectedLen then
        assert CheckOrder3(rab)[0] == b;
        Err(LenMismatchError(b))
      else
        var inner := WithRaPointers(ra, expectedLen, (pr, pa) => f(pr, pa, B));
        assert CheckOrder3(rab) == [b] + CheckOrder2(ra);
        assert inner.Err? ==> FirstMismatch(CheckOrder3(rab), expectedLen, inner.error.len) by {
          if inner.Err? {
            var i :| 0 <= i < |CheckOrder2(ra)| && CheckOrder2(ra)[i] != expectedLen &&
              inner.error.len == CheckOrder2(ra)[i] &&
              forall j :: 0 <= j < i ==> CheckOrder2(ra)[j] == expectedLen;
            assert CheckOrder3(rab)[i + 1] == CheckOrder2(ra)[i];
          }
        }
        assert inner.Ok? ==> AllMatch(CheckOrder3(rab), expectedLen) by {
          if inner.Ok? {
            forall k | 0 <= k < |CheckOrder3(rab)| ensures CheckOrder3(rab)[k] == expectedLen {
              if k > 0 { assert CheckOrder3(rab)[k] == CheckOrder2(ra)[k - 1]; }
            }
          }
        }
        assert !inner.Ok? ==> !AllMatch(CheckOrder3(rab), expectedLen) by {
          if !inner.Ok? {
            var i :| 0 <= i < |CheckOrder2(ra)| && CheckOrder2(ra)[i] != expectedLen;
            assert CheckOrder3(rab)[i + 1] == CheckOrder2(ra)[i];
          }
        }
        inner
  }

  // ---------------------------------------------------------------------
  // Properties of the bridge.
  // ---------------------------------------------------------------------

  /** The single-slice RA fails iff `r` has the wrong length, with `r.len()`,
      and otherwise hands `r` out as both pointers. */
  lemma DestRa<X>(r: nat, expectedLen: nat, f: (Ptr, Ptr) -> X)
    ensures WithRaPointers(Dest(r), expectedLen, f) ==
      if r != expectedLen then Err(LenMismatchError(r)) else Ok(f(R, R))
  {
  }

  /** For the pair RA, `r` is checked before `a`; on success `f` gets `(r, a)`. */
  lemma PairRa<X>(r: nat, a: nat, expectedLen: nat, f: (Ptr, Ptr) -> X)
    ensures WithRaPointers(DestInput(r, a), expectedLen, f) ==
      if r != expectedLen then Err(LenMismatchError(r))
      else if a != expectedLen then Err(LenMismatchError(a))
      else Ok(f(R, A))
  {
  }

  /** `(RA, b)` checks `b` first: a wrong `b` is reported whatever RA holds. */
  lemma TrailingInputCheckedFirst<X>(ra: RaSlices, b: nat, expectedLen: nat, f: (Ptr, Ptr, Ptr) -> X)
    requires b != expectedLen
    ensures WithRabPointers(RaInput(ra, b), expectedLen, f) == Err(LenMismatchError(b))
  {
  }

  /** When `b` passes, `(RA, b)` is RA's own `with_ra_pointers` with the
      closure extended by the pointer to `b`. */
  lemma TrailingInputDelegates<X>(ra: RaSlices, b: nat, expectedLen: nat,
                                  f: (Ptr, Ptr, Ptr) -> X, g: (Ptr, Ptr) -> X)
    requires b == expectedLen
    requires forall pr, pa :: g(pr, pa) == f(pr, pa, B)
    ensures WithRabPointers(RaInput(ra, b), expectedLen, f) == WithRaPointers(ra, expectedLen, g)
  {
  }

  /** The single-slice RAB passes `r` for all three pointers. */
  lemma DestRab<X>(r: nat, expectedLen: nat, f: (Ptr, Ptr, Ptr) -> X)
    ensures WithRabPointers(Dest3(r), expectedLen, f) ==
      if r != expectedLen then Err(LenMismatchError(r)) else Ok(f(R, R, R))
  {
  }

  /** The triple is the nested pair `((r, a), b)`: `b`, then `r`, then `a`
      are checked, and `f` gets `(r, a, b)`. */
  lemma TripleRab<X>(r: nat, a: nat, b: nat, expectedLen: nat, f: (Ptr, Ptr, Ptr) -> X)
    ensures WithRabPointers(DestInputs(r, a, b), expectedLen, f) ==
            WithRabPointers(RaInput(DestInput(r, a), b), expectedLen, f)
    ensures WithRabPointers(DestInputs(r, a, b), expectedLen, f) ==
      if b != expectedLen then Err(LenMismatchError(b))
      else if r != expectedLen then Err(LenMismatchError(r))
      else if a != expectedLen then Err(LenMismatchError(a))
      else Ok(f(R, A, B))
  {
  }

  /** On an error path the closure is never called: the outcome is the same
      whatever closure is passed. */
  lemma ErrorIgnoresClosure<X>(rab: RabSlices, expectedLen: nat, f: (Ptr, Ptr, Ptr) -> X, g: (Ptr, Ptr, Ptr) -> X)
    requires WithRabPointers(rab, expectedLen, f).Err?
    ensures WithRabPointers(rab, expectedLen, g) == WithRabPointers(rab, expectedLen, f)
  {
  }
}
