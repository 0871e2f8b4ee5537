// `bin_search_before`: the index of the latest sample at or before a
// target, over a sequence of keys.  Samples are compared with
// `f64::total_cmp`, which orders 64-bit patterns like the integers
// `TotalKey` maps them to; the search itself works on those integers.

module Search {
  import opened Results

  datatype Ordering = Less | Equal | Greater

  /** `a.cmp(b)`. */
  function Compare(a: int, b: int): (o: Ordering)
    ensures o == Less <==> a < b
    ensures o == Equal <==> a == b
    ensures o == Greater <==> a > b
  {
    if a < b then Less else if a == b then Equal else Greater
  }

  const SIGN_BIT: int := 0x8000_0000_0000_0000

  /** The integer `f64::total_cmp` compares a 64-bit pattern as: the
      pattern itself read as signed, with every bit below the sign flipped
      when the sign is set, so that more negative floats come first. */
  function TotalKey(bits: nat): (k: int)
    requires bits < 2 * SIGN_BIT
    ensures -SIGN_BIT <= k < SIGN_BIT
    ensures (k >= 0) <==> bits < SIGN_BIT
  {
    if bits < SIGN_BIT then bits else SIGN_BIT - 1 - bits
  }

  /** Distinct patterns never compare equal, so the search's exact-hit
      branch fires only on the very pattern sought. */
  lemma TotalKeyInjective(a: nat, b: nat)
    requires a < 2 * SIGN_BIT && b < 2 * SIGN_BIT && a != b
    ensures TotalKey(a) != TotalKey(b)
  {
    if a < SIGN_BIT && b >= SIGN_BIT {
      assert TotalKey(a) >= 0 > TotalKey(b);
    }
  }

  ghost predicate Sorted(data: seq<int>)
  {
    forall i, j :: 0 <= i < j < |data| ==> data[i] <= data[j]
  }

  /** The promise of the doc comment on `idx_before_time`: the greatest
      index whose key is at most `target`, or none when every key exceeds
      it.  Defined by scanning from the end, so it needs no ordering. */
  function LastAtMost(data: seq<int>, target: int): (r: Option<nat>)
    ensures r.Some? ==> r.value < |data| && data[r.value] <= target
    ensures r.Some? ==> forall k :: r.value < k < |data| ==> data[k] > target
    ensures r.None? ==> forall k :: 0 <= k < |data| ==> data[k] > target
    decreases |data|
  {
    if |data| == 0 then None
    else if data[|data| - 1] <= target then Some(|data| - 1)
    else
      var r := LastAtMost(data[..|data| - 1], target);
      assert forall k :: 0 <= k < |data| - 1 ==> data[..|data| - 1][k] == data[k];
      r
  }

  // ---------------------------------------------------------------------
  // The code as written

  /** The search loop as written: `hi` starts at the last index, the slot
      left when `lo == hi` is never compared, and `hi = mid - 1` underflows
      when `mid` is 0 (a panic in a debug build). */
  function Probe(data: seq<int>, target: int, lo: nat, hi: nat, ans: Option<nat>): (r: Result<Option<nat>>)
    requires hi < |data|
    requires ans.Some? ==> ans.value < |data| && data[ans.value] <= target
    ensures r.Ok? && r.value.Some? ==> r.value.value < |data| && data[r.value.value] <= target
    decreases hi - lo
  {
    if lo >= hi then Ok(ans)
    else
      var mid := (lo + hi) / 2;
      match Compare(target, data[mid])
      case Less => if mid == 0 then Fail(ArithmeticOverflow) else Probe(data, target, lo, mid - 1, ans)
      case Greater => Probe(data, target, mid + 1, hi, Some(mid))
      case Equal => Ok(Some(mid))
  }

  /** `bin_search_before` as written: none on an empty slice, and any index
      it returns holds a key at most the target. */
  function BinSearchBeforeAsWritten(data: seq<int>, target: int): (r: Result<Option<nat>>)
    ensures |data| == 0 ==> r == Ok(None)
    ensures r.Ok? && r.value.Some? ==> r.value.value < |data| && data[r.value.value] <= target
  {
    if |data| == 0 then Ok(None) else Probe(data, target, 0, |data| - 1, None)
  }

  /** What the code returns never lies beyond what was intended. */
  lemma AsWrittenNotPastIntended(data: seq<int>, target: int)
    requires BinSearchBeforeAsWritten(data, target).Ok? && BinSearchBeforeAsWritten(data, target).value.Some?
    ensures LastAtMost(data, target).Some?
    ensures BinSearchBeforeAsWritten(data, target).value.value <= LastAtMost(data, target).value
  {
    var i := BinSearchBeforeAsWritten(data, target).value.value;
    assert data[i] <= target;
  }

  /** A one-element slice holding exactly the target: the only slot is
      never compared, so nothing is found. */
  lemma SingletonMissed()
    ensures BinSearchBeforeAsWritten([5], 5) == Ok(None)
    ensures LastAtMost([5], 5) == Some(0)
  {
  }

  /** A target below the first key: the first probe is index 0 and
      `hi = mid - 1` underflows. */
  lemma UnderflowAtStart()
    ensures BinSearchBeforeAsWritten([5, 6], 1) == Fail(ArithmeticOverflow)
    ensures LastAtMost([5, 6], 1) == None
  {
    assert Compare(1, 5) == Less;
  }

  /** The last key equals the target but is never compared, so an
      earlier index comes back. */
  lemma NotGreatest()
    ensures BinSearchBeforeAsWritten([1, 2, 3], 3) == Ok(Some(1))
    ensures LastAtMost([1, 2, 3], 3) == Some(2)
  {
    assert Compare(3, 2) == Greater;
  }

  // ---------------------------------------------------------------------
  // The search as intended

  /** The greatest index whose key is at most `target`: on sorted keys
      exactly `LastAtMost`, and on any keys an index it returns holds a key
      at most the target. */
  method BinSearchBefore(data: seq<int>, target: int) returns (r: Option<nat>)
    ensures |data| == 0 ==> r.None?
    ensures r.Some? ==> r.value < |data| && data[r.value] <= target
    ensures Sorted(data) ==> r == LastAtMost(data, target)
  {
    var lo, hi := 0, |data|;
    while lo < hi
      invariant 0 <= lo <= hi <= |data|
      invariant lo > 0 ==> data[lo - 1] <= target
      invariant Sorted(data) ==> forall k :: 0 <= k < lo ==> data[k] <= target
      invariant Sorted(data) ==> forall k :: hi <= k < |data| ==> data[k] > target
      decreases hi - lo
    {
      var mid := (lo + hi) / 2;
      if data[mid] <= target {
        lo := mid + 1;
      } else {
        hi := mid;
      }
    }
    r := if lo == 0 then None else Some(lo - 1);
    if Sorted(data) {
      var intended := LastAtMost(data, target);
      if intended.Some? {
        assert intended.value < lo;
      }
    }
  }
}
