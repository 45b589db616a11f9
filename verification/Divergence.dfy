/** Searching for the block where a remote value departs from the local one
    (`find_divergence_block`, crates/validation). */
module Divergence {
  import opened Types

  /** The remote's answer for one slot at each block. */
  type Remote = U64 -> Result<Word, string>

  predicate Matches(remote: Remote, local: Word, block: U64) {
    remote(block) == Ok(local)
  }

  predicate Differs(remote: Remote, local: Word, block: U64) {
    remote(block).Ok? && remote(block).value != local
  }

  /** Up to `first` the values match; from `first` on they differ for good. */
  ghost predicate DivergesFrom(remote: Remote, local: Word, low: U64, high: U64, first: U64) {
    && low <= first <= high
    && (forall n: U64 :: low <= n < first ==> Matches(remote, local, n))
    && (forall n: U64 :: first <= n <= high ==> Differs(remote, local, n))
  }

  /** `b` is a boundary: the values match just before it and differ at it. */
  predicate Boundary(remote: Remote, local: Word, b: U64) {
    b > 0 && Matches(remote, local, b - 1) && Differs(remote, local, b)
  }

  function BitLength(n: nat): nat {
    if n == 0 then 0 else 1 + BitLength(n / 2)
  }

  lemma {:induction false} BitLengthMonotone(m: nat, n: nat)
    requires m <= n
    ensures BitLength(m) <= BitLength(n)
  {
    if m > 0 { BitLengthMonotone(m / 2, n / 2); }
  }

  function Bits(low: U64, high: U64): nat {
    if low <= high then BitLength(high - low) else 0
  }

  /** Either half of an interval of width `d` has one bit less. */
  lemma HalvesShrink(d: nat)
    requires d > 0
    ensures BitLength(d / 2) == BitLength(d) - 1
    ensures BitLength(d - d / 2 - 1) <= BitLength(d) - 1
  {
    BitLengthMonotone(d - d / 2 - 1, d / 2);
  }

  /** The error `r` carries is the answer to the last of `queries`. */
  ghost predicate Reported<T>(remote: Remote, r: Result<T, string>, queries: seq<U64>) {
    r.Err? ==> queries != [] && remote(queries[|queries| - 1]) == Err(r.error)
  }

  /** What the search answers. With `low > high` and a match at `low` the answer is
      `low`, whatever the values between them. */
  ghost predicate Answers(remote: Remote, local: Word, low: U64, high: U64, r: Option<U64>) {
    if Matches(remote, local, high) then r == None
    else
      && Differs(remote, local, high) && r.Some?
      && (if Differs(remote, local, low) then r.value == low
          else if low <= high then low < r.value <= high && Boundary(remote, local, r.value)
          else Matches(remote, local, low) && r.value == low)
  }

  /** The block the bisection settles on. */
  function Bisection(remote: Remote, local: Word, lo: U64, hi: U64): Result<U64, string>
    decreases hi - lo
  {
    if lo >= hi then Ok(lo)
    else
      var mid := lo + (hi - lo) / 2;
      match remote(mid)
      case Err(e) => Err(e)
      case Ok(value) =>
        if value == local then Bisection(remote, local, mid + 1, hi) else Bisection(remote, local, lo, mid)
  }

  /** Between a match and a difference the bisection settles on a boundary. */
  lemma {:induction false} BisectionFinds(remote: Remote, local: Word, low: U64, high: U64, lo: U64, hi: U64)
    requires low <= lo <= hi <= high && Differs(remote, local, hi)
    requires if lo == low then Matches(remote, local, lo) else Matches(remote, local, lo - 1)
    ensures var r := Bisection(remote, local, lo, hi);
      r.Ok? ==> low < r.value <= high && Boundary(remote, local, r.value)
    decreases hi - lo
  {
    if lo < hi {
      var mid := lo + (hi - lo) / 2;
      if remote(mid).Ok? {
        if remote(mid).value == local {
          BisectionFinds(remote, local, low, high, mid + 1, hi);
        } else {
          BisectionFinds(remote, local, low, high, lo, mid);
        }
      }
    }
  }

  // ---- the blocks it asks for ----

  /** The blocks a bisection that settles on `first` asks for. */
  function Probes(lo: U64, hi: U64, first: U64): seq<U64>
    decreases hi - lo
  {
    if lo >= hi then []
    else
      var mid := lo + (hi - lo) / 2;
      [mid] + (if mid < first then Probes(mid + 1, hi, first) else Probes(lo, mid, first))
  }

  /** At `q` the values match or differ as if `first` were the first departure. */
  predicate Points(remote: Remote, local: Word, first: U64, q: U64) {
    if q < first then Matches(remote, local, q) else Differs(remote, local, q)
  }

  ghost predicate AllPoint(remote: Remote, local: Word, first: U64, queries: seq<U64>) {
    forall q :: q in queries ==> Points(remote, local, first, q)
  }

  lemma AllPointFirst(remote: Remote, local: Word, first: U64, q: U64, rest: seq<U64>)
    ensures AllPoint(remote, local, first, [q] + rest) <==>
      Points(remote, local, first, q) && AllPoint(remote, local, first, rest)
  {
    assert ([q] + rest)[0] == q;
    assert forall x :: x in [q] + rest <==> x == q || x in rest;
  }

  lemma {:induction false} BisectionRange(remote: Remote, local: Word, lo: U64, hi: U64)
    requires lo <= hi && Bisection(remote, local, lo, hi).Ok?
    ensures lo <= Bisection(remote, local, lo, hi).value <= hi
    decreases hi - lo
  {
    if lo < hi {
      var mid := lo + (hi - lo) / 2;
      if remote(mid).value == local {
        BisectionRange(remote, local, mid + 1, hi);
      } else {
        BisectionRange(remote, local, lo, mid);
      }
    }
  }

  lemma TurnsRight(remote: Remote, local: Word, lo: U64, hi: U64, mid: U64, first: U64)
    requires lo < hi && mid == lo + (hi - lo) / 2 && mid < first <= hi
    ensures Bisection(remote, local, lo, hi) == Ok(first) <==>
      Matches(remote, local, mid) && Bisection(remote, local, mid + 1, hi) == Ok(first)
  {
    if Differs(remote, local, mid) && Bisection(remote, local, lo, mid).Ok? { BisectionRange(remote, local, lo, mid); }
  }

  lemma TurnsLeft(remote: Remote, local: Word, lo: U64, hi: U64, mid: U64, first: U64)
    requires lo < hi && mid == lo + (hi - lo) / 2 && lo <= first <= mid
    ensures Bisection(remote, local, lo, hi) == Ok(first) <==>
      Differs(remote, local, mid) && Bisection(remote, local, lo, mid) == Ok(first)
  {
    if Matches(remote, local, mid) && Bisection(remote, local, mid + 1, hi).Ok? {
      BisectionRange(remote, local, mid + 1, hi);
    }
  }

  /** The exact condition: the bisection settles on a block exactly when every block it
      asks for on the way there points to it. */
  lemma {:induction false} BisectionIff(remote: Remote, local: Word, lo: U64, hi: U64, first: U64)
    requires lo <= first <= hi
    ensures Bisection(remote, local, lo, hi) == Ok(first) <==> AllPoint(remote, local, first, Probes(lo, hi, first))
    decreases hi - lo
  {
    if lo < hi {
      var mid := lo + (hi - lo) / 2;
      if mid < first {
        BisectionIff(remote, local, mid + 1, hi, first);
        TurnsRight(remote, local, lo, hi, mid, first);
        AllPointFirst(remote, local, first, mid, Probes(mid + 1, hi, first));
      } else {
        BisectionIff(remote, local, lo, mid, first);
        TurnsLeft(remote, local, lo, hi, mid, first);
        AllPointFirst(remote, local, first, mid, Probes(lo, mid, first));
      }
    }
  }

  // ---- the search ----

  function Search(remote: Remote, local: Word, low: U64, high: U64): Result<Option<U64>, string> {
    match remote(high)
    case Err(e) => Err(e)
    case Ok(atHigh) =>
      if atHigh == local then Ok(None)
      else
        match remote(low)
        case Err(e) => Err(e)
        case Ok(atLow) =>
          if atLow != local then Ok(Some(low))
          else
            match Bisection(remote, local, low, high)
            case Err(e) => Err(e)
            case Ok(b) => Ok(Some(b))
  }

  lemma SearchAnswers(remote: Remote, local: Word, low: U64, high: U64)
    requires Search(remote, local, low, high).Ok?
    ensures Answers(remote, local, low, high, Search(remote, local, low, high).value)
  {
    if low <= high && Matches(remote, local, low) && Differs(remote, local, high) {
      BisectionFinds(remote, local, low, high, low, high);
    }
  }

  /** What is left to ask for, at `lo` and `hi` within the bisection from `low` to `high`. */
  ghost predicate Searching(
    remote: Remote, local: Word, low: U64, high: U64, lo: U64, hi: U64, asked: seq<U64>)
  {
    && Bisection(remote, local, lo, hi) == Bisection(remote, local, low, high)
    && |asked| + Bits(lo, hi) <= Bits(low, high)
    && (low <= high ==> lo <= hi)
    && (Bisection(remote, local, low, high).Ok? && low <= high ==>
        var b := Bisection(remote, local, low, high).value;
        asked + Probes(lo, hi, b) == Probes(low, high, b))
  }

  /** The next interval after the answer at the middle. */
  predicate Narrows(remote: Remote, local: Word, lo: U64, hi: U64, lo': U64, hi': U64)
    requires lo < hi
  {
    var mid := lo + (hi - lo) / 2;
    && remote(mid).Ok?
    && (if remote(mid).value == local then lo' == mid + 1 && hi' == hi else lo' == lo && hi' == mid)
  }

  lemma NarrowsBits(remote: Remote, local: Word, lo: U64, hi: U64, lo': U64, hi': U64)
    requires lo < hi && Narrows(remote, local, lo, hi, lo', hi')
    ensures lo' <= hi' && 1 + Bits(lo', hi') <= Bits(lo, hi)
  {
    HalvesShrink(hi - lo);
  }

  lemma NarrowsProbes(
    remote: Remote, local: Word, lo: U64, hi: U64, lo': U64, hi': U64, b: U64, asked: seq<U64>, all: seq<U64>)
    requires lo < hi && Narrows(remote, local, lo, hi, lo', hi') && Bisection(remote, local, lo', hi') == Ok(b)
    requires asked + Probes(lo, hi, b) == all
    ensures asked + [lo + (hi - lo) / 2] + Probes(lo', hi', b) == all
  {
    var mid := lo + (hi - lo) / 2;
    BisectionRange(remote, local, lo', hi');
    assert Probes(lo, hi, b) == [mid] + Probes(lo', hi', b);
    assert asked + [mid] + Probes(lo', hi', b) == asked + ([mid] + Probes(lo', hi', b));
  }

  lemma SearchingNext(
    remote: Remote, local: Word, low: U64, high: U64, lo: U64, hi: U64, asked: seq<U64>, lo': U64, hi': U64)
    requires lo < hi && Searching(remote, local, low, high, lo, hi, asked)
    requires Narrows(remote, local, lo, hi, lo', hi')
    ensures Searching(remote, local, low, high, lo', hi', asked + [lo + (hi - lo) / 2])
  {
    NarrowsBits(remote, local, lo, hi, lo', hi');
    var r := Bisection(remote, local, low, high);
    if r.Ok? && low <= high {
      NarrowsProbes(remote, local, lo, hi, lo', hi', r.value, asked, Probes(low, high, r.value));
    }
  }

  /** The bisection proper, with at most one query for each bit of the distance. */
  method Bisect(remote: Remote, local: Word, low: U64, high: U64)
    returns (r: Result<U64, string>, ghost queries: seq<U64>)
    ensures r == Bisection(remote, local, low, high)
    ensures Reported(remote, r, queries)
    ensures |queries| <= Bits(low, high)
    ensures r.Ok? && low <= high ==> queries == Probes(low, high, r.value)
  {
    var lo, hi := low, high;
    queries := [];
    while lo < hi
      invariant Searching(remote, local, low, high, lo, hi, queries)
      decreases hi as int - lo as int
    {
      var mid := lo + (hi - lo) / 2;
      var remoteMid := remote(mid);
      if remoteMid.Err? {
        HalvesShrink(hi - lo);
        return Err(remoteMid.error), queries + [mid];
      }
      ghost var lo', hi' := lo, hi;
      if remoteMid.value == local {
        lo := mid + 1;
      } else {
        hi := mid;
      }
      SearchingNext(remote, local, low, high, lo', hi', queries, lo, hi);
      queries := queries + [mid];
    }
    return Ok(lo), queries;
  }

  method FindDivergenceBlock(remote: Remote, local: Word, low: U64, high: U64)
    returns (r: Result<Option<U64>, string>, ghost queries: seq<U64>)
    ensures r == Search(remote, local, low, high)
    ensures r.Ok? ==> Answers(remote, local, low, high, r.value)
    ensures Reported(remote, r, queries)
    ensures |queries| <= 2 + Bits(low, high)
    ensures r.Ok? && r.value.Some? && low < r.value.value ==> queries == [high, low] + Probes(low, high, r.value.value)
  {
    queries := [high];
    var remoteHigh := remote(high);
    if remoteHigh.Err? {
      return Err(remoteHigh.error), queries;
    }
    if remoteHigh.value == local {
      return Ok(None), queries;
    }
    queries := [high, low];
    var remoteLow := remote(low);
    if remoteLow.Err? {
      return Err(remoteLow.error), queries;
    }
    if remoteLow.value != local {
      return Ok(Some(low)), queries;
    }
    var found;
    ghost var probed;
    found, probed := Bisect(remote, local, low, high);
    queries := [high, low] + probed;
    r := if found.Ok? then Ok(Some(found.value)) else Err(found.error);
    if r.Ok? { SearchAnswers(remote, local, low, high); }
  }

  // ---- when the answer is the first departure ----

  /** The exact condition for any answer. */
  lemma SearchIff(remote: Remote, local: Word, low: U64, high: U64, first: U64)
    requires low <= first <= high
    ensures Search(remote, local, low, high) == Ok(Some(first)) <==>
      && Differs(remote, local, high)
      && (if first == low then Differs(remote, local, low)
          else Matches(remote, local, low) && AllPoint(remote, local, first, Probes(low, high, first)))
  {
    if Differs(remote, local, high) && Matches(remote, local, low) {
      if first == low { BisectionFinds(remote, local, low, high, low, high); }
      else { BisectionIff(remote, local, low, high, first); }
    }
  }

  /** `first` is the first departure: a match at every block from `low` up to it. */
  ghost predicate DepartsAt(remote: Remote, local: Word, low: U64, first: U64) {
    && low <= first && Differs(remote, local, first)
    && forall n: U64 :: low <= n < first ==> Matches(remote, local, n)
  }

  /** The search answers with the first departure exactly when the values still differ
      at `high` and at every later block it asks for. */
  lemma FirstDepartureFoundIff(remote: Remote, local: Word, low: U64, high: U64, first: U64)
    requires first <= high && DepartsAt(remote, local, low, first)
    ensures Search(remote, local, low, high) == Ok(Some(first)) <==>
      && Differs(remote, local, high)
      && (first == low || forall q :: q in Probes(low, high, first) && first <= q ==> Differs(remote, local, q))
  {
    SearchIff(remote, local, low, high, first);
    if first != low {
      assert Matches(remote, local, low);
      ProbesRange(low, high, first);
    }
  }

  lemma {:induction false} ProbesRange(lo: U64, hi: U64, first: U64)
    ensures forall q :: q in Probes(lo, hi, first) ==> lo <= q < hi
    decreases hi - lo
  {
    if lo < hi {
      var mid := lo + (hi - lo) / 2;
      if mid < first {
        ProbesRange(mid + 1, hi, first);
      } else {
        ProbesRange(lo, mid, first);
      }
    }
  }

  /** If the remote diverges for good, the answer is the first diverging block. */
  lemma FirstDivergence(remote: Remote, local: Word, low: U64, high: U64, first: U64)
    requires DivergesFrom(remote, local, low, high, first)
    ensures Search(remote, local, low, high) == Ok(Some(first))
  {
    assert Differs(remote, local, first);
    ProbesRange(low, high, first);
    FirstDepartureFoundIff(remote, local, low, high, first);
  }

  /** A value that departs, comes back and departs again: the search answers with
      the second departure. */
  lemma FirstDepartureMissed(local: Word, other: Word)
    requires local != other
    ensures var remote := (n: U64) => Ok(if n == 1 || n == 4 then other else local);
      DepartsAt(remote, local, 0, 1) && Search(remote, local, 0, 4) == Ok(Some(4))
  {
    var remote := (n: U64) => Ok(if n == 1 || n == 4 then other else local);
    assert remote(2) == Ok(local) && remote(3) == Ok(local);
    assert Bisection(remote, local, 3, 4) == Ok(4);
  }
}
