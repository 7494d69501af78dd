/** Shared vocabulary: optional values, results, identifiers, timestamps and
    the few sequence queries (first match, count, JavaScript `slice`) that the
    controllers and components perform on their collections. */
module Base {

  /** Database identifiers are only ever compared for equality. */
  type Id = nat

  /** An opaque timestamp: `new Date()` / `Date.now()` become parameters. */
  type Time = int

  datatype Option<+T> = None | Some(value: T) {
    function GetOr(default: T): T {
      match this
      case Some(v) => v
      case None => default
    }
  }

  datatype Result<+T, +E> = Ok(value: T) | Err(error: E)

  /** The index of the first element satisfying `p`, as `Array.prototype.findIndex`
      and a `findOne` over a collection in natural order both produce. */
  function FindIndex<T>(xs: seq<T>, p: T -> bool): (r: Option<nat>)
    ensures r.Some? ==> r.value < |xs| && p(xs[r.value])
    ensures r.Some? ==> forall j :: 0 <= j < r.value ==> !p(xs[j])
    ensures r.None? <==> forall j :: 0 <= j < |xs| ==> !p(xs[j])
  {
    if |xs| == 0 then None
    else if p(xs[0]) then Some(0)
    else match FindIndex(xs[1..], p)
      case None => None
      case Some(i) => Some(i + 1)
  }

  /** The index of the last element satisfying `p`: the element whose value
      survives when a loop lets each matching element overwrite the previous one. */
  function FindLastIndex<T>(xs: seq<T>, p: T -> bool): (r: Option<nat>)
    ensures r.Some? ==> r.value < |xs| && p(xs[r.value])
    ensures r.Some? ==> forall j :: r.value < j < |xs| ==> !p(xs[j])
    ensures r.None? <==> forall j :: 0 <= j < |xs| ==> !p(xs[j])
  {
    if |xs| == 0 then None
    else if p(xs[|xs| - 1]) then Some(|xs| - 1)
    else FindLastIndex(xs[..|xs| - 1], p)
  }

  /** Seen from the front: the last match in `[x] + rest` is the last match in
      `rest`, shifted by one, or `x` itself when `rest` has none. */
  lemma FindLastIndexCons<T>(x: T, rest: seq<T>, p: T -> bool)
    ensures FindLastIndex([x] + rest, p) ==
      match FindLastIndex(rest, p)
      case Some(i) => Some(i + 1)
      case None => if p(x) then Some(0) else None
  {
    var xs := [x] + rest;
    var r := FindLastIndex(xs, p);
    assert xs[0] == x;
    assert forall j :: 0 < j < |xs| ==> xs[j] == rest[j - 1];
    match FindLastIndex(rest, p)
    case Some(i) =>
      assert p(xs[i + 1]);
      var v := r.value;
      assert v >= i + 1;
      assert p(rest[v - 1]);
    case None =>
      assert forall j :: 0 < j < |xs| ==> !p(xs[j]);
  }

  /** `FindLastIndexCons` for a non-empty sequence taken apart at its head. */
  lemma FindLastIndexFront<T>(xs: seq<T>, p: T -> bool)
    requires |xs| > 0
    ensures FindLastIndex(xs, p) ==
      match FindLastIndex(xs[1..], p)
      case Some(i) => Some(i + 1)
      case None => if p(xs[0]) then Some(0) else None
  {
    assert xs == [xs[0]] + xs[1..];
    FindLastIndexCons(xs[0], xs[1..], p);
  }

  /** The number of elements satisfying `p` (`filter(p).length`, `countDocuments`). */
  function Count<T>(xs: seq<T>, p: T -> bool): (n: nat)
    ensures n <= |xs|
    ensures n == 0 <==> forall j :: 0 <= j < |xs| ==> !p(xs[j])
  {
    if |xs| == 0 then 0
    else (if p(xs[0]) then 1 else 0) + Count(xs[1..], p)
  }

  lemma {:induction false} CountAppend<T>(a: seq<T>, b: seq<T>, p: T -> bool)
    ensures Count(a + b, p) == Count(a, p) + Count(b, p)
  {
    if |a| == 0 {
      assert a + b == b;
    } else {
      assert (a + b)[1..] == a[1..] + b;
      CountAppend(a[1..], b, p);
    }
  }

  lemma CountSnoc<T>(xs: seq<T>, x: T, p: T -> bool)
    ensures Count(xs + [x], p) == Count(xs, p) + (if p(x) then 1 else 0)
  {
    CountAppend(xs, [x], p);
    assert [x][1..] == [];
  }

  /** Counting with a weaker predicate counts at least as many elements. */
  lemma {:induction false} CountImplies<T>(xs: seq<T>, p: T -> bool, q: T -> bool)
    requires forall k :: 0 <= k < |xs| && p(xs[k]) ==> q(xs[k])
    ensures Count(xs, p) <= Count(xs, q)
  {
    if |xs| > 0 {
      CountImplies(xs[1..], p, q);
    }
  }

  /** The elements satisfying `p`, in order (`Array.prototype.filter`). */
  function Filter<T>(xs: seq<T>, p: T -> bool): (r: seq<T>)
    ensures |r| == Count(xs, p)
    ensures forall k :: 0 <= k < |r| ==> r[k] in xs && p(r[k])
  {
    if |xs| == 0 then []
    else (if p(xs[0]) then [xs[0]] else []) + Filter(xs[1..], p)
  }

  /** Nothing that satisfies `p` is dropped. */
  lemma {:induction false} FilterKeeps<T>(xs: seq<T>, p: T -> bool, k: nat)
    requires k < |xs| && p(xs[k])
    ensures xs[k] in Filter(xs, p)
    decreases |xs|
  {
    if k > 0 {
      FilterKeeps(xs[1..], p, k - 1);
    }
  }

  /** Filtering distributes over concatenation. */
  lemma {:induction false} FilterAppend<T>(a: seq<T>, b: seq<T>, p: T -> bool)
    ensures Filter(a + b, p) == Filter(a, p) + Filter(b, p)
    decreases |a|
  {
    if |a| == 0 {
      assert a + b == b;
    } else {
      var ab := a + b;
      assert ab[0] == a[0] && ab[1..] == a[1..] + b;
      FilterAppend(a[1..], b, p);
      ConcatAssoc(if p(a[0]) then [a[0]] else [], Filter(a[1..], p), Filter(b, p));
    }
  }

  /** Filtering a longer sequence keeps the earlier result and adds the new
      element when it qualifies. */
  lemma FilterSnoc<T>(xs: seq<T>, x: T, p: T -> bool)
    ensures Filter(xs + [x], p) == Filter(xs, p) + (if p(x) then [x] else [])
  {
    FilterAppend(xs, [x], p);
    assert [x][1..] == [];
  }

  lemma ConcatAssoc<T>(a: seq<T>, b: seq<T>, c: seq<T>)
    ensures a + (b + c) == (a + b) + c
  {
  }

  /** `xs.slice(0, end)` for an integer `end`: a negative end counts back from
      the length of `xs`. */
  function JsSlice<T>(xs: seq<T>, end: int): (r: seq<T>)
    ensures r <= xs
    ensures end >= 0 ==> |r| == if end < |xs| then end else |xs|
    ensures end < 0 ==> |r| == if |xs| + end > 0 then |xs| + end else 0
  {
    if end >= 0 then
      (if end < |xs| then xs[..end] else xs)
    else
      (if |xs| + end > 0 then xs[..|xs| + end] else [])
  }

  lemma MulLe(a: nat, b: int, c: int)
    requires b <= c
    ensures a * b <= a * c
  {
    assert a * c - a * b == a * (c - b);
  }

  /** `Math.round(n / d)` for a positive `d`, computed exactly: the integer
      nearest to `n / d`, halves rounded towards positive infinity. */
  function RoundDiv(n: int, d: nat): (r: int)
    requires d > 0
    ensures 2 * d * r <= 2 * n + d < 2 * d * (r + 1)
  {
    (2 * n + d) / (2 * d)
  }

  /** Every identifier occurs at most once: what a primary key guarantees. */
  ghost predicate Distinct(ids: seq<Id>) {
    forall i, j :: 0 <= i < j < |ids| ==> ids[i] != ids[j]
  }
}
