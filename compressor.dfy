/**
  Federated-dropout codec (`Compressor`). `compress` flattens each layer's
  weight tensor and deletes a seeded random set of positions; `decompress`
  re-derives a drop set, writes zero there and fills the other positions from
  the kept values, in order. numpy's seeded `np.random.choice` is the parameter
  `choice`, constrained by `ValidChooser`.
 */
module Compressor {
  import opened Wrappers

  /** The rate and seed `decompress` always uses (compressor.py passes only the seed, 123, and keeps the default rate). */
  const DefaultRate: real := 0.5
  const DefaultSeed: int := 123

  datatype Error =
    | ValueError   // numpy refused the seed or the sample size, or the reshape size does not match
    | IndexError   // fewer kept values than reconstruction positions to fill

  /** A tensor: its shape and its values in row-major (`ravel`) order. */
  datatype Tensor = Tensor(shape: seq<nat>, values: seq<real>)

  /** A child module of the network, with its `weight` and `bias` parameters. */
  datatype Layer = Layer(name: string, weight: Tensor, bias: Tensor)

  /** One entry of `compress`'s result: `{'size', 'shape', 'weights', 'bias'}`. */
  datatype CompressedLayer = CompressedLayer(size: nat, shape: seq<nat>, weights: seq<real>, bias: Tensor)

  /** `np.random.choice(range(n), k, replace=False)` after `np.random.seed(seed)`, as a function of `(n, k, seed)`. */
  type Chooser = (nat, nat, int) -> seq<nat>

  // ---------------------------------------------------------------- sequences

  ghost predicate Distinct(xs: seq<nat>)
  {
    forall i, j :: 0 <= i < j < |xs| ==> xs[i] != xs[j]
  }

  ghost predicate Sorted(xs: seq<nat>)
  {
    forall i, j :: 0 <= i < j < |xs| ==> xs[i] <= xs[j]
  }

  ghost predicate StrictlyIncreasing(xs: seq<nat>)
  {
    forall i, j :: 0 <= i < j < |xs| ==> xs[i] < xs[j]
  }

  ghost predicate InRange(xs: seq<nat>, n: nat)
  {
    forall i :: 0 <= i < |xs| ==> xs[i] < n
  }

  /** What numpy promises of a sample without replacement: k distinct positions of `range(n)`. */
  ghost predicate ValidChooser(choice: Chooser)
  {
    forall n: nat, k: nat, seed: int :: k <= n ==>
      |choice(n, k, seed)| == k && Distinct(choice(n, k, seed)) && InRange(choice(n, k, seed), n)
  }

  function Product(shape: seq<nat>): nat
  {
    if shape == [] then 1 else shape[0] * Product(shape[1..])
  }

  /** A torch tensor always holds as many values as its shape says. */
  ghost predicate WellShaped(t: Tensor)
  {
    |t.values| == Product(t.shape)
  }

  /** Python's `int(x)`: truncation toward zero. */
  function Trunc(x: real): (r: int)
    ensures 0.0 <= x ==> 0 <= r && r as real <= x < r as real + 1.0
    ensures x < 0.0 ==> r <= 0 && r as real - 1.0 < x <= r as real
  {
    if x >= 0.0 then x.Floor else -((-x).Floor)
  }

  // ---------------------------------------------------------------- random_index

  /** The head of a sorted sequence is its least element, and strictly so in a strictly increasing one. */
  lemma HeadIsLeast(s: seq<nat>)
    requires s != [] && Sorted(s)
    ensures forall y :: y in s ==> s[0] <= y
    ensures StrictlyIncreasing(s) ==> forall y :: y in s[1..] ==> s[0] < y
  {
    forall y | y in s[1..] ensures StrictlyIncreasing(s) ==> s[0] < y {
      var k :| 0 <= k < |s[1..]| && s[1..][k] == y;
      assert s[k + 1] == y;
    }
  }

  /** Dropping the head keeps a sequence ordered. */
  lemma TailOrdered(s: seq<nat>)
    requires s != []
    ensures Sorted(s) ==> Sorted(s[1..])
    ensures StrictlyIncreasing(s) ==> StrictlyIncreasing(s[1..])
  {
    assert forall j :: 0 <= j < |s| - 1 ==> s[1..][j] == s[j + 1];
  }

  /** Putting an element below every element of an ordered sequence in front keeps it ordered. */
  lemma ConsOrdered(h: nat, t: seq<nat>)
    ensures Sorted(t) && (forall y :: y in t ==> h <= y) ==> Sorted([h] + t)
    ensures StrictlyIncreasing(t) && (forall y :: y in t ==> h < y) ==> StrictlyIncreasing([h] + t)
  {
    var r := [h] + t;
    assert forall j :: 0 < j < |r| ==> r[j] == t[j - 1] && r[j] in t;
  }

  /** Inserts `x` into an ascending sequence, in front of the first element not below it. */
  function Insert(x: nat, s: seq<nat>): (r: seq<nat>)
    ensures |r| == |s| + 1
    ensures multiset(r) == multiset(s) + multiset{x}
    ensures forall y :: y in r <==> y in s || y == x
  {
    if s == [] || x <= s[0] then [x] + s
    else
      assert s == [s[0]] + s[1..];
      [s[0]] + Insert(x, s[1..])
  }

  /** A bound below (or at most) every element and `x` stays so after inserting `x`. */
  lemma InsertAbove(h: nat, x: nat, t: seq<nat>)
    ensures h <= x && (forall y :: y in t ==> h <= y) ==> forall y :: y in Insert(x, t) ==> h <= y
    ensures h < x && (forall y :: y in t ==> h < y) ==> forall y :: y in Insert(x, t) ==> h < y
  {
  }

  /** Inserting keeps a sorted sequence sorted. */
  lemma {:induction false} InsertSorted(x: nat, s: seq<nat>)
    requires Sorted(s)
    ensures Sorted(Insert(x, s))
  {
    if s != [] && x > s[0] {
      var t := s[1..];
      TailOrdered(s);
      InsertSorted(x, t);
      var rest := Insert(x, t);
      assert Insert(x, s) == [s[0]] + rest;
      HeadIsLeast(s);
      InsertAbove(s[0], x, t);
      ConsOrdered(s[0], rest);
    } else {
      ConsOrdered(x, s);
    }
  }

  /** Inserting a new element keeps a strictly increasing sequence strictly increasing. */
  lemma {:induction false} InsertStrict(x: nat, s: seq<nat>)
    requires StrictlyIncreasing(s) && x !in s
    ensures StrictlyIncreasing(Insert(x, s))
  {
    if s != [] && x > s[0] {
      var t := s[1..];
      TailOrdered(s);
      assert x !in t;
      InsertStrict(x, t);
      var rest := Insert(x, t);
      assert Insert(x, s) == [s[0]] + rest;
      HeadIsLeast(s);
      InsertAbove(s[0], x, t);
      ConsOrdered(s[0], rest);
    } else {
      if s != [] {
        HeadIsLeast(s);
      }
      ConsOrdered(x, s);
    }
  }

  /** `random_list.sort()`: ascending order. */
  function SortAscending(xs: seq<nat>): (r: seq<nat>)
    ensures |r| == |xs|
    ensures multiset(r) == multiset(xs)
    ensures forall y :: y in r <==> y in xs
    ensures Sorted(r)
    ensures Distinct(xs) ==> StrictlyIncreasing(r)
  {
    if xs == [] then []
    else
      var rest := SortAscending(xs[1..]);
      assert xs == [xs[0]] + xs[1..];
      assert Distinct(xs) ==> xs[0] !in xs[1..] && Distinct(xs[1..]);
      InsertSorted(xs[0], rest);
      assert Distinct(xs) ==> StrictlyIncreasing(Insert(xs[0], rest)) by {
        if Distinct(xs) {
          InsertStrict(xs[0], rest);
        }
      }
      Insert(xs[0], rest)
  }

  /** The sample size `int(maxRange * rate)` that `random_index` asks numpy for. */
  function DropCount(maxRange: nat, rate: real): (r: int)
    ensures 0.0 <= rate ==> 0 <= r
    ensures rate <= 1.0 ==> r <= maxRange
  {
    ScaleBounds(maxRange as real, rate);
    Trunc(maxRange as real * rate)
  }

  /** Scaling a non-negative size by a rate in `[0, 1]` stays in `[0, size]`. */
  lemma ScaleBounds(n: real, rate: real)
    requires 0.0 <= n
    ensures 0.0 <= rate ==> 0.0 <= n * rate
    ensures rate <= 1.0 ==> n * rate <= n
  {
    assert n * rate == n - n * (1.0 - rate);
  }

  /** numpy accepts a sample size between 0 and the population size. */
  predicate RateFits(maxRange: nat, rate: real)
  {
    0 <= DropCount(maxRange, rate) <= maxRange
  }

  /** `np.random.seed` accepts a seed in `[0, 2**32)` and raises a ValueError for any other. */
  predicate SeedFits(seed: int)
  {
    0 <= seed < 0x1_0000_0000
  }

  /**
    `random_index`: the sorted positions of `int(maxRange * rate)` distinct
    draws from `range(maxRange)`; a ValueError when numpy refuses the seed
    (checked first, by `np.random.seed`) or the size.
   */
  function RandomIndex(choice: Chooser, maxRange: nat, rate: real, seed: int): (r: Result<seq<nat>, Error>)
    ensures r.Success? <==> SeedFits(seed) && RateFits(maxRange, rate)
    ensures r.Failure? ==> r.error == ValueError
    ensures ValidChooser(choice) && r.Success? ==>
      && |r.value| == DropCount(maxRange, rate)
      && StrictlyIncreasing(r.value)
      && InRange(r.value, maxRange)
  {
    var count := DropCount(maxRange, rate);
    if !SeedFits(seed) then Failure(ValueError)
    else if count < 0 || count > maxRange then Failure(ValueError)
    else
      var drawn := choice(maxRange, count, seed);
      var sorted := SortAscending(drawn);
      assert ValidChooser(choice) ==> Distinct(drawn) && InRange(drawn, maxRange);
      assert ValidChooser(choice) ==> InRange(sorted, maxRange) by {
        if ValidChooser(choice) {
          forall i | 0 <= i < |sorted| ensures sorted[i] < maxRange {
            assert sorted[i] in drawn;
          }
        }
      }
      Success(sorted)
  }

  lemma DefaultRateFits(maxRange: nat)
    ensures RateFits(maxRange, DefaultRate)
  {
  }

  /** The drop set `decompress` derives for a layer of `size` values. */
  function DecompressIndices(choice: Chooser, size: nat): (r: seq<nat>)
    ensures ValidChooser(choice) ==>
      && |r| == DropCount(size, DefaultRate)
      && StrictlyIncreasing(r) && InRange(r, size)
  {
    DefaultRateFits(size);
    RandomIndex(choice, size, DefaultRate, DefaultSeed).value
  }

  // ---------------------------------------------------------------- ranks

  /** How many drop positions lie below `i`: the `z` of the reconstruction loop when it reaches `i`. */
  function Rank(drop: seq<nat>, i: nat): (r: nat)
    ensures r <= |drop|
  {
    if drop == [] then 0 else (if drop[0] < i then 1 else 0) + Rank(drop[1..], i)
  }

  lemma StrictlyIncreasingIsDistinct(xs: seq<nat>)
    requires StrictlyIncreasing(xs)
    ensures Distinct(xs)
  {
  }

  lemma {:induction false} RankStep(drop: seq<nat>, n: nat)
    requires Distinct(drop)
    ensures Rank(drop, n + 1) == Rank(drop, n) + (if n in drop then 1 else 0)
  {
    if drop != [] {
      assert Distinct(drop[1..]);
      assert drop == [drop[0]] + drop[1..];
      assert drop[0] == n ==> n !in drop[1..];
      RankStep(drop[1..], n);
    }
  }

  lemma {:induction false} RankAll(drop: seq<nat>, n: nat)
    requires InRange(drop, n)
    ensures Rank(drop, n) == |drop|
  {
    if drop != [] {
      assert InRange(drop[1..], n);
      RankAll(drop[1..], n);
    }
  }

  lemma {:induction false} RankZero(drop: seq<nat>)
    ensures Rank(drop, 0) == 0
  {
    if drop != [] {
      RankZero(drop[1..]);
    }
  }

  /** Between `a` and `b` at most `b - a` positions can be dropped. */
  lemma {:induction false} RankGrowth(drop: seq<nat>, a: nat, b: nat)
    requires Distinct(drop) && a <= b
    ensures Rank(drop, a) <= Rank(drop, b) <= Rank(drop, a) + (b - a)
    decreases b - a
  {
    if a < b {
      RankStep(drop, b - 1);
      RankGrowth(drop, a, b - 1);
    }
  }

  /** A split of `drop` at `z` (all before `z` below `i`, the rest not) means `z` of them lie below `i`. */
  lemma {:induction false} RankSplit(drop: seq<nat>, i: nat, z: nat)
    requires z <= |drop|
    requires forall j :: 0 <= j < z ==> drop[j] < i
    requires forall j :: z <= j < |drop| ==> i <= drop[j]
    ensures Rank(drop, i) == z
  {
    if drop != [] {
      if z == 0 {
        RankSplit(drop[1..], i, 0);
      } else {
        RankSplit(drop[1..], i, z - 1);
      }
    }
  }

  /** A kept position `i` reads the compressed value `i - Rank`, which lies below `size - |drop|`. */
  lemma KeptIndexBound(drop: seq<nat>, size: nat, i: nat)
    requires Distinct(drop) && InRange(drop, size)
    requires i < size && i !in drop
    ensures Rank(drop, i) <= i
    ensures i - Rank(drop, i) < size - |drop|
  {
    RankZero(drop);
    RankGrowth(drop, 0, i);
    RankStep(drop, i);
    RankGrowth(drop, i + 1, size);
    RankAll(drop, size);
  }

  /** If every kept position below `n` reads an index below `m`, then at most `m` positions below `n` are kept. */
  lemma {:induction false} KeptCountBound(drop: seq<nat>, n: nat, m: nat)
    requires Distinct(drop)
    requires forall k :: 0 <= k < n && k !in drop ==> Rank(drop, k) <= k && k - Rank(drop, k) < m
    ensures Rank(drop, n) <= n
    ensures n - Rank(drop, n) <= m
  {
    if n == 0 {
      RankZero(drop);
    } else {
      RankStep(drop, n - 1);
      KeptCountBound(drop, n - 1, m);
    }
  }

  // ---------------------------------------------------------------- np.delete

  /** `np.delete(xs, drop)`: the values whose positions are not in `drop`, in their original order. */
  function Delete(xs: seq<real>, drop: seq<nat>): (r: seq<real>)
    ensures |r| <= |xs|
    ensures forall v :: v in r ==> v in xs
  {
    if xs == [] then []
    else
      var last := |xs| - 1;
      Delete(xs[..last], drop) + (if last in drop then [] else [xs[last]])
  }

  lemma {:induction false} DeleteLength(xs: seq<real>, drop: seq<nat>)
    requires Distinct(drop)
    ensures |Delete(xs, drop)| + Rank(drop, |xs|) == |xs|
  {
    if xs == [] {
      RankZero(drop);
    } else {
      var last := |xs| - 1;
      DeleteLength(xs[..last], drop);
      RankStep(drop, last);
    }
  }

  /** The value kept from position `i` sits at `i - Rank(drop, i)` of the compressed weights. */
  lemma {:induction false} DeleteAt(xs: seq<real>, drop: seq<nat>, i: nat)
    requires Distinct(drop)
    requires i < |xs| && i !in drop
    ensures Rank(drop, i) <= i
    ensures i - Rank(drop, i) < |Delete(xs, drop)|
    ensures Delete(xs, drop)[i - Rank(drop, i)] == xs[i]
  {
    var last := |xs| - 1;
    DeleteLength(xs[..last], drop);
    if i == last {
      assert xs[..last] == xs[..i];
    } else {
      DeleteAt(xs[..last], drop, i);
    }
  }

  /** Kept values keep their relative order. */
  lemma DeleteKeepsOrder(drop: seq<nat>, i: nat, j: nat)
    requires Distinct(drop)
    requires i < j && i !in drop
    ensures Rank(drop, i) <= i && Rank(drop, j) <= j
    ensures i - Rank(drop, i) < j - Rank(drop, j)
  {
    RankZero(drop);
    RankGrowth(drop, 0, i);
    RankGrowth(drop, 0, j);
    RankStep(drop, i);
    RankGrowth(drop, i + 1, j);
  }

  // ---------------------------------------------------------------- compress

  ghost predicate DistinctNames(layers: seq<Layer>)
  {
    forall i, j :: 0 <= i < j < |layers| ==> layers[i].name != layers[j].name
  }

  /** One layer of `compress`. */
  function CompressLayer(choice: Chooser, layer: Layer, rate: real, seed: int): (r: Result<CompressedLayer, Error>)
    ensures r.Success? <==> SeedFits(seed) && RateFits(|layer.weight.values|, rate)
    ensures r.Failure? ==> r.error == ValueError
    ensures r.Success? ==>
      && r.value.size == |layer.weight.values|
      && r.value.shape == layer.weight.shape
      && r.value.bias == layer.bias
      && |r.value.weights| <= |layer.weight.values|
  {
    var flat := layer.weight.values;
    match RandomIndex(choice, |flat|, rate, seed)
    case Failure(e) => Failure(e)
    case Success(drop) => Success(CompressedLayer(|flat|, layer.weight.shape, Delete(flat, drop), layer.bias))
  }

  /**
    What a compressed layer records: the flattened length, the original shape,
    the bias as given, and `size - int(size * rate)` weights, which are the
    original values at the kept positions, in order.
   */
  lemma CompressLayerFacts(choice: Chooser, layer: Layer, rate: real, seed: int)
    requires ValidChooser(choice)
    requires SeedFits(seed) && RateFits(|layer.weight.values|, rate)
    ensures CompressLayer(choice, layer, rate, seed).Success?
    ensures CompressLayer(choice, layer, rate, seed).value.size == |layer.weight.values|
    ensures CompressLayer(choice, layer, rate, seed).value.shape == layer.weight.shape
    ensures CompressLayer(choice, layer, rate, seed).value.bias == layer.bias
    ensures |CompressLayer(choice, layer, rate, seed).value.weights|
            == |layer.weight.values| - DropCount(|layer.weight.values|, rate)
    ensures forall i :: 0 <= i < |layer.weight.values| && i !in RandomIndex(choice, |layer.weight.values|, rate, seed).value ==>
      && Rank(RandomIndex(choice, |layer.weight.values|, rate, seed).value, i) <= i
      && i - Rank(RandomIndex(choice, |layer.weight.values|, rate, seed).value, i)
         < |CompressLayer(choice, layer, rate, seed).value.weights|
      && CompressLayer(choice, layer, rate, seed).value.weights[i - Rank(RandomIndex(choice, |layer.weight.values|, rate, seed).value, i)]
         == layer.weight.values[i]
  {
    var flat := layer.weight.values;
    var drop := RandomIndex(choice, |flat|, rate, seed).value;
    var kept := Delete(flat, drop);
    assert CompressLayer(choice, layer, rate, seed) == Success(CompressedLayer(|flat|, layer.weight.shape, kept, layer.bias));
    StrictlyIncreasingIsDistinct(drop);
    DeleteKeeps(flat, drop);
  }

  /** Deleting the positions in `drop` keeps the other values, in order, with as many gone as `drop` lists. */
  lemma DeleteKeeps(flat: seq<real>, drop: seq<nat>)
    requires Distinct(drop) && InRange(drop, |flat|)
    ensures |Delete(flat, drop)| == |flat| - |drop|
    ensures forall i :: 0 <= i < |flat| && i !in drop ==>
      && Rank(drop, i) <= i && i - Rank(drop, i) < |Delete(flat, drop)| && Delete(flat, drop)[i - Rank(drop, i)] == flat[i]
  {
    DeleteLength(flat, drop);
    RankAll(drop, |flat|);
    forall i | 0 <= i < |flat| && i !in drop
      ensures Rank(drop, i) <= i && i - Rank(drop, i) < |Delete(flat, drop)| && Delete(flat, drop)[i - Rank(drop, i)] == flat[i]
    {
      DeleteAt(flat, drop, i);
    }
  }

  /** `compress`: one entry per child module, in order; a ValueError when numpy refuses the seed or a sample size. */
  method Compress(choice: Chooser, layers: seq<Layer>, rate: real, seed: int)
      returns (r: Result<seq<(string, CompressedLayer)>, Error>)
    requires DistinctNames(layers)
    ensures r.Success? <==>
      (|layers| > 0 ==> SeedFits(seed)) && forall k :: 0 <= k < |layers| ==> RateFits(|layers[k].weight.values|, rate)
    ensures r.Failure? ==> r.error == ValueError
    ensures r.Success? ==> |r.value| == |layers|
    ensures r.Success? ==> forall k :: 0 <= k < |layers| ==>
      CompressLayer(choice, layers[k], rate, seed).Success? &&
      r.value[k] == (layers[k].name, CompressLayer(choice, layers[k], rate, seed).value)
  {
    var compressedWeights := [];
    for k := 0 to |layers|
      invariant |compressedWeights| == k
      invariant k > 0 ==> SeedFits(seed)
      invariant forall j :: 0 <= j < k ==> RateFits(|layers[j].weight.values|, rate)
      invariant forall j :: 0 <= j < k ==>
        CompressLayer(choice, layers[j], rate, seed).Success? &&
        compressedWeights[j] == (layers[j].name, CompressLayer(choice, layers[j], rate, seed).value)
    {
      var m := layers[k];
      var flattenedOrig := m.weight.values;
      var randomIndices := RandomIndex(choice, |flattenedOrig|, rate, seed);
      if randomIndices.Failure? {
        return Failure(randomIndices.error);
      }
      var entry := CompressedLayer(|flattenedOrig|, m.weight.shape, Delete(flattenedOrig, randomIndices.value), m.bias);
      compressedWeights := compressedWeights + [(m.name, entry)];
    }
    return Success(compressedWeights);
  }

  // ---------------------------------------------------------------- decompress

  /** The value a kept position `i` reads: the compressed weight `i - Rank(drop, i)`. */
  function KeptValue(c: CompressedLayer, drop: seq<nat>, i: nat): real
    requires Distinct(drop) && InRange(drop, c.size)
    requires c.size - |drop| <= |c.weights|
    requires i < c.size && i !in drop
  {
    KeptIndexBound(drop, c.size, i);
    c.weights[i - Rank(drop, i)]
  }

  /** The first `n` reconstructed weight values: zero at dropped positions, the next kept value elsewhere. */
  function Refilled(c: CompressedLayer, drop: seq<nat>, n: nat): (r: seq<real>)
    requires Distinct(drop) && InRange(drop, c.size)
    requires c.size - |drop| <= |c.weights|
    requires n <= c.size
    ensures |r| == n
  {
    if n == 0 then []
    else Refilled(c, drop, n - 1) + [if n - 1 in drop then 0.0 else KeptValue(c, drop, n - 1)]
  }

  lemma {:induction false} RefilledAt(c: CompressedLayer, drop: seq<nat>, n: nat, k: nat)
    requires Distinct(drop) && InRange(drop, c.size)
    requires c.size - |drop| <= |c.weights|
    requires k < n <= c.size
    ensures Refilled(c, drop, n)[k] == if k in drop then 0.0 else KeptValue(c, drop, k)
  {
    if k < n - 1 {
      RefilledAt(c, drop, n - 1, k);
    }
  }

  /** `decompress` for one layer and a given drop set: an IndexError when the kept values run out, a ValueError when the reshape fails. */
  function Reconstruct(c: CompressedLayer, drop: seq<nat>): (r: Result<Tensor, Error>)
    requires StrictlyIncreasing(drop) && InRange(drop, c.size)
    ensures r.Success? <==> c.size - |drop| <= |c.weights| && Product(c.shape) == c.size
    ensures r.Failure? ==> (r.error == IndexError <==> |c.weights| < c.size - |drop|)
    ensures r.Success? ==> r.value.shape == c.shape && |r.value.values| == c.size && WellShaped(r.value)
  {
    StrictlyIncreasingIsDistinct(drop);
    if |c.weights| < c.size - |drop| then Failure(IndexError)
    else if Product(c.shape) != c.size then Failure(ValueError)
    else Success(Tensor(c.shape, Refilled(c, drop, c.size)))
  }

  /** A layer as `decompress` rebuilds it, with its hard-coded drop set. */
  function ReconstructAt(choice: Chooser, c: CompressedLayer): (r: Result<Tensor, Error>)
    requires ValidChooser(choice)
    ensures r.Success? <==> c.size - DropCount(c.size, DefaultRate) <= |c.weights| && Product(c.shape) == c.size
    ensures r.Success? ==> r.value.shape == c.shape && |r.value.values| == c.size
  {
    Reconstruct(c, DecompressIndices(choice, c.size))
  }

  /** Values that agree with `Reconstruct` position by position are its result. */
  lemma ReconstructFromValues(c: CompressedLayer, drop: seq<nat>, values: seq<real>)
    requires StrictlyIncreasing(drop) && InRange(drop, c.size)
    requires c.size - |drop| <= |c.weights| && Product(c.shape) == c.size
    requires |values| == c.size
    requires forall k :: 0 <= k < c.size ==> Placed(c, drop, k, values[k])
    ensures Reconstruct(c, drop) == Success(Tensor(c.shape, values))
  {
    StrictlyIncreasingIsDistinct(drop);
    var expected := Refilled(c, drop, c.size);
    forall k | 0 <= k < c.size ensures expected[k] == values[k] {
      assert Placed(c, drop, k, values[k]);
      RefilledAt(c, drop, c.size, k);
    }
    assert expected == values;
  }

  /** What position `k` of the refilled layer holds: zero when dropped, otherwise the next kept weight. */
  ghost predicate Placed(c: CompressedLayer, drop: seq<nat>, k: nat, v: real)
  {
    if k in drop then v == 0.0
    else Rank(drop, k) <= k && k - Rank(drop, k) < |c.weights| && v == c.weights[k - Rank(drop, k)]
  }

  /**
    The loop over `range(size)` with the drop counter `z`, then the reshape, for
    a given drop set: zero where the drop set says, the next kept value elsewhere.
   */
  method Refill(c: CompressedLayer, zeroIndices: seq<nat>) returns (r: Result<Tensor, Error>)
    requires StrictlyIncreasing(zeroIndices) && InRange(zeroIndices, c.size)
    ensures r == Reconstruct(c, zeroIndices)
  {
    var newArray := new real[c.size](_ => 0.0);
    var ok := Spread(c, zeroIndices, newArray);
    if !ok {
      return Failure(IndexError);
    }
    if Product(c.shape) != c.size {
      return Failure(ValueError);
    }
    ReconstructFromValues(c, zeroIndices, newArray[..]);
    return Success(Tensor(c.shape, newArray[..]));
  }

  /**
    The loop of `decompress`: walks the positions with a cursor `z` into the
    sorted dropped positions, writing zero at a dropped one and the next kept
    weight otherwise. It stops (`ok` false) at the IndexError of reading past
    the kept weights.
   */
  method Spread(c: CompressedLayer, zeroIndices: seq<nat>, newArray: array<real>) returns (ok: bool)
    requires StrictlyIncreasing(zeroIndices) && InRange(zeroIndices, c.size)
    requires newArray.Length == c.size
    modifies newArray
    ensures ok <==> c.size - |zeroIndices| <= |c.weights|
    ensures ok ==> forall k :: 0 <= k < c.size ==> Placed(c, zeroIndices, k, newArray[k])
  {
    StrictlyIncreasingIsDistinct(zeroIndices);
    var z := 0;
    for i := 0 to c.size
      invariant z <= |zeroIndices| && z <= i
      invariant forall j :: 0 <= j < z ==> zeroIndices[j] < i
      invariant forall j :: z <= j < |zeroIndices| ==> i <= zeroIndices[j]
      invariant forall k :: 0 <= k < i ==> Placed(c, zeroIndices, k, newArray[k])
    {
      RankSplit(zeroIndices, i, z);
      if z < |zeroIndices| && i == zeroIndices[z] {
        newArray[i] := 0.0;
        assert Placed(c, zeroIndices, i, 0.0);
        z := z + 1;
      } else {
        assert i !in zeroIndices;
        if i - z >= |c.weights| {
          KeptIndexBound(zeroIndices, c.size, i);
          return false;
        }
        newArray[i] := c.weights[i - z];
        assert Placed(c, zeroIndices, i, newArray[i]);
      }
    }
    forall k | 0 <= k < c.size && k !in zeroIndices
      ensures Rank(zeroIndices, k) <= k && k - Rank(zeroIndices, k) < |c.weights|
    {
      assert Placed(c, zeroIndices, k, newArray[k]);
    }
    KeptCountBound(zeroIndices, c.size, |c.weights|);
    RankAll(zeroIndices, c.size);
    return true;
  }

  /** One layer of `decompress`: the hard-coded drop set, then the refill. */
  method DecompressLayer(choice: Chooser, c: CompressedLayer) returns (r: Result<Tensor, Error>)
    requires ValidChooser(choice)
    ensures r == ReconstructAt(choice, c)
  {
    var zeroIndices := DecompressIndices(choice, c.size);
    r := Refill(c, zeroIndices);
  }

  function WeightKey(name: string): string { name + ".weight" }

  function BiasKey(name: string): string { name + ".bias" }

  /** The per-layer reconstructions `decompress` computes, one per entry, in order. */
  function LayerResults(choice: Chooser, compressed: seq<(string, CompressedLayer)>): (r: seq<Result<Tensor, Error>>)
    requires ValidChooser(choice)
    ensures |r| == |compressed|
  {
    seq(|compressed|, k requires 0 <= k < |compressed| => ReconstructAt(choice, compressed[k].1))
  }

  /**
    How `decompress` assembles its result from the per-layer outcomes:
    `<layer>.weight` and `<layer>.bias` for every entry, in order, or the error
    of the first layer that failed.
   */
  function Assemble(compressed: seq<(string, CompressedLayer)>, results: seq<Result<Tensor, Error>>): (r: Result<seq<(string, Tensor)>, Error>)
    requires |results| == |compressed|
    ensures r.Success? ==> |r.value| == 2 * |compressed|
    ensures r.Failure? ==> exists k :: 0 <= k < |results| && results[k] == Failure(r.error)
  {
    if compressed == [] then Success([])
    else
      var last := |compressed| - 1;
      match Assemble(compressed[..last], results[..last])
      case Failure(e) => Failure(e)
      case Success(prefix) =>
        match results[last]
        case Failure(e) => Failure(e)
        case Success(t) => Success(prefix + [(WeightKey(compressed[last].0), t), (BiasKey(compressed[last].0), compressed[last].1.bias)])
  }

  /** One more layer: its failure ends the assembly, its success appends its two entries. */
  lemma AssembleStep(compressed: seq<(string, CompressedLayer)>, results: seq<Result<Tensor, Error>>, k: nat)
    requires |results| == |compressed| && k < |compressed|
    requires Assemble(compressed[..k], results[..k]).Success?
    ensures results[k].Failure? ==> Assemble(compressed[..k + 1], results[..k + 1]) == Failure(results[k].error)
    ensures results[k].Success? ==>
      Assemble(compressed[..k + 1], results[..k + 1])
      == Success(Assemble(compressed[..k], results[..k]).value
                 + [(WeightKey(compressed[k].0), results[k].value), (BiasKey(compressed[k].0), compressed[k].1.bias)])
  {
    assert compressed[..k + 1][..k] == compressed[..k];
    assert results[..k + 1][..k] == results[..k];
  }

  /** Once a prefix fails, so does every longer one, with the same error. */
  lemma {:induction false} AssembleFailureSticks(compressed: seq<(string, CompressedLayer)>, results: seq<Result<Tensor, Error>>, k: nat)
    requires |results| == |compressed| && k <= |compressed|
    requires Assemble(compressed[..k], results[..k]).Failure?
    ensures Assemble(compressed, results) == Assemble(compressed[..k], results[..k])
    decreases |compressed| - k
  {
    if k < |compressed| {
      assert compressed[..k + 1][..k] == compressed[..k];
      assert results[..k + 1][..k] == results[..k];
      AssembleFailureSticks(compressed, results, k + 1);
    } else {
      assert compressed[..k] == compressed;
      assert results[..k] == results;
    }
  }

  /** The assembly succeeds exactly when every layer succeeded. */
  lemma {:induction false} AssembleSucceeds(compressed: seq<(string, CompressedLayer)>, results: seq<Result<Tensor, Error>>)
    requires |results| == |compressed|
    ensures Assemble(compressed, results).Success? <==> forall k :: 0 <= k < |results| ==> results[k].Success?
  {
    if compressed != [] {
      var last := |compressed| - 1;
      AssembleSucceeds(compressed[..last], results[..last]);
      assert forall k :: 0 <= k < last ==> results[..last][k] == results[k];
    }
  }

  /** A failure is the error of the first layer that failed. */
  lemma {:induction false} AssembleFirstFailure(compressed: seq<(string, CompressedLayer)>, results: seq<Result<Tensor, Error>>)
    requires |results| == |compressed|
    requires Assemble(compressed, results).Failure?
    ensures exists k :: (0 <= k < |results| && results[k] == Failure(Assemble(compressed, results).error) &&
      forall j :: 0 <= j < k ==> results[j].Success?)
  {
    var last := |compressed| - 1;
    var init, initResults := compressed[..last], results[..last];
    assert forall k :: 0 <= k < last ==> initResults[k] == results[k];
    var e := Assemble(compressed, results).error;
    if Assemble(init, initResults).Failure? {
      AssembleFirstFailure(init, initResults);
      var k :| 0 <= k < last && initResults[k] == Failure(e) && forall j :: 0 <= j < k ==> initResults[j].Success?;
      assert results[k] == Failure(e);
    } else {
      AssembleSucceeds(init, initResults);
      assert results[last] == Failure(e);
    }
  }

  /** A success holds each layer's weight and bias under their keys, two entries per layer, in order. */
  lemma {:induction false} AssembleLayout(compressed: seq<(string, CompressedLayer)>, results: seq<Result<Tensor, Error>>)
    requires |results| == |compressed|
    requires Assemble(compressed, results).Success?
    ensures |Assemble(compressed, results).value| == 2 * |compressed|
    ensures forall k :: 0 <= k < |compressed| ==>
      && results[k].Success?
      && Assemble(compressed, results).value[2 * k] == (WeightKey(compressed[k].0), results[k].value)
      && Assemble(compressed, results).value[2 * k + 1] == (BiasKey(compressed[k].0), compressed[k].1.bias)
  {
    if compressed != [] {
      var last := |compressed| - 1;
      var init, initResults := compressed[..last], results[..last];
      assert forall k :: 0 <= k < last ==> init[k] == compressed[k] && initResults[k] == results[k];
      AssembleLayout(init, initResults);
      var prefix := Assemble(init, initResults).value;
      var out := Assemble(compressed, results).value;
      assert out == prefix + [(WeightKey(compressed[last].0), results[last].value), (BiasKey(compressed[last].0), compressed[last].1.bias)];
    }
  }

  /** `decompress`: every entry's reconstruction, assembled in order; the first failing layer's error otherwise. */
  method Decompress(choice: Chooser, compressed: seq<(string, CompressedLayer)>)
      returns (r: Result<seq<(string, Tensor)>, Error>)
    requires ValidChooser(choice)
    ensures r == Assemble(compressed, LayerResults(choice, compressed))
  {
    ghost var results := LayerResults(choice, compressed);
    var reconstructedModel := [];
    for k := 0 to |compressed|
      invariant Assemble(compressed[..k], results[..k]) == Success(reconstructedModel)
    {
      var (layer, entry) := compressed[k];
      var weightTensor := DecompressLayer(choice, entry);
      assert weightTensor == results[k];
      AssembleStep(compressed, results, k);
      if weightTensor.Failure? {
        AssembleFailureSticks(compressed, results, k + 1);
        return Failure(weightTensor.error);
      }
      reconstructedModel := reconstructedModel + [(WeightKey(layer), weightTensor.value), (BiasKey(layer), entry.bias)];
    }
    assert compressed[..|compressed|] == compressed;
    assert results[..|compressed|] == results;
    return Success(reconstructedModel);
  }

  // ---------------------------------------------------------------- agreement

  /** The intended reconstruction of a weight tensor: zero at `drop`, the original value elsewhere. */
  function Masked(values: seq<real>, drop: seq<nat>): (r: seq<real>)
    ensures |r| == |values|
  {
    seq(|values|, i requires 0 <= i < |values| => if i in drop then 0.0 else values[i])
  }

  /**
    Compressing with the rate and seed that `decompress` hard-codes and then
    reconstructing gives the original weights at kept positions and zero at
    dropped ones, with the original shape.
   */
  lemma RoundTripAtDefaults(choice: Chooser, layer: Layer)
    requires ValidChooser(choice)
    requires WellShaped(layer.weight)
    ensures CompressLayer(choice, layer, DefaultRate, DefaultSeed).Success?
    ensures ReconstructAt(choice, CompressLayer(choice, layer, DefaultRate, DefaultSeed).value)
            == Success(Tensor(layer.weight.shape,
                              Masked(layer.weight.values, DecompressIndices(choice, |layer.weight.values|))))
  {
    RoundTripSameDropCount(choice, layer, DefaultRate);
  }

  /** `random_index` depends on the rate only through the drop count `int(maxRange * rate)`. */
  lemma SameDropCountSameDraw(choice: Chooser, maxRange: nat, rate: real, other: real, seed: int)
    requires DropCount(maxRange, rate) == DropCount(maxRange, other)
    ensures RandomIndex(choice, maxRange, rate, seed) == RandomIndex(choice, maxRange, other, seed)
  {
  }

  /** Deleting a sorted drop set and reconstructing with it gives the weights masked by it. */
  lemma DeleteThenReconstruct(flat: seq<real>, shape: seq<nat>, bias: Tensor, drop: seq<nat>)
    requires StrictlyIncreasing(drop) && InRange(drop, |flat|)
    requires Product(shape) == |flat|
    ensures Reconstruct(CompressedLayer(|flat|, shape, Delete(flat, drop), bias), drop)
            == Success(Tensor(shape, Masked(flat, drop)))
  {
    StrictlyIncreasingIsDistinct(drop);
    DeleteKeeps(flat, drop);
    ReconstructKept(CompressedLayer(|flat|, shape, Delete(flat, drop), bias), drop, flat);
  }

  /**
    The round trip only needs `compress` to have drawn the drop set `decompress`
    derives, whatever the rate and seed that drew it.
   */
  lemma RoundTripSameDraw(choice: Chooser, layer: Layer, rate: real, seed: int)
    requires SeedFits(seed) && RateFits(|layer.weight.values|, rate)
    requires RandomIndex(choice, |layer.weight.values|, rate, seed).value == DecompressIndices(choice, |layer.weight.values|)
    requires WellShaped(layer.weight)
    requires ValidChooser(choice)
    ensures CompressLayer(choice, layer, rate, seed).Success?
    ensures ReconstructAt(choice, CompressLayer(choice, layer, rate, seed).value)
            == Success(Tensor(layer.weight.shape,
                              Masked(layer.weight.values, DecompressIndices(choice, |layer.weight.values|))))
  {
    var flat := layer.weight.values;
    var drop := DecompressIndices(choice, |flat|);
    assert RandomIndex(choice, |flat|, rate, seed) == Success(drop);
    var c := CompressedLayer(|flat|, layer.weight.shape, Delete(flat, drop), layer.bias);
    assert CompressLayer(choice, layer, rate, seed) == Success(c);
    DeleteThenReconstruct(flat, layer.weight.shape, layer.bias, drop);
    assert ReconstructAt(choice, c) == Reconstruct(c, drop);
  }

  /** Seed 123 and a rate with the same drop count as 0.5 always draw that set. */
  lemma RoundTripSameDropCount(choice: Chooser, layer: Layer, rate: real)
    requires DropCount(|layer.weight.values|, rate) == DropCount(|layer.weight.values|, DefaultRate)
    requires WellShaped(layer.weight)
    requires ValidChooser(choice)
    ensures CompressLayer(choice, layer, rate, DefaultSeed).Success?
    ensures ReconstructAt(choice, CompressLayer(choice, layer, rate, DefaultSeed).value)
            == Success(Tensor(layer.weight.shape,
                              Masked(layer.weight.values, DecompressIndices(choice, |layer.weight.values|))))
  {
    var n := |layer.weight.values|;
    DefaultRateFits(n);
    SameDropCountSameDraw(choice, n, rate, DefaultRate, DefaultSeed);
    assert RandomIndex(choice, n, rate, DefaultSeed).value == DecompressIndices(choice, n);
    RoundTripSameDraw(choice, layer, rate, DefaultSeed);
  }

  /**
    A layer of fewer than two weights drops nothing at rate 0.5, so any accepted
    seed with a rate that also drops nothing round-trips it.
   */
  lemma SmallLayerRoundTrip(choice: Chooser, layer: Layer, rate: real, seed: int)
    requires |layer.weight.values| < 2 && DropCount(|layer.weight.values|, rate) == 0
    requires SeedFits(seed)
    requires WellShaped(layer.weight)
    requires ValidChooser(choice)
    ensures CompressLayer(choice, layer, rate, seed).Success?
    ensures ReconstructAt(choice, CompressLayer(choice, layer, rate, seed).value)
            == Success(Tensor(layer.weight.shape, layer.weight.values))
  {
    var n := |layer.weight.values|;
    assert DropCount(n, DefaultRate) == 0 by {
      assert n as real * DefaultRate < 1.0;
    }
    var drop := DecompressIndices(choice, n);
    assert |RandomIndex(choice, n, rate, seed).value| == 0 == |drop|;
    RoundTripSameDraw(choice, layer, rate, seed);
    assert Masked(layer.weight.values, drop) == layer.weight.values;
  }

  /** A compressed layer whose kept weights are those of `flat` outside `drop` reconstructs to `flat` masked by `drop`. */
  lemma ReconstructKept(c: CompressedLayer, drop: seq<nat>, flat: seq<real>)
    requires StrictlyIncreasing(drop) && InRange(drop, c.size)
    requires c.size == |flat| == Product(c.shape)
    requires |c.weights| == c.size - |drop|
    requires forall i :: 0 <= i < |flat| && i !in drop ==>
      && Rank(drop, i) <= i && i - Rank(drop, i) < |c.weights| && c.weights[i - Rank(drop, i)] == flat[i]
    ensures Reconstruct(c, drop) == Success(Tensor(c.shape, Masked(flat, drop)))
  {
    StrictlyIncreasingIsDistinct(drop);
    var t := Reconstruct(c, drop);
    assert t.Success?;
    forall k | 0 <= k < |flat| ensures t.value.values[k] == Masked(flat, drop)[k] {
      RefilledAt(c, drop, |flat|, k);
    }
    assert t.value.values == Masked(flat, drop);
  }

  /** Compressing with a rate that drops more positions than 0.5 does makes `decompress` run past the kept values. */
  lemma HigherRateFails(choice: Chooser, layer: Layer, rate: real, seed: int)
    requires ValidChooser(choice)
    requires SeedFits(seed) && RateFits(|layer.weight.values|, rate)
    requires DropCount(|layer.weight.values|, rate) > DropCount(|layer.weight.values|, DefaultRate)
    ensures CompressLayer(choice, layer, rate, seed).Success?
    ensures ReconstructAt(choice, CompressLayer(choice, layer, rate, seed).value) == Failure(IndexError)
  {
    CompressLayerFacts(choice, layer, rate, seed);
  }

  function Elements(xs: seq<nat>): set<nat>
  {
    set x | x in xs
  }

  lemma {:induction false} DistinctCard(xs: seq<nat>)
    requires Distinct(xs)
    ensures |Elements(xs)| == |xs|
  {
    if xs != [] {
      assert Elements(xs) == {xs[0]} + Elements(xs[1..]);
      assert xs[0] !in Elements(xs[1..]);
      assert Distinct(xs[1..]);
      DistinctCard(xs[1..]);
    }
  }

  /** A strictly increasing sequence is determined by its elements. */
  lemma {:induction false} IncreasingUnique(a: seq<nat>, b: seq<nat>)
    requires StrictlyIncreasing(a) && StrictlyIncreasing(b)
    requires Elements(a) == Elements(b)
    ensures a == b
  {
    if a == [] {
      StrictlyIncreasingIsDistinct(b);
      DistinctCard(b);
    } else if b == [] {
      StrictlyIncreasingIsDistinct(a);
      DistinctCard(a);
    } else {
      assert a[0] in Elements(b);
      assert b[0] in Elements(a);
      assert a[0] == b[0];
      assert Elements(a[1..]) == Elements(a) - {a[0]};
      assert Elements(b[1..]) == Elements(b) - {b[0]};
      IncreasingUnique(a[1..], b[1..]);
      assert a == [a[0]] + a[1..];
      assert b == [b[0]] + b[1..];
    }
  }

  /** Of two different strictly increasing sequences, the longer (or either) has an element the other lacks. */
  lemma MissingElement(a: seq<nat>, b: seq<nat>)
    requires StrictlyIncreasing(a) && StrictlyIncreasing(b)
    requires |b| <= |a| && a != b
    ensures exists x :: x in a && x !in b
  {
    if forall x :: x in a ==> x in b {
      var ea, eb := Elements(a), Elements(b);
      assert ea <= eb;
      DistinctCard(a);
      DistinctCard(b);
      assert eb == ea + (eb - ea);
      assert |eb - ea| == 0;
      assert ea == eb;
      IncreasingUnique(a, b);
    }
  }

  /**
    When `compress` used a rate or seed whose drop set differs from the one
    `decompress` hard-codes, but did not drop more positions, reconstruction
    succeeds yet zeroes a position that `compress` had kept.
   */
  lemma MismatchedDropSetLosesKeptValue(choice: Chooser, layer: Layer, rate: real, seed: int)
    requires DropCount(|layer.weight.values|, rate) <= DropCount(|layer.weight.values|, DefaultRate)
    requires SeedFits(seed) && RateFits(|layer.weight.values|, rate)
    requires RandomIndex(choice, |layer.weight.values|, rate, seed).value != DecompressIndices(choice, |layer.weight.values|)
    requires WellShaped(layer.weight)
    requires ValidChooser(choice)
    ensures CompressLayer(choice, layer, rate, seed).Success?
    ensures var t := ReconstructAt(choice, CompressLayer(choice, layer, rate, seed).value);
            var dropped := RandomIndex(choice, |layer.weight.values|, rate, seed).value;
            && t.Success?
            && exists i :: 0 <= i < |layer.weight.values| && i !in dropped && t.value.values[i] == 0.0
  {
    var flat := layer.weight.values;
    var n := |flat|;
    var used := RandomIndex(choice, n, rate, seed).value;
    var c := CompressedLayer(n, layer.weight.shape, Delete(flat, used), layer.bias);
    assert CompressLayer(choice, layer, rate, seed) == Success(c);
    StrictlyIncreasingIsDistinct(used);
    DeleteKeeps(flat, used);
    var hardCoded := DecompressIndices(choice, n);
    MissingElement(hardCoded, used);
    var x :| x in hardCoded && x !in used;
    StrictlyIncreasingIsDistinct(hardCoded);
    var t := Reconstruct(c, hardCoded);
    assert t.Success?;
    RefilledAt(c, hardCoded, n, x);
    assert t.value.values[x] == 0.0;
  }

  /** Keys of the reconstructed model never collide as long as layer names do not. */
  lemma OutputKeysDistinct(a: string, b: string)
    ensures WeightKey(a) != BiasKey(b)
    ensures WeightKey(a) == WeightKey(b) ==> a == b
    ensures BiasKey(a) == BiasKey(b) ==> a == b
  {
    var w, x := WeightKey(a), BiasKey(b);
    assert w[|w| - 1] == 't' && x[|x| - 1] == 's';
    if WeightKey(a) == WeightKey(b) {
      assert |a| == |b|;
      assert a == WeightKey(a)[..|a|];
      assert b == WeightKey(b)[..|b|];
    }
    if BiasKey(a) == BiasKey(b) {
      assert |a| == |b|;
      assert a == BiasKey(a)[..|a|];
      assert b == BiasKey(b)[..|b|];
    }
  }

  /** `decompress(compress(model))` at the default rate and seed, for a whole network. */
  method CompressThenDecompress(choice: Chooser, layers: seq<Layer>) returns (r: Result<seq<(string, Tensor)>, Error>)
    requires ValidChooser(choice)
    requires DistinctNames(layers)
    requires forall k :: 0 <= k < |layers| ==> WellShaped(layers[k].weight)
    ensures r.Success?
    ensures |r.value| == 2 * |layers|
    ensures forall k :: 0 <= k < |layers| ==>
      && r.value[2 * k] == (WeightKey(layers[k].name),
                            Tensor(layers[k].weight.shape,
                                   Masked(layers[k].weight.values, DecompressIndices(choice, |layers[k].weight.values|))))
      && r.value[2 * k + 1] == (BiasKey(layers[k].name), layers[k].bias)
  {
    forall k | 0 <= k < |layers| ensures RateFits(|layers[k].weight.values|, DefaultRate) {
      DefaultRateFits(|layers[k].weight.values|);
    }
    assert SeedFits(DefaultSeed);
    var compressed := Compress(choice, layers, DefaultRate, DefaultSeed);
    forall k | 0 <= k < |layers|
      ensures ReconstructAt(choice, compressed.value[k].1)
              == Success(Tensor(layers[k].weight.shape,
                                Masked(layers[k].weight.values, DecompressIndices(choice, |layers[k].weight.values|))))
    {
      RoundTripAtDefaults(choice, layers[k]);
    }
    r := Decompress(choice, compressed.value);
    ghost var results := LayerResults(choice, compressed.value);
    AssembleSucceeds(compressed.value, results);
    AssembleLayout(compressed.value, results);
  }
}
