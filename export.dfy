/**
  The index structure of the multi-party CKKS adapter (mphe/export.go): how
  ciphertext lists are combined slot by slot, scaled, and how key-switching and
  key-generation shares are gathered and folded. Ciphertexts, shares, keys and
  the common reference string are opaque type parameters; Lattigo's `Add`,
  `MultByConst`, `AggregateShares`, `KeySwitch`, `GenShare` and `GenPublicKey`
  are function parameters.
 */
module MpheExport {
  import opened Wrappers

  // ---------------------------------------------------------------- transpose

  /** Every row is at least as long as the first, so `slice[j][i]` exists for every `i < len(slice[0])`. */
  ghost predicate RowsCoverFirst<T>(slice: seq<seq<T>>)
    requires |slice| > 0
  {
    forall j :: 0 <= j < |slice| ==> |slice[0]| <= |slice[j]|
  }

  /** The transpose of the first `len(slice[0])` columns. */
  function Transposed<T>(slice: seq<seq<T>>): seq<seq<T>>
    requires |slice| > 0 && RowsCoverFirst(slice)
  {
    seq(|slice[0]|, i requires 0 <= i < |slice[0]| =>
      seq(|slice|, j requires 0 <= j < |slice| => slice[j][i]))
  }

  /**
    `transpose`: allocate `len(slice[0])` rows of `len(slice)` entries, then
    fill entry `(i, j)` with `slice[j][i]`.
   */
  method Transpose<T(0)>(slice: seq<seq<T>>) returns (result: seq<seq<T>>)
    requires |slice| > 0 && RowsCoverFirst(slice)
    ensures |result| == |slice[0]|
    ensures forall i :: 0 <= i < |result| ==> |result[i]| == |slice|
    ensures forall i, j :: 0 <= i < |result| && 0 <= j < |slice| ==> result[i][j] == slice[j][i]
    ensures result == Transposed(slice)
  {
    var xl := |slice[0]|;
    var yl := |slice|;
    var blank: T := *;
    result := seq(xl, _ => seq(yl, _ => blank));
    for i := 0 to xl
      invariant |result| == xl
      invariant forall r :: 0 <= r < xl ==> |result[r]| == yl
      invariant forall r, c :: 0 <= r < i && 0 <= c < yl ==> result[r][c] == slice[c][r]
    {
      for j := 0 to yl
        invariant |result| == xl
        invariant forall r :: 0 <= r < xl ==> |result[r]| == yl
        invariant forall r, c :: 0 <= r < i && 0 <= c < yl ==> result[r][c] == slice[c][r]
        invariant forall c :: 0 <= c < j ==> result[i][c] == slice[c][i]
      {
        result := result[i := result[i][j := slice[j][i]]];
      }
    }
    assert forall r :: 0 <= r < xl ==> result[r] == Transposed(slice)[r];
  }

  /** Transposing a rectangular slice with at least one column twice gives it back. */
  lemma TransposedTwice<T>(slice: seq<seq<T>>)
    requires |slice| > 0 && |slice[0]| > 0
    requires forall j :: 0 <= j < |slice| ==> |slice[j]| == |slice[0]|
    ensures RowsCoverFirst(Transposed(slice))
    ensures Transposed(Transposed(slice)) == slice
  {
    var t := Transposed(slice);
    assert |t| == |slice[0]| && forall i :: 0 <= i < |t| ==> |t[i]| == |slice|;
    var tt := Transposed(t);
    assert |tt| == |slice|;
    forall j | 0 <= j < |slice| ensures tt[j] == slice[j] {
      assert |tt[j]| == |t| == |slice[j]|;
      forall i | 0 <= i < |slice[j]| ensures tt[j][i] == slice[j][i] {
        assert tt[j][i] == t[i][j];
      }
    }
  }

  // ---------------------------------------------------------------- aggregate

  /**
    Slot `i` of the fold of the first `m` ciphertext lists: `cts[0][i]`, then
    each later list's slot `i` added on in list order, when that list has one.
   */
  function SlotSum<C>(add: (C, C) -> C, cts: seq<seq<C>>, i: nat, m: nat): (r: C)
    requires 0 < m <= |cts| && i < |cts[0]|
    ensures (forall j :: 1 <= j < m ==> |cts[j]| <= i) ==> r == cts[0][i]
  {
    if m == 1 then cts[0][i]
    else if i < |cts[m - 1]| then add(SlotSum(add, cts, i, m - 1), cts[m - 1][i])
    else SlotSum(add, cts, i, m - 1)
  }

  /** `aggregate`'s precondition: no later list has more ciphertexts than the first. */
  ghost predicate FirstIsLongest<C>(cts: seq<seq<C>>)
  {
    |cts| > 0 ==> forall j :: 0 <= j < |cts| ==> |cts[j]| <= |cts[0]|
  }

  /**
    `aggregate`: nil for no lists; otherwise `cts[0]`, updated in place by
    adding every later list into it slot by slot.
   */
  method Aggregate<C>(add: (C, C) -> C, cts: seq<seq<C>>) returns (r: Option<seq<C>>)
    requires FirstIsLongest(cts)
    ensures r.None? <==> |cts| == 0
    ensures r.Some? ==> |r.value| == |cts[0]|
    ensures r.Some? ==> forall i :: 0 <= i < |r.value| ==> r.value[i] == SlotSum(add, cts, i, |cts|)
  {
    if |cts| == 0 {
      return None;
    }
    var aggregate := new C[|cts[0]|](i requires 0 <= i < |cts[0]| => cts[0][i]);
    for k := 1 to |cts|
      invariant forall s :: 0 <= s < aggregate.Length ==> aggregate[s] == SlotSum(add, cts, s, k)
    {
      var ct := cts[k];
      for i := 0 to |ct|
        invariant forall s :: 0 <= s < i ==> aggregate[s] == SlotSum(add, cts, s, k + 1)
        invariant forall s :: i <= s < aggregate.Length ==> aggregate[s] == SlotSum(add, cts, s, k)
      {
        aggregate[i] := add(aggregate[i], ct[i]);
      }
    }
    return Some(aggregate[..]);
  }

  /** The plaintext counterpart of `SlotSum`: the sum of what the slots decrypt to. */
  function PlainSlot<C>(dec: C -> real, cts: seq<seq<C>>, i: nat, m: nat): real
    requires m <= |cts|
  {
    if m == 0 then 0.0
    else PlainSlot(dec, cts, i, m - 1) + (if i < |cts[m - 1]| then dec(cts[m - 1][i]) else 0.0)
  }

  /** Under an additively homomorphic decryption, slot `i` of the aggregate decrypts to the sum of the slots. */
  lemma {:induction false} SlotSumDecrypts<C>(add: (C, C) -> C, dec: C -> real, cts: seq<seq<C>>, i: nat, m: nat)
    requires forall a, b :: dec(add(a, b)) == dec(a) + dec(b)
    requires 0 < m <= |cts| && i < |cts[0]|
    ensures dec(SlotSum(add, cts, i, m)) == PlainSlot(dec, cts, i, m)
  {
    if m > 1 {
      SlotSumDecrypts(add, dec, cts, i, m - 1);
    }
  }

  // ---------------------------------------------------------------- mulByConst

  /** `mulByConst`: scale every ciphertext of the list in place by the constant. */
  method MulByConst<C>(mul: (C, real) -> C, data: seq<C>, cte: real) returns (r: seq<C>)
    ensures |r| == |data|
    ensures forall i :: 0 <= i < |r| ==> r[i] == mul(data[i], cte)
  {
    var ct := new C[|data|](i requires 0 <= i < |data| => data[i]);
    for i := 0 to ct.Length
      invariant forall s :: 0 <= s < i ==> ct[s] == mul(data[s], cte)
      invariant forall s :: i <= s < ct.Length ==> ct[s] == data[s]
    {
      ct[i] := mul(ct[i], cte);
    }
    return ct[..];
  }

  /**
    Aggregating n lists and scaling by 1/n decrypts, slot by slot, to the mean
    of the plaintext slots, when decryption is additive and scaling multiplies.
   */
  lemma {:induction false} ScaledAggregateIsMean<C>(add: (C, C) -> C, mul: (C, real) -> C, dec: C -> real,
                                                   cts: seq<seq<C>>, i: nat)
    requires forall a, b :: dec(add(a, b)) == dec(a) + dec(b)
    requires forall a, k :: dec(mul(a, k)) == k * dec(a)
    requires 0 < |cts| && i < |cts[0]|
    ensures dec(mul(SlotSum(add, cts, i, |cts|), 1.0 / |cts| as real)) == PlainSlot(dec, cts, i, |cts|) / |cts| as real
  {
    SlotSumDecrypts(add, dec, cts, i, |cts|);
  }

  // ---------------------------------------------------------------- share folding

  /** `AggregateShares(share, combined, combined)` over a list, starting from `init`. */
  function FoldShares<S>(agg: (S, S) -> S, init: S, shares: seq<S>): S
  {
    if shares == [] then init
    else agg(shares[|shares| - 1], FoldShares(agg, init, shares[..|shares| - 1]))
  }

  /** The sum of what a list of shares stands for. */
  function ShareTotal<S>(val: S -> real, shares: seq<S>): real
  {
    if shares == [] then 0.0 else ShareTotal(val, shares[..|shares| - 1]) + val(shares[|shares| - 1])
  }

  /** With an additive share aggregation, the fold stands for the sum of the shares on top of `init`. */
  lemma {:induction false} FoldSharesAdds<S>(agg: (S, S) -> S, val: S -> real, init: S, shares: seq<S>)
    requires forall a, b :: val(agg(a, b)) == val(a) + val(b)
    ensures val(FoldShares(agg, init, shares)) == val(init) + ShareTotal(val, shares)
  {
    if shares != [] {
      FoldSharesAdds(agg, val, init, shares[..|shares| - 1]);
    }
  }

  /** Column `i` of the client shares: the `i`-th share of every client, in client order. */
  function Column<S>(shares: seq<seq<S>>, i: nat): (r: seq<S>)
    requires forall j :: 0 <= j < |shares| ==> i < |shares[j]|
    ensures |r| == |shares|
    ensures forall j :: 0 <= j < |r| ==> r[j] == shares[j][i]
  {
    seq(|shares|, j requires 0 <= j < |shares| => shares[j][i])
  }

  /** The share list combined for ciphertext `i`: every client's `i`-th share, then a freshly allocated (blank) server share. */
  function KeySwitchShares<S>(shares: seq<seq<S>>, i: nat, blankShare: S): (r: seq<S>)
    requires forall j :: 0 <= j < |shares| ==> i < |shares[j]|
    ensures |r| == |shares| + 1
    ensures forall j :: 0 <= j < |shares| ==> r[j] == shares[j][i]
    ensures r[|shares|] == blankShare
  {
    Column(shares, i) + [blankShare]
  }

  /**
    `colKeySwitch`: transpose the clients' shares, then for ciphertext `i` fold
    the `i`-th share of every client and one freshly allocated (blank) server share into
    a freshly allocated (blank) accumulator, and key-switch the ciphertext with it.
   */
  method ColKeySwitch<S(0), Ct(0)>(agg: (S, S) -> S, keySwitch: (S, Ct) -> Ct, blankShare: S,
                                   cts: seq<Ct>, shares: seq<seq<S>>) returns (out: seq<Ct>)
    requires |shares| > 0 && RowsCoverFirst(shares)
    requires |cts| <= |shares[0]|
    ensures |out| == |cts|
    ensures forall i :: 0 <= i < |cts| ==>
      out[i] == keySwitch(FoldShares(agg, blankShare, KeySwitchShares(shares, i, blankShare)), cts[i])
  {
    var tshares := Transpose(shares);
    var ciphertexts := new Ct[|cts|];
    for i := 0 to |cts|
      invariant forall s :: 0 <= s < i ==>
        ciphertexts[s] == keySwitch(FoldShares(agg, blankShare, KeySwitchShares(shares, s, blankShare)), cts[s])
    {
      var serverShare := blankShare;
      var cksCombined := blankShare;
      assert tshares[i] == Column(shares, i);
      var sharesForCT := tshares[i] + [serverShare];
      ghost var expected := KeySwitchShares(shares, i, blankShare);
      assert sharesForCT == expected;
      for j := 0 to |sharesForCT|
        invariant cksCombined == FoldShares(agg, blankShare, sharesForCT[..j])
      {
        assert sharesForCT[..j + 1][..j] == sharesForCT[..j];
        cksCombined := agg(sharesForCT[j], cksCombined);
      }
      assert sharesForCT[..|sharesForCT|] == sharesForCT;
      ciphertexts[i] := keySwitch(cksCombined, cts[i]);
    }
    return ciphertexts[..];
  }

  /**
    When a blank share stands for zero, the share a ciphertext is
    key-switched with stands for the sum of the clients' shares for it alone.
   */
  lemma {:induction false} KeySwitchShareIsClientSum<S>(agg: (S, S) -> S, val: S -> real, blankShare: S,
                                                       shares: seq<seq<S>>, i: nat)
    requires forall a, b :: val(agg(a, b)) == val(a) + val(b)
    requires val(blankShare) == 0.0
    requires forall j :: 0 <= j < |shares| ==> i < |shares[j]|
    ensures val(FoldShares(agg, blankShare, KeySwitchShares(shares, i, blankShare))) == ShareTotal(val, Column(shares, i))
  {
    var list := KeySwitchShares(shares, i, blankShare);
    FoldSharesAdds(agg, val, blankShare, list);
    assert list[..|list| - 1] == Column(shares, i);
  }

  /** The first polynomial of every client's key-generation share. */
  function FirstPolys<S>(ckgShares: seq<seq<S>>): (r: seq<S>)
    requires forall j :: 0 <= j < |ckgShares| ==> |ckgShares[j]| > 0
    ensures |r| == |ckgShares|
    ensures forall j :: 0 <= j < |r| ==> r[j] == ckgShares[j][0]
  {
    Column(ckgShares, 0)
  }

  /**
    `colKeyGen`: generate the server's share from its secret key and the common
    reference string, append it to the clients' shares, fold the first
    polynomial of each into a freshly allocated (blank) accumulator, and derive the
    public key from the result.
   */
  method ColKeyGen<S, K, R, P>(genShare: (K, R) -> S, agg: (S, S) -> S, genPublicKey: (S, R) -> P, blankShare: S,
                               sk: K, crs: R, ckgShares: seq<seq<S>>) returns (cpk: P)
    requires forall j :: 0 <= j < |ckgShares| ==> |ckgShares[j]| > 0
    ensures cpk == genPublicKey(FoldShares(agg, blankShare, FirstPolys(ckgShares) + [genShare(sk, crs)]), crs)
  {
    var serverShare := genShare(sk, crs);
    var ckgCombined := blankShare;
    var shares := ckgShares + [[serverShare]];
    ghost var folded := FirstPolys(ckgShares) + [serverShare];
    assert forall i :: 0 <= i < |shares| ==> |shares[i]| > 0 && shares[i][0] == folded[i];
    for i := 0 to |shares|
      invariant ckgCombined == FoldShares(agg, blankShare, folded[..i])
    {
      assert folded[..i + 1][..i] == folded[..i];
      ckgCombined := agg(shares[i][0], ckgCombined);
    }
    assert folded[..|shares|] == folded;
    cpk := genPublicKey(ckgCombined, crs);
  }

  /** The key-generation share stands for the clients' shares plus the server's, n + 1 in all. */
  lemma {:induction false} KeyGenShareIsSum<S, K, R>(genShare: (K, R) -> S, agg: (S, S) -> S, val: S -> real,
                                                    blankShare: S, sk: K, crs: R, ckgShares: seq<seq<S>>)
    requires forall a, b :: val(agg(a, b)) == val(a) + val(b)
    requires val(blankShare) == 0.0
    requires forall j :: 0 <= j < |ckgShares| ==> |ckgShares[j]| > 0
    ensures |FirstPolys(ckgShares) + [genShare(sk, crs)]| == |ckgShares| + 1
    ensures val(FoldShares(agg, blankShare, FirstPolys(ckgShares) + [genShare(sk, crs)]))
            == ShareTotal(val, FirstPolys(ckgShares)) + val(genShare(sk, crs))
  {
    var list := FirstPolys(ckgShares) + [genShare(sk, crs)];
    FoldSharesAdds(agg, val, blankShare, list);
    assert list[..|list| - 1] == FirstPolys(ckgShares);
  }
}
