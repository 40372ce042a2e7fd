/**
  A model's `state_dict`: parameter name to value. Each tensor is represented by
  one real number, so tensor arithmetic (`+=`, `/=`) is ordinary arithmetic here.
 */
module StateDict {

  type State = map<string, real>

  /** What `update` adds to the running sum for `key`: its value, or nothing when it lacks the key. */
  function Contribution(update: State, key: string): real
  {
    if key in update then update[key] else 0.0
  }

  /** Sum of `key` over `updates`, accumulated in list order. */
  function Total(updates: seq<State>, key: string): real
  {
    if updates == [] then 0.0
    else Total(updates[..|updates| - 1], key) + Contribution(updates[|updates| - 1], key)
  }

  /** Updates that all lack `key` add nothing to its running sum. */
  lemma {:induction false} TotalAbsent(updates: seq<State>, key: string)
    requires forall j :: 0 <= j < |updates| ==> key !in updates[j]
    ensures Total(updates, key) == 0.0
  {
    if updates != [] {
      TotalAbsent(updates[..|updates| - 1], key);
    }
  }

  lemma {:induction false} TotalAppend(a: seq<State>, b: seq<State>, key: string)
    ensures Total(a + b, key) == Total(a, key) + Total(b, key)
  {
    if b == [] {
      assert a + b == a;
    } else {
      var last := |b| - 1;
      assert (a + b)[..|a + b| - 1] == a + b[..last];
      TotalAppend(a, b[..last], key);
    }
  }

  /** Removing one update from the list removes exactly its contribution. */
  lemma TotalRemove(updates: seq<State>, j: nat, key: string)
    requires j < |updates|
    ensures Total(updates, key) == Total(updates[..j] + updates[j + 1..], key) + Contribution(updates[j], key)
  {
    assert updates == updates[..j] + [updates[j]] + updates[j + 1..];
    TotalAppend(updates[..j] + [updates[j]], updates[j + 1..], key);
    TotalAppend(updates[..j], [updates[j]], key);
    TotalAppend(updates[..j], updates[j + 1..], key);
    assert Total([updates[j]], key) == Total([], key) + Contribution(updates[j], key) by {
      assert [updates[j]][..0] == [];
    }
  }

  /** Every update has weight one, so the sum depends only on which updates there are, not on their order. */
  lemma {:induction false} TotalPermutation(us: seq<State>, vs: seq<State>, key: string)
    requires multiset(us) == multiset(vs)
    ensures Total(us, key) == Total(vs, key)
  {
    if us == [] {
      assert |vs| == |multiset(vs)| == 0;
    } else {
      var n := |us| - 1;
      var j := MatchLast(us, vs);
      TotalPermutation(us[..n], vs[..j] + vs[j + 1..], key);
      TotalRemove(vs, j, key);
    }
  }

  /** Where the last of `us` sits in a rearrangement `vs`, and what the two lists are without it. */
  lemma MatchLast<T>(us: seq<T>, vs: seq<T>) returns (j: nat)
    requires us != [] && multiset(us) == multiset(vs)
    ensures j < |vs| && vs[j] == us[|us| - 1]
    ensures multiset(us[..|us| - 1]) == multiset(vs[..j] + vs[j + 1..])
  {
    var n := |us| - 1;
    var x := us[n];
    assert us == us[..n] + [x];
    assert x in multiset(vs);
    j :| 0 <= j < |vs| && vs[j] == x;
    var rest := vs[..j] + vs[j + 1..];
    assert vs == vs[..j] + [x] + vs[j + 1..];
    assert multiset(vs) == multiset(rest) + multiset{x};
    assert multiset(us) == multiset(us[..n]) + multiset{x};
    assert multiset(us[..n]) == multiset(us) - multiset{x};
    assert multiset(rest) == multiset(vs) - multiset{x};
  }

  /** n copies of the same update sum to n times its value. */
  lemma {:induction false} TotalOfCopies(updates: seq<State>, u: State, key: string)
    requires forall i :: 0 <= i < |updates| ==> updates[i] == u
    ensures Total(updates, key) == |updates| as real * Contribution(u, key)
  {
    if updates != [] {
      TotalOfCopies(updates[..|updates| - 1], u, key);
    }
  }
}
