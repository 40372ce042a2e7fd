/**
  The plaintext aggregation of `ServerTrainer`: start from a zeroed copy of a
  freshly built network's state and replace every entry by the arithmetic mean
  of the clients' updates. `network` stands for `model1.Net().state_dict()`.
 */
module ServerTrainer {
  import opened Wrappers
  import opened StateDict

  /** `update[key]` raised a KeyError: some update lacks a parameter of the network. */
  datatype AggregateError = KeyError

  /** Equal-weight mean of the updates over the network's parameters. */
  function Mean(network: State, updates: seq<State>): (r: State)
    requires |updates| > 0
    ensures r.Keys == network.Keys
  {
    map key | key in network :: Total(updates, key) / |updates| as real
  }

  /** Every update carries every parameter of the network. */
  ghost predicate CoversNetwork(network: State, updates: seq<State>)
  {
    forall i :: 0 <= i < |updates| ==> network.Keys <= updates[i].Keys
  }

  /** `get_zero_state`: multiply every entry of a network state by zero, key by key. */
  method GetZeroState(network: State) returns (state: State)
    ensures state.Keys == network.Keys
    ensures forall key :: key in state ==> state[key] == 0.0
  {
    state := network;
    var todo := state.Keys;
    while todo != {}
      invariant state.Keys == network.Keys
      invariant todo <= state.Keys
      invariant forall key :: key in state && key !in todo ==> state[key] == 0.0
      decreases todo
    {
      var key :| key in todo;
      state := state[key := state[key] * 0.0];
      todo := todo - {key};
    }
  }

  /**
    `aggregate`: for every parameter, add the updates into the zero state one by
    one, then divide once by the number of updates. Keys that an update has but
    the network lacks are ignored; a key the update lacks is a KeyError.
   */
  method Aggregate(network: State, updates: seq<State>) returns (r: Result<State, AggregateError>)
    requires |updates| > 0
    ensures r.Success? <==> CoversNetwork(network, updates)
    ensures r.Success? ==> r.value == Mean(network, updates)
  {
    var n := |updates| as real;
    var acc := GetZeroState(network);
    var todo := acc.Keys;
    while todo != {}
      invariant acc.Keys == network.Keys && todo <= acc.Keys
      invariant forall key :: key in todo ==> acc[key] == 0.0
      invariant forall key :: key in acc && key !in todo ==> acc[key] == Total(updates, key) / n
      invariant forall key, i :: key in network && key !in todo && 0 <= i < |updates| ==> key in updates[i]
      decreases todo
    {
      var key :| key in todo;
      var sum := Accumulate(acc[key], updates, key);
      if sum.None? {
        return Failure(KeyError);
      }
      acc := acc[key := sum.value / n];
      todo := todo - {key};
    }
    return Success(acc);
  }

  /** `for update in updates: aggregate_update[key] += update[key]`, from `start`; None at the first update lacking `key`. */
  method Accumulate(start: real, updates: seq<State>, key: string) returns (r: Option<real>)
    ensures r.Some? <==> forall i :: 0 <= i < |updates| ==> key in updates[i]
    ensures r.Some? ==> r.value == start + Total(updates, key)
  {
    var sum := start;
    for j := 0 to |updates|
      invariant sum == start + Total(updates[..j], key)
      invariant forall i :: 0 <= i < j ==> key in updates[i]
    {
      if key !in updates[j] {
        return None;
      }
      assert updates[..j + 1][..j] == updates[..j];
      sum := sum + updates[j][key];
    }
    assert updates[..|updates|] == updates;
    return Some(sum);
  }

  /** One update: the mean is that update, restricted to the network's parameters. */
  lemma MeanOfOne(network: State, u: State)
    requires network.Keys <= u.Keys
    ensures Mean(network, [u]) == map key | key in network :: u[key]
  {
    forall key | key in network
      ensures Mean(network, [u])[key] == u[key]
    {
      TotalOfCopies([u], u, key);
    }
  }

  /** Averaging identical updates gives that update back (idempotence). */
  lemma MeanOfCopies(network: State, updates: seq<State>, u: State)
    requires |updates| > 0
    requires forall i :: 0 <= i < |updates| ==> updates[i] == u
    requires network.Keys == u.Keys
    ensures Mean(network, updates) == u
  {
    forall key | key in network
      ensures Mean(network, updates)[key] == u[key]
    {
      TotalOfCopies(updates, u, key);
    }
  }

  /** The mean does not depend on the order in which the updates arrived. */
  lemma MeanOrderIndependent(network: State, us: seq<State>, vs: seq<State>)
    requires |us| > 0
    requires multiset(us) == multiset(vs)
    ensures |vs| == |us|
    ensures Mean(network, us) == Mean(network, vs)
  {
    assert |us| == |multiset(us)| == |multiset(vs)| == |vs|;
    forall key | key in network
      ensures Mean(network, us)[key] == Mean(network, vs)[key]
    {
      TotalPermutation(us, vs, key);
    }
  }
}
