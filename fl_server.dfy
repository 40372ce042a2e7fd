/**
  The draft coordinator `ML_Server` of FL-server-latest.py: its `aggregate`
  (empty list rejected, a single update returned as is, otherwise summed into a
  freshly built network's state and divided by the number of updates) and its
  `update`, which loads a state into the model. `base` stands for
  `Net().state_dict()` of a new, randomly initialised network.
 */
module FLServer {
  import opened Wrappers
  import opened StateDict
  import ServerTrainer

  datatype AggregateError =
    | NoUpdates   // "No updates to aggregate"
    | KeyError    // an update holds a key the base state lacks

  /** What the draft computes for two or more updates: the base state counted in, divided by n. */
  function CombinedMean(base: State, updates: seq<State>): (r: State)
    requires |updates| > 0
    ensures r.Keys == base.Keys
  {
    map key | key in base :: (base[key] + Total(updates, key)) / |updates| as real
  }

  /** Every key each update carries is a key of the base state. */
  ghost predicate WithinBase(base: State, updates: seq<State>)
  {
    forall i :: 0 <= i < |updates| ==> updates[i].Keys <= base.Keys
  }

  method Aggregate(base: State, updates: seq<State>) returns (r: Result<State, AggregateError>)
    ensures |updates| == 0 ==> r == Failure(NoUpdates)
    ensures |updates| == 1 ==> r == Success(updates[0])
    ensures |updates| >= 2 ==> (r.Success? <==> WithinBase(base, updates))
    ensures |updates| >= 2 && r.Failure? ==> r.error == KeyError
    ensures |updates| >= 2 && r.Success? ==> r.value == CombinedMean(base, updates)
  {
    var numUpdates := |updates|;
    if numUpdates == 0 {
      return Failure(NoUpdates);
    }
    if numUpdates == 1 {
      return Success(updates[0]);
    }
    var combined := base;
    for i := 0 to numUpdates
      invariant combined.Keys == base.Keys
      invariant forall key :: key in combined ==> combined[key] == base[key] + Total(updates[..i], key)
      invariant forall i' :: 0 <= i' < i ==> updates[i'].Keys <= base.Keys
    {
      var added := AddUpdate(combined, updates[i]);
      if added.Failure? {
        return Failure(KeyError);
      }
      assert updates[..i + 1][..i] == updates[..i];
      combined := added.value;
    }
    assert updates[..numUpdates] == updates;
    combined := DivideAll(combined, numUpdates as real);
    return Success(combined);
  }

  /** `for key in update: combined[key] += update[key]`, a KeyError at the first key `combined` lacks. */
  method AddUpdate(combined: State, update: State) returns (r: Result<State, AggregateError>)
    ensures r.Success? <==> update.Keys <= combined.Keys
    ensures r.Failure? ==> r.error == KeyError
    ensures r.Success? ==> r.value.Keys == combined.Keys
    ensures r.Success? ==> forall key :: key in combined ==> r.value[key] == combined[key] + Contribution(update, key)
  {
    var sum := combined;
    var todo := update.Keys;
    while todo != {}
      invariant sum.Keys == combined.Keys
      invariant todo <= update.Keys
      invariant update.Keys - todo <= combined.Keys
      invariant forall key :: key in sum ==>
        sum[key] == combined[key] + (if key in update && key !in todo then update[key] else 0.0)
      decreases todo
    {
      var key :| key in todo;
      if key !in sum {
        return Failure(KeyError);
      }
      sum := sum[key := sum[key] + update[key]];
      todo := todo - {key};
    }
    return Success(sum);
  }

  /** `for key in combined: combined[key] /= n`. */
  method DivideAll(combined: State, n: real) returns (r: State)
    requires n != 0.0
    ensures r.Keys == combined.Keys
    ensures forall key :: key in r ==> r[key] == combined[key] / n
  {
    r := combined;
    var todo := r.Keys;
    while todo != {}
      invariant r.Keys == combined.Keys && todo <= r.Keys
      invariant forall key :: key in todo ==> r[key] == combined[key]
      invariant forall key :: key in r && key !in todo ==> r[key] == combined[key] / n
      decreases todo
    {
      var key :| key in todo;
      r := r[key := r[key] / n];
      todo := todo - {key};
    }
  }

  /** The draft's result is the plain mean shifted by base / n, so it is the mean only when the base is zero. */
  lemma CombinedMeanOffset(base: State, updates: seq<State>)
    requires |updates| > 0
    ensures forall key :: key in base ==>
      CombinedMean(base, updates)[key] == ServerTrainer.Mean(base, updates)[key] + base[key] / |updates| as real
    ensures CombinedMean(base, updates) == ServerTrainer.Mean(base, updates)
            <==> forall key :: key in base ==> base[key] == 0.0
  {
    var n := |updates| as real;
    forall key | key in base
      ensures CombinedMean(base, updates)[key] == ServerTrainer.Mean(base, updates)[key] + base[key] / n
    {
      assert (base[key] + Total(updates, key)) / n == Total(updates, key) / n + base[key] / n;
    }
    if CombinedMean(base, updates) == ServerTrainer.Mean(base, updates) {
      forall key | key in base ensures base[key] == 0.0 {
        assert CombinedMean(base, updates)[key] == ServerTrainer.Mean(base, updates)[key];
      }
    }
  }

  /** The draft's result does not depend on the order of the updates either. */
  lemma CombinedMeanOrderIndependent(base: State, us: seq<State>, vs: seq<State>)
    requires |us| > 0
    requires multiset(us) == multiset(vs)
    ensures |vs| == |us|
    ensures CombinedMean(base, us) == CombinedMean(base, vs)
  {
    assert |us| == |multiset(us)| == |multiset(vs)| == |vs|;
    forall key | key in base
      ensures CombinedMean(base, us)[key] == CombinedMean(base, vs)[key]
    {
      TotalPermutation(us, vs, key);
    }
  }

  /** `ML_Server`: holds the coordinator's model state. */
  class MLServer {
    var model: State

    /** `self.model = Net()`: the state of a newly built network. */
    constructor (initial: State)
      ensures model == initial
    {
      model := initial;
    }

    /**
      `update`: `load_state_dict` (strict). Entries present in `combined` are
      copied into the model; when the key sets differ the load then fails
      (`ok` is false), with the matching entries already copied.
     */
    method Update(combined: State) returns (ok: bool)
      modifies this
      ensures ok <==> combined.Keys == old(model).Keys
      ensures model.Keys == old(model).Keys
      ensures forall key :: key in model ==>
        model[key] == if key in combined then combined[key] else old(model)[key]
      ensures ok ==> model == combined
    {
      ok := combined.Keys == model.Keys;
      model := map key | key in model :: if key in combined then combined[key] else model[key];
    }
  }
}
