// The routing loop shared by the analysis views: value entries are visited
// in order, each one either appends a sample to the vector of a named
// signal or appends it to a parameter vector, and the first entry that
// cannot be routed ends the build.

module Gather {
  import opened Results

  /** Where one value entry goes. */
  datatype Dest<S, P> = ToSignal(key: string, sample: S) | ToParam(param: P)

  /** The name-keyed sample vectors and the parameter vector. */
  datatype Gathered<S, P> = Gathered(signals: map<string, seq<S>>, params: seq<P>)

  /** One step of the loop body: `signals.get_mut(key)` then push, or
      insert a fresh one-sample vector; or push onto the parameter. */
  function Add<S, P>(g: Gathered<S, P>, d: Dest<S, P>): Gathered<S, P>
  {
    match d
    case ToSignal(k, s) =>
      if k in g.signals then Gathered(g.signals[k := g.signals[k] + [s]], g.params)
      else Gathered(g.signals[k := [s]], g.params)
    case ToParam(p) => Gathered(g.signals, g.params + [p])
  }

  /** The loop over routed entries, in order; the first failure wins. */
  function Collect<S, P>(rs: seq<Result<Dest<S, P>>>): (r: Result<Gathered<S, P>>)
    ensures r.Ok? <==> forall i :: 0 <= i < |rs| ==> rs[i].Ok?
    ensures r.Fail? ==> exists i :: 0 <= i < |rs| && rs[i] == Fail(r.error) && forall j :: 0 <= j < i ==> rs[j].Ok?
    decreases |rs|
  {
    if |rs| == 0 then Ok(Gathered(map[], []))
    else
      var front := rs[..|rs| - 1];
      assert forall i :: 0 <= i < |front| ==> front[i] == rs[i];
      var g :- Collect(front);
      var d :- rs[|rs| - 1];
      Ok(Add(g, d))
  }

  /** The samples routed to `k`, in entry order: an independent filter. */
  function Bucket<S, P>(rs: seq<Result<Dest<S, P>>>, k: string): seq<S>
    decreases |rs|
  {
    if |rs| == 0 then []
    else (if rs[0].Ok? && rs[0].value.ToSignal? && rs[0].value.key == k then [rs[0].value.sample] else [])
         + Bucket(rs[1..], k)
  }

  /** The parameter samples, in entry order. */
  function Params<S, P>(rs: seq<Result<Dest<S, P>>>): seq<P>
    decreases |rs|
  {
    if |rs| == 0 then []
    else (if rs[0].Ok? && rs[0].value.ToParam? then [rs[0].value.param] else []) + Params(rs[1..])
  }

  /** Whether some entry is routed to signal `k`. */
  ghost predicate Routed<S, P>(rs: seq<Result<Dest<S, P>>>, k: string)
  {
    exists i :: 0 <= i < |rs| && rs[i].Ok? && rs[i].value.ToSignal? && rs[i].value.key == k
  }

  lemma {:induction false} BucketSnoc<S, P>(rs: seq<Result<Dest<S, P>>>, x: Result<Dest<S, P>>, k: string)
    ensures Bucket(rs + [x], k) == Bucket(rs, k) + Bucket([x], k)
    decreases |rs|
  {
    if |rs| > 0 {
      assert (rs + [x])[0] == rs[0] && (rs + [x])[1..] == rs[1..] + [x];
      BucketSnoc(rs[1..], x, k);
    } else {
      assert rs + [x] == [x];
    }
  }

  lemma {:induction false} ParamsSnoc<S, P>(rs: seq<Result<Dest<S, P>>>, x: Result<Dest<S, P>>)
    ensures Params(rs + [x]) == Params(rs) + Params([x])
    decreases |rs|
  {
    if |rs| > 0 {
      assert (rs + [x])[0] == rs[0] && (rs + [x])[1..] == rs[1..] + [x];
      ParamsSnoc(rs[1..], x);
    } else {
      assert rs + [x] == [x];
    }
  }

  /** A bucket is empty exactly when nothing is routed to its key. */
  lemma {:induction false} BucketEmpty<S, P>(rs: seq<Result<Dest<S, P>>>, k: string)
    ensures |Bucket(rs, k)| > 0 <==> Routed(rs, k)
    decreases |rs|
  {
    if |rs| > 0 {
      BucketEmpty(rs[1..], k);
      if Routed(rs[1..], k) {
        var i :| 0 <= i < |rs[1..]| && rs[1..][i].Ok? && rs[1..][i].value.ToSignal? && rs[1..][i].value.key == k;
        assert rs[i + 1] == rs[1..][i];
      }
      if Routed(rs, k) && !(rs[0].Ok? && rs[0].value.ToSignal? && rs[0].value.key == k) {
        var i :| 0 <= i < |rs| && rs[i].Ok? && rs[i].value.ToSignal? && rs[i].value.key == k;
        assert rs[1..][i - 1] == rs[i];
      }
    }
  }

  /** What the loop builds: a vector for exactly the keys something is
      routed to, holding those samples in entry order, and the parameter
      samples in entry order. */
  lemma {:induction false} CollectContents<S, P>(rs: seq<Result<Dest<S, P>>>)
    requires Collect(rs).Ok?
    ensures forall k :: k in Collect(rs).value.signals <==> Routed(rs, k)
    ensures forall k :: k in Collect(rs).value.signals ==> Collect(rs).value.signals[k] == Bucket(rs, k)
    ensures Collect(rs).value.params == Params(rs)
    decreases |rs|
  {
    if |rs| > 0 {
      var front := rs[..|rs| - 1];
      var x := rs[|rs| - 1];
      assert rs == front + [x];
      assert forall i :: 0 <= i < |front| ==> front[i] == rs[i];
      CollectContents(front);
      var g := Collect(front).value;
      assert Collect(rs).value == Add(g, x.value);
      ParamsSnoc(front, x);
      forall k
        ensures k in Collect(rs).value.signals <==> Routed(rs, k)
        ensures k in Collect(rs).value.signals ==> Collect(rs).value.signals[k] == Bucket(rs, k)
      {
        BucketSnoc(front, x, k);
        BucketEmpty(front, k);
        BucketEmpty(rs, k);
      }
    }
  }

  /** Every vector the loop builds holds at least one sample. */
  lemma NoEmptyVector<S, P>(rs: seq<Result<Dest<S, P>>>, k: string)
    requires Collect(rs).Ok? && k in Collect(rs).value.signals
    ensures |Collect(rs).value.signals[k]| > 0
  {
    CollectContents(rs);
    BucketEmpty(rs, k);
  }
}
