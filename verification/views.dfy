// The analysis views built from a decoded text-format file: a transient
// view (signals over time), an AC view (complex signals over frequency)
// and a DC view (an operating point, or signals over one swept parameter).
// Samples are of an opaque type `T`; the searches order them through a
// key function.

module Views {
  import opened Results
  import Keyed
  import Aliases
  import opened Gather
  import Search

  /** The samples of one value entry. */
  datatype Samples<T> = Real(reals: seq<T>) | Complex(pairs: seq<(T, T)>)

  /** One value entry: the signal it belongs to and its samples. */
  datatype Entry<T> = Entry(signal: string, values: Samples<T>)

  /** The parts of the text front end's tree the views read: the names of
      the swept parameters, the trace list and the value entries. */
  datatype Ast<T> = Ast(sweeps: seq<string>, traces: seq<Aliases.Trace>, values: seq<Entry<T>>)

  /** The first transient view reads entries whose samples are all real. */
  datatype StrictEntry<T> = StrictEntry(signal: string, values: seq<T>)
  datatype StrictAst<T> = StrictAst(traces: seq<Aliases.Trace>, values: seq<StrictEntry<T>>)

  datatype TransientData<T> = TransientData(signals: map<string, seq<T>>, time: string)
  datatype AcData<T> = AcData(signals: map<string, seq<(T, T)>>, freq: seq<T>)
  datatype OpData<T> = OpData(signals: map<string, T>)
  datatype SweepData<T> = SweepData(signals: map<string, seq<T>>, param: (string, seq<T>))
  datatype DcData<T> = Op(op: OpData<T>) | Sweep(sweep: SweepData<T>)

  const TIME: string := "time"
  const FREQ: string := "freq"

  /** The alias map a well-formed trace list describes. */
  function AliasesOf(ts: seq<Aliases.Trace>): Aliases.Aliases
    requires Aliases.AliasPairs(ts).Some?
  {
    Keyed.MapOf(Aliases.AliasPairs(ts).value)
  }

  /** The alias map with the time axis naming itself. */
  function TimeAliases(ts: seq<Aliases.Trace>): Aliases.Aliases
    requires Aliases.AliasPairs(ts).Some?
  {
    AliasesOf(ts)[TIME := TIME]
  }

  // ---------------------------------------------------------------------
  // src/parser/transient.rs

  /** One entry: exactly one sample, filed under its name's alias. */
  function StrictRoute<T>(gs: Aliases.Aliases, e: StrictEntry<T>): (r: Result<Dest<T, T>>)
    ensures r.Ok? <==> |e.values| == 1 && e.signal in gs
    ensures |e.values| != 1 ==> r == Fail(CountMismatch)
    ensures r.Ok? ==> r.value.ToSignal? && r.value.key == gs[e.signal] && r.value.sample == e.values[0]
  {
    if |e.values| != 1 then Fail(CountMismatch)
    else if e.signal !in gs then Fail(MissingKey)
    else Ok(ToSignal(gs[e.signal], e.values[0]))
  }

  function StrictRoutes<T>(gs: Aliases.Aliases, vs: seq<StrictEntry<T>>): (rs: seq<Result<Dest<T, T>>>)
    ensures |rs| == |vs| && forall i :: 0 <= i < |vs| ==> rs[i] == StrictRoute(gs, vs[i])
  {
    seq(|vs|, i requires 0 <= i < |vs| => StrictRoute(gs, vs[i]))
  }

  /** `TransientData::from_ast` of the first transient view: the trace
      list must be count-one groups each followed by its signal, no group
      may be named like the time axis, and every entry must route; then
      each alias holds its entries' samples in order. */
  function TransientStrict<T>(ast: StrictAst<T>): (r: Result<TransientData<T>>)
    ensures r.Ok? <==>
              && Aliases.StrictShape(ast.traces, 0) && Aliases.AliasPairs(ast.traces).Some?
              && TIME !in AliasesOf(ast.traces)
              && forall i :: 0 <= i < |ast.values| ==> StrictRoute(TimeAliases(ast.traces), ast.values[i]).Ok?
    ensures Aliases.StrictShape(ast.traces, 0) && Aliases.AliasPairs(ast.traces).Some? && TIME in AliasesOf(ast.traces)
            ==> r == Fail(DuplicateKey)
    ensures r.Ok? ==> r.value.time == TIME
    ensures r.Ok? ==>
              var rs := StrictRoutes(TimeAliases(ast.traces), ast.values);
              forall k :: (k in r.value.signals <==> Routed(rs, k))
                          && (k in r.value.signals ==> r.value.signals[k] == Bucket(rs, k))
  {
    var flat := Aliases.StrictFlatten(ast.traces, 0, map[]);
    if flat.Fail? then Fail(flat.error)
    else
      Aliases.StrictIsGeneral(ast.traces, 0, map[]);
      Aliases.FlattenFromStart(ast.traces);
      var groups := flat.value;
      if TIME in groups then Fail(DuplicateKey)
      else
        var rs := StrictRoutes(groups[TIME := TIME], ast.values);
        var g := Collect(rs);
        if g.Fail? then Fail(g.error)
        else
          CollectContents(rs);
          Ok(TransientData(g.value.signals, TIME))
  }

  // ---------------------------------------------------------------------
  // src/parser/analysis/transient.rs

  /** One entry: real, exactly one sample, filed under its name's alias. */
  function TransientRoute<T>(gs: Aliases.Aliases, e: Entry<T>): (r: Result<Dest<T, T>>)
    ensures r.Ok? <==> e.values.Real? && |e.values.reals| == 1 && e.signal in gs
    ensures e.values.Complex? ==> r == Fail(WrongVariant)
    ensures r.Ok? ==> r.value.ToSignal? && r.value.key == gs[e.signal] && r.value.sample == e.values.reals[0]
  {
    match e.values
    case Real(vs) =>
      if |vs| != 1 then Fail(CountMismatch)
      else if e.signal !in gs then Fail(MissingKey)
      else Ok(ToSignal(gs[e.signal], vs[0]))
    case Complex(_) => Fail(WrongVariant)
  }

  function TransientRoutes<T>(gs: Aliases.Aliases, vs: seq<Entry<T>>): (rs: seq<Result<Dest<T, T>>>)
    ensures |rs| == |vs| && forall i :: 0 <= i < |vs| ==> rs[i] == TransientRoute(gs, vs[i])
  {
    seq(|vs|, i requires 0 <= i < |vs| => TransientRoute(gs, vs[i]))
  }

  /** `TransientData::from_ast`: the trace list must split into groups and
      standalone signals, every entry must route through the alias map
      extended with `"time"`; each alias then holds its entries' samples in
      order, and no vector is empty. */
  function Transient<T>(ast: Ast<T>): (r: Result<TransientData<T>>)
    ensures r.Ok? <==>
              && Aliases.AliasPairs(ast.traces).Some?
              && forall i :: 0 <= i < |ast.values| ==> TransientRoute(TimeAliases(ast.traces), ast.values[i]).Ok?
    ensures r.Ok? ==> r.value.time == TIME
    ensures r.Ok? ==>
              var rs := TransientRoutes(TimeAliases(ast.traces), ast.values);
              forall k :: (k in r.value.signals <==> Routed(rs, k))
                          && (k in r.value.signals ==> r.value.signals[k] == Bucket(rs, k) && |r.value.signals[k]| > 0)
  {
    Aliases.FlattenFromStart(ast.traces);
    var groups :- Aliases.Flatten(ast.traces, 0, map[]);
    var rs := TransientRoutes(groups[TIME := TIME], ast.values);
    var g :- Collect(rs);
    CollectContents(rs);
    assert forall k :: k in g.signals ==> |g.signals[k]| > 0 by {
      forall k | k in g.signals ensures |g.signals[k]| > 0 { BucketEmpty(rs, k); }
    }
    Ok(TransientData(g.signals, TIME))
  }

  // ---------------------------------------------------------------------
  // src/parser/ac.rs

  /** One entry: `"freq"` entries are real and feed the frequency axis;
      every other entry is complex and is filed under its name's alias. */
  function AcRoute<T>(gs: Aliases.Aliases, e: Entry<T>): (r: Result<Dest<(T, T), T>>)
    ensures e.signal == FREQ ==> (r.Ok? <==> e.values.Real? && |e.values.reals| == 1)
    ensures e.signal == FREQ && r.Ok? ==> r == Ok(ToParam(e.values.reals[0]))
    ensures e.signal != FREQ ==> (r.Ok? <==> e.values.Complex? && |e.values.pairs| == 1 && e.signal in gs)
    ensures e.signal != FREQ && r.Ok? ==> r == Ok(ToSignal(gs[e.signal], e.values.pairs[0]))
    ensures (e.signal == FREQ) == e.values.Complex? ==> r == Fail(WrongVariant)
  {
    if e.signal == FREQ then
      match e.values
      case Real(vs) => if |vs| != 1 then Fail(CountMismatch) else Ok(ToParam(vs[0]))
      case Complex(_) => Fail(WrongVariant)
    else
      match e.values
      case Complex(ps) =>
        if |ps| != 1 then Fail(CountMismatch)
        else if e.signal !in gs then Fail(MissingKey)
        else Ok(ToSignal(gs[e.signal], ps[0]))
      case Real(_) => Fail(WrongVariant)
  }

  function AcRoutes<T>(gs: Aliases.Aliases, vs: seq<Entry<T>>): (rs: seq<Result<Dest<(T, T), T>>>)
    ensures |rs| == |vs| && forall i :: 0 <= i < |vs| ==> rs[i] == AcRoute(gs, vs[i])
  {
    seq(|vs|, i requires 0 <= i < |vs| => AcRoute(gs, vs[i]))
  }

  /** `AcData::from_ast`: the frequency axis is the `"freq"` entries'
      samples in order, and each alias holds its complex entries' samples
      in order. */
  function Ac<T>(ast: Ast<T>): (r: Result<AcData<T>>)
    ensures r.Ok? <==>
              && Aliases.AliasPairs(ast.traces).Some?
              && forall i :: 0 <= i < |ast.values| ==> AcRoute(AliasesOf(ast.traces), ast.values[i]).Ok?
    ensures r.Ok? ==>
              var rs := AcRoutes(AliasesOf(ast.traces), ast.values);
              && r.value.freq == Params(rs)
              && forall k :: (k in r.value.signals <==> Routed(rs, k))
                             && (k in r.value.signals ==> r.value.signals[k] == Bucket(rs, k))
  {
    Aliases.FlattenFromStart(ast.traces);
    var groups :- Aliases.Flatten(ast.traces, 0, map[]);
    var rs := AcRoutes(groups, ast.values);
    var g :- Collect(rs);
    CollectContents(rs);
    Ok(AcData(g.signals, g.params))
  }

  /** How many entries carry the name `name`. */
  function Occurrences<T>(vs: seq<Entry<T>>, name: string): nat
    decreases |vs|
  {
    if |vs| == 0 then 0 else (if vs[0].signal == name then 1 else 0) + Occurrences(vs[1..], name)
  }

  /** The frequency axis has one sample per `"freq"` entry, and those
      entries are never filed under a signal. */
  lemma {:induction false} FreqOnlyOnAxis<T>(gs: Aliases.Aliases, vs: seq<Entry<T>>)
    requires forall i :: 0 <= i < |vs| ==> AcRoute(gs, vs[i]).Ok?
    ensures |Params(AcRoutes(gs, vs))| == Occurrences(vs, FREQ)
    ensures forall i :: 0 <= i < |vs| && vs[i].signal == FREQ ==> AcRoutes(gs, vs)[i].value.ToParam?
    decreases |vs|
  {
    if |vs| > 0 {
      var rs := AcRoutes(gs, vs);
      assert rs[1..] == AcRoutes(gs, vs[1..]);
      assert forall i :: 0 <= i < |vs[1..]| ==> vs[1..][i] == vs[i + 1];
      FreqOnlyOnAxis(gs, vs[1..]);
    }
  }

  // ---------------------------------------------------------------------
  // src/parser/analysis/dc.rs

  /** The swept parameter: none without sweeps, the only sweep's name
      otherwise; more than one sweep fails the debug assertion. */
  function SweepVar(sweeps: seq<string>): (r: Result<Option<string>>)
    ensures r.Ok? <==> |sweeps| <= 1
    ensures r.Ok? ==> (r.value.None? <==> |sweeps| == 0)
    ensures r.Ok? && r.value.Some? ==> r.value.value == sweeps[0]
  {
    if |sweeps| == 0 then Ok(None)
    else if |sweeps| != 1 then Fail(CountMismatch)
    else Ok(Some(sweeps[0]))
  }

  /** One entry: real with one sample; the swept parameter's entries feed
      the parameter, every other entry is filed under its alias when it
      has one and under its own name otherwise. */
  function DcRoute<T>(gs: Aliases.Aliases, sweepvar: Option<string>, e: Entry<T>): (r: Result<Dest<T, T>>)
    ensures r.Ok? <==> e.values.Real? && |e.values.reals| == 1
    ensures e.values.Complex? ==> r == Fail(WrongVariant)
    ensures r.Ok? ==> (r.value.ToParam? <==> sweepvar == Some(e.signal))
    ensures r.Ok? && r.value.ToParam? ==> r.value.param == e.values.reals[0]
    ensures r.Ok? && r.value.ToSignal? ==>
              && r.value.key == (if e.signal in gs then gs[e.signal] else e.signal)
              && r.value.sample == e.values.reals[0]
  {
    match e.values
    case Real(vs) =>
      if |vs| != 1 then Fail(CountMismatch)
      else if sweepvar == Some(e.signal) then Ok(ToParam(vs[0]))
      else Ok(ToSignal(if e.signal in gs then gs[e.signal] else e.signal, vs[0]))
    case Complex(_) => Fail(WrongVariant)
  }

  function DcRoutes<T>(gs: Aliases.Aliases, sweepvar: Option<string>, vs: seq<Entry<T>>): (rs: seq<Result<Dest<T, T>>>)
    ensures |rs| == |vs| && forall i :: 0 <= i < |vs| ==> rs[i] == DcRoute(gs, sweepvar, vs[i])
  {
    seq(|vs|, i requires 0 <= i < |vs| => DcRoute(gs, sweepvar, vs[i]))
  }

  /** `DcData::from_ast`: a sweep view exactly when the file has a sweep,
      its parameter the sweep's name with that entry's samples in order;
      otherwise an operating point holding each signal's first sample. */
  function Dc<T>(ast: Ast<T>): (r: Result<DcData<T>>)
    ensures r.Ok? <==>
              && Aliases.AliasPairs(ast.traces).Some? && |ast.sweeps| <= 1
              && forall i :: 0 <= i < |ast.values| ==> ast.values[i].values.Real? && |ast.values[i].values.reals| == 1
    ensures r.Ok? ==> (r.value.Sweep? <==> |ast.sweeps| == 1)
    ensures r.Ok? && r.value.Sweep? ==>
              var rs := DcRoutes(AliasesOf(ast.traces), Some(ast.sweeps[0]), ast.values);
              && r.value.sweep.param == (ast.sweeps[0], Params(rs))
              && forall k :: (k in r.value.sweep.signals <==> Routed(rs, k))
                             && (k in r.value.sweep.signals ==> r.value.sweep.signals[k] == Bucket(rs, k))
    ensures r.Ok? && r.value.Op? ==>
              var rs := DcRoutes(AliasesOf(ast.traces), None, ast.values);
              forall k :: (k in r.value.op.signals <==> Routed(rs, k))
                          && (k in r.value.op.signals ==> |Bucket(rs, k)| > 0 && r.value.op.signals[k] == Bucket(rs, k)[0])
  {
    Aliases.FlattenFromStart(ast.traces);
    var groups :- Aliases.Flatten(ast.traces, 0, map[]);
    var sweepvar :- SweepVar(ast.sweeps);
    var rs := DcRoutes(groups, sweepvar, ast.values);
    var g :- Collect(rs);
    CollectContents(rs);
    assert forall k :: k in g.signals ==> |g.signals[k]| > 0 by {
      forall k | k in g.signals ensures |g.signals[k]| > 0 { BucketEmpty(rs, k); }
    }
    match sweepvar
    case Some(name) => Ok(Sweep(SweepData(g.signals, (name, g.params))))
    case None => Ok(Op(FirstSamples(g.signals)))
  }

  /** The operating point: each vector's first sample under the same key. */
  function FirstSamples<T>(signals: map<string, seq<T>>): (op: OpData<T>)
    requires forall k :: k in signals ==> |signals[k]| > 0
    ensures op.signals.Keys == signals.Keys
    ensures forall k :: k in signals ==> op.signals[k] == signals[k][0]
  {
    OpData(map k | k in signals :: signals[k][0])
  }

  // ---------------------------------------------------------------------
  // Accessors

  /** `signal(name)` of every view: the named vector (or value), or none. */
  function Lookup<V>(signals: map<string, V>, name: string): (r: Option<V>)
    ensures r.Some? <==> name in signals
    ensures r.Some? ==> r.value == signals[name]
  {
    if name in signals then Some(signals[name]) else None
  }

  /** The search keys of a sample vector. */
  function Keys<T>(vs: seq<T>, key: T -> int): (ks: seq<int>)
    ensures |ks| == |vs| && forall i :: 0 <= i < |vs| ==> ks[i] == key(vs[i])
  {
    seq(|vs|, i requires 0 <= i < |vs| => key(vs[i]))
  }

  /** `idx_before_time`: the time vector must exist (`unwrap`); on it, the
      index of the latest time at or before `t`. */
  method IdxBeforeTime<T>(d: TransientData<T>, t: T, key: T -> int) returns (r: Result<Option<nat>>)
    ensures r.Ok? <==> d.time in d.signals
    ensures r.Ok? && r.value.Some? ==>
              r.value.value < |d.signals[d.time]| && key(d.signals[d.time][r.value.value]) <= key(t)
    ensures r.Ok? && Search.Sorted(Keys(d.signals[d.time], key)) ==>
              r.value == Search.LastAtMost(Keys(d.signals[d.time], key), key(t))
  {
    var times := Lookup(d.signals, d.time);
    if times.None? {
      return Fail(MissingKey);
    }
    var i := Search.BinSearchBefore(Keys(times.value, key), key(t));
    r := Ok(i);
  }

  /** `idx_before_time` of the first transient view, which calls that
      module's own search as written: the time vector must exist; any
      index found holds a time at or before `t` and never lies past the
      latest such index, though it may fall short of it or the search may
      underflow. */
  function StrictIdxBeforeTime<T>(d: TransientData<T>, t: T, key: T -> int): (r: Result<Option<nat>>)
    ensures d.time !in d.signals ==> r == Fail(MissingKey)
    ensures d.time in d.signals && |d.signals[d.time]| == 0 ==> r == Ok(None)
    ensures r.Ok? && r.value.Some? ==>
              && d.time in d.signals
              && r.value.value < |d.signals[d.time]| && key(d.signals[d.time][r.value.value]) <= key(t)
              && Search.LastAtMost(Keys(d.signals[d.time], key), key(t)).Some?
              && r.value.value <= Search.LastAtMost(Keys(d.signals[d.time], key), key(t)).value
  {
    match Lookup(d.signals, d.time)
    case None => Fail(MissingKey)
    case Some(times) =>
      var ks := Keys(times, key);
      var r := Search.BinSearchBeforeAsWritten(ks, key(t));
      if r.Ok? && r.value.Some? then
        Search.AsWrittenNotPastIntended(ks, key(t));
        r
      else r
  }

  /** `idx_before_freq`: the index of the largest frequency at or before `f`. */
  method IdxBeforeFreq<T>(d: AcData<T>, f: T, key: T -> int) returns (r: Option<nat>)
    ensures r.Some? ==> r.value < |d.freq| && key(d.freq[r.value]) <= key(f)
    ensures Search.Sorted(Keys(d.freq, key)) ==> r == Search.LastAtMost(Keys(d.freq, key), key(f))
  {
    r := Search.BinSearchBefore(Keys(d.freq, key), key(f));
  }
}
