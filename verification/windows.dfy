/** The windowed value section (src/binary/mod.rs `PsfParser::parse_values`,
    `parse_zero_pad`).  Every leaf signal owns a slab of `window_size` bytes
    in each window; a window stores `window_count` samples of the sweep
    variable in front, then each signal's samples right-aligned in its
    slab, and the next window starts `num_traces * window_size` bytes
    later.  Windows are read until `sweep_points` samples have been seen. */
module Windows {
  import opened Results
  import opened Bytes
  import opened Records
  import Toc
  import Keyed
  import Sections

  /** The prolog word of the value section. */
  const VALUE_TAG: nat := 20
  /** `block_init & 0xffff` keeps the low sixteen bits. */
  const WINDOW_MASK: nat := 0x10000

  function WindowSizeKey(): Name { Ascii("PSF window size") }
  function TracesKey(): Name { Ascii("PSF traces") }
  function SweepPointsKey(): Name { Ascii("PSF sweep points") }

  datatype Samples = RealSamples(xs: seq<Float64>) | ComplexSamples(ps: seq<(Float64, Float64)>)

  type Values = map<TraceId, Samples>

  function Len(s: Samples): nat
  {
    match s
    case RealSamples(xs) => |xs|
    case ComplexSamples(ps) => |ps|
  }

  /** How many samples `vals` holds for `id`; none when it has no vector. */
  function Count(vals: Values, id: TraceId): nat
  {
    if id in vals then Len(vals[id]) else 0
  }

  /** The real vector `or_insert` finds (a fresh one when there is none). */
  function PriorReals(vals: Values, id: TraceId): seq<Float64>
  {
    if id in vals && vals[id].RealSamples? then vals[id].xs else []
  }

  function PriorPairs(vals: Values, id: TraceId): seq<(Float64, Float64)>
  {
    if id in vals && vals[id].ComplexSamples? then vals[id].ps else []
  }

  /** `header.get(key).unwrap().int()`. */
  function HeaderInt(header: map<Name, Value>, key: Name): (r: Result<int>)
    ensures r.Ok? <==> key in header && header[key].Int?
    ensures r.Ok? ==> r.value == header[key].i
  {
    if key !in header then Fail(MissingKey)
    else if !header[key].Int? then Fail(WrongVariant)
    else Ok(header[key].i)
  }

  // ---------------------------------------------------------------------
  // Slabs

  /** `s` is a member of one of the groups. */
  ghost predicate InSomeGroup(traces: seq<Trace>, s: SignalRef)
  {
    exists i :: 0 <= i < |traces| && traces[i].GroupTrace? && s in traces[i].group.signals
  }

  lemma InSomeGroupCons(traces: seq<Trace>, s: SignalRef)
    requires |traces| > 0 && traces[0].GroupTrace?
    ensures InSomeGroup(traces, s) <==> s in traces[0].group.signals || InSomeGroup(traces[1..], s)
  {
    if InSomeGroup(traces[1..], s) {
      var i :| 0 <= i < |traces[1..]| && traces[1..][i].GroupTrace? && s in traces[1..][i].group.signals;
      assert traces[i + 1] == traces[1..][i];
    }
    if InSomeGroup(traces, s) && s !in traces[0].group.signals {
      var i :| 0 <= i < |traces| && traces[i].GroupTrace? && s in traces[i].group.signals;
      assert traces[1..][i - 1] == traces[i];
    }
  }

  /** A group's members; none for a standalone signal. */
  function GroupSignals(t: Trace): seq<SignalRef>
  {
    if t.GroupTrace? then t.group.signals else []
  }

  /** The groups' members in group order, each group's in its own order:
      an independent definition that peels groups off the end. */
  function Members(traces: seq<Trace>): seq<SignalRef>
    decreases |traces|
  {
    if |traces| == 0 then []
    else Members(traces[..|traces| - 1]) + GroupSignals(traces[|traces| - 1])
  }

  /** Peeling the first group instead of the last gives the same members. */
  lemma {:induction false} MembersCons(traces: seq<Trace>)
    requires |traces| > 0
    ensures Members(traces) == GroupSignals(traces[0]) + Members(traces[1..])
    decreases |traces|
  {
    var n := |traces|;
    if n > 1 {
      var front := traces[..n - 1];
      MembersCons(front);
      assert front[0] == traces[0];
      assert front[1..] == traces[1..][..n - 2];
      assert traces[1..][n - 2] == traces[n - 1];
    } else {
      assert traces[..0] == [] && traces[1..] == [];
    }
  }

  /** The leaf signals, group by group (`trace.group().signals`); the
      accessor fails on a standalone signal. */
  function LeafSignals(traces: seq<Trace>): (r: Result<seq<SignalRef>>)
    ensures r.Ok? <==> forall i :: 0 <= i < |traces| ==> traces[i].GroupTrace?
    ensures r.Ok? ==> forall s :: s in r.value <==> InSomeGroup(traces, s)
    ensures r.Ok? ==> r.value == Members(traces)
    decreases |traces|
  {
    if |traces| == 0 then Ok([])
    else if !traces[0].GroupTrace? then Fail(WrongVariant)
    else
      var more :- LeafSignals(traces[1..]);
      MembersCons(traces);
      assert forall i :: 1 <= i < |traces| ==> traces[i] == traces[1..][i - 1];
      assert forall s :: InSomeGroup(traces, s) <==> s in traces[0].group.signals || InSomeGroup(traces[1..], s) by {
        forall s ensures InSomeGroup(traces, s) <==> s in traces[0].group.signals || InSomeGroup(traces[1..], s) {
          InSomeGroupCons(traces, s);
        }
      }
      Ok(traces[0].group.signals + more)
  }

  /** The offset loop: each leaf gets the running offset, which then grows
      by `ws32` as a `u32` and may not overflow. */
  function AssignOffsets(leaves: seq<SignalRef>, ws32: nat, ofs: nat): (r: Result<seq<(TraceId, nat)>>)
    ensures r.Ok? <==> |leaves| == 0 || ofs + |leaves| * ws32 < U32_LIMIT
    ensures r.Ok? ==> |r.value| == |leaves|
    ensures r.Ok? ==> forall k :: 0 <= k < |leaves| ==> r.value[k] == (leaves[k].id, ofs + k * ws32)
    decreases |leaves|
  {
    if |leaves| == 0 then Ok([])
    else if ofs + ws32 >= U32_LIMIT then
      assert ofs + |leaves| * ws32 >= ofs + ws32 by { MulAtLeast(|leaves|, ws32); }
      Fail(ArithmeticOverflow)
    else
      var more := AssignOffsets(leaves[1..], ws32, ofs + ws32);
      assert (|leaves| - 1) * ws32 + ws32 == |leaves| * ws32;
      if more.Fail? then Fail(more.error)
      else
        assert forall k :: 1 <= k < |leaves| ==> ofs + k * ws32 == ofs + ws32 + (k - 1) * ws32 by {
          forall k | 1 <= k < |leaves| ensures ofs + k * ws32 == ofs + ws32 + (k - 1) * ws32 {
            assert k * ws32 == (k - 1) * ws32 + ws32;
          }
        }
        Ok([(leaves[0].id, ofs)] + more.value)
  }

  lemma MulAtLeast(n: nat, w: nat)
    requires n >= 1
    ensures n * w >= w
  {
  }

  ghost predicate DistinctIds(leaves: seq<SignalRef>)
  {
    forall j, k :: 0 <= j < k < |leaves| ==> leaves[j].id != leaves[k].id
  }

  /** Leaf `k` owns the slab at `k * ws32` when no two leaves share an id. */
  lemma LeafOffsets(leaves: seq<SignalRef>, ws32: nat)
    requires DistinctIds(leaves) && AssignOffsets(leaves, ws32, 0).Ok?
    ensures var offsets := Keyed.MapOf(AssignOffsets(leaves, ws32, 0).value);
            forall k :: 0 <= k < |leaves| ==> leaves[k].id in offsets && offsets[leaves[k].id] == k * ws32
  {
    var ps := AssignOffsets(leaves, ws32, 0).value;
    Keyed.LastWins(ps);
    forall k | 0 <= k < |leaves|
      ensures leaves[k].id in Keyed.MapOf(ps) && Keyed.MapOf(ps)[leaves[k].id] == k * ws32
    {
      assert ps[k].0 == leaves[k].id;
      assert Keyed.LastFor(ps, leaves[k].id, k);
    }
  }

  /** `parse_zero_pad`: a length word, then that many bytes plus four more
      are skipped. */
  function SkipZeroPad(data: seq<u8>): (r: Result<seq<u8>>)
    ensures r.Ok? <==> |data| >= 4 && 8 + TagAt(data) <= |data|
    ensures r.Ok? ==> r.value == data[8 + TagAt(data)..]
  {
    var (len, d) :- ReadU32(data);
    Sections.Suffix(d, 4 + len)
  }

  // ---------------------------------------------------------------------
  // One window

  /** What one window's signal reads see: the bytes after the sweep
      samples, the sample count, the slab size as `u32`, the slab offsets,
      the type table and the sweep variable's name. */
  datatype Frame = Frame(buf: seq<u8>, wc: nat, ws32: nat, offsets: map<TraceId, nat>,
                         types: map<TypeId, TypeDef>, sweepName: Name)

  /** Where a signal's samples start: the end of its slab less the bytes
      they take, so that they sit right-aligned in it. */
  function SlabStart(f: Frame, id: TraceId): nat
    requires id in f.offsets && 8 * f.wc <= f.ws32
  {
    f.offsets[id] + (f.ws32 - 8 * f.wc)
  }

  /** A real signal's samples: the `wc` doubles from `start`, appended to
      its real vector; a complex vector under the same id fails the accessor. */
  function FillReal(f: Frame, id: TraceId, start: nat, vals: Values): (r: Result<Values>)
    requires start <= |f.buf|
    ensures r.Ok? <==> !(id in vals && vals[id].ComplexSamples?) && start + 8 * f.wc <= |f.buf|
    ensures r.Ok? ==> r.value == vals[id := RealSamples(PriorReals(vals, id) + DoublesFrom(f.buf, start, f.wc))]
  {
    if id in vals && vals[id].ComplexSamples? then Fail(WrongVariant)
    else
      ReadDoublesFrom(f.buf, start, f.wc);
      var (xs, _) :- ReadDoubles(f.buf[start..], f.wc);
      Ok(vals[id := RealSamples(PriorReals(vals, id) + xs)])
  }

  /** A complex signal's samples: the `wc` pairs from `start`. */
  function FillComplex(f: Frame, id: TraceId, start: nat, vals: Values): (r: Result<Values>)
    requires start <= |f.buf|
    ensures r.Ok? <==> !(id in vals && vals[id].RealSamples?) && start + 16 * f.wc <= |f.buf|
    ensures r.Ok? ==> r.value == vals[id := ComplexSamples(PriorPairs(vals, id) + PairsFrom(f.buf, start, f.wc))]
  {
    if id in vals && vals[id].RealSamples? then Fail(WrongVariant)
    else
      ReadPairsFrom(f.buf, start, f.wc);
      var (ps, _) :- ReadPairs(f.buf[start..], f.wc);
      Ok(vals[id := ComplexSamples(PriorPairs(vals, id) + ps)])
  }

  /** One signal's samples in one window: locate its slab, check its type
      and name, then read right-aligned in the slab. */
  function FillSignal(f: Frame, sig: SignalRef, vals: Values): (r: Result<Values>)
    ensures r.Ok? ==>
              && sig.id in f.offsets && 8 * f.wc <= f.ws32 && SlabStart(f, sig.id) < U32_LIMIT
              && sig.typeId in f.types && sig.name != f.sweepName && SlabStart(f, sig.id) <= |f.buf|
    ensures r.Ok? ==>
              && (f.types[sig.typeId].dataType == RealType ==> r == FillReal(f, sig.id, SlabStart(f, sig.id), vals))
              && (f.types[sig.typeId].dataType == ComplexType ==> r == FillComplex(f, sig.id, SlabStart(f, sig.id), vals))
              && f.types[sig.typeId].dataType in {RealType, ComplexType}
  {
    if sig.id !in f.offsets then Fail(MissingKey)
    else if f.ws32 < 8 * f.wc then Fail(ArithmeticOverflow)
    else
      var idx := SlabStart(f, sig.id);
      if idx >= U32_LIMIT then Fail(ArithmeticOverflow)
      else if sig.typeId !in f.types then Fail(MissingKey)
      else if idx > |f.buf| then Fail(OutOfBounds)
      else if sig.name == f.sweepName then Fail(SweepNameCollision)
      else
        match f.types[sig.typeId].dataType
        case RealType => FillReal(f, sig.id, idx, vals)
        case ComplexType => FillComplex(f, sig.id, idx, vals)
        case _ => Fail(UnsupportedDataType)
  }

  /** A signal's vector after one window holds its earlier samples and
      `wc` more, and nothing else in the map changes. */
  lemma FillSignalGrows(f: Frame, sig: SignalRef, vals: Values)
    requires FillSignal(f, sig, vals).Ok?
    ensures var r := FillSignal(f, sig, vals).value;
            && sig.id in r && r == vals[sig.id := r[sig.id]]
            && Count(r, sig.id) == Count(vals, sig.id) + f.wc
  {
  }

  function LeafIds(leaves: seq<SignalRef>): set<TraceId>
  {
    set k | 0 <= k < |leaves| :: leaves[k].id
  }

  /** Every leaf's samples of one window, in leaf order. */
  function FillSignals(f: Frame, leaves: seq<SignalRef>, vals: Values): (r: Result<Values>)
    ensures r.Ok? ==> vals.Keys <= r.value.Keys
    ensures r.Ok? ==> forall k :: 0 <= k < |leaves| ==> leaves[k].name != f.sweepName
    decreases |leaves|
  {
    if |leaves| == 0 then Ok(vals)
    else
      var v1 :- FillSignal(f, leaves[0], vals);
      FillSignalGrows(f, leaves[0], vals);
      var r :- FillSignals(f, leaves[1..], v1);
      assert forall k :: 1 <= k < |leaves| ==> leaves[k] == leaves[1..][k - 1];
      Ok(r)
  }

  /** Ids outside the leaves keep their vectors. */
  lemma {:induction false} FillSignalsKeeps(f: Frame, leaves: seq<SignalRef>, vals: Values, id: TraceId)
    requires FillSignals(f, leaves, vals).Ok? && id !in LeafIds(leaves)
    ensures var r := FillSignals(f, leaves, vals).value;
            (id in r <==> id in vals) && (id in vals ==> r[id] == vals[id])
    ensures Count(FillSignals(f, leaves, vals).value, id) == Count(vals, id)
    decreases |leaves|
  {
    if |leaves| > 0 {
      var v1 := FillSignal(f, leaves[0], vals).value;
      FillSignalGrows(f, leaves[0], vals);
      assert leaves[0].id in LeafIds(leaves);
      assert id !in LeafIds(leaves[1..]) by {
        forall k | 0 <= k < |leaves[1..]| ensures leaves[1..][k].id != id {
          assert leaves[1..][k] == leaves[k + 1];
          assert leaves[k + 1].id in LeafIds(leaves);
        }
      }
      FillSignalsKeeps(f, leaves[1..], v1, id);
    }
  }

  /** With distinct ids, one window adds `wc` samples to every leaf's vector. */
  lemma {:induction false} FillSignalsGrow(f: Frame, leaves: seq<SignalRef>, vals: Values)
    requires DistinctIds(leaves) && FillSignals(f, leaves, vals).Ok?
    ensures forall k :: 0 <= k < |leaves| ==>
              Count(FillSignals(f, leaves, vals).value, leaves[k].id) == Count(vals, leaves[k].id) + f.wc
    decreases |leaves|
  {
    if |leaves| > 0 {
      var v1 := FillSignal(f, leaves[0], vals).value;
      FillSignalGrows(f, leaves[0], vals);
      var r := FillSignals(f, leaves[1..], v1).value;
      assert DistinctIds(leaves[1..]) by {
        forall j, k | 0 <= j < k < |leaves[1..]| ensures leaves[1..][j].id != leaves[1..][k].id {
          assert leaves[1..][j] == leaves[j + 1] && leaves[1..][k] == leaves[k + 1];
        }
      }
      FillSignalsGrow(f, leaves[1..], v1);
      assert leaves[0].id !in LeafIds(leaves[1..]) by {
        forall k | 0 <= k < |leaves[1..]| ensures leaves[1..][k].id != leaves[0].id {
          assert leaves[1..][k] == leaves[k + 1];
        }
      }
      FillSignalsKeeps(f, leaves[1..], v1, leaves[0].id);
      forall k | 0 <= k < |leaves| ensures Count(r, leaves[k].id) == Count(vals, leaves[k].id) + f.wc {
        if k > 0 {
          assert leaves[k] == leaves[1..][k - 1];
        }
      }
    }
  }

  /** A signal's fill reads `vals` only at the signal's own id. */
  lemma FillSignalLocal(f: Frame, sig: SignalRef, v: Values, w: Values)
    requires (sig.id in v <==> sig.id in w) && (sig.id in v ==> v[sig.id] == w[sig.id])
    ensures FillSignal(f, sig, v).Ok? <==> FillSignal(f, sig, w).Ok?
    ensures FillSignal(f, sig, v).Ok? ==> FillSignal(f, sig, v).value[sig.id] == FillSignal(f, sig, w).value[sig.id]
  {
    assert PriorReals(v, sig.id) == PriorReals(w, sig.id);
    assert PriorPairs(v, sig.id) == PriorPairs(w, sig.id);
  }

  /** With distinct ids, each leaf's vector after the window is what filling
      that leaf alone would have made of it. */
  lemma {:induction false} FillSignalsContents(f: Frame, leaves: seq<SignalRef>, vals: Values)
    requires DistinctIds(leaves) && FillSignals(f, leaves, vals).Ok?
    ensures forall k :: 0 <= k < |leaves| ==>
              && FillSignal(f, leaves[k], vals).Ok?
              && leaves[k].id in FillSignals(f, leaves, vals).value
              && FillSignals(f, leaves, vals).value[leaves[k].id] == FillSignal(f, leaves[k], vals).value[leaves[k].id]
    decreases |leaves|
  {
    if |leaves| > 0 {
      var v1 := FillSignal(f, leaves[0], vals).value;
      FillSignalGrows(f, leaves[0], vals);
      var rest := leaves[1..];
      assert DistinctIds(rest) by {
        forall j, k | 0 <= j < k < |rest| ensures rest[j].id != rest[k].id {
          assert rest[j] == leaves[j + 1] && rest[k] == leaves[k + 1];
        }
      }
      FillSignalsContents(f, rest, v1);
      assert leaves[0].id !in LeafIds(rest) by {
        forall k | 0 <= k < |rest| ensures rest[k].id != leaves[0].id {
          assert rest[k] == leaves[k + 1];
        }
      }
      FillSignalsKeeps(f, rest, v1, leaves[0].id);
      forall k | 1 <= k < |leaves|
        ensures && FillSignal(f, leaves[k], vals).Ok?
                && leaves[k].id in FillSignals(f, leaves, vals).value
                && FillSignals(f, leaves, vals).value[leaves[k].id] == FillSignal(f, leaves[k], vals).value[leaves[k].id]
      {
        assert leaves[k] == rest[k - 1];
        assert leaves[k].id != leaves[0].id;
        FillSignalLocal(f, leaves[k], v1, vals);
      }
    }
  }

  // ---------------------------------------------------------------------
  // The window loop

  /** The decoder's inputs that stay fixed across windows. */
  datatype Layout = Layout(windowSize: int, numTraces: int, sweepPoints: int, sweeps: seq<SignalRef>,
                           leaves: seq<SignalRef>, offsets: map<TraceId, nat>, types: map<TypeId, TypeDef>)

  /** `num_traces * window_size`: how far apart consecutive windows start. */
  function Stride(l: Layout): int
  {
    l.numTraces * l.windowSize
  }

  /** `window_size as u32`. */
  function Ws32(l: Layout): nat
  {
    l.windowSize % U32_LIMIT
  }

  /** One pass of the loop body: the count word, the sweep samples, every
      leaf's samples, then the cursor moved past all slabs.  The result is
      the values, the rest of the data and the window's sample count. */
  function ReadWindow(l: Layout, data: seq<u8>, vals: Values): (r: Result<(Values, seq<u8>, nat)>)
    ensures r.Ok? ==> |data| >= 4 && r.value.2 == TagAt(data) % WINDOW_MASK && |l.sweeps| > 0
    ensures r.Ok? ==> |r.value.1| < |data| && vals.Keys <= r.value.0.Keys
    ensures r.Ok? ==> 0 <= Stride(l) && 4 + 8 * r.value.2 + Stride(l) <= |data|
                      && r.value.1 == data[4 + 8 * r.value.2 + Stride(l)..]
    ensures r.Ok? && l.sweeps[0].id !in LeafIds(l.leaves) ==>
              && l.sweeps[0].id in r.value.0
              && r.value.0[l.sweeps[0].id] == RealSamples(PriorReals(vals, l.sweeps[0].id) + DoublesFrom(data, 4, r.value.2))
  {
    var (init, d1) :- ReadU32(data);
    var wc := init % WINDOW_MASK;
    if |l.sweeps| == 0 then Fail(OutOfBounds)
    else
      var sweep := l.sweeps[0];
      var (v1, d2) :- SweepSamples(data, wc, vals, sweep.id);
      var f := Frame(d2, wc, Ws32(l), l.offsets, l.types, sweep.name);
      var v2 :- FillSignals(f, l.leaves, v1);
      SweepKept(f, l.leaves, v1, sweep.id);
      var rest :- SkipSlabs(d2, Stride(l));
      Ok((v2, rest, wc))
  }

  /** `&data[(num_traces * window_size) as usize..]`: the product must fit
      an `i64`, and a negative one wraps past the end as `usize`. */
  function SkipSlabs(data: seq<u8>, stride: int): (r: Result<seq<u8>>)
    ensures r.Ok? <==> 0 <= stride <= |data| && stride < I64_LIMIT
    ensures r.Ok? ==> r.value == data[stride..]
  {
    if !(-I64_LIMIT <= stride < I64_LIMIT) then Fail(ArithmeticOverflow)
    else if stride < 0 || stride > |data| then Fail(OutOfBounds)
    else Ok(data[stride..])
  }

  /** The sweep samples of a window: the `wc` doubles after the count word,
      appended to the sweep's real vector. */
  function SweepSamples(data: seq<u8>, wc: nat, vals: Values, id: TraceId): (r: Result<(Values, seq<u8>)>)
    requires |data| >= 4
    ensures r.Ok? <==> !(id in vals && vals[id].ComplexSamples?) && 4 + 8 * wc <= |data|
    ensures r.Ok? ==> && r.value.0 == vals[id := RealSamples(PriorReals(vals, id) + DoublesFrom(data, 4, wc))]
                      && r.value.1 == data[4 + 8 * wc..]
  {
    if id in vals && vals[id].ComplexSamples? then Fail(WrongVariant)
    else
      ReadDoublesFrom(data, 4, wc);
      var (xs, d2) :- ReadDoubles(data[4..], wc);
      Ok((vals[id := RealSamples(PriorReals(vals, id) + xs)], d2))
  }

  lemma SweepKept(f: Frame, leaves: seq<SignalRef>, vals: Values, id: TraceId)
    requires FillSignals(f, leaves, vals).Ok?
    ensures id !in LeafIds(leaves) && id in vals ==>
              id in FillSignals(f, leaves, vals).value && FillSignals(f, leaves, vals).value[id] == vals[id]
  {
    if id !in LeafIds(leaves) {
      FillSignalsKeeps(f, leaves, vals, id);
    }
  }

  /** No two leaves share an id, and the sweep variable's id is not a leaf's. */
  ghost predicate SeparateIds(l: Layout)
  {
    DistinctIds(l.leaves) && (|l.sweeps| > 0 ==> l.sweeps[0].id !in LeafIds(l.leaves))
  }

  /** One window adds its sample count to the sweep vector and to every
      leaf's, when the ids are separate. */
  lemma WindowGrows(l: Layout, data: seq<u8>, vals: Values)
    requires ReadWindow(l, data, vals).Ok?
    ensures var w := ReadWindow(l, data, vals).value;
            SeparateIds(l) ==>
              forall k :: 0 <= k < |l.leaves| ==> Count(w.0, l.leaves[k].id) == Count(vals, l.leaves[k].id) + w.2
    ensures var w := ReadWindow(l, data, vals).value;
            SeparateIds(l) ==> Count(w.0, l.sweeps[0].id) == Count(vals, l.sweeps[0].id) + w.2
  {
    if SeparateIds(l) {
      var wc := TagAt(data) % WINDOW_MASK;
      var sweep := l.sweeps[0];
      var (v1, d2) := SweepSamples(data, wc, vals, sweep.id).value;
      var f := Frame(d2, wc, Ws32(l), l.offsets, l.types, sweep.name);
      FillSignalsGrow(f, l.leaves, v1);
      FillSignalsKeeps(f, l.leaves, v1, sweep.id);
      forall k | 0 <= k < |l.leaves| ensures Count(v1, l.leaves[k].id) == Count(vals, l.leaves[k].id) {
        assert l.leaves[k].id in LeafIds(l.leaves);
      }
    }
  }

  /** The frame the leaves of a window are read from: the bytes after the
      window's `wc` sweep samples. */
  function WindowFrame(l: Layout, data: seq<u8>, wc: nat): Frame
    requires |l.sweeps| > 0 && 4 + 8 * wc <= |data|
  {
    Frame(data[4 + 8 * wc..], wc, Ws32(l), l.offsets, l.types, l.sweeps[0].name)
  }

  /** What one window appends to each leaf, with separate ids: its `wc`
      samples read right-aligned in its slab, doubles for a real signal and
      pairs for a complex one. */
  lemma WindowContents(l: Layout, data: seq<u8>, vals: Values)
    requires ReadWindow(l, data, vals).Ok? && SeparateIds(l)
    ensures var w := ReadWindow(l, data, vals).value;
            var f := WindowFrame(l, data, w.2);
            forall k :: 0 <= k < |l.leaves| ==>
              var sig := l.leaves[k];
              && sig.id in f.offsets && 8 * f.wc <= f.ws32 && sig.typeId in f.types
              && SlabStart(f, sig.id) <= |f.buf| && sig.id in w.0
              && f.types[sig.typeId].dataType in {RealType, ComplexType}
              && (f.types[sig.typeId].dataType == RealType ==>
                    && SlabStart(f, sig.id) + 8 * f.wc <= |f.buf|
                    && w.0[sig.id] == RealSamples(PriorReals(vals, sig.id) + DoublesFrom(f.buf, SlabStart(f, sig.id), f.wc)))
              && (f.types[sig.typeId].dataType == ComplexType ==>
                    && SlabStart(f, sig.id) + 16 * f.wc <= |f.buf|
                    && w.0[sig.id] == ComplexSamples(PriorPairs(vals, sig.id) + PairsFrom(f.buf, SlabStart(f, sig.id), f.wc)))
  {
    var w := ReadWindow(l, data, vals).value;
    var wc := w.2;
    var sweep := l.sweeps[0];
    var v1 := SweepSamples(data, wc, vals, sweep.id).value.0;
    var f := WindowFrame(l, data, wc);
    assert w.0 == FillSignals(f, l.leaves, v1).value;
    FillSignalsContents(f, l.leaves, v1);
    forall k | 0 <= k < |l.leaves|
      ensures PriorReals(v1, l.leaves[k].id) == PriorReals(vals, l.leaves[k].id)
      ensures PriorPairs(v1, l.leaves[k].id) == PriorPairs(vals, l.leaves[k].id)
    {
      assert l.leaves[k].id in LeafIds(l.leaves);
    }
  }

  /** `while count < sweep_points`; the result is the values and the final
      count.  With separate ids, the sweep vector and every leaf's vector
      grow by the same number of samples: the final count less the initial
      one. */
  function ReadWindows(l: Layout, data: seq<u8>, vals: Values, count: int): (r: Result<(Values, int)>)
    ensures count >= l.sweepPoints ==> r == Ok((vals, count))
    ensures r.Ok? ==> r.value.1 >= l.sweepPoints && r.value.1 >= count
    ensures r.Ok? && count < l.sweepPoints ==> r.value.1 < l.sweepPoints + WINDOW_MASK && |l.sweeps| > 0
    ensures r.Ok? ==> vals.Keys <= r.value.0.Keys
    ensures r.Ok? && SeparateIds(l) ==>
              forall k :: 0 <= k < |l.leaves| ==>
                Count(r.value.0, l.leaves[k].id) == Count(vals, l.leaves[k].id) + (r.value.1 - count)
    ensures r.Ok? && SeparateIds(l) && |l.sweeps| > 0 ==>
              Count(r.value.0, l.sweeps[0].id) == Count(vals, l.sweeps[0].id) + (r.value.1 - count)
    decreases |data|
  {
    if count >= l.sweepPoints then Ok((vals, count))
    else
      var (v, rest, wc) :- ReadWindow(l, data, vals);
      WindowGrows(l, data, vals);
      if count + wc >= I64_LIMIT then Fail(ArithmeticOverflow)
      else ReadWindows(l, rest, v, count + wc)
  }

  // ---------------------------------------------------------------------
  // The section

  /** No two leaves share an id, and the sweep variable is not a leaf. */
  ghost predicate Separate(sweep: SignalRef, leaves: seq<SignalRef>)
  {
    DistinctIds(leaves) && sweep.id !in LeafIds(leaves)
  }

  /** Every leaf's vector is as long as the sweep vector. */
  ghost predicate Aligned(vals: Values, sweep: SignalRef, leaves: seq<SignalRef>)
  {
    forall k :: 0 <= k < |leaves| ==> Count(vals, leaves[k].id) == Count(vals, sweep.id)
  }

  /** `parse_values`: check the layout, find the section, read the control
      words, lay out the slabs, check the prolog, skip the padding and run
      the window loop from a count of zero. */
  function ParseValues(file: seq<u8>, toc: Toc.Table, header: map<Name, Value>, types: map<TypeId, TypeDef>,
                       sweeps: seq<SignalRef>, traces: seq<Trace>): (r: Result<Values>)
    ensures WindowSizeKey() !in header ==> r == Fail(UnsupportedLayout)
    ensures r.Ok? ==> Toc.ValueSection in toc && LeafSignals(traces).Ok? && HeaderInt(header, SweepPointsKey()).Ok?
    ensures r.Ok? && HeaderInt(header, SweepPointsKey()).value > 0 ==> |sweeps| > 0
    ensures r.Ok? && |sweeps| > 0 && Separate(sweeps[0], LeafSignals(traces).value) ==>
              && Count(r.value, sweeps[0].id) >= HeaderInt(header, SweepPointsKey()).value
              && Aligned(r.value, sweeps[0], LeafSignals(traces).value)
  {
    if WindowSizeKey() !in header then Fail(UnsupportedLayout)
    else if Toc.ValueSection !in toc then Fail(MissingKey)
    else
      var d :- Sections.Suffix(file, toc[Toc.ValueSection].start + 4);
      var (_, d1) :- ReadU32(d);
      var ws :- HeaderInt(header, WindowSizeKey());
      var nt :- HeaderInt(header, TracesKey());
      var sp :- HeaderInt(header, SweepPointsKey());
      var leaves :- LeafSignals(traces);
      var slabs :- AssignOffsets(leaves, ws % U32_LIMIT, 0);
      var (tag, d2) :- ReadU32(d1);
      if tag != VALUE_TAG then Fail(UnexpectedTag(VALUE_TAG, tag))
      else
        var d3 :- SkipZeroPad(d2);
        var l := Layout(ws, nt, sp, sweeps, leaves, Keyed.MapOf(slabs), types);
        var (vals, _) :- ReadWindows(l, d3, map[], 0);
        Ok(vals)
  }
}
