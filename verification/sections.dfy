/** The four record sections of a binary PSF file (src/binary/mod.rs
    `parse_header`, `parse_types`, `parse_sweeps`, `parse_traces`).  Each
    section starts with a word pair and the offset where its records end;
    the records are read while more than four bytes remain. */
module Sections {
  import opened Results
  import opened Bytes
  import opened Records
  import Toc
  import Keyed

  /** The prolog word of the types and traces sections. */
  const SECTION_TAG: nat := 22

  /** `&file[from..]`, which panics when `from` is past the end. */
  function Suffix(file: seq<u8>, from: nat): (r: Result<seq<u8>>)
    ensures r.Ok? <==> from <= |file|
    ensures r.Ok? ==> r.value == file[from..]
  {
    if from <= |file| then Ok(file[from..]) else Fail(OutOfBounds)
  }

  /** `&file[from..to]`, which panics unless `from <= to <= |file|`. */
  function Slice(file: seq<u8>, from: nat, to: nat): (r: Result<seq<u8>>)
    ensures r.Ok? <==> from <= to <= |file|
    ensures r.Ok? ==> r.value == file[from..to]
  {
    if from <= to <= |file| then Ok(file[from..to]) else Fail(OutOfBounds)
  }

  /** The records of a header or sweep section: the word at `start + 4`
      is the end offset, and the records run from `start + 8` up to it. */
  function PlainBody(file: seq<u8>, entry: Toc.TocEntry): (r: Result<seq<u8>>)
    ensures r.Ok? <==>
              && entry.start + 8 <= |file|
              && entry.start + 8 <= TagAt(file[entry.start + 4..]) <= |file|
    ensures r.Ok? ==> r.value == file[entry.start + 8..TagAt(file[entry.start + 4..])]
  {
    var d :- Suffix(file, entry.start + 4);
    var (eofs, _) :- ReadU32(d);
    Slice(file, entry.start + 8, eofs)
  }

  /** The records of a types or traces section: word 22 at `start + 8`,
      the end offset after it, and the records from `start + 16` up to it. */
  function TaggedBody(file: seq<u8>, entry: Toc.TocEntry): (r: Result<seq<u8>>)
    ensures r.Ok? <==>
              && entry.start + 16 <= |file|
              && TagAt(file[entry.start + 8..]) == SECTION_TAG
              && entry.start + 16 <= TagAt(file[entry.start + 12..]) <= |file|
    ensures r.Ok? ==> r.value == file[entry.start + 16..TagAt(file[entry.start + 12..])]
  {
    var d :- Suffix(file, entry.start + 8);
    var (tag, d1) :- ReadU32(d);
    if tag != SECTION_TAG then Fail(UnexpectedTag(SECTION_TAG, tag))
    else
      var (eofs, _) :- ReadU32(d1);
      assert d1[..4] == file[entry.start + 12..][..4];
      Slice(file, entry.start + 16, eofs)
  }

  // ---------------------------------------------------------------------
  // The `while data.len() > 4` loops

  function NamedValueList(data: seq<u8>): (r: Result<seq<NamedValue>>)
    ensures |data| <= 4 ==> r == Ok([])
    ensures r.Ok? ==> forall i :: 0 <= i < |r.value| ==> !r.value[i].value.NaN?
    decreases |data|
  {
    if |data| <= 4 then Ok([])
    else
      var (nv, rest) :- ParseNamedValue(data);
      var more :- NamedValueList(rest);
      Ok([nv] + more)
  }

  function TypeList(data: seq<u8>): (r: Result<seq<TypeDef>>)
    ensures |data| <= 4 ==> r == Ok([])
    decreases |data|
  {
    if |data| <= 4 then Ok([])
    else
      var (t, rest) :- ParseTypeItem(data);
      var more :- TypeList(rest);
      Ok([t] + more)
  }

  /** Sweep items carry the signal tag and then a signal reference. */
  function SweepList(data: seq<u8>): (r: Result<seq<SignalRef>>)
    ensures |data| <= 4 ==> r == Ok([])
    ensures |data| > 4 && TagAt(data) != SIGNAL_TAG ==> r.Fail?
    decreases |data|
  {
    if |data| <= 4 then Ok([])
    else
      // the loop guard leaves the tag word in place
      var tag := TagAt(data);
      if tag != SIGNAL_TAG then Fail(UnexpectedTag(SIGNAL_TAG, tag))
      else
        var (s, d2) :- ParseSignalRef(data[4..]);
        var more :- SweepList(d2);
        Ok([s] + more)
  }

  function TraceList(data: seq<u8>): (r: Result<seq<Trace>>)
    ensures |data| <= 4 ==> r == Ok([])
    ensures r.Ok? ==> forall i :: 0 <= i < |r.value| && r.value[i].GroupTrace? ==>
                        |r.value[i].group.signals| == r.value[i].group.count
    decreases |data|
  {
    if |data| <= 4 then Ok([])
    else
      var (t, rest) :- ParseTraceItem(data);
      var more :- TraceList(rest);
      Ok([t] + more)
  }

  // ---------------------------------------------------------------------
  // Sections

  /** The header's records, in file order. */
  function HeaderRecords(file: seq<u8>, entry: Toc.TocEntry): Result<seq<NamedValue>>
  {
    var body :- PlainBody(file, entry);
    NamedValueList(body)
  }

  function Entries(rs: seq<NamedValue>): (ps: seq<(Name, Value)>)
    ensures |ps| == |rs| && forall i :: 0 <= i < |rs| ==> ps[i] == (rs[i].name, rs[i].value)
  {
    seq(|rs|, i requires 0 <= i < |rs| => (rs[i].name, rs[i].value))
  }

  /** `parse_header`: the records inserted into a map in file order. */
  function ParseHeader(file: seq<u8>, entry: Toc.TocEntry): (r: Result<map<Name, Value>>)
    ensures r.Ok? <==> HeaderRecords(file, entry).Ok?
  {
    var rs :- HeaderRecords(file, entry);
    Ok(Keyed.MapOf(Entries(rs)))
  }

  /** The header holds exactly the names that occur, each with the value of
      its last record: a later duplicate overwrites an earlier one. */
  lemma HeaderLastWins(file: seq<u8>, entry: Toc.TocEntry)
    requires HeaderRecords(file, entry).Ok?
    ensures var rs := HeaderRecords(file, entry).value;
            var h := ParseHeader(file, entry).value;
            && (forall k :: k in h <==> exists i :: 0 <= i < |rs| && rs[i].name == k)
            && (forall k, i ::
                  (0 <= i < |rs| && rs[i].name == k && forall j :: i < j < |rs| ==> rs[j].name != k)
                  ==> h[k] == rs[i].value)
  {
    var rs := HeaderRecords(file, entry).value;
    var ps := Entries(rs);
    Keyed.LastWins(ps);
    forall k | k in ParseHeader(file, entry).value
      ensures exists i :: 0 <= i < |rs| && rs[i].name == k
    {
      var i :| 0 <= i < |ps| && ps[i].0 == k;
      assert rs[i].name == k;
    }
    forall k, i | 0 <= i < |rs| && rs[i].name == k && (forall j :: i < j < |rs| ==> rs[j].name != k)
      ensures ParseHeader(file, entry).value[k] == rs[i].value
    {
      assert Keyed.LastFor(ps, k, i);
    }
  }

  function TypeEntries(ts: seq<TypeDef>): (ps: seq<(TypeId, TypeDef)>)
    ensures |ps| == |ts| && forall i :: 0 <= i < |ts| ==> ps[i] == (ts[i].id, ts[i])
  {
    seq(|ts|, i requires 0 <= i < |ts| => (ts[i].id, ts[i]))
  }

  /** `parse_types`: definitions keyed by their own id. */
  function ParseTypes(file: seq<u8>, entry: Toc.TocEntry): (r: Result<map<TypeId, TypeDef>>)
    ensures r.Ok? ==> TaggedBody(file, entry).Ok? && TypeList(TaggedBody(file, entry).value).Ok?
    ensures r.Ok? ==>
              var ts := TypeList(TaggedBody(file, entry).value).value;
              && (forall id :: id in r.value <==> exists i :: 0 <= i < |ts| && ts[i].id == id)
              && (forall id :: id in r.value ==> r.value[id].id == id)
  {
    var body :- TaggedBody(file, entry);
    var ts :- TypeList(body);
    var ps := TypeEntries(ts);
    Keyed.LastWins(ps);
    Keyed.MapOfAll(ps, (id: TypeId, t: TypeDef) => t.id == id);
    Ok(Keyed.MapOf(ps))
  }

  /** Each id holds the last definition decoded with that id: a later
      duplicate overwrites an earlier one. */
  lemma TypesLastWins(file: seq<u8>, entry: Toc.TocEntry)
    requires ParseTypes(file, entry).Ok?
    ensures var ts := TypeList(TaggedBody(file, entry).value).value;
            var m := ParseTypes(file, entry).value;
            forall id, i ::
              (0 <= i < |ts| && ts[i].id == id && forall j :: i < j < |ts| ==> ts[j].id != id)
              ==> id in m && m[id] == ts[i]
  {
    var ts := TypeList(TaggedBody(file, entry).value).value;
    var ps := TypeEntries(ts);
    assert ParseTypes(file, entry).value == Keyed.MapOf(ps);
    Keyed.LastWins(ps);
    forall id, i | 0 <= i < |ts| && ts[i].id == id && (forall j :: i < j < |ts| ==> ts[j].id != id)
      ensures id in Keyed.MapOf(ps) && Keyed.MapOf(ps)[id] == ts[i]
    {
      assert Keyed.LastFor(ps, id, i);
    }
  }

  /** `parse_sweeps`: the sweep signals, in file order. */
  function ParseSweeps(file: seq<u8>, entry: Toc.TocEntry): (r: Result<seq<SignalRef>>)
    ensures r.Ok? ==> PlainBody(file, entry).Ok?
    ensures PlainBody(file, entry).Ok? && |PlainBody(file, entry).value| <= 4 ==> r == Ok([])
    ensures (PlainBody(file, entry).Ok? && |PlainBody(file, entry).value| > 4
             && TagAt(PlainBody(file, entry).value) != SIGNAL_TAG) ==> r.Fail?
  {
    var body :- PlainBody(file, entry);
    SweepList(body)
  }

  /** `parse_traces`: the trace entries, in file order. */
  function ParseTraces(file: seq<u8>, entry: Toc.TocEntry): (r: Result<seq<Trace>>)
    ensures r.Ok? ==> forall i :: 0 <= i < |r.value| && r.value[i].GroupTrace? ==>
                        |r.value[i].group.signals| == r.value[i].group.count
  {
    var body :- TaggedBody(file, entry);
    TraceList(body)
  }

  // ---------------------------------------------------------------------
  // The loops read back what was written; four or fewer trailing bytes
  // are left alone.

  ghost predicate WfTypeDefs(ts: seq<TypeDef>)
  {
    forall i :: 0 <= i < |ts| ==> WfTypeDef(ts[i])
  }

  function EmitTypeDefs(ts: seq<TypeDef>, tail: seq<u8>): seq<u8>
    requires WfTypeDefs(ts)
  {
    if |ts| == 0 then tail else EmitTypeDef(ts[0], EmitTypeDefs(ts[1..], tail))
  }

  ghost predicate WfTraces(ts: seq<Trace>)
  {
    forall i :: 0 <= i < |ts| ==> WfTrace(ts[i])
  }

  function EmitTraces(ts: seq<Trace>, tail: seq<u8>): seq<u8>
    requires WfTraces(ts)
  {
    if |ts| == 0 then tail else EmitTrace(ts[0], EmitTraces(ts[1..], tail))
  }

  lemma {:induction false} NamedValueListRoundTrip(nvs: seq<NamedValue>, tail: seq<u8>)
    requires WfProperties(nvs) && |tail| <= 4
    ensures NamedValueList(EmitProperties(nvs, tail)) == Ok(nvs)
    decreases |nvs|
  {
    if |nvs| > 0 {
      var rest := EmitProperties(nvs[1..], tail);
      AtPropertyOfEmitted(nvs[0], rest);
      NamedValueRoundTrip(nvs[0], rest);
      NamedValueListRoundTrip(nvs[1..], tail);
      HeadTail(nvs);
    }
  }

  /** One step of the types loop: a definition, then whatever the loop makes of the rest. */
  lemma TypeListCons(t: TypeDef, rest: seq<u8>, more: seq<TypeDef>, data: seq<u8>)
    requires WfTypeDef(t) && !AtProperty(rest) && TypeList(rest) == Ok(more)
    requires data == EmitTypeDef(t, rest)
    ensures TypeList(data) == Ok([t] + more)
  {
    TypeDefRoundTrip(t, rest);
  }

  /** Encoded definitions, or four bytes or fewer, end a property list. */
  lemma TypeDefsStop(ts: seq<TypeDef>, tail: seq<u8>)
    requires WfTypeDefs(ts) && |tail| <= 4
    ensures !AtProperty(EmitTypeDefs(ts, tail))
  {
    if |ts| > 0 {
      TypeDefStops(ts[0], EmitTypeDefs(ts[1..], tail));
    }
  }

  /** The induction step of the types round trip, kept apart so that the
      loop's unfolding on encoded bytes is not repeated in the induction. */
  lemma TypeListStep(ts: seq<TypeDef>, tail: seq<u8>)
    requires |ts| > 0 && WfTypeDefs(ts) && |tail| <= 4
    requires WfTypeDefs(ts[1..]) && TypeList(EmitTypeDefs(ts[1..], tail)) == Ok(ts[1..])
    ensures TypeList(EmitTypeDefs(ts, tail)) == Ok(ts)
  {
    HeadTail(ts);
    var rest := EmitTypeDefs(ts[1..], tail);
    var data := EmitTypeDefs(ts, tail);
    assert data == EmitTypeDef(ts[0], rest);
    TypeDefsStop(ts[1..], tail);
    TypeListCons(ts[0], rest, ts[1..], data);
  }

  lemma {:induction false} TypeListRoundTrip(ts: seq<TypeDef>, tail: seq<u8>)
    requires WfTypeDefs(ts) && |tail| <= 4
    ensures TypeList(EmitTypeDefs(ts, tail)) == Ok(ts)
    decreases |ts|
  {
    if |ts| > 0 {
      assert WfTypeDefs(ts[1..]) by {
        forall i | 0 <= i < |ts[1..]| ensures WfTypeDef(ts[1..][i]) {
          assert ts[1..][i] == ts[i + 1];
        }
      }
      TypeListRoundTrip(ts[1..], tail);
      TypeListStep(ts, tail);
    }
  }

  lemma {:induction false} SweepListRoundTrip(ss: seq<SignalRef>, tail: seq<u8>)
    requires WfSignalRefs(ss) && |tail| <= 4
    ensures SweepList(EmitMembers(ss, tail)) == Ok(ss)
    decreases |ss|
  {
    if |ss| > 0 {
      Pow256Values();
      var rest := EmitMembers(ss[1..], tail);
      TagAtOf(SIGNAL_TAG, EmitSignalRef(ss[0], rest));
      assert (Word(SIGNAL_TAG) + EmitSignalRef(ss[0], rest))[4..] == EmitSignalRef(ss[0], rest);
      MembersStop(ss[1..], tail);
      SignalRefRoundTrip(ss[0], rest);
      SweepListRoundTrip(ss[1..], tail);
      HeadTail(ss);
    }
  }

  /** A trace entry starts with tag 16 or 17, which no property list
      continues on. */
  lemma TraceStops(t: Trace, rest: seq<u8>)
    requires WfTrace(t)
    ensures !AtProperty(EmitTrace(t, rest))
  {
    Pow256Values();
    match t {
      case SignalTrace(s) => NotAtProperty(SIGNAL_TAG, EmitSignalRef(s, rest));
      case GroupTrace(g) =>
        NotAtProperty(GROUP_TAG, Word(g.id.raw) + (EncodeString(g.name) + (Word(g.count) + EmitMembers(g.signals, rest))));
    }
  }

  /** Encoded trace entries, or four bytes or fewer, end a property list. */
  lemma TracesStop(ts: seq<Trace>, tail: seq<u8>)
    requires WfTraces(ts) && |tail| <= 4
    ensures !AtProperty(EmitTraces(ts, tail))
  {
    if |ts| > 0 {
      TraceStops(ts[0], EmitTraces(ts[1..], tail));
    }
  }

  /** One step of the traces loop: an entry, then whatever the loop makes of the rest. */
  lemma TraceListCons(t: Trace, rest: seq<u8>, more: seq<Trace>)
    requires WfTrace(t) && !AtProperty(rest) && TraceList(rest) == Ok(more)
    ensures TraceList(EmitTrace(t, rest)) == Ok([t] + more)
  {
    TraceRoundTrip(t, rest);
  }

  lemma {:induction false} TraceListRoundTrip(ts: seq<Trace>, tail: seq<u8>)
    requires WfTraces(ts) && |tail| <= 4
    ensures TraceList(EmitTraces(ts, tail)) == Ok(ts)
    decreases |ts|
  {
    if |ts| > 0 {
      var rest := EmitTraces(ts[1..], tail);
      assert WfTraces(ts[1..]) by {
        forall i | 0 <= i < |ts[1..]| ensures WfTrace(ts[1..][i]) {
          assert ts[1..][i] == ts[i + 1];
        }
      }
      TracesStop(ts[1..], tail);
      TraceListRoundTrip(ts[1..], tail);
      TraceListCons(ts[0], rest, ts[1..]);
      assert EmitTraces(ts, tail) == EmitTrace(ts[0], rest);
      HeadTail(ts);
    }
  }
}
