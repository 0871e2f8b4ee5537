// The binary decoder's driver: table of contents, then header, types,
// sweeps, traces and values, each section found through the table.

module Binary {
  import opened Results
  import opened Bytes
  import opened Records
  import Toc
  import Sections
  import Windows

  /** The decoded file. */
  datatype PsfAst = PsfAst(header: map<Name, Value>, types: map<TypeId, TypeDef>, sweeps: seq<SignalRef>,
                           traces: seq<Trace>, values: Windows.Values)

  /** `toc.section(kind)`: the range of a listed section; a section the
      directory does not list has no range. */
  function Section(toc: Toc.Table, kind: Toc.SectionKind): (r: Result<Toc.TocEntry>)
    ensures r.Ok? <==> kind in toc
    ensures r.Ok? ==> r.value == toc[kind]
  {
    if kind in toc then Ok(toc[kind]) else Fail(MissingKey)
  }

  /** `PsfParser::parse`: the six steps in order, the first failure ending
      the decode. */
  function Parse(file: seq<u8>): (r: Result<PsfAst>)
    ensures r.Ok? ==> Toc.ParseToc(file).Ok?
    ensures r.Ok? ==>
              var toc := Toc.ParseToc(file).value;
              && Toc.HeaderSection in toc && Toc.TypeSection in toc && Toc.SweepSection in toc
              && Toc.TraceSection in toc && Toc.ValueSection in toc
    ensures r.Ok? ==> Windows.WindowSizeKey() in r.value.header
    ensures r.Ok? ==> forall id :: id in r.value.types ==> r.value.types[id].id == id
    ensures r.Ok? ==> forall i :: 0 <= i < |r.value.traces| ==> r.value.traces[i].GroupTrace?
    ensures r.Ok? ==> forall i :: 0 <= i < |r.value.traces| ==>
                        |r.value.traces[i].group.signals| == r.value.traces[i].group.count
    ensures r.Ok? && |r.value.sweeps| > 0 ==>
              var leaves := Windows.LeafSignals(r.value.traces).value;
              Windows.Separate(r.value.sweeps[0], leaves) ==> Windows.Aligned(r.value.values, r.value.sweeps[0], leaves)
  {
    var toc :- Toc.ParseToc(file);
    var he :- Section(toc, Toc.HeaderSection);
    var header :- Sections.ParseHeader(file, he);
    var te :- Section(toc, Toc.TypeSection);
    var types :- Sections.ParseTypes(file, te);
    var se :- Section(toc, Toc.SweepSection);
    var sweeps :- Sections.ParseSweeps(file, se);
    var tre :- Section(toc, Toc.TraceSection);
    var traces :- Sections.ParseTraces(file, tre);
    var values :- Windows.ParseValues(file, toc, header, types, sweeps, traces);
    Ok(PsfAst(header, types, sweeps, traces, values))
  }

  /** A file without the window-size record is rejected as unsupported,
      whatever else it holds, once its earlier sections decode. */
  lemma UnwindowedRejected(file: seq<u8>)
    requires Toc.ParseToc(file).Ok?
    requires var toc := Toc.ParseToc(file).value;
             && Toc.HeaderSection in toc && Sections.ParseHeader(file, toc[Toc.HeaderSection]).Ok?
             && Windows.WindowSizeKey() !in Sections.ParseHeader(file, toc[Toc.HeaderSection]).value
    ensures Parse(file).Fail?
    ensures var toc := Toc.ParseToc(file).value;
            (&& Toc.TypeSection in toc && Sections.ParseTypes(file, toc[Toc.TypeSection]).Ok?
             && Toc.SweepSection in toc && Sections.ParseSweeps(file, toc[Toc.SweepSection]).Ok?
             && Toc.TraceSection in toc && Sections.ParseTraces(file, toc[Toc.TraceSection]).Ok?)
            ==> Parse(file) == Fail(UnsupportedLayout)
  {
    var toc := Toc.ParseToc(file).value;
    var header := Sections.ParseHeader(file, toc[Toc.HeaderSection]).value;
    assert Section(toc, Toc.HeaderSection) == Ok(toc[Toc.HeaderSection]);
    if && Toc.TypeSection in toc && Sections.ParseTypes(file, toc[Toc.TypeSection]).Ok?
       && Toc.SweepSection in toc && Sections.ParseSweeps(file, toc[Toc.SweepSection]).Ok?
       && Toc.TraceSection in toc && Sections.ParseTraces(file, toc[Toc.TraceSection]).Ok?
    {
      var types := Sections.ParseTypes(file, toc[Toc.TypeSection]).value;
      var sweeps := Sections.ParseSweeps(file, toc[Toc.SweepSection]).value;
      var traces := Sections.ParseTraces(file, toc[Toc.TraceSection]).value;
      assert Windows.ParseValues(file, toc, header, types, sweeps, traces) == Fail(UnsupportedLayout);
    }
  }
}
