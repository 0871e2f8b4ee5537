/** The trailing table of contents (src/binary/mod.rs `parse_toc`,
    `SectionKind::from_int`; src/binparse/mod.rs has the same scan with
    signed words).  The last word of the file is the payload size `ds`;
    just before a 12-byte footer sit `n = (len - ds - 12) / 8` entries of
    two words, a section kind and the section's start offset. */
module Toc {
  import opened Results
  import opened Bytes

  datatype SectionKind = HeaderSection | TypeSection | SweepSection | TraceSection | ValueSection

  /** The directory code of each section kind. */
  function Code(k: SectionKind): nat
  {
    match k
    case HeaderSection => 0
    case TypeSection => 1
    case SweepSection => 2
    case TraceSection => 3
    case ValueSection => 4
  }

  /** `SectionKind::from_int`: codes 0..4 and nothing else. */
  function SectionKindFromInt(code: int): (r: Result<SectionKind>)
    ensures r.Ok? <==> 0 <= code <= 4
    ensures r.Ok? ==> Code(r.value) == code
    ensures r.Fail? ==> r.error == UnknownSectionKind(code)
  {
    if code == 0 then Ok(HeaderSection)
    else if code == 1 then Ok(TypeSection)
    else if code == 2 then Ok(SweepSection)
    else if code == 3 then Ok(TraceSection)
    else if code == 4 then Ok(ValueSection)
    else Fail(UnknownSectionKind(code))
  }

  /** One directory entry as read: its kind code and start offset. */
  datatype DirEntry = DirEntry(code: int, start: nat)

  /** A section's byte range `[start, end)`. */
  datatype TocEntry = TocEntry(start: nat, end: nat)

  type Table = map<SectionKind, TocEntry>

  ghost predicate KnownCodes(dir: seq<DirEntry>)
  {
    forall j :: 0 <= j < |dir| ==> 0 <= dir[j].code <= 4
  }

  ghost predicate DistinctCodes(dir: seq<DirEntry>)
  {
    forall a, b :: 0 <= a < b < |dir| ==> dir[a].code != dir[b].code
  }

  function KindOf(e: DirEntry): SectionKind
    requires 0 <= e.code <= 4
  {
    SectionKindFromInt(e.code).value
  }

  /** Where entry `j`'s section ends: at the next listed start, or at the
      end of the file for the last entry. */
  function EndOf(dir: seq<DirEntry>, len: nat, j: nat): nat
    requires j < |dir|
  {
    if j + 1 < |dir| then dir[j + 1].start else len
  }

  /** The `for i in 0..n` loop of `parse_toc`: each entry is inserted with
      `end = len`, and the previous entry's end becomes this entry's start. */
  function Fill(dir: seq<DirEntry>, len: nat, i: nat, table: Table, prev: Option<SectionKind>): (r: Result<Table>)
    requires i <= |dir|
    requires prev.Some? ==> prev.value in table
    ensures r.Ok? <==> forall j :: i <= j < |dir| ==> 0 <= dir[j].code <= 4
    decreases |dir| - i
  {
    if i == |dir| then Ok(table)
    else
      var kind :- SectionKindFromInt(dir[i].code);
      Fill(dir, len, i + 1, Place(table, prev, kind, dir[i].start, len), Some(kind))
  }

  /** One loop step: `kind` runs from `ofs` to the end of the file for now,
      and the previously placed section now ends at `ofs`. */
  function Place(table: Table, prev: Option<SectionKind>, kind: SectionKind, ofs: nat, len: nat): (t: Table)
    requires prev.Some? ==> prev.value in table
    ensures t.Keys == table.Keys + {kind}
  {
    var t1 := table[kind := TocEntry(ofs, len)];
    if prev.Some? then t1[prev.value := t1[prev.value].(end := ofs)] else t1
  }

  function BuildToc(dir: seq<DirEntry>, len: nat): Result<Table>
  {
    Fill(dir, len, 0, map[], None)
  }

  /** Entries before `i` are final; entry `i - 1` still ends at `len`. */
  ghost predicate Settled(dir: seq<DirEntry>, len: nat, i: nat, table: Table)
    requires i <= |dir| && KnownCodes(dir)
  {
    && (forall j :: 0 <= j < i - 1 ==>
          KindOf(dir[j]) in table && table[KindOf(dir[j])] == TocEntry(dir[j].start, dir[j + 1].start))
    && (i > 0 ==> KindOf(dir[i - 1]) in table && table[KindOf(dir[i - 1])] == TocEntry(dir[i - 1].start, len))
  }

  /** Placing entry `i` settles entry `i - 1`, since no earlier entry shares a kind with either. */
  lemma SettledStep(dir: seq<DirEntry>, len: nat, i: nat, table: Table, prev: Option<SectionKind>)
    requires i < |dir| && KnownCodes(dir) && DistinctCodes(dir)
    requires prev == (if i == 0 then None else Some(KindOf(dir[i - 1])))
    requires Settled(dir, len, i, table)
    ensures Settled(dir, len, i + 1, Place(table, prev, KindOf(dir[i]), dir[i].start, len))
  {
    var kind := KindOf(dir[i]);
    var t := Place(table, prev, kind, dir[i].start, len);
    forall j | 0 <= j < i
      ensures KindOf(dir[j]) in t && t[KindOf(dir[j])] == TocEntry(dir[j].start, dir[j + 1].start)
    {
      assert Code(KindOf(dir[j])) != Code(kind);
      if j < i - 1 {
        assert Code(KindOf(dir[j])) != Code(KindOf(dir[i - 1]));
      }
    }
  }

  lemma {:induction false} FillContiguous(dir: seq<DirEntry>, len: nat, i: nat, table: Table, prev: Option<SectionKind>)
    requires i <= |dir| && KnownCodes(dir) && DistinctCodes(dir)
    requires prev == (if i == 0 then None else Some(KindOf(dir[i - 1])))
    requires Settled(dir, len, i, table)
    ensures prev.Some? ==> prev.value in table
    ensures Fill(dir, len, i, table, prev).Ok?
    ensures forall j :: 0 <= j < |dir| ==>
              KindOf(dir[j]) in Fill(dir, len, i, table, prev).value
              && Fill(dir, len, i, table, prev).value[KindOf(dir[j])] == TocEntry(dir[j].start, EndOf(dir, len, j))
    decreases |dir| - i
  {
    if i < |dir| {
      SettledStep(dir, len, i, table, prev);
      FillContiguous(dir, len, i + 1, Place(table, prev, KindOf(dir[i]), dir[i].start, len), Some(KindOf(dir[i])));
    }
  }

  /** With every kind listed once, each section runs from its start to the
      next listed start, and the last listed one to the end of the file. */
  lemma ContiguousRanges(dir: seq<DirEntry>, len: nat)
    requires KnownCodes(dir) && DistinctCodes(dir)
    ensures BuildToc(dir, len).Ok?
    ensures forall j :: 0 <= j < |dir| ==>
              KindOf(dir[j]) in BuildToc(dir, len).value
              && BuildToc(dir, len).value[KindOf(dir[j])] == TocEntry(dir[j].start, EndOf(dir, len, j))
  {
    FillContiguous(dir, len, 0, map[], None);
  }

  /** The eight bytes at `at` hold the entry's code word and then its start word. */
  ghost predicate EntryAt(data: seq<u8>, at: nat, e: DirEntry)
    requires at + 8 <= |data|
  {
    && 0 <= e.code < Pow256(4) && e.start < Pow256(4)
    && ToBigEndian(e.code, 4) == data[at..at + 4]
    && ToBigEndian(e.start, 4) == data[at + 4..at + 8]
  }

  /** One directory entry: the two words at `at`. */
  function ReadEntry(data: seq<u8>, at: nat): (e: DirEntry)
    requires at + 8 <= |data|
    ensures EntryAt(data, at, e)
  {
    WordAt(data, at);
    WordAt(data, at + 4);
    DirEntry(TagAt(data[at..]), TagAt(data[at + 4..]))
  }

  /** The directory of the binary decoder: unsigned kind and offset words. */
  function DirectoryOf(data: seq<u8>): (r: Result<seq<DirEntry>>)
    ensures r.Ok? <==> |data| >= 4 && TagAt(data[|data| - 4..]) + 12 <= |data|
    ensures r.Ok? ==>
              var ds := TagAt(data[|data| - 4..]);
              var o := |data| - 12 - 8 * |r.value|;
              && |r.value| == (|data| - ds - 12) / 8
              && ds <= o < ds + 8
              && forall i :: 0 <= i < |r.value| ==> EntryAt(data, o + 8 * i, r.value[i])
  {
    if |data| < 4 then Fail(ArithmeticOverflow)
    else
      // `peek_u32` of the last four bytes, which are known to be there
      var ds := TagAt(data[|data| - 4..]);
      if |data| < ds + 12 then Fail(ArithmeticOverflow)
      else
        var n := (|data| - ds - 12) / 8;
        var tocOfs := |data| - 12 - 8 * n;
        var dir := seq(n, i requires 0 <= i < n => ReadEntry(data, tocOfs + 8 * i));
        Ok(dir)
  }

  /** `parse_toc` of the binary decoder. */
  function ParseToc(data: seq<u8>): (r: Result<Table>)
    ensures r.Ok? <==> DirectoryOf(data).Ok? && KnownCodes(DirectoryOf(data).value)
  {
    var dir :- DirectoryOf(data);
    BuildToc(dir, |data|)
  }

  /** A well-formed directory yields contiguous ranges, the last one
      running to the end of the file. */
  lemma ParseTocContiguous(data: seq<u8>)
    requires DirectoryOf(data).Ok?
    requires KnownCodes(DirectoryOf(data).value) && DistinctCodes(DirectoryOf(data).value)
    ensures ParseToc(data).Ok?
    ensures var dir := DirectoryOf(data).value;
            forall j :: 0 <= j < |dir| ==>
              KindOf(dir[j]) in ParseToc(data).value
              && ParseToc(data).value[KindOf(dir[j])] == TocEntry(dir[j].start, EndOf(dir, |data|, j))
  {
    ContiguousRanges(DirectoryOf(data).value, |data|);
  }
}
