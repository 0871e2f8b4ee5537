// The earlier decoder: the same layout read with signed 32-bit words.
// Lengths, offsets and the end-of-section word pass through `i32 as usize`,
// so a word with its top bit set becomes a huge value that no buffer
// reaches; for files shorter than 2^31 bytes it agrees with the unsigned
// decoder except that integer values are sign-extended.

module Legacy {
  import opened Results
  import opened Bytes
  import opened Records
  import Toc
  import Sections

  /** 2^31: the first word whose `i32` reading is negative. */
  const I32_HALF: nat := 0x8000_0000

  /** The two's complement reading of a 32-bit word. */
  function Signed32(w: nat): (v: int)
    requires w < U32_LIMIT
    ensures -(I32_HALF as int) <= v < I32_HALF
    ensures v % U32_LIMIT == w
    ensures v >= 0 <==> w < I32_HALF
  {
    if w < I32_HALF then w else w - U32_LIMIT
  }

  /** `read_i32`: the head word, signed, and the bytes after it. */
  function ReadI32(data: seq<u8>): (r: Result<(int, seq<u8>)>)
    ensures r.Ok? <==> |data| >= 4
    ensures r.Ok? ==> -(I32_HALF as int) <= r.value.0 < I32_HALF && r.value.0 % U32_LIMIT == TagAt(data)
    ensures r.Ok? ==> r.value.1 == data[4..]
  {
    if |data| < 4 then Fail(OutOfBounds)
    else Ok((Signed32(TagAt(data)), data[4..]))
  }

  /** `peek_i32`: the same word as `ReadI32`, nothing consumed. */
  function PeekI32(data: seq<u8>): (r: Result<int>)
    ensures r.Ok? <==> |data| >= 4
    ensures r.Ok? ==> ReadI32(data) == Ok((r.value, data[4..]))
  {
    if |data| < 4 then Fail(OutOfBounds)
    else Ok(Signed32(TagAt(data)))
  }

  /** `parse_end`: four bytes skipped. */
  function ParseEnd(data: seq<u8>): (r: Result<seq<u8>>)
    ensures r.Ok? <==> |data| >= 4
    ensures r.Ok? ==> data == data[..4] + r.value
  {
    if |data| < 4 then Fail(OutOfBounds) else Ok(data[4..])
  }

  /** `parse_string` with a signed length.  A negative length, as `usize`,
      lies beyond any slice, so the slice `..len` fails. */
  function ParseString(data: seq<u8>): (r: Result<(seq<u8>, seq<u8>)>)
    ensures |data| >= 4 && TagAt(data) >= I32_HALF ==> r == Fail(OutOfBounds)
    ensures !(|data| >= 4 && TagAt(data) >= I32_HALF) ==> r == Bytes.ParseString(data)
  {
    var (len, d) :- ReadI32(data);
    if len < 0 then Fail(OutOfBounds)
    else
      assert len == TagAt(data);
      if len > |d| then Fail(OutOfBounds)
      else if !Utf8.Valid(d[..len]) then Fail(Utf8Error)
      else if len % 4 == 0 then Ok((d[..len], d[len..]))
      else if len + 4 - len % 4 > |d| then Fail(OutOfBounds)
      else Ok((d[..len], d[len + 4 - len % 4..]))
  }

  /** Below 2^31 + 4 bytes no length word can reach past the end when read
      unsigned either, so the two string readers agree. */
  lemma StringAgrees(data: seq<u8>)
    requires |data| < I32_HALF + 4
    ensures ParseString(data) == Bytes.ParseString(data)
  {
    if |data| >= 4 && TagAt(data) >= I32_HALF {
      assert TagAt(data) > |data[4..]|;
    }
  }

  /** `parse_named_value`: as in the unsigned decoder, but the tag and an
      integer payload are read signed, and the payload is sign-extended. */
  function ParseNamedValue(data: seq<u8>): (r: Result<(NamedValue, seq<u8>)>)
    ensures r.Ok? ==> |data| >= 4 && |r.value.1| < |data|
    ensures r.Ok? ==>
              var v := r.value.0.value;
              var tag := TagAt(data);
              && (v.Str? <==> tag == STRING_TAG)
              && (v.Int? <==> tag == INT_TAG)
              && (v.Real? <==> tag == REAL_TAG)
              && (v.Int? ==> -(I32_HALF as int) <= v.i < I32_HALF)
    ensures |data| >= 4 && !(STRING_TAG <= TagAt(data) <= REAL_TAG) ==> r.Fail?
  {
    var (tag, d1) :- ReadI32(data);
    var (name, d2) :- ParseString(d1);
    if tag == STRING_TAG then
      var (s, d3) :- ParseString(d2);
      Ok((NamedValue(name, Str(s)), d3))
    else if tag == INT_TAG then
      var (i, d3) :- ReadI32(d2);
      Ok((NamedValue(name, Int(i)), d3))
    else if tag == REAL_TAG then
      var (x, d3) :- ReadF64(d2);
      Ok((NamedValue(name, Real(x)), d3))
    else
      Fail(UnexpectedTag(STRING_TAG, tag))
  }

  /** What the signed reader makes of a record the unsigned reader decoded. */
  function SignExtend(nv: NamedValue): (e: NamedValue)
    requires nv.value.Int? ==> 0 <= nv.value.i < U32_LIMIT
    ensures e.name == nv.name && e.value.Int? == nv.value.Int?
    ensures e.value.Int? ==> e.value.i % U32_LIMIT == nv.value.i
    ensures !e.value.Int? ==> e == nv
  {
    if nv.value.Int? then NamedValue(nv.name, Int(Signed32(nv.value.i))) else nv
  }

  /** On inputs of at most 2^31 bytes both readers accept the same records
      and consume the same bytes; only an integer payload differs, sign- versus
      zero-extended. */
  lemma NamedValueSignExtension(data: seq<u8>)
    requires |data| <= I32_HALF
    ensures ParseNamedValue(data).Ok? <==> Records.ParseNamedValue(data).Ok?
    ensures ParseNamedValue(data).Ok? ==>
              var (nv, rest) := Records.ParseNamedValue(data).value;
              ParseNamedValue(data).value == (SignExtend(nv), rest)
  {
    if |data| >= 4 {
      var tag := TagAt(data);
      var d1 := data[4..];
      StringAgrees(d1);
      assert ReadI32(data) == Ok((Signed32(tag), d1));
      var name := Bytes.ParseString(d1);
      if name.Ok? {
        var d2 := name.value.1;
        StringAgrees(d2);
        if tag == STRING_TAG {
        } else if tag == INT_TAG {
        } else if tag == REAL_TAG {
        } else {
          assert Signed32(tag) !in {STRING_TAG, INT_TAG, REAL_TAG};
        }
      }
    }
  }

  /** The header loop: records while more than four bytes remain. */
  function NamedValueList(data: seq<u8>): (r: Result<seq<NamedValue>>)
    ensures |data| <= 4 ==> r == Ok([])
    decreases |data|
  {
    if |data| <= 4 then Ok([])
    else
      var (nv, rest) :- ParseNamedValue(data);
      var more :- NamedValueList(rest);
      Ok([nv] + more)
  }

  /** The header's records: the end word at `start + 4` is signed, and a
      negative one, as `usize`, lies past the end of the file. */
  function HeaderBody(file: seq<u8>, entry: Toc.TocEntry): (r: Result<seq<u8>>)
    ensures r.Ok? <==> Sections.PlainBody(file, entry).Ok? && TagAt(file[entry.start + 4..]) < I32_HALF
    ensures r.Ok? ==> r == Sections.PlainBody(file, entry)
  {
    var d :- Sections.Suffix(file, entry.start + 4);
    var (eofs, _) :- ReadI32(d);
    if eofs < 0 then Fail(OutOfBounds)
    else Sections.Slice(file, entry.start + 8, eofs)
  }

  /** `parse_header`: the records in file order, duplicates kept. */
  function ParseHeader(file: seq<u8>, entry: Toc.TocEntry): (r: Result<seq<NamedValue>>)
    ensures r.Ok? ==> HeaderBody(file, entry).Ok?
  {
    var body :- HeaderBody(file, entry);
    NamedValueList(body)
  }

  /** Record by record, the signed list is the sign-extended unsigned one. */
  ghost predicate Extends(legacy: seq<NamedValue>, records: seq<NamedValue>)
  {
    && |legacy| == |records|
    && forall i :: 0 <= i < |records| ==>
         (records[i].value.Int? ==> 0 <= records[i].value.i < U32_LIMIT)
         && legacy[i] == SignExtend(records[i])
  }

  lemma {:induction false} ListSignExtension(data: seq<u8>)
    requires |data| <= I32_HALF
    ensures NamedValueList(data).Ok? <==> Sections.NamedValueList(data).Ok?
    ensures NamedValueList(data).Ok? ==> Extends(NamedValueList(data).value, Sections.NamedValueList(data).value)
    decreases |data|
  {
    if |data| > 4 {
      NamedValueSignExtension(data);
      if Records.ParseNamedValue(data).Ok? {
        var (nv, rest) := Records.ParseNamedValue(data).value;
        ListSignExtension(rest);
      }
    }
  }

  /** For a file shorter than 2^31 bytes the signed header holds the same
      records, in the same order and with duplicates, as the unsigned
      decoder's record list, integers sign-extended; the unsigned decoder
      then keeps only the last record of each name. */
  lemma HeaderSignExtension(file: seq<u8>, entry: Toc.TocEntry)
    requires |file| < I32_HALF
    ensures ParseHeader(file, entry).Ok? <==> Sections.HeaderRecords(file, entry).Ok?
    ensures ParseHeader(file, entry).Ok? ==>
              Extends(ParseHeader(file, entry).value, Sections.HeaderRecords(file, entry).value)
  {
    var plain := Sections.PlainBody(file, entry);
    if plain.Ok? {
      assert TagAt(file[entry.start + 4..]) <= |file|;
      assert HeaderBody(file, entry) == plain;
      ListSignExtension(plain.value);
      assert ParseHeader(file, entry) == NamedValueList(plain.value);
      assert Sections.HeaderRecords(file, entry) == Sections.NamedValueList(plain.value);
    } else {
      assert HeaderBody(file, entry).Fail?;
    }
  }

  // ---------------------------------------------------------------------
  // The table of contents

  /** A directory entry as the signed decoder sees the same eight bytes. */
  function Reinterpret(e: Toc.DirEntry): (s: Toc.DirEntry)
    requires 0 <= e.code < U32_LIMIT && e.start < U32_LIMIT
    ensures s.code % U32_LIMIT == e.code && s.start % U32_LIMIT == e.start
    ensures e.code < I32_HALF && e.start < I32_HALF ==> s == e
  {
    Toc.DirEntry(Signed32(e.code), AsUsize(Signed32(e.start)))
  }

  /** The directory with signed words: a negative trailing size makes
      `len - ds - 12` underflow; negative kinds and starts are kept as read. */
  function DirectoryOf(data: seq<u8>): (r: Result<seq<Toc.DirEntry>>)
    ensures r.Ok? <==> Toc.DirectoryOf(data).Ok? && TagAt(data[|data| - 4..]) < I32_HALF
    ensures r.Ok? ==>
              var u := Toc.DirectoryOf(data).value;
              && |r.value| == |u|
              && forall i :: 0 <= i < |u| ==>
                   (0 <= u[i].code < U32_LIMIT && u[i].start < U32_LIMIT && r.value[i] == Reinterpret(u[i]))
  {
    if |data| < 4 then Fail(ArithmeticOverflow)
    else
      var ds := Signed32(TagAt(data[|data| - 4..]));
      if ds < 0 || |data| < ds + 12 then Fail(ArithmeticOverflow)
      else
        var n := (|data| - ds - 12) / 8;
        var tocOfs := |data| - 12 - 8 * n;
        Pow256Values();
        var dir := seq(n, i requires 0 <= i < n => Reinterpret(Toc.ReadEntry(data, tocOfs + 8 * i)));
        assert Toc.DirectoryOf(data) == Ok(seq(n, i requires 0 <= i < n => Toc.ReadEntry(data, tocOfs + 8 * i)));
        Ok(dir)
  }

  /** `parse_toc` of the signed decoder: the same contiguous-range fill. */
  function ParseToc(data: seq<u8>): (r: Result<Toc.Table>)
    ensures r.Ok? <==> DirectoryOf(data).Ok? && Toc.KnownCodes(DirectoryOf(data).value)
  {
    var dir :- DirectoryOf(data);
    Toc.BuildToc(dir, |data|)
  }

  /** Every word of the directory, and its trailing size, below 2^31. */
  ghost predicate SmallWords(data: seq<u8>)
  {
    && Toc.DirectoryOf(data).Ok? && TagAt(data[|data| - 4..]) < I32_HALF
    && forall i :: 0 <= i < |Toc.DirectoryOf(data).value| ==>
         Toc.DirectoryOf(data).value[i].code < I32_HALF && Toc.DirectoryOf(data).value[i].start < I32_HALF
  }

  /** When no directory word has its top bit set, the signed and unsigned
      decoders build the same table. */
  lemma TocAgrees(data: seq<u8>)
    requires SmallWords(data)
    ensures ParseToc(data) == Toc.ParseToc(data)
  {
    var u := Toc.DirectoryOf(data).value;
    var s := DirectoryOf(data).value;
    assert s == u by {
      forall i | 0 <= i < |u| ensures s[i] == u[i] {
        assert s[i] == Reinterpret(u[i]);
      }
    }
  }
}
