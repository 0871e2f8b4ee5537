/** The records of the binary PSF sections and their decoders
    (src/binary/mod.rs `parse_named_value`, `parse_properties`,
    `parse_signal_ref`, `parse_group`, `parse_trace_item`,
    `parse_type_item`).  Each decoder takes the bytes at the cursor and
    returns the record and the bytes after it.  The encoders are the
    layout each decoder expects, written out so that the decoders can be
    checked against them. */
module Records {
  import opened Results
  import opened Bytes
  import Utf8

  type Name = seq<u8>

  datatype TypeId = TypeId(raw: nat)
  datatype TraceId = TraceId(raw: nat)
  datatype GroupId = GroupId(raw: nat)

  datatype Value = Int(i: int) | Real(x: Float64) | Str(s: Name) | NaN

  datatype NamedValue = NamedValue(name: Name, value: Value)

  datatype DataType = Int8Type | StringType | Int32Type | RealType | ComplexType | StructType

  datatype TypeDef = TypeDef(id: TypeId, name: Name, dataType: DataType, properties: seq<NamedValue>)

  datatype SignalRef = SignalRef(id: TraceId, name: Name, typeId: TypeId, properties: seq<NamedValue>)

  datatype TraceGroup = TraceGroup(name: Name, count: nat, id: GroupId, signals: seq<SignalRef>)

  datatype Trace = GroupTrace(group: TraceGroup) | SignalTrace(signal: SignalRef)

  const SIGNAL_TAG: nat := 16
  const GROUP_TAG: nat := 17
  const STRING_TAG: nat := 33
  const INT_TAG: nat := 34
  const REAL_TAG: nat := 35

  /** The data-type code table. */
  function DataTypeCode(t: DataType): nat
  {
    match t
    case Int8Type => 1
    case StringType => 2
    case Int32Type => 5
    case RealType => 11
    case ComplexType => 12
    case StructType => 16
  }

  /** `DataType::from_u32`: the codes of the table, and no other. */
  function DataTypeFromCode(code: nat): (r: Result<DataType>)
    ensures r.Ok? <==> code in {1, 2, 5, 11, 12, 16}
    ensures r.Ok? ==> DataTypeCode(r.value) == code
  {
    if code == 1 then Ok(Int8Type)
    else if code == 2 then Ok(StringType)
    else if code == 5 then Ok(Int32Type)
    else if code == 11 then Ok(RealType)
    else if code == 12 then Ok(ComplexType)
    else if code == 16 then Ok(StructType)
    else Fail(UnknownDataType(code))
  }

  /** Every data type's code decodes back to it. */
  lemma DataTypeCodeRoundTrip(t: DataType)
    ensures DataTypeFromCode(DataTypeCode(t)) == Ok(t)
  {
  }

  // ---------------------------------------------------------------------
  // Decoders

  /** `parse_named_value`: tag, name, then a payload chosen by the tag. */
  function ParseNamedValue(data: seq<u8>): (r: Result<(NamedValue, seq<u8>)>)
    ensures r.Ok? ==> |data| >= 4 && |r.value.1| < |data|
    ensures r.Ok? ==>
              var v := r.value.0.value;
              var tag := TagAt(data);
              && (v.Str? <==> tag == STRING_TAG)
              && (v.Int? <==> tag == INT_TAG)
              && (v.Real? <==> tag == REAL_TAG)
              && (v.Int? ==> 0 <= v.i < U32_LIMIT)
    ensures |data| >= 4 && !(STRING_TAG <= TagAt(data) <= REAL_TAG) ==> r.Fail?
  {
    var (tag, d1) :- ReadU32(data);
    var (name, d2) :- ParseString(d1);
    if tag == STRING_TAG then
      var (s, d3) :- ParseString(d2);
      Ok((NamedValue(name, Str(s)), d3))
    else if tag == INT_TAG then
      var (i, d3) :- ReadU32(d2);
      Ok((NamedValue(name, Int(i)), d3))
    else if tag == REAL_TAG then
      var (x, d3) :- ReadF64(d2);
      Ok((NamedValue(name, Real(x)), d3))
    else
      Fail(UnexpectedTag(STRING_TAG, tag))
  }

  /** The next word announces a named value, and more than four bytes remain. */
  predicate AtProperty(data: seq<u8>)
  {
    |data| > 4 && STRING_TAG <= TagAt(data) <= REAL_TAG
  }

  /** `parse_properties`: named values, as long as the next word is one of
      their tags and more than four bytes remain. */
  function ParseProperties(data: seq<u8>): (r: Result<(seq<NamedValue>, seq<u8>)>)
    ensures !AtProperty(data) ==> r == Ok(([], data))
    ensures r.Ok? ==> |r.value.1| <= |data| && !AtProperty(r.value.1)
    decreases |data|
  {
    if AtProperty(data) then
      var (nv, d1) :- ParseNamedValue(data);
      var (more, d2) :- ParseProperties(d1);
      Ok(([nv] + more, d2))
    else
      Ok(([], data))
  }

  /** `parse_signal_ref`: id, name, type id, properties. */
  function ParseSignalRef(data: seq<u8>): (r: Result<(SignalRef, seq<u8>)>)
    ensures r.Ok? ==> |r.value.1| < |data| && !AtProperty(r.value.1)
  {
    var (id, d1) :- ReadU32(data);
    var (name, d2) :- ParseString(d1);
    var (typeId, d3) :- ReadU32(d2);
    var (props, d4) :- ParseProperties(d3);
    Ok((SignalRef(TraceId(id), name, TypeId(typeId), props), d4))
  }

  /** The `for _ in 0..count` loop of `parse_group`: each member is
      re-prefixed by the signal tag. */
  function GroupMembers(data: seq<u8>, n: nat): (r: Result<(seq<SignalRef>, seq<u8>)>)
    ensures r.Ok? ==> |r.value.0| == n && |r.value.1| <= |data|
    ensures n > 0 && |data| >= 4 && TagAt(data) != SIGNAL_TAG ==> r.Fail?
    decreases n
  {
    if n == 0 then Ok(([], data))
    else
      var (tag, d1) :- ReadU32(data);
      if tag != SIGNAL_TAG then Fail(UnexpectedTag(SIGNAL_TAG, tag))
      else
        var (s, d2) :- ParseSignalRef(d1);
        var (more, d3) :- GroupMembers(d2, n - 1);
        Ok(([s] + more, d3))
  }

  /** `parse_group`: id, name, declared count, then exactly that many members. */
  function ParseGroup(data: seq<u8>): (r: Result<(TraceGroup, seq<u8>)>)
    ensures r.Ok? ==> |r.value.0.signals| == r.value.0.count && |r.value.1| < |data|
  {
    var (id, d1) :- ReadU32(data);
    var (name, d2) :- ParseString(d1);
    var (count, d3) :- ReadU32(d2);
    var (signals, d4) :- GroupMembers(d3, count);
    Ok((TraceGroup(name, count, GroupId(id), signals), d4))
  }

  /** `parse_trace_item`: tag 16 is a signal, tag 17 a group, anything else fails. */
  function ParseTraceItem(data: seq<u8>): (r: Result<(Trace, seq<u8>)>)
    ensures r.Ok? ==> |data| >= 4 && |r.value.1| < |data|
    ensures r.Ok? ==>
              && (r.value.0.SignalTrace? <==> TagAt(data) == SIGNAL_TAG)
              && (r.value.0.GroupTrace? <==> TagAt(data) == GROUP_TAG)
    ensures r.Ok? && r.value.0.GroupTrace? ==> |r.value.0.group.signals| == r.value.0.group.count
    ensures |data| >= 4 && TagAt(data) != SIGNAL_TAG && TagAt(data) != GROUP_TAG ==> r.Fail?
  {
    var (tag, d1) :- ReadU32(data);
    if tag == SIGNAL_TAG then
      var (signal, d2) :- ParseSignalRef(d1);
      Ok((SignalTrace(signal), d2))
    else if tag == GROUP_TAG then
      var (group, d2) :- ParseGroup(d1);
      Ok((GroupTrace(group), d2))
    else
      Fail(UnexpectedTag(SIGNAL_TAG, tag))
  }

  /** `parse_type_item`: tag 16, id, name, an ignored array word, the data
      type code, properties; the code is looked up last. */
  function ParseTypeItem(data: seq<u8>): (r: Result<(TypeDef, seq<u8>)>)
    ensures r.Ok? ==> |data| >= 4 && TagAt(data) == SIGNAL_TAG && |r.value.1| < |data|
    ensures |data| >= 4 && TagAt(data) != SIGNAL_TAG ==> r.Fail?
  {
    var (tag, d1) :- ReadU32(data);
    if tag != SIGNAL_TAG then Fail(UnexpectedTag(SIGNAL_TAG, tag))
    else
      var (id, d2) :- ReadU32(d1);
      var (name, d3) :- ParseString(d2);
      var (_, d4) :- ReadU32(d3);
      var (code, d5) :- ReadU32(d4);
      var (props, d6) :- ParseProperties(d5);
      var dataType :- DataTypeFromCode(code);
      Ok((TypeDef(TypeId(id), name, dataType, props), d6))
  }

  // ---------------------------------------------------------------------
  // The layout each decoder expects

  ghost predicate WfName(n: Name)
  {
    |n| < U32_LIMIT && Utf8.Valid(n)
  }

  ghost predicate WfValue(v: Value)
  {
    match v
    case Int(i) => 0 <= i < U32_LIMIT
    case Real(x) => x.bits < Pow256(8)
    case Str(s) => WfName(s)
    case NaN => false
  }

  ghost predicate WfNamedValue(nv: NamedValue)
  {
    WfName(nv.name) && WfValue(nv.value)
  }

  ghost predicate WfProperties(ps: seq<NamedValue>)
  {
    forall i :: 0 <= i < |ps| ==> WfNamedValue(ps[i])
  }

  ghost predicate WfSignalRef(s: SignalRef)
  {
    s.id.raw < U32_LIMIT && WfName(s.name) && s.typeId.raw < U32_LIMIT && WfProperties(s.properties)
  }

  ghost predicate WfSignalRefs(ss: seq<SignalRef>)
  {
    forall i :: 0 <= i < |ss| ==> WfSignalRef(ss[i])
  }

  ghost predicate WfTrace(t: Trace)
  {
    match t
    case SignalTrace(s) => WfSignalRef(s)
    case GroupTrace(g) =>
      g.id.raw < U32_LIMIT && WfName(g.name) && g.count == |g.signals| && g.count < U32_LIMIT
      && WfSignalRefs(g.signals)
  }

  ghost predicate WfTypeDef(t: TypeDef)
  {
    t.id.raw < U32_LIMIT && WfName(t.name) && WfProperties(t.properties)
  }

  function Word(v: nat): (b: seq<u8>)
    requires v < U32_LIMIT
    ensures |b| == 4
  {
    Pow256Values();
    ToBigEndian(v, 4)
  }

  function ValueTag(v: Value): nat
  {
    match v
    case Str(_) => STRING_TAG
    case Int(_) => INT_TAG
    case Real(_) => REAL_TAG
    case NaN => 0
  }

  // Each encoder writes its record in front of `rest`, the bytes that follow it.

  function EmitPayload(v: Value, rest: seq<u8>): (b: seq<u8>)
    requires WfValue(v)
    ensures |b| >= 4 + |rest|
  {
    match v
    case Str(s) => EncodeString(s) + rest
    case Int(i) => Word(i) + rest
    case Real(x) => ToBigEndian(x.bits, 8) + rest
  }

  function EmitNamedValue(nv: NamedValue, rest: seq<u8>): (b: seq<u8>)
    requires WfNamedValue(nv)
    ensures |b| >= 12 + |rest|
  {
    Word(ValueTag(nv.value)) + (EncodeString(nv.name) + EmitPayload(nv.value, rest))
  }

  function EmitProperties(ps: seq<NamedValue>, rest: seq<u8>): (b: seq<u8>)
    requires WfProperties(ps)
    ensures |b| >= |rest|
  {
    if |ps| == 0 then rest else EmitNamedValue(ps[0], EmitProperties(ps[1..], rest))
  }

  function EmitSignalRef(s: SignalRef, rest: seq<u8>): (b: seq<u8>)
    requires WfSignalRef(s)
    ensures |b| >= 12 + |rest|
  {
    Word(s.id.raw) + (EncodeString(s.name) + (Word(s.typeId.raw) + EmitProperties(s.properties, rest)))
  }

  function EmitMembers(ss: seq<SignalRef>, rest: seq<u8>): (b: seq<u8>)
    requires WfSignalRefs(ss)
    ensures |b| >= |rest|
  {
    if |ss| == 0 then rest else Word(SIGNAL_TAG) + EmitSignalRef(ss[0], EmitMembers(ss[1..], rest))
  }

  function EmitTrace(t: Trace, rest: seq<u8>): (b: seq<u8>)
    requires WfTrace(t)
    ensures |b| > 4 + |rest|
  {
    match t
    case SignalTrace(s) => Word(SIGNAL_TAG) + EmitSignalRef(s, rest)
    case GroupTrace(g) =>
      Word(GROUP_TAG) + (Word(g.id.raw) + (EncodeString(g.name) + (Word(g.count) + EmitMembers(g.signals, rest))))
  }

  function EmitTypeDef(t: TypeDef, rest: seq<u8>): (b: seq<u8>)
    requires WfTypeDef(t)
    ensures |b| > 4 + |rest|
  {
    Word(SIGNAL_TAG) + (Word(t.id.raw) + (EncodeString(t.name) + (Word(0) + (Word(DataTypeCode(t.dataType))
    + EmitProperties(t.properties, rest)))))
  }

  // ---------------------------------------------------------------------
  // Round trips

  lemma NamedValueRoundTrip(nv: NamedValue, rest: seq<u8>)
    requires WfNamedValue(nv)
    ensures ParseNamedValue(EmitNamedValue(nv, rest)) == Ok((nv, rest))
  {
    Pow256Values();
    var payload := EmitPayload(nv.value, rest);
    ReadU32Of(ValueTag(nv.value), EncodeString(nv.name) + payload);
    StringRoundTrip(nv.name, payload);
    match nv.value {
      case Str(s) => StringRoundTrip(s, rest);
      case Int(i) => ReadU32Of(i, rest);
      case Real(x) => ReadF64Of(x, rest);
    }
  }

  /** A named value's tag word is one a property list continues on. */
  lemma AtPropertyOfEmitted(nv: NamedValue, rest: seq<u8>)
    requires WfNamedValue(nv)
    ensures AtProperty(EmitNamedValue(nv, rest))
  {
    Pow256Values();
    TagAtOf(ValueTag(nv.value), EncodeString(nv.name) + EmitPayload(nv.value, rest));
  }

  /** A word other than a property tag ends a property list. */
  lemma NotAtProperty(v: nat, rest: seq<u8>)
    requires v < U32_LIMIT && !(STRING_TAG <= v <= REAL_TAG)
    ensures !AtProperty(Word(v) + rest)
  {
    Pow256Values();
    TagAtOf(v, rest);
  }

  lemma {:induction false} PropertiesRoundTrip(ps: seq<NamedValue>, rest: seq<u8>)
    requires WfProperties(ps) && !AtProperty(rest)
    ensures ParseProperties(EmitProperties(ps, rest)) == Ok((ps, rest))
    decreases |ps|
  {
    if |ps| > 0 {
      var tail := EmitProperties(ps[1..], rest);
      AtPropertyOfEmitted(ps[0], tail);
      NamedValueRoundTrip(ps[0], tail);
      PropertiesRoundTrip(ps[1..], rest);
      HeadTail(ps);
    }
  }

  lemma SignalRefRoundTrip(s: SignalRef, rest: seq<u8>)
    requires WfSignalRef(s) && !AtProperty(rest)
    ensures ParseSignalRef(EmitSignalRef(s, rest)) == Ok((s, rest))
  {
    Pow256Values();
    var props := EmitProperties(s.properties, rest);
    var afterName := Word(s.typeId.raw) + props;
    ReadU32Of(s.id.raw, EncodeString(s.name) + afterName);
    StringRoundTrip(s.name, afterName);
    ReadU32Of(s.typeId.raw, props);
    PropertiesRoundTrip(s.properties, rest);
  }

  /** A type definition starts with tag 16, which no property list continues on. */
  lemma TypeDefStops(t: TypeDef, rest: seq<u8>)
    requires WfTypeDef(t)
    ensures !AtProperty(EmitTypeDef(t, rest))
  {
    Pow256Values();
    NotAtProperty(SIGNAL_TAG, Word(t.id.raw) + (EncodeString(t.name) + (Word(0) + (Word(DataTypeCode(t.dataType))
      + EmitProperties(t.properties, rest)))));
  }

  /** Encoded members start with the signal tag, which no property list
      continues on; with no members, whatever followed them is next. */
  lemma MembersStop(ss: seq<SignalRef>, rest: seq<u8>)
    requires WfSignalRefs(ss) && !AtProperty(rest)
    ensures !AtProperty(EmitMembers(ss, rest))
  {
    if |ss| > 0 {
      Pow256Values();
      NotAtProperty(SIGNAL_TAG, EmitSignalRef(ss[0], EmitMembers(ss[1..], rest)));
    }
  }

  lemma {:induction false} MembersRoundTrip(ss: seq<SignalRef>, rest: seq<u8>)
    requires WfSignalRefs(ss) && !AtProperty(rest)
    ensures GroupMembers(EmitMembers(ss, rest), |ss|) == Ok((ss, rest))
    decreases |ss|
  {
    if |ss| > 0 {
      Pow256Values();
      var tail := EmitMembers(ss[1..], rest);
      ReadU32Of(SIGNAL_TAG, EmitSignalRef(ss[0], tail));
      MembersStop(ss[1..], rest);
      SignalRefRoundTrip(ss[0], tail);
      MembersRoundTrip(ss[1..], rest);
      HeadTail(ss);
    }
  }

  /** Decoding an encoded trace entry gives it back, and the bytes after it. */
  lemma TraceRoundTrip(t: Trace, rest: seq<u8>)
    requires WfTrace(t) && !AtProperty(rest)
    ensures ParseTraceItem(EmitTrace(t, rest)) == Ok((t, rest))
  {
    Pow256Values();
    match t {
      case SignalTrace(s) =>
        ReadU32Of(SIGNAL_TAG, EmitSignalRef(s, rest));
        SignalRefRoundTrip(s, rest);
      case GroupTrace(g) =>
        var members := EmitMembers(g.signals, rest);
        var afterName := Word(g.count) + members;
        var afterId := EncodeString(g.name) + afterName;
        ReadU32Of(GROUP_TAG, Word(g.id.raw) + afterId);
        ReadU32Of(g.id.raw, afterId);
        StringRoundTrip(g.name, afterName);
        ReadU32Of(g.count, members);
        MembersRoundTrip(g.signals, rest);
    }
  }

  /** Decoding an encoded type definition gives it back, and the bytes after it. */
  lemma TypeDefRoundTrip(t: TypeDef, rest: seq<u8>)
    requires WfTypeDef(t) && !AtProperty(rest)
    ensures ParseTypeItem(EmitTypeDef(t, rest)) == Ok((t, rest))
  {
    Pow256Values();
    var props := EmitProperties(t.properties, rest);
    var afterArray := Word(DataTypeCode(t.dataType)) + props;
    var afterName := Word(0) + afterArray;
    var afterId := EncodeString(t.name) + afterName;
    ReadU32Of(SIGNAL_TAG, Word(t.id.raw) + afterId);
    ReadU32Of(t.id.raw, afterId);
    StringRoundTrip(t.name, afterName);
    ReadU32Of(0, afterArray);
    ReadU32Of(DataTypeCode(t.dataType), props);
    PropertiesRoundTrip(t.properties, rest);
    DataTypeCodeRoundTrip(t.dataType);
  }
}
