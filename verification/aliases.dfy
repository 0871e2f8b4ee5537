// The alias maps the analysis views build from a trace list: each group
// header is followed by the signals it claims, and the map sends the
// group's name (or a standalone signal's own name) to a signal name.

module Aliases {
  import opened Results
  import Keyed

  /** A trace entry of the text front end's tree: a group header with the
      number of signals it claims, or a signal. */
  datatype Trace = Group(name: string, count: int) | Signal(name: string)

  /** Name to name. */
  type Aliases = map<string, string>

  predicate AllSignals(ts: seq<Trace>)
  {
    forall k :: 0 <= k < |ts| ==> ts[k].Signal?
  }

  lemma AllSignalsCons(ts: seq<Trace>)
    requires |ts| > 0
    ensures AllSignals(ts) <==> ts[0].Signal? && AllSignals(ts[1..])
  {
    if ts[0].Signal? && AllSignals(ts[1..]) {
      forall k | 0 <= k < |ts| ensures ts[k].Signal? {
        if k > 0 { assert ts[k] == ts[1..][k - 1]; }
      }
    }
  }

  /** A group's name paired with each of its members' names, in order. */
  function MemberPairs(g: string, ts: seq<Trace>): (ps: seq<(string, string)>)
    ensures |ps| == |ts| && forall k :: 0 <= k < |ts| ==> ps[k] == (g, ts[k].name)
  {
    seq(|ts|, k requires 0 <= k < |ts| => (g, ts[k].name))
  }

  /** The alias pairs of a trace list read unit by unit: a standalone
      signal names itself; a group header with count `c` claims the next
      `c` entries, which must all be signals, and its name is paired with
      each of theirs.  `None` when some unit is malformed. */
  function AliasPairs(ts: seq<Trace>): Option<seq<(string, string)>>
    decreases |ts|
  {
    if |ts| == 0 then Some([])
    else
      match ts[0]
      case Signal(s) =>
        var more := AliasPairs(ts[1..]);
        if more.None? then None else Some([(s, s)] + more.value)
      case Group(g, c) =>
        if 0 <= c < |ts| && AllSignals(ts[1..c + 1]) then
          var more := AliasPairs(ts[c + 1..]);
          if more.None? then None else Some(MemberPairs(g, ts[1..c + 1]) + more.value)
        else None
  }

  // ---------------------------------------------------------------------
  // The `while i < ast.traces.len()` loop of the transient, AC and DC views

  /** `for j in 1..=count`: member `j` of the group at `i` must exist and
      be a signal; each one in turn becomes the group's alias. */
  function Claim(ts: seq<Trace>, i: nat, g: string, j: nat, count: nat, groups: Aliases): (r: Result<Aliases>)
    requires i < |ts| && 1 <= j <= count + 1
    ensures r.Ok? <==> j > count || (i + count < |ts| && AllSignals(ts[i + j..i + count + 1]))
    ensures j > count ==> r == Ok(groups)
    decreases count + 1 - j
  {
    if j > count then Ok(groups)
    else if i + j >= |ts| then Fail(OutOfBounds)
    else
      match ts[i + j]
      case Signal(s) =>
        var r := Claim(ts, i, g, j + 1, count, groups[g := s]);
        assert r.Ok? ==> AllSignals(ts[i + j..i + count + 1]) by {
          if r.Ok? && j + 1 <= count {
            var members := ts[i + j..i + count + 1];
            assert members[0] == ts[i + j] && members[1..] == ts[i + j + 1..i + count + 1];
            AllSignalsCons(members);
          }
        }
        r
      case Group(_, _) => Fail(WrongVariant)
  }

  /** The claimed members, inserted in order. */
  lemma {:induction false} ClaimInserts(ts: seq<Trace>, i: nat, g: string, j: nat, count: nat, groups: Aliases)
    requires i < |ts| && 1 <= j <= count && Claim(ts, i, g, j, count, groups).Ok?
    ensures Claim(ts, i, g, j, count, groups).value == Keyed.InsertAll(groups, MemberPairs(g, ts[i + j..i + count + 1]))
    decreases count + 1 - j
  {
    var members := ts[i + j..i + count + 1];
    assert members[0] == ts[i + j];
    assert ts[i + j].Signal?;
    var s := ts[i + j].name;
    var ps := MemberPairs(g, members);
    assert ps[0] == (g, s);
    assert Keyed.InsertAll(groups, ps) == Keyed.InsertAll(groups[g := s], ps[1..]);
    assert Claim(ts, i, g, j, count, groups) == Claim(ts, i, g, j + 1, count, groups[g := s]);
    if j < count {
      ClaimInserts(ts, i, g, j + 1, count, groups[g := s]);
      assert ps[1..] == MemberPairs(g, ts[i + j + 1..i + count + 1]);
    } else {
      assert ps[1..] == [];
    }
  }

  /** `groups` after the loop from entry `i`. */
  function Flatten(ts: seq<Trace>, i: nat, groups: Aliases): Result<Aliases>
    requires i <= |ts|
    decreases |ts| - i
  {
    if i == |ts| then Ok(groups)
    else
      match ts[i]
      case Group(g, c) =>
        if c < 0 then Fail(CountMismatch)
        else
          var gs :- Claim(ts, i, g, 1, c, groups);
          Flatten(ts, i + c + 1, gs)
      case Signal(s) =>
        Flatten(ts, i + 1, groups[s := s])
  }

  /** The loop accepts exactly the lists that split into well-formed units,
      and inserts their alias pairs in order: later pairs win. */
  lemma {:induction false} FlattenMatches(ts: seq<Trace>, i: nat, groups: Aliases)
    requires i <= |ts|
    ensures Flatten(ts, i, groups).Ok? <==> AliasPairs(ts[i..]).Some?
    ensures Flatten(ts, i, groups).Ok? ==> Flatten(ts, i, groups).value == Keyed.InsertAll(groups, AliasPairs(ts[i..]).value)
    decreases |ts| - i
  {
    if i < |ts| {
      match ts[i]
      case Group(g, c) =>
        if c >= 0 && Claim(ts, i, g, 1, c, groups).Ok? {
          FlattenMatches(ts, i + c + 1, Claim(ts, i, g, 1, c, groups).value);
        }
        GroupCase(ts, i, groups);
      case Signal(s) =>
        FlattenMatches(ts, i + 1, groups[s := s]);
        SignalStep(ts, i, groups);
    }
  }

  /** One group unit of `FlattenMatches`, given the rest. */
  lemma GroupCase(ts: seq<Trace>, i: nat, groups: Aliases)
    requires i < |ts| && ts[i].Group?
    requires ts[i].count >= 0 && Claim(ts, i, ts[i].name, 1, ts[i].count, groups).Ok? ==>
               var gs := Claim(ts, i, ts[i].name, 1, ts[i].count, groups).value;
               var next := i + ts[i].count + 1;
               && (Flatten(ts, next, gs).Ok? <==> AliasPairs(ts[next..]).Some?)
               && (Flatten(ts, next, gs).Ok? ==> Flatten(ts, next, gs).value == Keyed.InsertAll(gs, AliasPairs(ts[next..]).value))
    ensures Flatten(ts, i, groups).Ok? <==> AliasPairs(ts[i..]).Some?
    ensures Flatten(ts, i, groups).Ok? ==> Flatten(ts, i, groups).value == Keyed.InsertAll(groups, AliasPairs(ts[i..]).value)
  {
    var n := ts[i].count;
    var g := ts[i].name;
    FlattenAtGroup(ts, i, groups);
    PairsAtGroup(ts, i);
    if n < 0 {
      assert Flatten(ts, i, groups).Fail? && AliasPairs(ts[i..]).None?;
    } else {
      var claimed := Claim(ts, i, g, 1, n, groups);
      if claimed.Fail? {
        assert Flatten(ts, i, groups).Fail? && AliasPairs(ts[i..]).None?;
      } else {
        var next := i + n + 1;
        assert i + n < |ts| && AllSignals(ts[i + 1..next]);
        var more := AliasPairs(ts[next..]);
        assert Flatten(ts, i, groups) == Flatten(ts, next, claimed.value);
        if more.None? {
          assert AliasPairs(ts[i..]).None?;
        } else {
          assert AliasPairs(ts[i..]) == Some(MemberPairs(g, ts[i + 1..next]) + more.value);
          GroupInserts(ts, i, groups, more.value);
        }
      }
    }
  }

  /** A group's claimed members are inserted ahead of whatever follows. */
  lemma GroupInserts(ts: seq<Trace>, i: nat, groups: Aliases, more: seq<(string, string)>)
    requires i < |ts| && ts[i].Group? && ts[i].count >= 0
    requires Claim(ts, i, ts[i].name, 1, ts[i].count, groups).Ok?
    ensures i + ts[i].count < |ts|
    ensures Keyed.InsertAll(Claim(ts, i, ts[i].name, 1, ts[i].count, groups).value, more)
            == Keyed.InsertAll(groups, MemberPairs(ts[i].name, ts[i + 1..i + ts[i].count + 1]) + more)
  {
    var ps := MemberPairs(ts[i].name, ts[i + 1..i + ts[i].count + 1]);
    var claimed := Claim(ts, i, ts[i].name, 1, ts[i].count, groups).value;
    ClaimAll(ts, i, groups);
    calc {
      Keyed.InsertAll(claimed, more);
    ==  // the whole group claimed
      Keyed.InsertAll(Keyed.InsertAll(groups, ps), more);
    ==  { Keyed.InsertAllAppend(groups, ps, more); }
      Keyed.InsertAll(groups, ps + more);
    }
  }

  /** The whole group claimed: its members inserted in order. */
  lemma ClaimAll(ts: seq<Trace>, i: nat, groups: Aliases)
    requires i < |ts| && ts[i].Group? && ts[i].count >= 0
    requires Claim(ts, i, ts[i].name, 1, ts[i].count, groups).Ok?
    ensures i + ts[i].count < |ts|
    ensures Claim(ts, i, ts[i].name, 1, ts[i].count, groups).value
            == Keyed.InsertAll(groups, MemberPairs(ts[i].name, ts[i + 1..i + ts[i].count + 1]))
  {
    if ts[i].count > 0 {
      ClaimInserts(ts, i, ts[i].name, 1, ts[i].count, groups);
    } else {
      assert MemberPairs(ts[i].name, ts[i + 1..i + 1]) == [];
    }
  }

  lemma FlattenAtGroup(ts: seq<Trace>, i: nat, groups: Aliases)
    requires i < |ts| && ts[i].Group?
    ensures var n := ts[i].count;
            n < 0 ==> Flatten(ts, i, groups) == Fail(CountMismatch)
    ensures var n := ts[i].count;
            n >= 0 ==>
            var claimed := Claim(ts, i, ts[i].name, 1, n, groups);
            && (claimed.Ok? <==> i + n < |ts| && AllSignals(ts[i + 1..i + n + 1]))
            && Flatten(ts, i, groups) == if claimed.Ok? then Flatten(ts, i + n + 1, claimed.value) else Fail(claimed.error)
  {
  }

  lemma PairsAtGroup(ts: seq<Trace>, i: nat)
    requires i < |ts| && ts[i].Group?
    ensures var n := ts[i].count;
            AliasPairs(ts[i..]) ==
              if 0 <= n && i + n < |ts| && AllSignals(ts[i + 1..i + n + 1]) then
                var more := AliasPairs(ts[i + n + 1..]);
                if more.None? then None else Some(MemberPairs(ts[i].name, ts[i + 1..i + n + 1]) + more.value)
              else None
  {
    var rest := ts[i..];
    var n := ts[i].count;
    assert rest[0] == ts[i];
    if 0 <= n < |rest| {
      assert rest[1..n + 1] == ts[i + 1..i + n + 1];
      assert rest[n + 1..] == ts[i + n + 1..];
    }
  }

  /** One standalone-signal unit of `FlattenMatches`, given the rest. */
  lemma SignalStep(ts: seq<Trace>, i: nat, groups: Aliases)
    requires i < |ts| && ts[i].Signal?
    requires var s := ts[i].name;
             && (Flatten(ts, i + 1, groups[s := s]).Ok? <==> AliasPairs(ts[i + 1..]).Some?)
             && (Flatten(ts, i + 1, groups[s := s]).Ok? ==>
                   Flatten(ts, i + 1, groups[s := s]).value == Keyed.InsertAll(groups[s := s], AliasPairs(ts[i + 1..]).value))
    ensures Flatten(ts, i, groups).Ok? <==> AliasPairs(ts[i..]).Some?
    ensures Flatten(ts, i, groups).Ok? ==> Flatten(ts, i, groups).value == Keyed.InsertAll(groups, AliasPairs(ts[i..]).value)
  {
    var s := ts[i].name;
    var rest := ts[i..];
    assert rest[0] == ts[i];
    assert rest[1..] == ts[i + 1..];
    if AliasPairs(ts[i + 1..]).Some? {
      Keyed.InsertAllAppend(groups, [(s, s)], AliasPairs(ts[i + 1..]).value);
    }
  }

  /** A standalone signal is its own alias unless a later unit renames it;
      a group's name ends up with its last member's name. */
  lemma AliasOfLastPair(ts: seq<Trace>, k: string, i: int)
    requires AliasPairs(ts).Some? && Keyed.LastFor(AliasPairs(ts).value, k, i)
    ensures Flatten(ts, 0, map[]).Ok?
    ensures k in Flatten(ts, 0, map[]).value && Flatten(ts, 0, map[]).value[k] == AliasPairs(ts).value[i].1
  {
    FlattenMatches(ts, 0, map[]);
    assert ts[0..] == ts;
    Keyed.LastWins(AliasPairs(ts).value);
  }

  /** From an empty map, the loop builds the pairs' map, later pairs
      winning. */
  lemma FlattenFromStart(ts: seq<Trace>)
    ensures Flatten(ts, 0, map[]).Ok? <==> AliasPairs(ts).Some?
    ensures Flatten(ts, 0, map[]).Ok? ==> Flatten(ts, 0, map[]).value == Keyed.MapOf(AliasPairs(ts).value)
  {
    FlattenMatches(ts, 0, map[]);
    assert ts[0..] == ts;
  }

  // ---------------------------------------------------------------------
  // The stricter loop of the first transient view

  /** Every unit from `i` on is a count-1 group header and then a signal. */
  ghost predicate StrictShape(ts: seq<Trace>, i: nat)
  {
    && i <= |ts| && (|ts| - i) % 2 == 0
    && forall k :: i <= k < |ts| ==>
         (ts[k].Group? <==> (k - i) % 2 == 0) && (ts[k].Group? ==> ts[k].count == 1)
  }

  /** Each entry visited at the top of the loop must be a group of count
      one, and the entry after it a signal, which becomes its alias. */
  function StrictFlatten(ts: seq<Trace>, i: nat, groups: Aliases): (r: Result<Aliases>)
    requires i <= |ts|
    ensures r.Ok? <==> StrictShape(ts, i)
    decreases |ts| - i
  {
    if i == |ts| then Ok(groups)
    else
      match ts[i]
      case Signal(_) => Fail(WrongVariant)
      case Group(g, c) =>
        if c != 1 then Fail(CountMismatch)
        else if i + 1 == |ts| then Fail(OutOfBounds)
        else
          match ts[i + 1]
          case Signal(s) =>
            var r := StrictFlatten(ts, i + 2, groups[g := s]);
            assert StrictShape(ts, i) <==> StrictShape(ts, i + 2) by {
              if StrictShape(ts, i + 2) {
                forall k | i <= k < |ts| ensures (ts[k].Group? <==> (k - i) % 2 == 0) {
                  if k >= i + 2 { assert (k - i) % 2 == (k - (i + 2)) % 2; }
                }
              }
              if StrictShape(ts, i) {
                forall k | i + 2 <= k < |ts| ensures (ts[k].Group? <==> (k - (i + 2)) % 2 == 0) {
                  assert (k - i) % 2 == (k - (i + 2)) % 2;
                }
              }
            }
            r
          case Group(_, _) => Fail(WrongVariant)
  }

  /** Where the strict loop succeeds, the general one gives the same map:
      the strict shape is the general loop on count-1 groups. */
  lemma {:induction false} StrictIsGeneral(ts: seq<Trace>, i: nat, groups: Aliases)
    requires i <= |ts| && StrictFlatten(ts, i, groups).Ok?
    ensures Flatten(ts, i, groups) == StrictFlatten(ts, i, groups)
    decreases |ts| - i
  {
    if i < |ts| {
      var g := ts[i].name;
      var s := ts[i + 1].name;
      assert Claim(ts, i, g, 2, 1, groups[g := s]) == Ok(groups[g := s]);
      assert Claim(ts, i, g, 1, 1, groups) == Ok(groups[g := s]);
      StrictIsGeneral(ts, i + 2, groups[g := s]);
    }
  }
}
