/**
  Whole logs: what a sequence of records means, and what loading the bytes of a log, whole or cut off anywhere,
  brings back.
 */
module DepsLogReplay {
  import opened DepsLogFormat

  /** Every record fits where it stands, starting from memory `m`. */
  ghost predicate WellFormed(m: Memory, recs: seq<Record>)
    decreases recs
  {
    recs == [] || (Fits(m, recs[0]) && WellFormed(Apply(m, recs[0]), recs[1..]))
  }

  /** The memory that a sequence of records leads to. */
  ghost function Replay(m: Memory, recs: seq<Record>): Memory
    requires WellFormed(m, recs)
    decreases recs
  {
    if recs == [] then m else Replay(Apply(m, recs[0]), recs[1..])
  }

  ghost function EncodeAll(m: Memory, recs: seq<Record>): seq<Byte>
    requires WellFormed(m, recs)
    decreases recs
  {
    if recs == [] then [] else Encode(m, recs[0]) + EncodeAll(Apply(m, recs[0]), recs[1..])
  }

  ghost function DepsCount(recs: seq<Record>): nat {
    if recs == [] then 0 else (if recs[0].DepsRecord? then 1 else 0) + DepsCount(recs[1..])
  }

  /** The outputs that have dependencies. */
  ghost function LiveIds(deps: seq<Option<Deps>>): set<nat> {
    set i | 0 <= i < |deps| && deps[i].Some?
  }

  // ----- Loading -----

  /** How loading ends: at the end of the file, at a damaged record, or outside what the program defines. */
  datatype LoadEnd = EndOfFile | CutAt(offset: nat) | OutsideContract

  /** Loading so far: the memory, the offset reached, the deps records seen and the outputs they were for. */
  datatype LoadState = LoadState(m: Memory, offset: nat, total: nat, unique: nat)

  /** Read records from `s`, the rest of the file. */
  function LoadFrom(s: seq<Byte>, st: LoadState): (r: (LoadState, LoadEnd))
    ensures st.offset <= r.0.offset <= st.offset + |s|
    decreases |s|
  {
    match ReadOne(s, st.m)
    case AtEnd => (st, EndOfFile)
    case Damaged => (st, CutAt(st.offset))
    case Undefined => (st, OutsideContract)
    case ReadRecord(m, size, isDeps, isNew) => LoadFrom(s[size..], Advance(st, m, size, isDeps, isNew))
  }

  function Advance(st: LoadState, m: Memory, size: nat, isDeps: bool, isNew: bool): LoadState {
    LoadState(m, st.offset + size, st.total + (if isDeps then 1 else 0), st.unique + (if isDeps && isNew then 1 else 0))
  }

  const START := LoadState(EMPTY, 16, 0, 0)

  /** The state of loading once exactly the records `recs` have been read from `st` on. */
  ghost function Reached(st: LoadState, recs: seq<Record>): LoadState
    requires WellFormed(st.m, recs)
    decreases recs
  {
    if recs == [] then st else Reached(AfterRecord(st, recs[0]), recs[1..])
  }

  ghost function AfterRecord(st: LoadState, r: Record): LoadState
    requires Fits(st.m, r)
  {
    Advance(st, Apply(st.m, r), |Encode(st.m, r)|, r.DepsRecord?,
            r.DepsRecord? && (r.out >= |st.m.deps| || st.m.deps[r.out].None?))
  }

  /** The counters of a load are what they are said to be. */
  lemma {:induction false} ReachedFacts(st: LoadState, recs: seq<Record>)
    requires WellFormed(st.m, recs) && st.unique == |LiveIds(st.m.deps)|
    ensures Reached(st, recs).m == Replay(st.m, recs)
    ensures Reached(st, recs).offset == st.offset + |EncodeAll(st.m, recs)|
    ensures Reached(st, recs).total == st.total + DepsCount(recs)
    ensures Reached(st, recs).unique == |LiveIds(Replay(st.m, recs).deps)|
    decreases |recs|
  {
    if recs != [] {
      hide Encode;
      if recs[0].DepsRecord? {
        UpdateDepsCounts(st.m.deps, recs[0].out, Deps(recs[0].mtime, Resolve(st.m.nodes, recs[0].inputs)));
      }
      ReachedFacts(AfterRecord(st, recs[0]), recs[1..]);
    }
  }

  lemma UpdateDepsCounts(deps: seq<Option<Deps>>, out: nat, d: Deps)
    ensures var fresh_ := out >= |deps| || deps[out].None?;
      |LiveIds(UpdateDeps(deps, out, d))| == |LiveIds(deps)| + (if fresh_ then 1 else 0)
  {
    assert LiveIds(UpdateDeps(deps, out, d)) == LiveIds(deps) + {out};
    if out < |deps| && deps[out].Some? {
      assert out in LiveIds(deps);
      assert LiveIds(deps) + {out} == LiveIds(deps);
    }
  }

  /** The number of records that lie completely within the first `n` bytes. */
  ghost function WholeRecords(m: Memory, recs: seq<Record>, n: nat): (k: nat)
    requires WellFormed(m, recs)
    ensures k <= |recs|
    decreases recs
  {
    if recs == [] || n < |Encode(m, recs[0])| then 0
    else 1 + WholeRecords(Apply(m, recs[0]), recs[1..], n - |Encode(m, recs[0])|)
  }

  /** How many of the first `n` bytes belong to complete records. */
  ghost function WholeBytes(m: Memory, recs: seq<Record>, n: nat): (b: nat)
    requires WellFormed(m, recs)
    ensures b <= n
    decreases recs
  {
    if recs == [] || n < |Encode(m, recs[0])| then 0
    else |Encode(m, recs[0])| + WholeBytes(Apply(m, recs[0]), recs[1..], n - |Encode(m, recs[0])|)
  }

  lemma {:induction false} WholeRecordsFit(m: Memory, recs: seq<Record>, n: nat)
    requires WellFormed(m, recs)
    ensures var k := WholeRecords(m, recs, n);
      WellFormed(m, recs[..k]) && |EncodeAll(m, recs[..k])| == WholeBytes(m, recs, n)
    decreases |recs|
  {
    hide Encode, Apply, Fits;
    if recs != [] && n >= |Encode(m, recs[0])| {
      WholeRecordsFit(Apply(m, recs[0]), recs[1..], n - |Encode(m, recs[0])|);
      var k := WholeRecords(m, recs, n);
      assert recs[..k][1..] == recs[1..][..k - 1];
    }
  }

  /** Cutting off `n` bytes of the records of a log and loading them, from any point of a load. */
  lemma {:induction false} LoadPrefix(st: LoadState, recs: seq<Record>, n: nat)
    requires WellFormed(st.m, recs) && n <= |EncodeAll(st.m, recs)|
    ensures var k := WholeRecords(st.m, recs, n);
      var left := n - WholeBytes(st.m, recs, n);
      && WellFormed(st.m, recs[..k])
      && LoadFrom(EncodeAll(st.m, recs)[..n], st)
         == (Reached(st, recs[..k]), if left < 4 then EndOfFile else CutAt(Reached(st, recs[..k]).offset))
    decreases |recs|
  {
    hide Encode, ReadOne;
    var k := WholeRecords(st.m, recs, n);
    var s := EncodeAll(st.m, recs)[..n];
    if recs == [] {
      EmptyIsEnd(st.m);
    } else {
      var now := Encode(st.m, recs[0]);
      var later := EncodeAll(Apply(st.m, recs[0]), recs[1..]);
      if n < |now| {
        assert s == now[..n];
        CutRecordIsDamaged(st.m, recs[0], n);
        assert recs[..k] == [];
      } else {
        assert s == now + later[..n - |now|];
        RecordReadsBack(st.m, recs[0], later[..n - |now|]);
        assert s[|now|..] == later[..n - |now|];
        LoadPrefix(AfterRecord(st, recs[0]), recs[1..], n - |now|);
        assert recs[..k][1..] == recs[1..][..k - 1];
      }
    }
  }

  lemma EmptyIsEnd(m: Memory)
    ensures ReadOne([], m) == AtEnd
  {
  }

  /**
    Crash recovery: cut a log anywhere after its header, and loading brings back exactly the memory of its complete
    records. A cut-off record is recognised and the offset reported is the boundary before it, unless so little of it
    is left, one to three bytes, that loading takes them for the end of the file.
   */
  lemma CrashRecovery(recs: seq<Record>, n: nat)
    requires WellFormed(EMPTY, recs) && n <= |EncodeAll(EMPTY, recs)|
    ensures var k := WholeRecords(EMPTY, recs, n);
      var boundary := 16 + WholeBytes(EMPTY, recs, n);
      var (st, end) := LoadFrom(EncodeAll(EMPTY, recs)[..n], START);
      && WellFormed(EMPTY, recs[..k]) && st.m == Replay(EMPTY, recs[..k])
      && boundary == 16 + |EncodeAll(EMPTY, recs[..k])|
      && st.total == DepsCount(recs[..k]) && st.unique == |LiveIds(st.m.deps)|
      && end == if 16 + n - boundary < 4 then EndOfFile else CutAt(boundary)
  {
    hide LoadFrom, Encode;
    LoadPrefix(START, recs, n);
    WholeRecordsFit(EMPTY, recs, n);
    assert LiveIds([]) == {};
    ReachedFacts(START, recs[..WholeRecords(EMPTY, recs, n)]);
  }

  lemma {:induction false} AllRecordsWhole(m: Memory, recs: seq<Record>)
    requires WellFormed(m, recs)
    ensures WholeRecords(m, recs, |EncodeAll(m, recs)|) == |recs|
    ensures WholeBytes(m, recs, |EncodeAll(m, recs)|) == |EncodeAll(m, recs)|
    decreases |recs|
  {
    if recs != [] {
      AllRecordsWhole(Apply(m, recs[0]), recs[1..]);
    }
  }

  /** The whole log loads to the memory it was written from. */
  lemma LoadReplays(recs: seq<Record>)
    requires WellFormed(EMPTY, recs)
    ensures var (st, end) := LoadFrom(EncodeAll(EMPTY, recs), START);
      && st.m == Replay(EMPTY, recs) && end == EndOfFile
      && st.total == DepsCount(recs) && st.unique == |LiveIds(st.m.deps)|
  {
    hide LoadFrom, Encode;
    var bytes := EncodeAll(EMPTY, recs);
    assert bytes[..|bytes|] == bytes && recs[..|recs|] == recs;
    AllRecordsWhole(EMPTY, recs);
    CrashRecovery(recs, |bytes|);
  }

  // ----- Loading on -----

  /** Complete records are read one by one, whatever follows them. */
  lemma {:induction false} LoadGoesOn(st: LoadState, recs: seq<Record>, more: seq<Byte>)
    requires WellFormed(st.m, recs)
    ensures LoadFrom(EncodeAll(st.m, recs) + more, st) == LoadFrom(more, Reached(st, recs))
    decreases |recs|
  {
    hide Encode, ReadOne;
    if recs == [] {
      assert EncodeAll(st.m, recs) + more == more;
    } else {
      var now, later := Encode(st.m, recs[0]), EncodeAll(Apply(st.m, recs[0]), recs[1..]);
      var s := EncodeAll(st.m, recs) + more;
      assert s == now + (later + more) && s[|now|..] == later + more;
      RecordReadsBack(st.m, recs[0], later + more);
      LoadGoesOn(AfterRecord(st, recs[0]), recs[1..], more);
    }
  }

  /** A record is read from its own bytes. */
  lemma ReadOneLooksAt(s: seq<Byte>, m: Memory, k: nat)
    requires ReadOne(s, m).ReadRecord? && ReadOne(s, m).size <= k <= |s|
    ensures ReadOne(s[..k], m) == ReadOne(s, m)
  {
    hide ReadDeps, ReadPath, DecodeWord;
    assert s[..k][..4] == s[..4];
    var size := DecodeWord(s[..4]) % 0x8000_0000;
    assert s[..k][4..4 + size] == s[4..4 + size];
  }

  /** A file that was cut back at a damaged record loads to the same, without damage. */
  lemma {:induction false} LoadAfterCut(s: seq<Byte>, st: LoadState)
    requires LoadFrom(s, st).1.CutAt?
    ensures LoadFrom(s[..LoadFrom(s, st).0.offset - st.offset], st) == (LoadFrom(s, st).0, EndOfFile)
    decreases |s|
  {
    hide ReadOne;
    var k := LoadFrom(s, st).0.offset - st.offset;
    match ReadOne(s, st.m)
    case AtEnd =>
    case Damaged =>
      EmptyIsEnd(st.m);
      assert s[..0] == [];
    case Undefined =>
    case ReadRecord(m, size, isDeps, isNew) =>
      LoadAfterCut(s[size..], Advance(st, m, size, isDeps, isNew));
      ReadOneLooksAt(s, st.m, k);
      assert s[..k][size..] == s[size..][..k - size];
  }

  lemma {:induction false} ReplayJoins(m: Memory, recs: seq<Record>, more: seq<Record>)
    requires WellFormed(m, recs + more)
    ensures WellFormed(m, recs) && WellFormed(Replay(m, recs), more)
    ensures Replay(m, recs + more) == Replay(Replay(m, recs), more)
    ensures EncodeAll(m, recs + more) == EncodeAll(m, recs) + EncodeAll(Replay(m, recs), more)
    decreases |recs|
  {
    hide Encode, Apply, Fits;
    if recs == [] {
      assert recs + more == more;
    } else {
      assert (recs + more)[1..] == recs[1..] + more;
      ReplayJoins(Apply(m, recs[0]), recs[1..], more);
    }
  }

  ghost predicate OnlyPaths(recs: seq<Record>) {
    forall r | r in recs :: r.PathRecord?
  }

  /** Path records add paths and leave what is known of dependencies alone. */
  lemma {:induction false} PathsKeepDeps(m: Memory, recs: seq<Record>)
    requires WellFormed(m, recs) && OnlyPaths(recs)
    ensures Replay(m, recs).deps == m.deps && m.nodes <= Replay(m, recs).nodes
    decreases |recs|
  {
    hide Fits;
    if recs != [] {
      assert recs[0] in recs;
      PathsKeepDeps(Apply(m, recs[0]), recs[1..]);
    }
  }

  /**
    A crash in the middle of what was appended to the records `before`: those are all read, and all the new ones whose
    bytes are complete.
   */
  lemma CrashWhileAppending(before: seq<Record>, added: seq<Record>, n: nat) returns (k: nat)
    requires WellFormed(EMPTY, before + added)
    requires WellFormed(EMPTY, before)
    requires |EncodeAll(EMPTY, before)| <= n <= |EncodeAll(EMPTY, before + added)|
    ensures k <= |added| && (k == |added| <==> n == |EncodeAll(EMPTY, before + added)|)
    ensures WellFormed(Replay(EMPTY, before), added[..k])
    ensures var (st, end) := LoadFrom(EncodeAll(EMPTY, before + added)[..n], START);
      st.m == Replay(Replay(EMPTY, before), added[..k]) && end != OutsideContract
  {
    hide Encode, LoadFrom, Apply, Fits;
    ReplayJoins(EMPTY, before, added);
    var all := EncodeAll(EMPTY, before + added);
    var whole, rest := EncodeAll(EMPTY, before), EncodeAll(Replay(EMPTY, before), added);
    var more := n - |whole|;
    assert all[..n] == whole + rest[..more];
    LoadGoesOn(START, before, rest[..more]);
    assert LiveIds([]) == {};
    ReachedFacts(START, before);
    LoadPrefix(Reached(START, before), added, more);
    k := WholeRecords(Replay(EMPTY, before), added, more);
    ReachedFacts(Reached(START, before), added[..k]);
    AllWholeExactly(Replay(EMPTY, before), added, more);
  }

  lemma {:induction false} AllWholeExactly(m: Memory, recs: seq<Record>, n: nat)
    requires WellFormed(m, recs) && n <= |EncodeAll(m, recs)|
    ensures WholeRecords(m, recs, n) == |recs| <==> n == |EncodeAll(m, recs)|
    decreases |recs|
  {
    hide Apply, Fits;
    if recs != [] && n >= |Encode(m, recs[0])| {
      AllWholeExactly(Apply(m, recs[0]), recs[1..], n - |Encode(m, recs[0])|);
    }
  }

  // ----- Appending -----

  lemma {:induction false} AppendRecord(m: Memory, recs: seq<Record>, r: Record)
    requires WellFormed(m, recs) && Fits(Replay(m, recs), r)
    ensures WellFormed(m, recs + [r])
    ensures Replay(m, recs + [r]) == Apply(Replay(m, recs), r)
    ensures EncodeAll(m, recs + [r]) == EncodeAll(m, recs) + Encode(Replay(m, recs), r)
    decreases |recs|
  {
    hide Encode, Apply, Fits;
    if recs == [] {
      assert recs + [r] == [r];
    } else {
      AppendRecord(Apply(m, recs[0]), recs[1..], r);
      assert (recs + [r])[1..] == recs[1..] + [r];
    }
  }

  // ----- What a log's memory looks like -----

  /** Every entry could be written again, and speaks of known paths only. */
  ghost predicate Sound(m: Memory) {
    && (forall i | 0 <= i < |m.nodes| :: Readable(m.nodes[i]) && PathFits(m.nodes[i]))
    && (forall i, j | 0 <= i < j < |m.nodes| :: m.nodes[i] != m.nodes[j])
    && |m.deps| <= |m.nodes| <= 0x8000_0000
    && (forall i | 0 <= i < |m.deps| && m.deps[i].Some? :: SoundDeps(m.nodes, m.deps[i].value))
  }

  ghost predicate SoundDeps(nodes: seq<Path>, d: Deps) {
    IsInt64(d.mtime) && DepsFit(|d.nodes|) && forall p | p in d.nodes :: p in nodes
  }

  lemma ApplySound(m: Memory, r: Record)
    requires Sound(m) && Fits(m, r)
    ensures Sound(Apply(m, r))
  {
    var m' := Apply(m, r);
    match r
    case PathRecord(path, id) =>
      forall i | 0 <= i < |m'.deps| && m'.deps[i].Some? ensures SoundDeps(m'.nodes, m'.deps[i].value) {
        assert SoundDeps(m.nodes, m.deps[i].value);
      }
    case DepsRecord(out, mtime, inputs) =>
      var d := Deps(mtime, Resolve(m.nodes, inputs));
      assert SoundDeps(m.nodes, d);
      forall i | 0 <= i < |m'.deps| && m'.deps[i].Some? ensures SoundDeps(m'.nodes, m'.deps[i].value) {
        if i != out { assert SoundDeps(m.nodes, m.deps[i].value); }
      }
  }

  lemma {:induction false} ReplaySound(m: Memory, recs: seq<Record>)
    requires Sound(m) && WellFormed(m, recs)
    ensures Sound(Replay(m, recs))
    decreases |recs|
  {
    if recs != [] {
      ApplySound(m, recs[0]);
      ReplaySound(Apply(m, recs[0]), recs[1..]);
    }
  }
}
