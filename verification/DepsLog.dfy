/**
  The dependency log as the program keeps it: a table in memory and a file that is only ever appended to, until
  it is recompacted.
 */
module DepsLog {
  import opened DepsLogFormat
  import opened DepsLogReplay
  import opened DepsLogRecovery

  ghost function PathsOf(ps: seq<Path>): set<Path> {
    set p | p in ps
  }

  /** Each id is the position of its path. */
  ghost predicate IdsOk(nodes: seq<Path>, ids: map<Path, nat>) {
    && (forall p | p in ids :: ids[p] < |nodes| && nodes[ids[p]] == p)
    && (forall i | 0 <= i < |nodes| :: nodes[i] in ids && ids[nodes[i]] == i)
    && |ids.Keys| == |nodes|
  }

  ghost function ViewOf(ids: map<Path, nat>, deps: seq<Option<Deps>>): map<Path, Deps> {
    map p | p in ids && ids[p] < |deps| && deps[ids[p]].Some? :: deps[ids[p]].value
  }

  /** A new path gets the next id and has no dependencies yet. */
  lemma NewId(nodes: seq<Path>, ids: map<Path, nat>, deps: seq<Option<Deps>>, p: Path)
    requires IdsOk(nodes, ids) && p !in ids && |deps| <= |nodes|
    ensures IdsOk(nodes + [p], ids[p := |nodes|]) && ViewOf(ids[p := |nodes|], deps) == ViewOf(ids, deps)
    ensures p !in nodes
  {
    hide ViewOf;
    NewIdOnLoad(nodes, ids, p);
    NewIdView(ids, deps, p, |nodes|);
  }

  lemma NewIdView(ids: map<Path, nat>, deps: seq<Option<Deps>>, p: Path, id: nat)
    requires p !in ids && |deps| <= id
    ensures ViewOf(ids[p := id], deps) == ViewOf(ids, deps)
  {
  }

  /** Recording dependencies changes what is known of that path and of no other. */
  lemma NewDeps(nodes: seq<Path>, ids: map<Path, nat>, deps: seq<Option<Deps>>, p: Path, d: Deps)
    requires IdsOk(nodes, ids) && p in ids
    ensures ViewOf(ids, UpdateDeps(deps, ids[p], d)) == ViewOf(ids, deps)[p := d]
  {
    var deps' := UpdateDeps(deps, ids[p], d);
    forall q | q in ids && q != p ensures ids[q] != ids[p] {}
    var l, r := ViewOf(ids, deps'), ViewOf(ids, deps)[p := d];
    forall q | q in ids ensures q in l <==> q in r {
      if q != p && ids[q] < |deps'| && ids[q] >= |deps| { assert deps'[ids[q]] == None; }
    }
    assert forall q | q in l :: l[q] == r[q];
  }

  /** How a load ended, as far as the caller can tell. */
  datatype LoadStatus = Loaded | Recovered | StartedOver | NotDefined

  class DepsLog {
    var file: seq<Byte>
    var nodes: seq<Path>
    var ids: map<Path, nat>
    var deps: seq<Option<Deps>>
    var needsRecompaction: bool
    ghost var recs: seq<Record>

    constructor ()
      ensures Valid() && file == [] && nodes == [] && ids == map[] && deps == [] && View() == map[]
    {
      file, nodes, ids, deps, needsRecompaction, recs := [], [], map[], [], false, [];
    }

    /** The file holds the records `recs` and memory is what they replay to. */
    ghost predicate Valid()
      reads this
    {
      && WellFormed(EMPTY, recs)
      && Memory(nodes, deps) == Replay(EMPTY, recs)
      && (file == HEADER + EncodeAll(EMPTY, recs) || (file == [] && recs == []))
      && IdsOk(nodes, ids)
    }

    /** The dependencies on record, by path. */
    ghost function View(): map<Path, Deps>
      reads this
    {
      ViewOf(ids, deps)
    }

    /** What the log knows of a path. */
    method GetDeps(p: Path) returns (d: Option<Deps>)
      ensures d == if p in View() then Some(View()[p]) else None
    {
      if p !in ids || ids[p] >= |deps| {
        return None;
      }
      return deps[ids[p]];
    }

    /** A new or emptied file starts with the header. */
    method OpenForWriteIfNeeded()
      requires Valid()
      modifies this`file
      ensures Valid() && file == HEADER + EncodeAll(EMPTY, recs)
      ensures old(file) <= file
    {
      if file == [] {
        file := HEADER;
        assert HEADER + EncodeAll(EMPTY, []) == HEADER;
      }
    }

    /** Append one record to the file; memory is up to the caller. */
    method Append(bytes: seq<Byte>, ghost r: Record)
      requires Valid() && Fits(Memory(nodes, deps), r) && bytes == Encode(Memory(nodes, deps), r)
      modifies this`file, this`recs
      ensures old(file) <= file && recs == old(recs) + [r]
      ensures WellFormed(EMPTY, recs) && Replay(EMPTY, recs) == Apply(Memory(nodes, deps), r)
      ensures file == HEADER + EncodeAll(EMPTY, recs)
    {
      hide Encode, Apply, Fits;
      OpenForWriteIfNeeded();
      AppendRecord(EMPTY, recs, r);
      recs := recs + [r];
      file := file + bytes;
    }

    /** Give a path the next id and write it down. Fails when its record would be too long. */
    method RecordId(p: Path) returns (ok: bool)
      requires Valid() && p !in ids && Readable(p) && |nodes| < 0x8000_0000
      modifies this`file, this`nodes, this`ids, this`recs
      ensures Valid() && ok == PathFits(p) && old(file) <= file
      ensures ok ==> recs == old(recs) + [PathRecord(p, old(|nodes|))]
      ensures ok ==> nodes == old(nodes) + [p] && ids == old(ids)[p := old(|nodes|)] && View() == old(View())
      ensures !ok ==> unchanged(this)
    {
      var size := PathRecordSize(p);
      if size > MAX_RECORD_SIZE {
        return false;
      }
      hide IdsOk, ViewOf, WellFormed, EncodeAll, Replay;
      DepsWithinNodes();
      NewId(nodes, ids, deps, p);
      Append(EncodePath(p, |nodes|), PathRecord(p, |nodes|));
      ids := ids[p := |nodes|];
      nodes := nodes + [p];
      return true;
    }

    /** The table of dependencies is no longer than the table of paths. */
    lemma DepsWithinNodes()
      requires Valid()
      ensures |deps| <= |nodes| && Sound(Memory(nodes, deps))
    {
      ReplaySound(EMPTY, recs);
    }

    /** Whether all paths have ids and the log already says exactly this. */
    ghost predicate AlreadySays(p: Path, mtime: int, inputs: seq<Path>)
      reads this
    {
      p in ids && (forall q | q in inputs :: q in ids) && p in View() && View()[p] == Deps(mtime, inputs)
    }

    /** Make sure a path has an id. */
    method EnsureId(p: Path) returns (ok: bool, made: bool)
      requires Valid() && Readable(p) && (p !in ids ==> |ids.Keys| < 0x8000_0000)
      modifies this`file, this`nodes, this`ids, this`recs
      ensures Valid() && old(file) <= file && old(nodes) <= nodes && View() == old(View())
      ensures ok == (p in old(ids) || PathFits(p))
      ensures made == (ok && p !in old(ids))
      ensures ids.Keys == if ok then old(ids.Keys) + {p} else old(ids.Keys)
      ensures AddsPaths(old(recs), recs) && (!made ==> unchanged(this))
    {
      hide EncodeAll, Replay;
      NoPathsAdded(recs);
      if p in ids {
        return true, false;
      }
      ok := RecordId(p);
      made := ok;
    }

    /** Make sure every given path has an id, stopping at the first whose record would be too long. */
    method RecordIds(paths: seq<Path>) returns (ok: bool, made: bool)
      requires Valid() && (forall q | q in paths :: Readable(q))
      requires |ids.Keys + PathsOf(paths)| <= 0x8000_0000
      modifies this`file, this`nodes, this`ids, this`recs
      ensures Valid() && old(file) <= file && old(nodes) <= nodes && View() == old(View())
      ensures ok == NewOnesFit(old(ids.Keys), paths)
      ensures ok ==> ids.Keys == old(ids.Keys) + PathsOf(paths)
      ensures old(ids.Keys) <= ids.Keys <= old(ids.Keys) + PathsOf(paths)
      ensures made == (ids.Keys != old(ids.Keys)) && (!made ==> unchanged(this))
      ensures AddsPaths(old(recs), recs)
    {
      hide AddsPaths, IdsOk, PathFits, Readable, Valid, ViewOf;
      made := false;
      NoPathsAdded(recs);
      for k := 0 to |paths|
        invariant AddsPaths(old(recs), recs)
        invariant Valid() && old(file) <= file && old(nodes) <= nodes && View() == old(View())
        invariant NewOnesFit(old(ids.Keys), paths[..k])
        invariant ids.Keys == old(ids.Keys) + PathsOf(paths[..k])
        invariant made == (ids.Keys != old(ids.Keys)) && (!made ==> unchanged(this))
      {
        TakeOneMore(paths, k);
        RoomFor(ids.Keys, paths[k], old(ids.Keys) + PathsOf(paths));
        ghost var before := recs;
        var recorded, made1 := EnsureId(paths[k]);
        MorePathsAdded(old(recs), before, recs);
        if !recorded {
          return false, made;
        }
        made := made || made1;
      }
      assert paths[..|paths|] == paths;
      return true, made;
    }

    /**
      Record what an output was made from. Nothing is written when the log already says it; the call fails, leaving
      what is known unchanged, exactly when a new path or the list itself is too long to be written.
     */
    method RecordDeps(p: Path, mtime: int, inputs: seq<Path>) returns (ok: bool)
      requires Valid() && IsInt64(mtime) && forall q | q in [p] + inputs :: Readable(q)
      requires |ids.Keys + PathsOf([p] + inputs)| <= 0x8000_0000
      modifies this`file, this`nodes, this`ids, this`deps, this`recs
      ensures Valid() && old(file) <= file && old(nodes) <= nodes
      ensures ok == (NewOnesFit(old(ids.Keys), [p] + inputs) && (old(AlreadySays(p, mtime, inputs)) || DepsFit(|inputs|)))
      ensures View() == if ok then old(View())[p := Deps(mtime, inputs)] else old(View())
      ensures old(AlreadySays(p, mtime, inputs)) ==> ok && unchanged(this)
      ensures old(ids.Keys) <= ids.Keys <= old(ids.Keys) + PathsOf([p] + inputs)
      ensures ok ==> ids.Keys == old(ids.Keys) + PathsOf([p] + inputs)
      ensures IsOneCall(old(recs), recs)
    {
      hide Readable, PathFits, ViewOf, WellFormed, EncodeAll, Replay, IdsOk, AddsPaths, IsOneCall;
      KnownPaths(ids.Keys, p, inputs);
      var made;
      ghost var before := recs;
      ok, made := RecordIds([p] + inputs);
      PathsAreOneCall(before, recs);
      if !ok {
        return;
      }
      if !made {
        var existing := GetDeps(p);
        if existing == Some(Deps(mtime, inputs)) {
          ViewUpdateSame(View(), p, existing.value);
          return;
        }
      }
      if DepsRecordSize(|inputs|) > MAX_RECORD_SIZE {
        return false;
      }
      DepsAreOneCall(before, recs);
      WriteDeps(p, mtime, inputs);
    }

    /** Write a deps record whose paths all have ids, and update the table. */
    method WriteDeps(p: Path, mtime: int, inputs: seq<Path>)
      requires Valid() && IsInt64(mtime) && DepsFit(|inputs|)
      requires forall q | q in [p] + inputs :: q in ids
      modifies this`file, this`deps, this`recs
      ensures Valid() && old(file) <= file && View() == old(View())[p := Deps(mtime, inputs)]
      ensures exists r :: recs == old(recs) + [r]
    {
      hide IdsOk, Fits, Apply, Encode;
      DepsWithinNodes();
      DepsRecordFits(nodes, ids, deps, p, mtime, inputs);
      NewDeps(nodes, ids, deps, p, Deps(mtime, inputs));
      ghost var r := DepsRecord(ids[p], mtime, IdsOf(ids, inputs));
      Append(EncodeDeps(ids[p], mtime, IdsOf(ids, inputs)), r);
      deps := UpdateDeps(deps, ids[p], Deps(mtime, inputs));
    }

    /**
      Read a file into a new log. The result agrees with `LoadFrom`; a file whose header is not right is dropped, a
      damaged one is cut back to the last record read. The log can be used from then on exactly if the file that is
      left is a log, or empty.
     */
    method Load() returns (status: LoadStatus)
      requires nodes == [] && deps == [] && ids == map[]
      modifies this
      ensures !HasHeader(old(file)) ==> status == StartedOver && file == [] && nodes == [] && deps == []
      ensures HasHeader(old(file)) ==>
                var (st, end) := LoadFrom(old(file)[16..], START);
                && status != StartedOver
                && (status == NotDefined <==> end == OutsideContract)
                && (status != NotDefined ==>
                      && Memory(nodes, deps) == st.m
                      && file == (if end.CutAt? then old(file)[..st.offset] else old(file))
                      && (status == Recovered <==> end.CutAt?)
                      && (needsRecompaction <==> end == EndOfFile && st.total > 1000 && st.total > st.unique * 3))
      ensures status != NotDefined ==> IdsOk(nodes, ids) && (Valid() <==> file == [] || IsLog(file))
    {
      hide LoadFrom, IsLog;
      needsRecompaction := false;
      if |file| < 16 || file[..16] != HEADER {
        file, recs := [], [];
        return StartedOver;
      }
      ghost var was := file;
      status := LoadRecords();
      if status != NotDefined {
        LoadedFile(was, file);
        FindRecords();
      }
    }

    /** The records of a file that was loaded and is a log. */
    ghost method FindRecords()
      requires HasHeader(file) && IdsOk(nodes, ids)
      requires IsLog(file) ==> Memory(nodes, deps) == LoadFrom(file[16..], START).0.m
      modifies this`recs
      ensures Valid() <==> IsLog(file)
    {
      hide LoadFrom, IdsOk, Replay, EncodeAll, WellFormed;
      if IsLog(file) {
        recs := RecordsOf(file);
        assert file[16..] == EncodeAll(EMPTY, recs);
        LoadReplays(recs);
      } else {
        ValidIsLog();
      }
    }

    lemma ValidIsLog()
      requires file != []
      ensures Valid() ==> IsLog(file)
    {
      hide EncodeAll, Replay, WellFormed;
    }

    method LoadRecords() returns (status: LoadStatus)
      requires |file| >= 16 && nodes == [] && deps == [] && ids == map[] && !needsRecompaction
      modifies this
      ensures var (st, end) := LoadFrom(old(file)[16..], START);
        && (status == NotDefined <==> end == OutsideContract)
        && (status != NotDefined ==>
              && Memory(nodes, deps) == st.m
              && file == (if end.CutAt? then old(file)[..st.offset] else old(file))
              && (status == Recovered <==> end.CutAt?)
              && (needsRecompaction <==> end == EndOfFile && st.total > 1000 && st.total > st.unique * 3))
      ensures status == Loaded || status == Recovered || status == NotDefined
      ensures status != NotDefined ==> IdsOk(nodes, ids)
    {
      hide LoadFrom, ReadOne, Valid;
      var offset, total, unique := 16, 0, 0;
      assert START == LoadState(Memory([], []), 16, 0, 0);
      assert IdsOk([], map[]);
      while true
        invariant file == old(file) && 16 <= offset <= |file| && !needsRecompaction
        invariant IdsOk(nodes, ids) && |deps| >= 0
        invariant LoadFrom(file[offset..], LoadState(Memory(nodes, deps), offset, total, unique))
               == LoadFrom(file[16..], START)
        decreases |file| - offset
      {
        LoadStep(file[offset..], LoadState(Memory(nodes, deps), offset, total, unique));
        match ReadOne(file[offset..], Memory(nodes, deps)) {
          case AtEnd =>
            needsRecompaction := total > 1000 && total > unique * 3;
            return Loaded;
          case Damaged =>
            file := file[..offset];
            return Recovered;
          case Undefined =>
            return NotDefined;
          case ReadRecord(m, size, isDeps, isNew) =>
            ReadAddsPath(file[offset..], Memory(nodes, deps));
            assert file[offset..][size..] == file[offset + size..];
            if !isDeps {
              NewIdOnLoad(nodes, ids, m.nodes[|nodes|]);
              ids := ids[m.nodes[|nodes|] := |nodes|];
            } else {
              total := total + 1;
              if isNew {
                unique := unique + 1;
              }
            }
            nodes, deps := m.nodes, m.deps;
            offset := offset + size;
        }
      }
    }

    /** The file of a valid log loads to what is in memory. */
    lemma ReloadsToMemory()
      requires Valid() && file != []
      ensures HasHeader(file)
      ensures var (st, end) := LoadFrom(file[16..], START);
        st.m == Memory(nodes, deps) && end == EndOfFile
    {
      hide LoadFrom, EncodeAll, Replay, WellFormed;
      assert file[16..] == EncodeAll(EMPTY, recs);
      LoadReplays(recs);
    }

    lemma FileHolds()
      requires Valid() && file != []
      ensures WellFormed(EMPTY, recs) && file == HEADER + EncodeAll(EMPTY, recs)
      ensures Memory(nodes, deps) == Replay(EMPTY, recs) && IdsOk(nodes, ids) && |deps| <= |nodes|
    {
      hide EncodeAll, IdsOk, Replay, Sound;
      DepsWithinNodes();
    }

    /** Everything on record can be written again. */
    lemma EntryIsSound(i: nat)
      requires Valid() && i < |deps| && deps[i].Some?
      ensures i < |nodes| && nodes[i] in ids && ids[nodes[i]] == i
      ensures nodes[i] in View() && View()[nodes[i]] == deps[i].value
      ensures IsInt64(deps[i].value.mtime) && DepsFit(|deps[i].value.nodes|)
      ensures forall q | q in [nodes[i]] + deps[i].value.nodes :: q in ids && Readable(q) && PathFits(q)
      ensures |ids.Keys| <= 0x8000_0000
    {
      hide Replay, Readable;
      DepsWithinNodes();
      assert SoundDeps(nodes, deps[i].value);
      forall q | q in [nodes[i]] + deps[i].value.nodes ensures q in ids && Readable(q) && PathFits(q) {
        assert q in nodes;
      }
    }

    /** Record an entry taken from another log, whose paths are `known` there. */
    method CopyEntry(p: Path, d: Deps, ghost known: set<Path>) returns (ok: bool)
      requires Valid() && ids.Keys <= known && |known| <= 0x8000_0000
      requires IsInt64(d.mtime) && DepsFit(|d.nodes|)
      requires forall q | q in [p] + d.nodes :: q in known && Readable(q) && PathFits(q)
      modifies this
      ensures ok && Valid() && View() == old(View())[p := d]
      ensures ids.Keys == old(ids.Keys) + PathsOf([p] + d.nodes) && ids.Keys <= known
    {
      hide IdsOk, ViewOf, Readable;
      SubsetIsSmaller(ids.Keys + PathsOf([p] + d.nodes), known);
      ok := RecordDeps(p, d.mtime, d.nodes);
    }

    /** Record an entry in the new log if there is one and its path is live. */
    method CopyIfLive(newLog: DepsLog, oldId: nat, live: set<Path>) returns (ok: bool)
      requires Valid() && oldId < |deps| <= |nodes| && newLog != this && newLog.Valid()
      requires newLog.ids.Keys <= ids.Keys && newLog.View() == Compacted(nodes, deps, live, oldId)
      requires InUse(newLog.ids.Keys, newLog.View())
      modifies newLog
      ensures ok && newLog.Valid() && newLog.ids.Keys <= ids.Keys
      ensures newLog.View() == Compacted(nodes, deps, live, oldId + 1) && InUse(newLog.ids.Keys, newLog.View())
    {
      assert IdsOk(nodes, ids);
      if deps[oldId].Some? {
        EntryIsSound(oldId);
        if nodes[oldId] in live {
          ghost var before, known := newLog.View(), newLog.ids.Keys;
          NotYetCompacted(nodes, ids, deps, live, oldId);
          ok := newLog.CopyEntry(nodes[oldId], deps[oldId].value, ids.Keys);
          StillInUse(known, newLog.ids.Keys, before, nodes[oldId], deps[oldId].value);
        }
      }
      ok := true;
    }

    /**
      Write the live entries to a new log, with new ids, and take its place. This never fails: what is known of live
      paths is kept, everything else is dropped, and only paths still in use have ids.
     */
    method Recompact(live: set<Path>) returns (ok: bool)
      requires Valid()
      modifies this
      ensures ok && Valid() && HasHeader(file)
      ensures View() == map p | p in old(View()) && p in live :: old(View())[p]
      ensures forall p | p in ids :: p in View() || exists q | q in View() :: p in View()[q].nodes
      ensures needsRecompaction == old(needsRecompaction)
    {
      hide Compacted, EncodeAll, IdsOk, Replay, Sound, ViewOf, WellFormed;
      DepsWithinNodes();
      var newLog := new DepsLog();
      NothingCopied(nodes, deps, live);
      for oldId := 0 to |deps|
        invariant Valid() && unchanged(this) && newLog.Valid() && fresh(newLog) && newLog.ids.Keys <= ids.Keys
        invariant newLog.View() == Compacted(nodes, deps, live, oldId)
        invariant InUse(newLog.ids.Keys, newLog.View())
      {
        ok := CopyIfLive(newLog, oldId, live);
        if !ok {
          return;
        }
      }
      CompactedView(nodes, ids, deps, live);
      newLog.OpenForWriteIfNeeded();
      ok := true;
      file, nodes, ids, deps, recs := newLog.file, newLog.nodes, newLog.ids, newLog.deps, newLog.recs;
    }

    /** Before anything is recorded in this session, a log that the load found wasteful is recompacted. */
    method OpenForWrite(live: set<Path>) returns (ok: bool)
      requires Valid()
      modifies this
      ensures ok && Valid() && needsRecompaction == old(needsRecompaction)
      ensures !needsRecompaction ==> unchanged(this)
      ensures needsRecompaction ==> View() == map p | p in old(View()) && p in live :: old(View())[p]
    {
      ok := true;
      if needsRecompaction {
        ok := Recompact(live);
      }
    }
  }

  // ----- Sessions -----

  /** Only path records were added. */
  ghost predicate AddsPaths(before: seq<Record>, after: seq<Record>) {
    before <= after && OnlyPaths(after[|before|..])
  }

  /** Only path records were added, with at most one other record behind them. */
  ghost predicate IsOneCall(before: seq<Record>, after: seq<Record>) {
    before <= after && (OnlyPaths(after[|before|..]) || (before != after && OnlyPaths(after[|before|..|after| - 1])))
  }

  lemma PathsAreOneCall(before: seq<Record>, after: seq<Record>)
    requires AddsPaths(before, after)
    ensures IsOneCall(before, after)
  {
  }

  lemma DepsAreOneCall(before: seq<Record>, after: seq<Record>)
    requires AddsPaths(before, after)
    ensures forall r :: IsOneCall(before, after + [r])
  {
    forall r ensures IsOneCall(before, after + [r]) {
      assert (after + [r])[|before|..|after|] == after[|before|..];
    }
  }

  lemma NoPathsAdded(recs: seq<Record>)
    ensures AddsPaths(recs, recs)
  {
  }

  lemma MorePathsAdded(a: seq<Record>, b: seq<Record>, d: seq<Record>)
    requires AddsPaths(a, b) && AddsPaths(b, d)
    ensures AddsPaths(a, d)
  {
    assert d[|a|..] == b[|a|..] + d[|b|..];
  }

  ghost function RecordsOf(file: seq<Byte>): (recs: seq<Record>)
    requires IsLog(file)
    ensures WellFormed(EMPTY, recs) && file == HEADER + EncodeAll(EMPTY, recs)
  {
    var recs :| WellFormed(EMPTY, recs) && file == HEADER + EncodeAll(EMPTY, recs);
    recs
  }

  /** What loading leaves of a file loads to the same memory again. */
  lemma LoadedFile(was: seq<Byte>, file: seq<Byte>)
    requires HasHeader(was)
    requires var (st, end) := LoadFrom(was[16..], START);
      end != OutsideContract && file == if end.CutAt? then was[..st.offset] else was
    ensures HasHeader(file) && LoadFrom(file[16..], START).0.m == LoadFrom(was[16..], START).0.m
  {
    hide LoadFrom;
    var (st, end) := LoadFrom(was[16..], START);
    if end.CutAt? {
      LoadAfterCut(was[16..], START);
      assert file[16..] == was[16..][..st.offset - 16];
      assert file[..16] == was[..16];
    }
  }

  /** What is known of dependencies depends on the table and on the ids of the paths in it. */
  lemma SameView(nodes: seq<Path>, ids: map<Path, nat>, nodes': seq<Path>, ids': map<Path, nat>, deps: seq<Option<Deps>>)
    requires IdsOk(nodes, ids) && IdsOk(nodes', ids') && nodes <= nodes' && |deps| <= |nodes|
    ensures ViewOf(ids', deps) == ViewOf(ids, deps)
  {
    forall p | p in ids' && ids'[p] < |nodes| ensures p in ids && ids[p] == ids'[p] {
      assert nodes[ids'[p]] == p;
    }
    forall p | p in ids ensures p in ids' && ids'[p] == ids[p] {
      assert nodes'[ids[p]] == p;
    }
  }

  /**
    A crash while dependencies are recorded, and the next session: of the bytes that the call appended any number
    reached the disk. The next load finds what was known before the call, or, if all of them did, what was known after
    it; so a call happens as a whole or not at all. The log can be used again unless the crash left a tail of one to
    three bytes.
   */
  method RecordThenCrash(log: DepsLog, p: Path, mtime: int, inputs: seq<Path>, written: nat)
      returns (ok: bool, next: DepsLog, status: LoadStatus)
    requires log.Valid() && log.file != [] && IsInt64(mtime) && forall q | q in [p] + inputs :: Readable(q)
    requires |log.ids.Keys + PathsOf([p] + inputs)| <= 0x8000_0000
    modifies log
    ensures fresh(next) && (status == Loaded || status == Recovered) && log.Valid() && old(log.file) <= log.file
    ensures next.View() == if |old(log.file)| + written >= |log.file| then log.View() else old(log.View())
    ensures next.Valid() <==> IsLog(next.file)
  {
    hide LoadFrom, IdsOk, Readable, IsLog, EncodeAll, Replay, WellFormed, IsOneCall, ViewOf, DepsLog.Valid;
    ghost var before, m, ids := log.recs, Memory(log.nodes, log.deps), log.ids;
    var size := |log.file|;
    log.FileHolds();
    ok := log.RecordDeps(p, mtime, inputs);
    log.FileHolds();
    var n := if size + written < |log.file| then size + written else |log.file|;
    next := new DepsLog();
    next.file := log.file[..n];
    CutFile(log.file, before, log.recs, n);
    status := next.Load();
    if n == |log.file| {
      SameView(log.nodes, log.ids, next.nodes, next.ids, log.deps);
    } else {
      SameView(m.nodes, ids, next.nodes, next.ids, m.deps);
    }
  }

  lemma CutFile(file: seq<Byte>, before: seq<Record>, after: seq<Record>, n: nat)
    requires WellFormed(EMPTY, before) && WellFormed(EMPTY, after) && file == HEADER + EncodeAll(EMPTY, after)
    requires IsOneCall(before, after)
    requires 16 + |EncodeAll(EMPTY, before)| <= n <= |file|
    ensures HasHeader(file[..n])
    ensures var (st, end) := LoadFrom(file[..n][16..], START);
      && end != OutsideContract
      && if n == |file| then st.m == Replay(EMPTY, after)
         else st.m.deps == Replay(EMPTY, before).deps && Replay(EMPTY, before).nodes <= st.m.nodes
  {
    hide LoadFrom, IsOneCall, EncodeAll, Replay, WellFormed;
    assert file[..n][16..] == EncodeAll(EMPTY, after)[..n - 16];
    var k := CutAppended(before, after, n - 16);
  }

  /** Loading a log that was cut while records were added to it, of which only the last may change what is known. */
  lemma CutAppended(before: seq<Record>, after: seq<Record>, n: nat) returns (k: nat)
    requires WellFormed(EMPTY, before) && WellFormed(EMPTY, after)
    requires IsOneCall(before, after)
    requires |EncodeAll(EMPTY, before)| <= n <= |EncodeAll(EMPTY, after)|
    ensures var (st, end) := LoadFrom(EncodeAll(EMPTY, after)[..n], START);
      && end != OutsideContract
      && if n == |EncodeAll(EMPTY, after)| then st.m == Replay(EMPTY, after)
         else st.m.deps == Replay(EMPTY, before).deps && Replay(EMPTY, before).nodes <= st.m.nodes
  {
    hide LoadFrom, EncodeAll, Replay, WellFormed;
    assert before <= after;
    var added := after[|before|..];
    assert after == before + added;
    k := CrashWhileAppending(before, added, n);
    if k == |added| {
      assert added[..k] == added;
      ReplayJoins(EMPTY, before, added);
    } else {
      assert OnlyPaths(added[..k]) by {
        assert forall r | r in added[..k] :: r in added && r in added[..|added| - 1];
        assert added[..|added| - 1] == after[|before|..|after| - 1];
      }
      PathsKeepDeps(Replay(EMPTY, before), added[..k]);
    }
  }

  lemma SubsetIsSmaller<T>(a: set<T>, b: set<T>)
    requires a <= b
    ensures |a| <= |b|
  {
    assert b == a + (b - a);
  }

  /** The live entries among the first `k`. */
  ghost function Compacted(nodes: seq<Path>, deps: seq<Option<Deps>>, live: set<Path>, k: nat): map<Path, Deps>
    requires k <= |deps| <= |nodes|
  {
    if k == 0 then map[]
    else
      var before := Compacted(nodes, deps, live, k - 1);
      if deps[k - 1].Some? && nodes[k - 1] in live then before[nodes[k - 1] := deps[k - 1].value] else before
  }

  lemma {:induction false} CompactedIs(nodes: seq<Path>, ids: map<Path, nat>, deps: seq<Option<Deps>>, live: set<Path>,
                                       k: nat)
    requires k <= |deps| <= |nodes| && IdsOk(nodes, ids)
    ensures Compacted(nodes, deps, live, k)
         == map p | p in ids && ids[p] < k && deps[ids[p]].Some? && p in live :: deps[ids[p]].value
    decreases k
  {
    if k > 0 {
      CompactedIs(nodes, ids, deps, live, k - 1);
      assert ids[nodes[k - 1]] == k - 1;
      forall p | p in ids && ids[p] == k - 1 ensures p == nodes[k - 1] {}
    }
  }

  lemma CompactedView(nodes: seq<Path>, ids: map<Path, nat>, deps: seq<Option<Deps>>, live: set<Path>)
    requires |deps| <= |nodes| && IdsOk(nodes, ids)
    ensures Compacted(nodes, deps, live, |deps|) == map p | p in ViewOf(ids, deps) && p in live :: ViewOf(ids, deps)[p]
  {
    CompactedIs(nodes, ids, deps, live, |deps|);
  }

  lemma NotYetCompacted(nodes: seq<Path>, ids: map<Path, nat>, deps: seq<Option<Deps>>, live: set<Path>, k: nat)
    requires k < |deps| <= |nodes| && IdsOk(nodes, ids)
    ensures nodes[k] !in Compacted(nodes, deps, live, k)
  {
    CompactedIs(nodes, ids, deps, live, k);
  }

  lemma NothingCopied(nodes: seq<Path>, deps: seq<Option<Deps>>, live: set<Path>)
    requires |deps| <= |nodes|
    ensures Compacted(nodes, deps, live, 0) == map[] && InUse({}, map[])
  {
  }

  /** Every path with an id is an output on record or an input of one. */
  ghost predicate InUse(known: set<Path>, view: map<Path, Deps>) {
    forall p | p in known :: p in view || exists q | q in view :: p in view[q].nodes
  }

  lemma StillInUse(known: set<Path>, known': set<Path>, view: map<Path, Deps>, p: Path, d: Deps)
    requires InUse(known, view) && known' == known + PathsOf([p] + d.nodes)
    requires p !in view
    ensures InUse(known', view[p := d])
  {
    var view' := view[p := d];
    forall x | x in known' ensures x in view' || exists q | q in view' :: x in view'[q].nodes {
      if x in known && x !in view {
        var q :| q in view && x in view[q].nodes;
        assert q in view' && x in view'[q].nodes;
      } else if x !in known && x != p {
        assert p in view' && x in view'[p].nodes;
      }
    }
  }

  /** The record written for paths that have ids says what was meant. */
  lemma DepsRecordFits(nodes: seq<Path>, ids: map<Path, nat>, deps: seq<Option<Deps>>, p: Path, mtime: int,
                       inputs: seq<Path>)
    requires IdsOk(nodes, ids) && |nodes| <= 0x8000_0000 && IsInt64(mtime) && DepsFit(|inputs|)
    requires forall q | q in [p] + inputs :: q in ids
    ensures p in ids && (forall q | q in inputs :: q in ids)
    ensures var r := DepsRecord(ids[p], mtime, IdsOf(ids, inputs));
      && Fits(Memory(nodes, deps), r)
      && Apply(Memory(nodes, deps), r) == Memory(nodes, UpdateDeps(deps, ids[p], Deps(mtime, inputs)))
      && Encode(Memory(nodes, deps), r) == EncodeDeps(ids[p], mtime, IdsOf(ids, inputs))
  {
    assert p in [p] + inputs;
    assert forall q | q in inputs :: q in [p] + inputs;
    var inputIds := IdsOf(ids, inputs);
    assert forall i | 0 <= i < |inputs| :: inputs[i] in ids && inputIds[i] < |nodes|;
    assert Resolve(nodes, inputIds) == inputs;
  }

  function IdsOf(ids: map<Path, nat>, ps: seq<Path>): (r: seq<nat>)
    requires forall p | p in ps :: p in ids
    ensures |r| == |ps| && forall i | 0 <= i < |ps| :: r[i] == ids[ps[i]]
  {
    seq(|ps|, i requires 0 <= i < |ps| => ids[ps[i]])
  }

  predicate HasHeader(file: seq<Byte>) {
    |file| >= 16 && file[..16] == HEADER
  }

  /** One turn of the loading loop. */
  lemma LoadStep(s: seq<Byte>, st: LoadState)
    ensures var r := ReadOne(s, st.m);
      && (r.AtEnd? ==> LoadFrom(s, st) == (st, EndOfFile))
      && (r.Damaged? ==> LoadFrom(s, st) == (st, CutAt(st.offset)))
      && (r.Undefined? ==> LoadFrom(s, st) == (st, OutsideContract))
      && (r.ReadRecord? ==>
            && 0 < r.size <= |s|
            && LoadFrom(s, st) == LoadFrom(s[r.size..], Advance(st, r.m, r.size, r.isDeps, r.isNew)))
  {
    hide ReadOne, Advance;
  }

  lemma NewIdOnLoad(nodes: seq<Path>, ids: map<Path, nat>, p: Path)
    requires IdsOk(nodes, ids) && p !in nodes
    ensures IdsOk(nodes + [p], ids[p := |nodes|])
  {
    assert p !in ids;
    assert ids[p := |nodes|].Keys == ids.Keys + {p};
  }

  /** A path record adds one new path, a deps record none. */
  lemma ReadAddsPath(s: seq<Byte>, m: Memory)
    ensures var r := ReadOne(s, m);
      r.ReadRecord? ==>
        && r.size <= |s|
        && (r.isDeps ==> r.m.nodes == m.nodes)
        && (!r.isDeps ==> |r.m.nodes| == |m.nodes| + 1 && r.m.nodes == m.nodes + [r.m.nodes[|m.nodes|]]
                          && r.m.nodes[|m.nodes|] !in m.nodes)
  {
  }

  lemma KnownPaths(known: set<Path>, p: Path, inputs: seq<Path>)
    ensures (p in known && forall q | q in inputs :: q in known) <==> PathsOf([p] + inputs) <= known
    ensures PathsOf([p] + inputs) <= known ==> NewOnesFit(known, [p] + inputs)
    ensures p in PathsOf([p] + inputs)
  {
    assert forall q | q in inputs :: q in [p] + inputs;
    assert p in [p] + inputs;
    forall q | q in PathsOf([p] + inputs) ensures q == p || q in inputs {}
  }

  lemma ViewUpdateSame(v: map<Path, Deps>, p: Path, d: Deps)
    requires p in v && v[p] == d
    ensures v[p := d] == v
  {
  }

  /** The paths that do not have an id yet have records of bearable length. */
  ghost predicate NewOnesFit(known: set<Path>, paths: seq<Path>) {
    forall q | q in paths :: q in known || PathFits(q)
  }

  lemma TakeOneMore(paths: seq<Path>, k: nat)
    requires k < |paths|
    ensures PathsOf(paths[..k + 1]) == PathsOf(paths[..k]) + {paths[k]}
    ensures PathsOf(paths[..k]) + {paths[k]} <= PathsOf(paths)
    ensures forall q | q in paths[..k + 1] :: q in paths[..k] || q == paths[k]
    ensures forall q | q in paths[..k] :: q in paths[..k + 1]
    ensures paths[k] in paths[..k + 1] && paths[k] in paths
  {
    assert paths[..k + 1] == paths[..k] + [paths[k]];
  }

  lemma RoomFor<T>(have: set<T>, x: T, all: set<T>)
    requires have + {x} <= all
    ensures x !in have ==> |have| < |all|
  {
    if x !in have {
      RoomForOneMore(have, x, all);
    }
  }

  lemma RoomForOneMore<T>(have: set<T>, x: T, all: set<T>)
    requires have <= all && x in all && x !in have
    ensures |have| < |all|
  {
    assert |have + {x}| == |have| + 1;
    assert all == have + {x} + (all - (have + {x}));
  }
}
