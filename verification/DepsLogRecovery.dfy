/**
  Where the log's promises end: which paths survive a round trip, and which crashes leave a file that can be
  appended to.
 */
module DepsLogRecovery {
  import opened DepsLogFormat
  import opened DepsLogReplay

  /** The next record read back is the path that was written exactly for readable paths. */
  lemma PathComesBackExactlyWhenReadable(m: Memory, p: Path, rest: seq<Byte>)
    requires p != [] && PathFits(p) && |m.nodes| < 0x8000_0000 && p !in m.nodes
    ensures var r := ReadOne(EncodePath(p, |m.nodes|) + rest, m);
      (r.ReadRecord? && r.m == m.(nodes := m.nodes + [p])) <==> Readable(p)
  {
    if Readable(p) {
      PathReadsBack(m, p, |m.nodes|, rest);
    } else {
      hide ReadOne, EncodeWord;
      var body := p + Zeros(Padding(p)) + EncodeWord(TWO_32 - 1 - |m.nodes|);
      assert EncodePath(p, |m.nodes|) == EncodeWord(|body|) + body;
      FrameReadsBack(m, false, body, rest);
      assert body[..|body| - 4] == p + Zeros(Padding(p));
      StripUndoesPadding(p);
      var stripped := Strip(p + Zeros(Padding(p)), 3);
      assert (m.nodes + [stripped])[|m.nodes|] == stripped && (m.nodes + [p])[|m.nodes|] == p;
    }
  }

  /** A path ending in NUL that does not come back: a NUL after one letter is taken for padding. */
  lemma PathWithTrailingNul()
    ensures !Readable([97, 0])
    ensures var r := ReadOne(EncodePath([97, 0], 0), EMPTY); r.ReadRecord? && r.m.nodes == [[97]]
  {
    hide ReadOne, EncodeWord;
    var p: Path := [97, 0];
    var body := p + Zeros(Padding(p)) + EncodeWord(TWO_32 - 1);
    assert EncodePath(p, 0) == EncodeWord(|body|) + body + [];
    FrameReadsBack(EMPTY, false, body, []);
    assert body[..|body| - 4] == p + Zeros(Padding(p));
    assert body[|body| - 4..] == EncodeWord(TWO_32 - 1);
    WordRoundTrip(TWO_32 - 1);
    var q: Path := [97];
    assert p + Zeros(Padding(p)) == q + Zeros(3);
    StripZeros(q, 3, 3);
  }

  /** What loading leaves of a file with a good header and `bytes` after it. */
  ghost function FileAfterLoad(bytes: seq<Byte>): seq<Byte> {
    var (st, end) := LoadFrom(bytes, START);
    HEADER + if end.CutAt? then bytes[..st.offset - 16] else bytes
  }

  ghost predicate IsLog(file: seq<Byte>) {
    exists rs :: WellFormed(EMPTY, rs) && file == HEADER + EncodeAll(EMPTY, rs)
  }

  /**
    The file that recovery leaves is again a log, ready to be appended to, exactly when the crash did not leave one
    to three bytes of a record's length: such a tail is neither read nor cut off.
   */
  lemma RecoveryLeavesLogExactlyWhen(recs: seq<Record>, n: nat)
    requires WellFormed(EMPTY, recs) && n <= |EncodeAll(EMPTY, recs)|
    ensures IsLog(FileAfterLoad(EncodeAll(EMPTY, recs)[..n])) <==> !(1 <= n - WholeBytes(EMPTY, recs, n) <= 3)
  {
    hide LoadFrom, Encode, Replay;
    var k := WholeRecords(EMPTY, recs, n);
    var whole := recs[..k];
    var bytes := EncodeAll(EMPTY, recs)[..n];
    CrashRecovery(recs, n);
    LoadPrefix(START, recs, n);
    WholeRecordsFit(EMPTY, recs, n);
    assert LiveIds([]) == {};
    ReachedFacts(START, whole);
    WholeIsPrefix(EMPTY, recs, n);
    var left := n - WholeBytes(EMPTY, recs, n);
    if 1 <= left <= 3 {
      forall rs | WellFormed(EMPTY, rs) && HEADER + bytes == HEADER + EncodeAll(EMPTY, rs) ensures false {
        SameTail(HEADER, bytes, EncodeAll(EMPTY, rs));
        var all := EncodeAll(EMPTY, rs);
        AllRecordsWhole(EMPTY, rs);
        assert all[..|all|] == all && rs[..|rs|] == rs;
        LoadPrefix(START, rs, |all|);
        ReachedFacts(START, rs);
      }
    } else {
      assert bytes[..WholeBytes(EMPTY, recs, n)] == EncodeAll(EMPTY, whole);
      assert left == 0 ==> bytes[..WholeBytes(EMPTY, recs, n)] == bytes;
    }
  }

  lemma SameTail(h: seq<Byte>, a: seq<Byte>, b: seq<Byte>)
    requires h + a == h + b
    ensures a == b
  {
    assert (h + a)[|h|..] == a && (h + b)[|h|..] == b;
  }

  /** The complete records come first. */
  lemma {:induction false} WholeIsPrefix(m: Memory, recs: seq<Record>, n: nat)
    requires WellFormed(m, recs) && n <= |EncodeAll(m, recs)|
    ensures WellFormed(m, recs[..WholeRecords(m, recs, n)])
    ensures EncodeAll(m, recs)[..n][..WholeBytes(m, recs, n)] == EncodeAll(m, recs[..WholeRecords(m, recs, n)])
    decreases |recs|
  {
    hide Encode, Apply, Fits;
    WholeRecordsFit(m, recs, n);
    if recs != [] && n >= |Encode(m, recs[0])| {
      var now, m1 := Encode(m, recs[0]), Apply(m, recs[0]);
      WholeIsPrefix(m1, recs[1..], n - |now|);
      var k := WholeRecords(m, recs, n);
      assert recs[..k][1..] == recs[1..][..k - 1];
      var b := WholeBytes(m1, recs[1..], n - |now|);
      var later := EncodeAll(m1, recs[1..]);
      CutBehind(now, later, n, b);
    }
  }

  lemma CutBehind(a: seq<Byte>, b: seq<Byte>, n: nat, k: nat)
    requires |a| <= n <= |a + b| && k <= n - |a|
    ensures (a + b)[..n][..|a| + k] == a + b[..n - |a|][..k]
  {
  }

  // ----- Appending behind a tail -----

  /** The first four bytes behind a tail of one to three bytes are read as a length that is out of range. */
  lemma ShiftedWord(tail: seq<Byte>, low: Byte, high: Byte, more: seq<Byte>)
    requires 1 <= |tail| <= 3 && 8 <= low < 128
    ensures var s := tail + [low, 0, 0, high] + more;
      var word := DecodeWord(s[..4]);
      word < 0x8000_0000 && if |tail| == 1 then word >= 256 * low else word > MAX_RECORD_SIZE
  {
    var s := tail + [low, 0, 0, high] + more;
    if |tail| == 1 {
      assert s[..4] == [tail[0], low, 0, 0];
    } else if |tail| == 2 {
      assert s[..4] == [tail[0], tail[1], low, 0];
    } else {
      assert s[..4] == [tail[0], tail[1], tail[2], low];
    }
  }

  /** One to three bytes in front of a short record make its length unreadable. */
  lemma ShiftedLength(tail: seq<Byte>, low: Byte, high: Byte, more: seq<Byte>, m: Memory)
    requires 1 <= |tail| <= 3 && 8 <= low < 128 && |more| == low
    ensures ReadOne(tail + [low, 0, 0, high] + more, m) == Damaged
  {
    hide ReadDeps, ReadPath, DecodeWord;
    ShiftedWord(tail, low, high, more);
    var s := tail + [low, 0, 0, high] + more;
    var word := DecodeWord(s[..4]);
    assert word % 0x8000_0000 == word;
    assert |s| == |tail| + 4 + low;
  }

  lemma ShortWord(size: nat, isDeps: bool)
    requires size < 128
    ensures EncodeWord(if isDeps then size + 0x8000_0000 else size) == [size, 0, 0, if isDeps then 128 else 0]
  {
    if isDeps {
      assert (size + 0x8000_0000) / 16777216 == 128;
    }
  }

  /** A short record is a word with its length and a body. */
  lemma ShortRecord(m: Memory, r: Record) returns (low: Byte, high: Byte, body: seq<Byte>)
    requires Fits(m, r) && |Encode(m, r)| < 132
    ensures Encode(m, r) == [low, 0, 0, high] + body && |body| == low && 8 <= low < 128
  {
    hide EncodeWord, EncodeWords, SplitTime;
    match r
    case PathRecord(p, id) =>
      body := p + Zeros(Padding(p)) + EncodeWord(TWO_32 - 1 - id);
      low, high := |body|, 0;
      ShortWord(|body|, false);
      assert Encode(m, r) == EncodeWord(|body|) + body;
    case DepsRecord(out, mtime, inputs) =>
      body := EncodeWord(out) + EncodeWord(SplitTime(mtime).0) + EncodeWord(SplitTime(mtime).1) + EncodeWords(inputs);
      low, high := |body|, 128;
      ShortWord(|body|, true);
      assert Encode(m, r) == EncodeWord(|body| + 0x8000_0000) + body;
  }

  /**
    What a tail of one to three bytes costs: a record of less than 128 bytes that is appended behind it is lost by the
    next load, which cuts the file back to the last complete record before the crash.
   */
  lemma RecordBehindTailIsLost(recs: seq<Record>, n: nat, r: Record)
    requires WellFormed(EMPTY, recs) && n <= |EncodeAll(EMPTY, recs)| && 1 <= n - WholeBytes(EMPTY, recs, n) <= 3
    requires WellFormed(EMPTY, recs[..WholeRecords(EMPTY, recs, n)])
    requires var m := Replay(EMPTY, recs[..WholeRecords(EMPTY, recs, n)]); Fits(m, r) && |Encode(m, r)| < 132
    ensures var m := Replay(EMPTY, recs[..WholeRecords(EMPTY, recs, n)]);
      var (st, end) := LoadFrom(EncodeAll(EMPTY, recs)[..n] + Encode(m, r), START);
      st.m == m && end == CutAt(16 + WholeBytes(EMPTY, recs, n))
  {
    hide Encode, Fits, ReadOne, Apply;
    var whole := recs[..WholeRecords(EMPTY, recs, n)];
    var m := Replay(EMPTY, whole);
    var bytes := EncodeAll(EMPTY, recs)[..n];
    var at := WholeBytes(EMPTY, recs, n);
    WholeRecordsFit(EMPTY, recs, n);
    WholeIsPrefix(EMPTY, recs, n);
    var tail := bytes[at..];
    var low, high, body := ShortRecord(m, r);
    assert bytes + Encode(m, r) == EncodeAll(EMPTY, whole) + (tail + [low, 0, 0, high] + body);
    LoadGoesOn(START, whole, tail + [low, 0, 0, high] + body);
    assert LiveIds([]) == {};
    ReachedFacts(START, whole);
    ShiftedLength(tail, low, high, body, m);
  }
}
