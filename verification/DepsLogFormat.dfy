/**
  The bytes of the dependency log: words, records, and reading one record back. Words are little-endian, the
  order of the hosts the log is written on.
 */
module DepsLogFormat {
  type Byte = b: nat | b < 256
  type Word = w: nat | w < 0x1_0000_0000
  type Path = seq<Byte>

  datatype Option<+T> = None | Some(value: T)

  /** `"# ninjadeps\n"` followed by version 4. */
  const HEADER: seq<Byte> := [35, 32, 110, 105, 110, 106, 97, 100, 101, 112, 115, 10, 4, 0, 0, 0]
  const MAX_RECORD_SIZE := 524287

  // ----- Words -----

  function EncodeWord(w: Word): (s: seq<Byte>)
    ensures |s| == 4
  {
    [w % 256, w / 256 % 256, w / 65536 % 256, w / 16777216]
  }

  function DecodeWord(s: seq<Byte>): Word
    requires |s| == 4
  {
    var a: int, b: int, c: int, d: int := s[0], s[1], s[2], s[3];
    a + 256 * b + 65536 * c + 16777216 * d
  }

  lemma WordRoundTrip(w: Word)
    ensures DecodeWord(EncodeWord(w)) == w
  {
    var a, b := w / 256, w / 65536;
    assert w / 256 / 256 == w / 65536 && w / 65536 / 256 == w / 16777216;
    assert w == 256 * a + w % 256 && a == 256 * (a / 256) + a % 256 && b == 256 * (b / 256) + b % 256;
  }

  function EncodeWords(ws: seq<Word>): (s: seq<Byte>)
    ensures |s| == 4 * |ws|
  {
    if ws == [] then [] else EncodeWord(ws[0]) + EncodeWords(ws[1..])
  }

  function DecodeWords(s: seq<Byte>): (ws: seq<Word>)
    requires |s| % 4 == 0
    ensures |ws| == |s| / 4
  {
    if s == [] then [] else [DecodeWord(s[..4])] + DecodeWords(s[4..])
  }

  lemma {:induction false} WordsRoundTrip(ws: seq<Word>)
    ensures DecodeWords(EncodeWords(ws)) == ws
  {
    if ws != [] {
      var s := EncodeWords(ws);
      assert s[..4] == EncodeWord(ws[0]) && s[4..] == EncodeWords(ws[1..]);
      WordRoundTrip(ws[0]);
      WordsRoundTrip(ws[1..]);
    }
  }

  // ----- Time stamps -----

  const TWO_32: nat := 0x1_0000_0000
  const TWO_63: nat := 0x8000_0000_0000_0000
  const TWO_64: nat := 0x1_0000_0000_0000_0000

  predicate IsInt64(m: int) {
    0 - TWO_63 as int <= m < TWO_63
  }

  /** The low and high words of a 64-bit time stamp in two's complement. */
  function SplitTime(m: int): (Word, Word)
    requires IsInt64(m)
  {
    var u := if m < 0 then m + TWO_64 else m;
    (u % TWO_32, u / TWO_32)
  }

  function JoinTime(lo: Word, hi: Word): int {
    var u := hi * TWO_32 + lo;
    if u >= TWO_63 then u - TWO_64 else u
  }

  /** A time stamp survives its split into two words, negative ones included. */
  lemma TimeRoundTrip(m: int)
    requires IsInt64(m)
    ensures JoinTime(SplitTime(m).0, SplitTime(m).1) == m
  {
    var u := if m < 0 then m + TWO_64 else m;
    assert u == u / TWO_32 * TWO_32 + u % TWO_32;
  }

  // ----- Records -----

  datatype Deps = Deps(mtime: int, nodes: seq<Path>)

  /** A path record defines the next id; a deps record lists the ids an output was made from. */
  datatype Record =
    | PathRecord(path: Path, id: nat)
    | DepsRecord(out: nat, mtime: int, inputs: seq<nat>)

  /** What the log knows: the path of each id, and the dependencies of each id. */
  datatype Memory = Memory(nodes: seq<Path>, deps: seq<Option<Deps>>)

  const EMPTY := Memory([], [])

  function Padding(p: Path): nat {
    (4 - |p| % 4) % 4
  }

  function Zeros(n: nat): (s: seq<Byte>)
    ensures |s| == n && forall i | 0 <= i < n :: s[i] == 0
  {
    seq(n, i => 0)
  }

  function PathRecordSize(p: Path): nat {
    |p| + Padding(p) + 4
  }

  function DepsRecordSize(count: nat): nat {
    4 * (1 + 2 + count)
  }

  predicate PathFits(p: Path) {
    PathRecordSize(p) <= MAX_RECORD_SIZE
  }

  predicate DepsFit(count: nat) {
    DepsRecordSize(count) <= MAX_RECORD_SIZE
  }

  /** Reading strips up to three trailing NULs, so this is what it takes for a path to come back unchanged. */
  predicate Readable(p: Path) {
    p != [] && (p[|p| - 1] != 0 || |p| % 4 == 1)
  }

  /** Whether a record may follow a log that has led to `m`. */
  predicate Fits(m: Memory, r: Record) {
    match r
    case PathRecord(path, id) =>
      path != [] && Readable(path) && PathFits(path) && id == |m.nodes| < 0x8000_0000 && path !in m.nodes
    case DepsRecord(out, mtime, inputs) =>
      && out < |m.nodes| && IsInt64(mtime) && DepsFit(|inputs|) && |m.nodes| <= 0x8000_0000
      && forall i | 0 <= i < |inputs| :: inputs[i] < |m.nodes|
  }

  function EncodePath(p: Path, id: nat): seq<Byte>
    requires PathFits(p) && id < TWO_32
  {
    EncodeWord(PathRecordSize(p)) + p + Zeros(Padding(p)) + EncodeWord(TWO_32 - 1 - id)
  }

  function EncodeDeps(out: Word, mtime: int, inputs: seq<Word>): seq<Byte>
    requires IsInt64(mtime) && DepsFit(|inputs|)
  {
    EncodeWord(DepsRecordSize(|inputs|) + 0x8000_0000)
    + EncodeWord(out) + EncodeWord(SplitTime(mtime).0) + EncodeWord(SplitTime(mtime).1) + EncodeWords(inputs)
  }

  function Encode(m: Memory, r: Record): seq<Byte>
    requires Fits(m, r)
  {
    match r
    case PathRecord(path, id) => EncodePath(path, id)
    case DepsRecord(out, mtime, inputs) => EncodeDeps(out, mtime, inputs)
  }

  // ----- The bytes of a record -----

  /** The word at position `i`, least significant byte first. */
  function WordAt(s: seq<Byte>, i: nat): nat
    requires i + 4 <= |s|
  {
    (s[i] as int) + 256 * (s[i + 1] as int) + 65536 * (s[i + 2] as int) + 16777216 * (s[i + 3] as int)
  }

  lemma EncodedWordAt(before: seq<Byte>, w: Word, after: seq<Byte>)
    ensures WordAt(before + EncodeWord(w) + after, |before|) == w
  {
    WordRoundTrip(w);
    var s := before + EncodeWord(w) + after;
    assert forall k | 0 <= k < 4 :: s[|before| + k] == EncodeWord(w)[k];
  }

  /**
    A path record: the size of what follows, the path, NUL bytes up to a multiple of four, and the complement of the id.
   */
  lemma PathLayout(p: Path, id: nat)
    requires PathFits(p) && id < TWO_32
    ensures var s := EncodePath(p, id);
      && |s| % 4 == 0 && |p| + 8 <= |s| < |p| + 12
      && WordAt(s, 0) == |s| - 4 && s[4..4 + |p|] == p
      && (forall i | 4 + |p| <= i < |s| - 4 :: s[i] == 0)
      && WordAt(s, |s| - 4) == 0xFFFF_FFFF - id
  {
    hide EncodeWord, WordAt;
    var first, last := EncodeWord(PathRecordSize(p)), EncodeWord(TWO_32 - 1 - id);
    var body := p + Zeros(Padding(p));
    var s := EncodePath(p, id);
    EncodedWordAt([], PathRecordSize(p), body + last);
    EncodedWordAt(first + body, TWO_32 - 1 - id, []);
    assert s == [] + first + (body + last) && s == (first + body) + last + [];
  }

  /**
    A deps record: the size of what follows with the top bit set, the id of the output, the time stamp in two's
    complement, low word first, and the ids of the inputs.
   */
  lemma DepsLayout(out: Word, mtime: int, inputs: seq<Word>)
    requires IsInt64(mtime) && DepsFit(|inputs|)
    ensures var s := EncodeDeps(out, mtime, inputs);
      && |s| == 16 + 4 * |inputs| && WordAt(s, 0) == |s| - 4 + 0x8000_0000 && WordAt(s, 4) == out
      && WordAt(s, 8) + 0x1_0000_0000 * WordAt(s, 12) == (if mtime < 0 then mtime + 0x1_0000_0000_0000_0000 else mtime)
      && forall k | 0 <= k < |inputs| :: WordAt(s, 16 + 4 * k) == inputs[k]
  {
    hide EncodeWord, WordAt, EncodeWords;
    var size: Word, lo, hi := DepsRecordSize(|inputs|) + 0x8000_0000, SplitTime(mtime).0, SplitTime(mtime).1;
    var a, b, d, e, rest := EncodeWord(size), EncodeWord(out), EncodeWord(lo), EncodeWord(hi), EncodeWords(inputs);
    var s := EncodeDeps(out, mtime, inputs);
    EncodedWordAt([], size, b + d + e + rest);
    EncodedWordAt(a, out, d + e + rest);
    EncodedWordAt(a + b, lo, e + rest);
    EncodedWordAt(a + b + d, hi, rest);
    assert s == [] + a + (b + d + e + rest) && s == a + b + (d + e + rest);
    assert s == (a + b) + d + (e + rest) && s == (a + b + d) + e + rest;
    forall k | 0 <= k < |inputs| ensures WordAt(s, 16 + 4 * k) == inputs[k] {
      WordsAt(a + b + d + e, inputs, k);
    }
  }

  lemma {:induction false} WordsAt(before: seq<Byte>, ws: seq<Word>, k: nat)
    requires k < |ws|
    ensures WordAt(before + EncodeWords(ws), |before| + 4 * k) == ws[k]
    decreases k
  {
    hide EncodeWord, WordAt;
    var first, others := EncodeWord(ws[0]), EncodeWords(ws[1..]);
    assert before + EncodeWords(ws) == before + first + others;
    if k == 0 {
      EncodedWordAt(before, ws[0], others);
    } else {
      WordsAt(before + first, ws[1..], k - 1);
    }
  }

  /** Store the dependencies of an id, growing the table as needed. */
  function UpdateDeps(deps: seq<Option<Deps>>, out: nat, d: Deps): (r: seq<Option<Deps>>)
    ensures out < |r| && r[out] == Some(d)
    ensures forall i | 0 <= i < |deps| && i != out :: i < |r| && r[i] == deps[i]
    ensures forall i | |deps| <= i < |r| && i != out :: r[i] == None
  {
    var grown := if out >= |deps| then deps + seq(out + 1 - |deps|, i => None) else deps;
    grown[out := Some(d)]
  }

  function Resolve(nodes: seq<Path>, ids: seq<nat>): (ps: seq<Path>)
    requires forall i | 0 <= i < |ids| :: ids[i] < |nodes|
    ensures |ps| == |ids| && forall i | 0 <= i < |ids| :: ps[i] == nodes[ids[i]]
  {
    seq(|ids|, i requires 0 <= i < |ids| => nodes[ids[i]])
  }

  function Apply(m: Memory, r: Record): Memory
    requires Fits(m, r)
  {
    match r
    case PathRecord(path, id) => m.(nodes := m.nodes + [path])
    case DepsRecord(out, mtime, inputs) => m.(deps := UpdateDeps(m.deps, out, Deps(mtime, Resolve(m.nodes, inputs))))
  }

  // ----- Reading -----

  /** Drop up to `times` trailing NULs. */
  function Strip(p: Path, times: nat): Path {
    if times > 0 && p != [] && p[|p| - 1] == 0 then Strip(p[..|p| - 1], times - 1) else p
  }

  /**
    The outcome of reading one record. `AtEnd`: no complete length word is left. `Damaged`: the record is cut off,
    too long, or has the wrong checksum. `Undefined`: the program's assertions are violated.
   */
  datatype ReadResult =
    | ReadRecord(m: Memory, size: nat, isDeps: bool, isNew: bool)
    | AtEnd
    | Damaged
    | Undefined

  function ReadOne(s: seq<Byte>, m: Memory): (r: ReadResult)
    ensures r.ReadRecord? ==> 4 < r.size <= |s|
  {
    if |s| < 4 then AtEnd
    else
      var word := DecodeWord(s[..4]);
      var size := word % 0x8000_0000;
      if size > MAX_RECORD_SIZE || size == 0 || |s| - 4 < size then Damaged
      else if word >= 0x8000_0000 then ReadDeps(s[4..4 + size], m)
      else ReadPath(s[4..4 + size], m)
  }

  function ReadDeps(buf: seq<Byte>, m: Memory): (r: ReadResult)
    requires buf != []
    ensures r.ReadRecord? ==> r.size == |buf| + 4
  {
    if |buf| % 4 != 0 || |buf| < 12 then Undefined
    else
      var data := DecodeWords(buf);
      var inputs := data[3..];
      if data[0] >= 0x8000_0000 || exists i | 0 <= i < |inputs| :: inputs[i] >= |m.nodes| then Undefined
      else
        var d := Deps(JoinTime(data[1], data[2]), Resolve(m.nodes, inputs));
        ReadRecord(m.(deps := UpdateDeps(m.deps, data[0], d)), |buf| + 4, true,
                   data[0] >= |m.deps| || m.deps[data[0]].None?)
  }

  function ReadPath(buf: seq<Byte>, m: Memory): (r: ReadResult)
    requires buf != []
    ensures r.ReadRecord? ==> r.size == |buf| + 4
  {
    if |buf| <= 4 then Undefined
    else
      var path := Strip(buf[..|buf| - 4], 3);
      var checksum := DecodeWord(buf[|buf| - 4..]);
      if path == [] then Undefined
      else if TWO_32 - 1 - checksum != |m.nodes| then Damaged
      else if path in m.nodes then Undefined
      else ReadRecord(m.(nodes := m.nodes + [path]), |buf| + 4, false, false)
  }

  // ----- What is written can be read -----

  /** Stripping undoes padding exactly for readable paths. */
  lemma StripUndoesPadding(p: Path)
    requires p != []
    ensures Strip(p + Zeros(Padding(p)), 3) == p <==> Readable(p)
  {
    var k := Padding(p);
    StripZeros(p, k, 3);
    if k < 3 && p[|p| - 1] == 0 {
      StripShortens(p, 3 - k);
    }
  }

  lemma {:induction false} StripZeros(p: Path, k: nat, times: nat)
    requires k <= times
    ensures Strip(p + Zeros(k), times) == Strip(p, times - k)
    decreases k
  {
    var q := p + Zeros(k);
    if k == 0 {
      assert q == p;
    } else {
      assert q[|q| - 1] == 0;
      assert q[..|q| - 1] == p + Zeros(k - 1);
      StripZeros(p, k - 1, times - 1);
    }
  }

  lemma StripShortens(p: Path, times: nat)
    requires p != [] && p[|p| - 1] == 0 && times > 0
    ensures |Strip(p, times)| < |p|
  {
    StripNeverGrows(p[..|p| - 1], times - 1);
  }

  lemma {:induction false} StripNeverGrows(p: Path, times: nat)
    ensures |Strip(p, times)| <= |p|
    decreases times
  {
    if times > 0 && p != [] && p[|p| - 1] == 0 {
      StripNeverGrows(p[..|p| - 1], times - 1);
    }
  }

  /** A length word and a body of that length are taken apart again, whatever follows. */
  lemma FrameReadsBack(m: Memory, isDeps: bool, body: seq<Byte>, rest: seq<Byte>)
    requires 0 < |body| <= MAX_RECORD_SIZE
    ensures var word := if isDeps then |body| + 0x8000_0000 else |body|;
      ReadOne(EncodeWord(word) + body + rest, m) == if isDeps then ReadDeps(body, m) else ReadPath(body, m)
  {
    hide ReadDeps, ReadPath, EncodeWord, DecodeWord;
    var word: Word := if isDeps then |body| + 0x8000_0000 else |body|;
    var s := EncodeWord(word) + body + rest;
    assert s[..4] == EncodeWord(word);
    assert s[4..4 + |body|] == body;
    WordRoundTrip(word);
  }

  lemma PathBodyReadsBack(m: Memory, p: Path, id: nat)
    requires Fits(m, PathRecord(p, id))
    ensures ReadPath(p + Zeros(Padding(p)) + EncodeWord(TWO_32 - 1 - id), m)
         == ReadRecord(Apply(m, PathRecord(p, id)), PathRecordSize(p) + 4, false, false)
  {
    hide EncodeWord, DecodeWord, Strip;
    var buf := p + Zeros(Padding(p)) + EncodeWord(TWO_32 - 1 - id);
    assert buf[..|buf| - 4] == p + Zeros(Padding(p));
    assert buf[|buf| - 4..] == EncodeWord(TWO_32 - 1 - id);
    WordRoundTrip(TWO_32 - 1 - id);
    StripUndoesPadding(p);
  }

  /** Whatever follows it, an encoded path record is read back as the next id. */
  lemma PathReadsBack(m: Memory, p: Path, id: nat, rest: seq<Byte>)
    requires Fits(m, PathRecord(p, id))
    ensures ReadOne(EncodePath(p, id) + rest, m)
         == ReadRecord(Apply(m, PathRecord(p, id)), |EncodePath(p, id)|, false, false)
  {
    hide ReadOne, ReadPath, EncodeWord;
    var body := p + Zeros(Padding(p)) + EncodeWord(TWO_32 - 1 - id);
    assert EncodePath(p, id) == EncodeWord(|body|) + body;
    FrameReadsBack(m, false, body, rest);
    PathBodyReadsBack(m, p, id);
  }

  lemma DepsBodyReadsBack(m: Memory, r: Record)
    requires Fits(m, r) && r.DepsRecord?
    ensures var (lo, hi) := SplitTime(r.mtime);
      ReadDeps(EncodeWords([r.out, lo, hi] + r.inputs), m)
      == ReadRecord(Apply(m, r), DepsRecordSize(|r.inputs|) + 4, true, r.out >= |m.deps| || m.deps[r.out].None?)
  {
    hide EncodeWords, DecodeWords, SplitTime, JoinTime;
    var (lo, hi) := SplitTime(r.mtime);
    var words: seq<Word> := [r.out, lo, hi] + r.inputs;
    WordsRoundTrip(words);
    assert words[3..] == r.inputs;
    TimeRoundTrip(r.mtime);
  }

  /** Whatever follows it, an encoded deps record is read back with the same time stamp and inputs. */
  lemma DepsReadBack(m: Memory, r: Record, rest: seq<Byte>)
    requires Fits(m, r) && r.DepsRecord?
    ensures ReadOne(Encode(m, r) + rest, m)
         == ReadRecord(Apply(m, r), |Encode(m, r)|, true, r.out >= |m.deps| || m.deps[r.out].None?)
  {
    hide ReadOne, ReadDeps, EncodeWord, EncodeWords, SplitTime;
    var (lo, hi) := SplitTime(r.mtime);
    var body := EncodeWords([r.out, lo, hi] + r.inputs);
    DepsBody(r.out, lo, hi, r.inputs);
    assert Encode(m, r) == EncodeWord(|body| + 0x8000_0000) + body;
    FrameReadsBack(m, true, body, rest);
    DepsBodyReadsBack(m, r);
  }

  lemma DepsBody(out: Word, lo: Word, hi: Word, inputs: seq<Word>)
    ensures EncodeWord(out) + EncodeWord(lo) + EncodeWord(hi) + EncodeWords(inputs) == EncodeWords([out, lo, hi] + inputs)
  {
    hide EncodeWord;
    EncodeCons(out, [lo, hi] + inputs);
    EncodeCons(lo, [hi] + inputs);
    EncodeCons(hi, inputs);
    assert [out] + ([lo, hi] + inputs) == [out, lo, hi] + inputs;
    assert [lo] + ([hi] + inputs) == [lo, hi] + inputs;
  }

  lemma EncodeCons(w: Word, ws: seq<Word>)
    ensures EncodeWords([w] + ws) == EncodeWord(w) + EncodeWords(ws)
  {
    assert ([w] + ws)[1..] == ws;
  }

  /** Reading is the inverse of writing, one record at a time. */
  lemma RecordReadsBack(m: Memory, r: Record, rest: seq<Byte>)
    requires Fits(m, r)
    ensures ReadOne(Encode(m, r) + rest, m)
         == ReadRecord(Apply(m, r), |Encode(m, r)|, r.DepsRecord?, r.DepsRecord? && (r.out >= |m.deps| || m.deps[r.out].None?))
  {
    match r
    case PathRecord(p, id) => PathReadsBack(m, p, id, rest);
    case DepsRecord(_, _, _) => DepsReadBack(m, r, rest);
  }

  /** A record that was cut off is recognised as such; so little of it that its length is unknown is passed over. */
  lemma CutRecordIsDamaged(m: Memory, r: Record, cut: nat)
    requires Fits(m, r) && cut < |Encode(m, r)|
    ensures ReadOne(Encode(m, r)[..cut], m) == if cut < 4 then AtEnd else Damaged
  {
    hide ReadOne, EncodeWord, EncodeWords, SplitTime;
    match r
    case PathRecord(p, id) =>
      var body := p + Zeros(Padding(p)) + EncodeWord(TWO_32 - 1 - id);
      assert Encode(m, r) == EncodeWord(|body|) + body;
      FrameCut(m, false, body, cut);
    case DepsRecord(out, mtime, inputs) =>
      var body := EncodeWord(out) + EncodeWord(SplitTime(mtime).0) + EncodeWord(SplitTime(mtime).1) + EncodeWords(inputs);
      assert Encode(m, r) == EncodeWord(|body| + 0x8000_0000) + body;
      FrameCut(m, true, body, cut);
  }

  lemma FrameCut(m: Memory, isDeps: bool, body: seq<Byte>, cut: nat)
    requires 0 < |body| <= MAX_RECORD_SIZE && cut < |body| + 4
    ensures var word := if isDeps then |body| + 0x8000_0000 else |body|;
      ReadOne((EncodeWord(word) + body)[..cut], m) == if cut < 4 then AtEnd else Damaged
  {
    hide ReadDeps, ReadPath, EncodeWord, DecodeWord;
    var word: Word := if isDeps then |body| + 0x8000_0000 else |body|;
    var s := (EncodeWord(word) + body)[..cut];
    if cut >= 4 {
      assert s[..4] == EncodeWord(word);
      WordRoundTrip(word);
    }
  }
}
