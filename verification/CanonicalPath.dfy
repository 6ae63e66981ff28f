/**
  Making a path canonical in place: the names it leads through, with "." and ".." resolved where that is possible.
 */
module CanonicalPath {

  const MAX_COMPONENTS: nat := 60

  // ----- Paths as names -----

  /** Where the first name of a path ends. */
  function NameEnd(s: string): (n: nat)
    ensures n <= |s| && (n < |s| ==> s[n] == '/') && forall i | 0 <= i < n :: s[i] != '/'
  {
    if s == "" || s[0] == '/' then 0 else 1 + NameEnd(s[1..])
  }

  /** What follows the first name and its separator. */
  function Rest(s: string): (r: string)
    ensures s != "" ==> |r| < |s|
  {
    if NameEnd(s) == |s| then "" else s[NameEnd(s) + 1..]
  }

  /** The names between the separators, empty ones included. */
  function Names(s: string): seq<string>
    decreases |s|
  {
    if s == "" then [] else [s[..NameEnd(s)]] + Names(Rest(s))
  }

  /** So many steps up, then down through these names. */
  datatype Way = Way(ups: nat, names: seq<string>)

  datatype Result<T> = Ok(value: T) | EmptyPath | TooManyComponents

  function Step(w: Way, name: string): Result<Way> {
    if name == "" || name == "." then Ok(w)
    else if name == ".." then
      Ok(if |w.names| > 0 then w.(names := w.names[..|w.names| - 1]) else w.(ups := w.ups + 1))
    else if |w.names| == MAX_COMPONENTS then TooManyComponents
    else Ok(w.(names := w.names + [name]))
  }

  function Walk(w: Way, names: seq<string>): Result<Way>
    decreases |names|
  {
    if names == [] then Ok(w) else
    match Step(w, names[0])
    case Ok(w1) => Walk(w1, names[1..])
    case _ => TooManyComponents
  }

  function Ups(n: nat): (r: seq<string>)
    ensures |r| == n
  {
    seq(n, _ => "..")
  }

  function Join(names: seq<string>): string {
    if names == [] then "" else if |names| == 1 then names[0] else names[0] + "/" + Join(names[1..])
  }

  function IsAbsolute(s: string): bool {
    s != "" && s[0] == '/'
  }

  /** The canonical path: without detours; the root becomes the empty path and the current directory a dot. */
  function Canonical(s: string): Result<string> {
    if s == "" then EmptyPath else
    match Walk(Way(0, []), Names(if IsAbsolute(s) then s[1..] else s))
    case Ok(w) =>
      var names := Ups(w.ups) + w.names;
      Ok(if IsAbsolute(s) then if names == [] then "" else "/" + Join(names)
         else if names == [] then "." else Join(names))
    case _ => TooManyComponents
  }

  // ----- In place -----

  /** Every name followed by a separator. */
  function Lines(names: seq<string>): string {
    if names == [] then "" else names[0] + "/" + Lines(names[1..])
  }

  lemma {:induction false} LinesJoin(a: seq<string>, b: seq<string>)
    ensures Lines(a + b) == Lines(a) + Lines(b)
  {
    if a == [] {
      assert a + b == b;
    } else {
      assert (a + b)[1..] == a[1..] + b;
      LinesJoin(a[1..], b);
    }
  }

  lemma {:induction false} JoinIsLines(names: seq<string>)
    requires names != []
    ensures Lines(names) == Join(names) + "/"
  {
    if |names| > 1 {
      JoinIsLines(names[1..]);
    } else {
      assert Lines(names[1..]) == "";
    }
  }

  /** What is written so far: the separator of an absolute path, and the names with theirs. */
  function Written(absolute: bool, w: Way): string {
    (if absolute then "/" else "") + Lines(Ups(w.ups) + w.names)
  }

  lemma WrittenName(absolute: bool, w: Way, name: string)
    ensures Written(absolute, w.(names := w.names + [name])) == Written(absolute, w) + name + "/"
  {
    LinesJoin(Ups(w.ups) + w.names, [name]);
    assert Ups(w.ups) + (w.names + [name]) == Ups(w.ups) + w.names + [name];
    assert Lines([name]) == name + "/";
  }

  lemma WrittenUp(absolute: bool, w: Way)
    requires w.names == []
    ensures Written(absolute, w.(ups := w.ups + 1)) == Written(absolute, w) + "../"
  {
    LinesJoin(Ups(w.ups), [".."]);
    assert Ups(w.ups + 1) + w.names == Ups(w.ups) + [".."];
    assert Ups(w.ups) + w.names == Ups(w.ups);
    assert Lines([".."]) == "../";
  }

  lemma WrittenPrefix(absolute: bool, w: Way, k: nat)
    requires k <= |w.names|
    ensures Written(absolute, w.(names := w.names[..k])) <= Written(absolute, w)
  {
    LinesJoin(Ups(w.ups) + w.names[..k], w.names[k..]);
    assert Ups(w.ups) + w.names[..k] + w.names[k..] == Ups(w.ups) + w.names;
  }

  /** The result without its last separator. */
  lemma CanonicalIs(s: string, w: Way)
    requires s != "" && Walk(Way(0, []), Names(if IsAbsolute(s) then s[1..] else s)) == Ok(w)
    ensures var r := Written(IsAbsolute(s), w);
      Canonical(s) == Ok(if r == "" then "." else r[..|r| - 1])
  {
    hide Walk, Names;
    var names := Ups(w.ups) + w.names;
    var r := Written(IsAbsolute(s), w);
    if names != [] {
      JoinIsLines(names);
      if IsAbsolute(s) {
        assert r == "/" + Join(names) + "/";
        assert r[..|r| - 1] == "/" + Join(names);
      } else {
        assert r[..|r| - 1] == Join(names);
      }
    } else if IsAbsolute(s) {
      assert r == "/" && r[..0] == "";
    }
  }

  /** The part of a path from `src` on; the reader may be one past the end. */
  function Tail(s: string, src: nat): string {
    if src <= |s| then s[src..] else ""
  }

  lemma NameAt(s: string, src: nat, n: nat)
    requires src < |s| && src + n <= |s| && (src + n == |s| || s[src + n] == '/')
    requires forall i | src <= i < src + n :: s[i] != '/'
    ensures Names(Tail(s, src)) == [s[src..src + n]] + Names(Tail(s, src + n + 1))
  {
    var t := Tail(s, src);
    NameEndIs(t, n);
    assert t[..n] == s[src..src + n];
    if src + n < |s| {
      assert t[n + 1..] == s[src + n + 1..];
    }
  }

  lemma NameEndIs(t: string, n: nat)
    requires n <= |t| && (n == |t| || t[n] == '/') && forall i | 0 <= i < n :: t[i] != '/'
    ensures NameEnd(t) == n
  {
  }

  /** One name of the rest is walked. */
  lemma WalkOn(w: Way, s: string, src: nat, n: nat)
    requires src < |s| && src + n <= |s| && (src + n == |s| || s[src + n] == '/')
    requires forall i | src <= i < src + n :: s[i] != '/'
    ensures Walk(w, Names(Tail(s, src)))
         == match Step(w, s[src..src + n])
            case Ok(w1) => Walk(w1, Names(Tail(s, src + n + 1)))
            case _ => TooManyComponents
  {
    hide Step, Names;
    NameAt(s, src, n);
    var name, more := s[src..src + n], Names(Tail(s, src + n + 1));
    assert ([name] + more)[1..] == more;
  }

  /** Where the loop stands: `s` is the path that was given, `w` the way walked so far. */
  ghost predicate Standing(s: string, path: seq<char>, src: nat, dst: nat, w: Way) {
    && |s| < |path| && dst <= src <= |s| + 1
    && dst == |Written(IsAbsolute(s), w)|
    && (forall i | src <= i < |s| :: path[i] == s[i])
    && (forall i | 0 <= i < dst && (src <= |s| || i < dst - 1) :: path[i] == Written(IsAbsolute(s), w)[i])
  }

  /** Where each name on the way begins. */
  ghost predicate Marks(components: seq<nat>, count: nat, absolute: bool, w: Way) {
    && |components| == MAX_COMPONENTS && count == |w.names| <= MAX_COMPONENTS
    && forall k | 0 <= k < count :: components[k] == |Written(absolute, w.(names := w.names[..k]))|
  }

  ghost predicate NoSeparator(p: seq<char>, from: nat, to: nat) {
    from <= to <= |p| && forall i | from <= i < to :: p[i] != '/'
  }

  method CopyChar(path: array<char>, dst: nat, src: nat)
    requires dst < path.Length && src < path.Length
    modifies path
    ensures path[..] == old(path[..])[dst := old(path[..])[src]]
  {
    path[dst] := path[src];
  }

  /** Copies a name and the character behind it, which may be the one behind the end, to the left. */
  method CopyName(path: array<char>, dst0: nat, src0: nat, end: nat) returns (dst: nat, src: nat)
    requires dst0 <= src0 < end < path.Length
    modifies path
    ensures src0 < src <= end + 1 && src - src0 == dst - dst0
    ensures NoSeparator(old(path[..]), src0, src - 1) && (src - 1 == end || old(path[..])[src - 1] == '/')
    ensures Copied(old(path[..]), path[..], dst0, src0, src - src0)
  {
    hide Copied, NoSeparator;
    ghost var p0 := path[..];
    dst, src := dst0, src0;
    CopyNone(p0, dst, src);
    while src != end && path[src] != '/'
      invariant src0 <= src <= end && src - src0 == dst - dst0
      invariant NoSeparator(p0, src0, src)
      invariant Copied(p0, path[..], dst0, src0, src - src0)
      decreases end - src
    {
      ghost var p1 := path[..];
      CopyOne(p0, p1, dst0, src0, src - src0);
      NoSeparatorYet(p0, src0, src);
      CopyChar(path, dst, src);
      dst, src := dst + 1, src + 1;
    }
    ghost var p1 := path[..];
    CopyOne(p0, p1, dst0, src0, src - src0);
    CopyChar(path, dst, src);
    dst, src := dst + 1, src + 1;
  }

  lemma CopyNone(p0: seq<char>, dst: nat, src: nat)
    requires dst <= src <= |p0|
    ensures Copied(p0, p0, dst, src, 0) && NoSeparator(p0, src, src)
  {
  }

  lemma NoSeparatorYet(p: seq<char>, from: nat, to: nat)
    requires NoSeparator(p, from, to) && to < |p| && p[to] != '/'
    ensures NoSeparator(p, from, to + 1)
  {
  }

  /** What is still to be read is as before, so one more character can be copied. */
  lemma CopyOne(p0: seq<char>, p1: seq<char>, dst: nat, src: nat, n: nat)
    requires dst <= src && src + n < |p0| && Copied(p0, p1, dst, src, n)
    ensures p1[src + n] == p0[src + n] && Copied(p0, p1[dst + n := p1[src + n]], dst, src, n + 1)
  {
    assert p1[src + n] == p1[dst + n..][src - dst] == p0[dst + n..][src - dst];
    var p2 := p1[dst + n := p1[src + n]];
    assert p2[..dst] == p1[..dst];
    assert p2[dst..dst + n + 1] == p1[dst..dst + n] + [p0[src + n]] == p0[src..src + n + 1];
    assert p2[dst + n + 1..] == p1[dst + n..][1..] == p0[dst + n..][1..];
  }

  lemma SkipStanding(s: string, path: seq<char>, src: nat, dst: nat, w: Way, next: nat)
    requires |s| < |path| && Standing(s, path, src, dst, w) && src <= next <= |s| + 1
    ensures Standing(s, path, next, dst, w)
  {
    hide Written;
  }

  lemma PopStanding(s: string, path: seq<char>, src: nat, dst: nat, w: Way, components: seq<nat>, count: nat, next: nat)
    requires |s| < |path| && Standing(s, path, src, dst, w) && src <= |s| && src <= next <= |s| + 1
    requires Marks(components, count, IsAbsolute(s), w) && count > 0
    ensures var w1 := w.(names := w.names[..count - 1]);
      && Standing(s, path, next, components[count - 1], w1)
      && Marks(components, count - 1, IsAbsolute(s), w1)
  {
    hide Written;
    WrittenPrefix(IsAbsolute(s), w, count - 1);
    assert forall k | 0 <= k < count - 1 :: w.names[..count - 1][..k] == w.names[..k];
  }

  /** `n` characters were copied and nothing else changed. */
  ghost predicate Copied(p0: seq<char>, p1: seq<char>, dst: nat, src: nat, n: nat)
    requires dst <= src && src + n <= |p0|
  {
    |p1| == |p0| && p1[..dst] == p0[..dst] && p1[dst..dst + n] == p0[src..src + n] && p1[dst + n..] == p0[dst + n..]
  }

  lemma BehindCopied(p0: seq<char>, p1: seq<char>, dst: nat, src: nat, n: nat, i: nat)
    requires dst <= src && src + n <= |p0| && Copied(p0, p1, dst, src, n) && src + n <= i < |p0|
    ensures p1[i] == p0[i]
  {
    assert p1[dst + n..][i - dst - n] == p0[dst + n..][i - dst - n];
  }

  lemma InsideCopied(p0: seq<char>, p1: seq<char>, dst: nat, src: nat, n: nat, k: nat)
    requires dst <= src && src + n <= |p0| && Copied(p0, p1, dst, src, n) && k < n
    ensures p1[dst + k] == p0[src + k]
  {
    assert p1[dst..dst + n][k] == p0[src..src + n][k];
  }

  /** A name and the character behind it were copied. */
  lemma CopiedStanding(s: string, p0: seq<char>, p1: seq<char>, src: nat, dst: nat, n: nat, w: Way, w1: Way)
    requires |s| < |p0| == |p1| && Standing(s, p0, src, dst, w) && dst <= src
    requires src + n <= |s| && (src + n == |s| || s[src + n] == '/')
    requires Copied(p0, p1, dst, src, n + 1)
    requires Written(IsAbsolute(s), w1) == Written(IsAbsolute(s), w) + s[src..src + n] + "/"
    ensures Standing(s, p1, src + n + 1, dst + n + 1, w1)
  {
    hide Written;
    var r := Written(IsAbsolute(s), w1);
    forall i | 0 <= i < dst + n + 1 && (src + n + 1 <= |s| || i < dst + n) ensures p1[i] == r[i] {
      if i < dst {
        assert p1[..dst][i] == p0[..dst][i];
        assert r[i] == Written(IsAbsolute(s), w)[i];
      } else {
        InsideCopied(p0, p1, dst, src, n + 1, i - dst);
        if i < dst + n {
          assert r[i] == s[src..src + n][i - dst] == s[src + (i - dst)];
        } else {
          assert r[i] == '/' && p0[src + n] == s[src + n];
        }
      }
    }
    forall i | src + n + 1 <= i < |s| ensures p1[i] == s[i] {
      BehindCopied(p0, p1, dst, src, n + 1, i);
    }
  }

  lemma MarksPush(components: seq<nat>, count: nat, absolute: bool, w: Way, dst: nat, name: string)
    requires Marks(components, count, absolute, w) && count < MAX_COMPONENTS && dst == |Written(absolute, w)|
    ensures Marks(components[count := dst], count + 1, absolute, w.(names := w.names + [name]))
  {
    hide Written;
    var names := w.names + [name];
    assert names[..count] == w.names && w.(names := w.names) == w;
    assert forall k | 0 <= k < count :: names[..k] == w.names[..k];
  }

  /** Copies an ".." that cannot be resolved, with the character behind it. */
  method CopyUp(path: array<char>, dst0: nat, src0: nat) returns (dst: nat, src: nat)
    requires dst0 <= src0 && src0 + 2 < path.Length
    modifies path
    ensures dst == dst0 + 3 && src == src0 + 3
    ensures Copied(old(path[..]), path[..], dst0, src0, 3)
  {
    hide Copied;
    ghost var p0 := path[..];
    dst, src := dst0, src0;
    CopyNone(p0, dst, src);
    CopyOne(p0, path[..], dst0, src0, 0);
    path[dst] := path[src];
    dst, src := dst + 1, src + 1;
    CopyOne(p0, path[..], dst0, src0, 1);
    path[dst] := path[src];
    dst, src := dst + 1, src + 1;
    CopyOne(p0, path[..], dst0, src0, 2);
    path[dst] := path[src];
    dst, src := dst + 1, src + 1;
  }

  lemma Start(s: string, path: seq<char>, src: nat)
    requires s != "" && |s| < |path| && s == path[..|s|] && src == if s[0] == '/' then 1 else 0
    ensures Standing(s, path, src, src, Way(0, [])) && Tail(s, src) == if IsAbsolute(s) then s[1..] else s
  {
    assert Ups(0) + [] == [];
  }

  lemma UpStep(w: Way, name: string)
    requires name == ".."
    ensures Step(w, name)
         == Ok(if |w.names| > 0 then w.(names := w.names[..|w.names| - 1]) else w.(ups := w.ups + 1))
  {
  }

  lemma NameLength(s: string, src: nat) returns (n: nat)
    requires src < |s|
    ensures src + n <= |s| && (src + n == |s| || s[src + n] == '/') && forall i | src <= i < src + n :: s[i] != '/'
  {
    n := NameEnd(s[src..]);
    assert forall i | src <= i < src + n :: s[i] == s[src..][i - src];
  }

  lemma SameLength(s: string, src: nat, n: nat, m: nat)
    requires src + n <= |s| && (src + n == |s| || s[src + n] == '/') && forall i | src <= i < src + n :: s[i] != '/'
    requires src + m <= |s| && (src + m == |s| || s[src + m] == '/') && forall i | src <= i < src + m :: s[i] != '/'
    ensures n == m
  {
  }

  /** A name that neither branch for dots took and that is not empty. */
  lemma OrdinaryStep(w: Way, s: string, src: nat, n: nat)
    requires src < |s| && src + n <= |s| && (src + n == |s| || s[src + n] == '/') && s[src] != '/'
    requires s[src] == '.' ==> src + 1 < |s| && s[src + 1] != '/'
    requires s[src] == '.' && s[src + 1] == '.' ==> src + 2 < |s| && s[src + 2] != '/'
    ensures Step(w, s[src..src + n])
         == if |w.names| == MAX_COMPONENTS then TooManyComponents else Ok(w.(names := w.names + [s[src..src + n]]))
  {
    var name := s[src..src + n];
    assert name != "" && name[0] == s[src];
    assert n > 1 ==> name[1] == s[src + 1];
  }

  lemma AtEnd(s: string, path: seq<char>, src: nat, dst: nat, w: Way)
    requires s != "" && |s| < |path| && Standing(s, path, src, dst, w) && src >= |s|
    requires Walk(Way(0, []), Names(if IsAbsolute(s) then s[1..] else s)) == Walk(w, Names(Tail(s, src)))
    ensures dst <= |s| + 1 && Canonical(s) == Ok(if dst == 0 then "." else path[..dst - 1])
  {
    hide NameEnd, Rest;
    assert Tail(s, src) == "" && Walk(w, Names("")) == Ok(w);
    CanonicalIs(s, w);
    var r := Written(IsAbsolute(s), w);
    if dst > 0 {
      assert path[..dst - 1] == r[..dst - 1];
    }
  }

  lemma CanonicalFails(s: string)
    requires s != "" && Walk(Way(0, []), Names(if IsAbsolute(s) then s[1..] else s)) == TooManyComponents
    ensures Canonical(s) == TooManyComponents
  {
  }

  /** Resolves an ".." if there is a name to leave, and keeps it otherwise. */
  method GoUp(path: array<char>, components: array<nat>, count0: nat, dst0: nat, src0: nat, ghost s: string, ghost w: Way)
      returns (count: nat, dst: nat, src: nat, ghost w1: Way)
    requires Standing(s, path[..], src0, dst0, w) && Marks(components[..], count0, IsAbsolute(s), w) && dst0 <= src0
    requires src0 + 2 <= |s| < path.Length && s[src0..src0 + 2] == ".." && (src0 + 2 == |s| || s[src0 + 2] == '/')
    modifies path
    ensures Step(w, s[src0..src0 + 2]) == Ok(w1) && src == src0 + 3 && dst <= src
    ensures Standing(s, path[..], src, dst, w1) && Marks(components[..], count, IsAbsolute(s), w1)
  {
    hide Copied, IsAbsolute, Step, Written;
    UpStep(w, s[src0..src0 + 2]);
    assert count0 == |w.names| && components.Length == MAX_COMPONENTS && count0 <= MAX_COMPONENTS;
    if count0 > 0 {
      PopStanding(s, path[..], src0, dst0, w, components[..], count0, src0 + 3);
      count, dst, src := count0 - 1, components[count0 - 1], src0 + 3;
      w1 := w.(names := w.names[..count]);
    } else {
      ghost var before := path[..];
      WrittenUp(IsAbsolute(s), w);
      assert Written(IsAbsolute(s), w) + "../" == Written(IsAbsolute(s), w) + ".." + "/";
      count := count0;
      dst, src := CopyUp(path, dst0, src0);
      w1 := w.(ups := w.ups + 1);
      CopiedStanding(s, before, path[..], src0, dst0, 2, w, w1);
      assert Marks(components[..], count, IsAbsolute(s), w1);
    }
    assert dst <= src;
  }

  /** Remembers where a name begins and copies it. */
  method AddName(path: array<char>, components: array<nat>, count0: nat, dst0: nat, src0: nat, end: nat,
                 ghost s: string, ghost w: Way, ghost n: nat)
      returns (count: nat, dst: nat, src: nat, ghost w1: Way)
    requires Standing(s, path[..], src0, dst0, w) && Marks(components[..], count0, IsAbsolute(s), w) && dst0 <= src0
    requires src0 < |s| == end < path.Length && count0 < MAX_COMPONENTS
    requires src0 + n <= |s| && (src0 + n == |s| || s[src0 + n] == '/')
    requires forall i | src0 <= i < src0 + n :: s[i] != '/'
    modifies path, components
    ensures w1 == w.(names := w.names + [s[src0..src0 + n]]) && src == src0 + n + 1 && dst <= src
    ensures Standing(s, path[..], src, dst, w1) && Marks(components[..], count, IsAbsolute(s), w1)
  {
    hide Copied, IsAbsolute, Written;
    ghost var before, name := path[..], s[src0..src0 + n];
    assert components.Length == MAX_COMPONENTS;
    assert dst0 == |Written(IsAbsolute(s), w)| && forall i | src0 <= i < |s| :: path[i] == s[i];
    MarksPush(components[..], count0, IsAbsolute(s), w, dst0, name);
    components[count0] := dst0;
    count := count0 + 1;
    dst, src := CopyName(path, dst0, src0, end);
    assert forall i | src0 <= i < src - 1 :: before[i] != '/';
    SameLength(s, src0, n, src - src0 - 1);
    w1 := w.(names := w.names + [name]);
    WrittenName(IsAbsolute(s), w, name);
    CopiedStanding(s, before, path[..], src0, dst0, n, w, w1);
    assert dst <= src;
  }

  /** One round of the loop: one name is dropped, resolved or copied, unless there are too many. */
  method Advance(path: array<char>, components: array<nat>, count0: nat, dst0: nat, src0: nat, end: nat,
                 ghost s: string, ghost w: Way)
      returns (full: bool, count: nat, dst: nat, src: nat, ghost w1: Way)
    requires Standing(s, path[..], src0, dst0, w) && Marks(components[..], count0, IsAbsolute(s), w) && dst0 <= src0
    requires src0 < |s| == end < path.Length
    modifies path, components
    ensures full ==> Walk(w, Names(Tail(s, src0))) == TooManyComponents
    ensures !full ==>
      && src0 < src && dst <= src && Walk(w, Names(Tail(s, src0))) == Walk(w1, Names(Tail(s, src)))
      && Standing(s, path[..], src, dst, w1) && Marks(components[..], count, IsAbsolute(s), w1)
  {
    hide IsAbsolute, Names, Tail, Walk, Written;
    assert forall i | src0 <= i < end :: path[i] == s[i];
    assert count0 == |w.names| <= MAX_COMPONENTS;
    full, count, dst, src, w1 := false, count0, dst0, src0, w;
    if path[src] == '.' {
      if src + 1 == end || path[src + 1] == '/' {
        WalkOn(w, s, src, 1);
        assert Step(w, s[src..src + 1]) == Ok(w);
        SkipStanding(s, path[..], src, dst, w, src + 2);
        src := src + 2;
        return;
      } else if path[src + 1] == '.' && (src + 2 == end || path[src + 2] == '/') {
        WalkOn(w, s, src, 2);
        count, dst, src, w1 := GoUp(path, components, count, dst, src, s, w);
        return;
      }
    }
    if path[src] == '/' {
      WalkOn(w, s, src, 0);
      assert Step(w, s[src..src]) == Ok(w);
      SkipStanding(s, path[..], src, dst, w, src + 1);
      src := src + 1;
      return;
    }
    ghost var n := NameLength(s, src);
    WalkOn(w, s, src, n);
    OrdinaryStep(w, s, src, n);
    if count == MAX_COMPONENTS {
      full := true;
      return;
    }
    count, dst, src, w1 := AddName(path, components, count, dst, src, end, s, w, n);
  }

  /** Makes the path in the first `len` characters canonical; the character behind them may be overwritten. */
  method CanonicalizePath(path: array<char>, len: nat) returns (r: Result<nat>)
    requires len < path.Length
    modifies path
    ensures match r
      case Ok(n) => n <= len && Canonical(old(path[..len])) == Ok(path[..n])
      case EmptyPath => Canonical(old(path[..len])) == EmptyPath
      case TooManyComponents => Canonical(old(path[..len])) == TooManyComponents
  {
    hide Standing, Tail, Ups;
    if len == 0 {
      assert path[..0] == "" && Canonical("") == EmptyPath;
      return EmptyPath;
    }
    ghost var s := path[..len];
    var components := new nat[MAX_COMPONENTS];
    var count: nat := 0;
    var dst: nat, src: nat := 0, 0;
    if path[0] == '/' {
      dst, src := 1, 1;
    }
    ghost var w := Way(0, []);
    Start(s, path[..], src);
    ghost var goal := Walk(w, Names(Tail(s, src)));
    assert Marks(components[..], 0, IsAbsolute(s), w);
    while src < len
      invariant Standing(s, path[..], src, dst, w) && Marks(components[..], count, IsAbsolute(s), w)
      invariant dst <= src && goal == Walk(w, Names(Tail(s, src)))
      decreases len - src
    {
      var full;
      full, count, dst, src, w := Advance(path, components, count, dst, src, len, s, w);
      if full {
        CanonicalFails(s);
        return TooManyComponents;
      }
    }
    AtEnd(s, path[..], src, dst, w);
    if dst == 0 {
      path[0], path[1] := '.', '\0';
      dst := 2;
      assert path[..1] == ".";
    }
    return Ok(dst - 1);
  }

  // ----- What the canonical path means -----

  /** Where a path leads from a directory without links: "." and empty names stay, ".." leaves, at the root it stays. */
  function Follow(at: seq<string>, names: seq<string>): seq<string>
    decreases |names|
  {
    if names == [] then at
    else if names[0] == "" || names[0] == "." then Follow(at, names[1..])
    else if names[0] == ".." then Follow(if at == [] then [] else at[..|at| - 1], names[1..])
    else Follow(at + [names[0]], names[1..])
  }

  function Resolve(at: seq<string>, s: string): seq<string> {
    if IsAbsolute(s) then Follow([], Names(s[1..])) else Follow(at, Names(s))
  }

  /** A way from a directory: as far up as there is something above, then down. */
  function Go(at: seq<string>, w: Way): seq<string> {
    at[..if w.ups <= |at| then |at| - w.ups else 0] + w.names
  }

  predicate IsName(name: string) {
    name != "" && name != "." && name != ".." && '/' !in name
  }

  ghost predicate Settled(w: Way) {
    |w.names| <= MAX_COMPONENTS && forall i | 0 <= i < |w.names| :: IsName(w.names[i])
  }

  lemma {:induction false} WalkSettles(w: Way, names: seq<string>)
    requires Settled(w) && Walk(w, names).Ok? && forall i | 0 <= i < |names| :: '/' !in names[i]
    ensures Settled(Walk(w, names).value)
    decreases |names|
  {
    if names != [] {
      WalkSettles(Step(w, names[0]).value, names[1..]);
    }
  }

  lemma {:induction false} NamesHaveNoSeparator(s: string)
    ensures forall i | 0 <= i < |Names(s)| :: '/' !in Names(s)[i]
    decreases |s|
  {
    if s != "" {
      NamesHaveNoSeparator(Rest(s));
    }
  }

  /** Walking through names leads where the way leads. */
  lemma {:induction false} WalkLeads(at: seq<string>, w: Way, names: seq<string>)
    requires Walk(w, names).Ok?
    ensures Go(at, Walk(w, names).value) == Follow(Go(at, w), names)
    decreases |names|
  {
    if names != [] {
      var w1 := Step(w, names[0]).value;
      WalkLeads(at, w1, names[1..]);
      StepLeads(at, w, names[0]);
    }
  }

  lemma StepLeads(at: seq<string>, w: Way, name: string)
    requires Step(w, name).Ok?
    ensures Go(at, Step(w, name).value) ==
      if name == "" || name == "." then Go(at, w)
      else if name == ".." then if Go(at, w) == [] then [] else Go(at, w)[..|Go(at, w)| - 1]
      else Go(at, w) + [name]
  {
    var here := Go(at, w);
    if name == ".." && |w.names| > 0 {
      assert Go(at, Step(w, name).value) == here[..|here| - 1];
    }
  }

  /** The root loses its separator and becomes the empty path, which is then refused. */
  lemma RootIsEmpty()
    ensures Canonical("/") == Ok("") && Canonical("") == EmptyPath
  {
    assert "/"[1..] == "";
  }

  // ----- Canonical paths are canonical -----

  lemma {:induction false} NamesOfJoin(names: seq<string>)
    requires names != [] && forall i | 0 <= i < |names| :: names[i] != "" && '/' !in names[i]
    ensures Names(Join(names)) == names
  {
    if |names| == 1 {
      OneName(names[0]);
      assert names == [names[0]];
    } else {
      NamesOfJoin(names[1..]);
      NamesOfLine(names[0], Join(names[1..]));
      assert names == [names[0]] + names[1..];
    }
  }

  lemma NamesOfLine(a: string, b: string)
    requires '/' !in a
    ensures Names(a + "/" + b) == [a] + Names(b)
  {
    var s := a + "/" + b;
    NameEndIs(s, |a|);
    assert s[..|a|] == a && s[|a| + 1..] == b;
  }

  lemma OneName(a: string)
    requires '/' !in a && a != ""
    ensures Names(a) == [a]
  {
    NameEndIs(a, |a|);
    assert a[..|a|] == a;
    assert Rest(a) == "" && Names("") == [];
  }

  lemma {:induction false} WalkUps(u: nat, n: nat)
    ensures Walk(Way(u, []), Ups(n)) == Ok(Way(u + n, []))
    decreases n
  {
    if n > 0 {
      assert Ups(n)[1..] == Ups(n - 1);
      WalkUps(u + 1, n - 1);
    }
  }

  lemma {:induction false} WalkDown(w: Way, names: seq<string>)
    requires Settled(w.(names := w.names + names))
    ensures Walk(w, names) == Ok(w.(names := w.names + names))
    decreases |names|
  {
    if names == [] {
      assert w.names + names == w.names;
    } else {
      var w1 := w.(names := w.names + [names[0]]);
      assert w1.names + names[1..] == w.names + names;
      assert IsName((w.names + names)[|w.names|]);
      WalkDown(w1, names[1..]);
    }
  }

  lemma {:induction false} WalkJoins(w: Way, a: seq<string>, b: seq<string>)
    requires Walk(w, a).Ok?
    ensures Walk(w, a + b) == Walk(Walk(w, a).value, b)
    decreases |a|
  {
    if a == [] {
      assert a + b == b;
    } else {
      assert (a + b)[1..] == a[1..] + b;
      WalkJoins(Step(w, a[0]).value, a[1..], b);
    }
  }

  /** The names of a settled way lead to that way. */
  lemma WayOfNames(w: Way)
    requires Settled(w)
    ensures Walk(Way(0, []), Ups(w.ups) + w.names) == Ok(w)
  {
    WalkUps(0, w.ups);
    WalkJoins(Way(0, []), Ups(w.ups), w.names);
    WalkDown(Way(w.ups, []), w.names);
    assert [] + w.names == w.names;
  }

  /** The way that a canonical path was made of, and the names in it. */
  lemma CanonicalNames(s: string, r: string) returns (w: Way)
    requires Canonical(s) == Ok(r)
    ensures Walk(Way(0, []), Names(if IsAbsolute(s) then s[1..] else s)) == Ok(w) && Settled(w)
    ensures var names := Ups(w.ups) + w.names;
      && (names == [] ==> r == if IsAbsolute(s) then "" else ".")
      && (names != [] ==>
            && r == (if IsAbsolute(s) then "/" else "") + Join(names) && Names(Join(names)) == names
            && Join(names) != "" && !IsAbsolute(Join(names)))
  {
    var t := if IsAbsolute(s) then s[1..] else s;
    w := Walk(Way(0, []), Names(t)).value;
    NamesHaveNoSeparator(t);
    WalkSettles(Way(0, []), Names(t));
    var names := Ups(w.ups) + w.names;
    assert forall i | 0 <= i < |names| :: names[i] != "" && '/' !in names[i];
    if names != [] {
      NamesOfJoin(names);
      FirstOfJoin(names);
    }
  }

  lemma FirstOfJoin(names: seq<string>)
    requires names != [] && names[0] != "" && '/' !in names[0]
    ensures Join(names) != "" && !IsAbsolute(Join(names))
  {
    assert Join(names)[0] == names[0][0];
  }

  /** Making a canonical path canonical changes nothing; only the root, which becomes empty, is refused. */
  lemma CanonicalTwice(s: string, r: string)
    requires Canonical(s) == Ok(r)
    ensures Canonical(r) == if r == "" then EmptyPath else Ok(r)
  {
    hide Walk, Names, Join;
    var w := CanonicalNames(s, r);
    var names := Ups(w.ups) + w.names;
    if names == [] {
      DotStays();
    } else {
      WayOfNames(w);
      if IsAbsolute(s) {
        assert r[1..] == Join(names);
      } else {
        assert r == Join(names);
      }
    }
  }

  lemma DotStays()
    ensures Canonical(".") == Ok(".")
  {
    OneName(".");
    assert Walk(Way(0, []), ["."]) == Walk(Way(0, []), []);
    assert Ups(0) + [] == [];
  }

  /** A canonical path leads where the path leads, from everywhere; the empty path stands for the root. */
  lemma CanonicalLeads(s: string, r: string, at: seq<string>)
    requires Canonical(s) == Ok(r)
    ensures Resolve(at, s) == if r == "" then [] else Resolve(at, r)
  {
    hide Walk, Names, Join;
    var w := CanonicalNames(s, r);
    var from := if IsAbsolute(s) then [] else at;
    WalkLeads(from, Way(0, []), Names(if IsAbsolute(s) then s[1..] else s));
    assert Go(from, Way(0, [])) == from;
    var names := Ups(w.ups) + w.names;
    WayOfNames(w);
    WalkLeads(from, Way(0, []), names);
    if names == [] {
      DotLeads(at);
      assert Follow(from, []) == from;
    } else if IsAbsolute(s) {
      assert r[1..] == Join(names);
    } else {
      assert r == Join(names);
    }
  }

  lemma DotLeads(at: seq<string>)
    ensures Resolve(at, ".") == at
  {
    OneName(".");
    assert ["."][1..] == [];
  }

  // ----- The form of canonical paths -----

  /** The names of a path, without the separator in front of an absolute one. */
  function NamesIn(s: string): seq<string> {
    Names(if IsAbsolute(s) then s[1..] else s)
  }

  /**
    A canonical path that is neither the root nor the current directory consists of ordinary names, with ".." only in
    front of all others and single separators only between names.
   */
  lemma CanonicalForm(s: string, r: string)
    requires Canonical(s) == Ok(r) && r != "" && r != "."
    ensures IsAbsolute(r) <==> IsAbsolute(s)
    ensures NamesIn(r) != [] && r == (if IsAbsolute(r) then "/" else "") + Join(NamesIn(r))
    ensures forall k | 0 <= k < |NamesIn(r)| :: IsName(NamesIn(r)[k]) || NamesIn(r)[k] == ".."
    ensures forall j, k | 0 <= j < k < |NamesIn(r)| && NamesIn(r)[k] == ".." :: NamesIn(r)[j] == ".."
  {
    hide Walk, Names, Join;
    var w := CanonicalNames(s, r);
    var names := Ups(w.ups) + w.names;
    if IsAbsolute(s) {
      assert r[1..] == Join(names);
    } else {
      assert r == Join(names);
    }
  }

  /** Sixty names are never too many, and names without detours are too many exactly if there are more than sixty. */
  lemma TooManyExactlyWhen(s: string)
    requires s != ""
    ensures |NamesIn(s)| <= 60 ==> Canonical(s).Ok?
    ensures (forall k | 0 <= k < |NamesIn(s)| :: IsName(NamesIn(s)[k])) ==>
      (Canonical(s) == TooManyComponents <==> |NamesIn(s)| > 60)
  {
    hide Names, Join;
    if |NamesIn(s)| <= 60 {
      FewAreWalked(Way(0, []), NamesIn(s));
    }
    if forall k | 0 <= k < |NamesIn(s)| :: IsName(NamesIn(s)[k]) {
      PlainAreWalked(Way(0, []), NamesIn(s));
    }
  }

  lemma {:induction false} FewAreWalked(w: Way, names: seq<string>)
    requires |w.names| + |names| <= 60
    ensures Walk(w, names).Ok?
    decreases |names|
  {
    if names != [] {
      FewAreWalked(Step(w, names[0]).value, names[1..]);
    }
  }

  lemma {:induction false} PlainAreWalked(w: Way, names: seq<string>)
    requires |w.names| <= 60 && forall k | 0 <= k < |names| :: IsName(names[k])
    ensures Walk(w, names).Ok? <==> |w.names| + |names| <= 60
    decreases |names|
  {
    if names != [] && |w.names| < 60 {
      PlainAreWalked(Step(w, names[0]).value, names[1..]);
    }
  }

  // ----- One canonical path for one place -----

  /** A name longer than all of these. */
  function LongName(names: seq<string>): (z: string)
    ensures forall k | 0 <= k < |names| :: |names[k]| < |z|
  {
    if names == [] then "z" else
    var z := LongName(names[1..]);
    if |names[0]| < |z| then z else names[0] + "z"
  }

  /** Far enough down among names that a way does not go through, two ways that lead to the same place are the same. */
  lemma SamePlaceSameWay(w1: Way, w2: Way)
    requires forall at: seq<string> :: Go(at, w1) == Go(at, w2)
    ensures w1 == w2
  {
    var z := LongName(w1.names + w2.names);
    assert forall k | 0 <= k < |w1.names| :: w1.names[k] == (w1.names + w2.names)[k];
    assert forall k | 0 <= k < |w2.names| :: w2.names[k] == (w1.names + w2.names)[|w1.names| + k];
    var n := w1.ups + w2.ups + 1;
    var at := seq(n, _ => z);
    assert Go(at, w1) == Go(at, w2);
    NotFurtherUp(w1, w2, z, n);
    NotFurtherUp(w2, w1, z, n);
    assert Go(at, w1)[n - w1.ups..] == w1.names && Go(at, w2)[n - w2.ups..] == w2.names;
  }

  /** A name that is new shows how far up a way goes. */
  lemma NotFurtherUp(w1: Way, w2: Way, z: string, n: nat)
    requires w1.ups < n && w2.ups < n && Go(seq(n, _ => z), w1) == Go(seq(n, _ => z), w2)
    requires forall k | 0 <= k < |w2.names| :: |w2.names[k]| < |z|
    ensures w1.ups >= w2.ups
  {
    var b := Go(seq(n, _ => z), w2);
    assert |b| == n - w2.ups + |w2.names| && forall k | 0 <= k < |w2.names| :: b[n - w2.ups + k] == w2.names[k];
    var a := Go(seq(n, _ => z), w1);
    assert |a| == n - w1.ups + |w1.names| && forall k | 0 <= k < n - w1.ups :: a[k] == z;
    assert w2.names != [] ==> b[n - w2.ups] == w2.names[0];
  }

  /** Two relative paths have the same canonical path exactly if they lead to the same place from everywhere. */
  lemma CanonicalDecides(s1: string, s2: string, r1: string, r2: string)
    requires !IsAbsolute(s1) && !IsAbsolute(s2) && Canonical(s1) == Ok(r1) && Canonical(s2) == Ok(r2)
    ensures r1 == r2 <==> forall at: seq<string> :: Resolve(at, s1) == Resolve(at, s2)
  {
    hide Walk, Names, Join;
    var w1 := CanonicalNames(s1, r1);
    var w2 := CanonicalNames(s2, r2);
    forall at: seq<string> ensures Resolve(at, s1) == Go(at, w1) && Resolve(at, s2) == Go(at, w2) {
      WalkLeads(at, Way(0, []), Names(s1));
      WalkLeads(at, Way(0, []), Names(s2));
      assert Go(at, Way(0, [])) == at;
    }
    if r1 == r2 {
      forall at: seq<string> ensures Resolve(at, s1) == Resolve(at, s2) {
        CanonicalLeads(s1, r1, at);
        CanonicalLeads(s2, r2, at);
      }
    }
    if forall at: seq<string> :: Resolve(at, s1) == Resolve(at, s2) {
      assert forall at: seq<string> :: Go(at, w1) == Go(at, w2);
      SamePlaceSameWay(w1, w2);
    }
  }
}
