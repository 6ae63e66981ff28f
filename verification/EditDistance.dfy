/**
  The edit distance of two strings: the one-row program with its early exit, and the least number of edits.
 */
module EditDistance {

  function Min(a: int, b: int): int {
    if a < b then a else b
  }

  function Last(s: string): char
    requires s != ""
  {
    s[|s| - 1]
  }

  function Init(s: string): string
    requires s != ""
  {
    s[..|s| - 1]
  }

  /** The distance of two strings, with or without replacements, from their last characters. */
  function Distance(a: string, b: string, replace: bool): nat
    decreases |a| + |b|
  {
    if a == "" then |b|
    else if b == "" then |a|
    else if Last(a) == Last(b) then Distance(Init(a), Init(b), replace)
    else
      var one := Min(Distance(Init(a), b, replace), Distance(a, Init(b), replace));
      1 + if replace then Min(Distance(Init(a), Init(b), replace), one) else one
  }

  // ----- One character more or less -----

  lemma {:induction false} Symmetric(a: string, b: string, replace: bool)
    ensures Distance(a, b, replace) == Distance(b, a, replace)
    decreases |a| + |b|
  {
    if a != "" && b != "" {
      Symmetric(Init(a), Init(b), replace);
      Symmetric(Init(a), b, replace);
      Symmetric(a, Init(b), replace);
    }
  }

  /** A character more at an end changes the distance by at most one. */
  lemma {:induction false} Near(a: string, b: string, replace: bool)
    requires b != ""
    ensures -1 <= Distance(a, b, replace) - Distance(a, Init(b), replace) <= 1
    decreases |a| + |b|
  {
    if a != "" {
      Near(Init(a), b, replace);
      Near(Init(b), a, replace);
      Symmetric(a, Init(b), replace);
      Symmetric(Init(a), Init(b), replace);
    }
  }

  // ----- The program -----

  /** The value that the program computes from its three neighbours. */
  function Cell(corner: int, left: int, above: int, same: bool, replace: bool): int {
    if replace then Min(corner + if same then 0 else 1, Min(left, above) + 1)
    else if same then corner else Min(left, above) + 1
  }

  lemma CellIsDistance(a: string, b: string, replace: bool)
    requires a != "" && b != ""
    ensures Distance(a, b, replace)
         == Cell(Distance(Init(a), Init(b), replace), Distance(a, Init(b), replace), Distance(Init(a), b, replace),
                 Last(a) == Last(b), replace)
  {
    Near(Init(a), b, replace);
    Near(Init(b), a, replace);
    Symmetric(a, Init(b), replace);
    Symmetric(Init(a), Init(b), replace);
  }

  ghost predicate RowAbove(a: string, b: string, replace: bool, bound: int) {
    forall x | 0 <= x <= |b| :: Distance(a, b[..x], replace) > bound
  }

  /** If a whole row is above a bound, so is the next. */
  lemma {:induction false} NextRowAbove(a: string, b: string, replace: bool, bound: int, x: nat)
    requires a != "" && x <= |b| && RowAbove(Init(a), b, replace, bound)
    ensures Distance(a, b[..x], replace) > bound
    decreases x
  {
    hide Cell;
    assert Distance(Init(a), b[..x], replace) > bound;
    if x > 0 {
      assert Init(b[..x]) == b[..x - 1];
      NextRowAbove(a, b, replace, bound, x - 1);
      assert Distance(Init(a), b[..x - 1], replace) > bound;
    }
  }

  lemma {:induction false} LastRowAbove(a: string, b: string, replace: bool, bound: int, y: nat)
    requires y <= |a| && RowAbove(a[..y], b, replace, bound)
    ensures RowAbove(a, b, replace, bound)
    decreases |a| - y
  {
    hide Distance;
    if y < |a| {
      assert Init(a[..y + 1]) == a[..y];
      forall x | 0 <= x <= |b| ensures Distance(a[..y + 1], b[..x], replace) > bound {
        NextRowAbove(a[..y + 1], b, replace, bound, x);
      }
      LastRowAbove(a, b, replace, bound, y + 1);
    } else {
      assert a[..y] == a;
    }
  }

  /**
    The distance, computed in one row. A bound of zero asks for the exact distance; above a positive bound the result
    is some value above it.
   */
  method EditDistance(s1: string, s2: string, replace: bool, bound: int) returns (d: int)
    ensures bound == 0 || (bound > 0 && Distance(s1, s2, replace) <= bound) ==> d == Distance(s1, s2, replace)
    ensures bound > 0 && Distance(s1, s2, replace) > bound ==> d > bound
    ensures bound < 0 ==> d == if s1 == "" then |s2| else bound + 1
  {
    hide Distance;
    var m, n := |s1|, |s2|;
    FirstRow(s1, s2, replace);
    var row := new int[n + 1](i => i);
    var y := 1;
    while y <= m
      invariant 1 <= y <= m + 1 && row.Length == n + 1
      invariant forall x | 0 <= x <= n :: row[x] == Distance(s1[..y - 1], s2[..x], replace)
      invariant bound < 0 ==> y == 1
    {
      var best := NextRow(s1, s2, replace, row, y);
      if bound != 0 && best > bound {
        LastRowAbove(s1, s2, replace, bound, y);
        assert s2[..n] == s2;
        return bound + 1;
      }
      y := y + 1;
    }
    assert s1[..m] == s1 && s2[..n] == s2;
    return row[n];
  }

  lemma FirstRow(s1: string, s2: string, replace: bool)
    ensures forall x | 0 <= x <= |s2| :: Distance(s1[..0], s2[..x], replace) == x
  {
  }

  /** Turns a row into the next, from left to right, and finds its least value. */
  method NextRow(s1: string, s2: string, replace: bool, row: array<int>, y: nat) returns (best: int)
    requires 1 <= y <= |s1| && row.Length == |s2| + 1
    requires forall x | 0 <= x <= |s2| :: row[x] == Distance(s1[..y - 1], s2[..x], replace)
    modifies row
    ensures forall x | 0 <= x <= |s2| :: best <= row[x] == Distance(s1[..y], s2[..x], replace)
    ensures exists x | 0 <= x <= |s2| :: best == row[x]
  {
    hide Distance, Cell;
    Margin(s1, s2, replace, y);
    row[0] := y;
    best := row[0];
    var previous := y - 1;
    var x := 1;
    while x <= |s2|
      invariant 1 <= x <= |s2| + 1
      invariant forall j | 0 <= j < x :: best <= row[j] == Distance(s1[..y], s2[..j], replace)
      invariant exists j | 0 <= j < x :: best == row[j]
      invariant forall j | x <= j <= |s2| :: row[j] == Distance(s1[..y - 1], s2[..j], replace)
      invariant previous == Distance(s1[..y - 1], s2[..x - 1], replace)
    {
      CellAt(s1, s2, replace, y, x);
      var old_row := row[x];
      row[x] := Cell(previous, row[x - 1], row[x], s1[y - 1] == s2[x - 1], replace);
      previous := old_row;
      best := Min(best, row[x]);
      x := x + 1;
    }
  }

  /** The first column: a distance to the empty string. */
  lemma Margin(s1: string, s2: string, replace: bool, y: nat)
    requires 1 <= y <= |s1|
    ensures Distance(s1[..y], s2[..0], replace) == y && Distance(s1[..y - 1], s2[..0], replace) == y - 1
  {
  }

  lemma CellAt(s1: string, s2: string, replace: bool, y: nat, x: nat)
    requires 1 <= y <= |s1| && 1 <= x <= |s2|
    ensures Distance(s1[..y], s2[..x], replace)
         == Cell(Distance(s1[..y - 1], s2[..x - 1], replace), Distance(s1[..y], s2[..x - 1], replace),
                 Distance(s1[..y - 1], s2[..x], replace), s1[y - 1] == s2[x - 1], replace)
  {
    hide Distance;
    assert Init(s1[..y]) == s1[..y - 1] && Init(s2[..x]) == s2[..x - 1];
    CellIsDistance(s1[..y], s2[..x], replace);
  }

  // ----- The least number of edits -----

  datatype Edit = Insert(at: nat, c: char) | Delete(at: nat) | Replace(at: nat, c: char)

  predicate Applies(e: Edit, s: string, replace: bool) {
    match e
    case Insert(at, _) => at <= |s|
    case Delete(at) => at < |s|
    case Replace(at, _) => replace && at < |s|
  }

  function Apply(e: Edit, s: string): string
    requires Applies(e, s, true) || Applies(e, s, false)
  {
    match e
    case Insert(at, c) => s[..at] + [c] + s[at..]
    case Delete(at) => s[..at] + s[at + 1..]
    case Replace(at, c) => s[..at] + [c] + s[at + 1..]
  }

  /** The edits, one after the other, turn `a` into `b`. */
  ghost predicate Turns(edits: seq<Edit>, a: string, b: string, replace: bool)
    decreases |edits|
  {
    if edits == [] then a == b
    else Applies(edits[0], a, replace) && Turns(edits[1..], Apply(edits[0], a), b, replace)
  }

  /** Strings that have no character in common at the end lie next to each other. */
  lemma {:induction false} OneApart(a: string, u: string, c: char, v: string, replace: bool)
    ensures -1 <= Distance(a, u + [c] + v, replace) - Distance(a, u + v, replace) <= 1
    decreases |a| + |v|
  {
    hide Distance;
    var b, d := u + [c] + v, u + v;
    if v == "" {
      assert b == u + [c] && d == u && Init(b) == u;
      Near(a, b, replace);
    } else if a == "" {
      FromNothing(b, replace);
      FromNothing(d, replace);
    } else {
      assert Init(b) == u + [c] + Init(v) && Init(d) == u + Init(v) && Last(b) == Last(d) == Last(v);
      OneApart(Init(a), u, c, Init(v), replace);
      OneApart(Init(a), u, c, v, replace);
      OneApart(a, u, c, Init(v), replace);
      DistanceStep(a, b, replace);
      DistanceStep(a, d, replace);
    }
  }

  lemma FromNothing(b: string, replace: bool)
    ensures Distance("", b, replace) == |b|
  {
  }

  lemma DistanceStep(a: string, b: string, replace: bool)
    requires a != "" && b != ""
    ensures var one := Min(Distance(Init(a), b, replace), Distance(a, Init(b), replace));
      Distance(a, b, replace)
        == if Last(a) == Last(b) then Distance(Init(a), Init(b), replace)
           else 1 + if replace then Min(Distance(Init(a), Init(b), replace), one) else one
  {
  }

  /** Replacing a character changes the distance with replacements by at most one. */
  lemma {:induction false} OneReplaced(a: string, u: string, c: char, d: char, v: string)
    ensures Distance(a, u + [c] + v, true) <= Distance(a, u + [d] + v, true) + 1
    decreases |a| + |v|
  {
    if v == "" && a != "" {
      assert u + [c] + v == u + [c] && u + [d] + v == u + [d] && Init(u + [c]) == u && Init(u + [d]) == u;
      Near(Init(a), u + [d], true);
      Near(u, a, true);
      Symmetric(a, u, true);
      Symmetric(Init(a), u, true);
    } else if a != "" {
      var b, e := u + [c] + v, u + [d] + v;
      assert Init(b) == u + [c] + Init(v) && Init(e) == u + [d] + Init(v);
      OneReplaced(Init(a), u, c, d, Init(v));
      OneReplaced(Init(a), u, c, d, v);
      OneReplaced(a, u, c, d, Init(v));
    }
  }

  lemma OneEdit(e: Edit, a: string, b: string, replace: bool)
    requires Applies(e, a, replace)
    ensures Distance(a, b, replace) <= Distance(Apply(e, a), b, replace) + 1
  {
    hide Distance;
    var a1 := Apply(e, a);
    Symmetric(a, b, replace);
    Symmetric(a1, b, replace);
    match e
    case Insert(at, c) =>
      assert a == a[..at] + a[at..];
      OneApart(b, a[..at], c, a[at..], replace);
    case Delete(at) =>
      assert a == a[..at] + [a[at]] + a[at + 1..];
      OneApart(b, a[..at], a[at], a[at + 1..], replace);
    case Replace(at, c) =>
      assert a == a[..at] + [a[at]] + a[at + 1..];
      OneReplaced(b, a[..at], a[at], c, a[at + 1..]);
  }

  /** Fewer edits than the distance do not turn one string into the other. */
  lemma {:induction false} AtLeastDistance(edits: seq<Edit>, a: string, b: string, replace: bool)
    requires Turns(edits, a, b, replace)
    ensures |edits| >= Distance(a, b, replace)
    decreases |edits|
  {
    hide Distance;
    if edits == [] {
      DistanceToItself(a, replace);
    } else {
      AtLeastDistance(edits[1..], Apply(edits[0], a), b, replace);
      OneEdit(edits[0], a, b, replace);
    }
  }

  lemma {:induction false} DistanceToItself(a: string, replace: bool)
    ensures Distance(a, a, replace) == 0
  {
    if a != "" {
      DistanceToItself(Init(a), replace);
    }
  }

  lemma ApplyBefore(e: Edit, a: string, v: string, replace: bool)
    requires Applies(e, a, replace)
    ensures Applies(e, a + v, replace) && Apply(e, a + v) == Apply(e, a) + v
  {
    match e
    case Insert(at, c) =>
      SplitJoin(a, v, at);
      JoinJoin(a[..at] + [c], a[at..], v);
    case Delete(at) =>
      SplitJoin(a, v, at);
      SplitJoin(a, v, at + 1);
      JoinJoin(a[..at], a[at + 1..], v);
    case Replace(at, c) =>
      SplitJoin(a, v, at);
      SplitJoin(a, v, at + 1);
      JoinJoin(a[..at] + [c], a[at + 1..], v);
  }

  lemma SplitJoin(a: string, v: string, at: nat)
    requires at <= |a|
    ensures (a + v)[..at] == a[..at] && (a + v)[at..] == a[at..] + v
  {
  }

  lemma JoinJoin(a: string, b: string, v: string)
    ensures a + b + v == a + (b + v)
  {
  }

  /** Edits do not mind what follows the string. */
  lemma {:induction false} TurnsBefore(edits: seq<Edit>, a: string, b: string, replace: bool, v: string)
    requires Turns(edits, a, b, replace)
    ensures Turns(edits, a + v, b + v, replace)
    decreases |edits|
  {
    hide Apply, Applies;
    if edits != [] {
      var e := edits[0];
      ApplyBefore(e, a, v, replace);
      TurnsBefore(edits[1..], Apply(e, a), b, replace, v);
    }
  }

  lemma {:induction false} TurnsThen(edits: seq<Edit>, a: string, b: string, replace: bool, e: Edit)
    requires Turns(edits, a, b, replace) && Applies(e, b, replace)
    ensures Turns(edits + [e], a, Apply(e, b), replace)
    decreases |edits|
  {
    if edits == [] {
      assert Turns([e][1..], Apply(e, b), Apply(e, b), replace);
    } else {
      assert (edits + [e])[1..] == edits[1..] + [e];
      TurnsThen(edits[1..], Apply(edits[0], a), b, replace, e);
    }
  }

  /** So many edits are enough. */
  lemma {:induction false} Script(a: string, b: string, replace: bool) returns (edits: seq<Edit>)
    ensures Turns(edits, a, b, replace) && |edits| == Distance(a, b, replace)
    decreases |a| + |b|
  {
    hide Apply, Applies;
    if a == "" && b == "" {
      edits := [];
      assert Turns(edits, a, b, replace);
    } else if a != "" && b != "" && Last(a) == Last(b) {
      edits := Script(Init(a), Init(b), replace);
      KeepLast(edits, a, b, replace);
    } else if a != "" && b != "" && replace && Distance(a, b, replace) == 1 + Distance(Init(a), Init(b), replace) {
      edits := Script(Init(a), Init(b), replace);
      ReplaceLast(edits, a, b);
      edits := edits + [Replace(|b| - 1, Last(b))];
    } else if a != "" && Distance(a, b, replace) == 1 + Distance(Init(a), b, replace) {
      edits := Script(Init(a), b, replace);
      DeleteLast(edits, a, b, replace);
      edits := edits + [Delete(|b|)];
    } else {
      edits := Script(a, Init(b), replace);
      InsertLast(edits, a, b, replace);
      edits := edits + [Insert(|b| - 1, Last(b))];
    }
  }

  lemma KeepLast(edits: seq<Edit>, a: string, b: string, replace: bool)
    requires a != "" && b != "" && Last(a) == Last(b) && Turns(edits, Init(a), Init(b), replace)
    ensures Turns(edits, a, b, replace)
  {
    hide Turns;
    TurnsBefore(edits, Init(a), Init(b), replace, [Last(a)]);
    assert Init(a) + [Last(a)] == a && Init(b) + [Last(a)] == b;
  }

  lemma ReplaceLast(edits: seq<Edit>, a: string, b: string)
    requires a != "" && b != "" && Turns(edits, Init(a), Init(b), true)
    ensures Turns(edits + [Replace(|b| - 1, Last(b))], a, b, true)
  {
    hide Turns;
    TurnsBefore(edits, Init(a), Init(b), true, [Last(a)]);
    assert Init(a) + [Last(a)] == a;
    var m := Init(b) + [Last(a)];
    assert Apply(Replace(|b| - 1, Last(b)), m) == b;
    TurnsThen(edits, a, m, true, Replace(|b| - 1, Last(b)));
  }

  lemma DeleteLast(edits: seq<Edit>, a: string, b: string, replace: bool)
    requires a != "" && Turns(edits, Init(a), b, replace)
    ensures Turns(edits + [Delete(|b|)], a, b, replace)
  {
    hide Turns;
    TurnsBefore(edits, Init(a), b, replace, [Last(a)]);
    assert Init(a) + [Last(a)] == a;
    var m := b + [Last(a)];
    assert Apply(Delete(|b|), m) == b;
    TurnsThen(edits, a, m, replace, Delete(|b|));
  }

  lemma InsertLast(edits: seq<Edit>, a: string, b: string, replace: bool)
    requires b != "" && Turns(edits, a, Init(b), replace)
    ensures Turns(edits + [Insert(|b| - 1, Last(b))], a, b, replace)
  {
    hide Turns;
    assert Apply(Insert(|b| - 1, Last(b)), Init(b)) == b;
    TurnsThen(edits, a, Init(b), replace, Insert(|b| - 1, Last(b)));
  }

  /** The distance is the least number of edits, with or without replacements among them. */
  lemma DistanceIsLeast(a: string, b: string, replace: bool)
    ensures exists edits :: Turns(edits, a, b, replace) && |edits| == Distance(a, b, replace)
    ensures forall edits | Turns(edits, a, b, replace) :: |edits| >= Distance(a, b, replace)
  {
    var least := Script(a, b, replace);
    forall edits | Turns(edits, a, b, replace) ensures |edits| >= Distance(a, b, replace) {
      AtLeastDistance(edits, a, b, replace);
    }
  }
}
