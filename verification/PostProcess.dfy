/**
  Replacing byte strings in place until none is left: what the loops leave behind, and when they end.
 */
module PostProcess {
  type Byte = b: nat | b < 256

  /** A pair as the configuration accepts it: of equal length. */
  datatype Item = Item(needle: seq<Byte>, replacement: seq<Byte>)
  {
    predicate Valid() {
      |needle| == |replacement| > 0
    }
  }

  predicate OccursAt(needle: seq<Byte>, data: seq<Byte>, i: nat) {
    i + |needle| <= |data| && data[i..i + |needle|] == needle
  }

  ghost predicate Occurs(needle: seq<Byte>, data: seq<Byte>) {
    exists i: nat :: OccursAt(needle, data, i)
  }

  /** The first place of the needle from `i` on, or the end of the data. */
  function Search(needle: seq<Byte>, data: seq<Byte>, i: nat): (r: nat)
    requires i <= |data|
    ensures i <= r <= |data|
    ensures r < |data| ==> OccursAt(needle, data, r)
    ensures forall j: nat | i <= j < r :: !OccursAt(needle, data, j)
    decreases |data| - i
  {
    if i == |data| || OccursAt(needle, data, i) then i else Search(needle, data, i + 1)
  }

  lemma SearchTells(needle: seq<Byte>, data: seq<Byte>)
    requires needle != []
    ensures Search(needle, data, 0) < |data| <==> Occurs(needle, data)
  {
  }

  function Put(data: seq<Byte>, i: nat, block: seq<Byte>): (r: seq<Byte>)
    requires i + |block| <= |data|
    ensures |r| == |data|
  {
    data[..i] + block + data[i + |block|..]
  }

  /** One round: the first needle is replaced. */
  function Once(item: Item, data: seq<Byte>): (r: seq<Byte>)
    requires item.Valid() && Search(item.needle, data, 0) < |data|
    ensures |r| == |data|
  {
    Put(data, Search(item.needle, data, 0), item.replacement)
  }

  // ----- Data as a number -----

  function Power(n: nat): (p: nat)
    ensures p > 0
  {
    if n == 0 then 1 else 256 * Power(n - 1)
  }

  /** The bytes as digits, the first the most significant. */
  function Number(s: seq<Byte>): nat {
    if s == [] then 0 else Number(s[..|s| - 1]) * 256 + s[|s| - 1]
  }

  lemma {:induction false} NumberBelow(s: seq<Byte>)
    ensures Number(s) < Power(|s|)
  {
    if s != [] {
      NumberBelow(s[..|s| - 1]);
    }
  }

  lemma {:induction false} NumberTells(s: seq<Byte>, t: seq<Byte>)
    requires |s| == |t| && Number(s) == Number(t)
    ensures s == t
  {
    if s != [] {
      NumberTells(s[..|s| - 1], t[..|t| - 1]);
      assert s == s[..|s| - 1] + [s[|s| - 1]] && t == t[..|t| - 1] + [t[|t| - 1]];
    }
  }

  /** A smaller block in the same place makes the number smaller. */
  lemma {:induction false} SmallerInside(a: seq<Byte>, s: seq<Byte>, t: seq<Byte>, b: seq<Byte>)
    requires |s| == |t| && Number(s) < Number(t)
    ensures Number(a + s + b) < Number(a + t + b)
    decreases |b|
  {
    var l, r := a + s + b, a + t + b;
    if b == [] {
      assert l == a + s && r == a + t;
      SmallerBehind(a, s, t);
    } else {
      assert l[..|l| - 1] == a + s + b[..|b| - 1] && r[..|r| - 1] == a + t + b[..|b| - 1];
      SmallerInside(a, s, t, b[..|b| - 1]);
    }
  }

  lemma {:induction false} SmallerBehind(a: seq<Byte>, s: seq<Byte>, t: seq<Byte>)
    requires |s| == |t| && Number(s) < Number(t)
    ensures Number(a + s) < Number(a + t)
    decreases |s|
  {
    var l, r := a + s, a + t;
    assert l[..|l| - 1] == a + s[..|s| - 1] && r[..|r| - 1] == a + t[..|t| - 1];
    var s1, t1 := s[..|s| - 1], t[..|t| - 1];
    if Number(s1) < Number(t1) {
      SmallerBehind(a, s1, t1);
    } else {
      NumberTells(s1, t1);
    }
  }

  /** What every round makes smaller, if the two strings of the item differ. */
  function Measure(item: Item, data: seq<Byte>): int {
    if Number(item.replacement) < Number(item.needle) then Number(data) else Power(|data|) - Number(data)
  }

  /** Where the first needle is, the data falls apart around it. */
  lemma SplitAtNeedle(item: Item, data: seq<Byte>) returns (a: seq<Byte>, b: seq<Byte>)
    requires item.Valid() && Search(item.needle, data, 0) < |data|
    ensures data == a + item.needle + b && Once(item, data) == a + item.replacement + b
  {
    hide Search;
    var i := Search(item.needle, data, 0);
    a, b := data[..i], data[i + |item.needle|..];
    assert data[i..i + |item.needle|] == item.needle;
  }

  lemma OnceDecreases(item: Item, data: seq<Byte>)
    requires item.Valid() && item.needle != item.replacement && Search(item.needle, data, 0) < |data|
    ensures 0 <= Measure(item, Once(item, data)) < Measure(item, data)
  {
    hide Measure, Once, Search, OccursAt;
    var a, b := SplitAtNeedle(item, data);
    PutDecreases(item, a, b);
  }

  lemma PutDecreases(item: Item, a: seq<Byte>, b: seq<Byte>)
    requires item.Valid() && item.needle != item.replacement
    ensures 0 <= Measure(item, a + item.replacement + b) < Measure(item, a + item.needle + b)
  {
    hide Number, Power;
    NumberBelow(a + item.replacement + b);
    if Number(item.replacement) < Number(item.needle) {
      SmallerInside(a, item.replacement, item.needle, b);
    } else {
      DifferentNumbers(item.needle, item.replacement);
      SmallerInside(a, item.needle, item.replacement, b);
    }
  }

  lemma DifferentNumbers(s: seq<Byte>, t: seq<Byte>)
    requires |s| == |t| && s != t
    ensures Number(s) != Number(t)
  {
    if Number(s) == Number(t) {
      NumberTells(s, t);
    }
  }

  // ----- The loop of one item -----

  /** What is left when no needle is found any more. */
  function Replaced(item: Item, data: seq<Byte>): (r: seq<Byte>)
    requires item.Valid() && item.needle != item.replacement
    ensures |r| == |data|
    decreases Measure(item, data)
  {
    if Search(item.needle, data, 0) == |data| then data
    else
      OnceDecreases(item, data);
      Replaced(item, Once(item, data))
  }

  lemma {:induction false} NoNeedleLeft(item: Item, data: seq<Byte>)
    requires item.Valid() && item.needle != item.replacement
    ensures !Occurs(item.needle, Replaced(item, data))
    decreases Measure(item, data)
  {
    SearchTells(item.needle, data);
    if Search(item.needle, data, 0) < |data| {
      OnceDecreases(item, data);
      NoNeedleLeft(item, Once(item, data));
    }
  }

  /** The data after `n` rounds, or when the needle ran out before. */
  function Rounds(item: Item, data: seq<Byte>, n: nat): (r: seq<Byte>)
    requires item.Valid()
    ensures |r| == |data|
    decreases n
  {
    if n == 0 || Search(item.needle, data, 0) == |data| then data else Rounds(item, Once(item, data), n - 1)
  }

  /** Some number of rounds leaves no needle. */
  ghost predicate Ends(item: Item, data: seq<Byte>)
    requires item.Valid()
  {
    exists n :: !Occurs(item.needle, Rounds(item, data, n))
  }

  /** The loop ends exactly if the item changes something or has nothing to do. */
  lemma EndsExactlyWhen(item: Item, data: seq<Byte>)
    requires item.Valid()
    ensures Ends(item, data) <==> item.needle != item.replacement || !Occurs(item.needle, data)
  {
    if item.needle != item.replacement {
      var n := RoundsToEnd(item, data);
    } else if Occurs(item.needle, data) {
      forall n ensures Occurs(item.needle, Rounds(item, data, n)) {
        RoundsChangeNothing(item, data, n);
      }
    } else {
      assert Rounds(item, data, 0) == data;
    }
  }

  lemma {:induction false} RoundsToEnd(item: Item, data: seq<Byte>) returns (n: nat)
    requires item.Valid() && item.needle != item.replacement
    ensures Rounds(item, data, n) == Replaced(item, data) && !Occurs(item.needle, Rounds(item, data, n))
    decreases Measure(item, data)
  {
    SearchTells(item.needle, data);
    if Search(item.needle, data, 0) == |data| {
      n := 0;
    } else {
      OnceDecreases(item, data);
      n := RoundsToEnd(item, Once(item, data));
      n := n + 1;
    }
  }

  lemma {:induction false} RoundsChangeNothing(item: Item, data: seq<Byte>, n: nat)
    requires item.Valid() && item.needle == item.replacement
    ensures Rounds(item, data, n) == data
    decreases n
  {
    if n > 0 && Search(item.needle, data, 0) < |data| {
      var i := Search(item.needle, data, 0);
      assert Put(data, i, data[i..i + |item.needle|]) == data;
      RoundsChangeNothing(item, data, n - 1);
    }
  }

  // ----- All items -----

  function Result(item: Item, data: seq<Byte>): (r: seq<Byte>)
    requires item.Valid()
    ensures |r| == |data|
  {
    if item.needle == item.replacement then data else Replaced(item, data)
  }

  function ResultAll(items: seq<Item>, data: seq<Byte>): (r: seq<Byte>)
    requires forall i | 0 <= i < |items| :: items[i].Valid()
    ensures |r| == |data|
  {
    if items == [] then data else ResultAll(items[1..], Result(items[0], data))
  }

  ghost predicate EndsAll(items: seq<Item>, data: seq<Byte>)
    requires forall i | 0 <= i < |items| :: items[i].Valid()
  {
    items == [] || (Ends(items[0], data) && EndsAll(items[1..], Result(items[0], data)))
  }

  /** The two strings of every item being different is enough, whatever the data. */
  lemma {:induction false} DifferentItemsEnd(items: seq<Item>, data: seq<Byte>)
    requires forall i | 0 <= i < |items| :: items[i].Valid() && items[i].needle != items[i].replacement
    ensures EndsAll(items, data)
    decreases |items|
  {
    if items != [] {
      EndsExactlyWhen(items[0], data);
      DifferentItemsEnd(items[1..], Result(items[0], data));
    }
  }

  /** Only the needle of the last item is sure to be gone: a later item may bring back an earlier needle. */
  lemma {:induction false} LastNeedleGone(items: seq<Item>, data: seq<Byte>)
    requires (forall i | 0 <= i < |items| :: items[i].Valid()) && EndsAll(items, data) && items != []
    ensures !Occurs(items[|items| - 1].needle, ResultAll(items, data))
    decreases |items|
  {
    if |items| == 1 {
      EndsExactlyWhen(items[0], data);
      if items[0].needle != items[0].replacement {
        NoNeedleLeft(items[0], data);
      }
      assert ResultAll([], Result(items[0], data)) == Result(items[0], data);
    } else {
      LastNeedleGone(items[1..], Result(items[0], data));
    }
  }

  lemma EarlierNeedleReturns(x: Byte, y: Byte)
    requires x != y
    ensures var items := [Item([x], [y]), Item([y], [x])];
      ResultAll(items, [y]) == [x] && Occurs(items[0].needle, ResultAll(items, [y]))
  {
    var first, second := Item([x], [y]), Item([y], [x]);
    assert Search([x], [y], 0) == 1 && Result(first, [y]) == [y];
    assert OccursAt([y], [y], 0) && Search([y], [y], 0) == 0;
    assert Once(second, [y]) == [x];
    OnceDecreases(second, [y]);
    assert Search([y], [x], 0) == 1 && Replaced(second, [x]) == [x];
    assert Result(second, [y]) == [x];
    var items := [first, second];
    assert items[1..] == [second] && items[1..][1..] == [];
    assert ResultAll(items[1..], [y]) == ResultAll([], [x]) == [x];
    assert OccursAt([x], [x], 0);
  }

  // ----- When earlier needles stay away -----

  /** The block, put `d` bytes behind the start of the needle, overlaps it and agrees with it there. */
  predicate MeetsAt(needle: seq<Byte>, block: seq<Byte>, d: int) {
    && -|block| < d < |needle|
    && forall i | 0 <= i < |needle| && 0 <= i - d < |block| :: needle[i] == block[i - d]
  }

  /** The block can be a part of a needle, or a needle of it, or the end of one the beginning of the other. */
  ghost predicate Meets(needle: seq<Byte>, block: seq<Byte>) {
    exists d :: MeetsAt(needle, block, d)
  }

  /** Where a needle occurs, its bytes are those of the data. */
  lemma ByteOfNeedle(needle: seq<Byte>, data: seq<Byte>, i: nat, k: nat)
    requires OccursAt(needle, data, i) && k < |needle|
    ensures data[i + k] == needle[k]
  {
    assert data[i..i + |needle|][k] == data[i + k];
  }

  /** A needle that occurs after a block was put in occurred before, or meets the block. */
  lemma OldOrMet(needle: seq<Byte>, data: seq<Byte>, i: nat, block: seq<Byte>, q: nat)
    requires needle != [] && i + |block| <= |data| && OccursAt(needle, Put(data, i, block), q)
    ensures Occurs(needle, data) || Meets(needle, block)
  {
    var r := Put(data, i, block);
    if q + |needle| <= i || i + |block| <= q {
      assert data[q..q + |needle|] == r[q..q + |needle|];
      assert OccursAt(needle, data, q);
    } else {
      var d := i - q;
      forall k | 0 <= k < |needle| && 0 <= k - d < |block| ensures needle[k] == block[k - d] {
        ByteOfNeedle(needle, r, q, k);
      }
      assert MeetsAt(needle, block, d);
    }
  }

  /** A block that does not meet the needle makes none. */
  lemma PutMakesNone(needle: seq<Byte>, data: seq<Byte>, i: nat, block: seq<Byte>)
    requires needle != [] && i + |block| <= |data| && !Occurs(needle, data) && !Meets(needle, block)
    ensures !Occurs(needle, Put(data, i, block))
  {
    hide Meets, Put;
    forall q: nat ensures !OccursAt(needle, Put(data, i, block), q) {
      if OccursAt(needle, Put(data, i, block), q) {
        OldOrMet(needle, data, i, block, q);
      }
    }
  }

  lemma {:induction false} ReplacedMakesNone(needle: seq<Byte>, item: Item, data: seq<Byte>)
    requires item.Valid() && item.needle != item.replacement && needle != []
    requires !Occurs(needle, data) && !Meets(needle, item.replacement)
    ensures !Occurs(needle, Replaced(item, data))
    decreases Measure(item, data)
  {
    hide Meets, Measure, Occurs, Put, Search;
    if Search(item.needle, data, 0) < |data| {
      OnceDecreases(item, data);
      SearchFits(item, data);
      PutMakesNone(needle, data, Search(item.needle, data, 0), item.replacement);
      ReplacedMakesNone(needle, item, Once(item, data));
    }
  }

  lemma SearchFits(item: Item, data: seq<Byte>)
    requires item.Valid() && Search(item.needle, data, 0) < |data|
    ensures Search(item.needle, data, 0) + |item.replacement| <= |data|
  {
  }

  lemma {:induction false} ItemsMakeNone(needle: seq<Byte>, items: seq<Item>, data: seq<Byte>)
    requires (forall i | 0 <= i < |items| :: items[i].Valid()) && needle != [] && !Occurs(needle, data)
    requires forall i | 0 <= i < |items| :: !Meets(needle, items[i].replacement)
    ensures !Occurs(needle, ResultAll(items, data))
    decreases |items|
  {
    hide Meets, Occurs, Replaced;
    if items != [] {
      if items[0].needle != items[0].replacement {
        ReplacedMakesNone(needle, items[0], data);
      }
      ItemsMakeNone(needle, items[1..], Result(items[0], data));
    }
  }

  /** If no replacement meets a needle before it, all needles are gone at the end, whatever the data. */
  lemma {:induction false} AllNeedlesGone(items: seq<Item>, data: seq<Byte>)
    requires (forall i | 0 <= i < |items| :: items[i].Valid()) && EndsAll(items, data)
    requires forall i, j | 0 <= i < j < |items| :: !Meets(items[i].needle, items[j].replacement)
    ensures forall i | 0 <= i < |items| :: !Occurs(items[i].needle, ResultAll(items, data))
    decreases |items|
  {
    hide Meets, Occurs, Ends, Replaced;
    if items != [] {
      var rest, result := items[1..], Result(items[0], data);
      EndsExactlyWhen(items[0], data);
      if items[0].needle != items[0].replacement {
        NoNeedleLeft(items[0], data);
      }
      ItemsMakeNone(items[0].needle, rest, result);
      AllNeedlesGone(rest, result);
      forall i | 0 <= i < |items| ensures !Occurs(items[i].needle, ResultAll(items, data)) {
        if i > 0 {
          assert items[i] == rest[i - 1];
        }
      }
    }
  }

  /** The two strings have no byte in common. */
  predicate Apart(s: seq<Byte>, t: seq<Byte>) {
    forall x | x in s :: x !in t
  }

  lemma NotFound(needle: seq<Byte>, data: seq<Byte>)
    requires needle != [] && needle[0] !in data
    ensures !Occurs(needle, data)
  {
    forall i: nat ensures !OccursAt(needle, data, i) {
      if OccursAt(needle, data, i) {
        ByteOfNeedle(needle, data, i, 0);
      }
    }
  }

  lemma NothingToDo(item: Item, data: seq<Byte>)
    requires item.Valid() && !Occurs(item.needle, data)
    ensures Result(item, data) == data
  {
    hide Measure, Search;
    SearchTells(item.needle, data);
  }

  lemma FirstByteThere(needle: seq<Byte>, data: seq<Byte>, r: nat, a: seq<Byte>)
    requires needle != [] && OccursAt(needle, data, r) && r < |a| && a <= data
    ensures !Apart(needle, a)
  {
    ByteOfNeedle(needle, data, r, 0);
    assert needle[0] in needle && a[r] in a;
  }

  /** A needle between pieces that have nothing in common with it is found there. */
  lemma FoundBetween(a: seq<Byte>, needle: seq<Byte>, b: seq<Byte>)
    requires needle != [] && Apart(needle, a)
    ensures Search(needle, a + needle + b, 0) == |a|
  {
    var data := a + needle + b;
    var r := Search(needle, data, 0);
    assert data[|a|..|a| + |needle|] == needle;
    assert OccursAt(needle, data, |a|);
    if r < |a| {
      FirstByteThere(needle, data, r, a);
    }
  }

  lemma NeedleTouches(needle: seq<Byte>, a: seq<Byte>, block: seq<Byte>, b: seq<Byte>, q: nat)
    requires |a| < |needle| && |b| < |needle| && block != [] && OccursAt(needle, a + block + b, q)
    ensures !Apart(block, needle)
  {
    var data, k := a + block + b, if q < |a| then |a| - q else 0;
    ByteOfNeedle(needle, data, q, k);
    assert data[q + k] == block[q + k - |a|];
    assert block[q + k - |a|] in block && needle[k] in needle;
  }

  /** Pieces shorter than the needle around a block that has nothing in common with it. */
  lemma NoneAround(needle: seq<Byte>, a: seq<Byte>, block: seq<Byte>, b: seq<Byte>)
    requires |a| < |needle| && |b| < |needle| && block != [] && Apart(block, needle)
    ensures !Occurs(needle, a + block + b)
  {
    hide Apart;
    var data := a + block + b;
    forall q: nat ensures !OccursAt(needle, data, q) {
      if OccursAt(needle, data, q) {
        NeedleTouches(needle, a, block, b, q);
      }
    }
  }

  /** The parts of the needle on both sides of a block that it meets. */
  lemma Around(needle: seq<Byte>, block: seq<Byte>, d: int) returns (a: seq<Byte>, b: seq<Byte>)
    requires MeetsAt(needle, block, d) && |block| > 0 && needle != []
    ensures |a| < |needle| && |b| < |needle| && Occurs(needle, a + block + b)
    ensures (forall x | x in a :: x in needle) && (forall x | x in b :: x in needle)
  {
    a := if d > 0 then needle[..d] else [];
    b := if d + |block| < |needle| then needle[d + |block|..] else [];
    var data := a + block + b;
    var q: nat := if d > 0 then 0 else -d;
    assert |data| >= q + |needle|;
    forall i | 0 <= i < |needle| ensures data[q..q + |needle|][i] == needle[i] {
      assert data[q..q + |needle|][i] == data[q + i];
    }
    assert data[q..q + |needle|] == needle;
    assert OccursAt(needle, data, q);
  }

  /**
    Two items whose second needle has nothing in common with the first needle or with what replaces it: the first needle
    can be back at the end exactly if the second replacement meets it.
   */
  lemma FirstNeedleReturnsExactlyWhen(first: Item, second: Item)
    requires first.Valid() && second.Valid() && first.needle != first.replacement
    requires Apart(second.needle, first.needle) && Apart(second.needle, second.replacement)
    ensures (exists data :: Occurs(first.needle, ResultAll([first, second], data)))
       <==> Meets(first.needle, second.replacement)
  {
    hide Meets, Occurs;
    assert second.needle != second.replacement by { assert second.needle[0] in second.needle; }
    var items := [first, second];
    if Meets(first.needle, second.replacement) {
      var data := DataThatReturns(first, second);
    } else {
      forall data ensures !Occurs(first.needle, ResultAll(items, data)) {
        DifferentItemsEnd(items, data);
        AllNeedlesGone(items, data);
        assert items[0] == first;
      }
    }
  }

  lemma DataThatReturns(first: Item, second: Item) returns (data: seq<Byte>)
    requires first.Valid() && second.Valid()
    requires Apart(second.needle, first.needle) && Apart(second.needle, second.replacement)
    requires Meets(first.needle, second.replacement)
    ensures Occurs(first.needle, ResultAll([first, second], data))
  {
    hide Occurs, Replaced;
    var d :| MeetsAt(first.needle, second.replacement, d);
    var a, b := Around(first.needle, second.replacement, d);
    data := a + second.needle + b;
    NoneAround(first.needle, a, second.needle, b);
    NothingToDo(first, data);
    var result := a + second.replacement + b;
    assert Result(second, data) == result by {
      SecondReplaces(second, a, b);
    }
    assert [first, second][1..] == [second] && [second][1..] == [];
    assert ResultAll([second], data) == ResultAll([], result) == result;
  }

  lemma SecondReplaces(item: Item, a: seq<Byte>, b: seq<Byte>)
    requires item.Valid() && Apart(item.needle, a) && Apart(item.needle, b) && Apart(item.needle, item.replacement)
    ensures Result(item, a + item.needle + b) == a + item.replacement + b
  {
    hide Measure, Occurs, OccursAt, Once, Search;
    var data, result := a + item.needle + b, a + item.replacement + b;
    assert item.needle[0] in item.needle;
    FoundBetween(a, item.needle, b);
    OnceBetween(item, a, b);
    NotFound(item.needle, result);
    SearchTells(item.needle, result);
    OnceDecreases(item, data);
    assert Replaced(item, result) == result;
  }

  lemma OnceBetween(item: Item, a: seq<Byte>, b: seq<Byte>)
    requires item.Valid() && Search(item.needle, a + item.needle + b, 0) == |a|
    ensures Once(item, a + item.needle + b) == a + item.replacement + b
  {
    hide Search;
    var data := a + item.needle + b;
    assert data[..|a|] == a && data[|a| + |item.needle|..] == b;
  }

  lemma EndOfNeedle(a: seq<Byte>, b: seq<Byte>, data: seq<Byte>, i: nat)
    requires OccursAt(a + b, data, i)
    ensures Occurs(b, data)
  {
    assert data[i..i + |a + b|][|a|..] == data[i + |a|..i + |a| + |b|];
    assert OccursAt(b, data, i + |a|);
  }

  /** The condition is not necessary: here the replacement meets the first needle, which never comes back. */
  lemma MeetingNeedNotReturn(x: Byte, y: Byte, z: Byte, data: seq<Byte>)
    requires x != y && z != x && z != y
    ensures var items := [Item([x, y], [z, z]), Item([y], [x])];
      Meets(items[0].needle, items[1].replacement) && !Occurs(items[0].needle, ResultAll(items, data))
  {
    hide Ends, EndsAll;
    var items := [Item([x, y], [z, z]), Item([y], [x])];
    assert MeetsAt([x, y], [x], 0);
    DifferentItemsEnd(items, data);
    LastNeedleGone(items, data);
    var r := ResultAll(items, data);
    forall i: nat ensures !OccursAt([x, y], r, i) {
      if OccursAt([x, y], r, i) {
        EndOfNeedle([x], [y], r, i);
      }
    }
  }

  // ----- The program -----

  /** Replaces the first needle in place, if there is one. */
  method ReplaceOnce(data: array<Byte>, item: Item) returns (found: bool)
    requires item.Valid()
    modifies data
    ensures found == (Search(item.needle, old(data[..]), 0) < data.Length)
    ensures data[..] == if found then Once(item, old(data[..])) else old(data[..])
  {
    var i := Find(data, item.needle);
    if i == data.Length {
      return false;
    }
    Copy(data, i, item.replacement);
    return true;
  }

  method Find(data: array<Byte>, needle: seq<Byte>) returns (i: nat)
    requires needle != []
    ensures i == Search(needle, data[..], 0)
  {
    i := 0;
    while i < data.Length && !(i + |needle| <= data.Length && data[i..i + |needle|] == needle)
      invariant i <= data.Length && Search(needle, data[..], 0) == Search(needle, data[..], i)
    {
      i := i + 1;
    }
  }

  method Copy(data: array<Byte>, i: nat, block: seq<Byte>)
    requires i + |block| <= data.Length
    modifies data
    ensures data[..] == Put(old(data[..]), i, block)
  {
    var k := 0;
    while k < |block|
      invariant 0 <= k <= |block|
      invariant data[..i] == old(data[..i]) && data[i..i + k] == block[..k] && data[i + k..] == old(data[i + k..])
    {
      data[i + k] := block[k];
      k := k + 1;
    }
    assert data[..] == data[..i] + data[i..i + k] + data[i + k..];
  }

  /** Applies the items one after the other; the loop of each ends. */
  method Apply(items: seq<Item>, data: array<Byte>)
    requires (forall i | 0 <= i < |items| :: items[i].Valid()) && EndsAll(items, data[..])
    modifies data
    ensures data[..] == ResultAll(items, old(data[..]))
  {
    ghost var was := data[..];
    var k := 0;
    assert items[0..] == items;
    while k < |items|
      invariant 0 <= k <= |items| && EndsAll(items[k..], data[..])
      invariant ResultAll(items[k..], data[..]) == ResultAll(items, was)
    {
      ApplyItem(items[k], data);
      assert items[k..][1..] == items[k + 1..];
      k := k + 1;
    }
  }

  method ApplyItem(item: Item, data: array<Byte>)
    requires item.Valid() && Ends(item, data[..])
    modifies data
    ensures data[..] == Result(item, old(data[..]))
  {
    ghost var was := data[..];
    EndsExactlyWhen(item, was);
    SearchTells(item.needle, was);
    var found := true;
    while found
      invariant Result(item, data[..]) == Result(item, was)
      invariant item.needle == item.replacement ==> data[..] == was
      invariant !found ==> Search(item.needle, data[..], 0) == data.Length
      decreases found, Measure(item, data[..])
    {
      ghost var before := data[..];
      if item.needle != item.replacement && Search(item.needle, before, 0) < data.Length {
        OnceDecreases(item, before);
      }
      found := ReplaceOnce(data, item);
    }
  }
}
