/** The best-times rule of `Database.addCompletionTime`: each difficulty of a
    game keeps a short list of completion times. A list of three is sorted
    and its last entry replaced when the new time beats it; a shorter list
    takes the new time at its end. The sort is JavaScript's default one,
    which compares the times as decimal strings. */
module Leaderboard {
  import opened Wrappers
  import opened Text

  /** The difficulty key a time is stored under: ASCII games keep their
      times apart, under the difficulty with `ASCII` appended. */
  function DifficultyKey(difficulty: string, isASCII: bool): (key: string)
    ensures isASCII ==> key == difficulty + "ASCII"
    ensures !isASCII ==> key == difficulty
  {
    if isASCII then difficulty + "ASCII" else difficulty
  }

  /** Appending the suffix is not injective: a standard difficulty already
      ending in `ASCII` shares its key with the ASCII form of the shorter
      name. */
  lemma {:induction false} DifficultyKeysCollide()
    ensures DifficultyKey("EasyASCII", false) == DifficultyKey("Easy", true)
  {
  }

  /** The ASCII and standard keys of one difficulty are always apart. */
  lemma {:induction false} DifficultyKeysApart(difficulty: string)
    ensures DifficultyKey(difficulty, true) != DifficultyKey(difficulty, false)
  {
    assert |DifficultyKey(difficulty, true)| == |difficulty| + 5;
  }

  /** `a <= b` as strings compared code unit by code unit, a prefix coming
      first. */
  predicate TextLe(a: string, b: string)
    decreases |a|
  {
    |a| == 0 || (|b| > 0 && (a[0] < b[0] || (a[0] == b[0] && TextLe(a[1..], b[1..]))))
  }

  lemma {:induction false} TextLeRefl(a: string)
    ensures TextLe(a, a)
    decreases |a|
  {
    if |a| > 0 {
      TextLeRefl(a[1..]);
    }
  }

  lemma {:induction false} TextLeTotal(a: string, b: string)
    ensures TextLe(a, b) || TextLe(b, a)
    decreases |a|
  {
    if |a| > 0 && |b| > 0 && a[0] == b[0] {
      TextLeTotal(a[1..], b[1..]);
    }
  }

  lemma {:induction false} TextLeTrans(a: string, b: string, c: string)
    requires TextLe(a, b) && TextLe(b, c)
    ensures TextLe(a, c)
    decreases |a|
  {
    if |a| > 0 && a[0] == b[0] && b[0] == c[0] {
      TextLeTrans(a[1..], b[1..], c[1..]);
    }
  }

  lemma {:induction false} TextLeAntisym(a: string, b: string)
    requires TextLe(a, b) && TextLe(b, a)
    ensures a == b
    decreases |a|
  {
    if |a| > 0 {
      TextLeAntisym(a[1..], b[1..]);
      assert a == [a[0]] + a[1..];
      assert b == [b[0]] + b[1..];
    }
  }

  /** The order JavaScript's default `sort()` puts numbers in: that of
      their decimal strings. */
  predicate TimeLe(x: nat, y: nat)
  {
    TextLe(DecimalString(x), DecimalString(y))
  }

  lemma {:induction false} TimeLeTotal(x: nat, y: nat)
    ensures TimeLe(x, y) || TimeLe(y, x)
  {
    TextLeTotal(DecimalString(x), DecimalString(y));
  }

  lemma {:induction false} TimeLeTrans(x: nat, y: nat, z: nat)
    requires TimeLe(x, y) && TimeLe(y, z)
    ensures TimeLe(x, z)
  {
    TextLeTrans(DecimalString(x), DecimalString(y), DecimalString(z));
  }

  /** Distinct numbers have distinct decimal strings, so the string order
      ties no two of them. */
  lemma {:induction false} TimeLeAntisym(x: nat, y: nat)
    requires TimeLe(x, y) && TimeLe(y, x)
    ensures x == y
  {
    TextLeAntisym(DecimalString(x), DecimalString(y));
    ParseDecimalString(x);
    ParseDecimalString(y);
  }

  ghost predicate TimeSorted(s: seq<nat>)
  {
    forall i, j | 0 <= i < j < |s| :: TimeLe(s[i], s[j])
  }

  /** `x` placed into the sorted list `s` before the first entry it does
      not come after. */
  function Insert(x: nat, s: seq<nat>): (r: seq<nat>)
    requires TimeSorted(s)
    ensures |r| == |s| + 1 && multiset(r) == multiset(s) + multiset{x}
    ensures TimeSorted(r)
    decreases |s|
  {
    if s == [] then [x]
    else if TimeLe(x, s[0]) then
      InsertFront(x, s);
      [x] + s
    else
      var t := Insert(x, s[1..]);
      assert s == [s[0]] + s[1..];
      TimeLeTotal(x, s[0]);
      AfterHead(s, x, t);
      [s[0]] + t
  }

  /** `x` before a sorted list it comes before keeps the list sorted. */
  lemma {:induction false} InsertFront(x: nat, s: seq<nat>)
    requires TimeSorted(s) && s != [] && TimeLe(x, s[0])
    ensures TimeSorted([x] + s)
  {
    var r := [x] + s;
    forall i, j | 0 <= i < j < |r|
      ensures TimeLe(r[i], r[j])
    {
      if i == 0 && j > 1 {
        TimeLeTrans(x, s[0], s[j - 1]);
      }
    }
  }

  /** The head of a sorted list comes before `x` and everything after it,
      so it may go before the rest with `x` inserted. */
  lemma {:induction false} AfterHead(s: seq<nat>, x: nat, t: seq<nat>)
    requires TimeSorted(s) && s != [] && TimeLe(s[0], x)
    requires TimeSorted(t) && multiset(t) == multiset(s[1..]) + multiset{x}
    ensures TimeSorted([s[0]] + t)
  {
    var r := [s[0]] + t;
    forall j | 0 <= j < |t|
      ensures TimeLe(s[0], t[j])
    {
      assert t[j] in multiset(t);
      if t[j] != x {
        assert t[j] in multiset(s[1..]);
        var k :| 0 <= k < |s[1..]| && s[1..][k] == t[j];
        assert s[k + 1] == t[j];
      }
    }
    forall i, j | 0 <= i < j < |r|
      ensures TimeLe(r[i], r[j])
    {
      if i == 0 {
        assert r[j] == t[j - 1];
      } else {
        assert r[i] == t[i - 1] && r[j] == t[j - 1];
      }
    }
  }

  /** `list.sort()` on numbers: the list in decimal-string order. */
  function SortByText(s: seq<nat>): (r: seq<nat>)
    ensures |r| == |s| && multiset(r) == multiset(s)
    ensures TimeSorted(r)
    decreases |s|
  {
    if s == [] then []
    else
      assert s == [s[0]] + s[1..];
      Insert(s[0], SortByText(s[1..]))
  }

  /** Two sorted lists of the same entries start with the same one: each
      head comes before the other. */
  lemma {:induction false} SameHead(a: seq<nat>, b: seq<nat>)
    requires TimeSorted(a) && TimeSorted(b) && multiset(a) == multiset(b) && a != []
    ensures b != [] && a[0] == b[0]
  {
    assert a[0] in multiset(b);
    var i :| 0 <= i < |b| && b[i] == a[0];
    assert b[0] in multiset(a);
    var j :| 0 <= j < |a| && a[j] == b[0];
    if i == 0 {
      TextLeRefl(DecimalString(b[0]));
    }
    if j == 0 {
      TextLeRefl(DecimalString(a[0]));
    }
    assert TimeLe(b[0], b[i]) && TimeLe(a[0], a[j]);
    TimeLeAntisym(a[0], b[0]);
  }

  /** Dropping the same head leaves the same entries. */
  lemma {:induction false} SameTailEntries(a: seq<nat>, b: seq<nat>)
    requires multiset(a) == multiset(b) && a != [] && b != [] && a[0] == b[0]
    ensures multiset(a[1..]) == multiset(b[1..])
  {
    assert a == [a[0]] + a[1..];
    assert b == [b[0]] + b[1..];
    assert multiset(a[1..]) == multiset(a) - multiset{a[0]};
    assert multiset(b[1..]) == multiset(b) - multiset{b[0]};
  }

  lemma {:induction false} SortedTail(s: seq<nat>)
    requires TimeSorted(s) && s != []
    ensures TimeSorted(s[1..])
  {
    forall i, j | 0 <= i < j < |s| - 1
      ensures TimeLe(s[1..][i], s[1..][j])
    {
      assert s[1..][i] == s[i + 1] && s[1..][j] == s[j + 1];
    }
  }

  /** The order a sort puts a list in is the only one: two sorted lists with
      the same entries are the same list, so no sorting algorithm could give
      another. */
  lemma {:induction false} SortedUnique(a: seq<nat>, b: seq<nat>)
    requires TimeSorted(a) && TimeSorted(b) && multiset(a) == multiset(b)
    ensures a == b
    decreases |a|
  {
    if a == [] {
      assert |b| == |multiset(b)| == 0;
    } else {
      SameHead(a, b);
      SameTailEntries(a, b);
      SortedTail(a);
      SortedTail(b);
      SortedUnique(a[1..], b[1..]);
      assert a == [a[0]] + a[1..];
      assert b == [b[0]] + b[1..];
    }
  }

  /** The list after the rule: a full list of three is sorted and its last
      entry replaced by a smaller new time; any other list takes the new
      time at its end. */
  function UpdatedTimes(list: seq<nat>, completionTime: nat): (r: seq<nat>)
    ensures |list| <= 3 ==> |r| <= 3
    ensures |list| == 3 ==> |r| == 3
    ensures |list| != 3 ==> r == list + [completionTime]
  {
    if |list| == 3 then
      var sorted := SortByText(list);
      if completionTime < sorted[2] then sorted[..2] + [completionTime] else sorted
    else list + [completionTime]
  }

  /** The entries change by at most one: a shorter list gains the new time;
      a full list loses its last entry in string order for the new time
      when the new time is numerically smaller, and keeps its entries
      otherwise. */
  lemma {:induction false} UpdatedEntries(list: seq<nat>, completionTime: nat)
    ensures |list| != 3 ==>
      multiset(UpdatedTimes(list, completionTime)) == multiset(list) + multiset{completionTime}
    ensures |list| == 3 ==>
      var last := SortByText(list)[2];
      && last in list
      && (forall x | x in list :: TimeLe(x, last))
      && (completionTime < last ==>
            multiset(UpdatedTimes(list, completionTime)) == multiset(list) - multiset{last} + multiset{completionTime})
      && (completionTime >= last ==> multiset(UpdatedTimes(list, completionTime)) == multiset(list))
  {
    if |list| == 3 {
      var sorted := SortByText(list);
      var last := sorted[2];
      assert last in multiset(sorted);
      assert sorted == sorted[..2] + [last];
      assert multiset(sorted) == multiset(sorted[..2]) + multiset{last};
      forall x | x in list
        ensures TimeLe(x, last)
      {
        assert x in multiset(sorted);
        var k :| 0 <= k < 3 && sorted[k] == x;
        if k == 2 {
          TextLeRefl(DecimalString(x));
        }
      }
    }
  }

  /** A full list comes out sorted in string order in its first two places,
      and wholly sorted when the new time does not replace anything. */
  lemma {:induction false} UpdatedOrder(list: seq<nat>, completionTime: nat)
    requires |list| == 3
    ensures var r := UpdatedTimes(list, completionTime);
      TimeLe(r[0], r[1]) && (completionTime >= SortByText(list)[2] ==> TimeSorted(r))
  {
  }

  /** The string order is not the numeric one: of the times 9, 10 and 100
      the sort keeps 9 last, so a new time of 50 is dropped while the slower
      100 stays. */
  lemma {:induction false} SlowerTimeKept()
    ensures UpdatedTimes([9, 10, 100], 50) == [10, 100, 9]
  {
    assert DecimalString(9) == "9";
    assert DecimalString(10) == "10" by {
      assert DecimalString(1) == "1";
    }
    assert DecimalString(100) == "100" by {
      assert DecimalString(10) == "10" by {
        assert DecimalString(1) == "1";
      }
    }
    var sorted := [10, 100, 9];
    assert TimeLe(10, 100) && TimeLe(100, 9) && TimeLe(10, 9);
    assert TimeSorted(sorted);
    assert multiset(sorted) == multiset([9, 10, 100]);
    SortedUnique(SortByText([9, 10, 100]), sorted);
  }

  /** `currentGame`, the stored lists of one game by difficulty key. */
  class GameTimes {
    var times: map<string, seq<nat>>

    constructor(times: map<string, seq<nat>>)
      ensures this.times == times
    {
      this.times := times;
    }

    /** The update of `addCompletionTime` for a game that has stored times:
        the list under the difficulty key becomes `UpdatedTimes` of it, and
        no other list changes; a key with no list throws when its length is
        read. */
    method AddCompletionTime(difficulty: string, isASCII: bool, completionTime: nat) returns (outcome: Outcome)
      modifies this
      ensures var key := DifficultyKey(difficulty, isASCII);
        && (key !in old(times) ==>
              outcome == Fail(TypeError("Cannot read properties of undefined (reading 'length')")) && times == old(times))
        && (key in old(times) ==>
              outcome == Pass && times == old(times)[key := UpdatedTimes(old(times)[key], completionTime)])
    {
      var key := difficulty;
      if isASCII {
        key := key + "ASCII";
      }
      if key !in times {
        return Fail(TypeError("Cannot read properties of undefined (reading 'length')"));
      }
      var list := times[key];
      if |list| == 3 {
        list := SortByText(list);
        var largest := list[2];
        if completionTime < largest {
          list := list[2 := completionTime];
          assert list == SortByText(times[key])[..2] + [completionTime];
        }
      } else {
        list := list + [completionTime];
      }
      times := times[key := list];
      outcome := Pass;
    }
  }
}
