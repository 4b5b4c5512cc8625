/** The pieces of JavaScript regular-expression matching that the title
    parsers rely on, written out as explicit searches: literals under the
    case folding of the `/i` flag, digit runs, a greedy `(.*)` that tries the
    longest text first and backtracks, and the leftmost start of an
    unanchored match. */
module Pattern {
  import opened Wrappers
  import opened Text

  /** Two texts of one length that agree letter by letter up to case. */
  predicate SameText(a: string, b: string)
  {
    |a| == |b| && forall k | 0 <= k < |a| :: SameIgnoringCase(a[k], b[k])
  }

  /** `lit` occurs at `i`, letters compared without regard to case. */
  predicate LitAt(s: string, i: nat, lit: string)
  {
    i + |lit| <= |s| && SameText(s[i..i + |lit|], lit)
  }

  lemma {:induction false} LitAtExact(s: string, i: nat, lit: string)
    requires i + |lit| <= |s| && s[i..i + |lit|] == lit
    ensures LitAt(s, i, lit)
  {
    assert forall k | 0 <= k < |lit| :: SameIgnoringCase(lit[k], lit[k]);
  }

  /** `[0-9]{n}` at `i`. */
  predicate DigitsAt(s: string, i: nat, n: nat)
  {
    i + n <= |s| && AllDigits(s[i..i + n])
  }

  /** What an identifier group can capture: eight digits, or `Loading` in
      any case when that alternative is there. */
  predicate IdText(id: string, loading: bool)
  {
    (|id| == 8 && AllDigits(id)) || (loading && SameText(id, "Loading"))
  }

  /** The text an identifier group matches at `i`: `([0-9]{8}|Loading)`, the
      alternatives tried in order, or `([0-9]{8})` alone when `loading` is
      false. */
  function IdAt(s: string, i: nat, loading: bool): (m: Option<string>)
    ensures m.Some? ==> i + |m.value| <= |s| && m.value == s[i..i + |m.value|]
    ensures m.Some? ==> IdText(m.value, loading)
  {
    if DigitsAt(s, i, 8) then Some(s[i..i + 8])
    else if loading && LitAt(s, i, "Loading") then Some(s[i..i + 7])
    else None
  }

  /** An identifier group only looks at the text from `i` on. */
  lemma {:induction false} IdAtSuffix(s: string, i: nat, loading: bool)
    requires i <= |s|
    ensures IdAt(s, i, loading) == IdAt(s[i..], 0, loading)
  {
    var t := s[i..];
    if i + 8 <= |s| {
      assert t[0..8] == s[i..i + 8];
    }
    if i + 7 <= |s| {
      assert t[0..7] == s[i..i + 7];
    }
  }

  /** Where a `.*` started at `p` has to stop: `.` matches anything but a
      line terminator. */
  function RunEnd(s: string, p: nat): (e: nat)
    requires p <= |s|
    ensures p <= e <= |s|
    ensures forall k | p <= k < e :: !IsLineTerminator(s[k])
    ensures e < |s| ==> IsLineTerminator(s[e])
    decreases |s| - p
  {
    if p == |s| || IsLineTerminator(s[p]) then p else RunEnd(s, p + 1)
  }

  /** A greedy `(.*)` from `p`, followed by the rest of the pattern: the ends
      are tried from `e` down to `p`, and the first end at which `rest`
      matches wins, with what `rest` captured there. */
  function Greedy<T>(rest: nat -> Option<T>, p: nat, e: nat): (m: Option<(nat, T)>)
    ensures m.Some? ==> p <= m.value.0 <= e && rest(m.value.0) == Some(m.value.1)
    decreases e
  {
    if e < p then None
    else if rest(e).Some? then Some((e, rest(e).value))
    else if e == p then None
    else Greedy(rest, p, e - 1)
  }

  /** The greedy search takes the longest text after which the rest of the
      pattern matches. */
  lemma {:induction false} GreedyLongest<T>(rest: nat -> Option<T>, p: nat, e: nat, k: nat)
    requires p <= k <= e && rest(k).Some?
    requires forall j | k < j <= e :: rest(j).None?
    ensures Greedy(rest, p, e) == Some((k, rest(k).value))
    decreases e
  {
    if e > k {
      GreedyLongest(rest, p, e - 1, k);
    }
  }

  /** The end the greedy search reports is the last one at which the rest
      matches, and it reports none only when the rest matches nowhere. */
  lemma {:induction false} GreedyResult<T>(rest: nat -> Option<T>, p: nat, e: nat)
    ensures Greedy(rest, p, e).Some? ==> forall j | Greedy(rest, p, e).value.0 < j <= e :: rest(j).None?
    ensures Greedy(rest, p, e).None? ==> forall j | p <= j <= e :: rest(j).None?
    decreases e
  {
    if e >= p && rest(e).None? && e > p {
      GreedyResult(rest, p, e - 1);
    }
  }

  /** An unanchored match: the starts are tried from `st` up to `n`, and the
      first that matches wins. */
  function Leftmost<T>(at: nat -> Option<T>, st: nat, n: nat): Option<T>
    decreases n - st
  {
    if st > n then None
    else if at(st).Some? then at(st)
    else Leftmost(at, st + 1, n)
  }

  /** ` - ` followed by an identifier group, at `e`. */
  function IdTail(s: string, loading: bool): nat -> Option<string>
  {
    (e: nat) => if LitAt(s, e, " - ") then IdAt(s, e + 3, loading) else None
  }

  /** `Puzzle - (.*) - ([0-9]{8}|Loading)` (or `... - ([0-9]{8})` when
      `loading` is false) tried at `st`: the two groups. */
  function NameAndIdAt(s: string, loading: bool): nat -> Option<(string, string)>
  {
    (st: nat) =>
      if LitAt(s, st, "Puzzle - ") then
        match Greedy(IdTail(s, loading), st + 9, RunEnd(s, st + 9))
        case Some((e, id)) => Some((s[st + 9..e], id))
        case None => None
      else None
  }

  /** `title.match(/Puzzle - (.*) - ([0-9]{8}|Loading)/i)`, or without the
      `Loading` alternative when `loading` is false: the groups of the
      leftmost match, or `None` where `match` returns null. */
  function MatchNameAndId(s: string, loading: bool): Option<(string, string)>
  {
    Leftmost(NameAndIdAt(s, loading), 0, |s|)
  }

  /** Whatever start wins, the identifier group captured an identifier. */
  lemma {:induction false} MatchedId(s: string, loading: bool, st: nat)
    ensures Leftmost(NameAndIdAt(s, loading), st, |s|).Some? ==>
            IdText(Leftmost(NameAndIdAt(s, loading), st, |s|).value.1, loading)
    decreases |s| - st
  {
    if st <= |s| && NameAndIdAt(s, loading)(st).None? {
      MatchedId(s, loading, st + 1);
    }
  }

  /** A slice of a suffix is a slice of the whole. */
  lemma {:induction false} SuffixSlice(s: string, i: nat, j: nat, k: nat)
    requires i <= |s| && j <= k <= |s| - i
    ensures s[i..][j..k] == s[i + j..i + k]
  {
  }

  /** The middle piece of a concatenation is the slice between the ends of
      the other two. */
  lemma {:induction false} MiddleOf(a: string, b: string, c: string)
    ensures (a + b + c)[|a|..|a| + |b|] == b
  {
    var t := a + b + c;
    forall k | 0 <= k < |b|
      ensures t[|a|..|a| + |b|][k] == b[k]
    {
      assert t[|a| + k] == (a + b)[|a| + k];
    }
  }

  lemma {:induction false} NoBreakConcat(a: string, b: string)
    requires NoLineTerminator(a) && NoLineTerminator(b)
    ensures NoLineTerminator(a + b)
  {
    forall k | 0 <= k < |a + b|
      ensures !IsLineTerminator((a + b)[k])
    {
      if k >= |a| {
        assert (a + b)[k] == b[k - |a|];
      }
    }
  }

  /** A `.*` runs to the end of a text whose rest has no line break. */
  lemma {:induction false} RunsToEnd(s: string, p: nat)
    requires p <= |s| && NoLineTerminator(s[p..])
    ensures RunEnd(s, p) == |s|
  {
    forall k | p <= k < |s|
      ensures !IsLineTerminator(s[k])
    {
      assert s[k] == s[p..][k - p];
    }
  }

  /** A `.*` after the prefix runs to the end of a title without line
      breaks. */
  lemma {:induction false} RunToEnd(middle: string, tail: string)
    requires NoLineTerminator(middle) && NoLineTerminator(tail)
    ensures RunEnd("Puzzle - " + middle + " - " + tail, 9) == |"Puzzle - " + middle + " - " + tail|
  {
    var s := "Puzzle - " + middle + " - " + tail;
    var e := 9 + |middle|;
    forall k | 9 <= k < |s|
      ensures !IsLineTerminator(s[k])
    {
      if k < e {
        assert s[k] == middle[k - 9];
      } else if k >= e + 3 {
        assert s[k] == tail[k - e - 3];
      }
    }
  }

  /** An identifier starts with a digit or an `L`. */
  lemma {:induction false} IdStart(tail: string, loading: bool)
    requires IdAt(tail, 0, loading).Some?
    ensures |tail| > 0 && !SameIgnoringCase(tail[0], '-')
  {
    if !DigitsAt(tail, 0, 8) {
      assert LitAt(tail, 0, "Loading");
      assert SameIgnoringCase(tail[0..7][0], "Loading"[0]);
    } else {
      assert IsDigit(tail[0..8][0]);
    }
  }

  /** The ` - ` before the identifier is the last one in the title. */
  lemma {:induction false} LastSeparator(middle: string, tail: string, loading: bool)
    requires forall k | 0 <= k < |tail| :: tail[k] != ' '
    requires IdAt(tail, 0, loading).Some?
    ensures var s := "Puzzle - " + middle + " - " + tail;
      forall j | 9 + |middle| < j <= |s| :: IdTail(s, loading)(j).None?
  {
    var s := "Puzzle - " + middle + " - " + tail;
    var e := 9 + |middle|;
    IdStart(tail, loading);
    forall j | e < j <= |s|
      ensures !LitAt(s, j, " - ")
    {
      if j + 3 <= |s| {
        var w := s[j..j + 3];
        if j == e + 1 {
          assert w[0] == '-';
          assert !SameIgnoringCase(w[0], " - "[0]);
        } else if j == e + 2 {
          assert w[1] == tail[0];
          assert !SameIgnoringCase(w[1], " - "[1]);
        } else {
          assert w[0] == tail[j - e - 3];
          assert !SameIgnoringCase(w[0], " - "[0]);
        }
      }
    }
  }

  /** The only case the codecs produce: a title that starts with the prefix
      and ends in ` - ` and an identifier, with no line break anywhere and no
      space in the identifier text, is split at that last ` - `. */
  lemma {:induction false} NameAndIdSplit(middle: string, tail: string, loading: bool)
    requires NoLineTerminator(middle) && NoLineTerminator(tail)
    requires forall k | 0 <= k < |tail| :: tail[k] != ' '
    requires IdAt(tail, 0, loading).Some?
    ensures MatchNameAndId("Puzzle - " + middle + " - " + tail, loading) ==
            Some((middle, IdAt(tail, 0, loading).value))
  {
    var s := "Puzzle - " + middle + " - " + tail;
    var e := 9 + |middle|;
    assert s[0..9] == "Puzzle - ";
    LitAtExact(s, 0, "Puzzle - ");
    RunToEnd(middle, tail);
    assert s[e..e + 3] == " - ";
    LitAtExact(s, e, " - ");
    assert s[e + 3..] == tail;
    IdAtSuffix(s, e + 3, loading);
    assert IdTail(s, loading)(e) == IdAt(tail, 0, loading);
    LastSeparator(middle, tail, loading);
    GreedyLongest(IdTail(s, loading), 9, |s|, e);
    assert s[9..e] == middle;
  }
}
