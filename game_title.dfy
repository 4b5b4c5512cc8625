/** `GameTitle`: the embed title `Puzzle - <ASCII|Normal> - <name>
    (<difficulty>) - <id>` of the current games, and the parser that reads
    the game data back from it. */
module GameTitle {
  import opened Wrappers
  import opened Text
  import opened Pattern

  /** `GameData` */
  datatype GameData = GameData(gameName: string, gameID: string, isASCII: bool, difficulty: string)

  /** The word that says how a game is drawn. */
  function TypeWord(isASCII: bool): (r: string)
    ensures r == "ASCII" <==> isASCII
    ensures r == "Normal" <==> !isASCII
  {
    if isASCII then "ASCII" else "Normal"
  }

  /** The title text `create` writes for the given parts. */
  function Compose(typeWord: string, name: string, difficulty: string, tail: string): (r: string)
    ensures |r| == 18 + |typeWord| + |name| + |difficulty| + |tail|
    ensures "Puzzle - " <= r
  {
    "Puzzle - " + typeWord + " - " + name + " (" + difficulty + ") - " + tail
  }

  /** `GameTitle.create(data)` */
  function Create(data: GameData): (r: Result<string>)
    ensures r.Err? <==> Includes(data.gameName, " - ") || Includes(data.gameID, " - ")
    ensures r.Err? ==> r.error.Thrown?
  {
    if Includes(data.gameName, " - ") || Includes(data.gameID, " - ") then
      Err(Thrown("EmbedTitle.create(): game name " + data.gameName + " or id " + data.gameID + " includes \" - \""))
    else
      Ok(Compose(TypeWord(data.isASCII), data.gameName, data.difficulty, data.gameID))
  }

  /** The four groups of a title match. */
  datatype Groups = Groups(gameType: string, gameName: string, difficulty: string, gameID: string)

  /** `(ASCII|Normal)` at `p`: the length of the alternative that matches. */
  function TypeAt(s: string, p: nat): Option<nat>
  {
    if LitAt(s, p, "ASCII") then Some(5)
    else if LitAt(s, p, "Normal") then Some(6)
    else None
  }

  /** `\) - ([0-9]{8}|Loading)` at `e`: the identifier. */
  function CloseTail(s: string): nat -> Option<string>
  {
    (e: nat) => if LitAt(s, e, ") - ") then IdAt(s, e + 4, true) else None
  }

  /** ` \((.*)\) - ([0-9]{8}|Loading)` at `e`: where the greedy difficulty
      group ends, and the identifier. */
  function OpenTail(s: string): nat -> Option<(nat, string)>
  {
    (e: nat) => if LitAt(s, e, " (") then Greedy(CloseTail(s), e + 2, RunEnd(s, e + 2)) else None
  }

  /** `/Puzzle - (ASCII|Normal) - (.*) \((.*)\) - ([0-9]{8}|Loading)/i` tried
      at `st`. */
  function TitleFrom(s: string, st: nat): Option<Groups>
  {
    if !LitAt(s, st, "Puzzle - ") then None
    else
      match TypeAt(s, st + 9)
      case None => None
      case Some(n) =>
        if !LitAt(s, st + 9 + n, " - ") then None
        else
          var q := st + 9 + n + 3;
          match Greedy(OpenTail(s), q, RunEnd(s, q))
          case None => None
          case Some((e1, (e2, id))) => Some(Groups(s[st + 9..st + 9 + n], s[q..e1], s[e1 + 2..e2], id))
  }

  function TitleAt(s: string): nat -> Option<Groups>
  {
    (st: nat) => TitleFrom(s, st)
  }

  /** `title.match(regex)`: the groups of the leftmost match. */
  function MatchTitle(s: string): Option<Groups>
  {
    Leftmost(TitleAt(s), 0, |s|)
  }

  /** Whatever start wins, the identifier group captured an identifier and
      the type group one of its two alternatives. */
  lemma {:induction false} MatchedTitleId(s: string, st: nat)
    ensures Leftmost(TitleAt(s), st, |s|).Some? ==> IdText(Leftmost(TitleAt(s), st, |s|).value.gameID, true)
    ensures Leftmost(TitleAt(s), st, |s|).Some? ==>
      var gameType := Leftmost(TitleAt(s), st, |s|).value.gameType;
      SameText(gameType, "ASCII") || SameText(gameType, "Normal")
    decreases |s| - st
  {
    if st <= |s| && TitleAt(s)(st).None? {
      MatchedTitleId(s, st + 1);
    }
  }

  /** `GameTitle.parse(title)`: destructuring a failed match throws a
      `TypeError`; an empty group throws; otherwise the groups, with the
      type compared to `ASCII` case-sensitively. */
  function Parse(title: string): (r: Result<GameData>)
    ensures r.Err? && r.error.TypeError? <==> MatchTitle(title).None?
    ensures r.Ok? ==>
      && MatchTitle(title).Some?
      && r.value.gameName != [] && r.value.difficulty != [] && IdText(r.value.gameID, true)
      && (r.value.isASCII <==> MatchTitle(title).value.gameType == "ASCII")
    ensures MatchTitle(title).Some? ==>
      var g := MatchTitle(title).value;
      && (g.gameName == [] || g.difficulty == [] ==>
            r == Err(Thrown("parseGameName(): no game name, difficulty, or id found in title \"" + title + "\"")))
      && (g.gameName != [] && g.difficulty != [] ==>
            r == Ok(GameData(g.gameName, g.gameID, g.gameType == "ASCII", g.difficulty)))
  {
    MatchedTitleId(title, 0);
    match MatchTitle(title)
    case None => Err(TypeError("title.match is not a function or its return value is not iterable"))
    case Some(g) =>
      if g.gameName == [] || g.difficulty == [] || g.gameID == [] || g.gameType == [] then
        Err(Thrown("parseGameName(): no game name, difficulty, or id found in title \"" + title + "\""))
      else
        Ok(GameData(g.gameName, g.gameID, g.gameType == "ASCII", g.difficulty))
  }

  /** The characters a case-insensitive literal without letters matches are
      that literal's own. */
  lemma {:induction false} FoldedSymbol(c: char, d: char)
    requires d == ' ' || d == '(' || d == ')' || d == '-'
    ensures SameIgnoringCase(c, d) <==> c == d
  {
  }

  /** The type word is taken as the alternative it spells. */
  lemma {:induction false} TypeWordMatches(s: string, w: string)
    requires SameText(w, "ASCII") || SameText(w, "Normal")
    requires 9 + |w| <= |s| && s[9..9 + |w|] == w
    ensures TypeAt(s, 9) == Some(|w|)
  {
    if SameText(w, "ASCII") {
      LitAtExact(s, 9, w);
      assert s[9..14] == w;
    } else {
      assert s[9..15] == w;
      assert SameIgnoringCase(w[0], 'N');
      if 14 <= |s| {
        assert s[9..14][0] == w[0];
      }
    }
  }

  /** After the difficulty, no later `) - ` is followed by an identifier. */
  lemma {:induction false} LastClose(s: string, e2: nat, tail: string)
    requires e2 <= |s| && s[e2..] == ") - " + tail
    requires forall k | 0 <= k < |tail| :: tail[k] != ' '
    ensures forall j | e2 < j <= |s| :: !LitAt(s, j, ") - ")
  {
    forall j | e2 < j <= |s|
      ensures !LitAt(s, j, ") - ")
    {
      if j + 4 <= |s| {
        var w := s[j..j + 4];
        if j < e2 + 4 {
          assert w[0] == s[e2..][j - e2] == (") - " + tail)[j - e2];
          FoldedSymbol(w[0], ")"[0]);
          assert !SameIgnoringCase(w[0], ") - "[0]);
        } else {
          assert w[1] == s[e2..][j + 1 - e2] == tail[j + 1 - e2 - 4];
          FoldedSymbol(w[1], ' ');
          assert !SameIgnoringCase(w[1], ") - "[1]);
        }
      }
    }
  }

  /** After the name, no later ` (` starts a difficulty. */
  lemma {:induction false} LastOpen(s: string, e1: nat, difficulty: string, tail: string)
    requires e1 <= |s| && s[e1..] == " (" + difficulty + ") - " + tail
    requires !Includes(difficulty, " (")
    requires forall k | 0 <= k < |tail| :: tail[k] != ' '
    requires IdAt(tail, 0, true).Some?
    ensures forall j | e1 < j <= |s| :: !LitAt(s, j, " (")
  {
    var e2 := e1 + 2 + |difficulty|;
    IdStart(tail, true);
    forall j | e1 < j <= |s|
      ensures !LitAt(s, j, " (")
    {
      if j + 2 <= |s| {
        var w := s[j..j + 2];
        FoldedSymbol(w[0], ' ');
        FoldedSymbol(w[1], '(');
        if j == e1 + 1 {
          assert w[0] == '(';
        } else if j + 2 <= e2 {
          assert w == difficulty[j - e1 - 2..j - e1];
          assert !OccursAt(difficulty, " (", j - e1 - 2);
        } else if j < e2 + 4 {
          assert w[0] == s[j] && w[1] == s[j + 1];
          assert s[j] == s[e1..][j - e1];
          assert s[j + 1] == s[e1..][j + 1 - e1];
          if j == e2 + 3 {
            assert s[j + 1] == tail[0];
            assert !SameIgnoringCase(tail[0], '(') by {
              if DigitsAt(tail, 0, 8) {
                assert IsDigit(tail[0..8][0]);
              } else {
                assert SameIgnoringCase(tail[0..7][0], "Loading"[0]);
              }
            }
          }
        } else {
          assert w[0] == tail[j - e2 - 4];
        }
      }
    }
  }

  /** The difficulty group and the identifier, once the name has ended. */
  lemma {:induction false} DifficultySplit(s: string, e1: nat, difficulty: string, tail: string)
    requires e1 <= |s| && s[e1..] == " (" + difficulty + ") - " + tail
    requires NoLineTerminator(s[e1..])
    requires forall k | 0 <= k < |tail| :: tail[k] != ' '
    requires IdAt(tail, 0, true).Some?
    ensures OpenTail(s)(e1) == Some((e1 + 2 + |difficulty|, IdAt(tail, 0, true).value))
  {
    var e2 := e1 + 2 + |difficulty|;
    assert s[e1..e1 + 2] == " (";
    LitAtExact(s, e1, " (");
    assert s[e1 + 2..] == s[e1..][2..];
    RunsToEnd(s, e1 + 2);
    assert s[e2..] == ") - " + tail;
    assert s[e2..e2 + 4] == ") - ";
    LitAtExact(s, e2, ") - ");
    assert s[e2 + 4..] == tail;
    IdAtSuffix(s, e2 + 4, true);
    assert CloseTail(s)(e2) == IdAt(tail, 0, true);
    LastClose(s, e2, tail);
    GreedyLongest(CloseTail(s), e1 + 2, |s|, e2);
  }

  /** The literal prefix, the type word and the separator after it. */
  lemma {:induction false} TitleHead(s: string, typeWord: string)
    requires SameText(typeWord, "ASCII") || SameText(typeWord, "Normal")
    requires 12 + |typeWord| <= |s| && s[..12 + |typeWord|] == "Puzzle - " + typeWord + " - "
    ensures LitAt(s, 0, "Puzzle - ") && TypeAt(s, 9) == Some(|typeWord|) && LitAt(s, 9 + |typeWord|, " - ")
  {
    var n := |typeWord|;
    assert s[0..9] == s[..12 + n][0..9] == "Puzzle - ";
    LitAtExact(s, 0, "Puzzle - ");
    assert s[9..9 + n] == s[..12 + n][9..9 + n] == typeWord;
    TypeWordMatches(s, typeWord);
    assert s[9 + n..12 + n] == s[..12 + n][9 + n..12 + n] == " - ";
    LitAtExact(s, 9 + n, " - ");
  }

  /** The match at the first position, once its pieces are known. */
  lemma {:induction false} TitleAtStart(s: string, n: nat, e1: nat, e2: nat, id: string)
    requires LitAt(s, 0, "Puzzle - ") && TypeAt(s, 9) == Some(n) && LitAt(s, 9 + n, " - ")
    requires 12 + n <= e1 && e1 + 2 <= e2 <= |s| && RunEnd(s, 12 + n) == |s|
    requires Greedy(OpenTail(s), 12 + n, |s|) == Some((e1, (e2, id)))
    ensures MatchTitle(s) == Some(Groups(s[9..9 + n], s[12 + n..e1], s[e1 + 2..e2], id))
  {
    assert TitleFrom(s, 0) == Some(Groups(s[9..9 + n], s[12 + n..e1], s[e1 + 2..e2], id));
    assert TitleAt(s)(0) == TitleFrom(s, 0);
  }

  /** The greedy name group ends at the ` (` before the difficulty. */
  lemma {:induction false} NameEnds(s: string, q: nat, e1: nat, difficulty: string, tail: string)
    requires q <= e1 <= |s| && NoLineTerminator(s[e1..])
    requires s[e1..] == " (" + difficulty + ") - " + tail
    requires !Includes(difficulty, " (")
    requires forall k | 0 <= k < |tail| :: tail[k] != ' '
    requires IdAt(tail, 0, true).Some?
    ensures Greedy(OpenTail(s), q, |s|) == Some((e1, (e1 + 2 + |difficulty|, IdAt(tail, 0, true).value)))
  {
    DifficultySplit(s, e1, difficulty, tail);
    LastOpen(s, e1, difficulty, tail);
    GreedyLongest(OpenTail(s), q, |s|, e1);
  }

  /** The same split, stated on the pieces of the title. */
  lemma {:induction false} TitleSplitAt(s: string, n: nat, name: nat, difficulty: string, tail: string)
    requires LitAt(s, 0, "Puzzle - ") && TypeAt(s, 9) == Some(n) && LitAt(s, 9 + n, " - ")
    requires 12 + n + name <= |s| && NoLineTerminator(s[12 + n..])
    requires s[12 + n + name..] == " (" + difficulty + ") - " + tail
    requires !Includes(difficulty, " (")
    requires forall k | 0 <= k < |tail| :: tail[k] != ' '
    requires IdAt(tail, 0, true).Some?
    ensures MatchTitle(s) ==
      Some(Groups(s[9..9 + n], s[12 + n..12 + n + name], s[14 + n + name..14 + n + name + |difficulty|],
                  IdAt(tail, 0, true).value))
  {
    var q := 12 + n;
    var e1 := q + name;
    var e2 := e1 + 2 + |difficulty|;
    RunsToEnd(s, q);
    assert NoLineTerminator(s[e1..]) by {
      assert s[e1..] == s[q..][name..];
    }
    NameEnds(s, q, e1, difficulty, tail);
    TitleAtStart(s, n, e1, e2, IdAt(tail, 0, true).value);
  }

  /** Where the type word sits in a composed title. */
  lemma {:induction false} ComposeHead(typeWord: string, name: string, difficulty: string, tail: string)
    ensures var s, n := Compose(typeWord, name, difficulty, tail), |typeWord|;
      && 12 + n <= |s|
      && s[..12 + n] == "Puzzle - " + typeWord + " - "
      && s[9..9 + n] == typeWord
      && s[12 + n..] == name + " (" + difficulty + ") - " + tail
  {
    var head := "Puzzle - " + typeWord + " - ";
    var rest := name + " (" + difficulty + ") - " + tail;
    var s := head + rest;
    assert s == Compose(typeWord, name, difficulty, tail);
    MiddleOf("Puzzle - ", typeWord, " - " + rest);
    assert s == "Puzzle - " + typeWord + (" - " + rest);
    assert s[..|head|] == head;
    assert s[|head|..] == rest;
  }

  /** Where the name and the difficulty sit after the type. */
  lemma {:induction false} ComposeBody(name: string, difficulty: string, tail: string)
    ensures var s := name + " (" + difficulty + ") - " + tail;
      && 2 + |name| + |difficulty| <= |s|
      && s[..|name|] == name
      && s[|name|..] == " (" + difficulty + ") - " + tail
      && s[2 + |name|..2 + |name| + |difficulty|] == difficulty
  {
    var rest := " (" + difficulty + ") - " + tail;
    var s := name + rest;
    assert s == name + " (" + difficulty + ") - " + tail;
    MiddleOf(name + " (", difficulty, ") - " + tail);
    assert s == name + " (" + difficulty + (") - " + tail);
    assert s[..|name|] == name;
    assert s[|name|..] == rest;
  }

  /** Where the parts of a composed title sit. */
  lemma {:induction false} ComposeSlices(typeWord: string, name: string, difficulty: string, tail: string)
    ensures var s, n := Compose(typeWord, name, difficulty, tail), |typeWord|;
      && 14 + n + |name| + |difficulty| <= |s|
      && s[..12 + n] == "Puzzle - " + typeWord + " - "
      && s[9..9 + n] == typeWord
      && s[12 + n..] == name + " (" + difficulty + ") - " + tail
      && s[12 + n..12 + n + |name|] == name
      && s[12 + n + |name|..] == " (" + difficulty + ") - " + tail
      && s[14 + n + |name|..14 + n + |name| + |difficulty|] == difficulty
  {
    var s, n := Compose(typeWord, name, difficulty, tail), |typeWord|;
    ComposeHead(typeWord, name, difficulty, tail);
    ComposeBody(name, difficulty, tail);
    var b := s[12 + n..];
    SuffixSlice(s, 12 + n, 0, |name|);
    assert b[..|name|] == b[0..|name|];
    SuffixSlice(s, 12 + n, |name|, |b|);
    assert b[|name|..] == b[|name|..|b|];
    assert s[12 + n + |name|..] == s[12 + n + |name|..|s|];
    SuffixSlice(s, 12 + n, 2 + |name|, 2 + |name| + |difficulty|);
  }

  /** A title without line breaks in its parts has none after the type. */
  lemma {:induction false} ComposeNoBreak(name: string, difficulty: string, tail: string)
    requires NoLineTerminator(name) && NoLineTerminator(difficulty) && NoLineTerminator(tail)
    ensures NoLineTerminator(name + " (" + difficulty + ") - " + tail)
  {
    NoBreakConcat(name, " (");
    NoBreakConcat(name + " (", difficulty);
    NoBreakConcat(name + " (" + difficulty, ") - ");
    NoBreakConcat(name + " (" + difficulty + ") - ", tail);
  }

  /** A title of the shape `create` writes, with no line break, no ` (` in
      the difficulty and no space in the identifier text, splits into its
      parts: the greedy name group runs to the last ` (`. */
  lemma {:induction false} TitleSplit(typeWord: string, name: string, difficulty: string, tail: string)
    requires SameText(typeWord, "ASCII") || SameText(typeWord, "Normal")
    requires NoLineTerminator(name) && NoLineTerminator(difficulty) && NoLineTerminator(tail)
    requires !Includes(difficulty, " (")
    requires forall k | 0 <= k < |tail| :: tail[k] != ' '
    requires IdAt(tail, 0, true).Some?
    ensures MatchTitle(Compose(typeWord, name, difficulty, tail)) ==
            Some(Groups(typeWord, name, difficulty, IdAt(tail, 0, true).value))
  {
    var s := Compose(typeWord, name, difficulty, tail);
    ComposeSlices(typeWord, name, difficulty, tail);
    TitleHead(s, typeWord);
    ComposeNoBreak(name, difficulty, tail);
    TitleSplitAt(s, |typeWord|, |name|, difficulty, tail);
  }

  /** An identifier of eight digits, or exactly `Loading`, is its own
      identifier group. */
  lemma {:induction false} ExactId(gameID: string)
    requires (|gameID| == 8 && AllDigits(gameID)) || gameID == "Loading"
    ensures IdAt(gameID, 0, true) == Some(gameID)
    ensures forall k | 0 <= k < |gameID| :: gameID[k] != ' ' && !IsLineTerminator(gameID[k])
  {
    if gameID == "Loading" {
      assert !IsDigit(gameID[0..8 - 1][0]);
      LitAtExact(gameID, 0, "Loading");
    }
    assert gameID[0..|gameID|] == gameID;
  }

  /** The data read from a title split into its parts. */
  lemma {:induction false} ParseParts(typeWord: string, name: string, difficulty: string, gameID: string)
    requires SameText(typeWord, "ASCII") || SameText(typeWord, "Normal")
    requires name != [] && difficulty != []
    requires NoLineTerminator(name) && NoLineTerminator(difficulty) && !Includes(difficulty, " (")
    requires (|gameID| == 8 && AllDigits(gameID)) || gameID == "Loading"
    ensures Parse(Compose(typeWord, name, difficulty, gameID)) == Ok(GameData(name, gameID, typeWord == "ASCII", difficulty))
  {
    ExactId(gameID);
    TitleSplit(typeWord, name, difficulty, gameID);
  }

  /** The conditions under which a created title reads back as it was
      written. */
  ghost predicate RoundTrips(data: GameData)
  {
    && data.gameName != [] && data.difficulty != []
    && NoLineTerminator(data.gameName) && NoLineTerminator(data.difficulty)
    && !Includes(data.difficulty, " (")
    && ((|data.gameID| == 8 && AllDigits(data.gameID)) || data.gameID == "Loading")
  }

  /** `parse(create(data)) == data` for a non-empty name and difficulty
      without line breaks, a difficulty without ` (`, and an identifier of
      eight digits or `Loading`. */
  lemma {:induction false} CreateThenParse(data: GameData)
    requires Create(data).Ok? && RoundTrips(data)
    ensures Parse(Create(data).value) == Ok(data)
  {
    ParseParts(TypeWord(data.isASCII), data.gameName, data.difficulty, data.gameID);
  }

  /** An identifier of more than eight digits is captured only up to its
      eighth digit, so the title reads back with the identifier cut. */
  lemma {:induction false} LongTitleIdTruncated(data: GameData)
    requires Create(data).Ok? && data.gameName != [] && data.difficulty != []
    requires NoLineTerminator(data.gameName) && NoLineTerminator(data.difficulty)
    requires !Includes(data.difficulty, " (")
    requires |data.gameID| > 8 && AllDigits(data.gameID)
    ensures Parse(Create(data).value) == Ok(data.(gameID := data.gameID[..8]))
  {
    var id := data.gameID;
    forall k | 0 <= k < |id|
      ensures id[k] != ' ' && !IsLineTerminator(id[k])
    {
      assert IsDigit(id[k]);
    }
    assert IdAt(id, 0, true) == Some(id[..8]);
    TitleSplit(TypeWord(data.isASCII), data.gameName, data.difficulty, id);
  }

  /** Regrouping a ` (` from the difficulty into the name leaves the title
      as it is. */
  lemma {:induction false} ComposeRegroup(typeWord: string, name: string, before: string, after: string, tail: string)
    ensures Compose(typeWord, name, before + " (" + after, tail) == Compose(typeWord, name + " (" + before, after, tail)
  {
    var x := "Puzzle - " + typeWord + " - ";
    var y := ") - " + tail;
    assert Compose(typeWord, name, before + " (" + after, tail) == x + name + " (" + (before + " (" + after) + y;
    assert Compose(typeWord, name + " (" + before, after, tail) == x + (name + " (" + before) + " (" + after + y;
  }

  /** A difficulty holding ` (` moves its first part into the name: the
      greedy name group takes everything up to the last ` (`. */
  lemma {:induction false} ParenInDifficulty(data: GameData, before: string, after: string)
    requires Create(data).Ok? && data.difficulty == before + " (" + after
    requires RoundTrips(data.(difficulty := after)) && NoLineTerminator(before)
    ensures Parse(Create(data).value) == Ok(data.(gameName := data.gameName + " (" + before, difficulty := after))
  {
    var name := data.gameName + " (" + before;
    ComposeRegroup(TypeWord(data.isASCII), data.gameName, before, after, data.gameID);
    NoBreakConcat(data.gameName, " (");
    NoBreakConcat(data.gameName + " (", before);
    ParseParts(TypeWord(data.isASCII), name, after, data.gameID);
  }

  /** The type is matched without regard to case but compared
      case-sensitively: a lower-case `ascii` title parses as a normal game. */
  lemma {:induction false} LowerCaseAsciiIsNormal(data: GameData)
    requires RoundTrips(data)
    ensures Parse("Puzzle - ascii - " + data.gameName + " (" + data.difficulty + ") - " + data.gameID) ==
            Ok(data.(isASCII := false))
  {
    var title := "Puzzle - ascii - " + data.gameName + " (" + data.difficulty + ") - " + data.gameID;
    assert title == Compose("ascii", data.gameName, data.difficulty, data.gameID);
    assert SameText("ascii", "ASCII");
    ParseParts("ascii", data.gameName, data.difficulty, data.gameID);
    assert "ascii" != "ASCII" by {
      assert "ascii"[0] != "ASCII"[0];
    }
  }
}
