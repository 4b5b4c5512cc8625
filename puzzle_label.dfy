/** `PuzzleLabel`: the embed title `Puzzle - <name> (<difficulty>) - <id>`
    that the legacy commands write, its loading form, and the parser that
    reads the game type and identifier back. */
module PuzzleLabel {
  import opened Wrappers
  import opened Text
  import opened Pattern

  /** The names of difficulties 1, 2 and 3. */
  const DifficultyNames: seq<string> := ["Easy", "Medium", "Hard"]

  /** `PuzzleLabel.create(gameName, difficulty, gameID)` */
  function Create(gameName: string, difficulty: int, gameID: string): (r: Result<string>)
    ensures r.Err? <==> Includes(gameName, " - ") || Includes(gameID, " - ") || difficulty < 1 || difficulty > 3
    ensures r.Err? ==> r.error.Thrown?
  {
    if Includes(gameName, " - ") || Includes(gameID, " - ") then
      Err(Thrown("EmbedTitle.create(): game name " + gameName + " or id " + gameID + " includes \" - \""))
    else if difficulty > 3 || difficulty < 1 then
      Err(Thrown("EmbedTitle.create(): invalid difficulty " + IntegerString(difficulty)))
    else
      Ok("Puzzle - " + gameName + " (" + DifficultyNames[difficulty - 1] + ") - " + gameID)
  }

  /** `PuzzleLabel.createLoading(gameName)` */
  function CreateLoading(gameName: string): (r: string)
    ensures Includes(r, "Loading")
  {
    var r := "Puzzle - " + gameName + " - Loading...";
    assert OccursAt(r, "Loading", |gameName| + 12);
    r
  }

  /** `PuzzleLabel.parseGameTypeAndID(title)`: the two groups of
      `/Puzzle - (.*) - ([0-9]{8}|Loading)/i`; no game while loading;
      destructuring a failed match throws a `TypeError`, and an empty group
      throws. The identifier returned is eight digits, or a spelling of
      `Loading` in another case, which the `/i` flag lets through. */
  function ParseGameTypeAndID(title: string): (r: Result<Option<(string, string)>>)
    ensures r.Err? && r.error.TypeError? <==> MatchNameAndId(title, true).None?
    ensures r == Ok(None) <==> MatchNameAndId(title, true).Some? && MatchNameAndId(title, true).value.1 == "Loading"
    ensures r.Ok? && r.value.Some? ==>
      var (gameType, gameID) := r.value.value;
      && gameType != []
      && IdText(gameID, true) && gameID != "Loading"
    ensures var m := MatchNameAndId(title, true);
      m.Some? && m.value.1 != "Loading" ==>
        && (m.value.0 == [] ==> r == Err(Thrown("parseGameName(): no game ID or name found in title \"" + title + "\"")))
        && (m.value.0 != [] ==> r == Ok(Some(m.value)))
  {
    MatchedId(title, true, 0);
    match MatchNameAndId(title, true)
    case None => Err(TypeError("title.match is not a function or its return value is not iterable"))
    case Some((gameType, gameID)) =>
      if gameID == "Loading" then Ok(None)
      else if gameID == [] || gameType == [] then
        Err(Thrown("parseGameName(): no game ID or name found in title \"" + title + "\""))
      else Ok(Some((gameType, gameID)))
  }

  /** An eight-digit identifier is its own identifier group. */
  lemma {:induction false} DigitIdMatches(gameID: string, loading: bool)
    requires |gameID| == 8 && AllDigits(gameID)
    ensures IdAt(gameID, 0, loading) == Some(gameID)
    ensures forall k | 0 <= k < |gameID| :: gameID[k] != ' ' && !IsLineTerminator(gameID[k])
  {
    assert gameID[0..8] == gameID;
  }

  /** A title made by `create` with an eight-digit identifier and a name
      without line breaks parses back to that identifier, with the name and
      the bracketed difficulty as the game type. */
  lemma {:induction false} CreateThenParse(gameName: string, difficulty: int, gameID: string)
    requires Create(gameName, difficulty, gameID).Ok?
    requires NoLineTerminator(gameName) && |gameID| == 8 && AllDigits(gameID)
    ensures ParseGameTypeAndID(Create(gameName, difficulty, gameID).value) ==
            Ok(Some((gameName + " (" + DifficultyNames[difficulty - 1] + ")", gameID)))
  {
    var middle := gameName + " (" + DifficultyNames[difficulty - 1] + ")";
    assert "Puzzle - " + gameName + " (" + DifficultyNames[difficulty - 1] + ") - " + gameID ==
           "Puzzle - " + middle + " - " + gameID;
    NoBreakConcat(gameName, " (" + DifficultyNames[difficulty - 1] + ")");
    DigitIdMatches(gameID, true);
    NameAndIdSplit(middle, gameID, true);
  }

  /** A loading title whose name has no line breaks parses to no game. */
  lemma {:induction false} LoadingParsesToNone(gameName: string)
    requires NoLineTerminator(gameName)
    ensures ParseGameTypeAndID(CreateLoading(gameName)) == Ok(None)
  {
    var tail := "Loading...";
    assert tail[0..7] == "Loading";
    LitAtExact(tail, 0, "Loading");
    assert "Puzzle - " + gameName + " - Loading..." == "Puzzle - " + gameName + " - " + tail;
    NameAndIdSplit(gameName, tail, true);
  }

  /** An identifier of more than eight digits comes back cut to its first
      eight. */
  lemma {:induction false} LongIdTruncated(gameName: string, difficulty: int, gameID: string)
    requires Create(gameName, difficulty, gameID).Ok?
    requires NoLineTerminator(gameName) && |gameID| > 8 && AllDigits(gameID)
    ensures ParseGameTypeAndID(Create(gameName, difficulty, gameID).value) ==
            Ok(Some((gameName + " (" + DifficultyNames[difficulty - 1] + ")", gameID[..8])))
  {
    var middle := gameName + " (" + DifficultyNames[difficulty - 1] + ")";
    assert "Puzzle - " + gameName + " (" + DifficultyNames[difficulty - 1] + ") - " + gameID ==
           "Puzzle - " + middle + " - " + gameID;
    NoBreakConcat(gameName, " (" + DifficultyNames[difficulty - 1] + ")");
    assert gameID[0..8] == gameID[..8];
    assert AllDigits(gameID[0..8]);
    forall k | 0 <= k < |gameID|
      ensures gameID[k] != ' ' && !IsLineTerminator(gameID[k])
    {
      assert IsDigit(gameID[k]);
    }
    NameAndIdSplit(middle, gameID, true);
  }
}
