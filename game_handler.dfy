/** `GameHandler.handleGameUpdate` and `parseGameNameAndID`: a reaction on a
    game message is routed, through the title of the message's first embed,
    to the registered game, whose status then decides whether the game is
    removed. */
module GameHandler {
  import opened Wrappers
  import opened Text
  import opened Pattern
  import opened Game
  import opened Registry
  import PuzzleLabel
  import GameTitle

  /** `parseGameNameAndID(message)` on the titles of the message's embeds:
      no embed throws; a title containing `Loading` anywhere gives null;
      otherwise the groups of `/Puzzle - (.*) - ([0-9]{8})/i`, where a
      failed match throws on destructuring and an empty name throws. */
  function ParseGameNameAndID(embeds: seq<string>): (r: Result<Option<(string, string)>>)
    ensures r == Err(Thrown("parseGameName(): message is missing embeds!")) <==> embeds == []
    ensures r == Ok(None) <==> embeds != [] && Includes(embeds[0], "Loading")
    ensures r.Err? && r.error.TypeError? <==>
      embeds != [] && !Includes(embeds[0], "Loading") && MatchNameAndId(embeds[0], false).None?
    ensures r.Ok? && r.value.Some? ==>
      var (gameName, gameID) := r.value.value;
      && MatchNameAndId(embeds[0], false) == Some((gameName, gameID))
      && gameName != [] && |gameID| == 8 && AllDigits(gameID)
    ensures embeds != [] && !Includes(embeds[0], "Loading") && MatchNameAndId(embeds[0], false).Some? ==>
      var m := MatchNameAndId(embeds[0], false).value;
      && (m.0 == [] ==> r == Err(Thrown("parseGameName(): no game ID or name found in title \"" + embeds[0] + "\"")))
      && (m.0 != [] ==> r == Ok(Some(m)))
  {
    if embeds == [] then Err(Thrown("parseGameName(): message is missing embeds!"))
    else
      var title := embeds[0];
      if Includes(title, "Loading") then Ok(None)
      else
        MatchedId(title, false, 0);
        match MatchNameAndId(title, false)
        case None => Err(TypeError("embeds[0].title.match is not a function or its return value is not iterable"))
        case Some((gameName, gameID)) =>
          if gameID == [] || gameName == [] then
            Err(Thrown("parseGameName(): no game ID or name found in title \"" + title + "\""))
          else Ok(Some((gameName, gameID)))
  }

  /** `const { status } = gameInstance.getStatus()` for a game of class
      `kind` whose engine is at `status`: the sudoku class has no
      `getStatus`, so the call throws; the hangman status is a bare string,
      whose `status` property is undefined; the maze answers with an object
      holding its status. */
  function ReadStatus(kind: Kind, status: Status): (r: Result<Option<Status>>)
    ensures r.Err? <==> kind == Sudoku
    ensures r.Ok? ==> (r.value.Some? <==> kind == Maze)
    ensures r.Ok? && r.value.Some? ==> r.value.value == status
  {
    match kind
    case Sudoku => Err(TypeError("gameInstance.getStatus is not a function"))
    case Hangman => Ok(None)
    case Maze => Ok(Some(status))
  }

  /** What a reaction leads to: a throw, nothing further, or the end of the
      game `gameID` titled `gameName`. */
  datatype Decision = Throw(error: Error) | Ignore | Finish(gameName: string, gameID: string)

  /** The error destructuring the `null` that `parseGameNameAndID` returns
      for a loading title raises. */
  const NullNotIterable: Error := TypeError("parseGameNameAndID is not a function or its return value is not iterable")

  /** The error reading the elapsed time raises: every engine extends the
      `Game` of `src/game.ts`, which has no `getElapsedTimeInMilliseconds`. */
  const ElapsedTimeMissing: Error := TypeError("gameInstance.getElapsedTimeInMilliseconds is not a function")

  /** The control flow of `handleGameUpdate` over the registry's buckets
      `list`, for the guild `guildID`, the message's embed titles and the
      status the game's engine is at after the update. A win throws when the
      elapsed time is read, before the time is recorded or the game removed;
      a loss ends the game. */
  function Decide(list: map<string, map<string, Instance>>, guildID: string,
                  embeds: seq<string>, status: Status): (d: Decision)
    ensures ParseGameNameAndID(embeds).Err? ==> d == Throw(ParseGameNameAndID(embeds).error)
    ensures d.Finish? <==>
      && ParseGameNameAndID(embeds).Ok? && ParseGameNameAndID(embeds).value.Some?
      && (var gameID := ParseGameNameAndID(embeds).value.value.1;
          guildID in list && gameID in list[guildID] && list[guildID][gameID].kind == Maze && status == Loss)
    ensures d.Finish? ==> ParseGameNameAndID(embeds) == Ok(Some((d.gameName, d.gameID)))
  {
    match ParseGameNameAndID(embeds)
    case Err(e) => Throw(e)
    case Ok(None) => Throw(NullNotIterable)
    case Ok(Some((gameName, gameID))) =>
      match Lookup(list, guildID, gameID)
      case Err(e) => Throw(e)
      case Ok(None) => Ignore
      case Ok(Some(gameInstance)) =>
        match ReadStatus(gameInstance.kind, status)
        case Err(e) => Throw(e)
        case Ok(Some(Win)) => Throw(ElapsedTimeMissing)
        case Ok(Some(Loss)) => Finish(gameName, gameID)
        case Ok(_) => Ignore
  }

  /** `handleGameUpdate(messageReaction)`. A game that ends is removed from
      its guild's bucket; a throw or an ignored reaction leaves the registry
      as it was. */
  method HandleGameUpdate(registry: StateManager, guildID: string, embeds: seq<string>, status: Status)
    returns (outcome: Outcome)
    requires registry.Valid()
    modifies registry
    ensures registry.Valid()
    ensures registry.counter == old(registry.counter) && registry.calls == old(registry.calls)
    ensures var d := Decide(old(registry.gameList), guildID, embeds, status);
      && (d.Throw? ==> outcome == Fail(d.error) && registry.gameList == old(registry.gameList))
      && (d.Ignore? ==> outcome == Pass && registry.gameList == old(registry.gameList))
      && (d.Finish? ==>
            && outcome == Pass
            && registry.gameList == old(registry.gameList)[guildID := old(registry.gameList)[guildID] - {d.gameID}]
            && registry.GetGameInstance(guildID, d.gameID) == Ok(None))
  {
    var parsed := ParseGameNameAndID(embeds);
    if parsed.Err? {
      return Fail(parsed.error);
    }
    if parsed.value.None? {
      return Fail(NullNotIterable);
    }
    var (gameName, gameID) := parsed.value.value;
    var found := registry.GetGameInstance(guildID, gameID);
    if found.Err? {
      return Fail(found.error);
    }
    if found.value.None? {
      return Pass;
    }
    var reported := ReadStatus(found.value.value.kind, status);
    if reported.Err? {
      return Fail(reported.error);
    }
    outcome := Pass;
    if reported.value == Some(Win) {
      outcome := Fail(ElapsedTimeMissing);
    } else if reported.value == Some(Loss) {
      outcome := registry.RemoveGameInstance(guildID, gameID);
    }
  }

  /** A `Loading` title is read as null, which the destructuring in
      `handleGameUpdate` cannot take apart: the reaction throws, whatever
      the registry holds. */
  lemma {:induction false} LoadingTitleThrows(list: map<string, map<string, Instance>>, guildID: string,
                                              gameName: string, rest: seq<string>, status: Status)
    ensures Decide(list, guildID, [PuzzleLabel.CreateLoading(gameName)] + rest, status) ==
            Throw(NullNotIterable)
  {
    var title := PuzzleLabel.CreateLoading(gameName);
    var i := 9 + |gameName| + 3;
    assert title[i..i + 7] == "Loading";
    assert OccursAt(title, "Loading", i);
  }

  /** A reaction for a guild the registry has no bucket for throws the
      registry's invalid-guild error. */
  lemma {:induction false} UnknownGuildThrows(list: map<string, map<string, Instance>>, guildID: string,
                                              embeds: seq<string>, status: Status)
    requires ParseGameNameAndID(embeds).Ok? && ParseGameNameAndID(embeds).value.Some?
    requires guildID !in list
    ensures Decide(list, guildID, embeds, status) == Throw(Thrown("getGameInstance(): invalid guild ID " + guildID))
  {
  }

  /** A hangman game is never removed through a reaction and a sudoku game
      always throws, whatever its engine says. */
  lemma {:induction false} OnlyMazeFinishes(list: map<string, map<string, Instance>>, guildID: string,
                                            embeds: seq<string>, status: Status)
    requires ParseGameNameAndID(embeds).Ok? && ParseGameNameAndID(embeds).value.Some?
    requires var gameID := ParseGameNameAndID(embeds).value.value.1;
      guildID in list && gameID in list[guildID] && list[guildID][gameID].kind != Maze
    ensures var kind := list[guildID][ParseGameNameAndID(embeds).value.value.1].kind;
      && (kind == Hangman ==> Decide(list, guildID, embeds, status) == Ignore)
      && (kind == Sudoku ==> Decide(list, guildID, embeds, status) == Throw(TypeError("gameInstance.getStatus is not a function")))
  {
  }

  /** For a registered maze the status decides: a win throws when the
      elapsed time is read, a loss ends the game, and a pending game is left
      alone. */
  lemma {:induction false} MazeStatusDecides(list: map<string, map<string, Instance>>, guildID: string,
                                             embeds: seq<string>, status: Status)
    requires ParseGameNameAndID(embeds).Ok? && ParseGameNameAndID(embeds).value.Some?
    requires var gameID := ParseGameNameAndID(embeds).value.value.1;
      guildID in list && gameID in list[guildID] && list[guildID][gameID].kind == Maze
    ensures var (gameName, gameID) := ParseGameNameAndID(embeds).value.value;
      && (status == Win ==> Decide(list, guildID, embeds, status) == Throw(ElapsedTimeMissing))
      && (status == Loss ==> Decide(list, guildID, embeds, status) == Finish(gameName, gameID))
      && (status == Pending ==> Decide(list, guildID, embeds, status) == Ignore)
  {
  }

  /** A game no longer in its guild's bucket is left alone: the reaction
      returns before the game would be updated. */
  lemma {:induction false} MissingGameIgnored(list: map<string, map<string, Instance>>, guildID: string,
                                              embeds: seq<string>, status: Status)
    requires ParseGameNameAndID(embeds).Ok? && ParseGameNameAndID(embeds).value.Some?
    requires guildID in list && ParseGameNameAndID(embeds).value.value.1 !in list[guildID]
    ensures Decide(list, guildID, embeds, status) == Ignore
  {
  }

  /** No reaction is recorded as a completion: the only decision that ends a
      game is a maze's loss, and a win throws first. */
  lemma {:induction false} NoGameIsWon(list: map<string, map<string, Instance>>, guildID: string,
                                       embeds: seq<string>)
    ensures !Decide(list, guildID, embeds, Win).Finish?
  {
  }

  /** A title made by `PuzzleLabel.create` with an eight-digit identifier, a
      name without line breaks and no `Loading` in it is read back as the
      name with its bracketed difficulty, and the identifier. */
  lemma {:induction false} ReadsLabelTitle(gameName: string, difficulty: int, gameID: string, rest: seq<string>)
    requires PuzzleLabel.Create(gameName, difficulty, gameID).Ok?
    requires NoLineTerminator(gameName) && |gameID| == 8 && AllDigits(gameID)
    requires !Includes(PuzzleLabel.Create(gameName, difficulty, gameID).value, "Loading")
    ensures ParseGameNameAndID([PuzzleLabel.Create(gameName, difficulty, gameID).value] + rest) ==
            Ok(Some((gameName + " (" + PuzzleLabel.DifficultyNames[difficulty - 1] + ")", gameID)))
  {
    var difficultyName := PuzzleLabel.DifficultyNames[difficulty - 1];
    var middle := gameName + " (" + difficultyName + ")";
    assert "Puzzle - " + gameName + " (" + difficultyName + ") - " + gameID == "Puzzle - " + middle + " - " + gameID;
    NoBreakConcat(gameName, " (" + difficultyName + ")");
    PuzzleLabel.DigitIdMatches(gameID, false);
    NameAndIdSplit(middle, gameID, false);
  }

  /** A title made by `GameTitle.create` with an eight-digit identifier and
      no line breaks or `Loading` in it is read with the type word, the name
      and the bracketed difficulty together as the game name. */
  lemma {:induction false} ReadsGameTitle(data: GameTitle.GameData, rest: seq<string>)
    requires GameTitle.Create(data).Ok?
    requires NoLineTerminator(data.gameName) && NoLineTerminator(data.difficulty)
    requires |data.gameID| == 8 && AllDigits(data.gameID)
    requires !Includes(GameTitle.Create(data).value, "Loading")
    ensures ParseGameNameAndID([GameTitle.Create(data).value] + rest) ==
            Ok(Some((GameTitle.TypeWord(data.isASCII) + " - " + data.gameName + " (" + data.difficulty + ")", data.gameID)))
  {
    var typeWord := GameTitle.TypeWord(data.isASCII);
    var middle := typeWord + " - " + data.gameName + " (" + data.difficulty + ")";
    assert GameTitle.Compose(typeWord, data.gameName, data.difficulty, data.gameID) ==
           "Puzzle - " + middle + " - " + data.gameID;
    assert NoLineTerminator(typeWord + " - ");
    NoBreakConcat(typeWord + " - ", data.gameName);
    assert NoLineTerminator(" (" + data.difficulty + ")") by {
      assert NoLineTerminator(" (");
      NoBreakConcat(" (", data.difficulty);
      assert NoLineTerminator(")");
      NoBreakConcat(" (" + data.difficulty, ")");
    }
    NoBreakConcat(typeWord + " - " + data.gameName, " (" + data.difficulty + ")");
    PuzzleLabel.DigitIdMatches(data.gameID, false);
    NameAndIdSplit(middle, data.gameID, false);
  }
}
