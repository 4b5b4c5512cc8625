/** The earlier registry of `src/state-manager.ts`: the same buckets and
    counter, with no database bootstrap and only the sudoku class in its map
    of game classes. */
module LegacyRegistry {
  import opened Wrappers
  import opened Registry

  /** `StateManager.gameMap[gameName]`: only `Sudoku` is registered. */
  function LegacyKindOf(gameName: string): (k: Option<Kind>)
    ensures k.Some? <==> gameName == "Sudoku"
    ensures k.Some? ==> k.value == Sudoku
  {
    if gameName == "Sudoku" then Some(Sudoku) else None
  }

  class StateManager {
    var gameList: map<string, map<string, Instance>>
    var counter: nat

    ghost predicate Valid()
      reads this
    {
      ListValid(gameList, counter)
    }

    constructor()
      ensures Valid() && gameList == map[] && counter == 0
    {
      gameList := map[];
      counter := 0;
    }

    /** `createGameInstance(guildID, gameName)`: the bucket is made when the
        guild has none, the counter moves on, and a sudoku is stored under
        the fresh identifier; any other name throws after the bucket and the
        counter have changed. */
    method CreateGameInstance(guildID: string, gameName: string) returns (r: Result<Instance>)
      requires Valid()
      modifies this
      ensures Valid()
      ensures counter == old(counter) + 1
      ensures var bucket := if guildID in old(gameList) then old(gameList)[guildID] else map[];
        var id := GameIdOf(old(counter));
        && id !in bucket
        && (gameName != "Sudoku" ==>
              r == Err(TypeError("GameClass is not a constructor")) && gameList == old(gameList)[guildID := bucket])
        && (gameName == "Sudoku" ==>
              r == Ok(Instance(Sudoku, id)) && gameList == old(gameList)[guildID := bucket[id := r.value]])
    {
      ghost var bucket := if guildID in gameList then gameList[guildID] else map[];
      if guildID !in gameList {
        ListValidStore(gameList, counter, guildID, map[]);
        gameList := gameList[guildID := map[]];
      } else {
        NextIdFresh(gameList, counter, guildID);
        assert BucketValid(bucket, counter);
        MapSelf(gameList, guildID);
      }
      assert gameList == old(gameList)[guildID := bucket];
      var gameID := GameIdOf(counter);
      NextIdIssued(counter);
      ListValidLater(gameList, counter);
      counter := counter + 1;
      var kind := LegacyKindOf(gameName);
      if kind.None? {
        return Err(TypeError("GameClass is not a constructor"));
      }
      var gameInstance := Instance(kind.value, gameID);
      ListValidLater0(bucket, counter - 1);
      BucketValidStore(bucket, counter, gameInstance);
      ListValidStore(gameList, counter, guildID, bucket[gameID := gameInstance]);
      MapTwice(old(gameList), guildID, bucket, bucket[gameID := gameInstance]);
      gameList := gameList[guildID := gameList[guildID][gameID := gameInstance]];
      r := Ok(gameInstance);
    }

    /** `getGameInstance(guildID, gameID)` */
    function GetGameInstance(guildID: string, gameID: string): (r: Result<Option<Instance>>)
      reads this
      ensures Valid() && r.Ok? && r.value.Some? ==> r.value.value.gameID == gameID && Issued(gameID, counter)
    {
      LookupFindsOwnId(gameList, counter, guildID, gameID);
      Lookup(gameList, guildID, gameID)
    }

    /** `removeGameInstance(guildID, gameID)`: an unknown guild throws;
        otherwise that one key goes and the game is no longer found. */
    method RemoveGameInstance(guildID: string, gameID: string) returns (outcome: Outcome)
      requires Valid()
      modifies this
      ensures Valid() && counter == old(counter)
      ensures guildID !in old(gameList) ==>
        outcome == Fail(Thrown("removeGameInstance(): invalid guild ID " + guildID)) && gameList == old(gameList)
      ensures guildID in old(gameList) ==>
        && outcome == Pass
        && gameList == old(gameList)[guildID := old(gameList)[guildID] - {gameID}]
        && GetGameInstance(guildID, gameID) == Ok(None)
    {
      if guildID !in gameList {
        return Fail(Thrown("removeGameInstance(): invalid guild ID " + guildID));
      }
      ListValidRemove(gameList, counter, guildID, gameID);
      gameList := gameList[guildID := gameList[guildID] - {gameID}];
      outcome := Pass;
    }
  }
}
