/** `StateManager`: the global registry of running games, guild by guild.
    Game identifiers come from one counter shared by all guilds, written in
    decimal and padded to eight digits; a guild's bucket is made the first
    time a game is created there, together with the database bootstrap of
    the guild. */
module Registry {
  import opened Wrappers
  import opened Text

  /** The game classes `GAME_MAP` names. */
  datatype Kind = Sudoku | Hangman | Maze

  /** A game instance as the registry sees it: its class and its
      identifier. */
  datatype Instance = Instance(kind: Kind, gameID: string)

  /** `GAME_MAP[gameName]`: the class registered under a name. */
  function KindOf(gameName: string): (k: Option<Kind>)
    ensures k == Some(Sudoku) <==> gameName == "Sudoku"
    ensures k == Some(Hangman) <==> gameName == "Hangman"
    ensures k == Some(Maze) <==> gameName == "Maze"
  {
    if gameName == "Sudoku" then Some(Sudoku)
    else if gameName == "Hangman" then Some(Hangman)
    else if gameName == "Maze" then Some(Maze)
    else None
  }

  /** The database calls the registry makes, in order. */
  datatype DbCall = DoesGuildExist(guildID: string) | CreateNewGuild(guildID: string)

  /** The bootstrap of a guild on its first game: the existence check, and
      the creation when the guild is not stored yet. */
  function Bootstrap(guildID: string, known: bool, inDatabase: bool): seq<DbCall>
  {
    if known then []
    else [DoesGuildExist(guildID)] + (if inDatabase then [] else [CreateNewGuild(guildID)])
  }

  /** `(n).toString().padStart(8, '0')` */
  function GameIdOf(n: nat): (r: string)
    ensures |r| >= 8 && AllDigits(r)
  {
    var s := DecimalString(n);
    var r := PadStart(s, 8, '0');
    assert forall i | |r| - |s| <= i < |r| :: r[i] == r[|r| - |s|..][i - (|r| - |s|)];
    r
  }

  /** An identifier reads back as the counter value it was made from. */
  lemma {:induction false} GameIdValue(n: nat)
    ensures AllDigits(GameIdOf(n)) && ParseDecimal(GameIdOf(n)) == n
  {
    var s := DecimalString(n);
    ParseDecimalString(n);
    if |s| < 8 {
      assert GameIdOf(n) == seq(8 - |s|, _ => '0') + s;
      ParseIgnoresLeadingZeros(8 - |s|, s);
    }
  }

  /** Distinct counter values give distinct identifiers. */
  lemma {:induction false} GameIdInjective(m: nat, n: nat)
    ensures GameIdOf(m) == GameIdOf(n) ==> m == n
  {
    GameIdValue(m);
    GameIdValue(n);
  }

  /** A number of at least 10^k has more than k digits. */
  lemma {:induction false} DecimalStringLong(n: nat, k: nat)
    requires n >= Pow10(k)
    ensures |DecimalString(n)| > k
    decreases k
  {
    if k > 0 {
      DecimalStringLong(n / 10, k - 1);
    }
  }

  /** The first 10^8 identifiers are exactly eight digits; from then on they
      are longer. */
  lemma {:induction false} GameIdLength(n: nat)
    ensures |GameIdOf(n)| == 8 <==> n < Pow10(8)
    ensures AllDigits(GameIdOf(n))
  {
    GameIdValue(n);
    if n < Pow10(8) {
      DecimalStringLength(n, 8, Pow10(8));
    } else {
      DecimalStringLong(n, 8);
    }
  }

  /** An identifier the counter has already handed out. */
  ghost predicate Issued(gameID: string, counter: nat)
  {
    AllDigits(gameID) && ParseDecimal(gameID) < counter
  }

  /** The identifier made from the counter is handed out once the counter
      has moved on. */
  lemma {:induction false} NextIdIssued(counter: nat)
    ensures Issued(GameIdOf(counter), counter + 1)
  {
    GameIdValue(counter);
  }

  /** Every game of a bucket sits under its own identifier, one the counter
      has handed out. */
  ghost predicate BucketValid(bucket: map<string, Instance>, counter: nat)
  {
    forall id | id in bucket :: bucket[id].gameID == id && Issued(id, counter)
  }

  ghost predicate ListValid(list: map<string, map<string, Instance>>, counter: nat)
  {
    forall g | g in list :: BucketValid(list[g], counter)
  }

  /** The identifier the counter hands out next is in no bucket. */
  lemma {:induction false} NextIdFresh(list: map<string, map<string, Instance>>, counter: nat, guildID: string)
    requires ListValid(list, counter) && guildID in list
    ensures GameIdOf(counter) !in list[guildID]
  {
    GameIdValue(counter);
    assert BucketValid(list[guildID], counter);
  }

  /** Moving the counter on keeps every stored identifier handed out. */
  lemma {:induction false} ListValidLater(list: map<string, map<string, Instance>>, counter: nat)
    requires ListValid(list, counter)
    ensures ListValid(list, counter + 1)
  {
    forall g | g in list
      ensures BucketValid(list[g], counter + 1)
    {
      assert BucketValid(list[g], counter);
    }
  }

  lemma {:induction false} ListValidLater0(bucket: map<string, Instance>, counter: nat)
    requires BucketValid(bucket, counter)
    ensures BucketValid(bucket, counter + 1)
  {
  }

  lemma MapSelf<K, V>(m: map<K, V>, k: K)
    requires k in m
    ensures m[k := m[k]] == m
  {
  }

  lemma MapTwice<K, V>(m: map<K, V>, k: K, a: V, b: V)
    ensures m[k := a][k := b] == m[k := b]
  {
  }

  /** Putting a well-formed bucket under a guild keeps the registry well
      formed. */
  lemma {:induction false} ListValidStore(list: map<string, map<string, Instance>>, counter: nat,
                                          guildID: string, bucket: map<string, Instance>)
    requires ListValid(list, counter) && BucketValid(bucket, counter)
    ensures ListValid(list[guildID := bucket], counter)
  {
  }

  /** Storing a game under its own handed-out identifier keeps a bucket well
      formed. */
  lemma {:induction false} BucketValidStore(bucket: map<string, Instance>, counter: nat, inst: Instance)
    requires BucketValid(bucket, counter) && Issued(inst.gameID, counter)
    ensures BucketValid(bucket[inst.gameID := inst], counter)
  {
  }

  /** Dropping one key keeps the registry well formed. */
  lemma {:induction false} ListValidRemove(list: map<string, map<string, Instance>>, counter: nat,
                                           guildID: string, gameID: string)
    requires ListValid(list, counter) && guildID in list
    ensures ListValid(list[guildID := list[guildID] - {gameID}], counter)
  {
    assert BucketValid(list[guildID], counter);
  }

  /** `getGameInstance(guildID, gameID)` on the buckets `list`: an unknown
      guild throws; a known guild answers with its game under that
      identifier, if any. */
  function Lookup(list: map<string, map<string, Instance>>, guildID: string, gameID: string): (r: Result<Option<Instance>>)
    ensures r.Err? <==> guildID !in list
    ensures r.Err? ==> r.error == Thrown("getGameInstance(): invalid guild ID " + guildID)
    ensures r.Ok? ==> (r.value.Some? <==> gameID in list[guildID])
    ensures r.Ok? && r.value.Some? ==> r.value.value == list[guildID][gameID]
  {
    if guildID !in list then Err(Thrown("getGameInstance(): invalid guild ID " + guildID))
    else if gameID in list[guildID] then Ok(Some(list[guildID][gameID]))
    else Ok(None)
  }

  /** In a well-formed registry the game found under an identifier carries
      that identifier, and it is one the counter has handed out. */
  lemma {:induction false} LookupFindsOwnId(list: map<string, map<string, Instance>>, counter: nat, guildID: string, gameID: string)
    ensures var r := Lookup(list, guildID, gameID);
      ListValid(list, counter) && r.Ok? && r.value.Some? ==> r.value.value.gameID == gameID && Issued(gameID, counter)
  {
    if ListValid(list, counter) && guildID in list {
      assert BucketValid(list[guildID], counter);
    }
  }

  class StateManager {
    var gameList: map<string, map<string, Instance>>
    var counter: nat
    /** The calls made to the database, oldest first. */
    ghost var calls: seq<DbCall>

    /** Every stored game sits under its own identifier, one the counter
        has handed out. */
    ghost predicate Valid()
      reads this
    {
      ListValid(gameList, counter)
    }

    constructor()
      ensures Valid() && gameList == map[] && counter == 0 && calls == []
    {
      gameList := map[];
      counter := 0;
      calls := [];
    }

    /** `createGameInstance(guildID, gameName)`. The bucket and the
        database bootstrap come first, `inDatabase` standing for the answer
        of `doesGuildExist`; then the counter moves on, and the new game is
        stored under a fresh identifier. A name `GAME_MAP` does not hold
        throws, with the counter moved and the bucket made. */
    method CreateGameInstance(guildID: string, gameName: string, inDatabase: bool) returns (r: Result<Instance>)
      requires Valid()
      modifies this
      ensures Valid()
      ensures counter == old(counter) + 1
      ensures calls == old(calls) + Bootstrap(guildID, guildID in old(gameList), inDatabase)
      ensures var bucket := if guildID in old(gameList) then old(gameList)[guildID] else map[];
        var id := GameIdOf(old(counter));
        && id !in bucket
        && (KindOf(gameName).None? ==>
              r == Err(TypeError("GameClass is not a constructor")) && gameList == old(gameList)[guildID := bucket])
        && (KindOf(gameName).Some? ==>
              r == Ok(Instance(KindOf(gameName).value, id)) && gameList == old(gameList)[guildID := bucket[id := r.value]])
    {
      ghost var bucket := if guildID in gameList then gameList[guildID] else map[];
      if guildID !in gameList {
        AddGuild(guildID, inDatabase);
      } else {
        NextIdFresh(gameList, counter, guildID);
        assert BucketValid(bucket, counter);
        MapSelf(gameList, guildID);
      }
      assert gameList == old(gameList)[guildID := bucket];
      var gameID := GameIdOf(counter);
      NextIdIssued(counter);
      ListValidLater(gameList, counter);
      counter := counter + 1;
      var kind := KindOf(gameName);
      if kind.None? {
        return Err(TypeError("GameClass is not a constructor"));
      }
      var gameInstance := Instance(kind.value, gameID);
      ListValidLater0(bucket, counter - 1);
      BucketValidStore(bucket, counter, gameInstance);
      ListValidStore(gameList, counter, guildID, bucket[gameID := gameInstance]);
      MapTwice(old(gameList), guildID, bucket, bucket[gameID := gameInstance]);
      gameList := gameList[guildID := gameList[guildID][gameID := gameInstance]];
      r := Ok(gameInstance);
    }

    /** The first-game branch of `createGameInstance`: an empty bucket for
        the guild, then the existence check, and the creation of the guild in
        the database when the check says it is not stored. */
    method AddGuild(guildID: string, inDatabase: bool)
      requires Valid() && guildID !in gameList
      modifies this
      ensures Valid() && counter == old(counter)
      ensures gameList == old(gameList)[guildID := map[]]
      ensures calls == old(calls) + Bootstrap(guildID, false, inDatabase)
    {
      ListValidStore(gameList, counter, guildID, map[]);
      gameList := gameList[guildID := map[]];
      calls := calls + [DoesGuildExist(guildID)];
      if !inDatabase {
        calls := calls + [CreateNewGuild(guildID)];
      }
    }

    /** `getGameInstance(guildID, gameID)` */
    function GetGameInstance(guildID: string, gameID: string): (r: Result<Option<Instance>>)
      reads this
      ensures Valid() && r.Ok? && r.value.Some? ==> r.value.value.gameID == gameID && Issued(gameID, counter)
    {
      LookupFindsOwnId(gameList, counter, guildID, gameID);
      Lookup(gameList, guildID, gameID)
    }

    /** `removeGameInstance(guildID, gameID)`: an unknown guild throws;
        otherwise that one key goes, the bucket stays, and the game is no
        longer found. */
    method RemoveGameInstance(guildID: string, gameID: string) returns (outcome: Outcome)
      requires Valid()
      modifies this
      ensures Valid() && counter == old(counter) && calls == old(calls)
      ensures guildID !in old(gameList) ==>
        outcome == Fail(Thrown("removeGameInstance(): invalid guild ID " + guildID)) && gameList == old(gameList)
      ensures guildID in old(gameList) ==>
        && outcome == Pass
        && gameList == old(gameList)[guildID := old(gameList)[guildID] - {gameID}]
        && GetGameInstance(guildID, gameID) == Ok(None)
    {
      if guildID !in gameList {
        return Fail(Thrown("removeGameInstance(): invalid guild ID " + guildID));
      }
      ListValidRemove(gameList, counter, guildID, gameID);
      gameList := gameList[guildID := gameList[guildID] - {gameID}];
      outcome := Pass;
    }
  }
}
