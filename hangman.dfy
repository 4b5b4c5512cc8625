/** The hangman engine: a cursor over the letters 'A'..'Z' laid out in rows of
    five, letter selection that reveals the word or counts a miss, and the
    status rule. The word, which the game draws at random, is a parameter of
    `Setup`. */
module Hangman {
  import opened Wrappers
  import opened Game
  import opened Text

  /** `HangmanGame.ROW_SIZE` */
  const RowSize: nat := 5

  /** A cell of the letter table. */
  datatype Letter = Letter(value: char, isUsed: bool)

  type Table = seq<seq<Letter>>

  /** The rows of a table read one after the other. */
  function Flatten<T>(rows: seq<seq<T>>): seq<T>
  {
    if rows == [] then [] else rows[0] + Flatten(rows[1..])
  }

  /** `chunkArray(items, size)`: the items cut into consecutive rows of `size`,
      the last row holding what is left over. */
  function Chunk<T>(items: seq<T>, size: nat): (rows: seq<seq<T>>)
    requires size > 0
    ensures Flatten(rows) == items
    ensures forall r | 0 <= r < |rows| :: 0 < |rows[r]| <= size
    ensures forall r | 0 <= r < |rows| - 1 :: |rows[r]| == size
    decreases |items|
  {
    if |items| <= size then
      (if items == [] then [] else [items])
    else
      var rows := [items[..size]] + Chunk(items[size..], size);
      assert rows[1..] == Chunk(items[size..], size);
      rows
  }

  /** The 26 letters `String.fromCharCode(index + 65)`, none of them used. */
  function Letters(): (s: seq<Letter>)
    ensures |s| == 26
    ensures forall k | 0 <= k < 26 :: s[k] == Letter((65 + k) as char, false)
  {
    seq(26, k requires 0 <= k < 26 => Letter((65 + k) as char, false))
  }

  /** `generateLetterTable()`: 'A'..'Z' in order, unused, in five rows of
      five and a last row of one. */
  function LetterTable(): (t: Table)
    ensures Layout(t)
    ensures forall k | 0 <= k < |Flatten(t)| :: !Flatten(t)[k].isUsed
    ensures t[5] == [Letter('Z', false)]
  {
    ChunkedLettersLayout();
    Chunk(Letters(), RowSize)
  }

  /** The shape `generateLetterTable` produces, five full rows and a last row
      holding only 'Z', with the letters in order; use flags may vary. */
  ghost predicate Layout(t: Table)
  {
    && |t| == 6
    && (forall r | 0 <= r < 5 :: |t[r]| == RowSize)
    && |t[5]| == 1
    && |Flatten(t)| == 26
    && (forall k | 0 <= k < 26 :: Flatten(t)[k].value == (65 + k) as char)
  }

  /** Where row `r` starts in the flattened table. */
  function Offset(t: Table, r: nat): nat
    requires r <= |t|
  {
    |Flatten(t[..r])|
  }

  lemma {:induction false} FlattenLength(rows: Table)
    requires |rows| > 0
    requires forall r | 0 <= r < |rows| - 1 :: |rows[r]| == RowSize
    ensures |Flatten(rows)| == RowSize * (|rows| - 1) + |rows[|rows| - 1]|
    decreases |rows|
  {
    if |rows| > 1 {
      FlattenLength(rows[1..]);
    }
  }

  lemma {:induction false} FlattenPrefix(t: Table, r: nat)
    requires 0 < r <= |t|
    ensures Flatten(t[..r]) == t[0] + Flatten(t[1..][..r - 1])
  {
    assert t[..r][1..] == t[1..][..r - 1];
  }

  /** Cell `(r, c)` is entry `Offset(t, r) + c` of the flattened table. */
  lemma {:induction false} FlattenAt(t: Table, r: nat, c: nat)
    requires r < |t| && c < |t[r]|
    ensures Offset(t, r) + c < |Flatten(t)|
    ensures Flatten(t)[Offset(t, r) + c] == t[r][c]
    decreases r
  {
    if r == 0 {
      assert t[..0] == [];
    } else {
      FlattenAt(t[1..], r - 1, c);
      FlattenPrefix(t, r);
    }
  }

  /** Writing one cell writes one entry of the flattened table. */
  lemma {:induction false} FlattenUpdate(t: Table, r: nat, c: nat, x: Letter)
    requires r < |t| && c < |t[r]|
    ensures Offset(t, r) + c < |Flatten(t)|
    ensures Flatten(t[r := t[r][c := x]]) == Flatten(t)[Offset(t, r) + c := x]
    decreases r
  {
    var t' := t[r := t[r][c := x]];
    if r == 0 {
      assert t[..0] == [];
      assert t'[1..] == t[1..];
    } else {
      assert t'[1..] == t[1..][r - 1 := t[1..][r - 1][c := x]];
      FlattenUpdate(t[1..], r - 1, c, x);
      FlattenPrefix(t, r);
    }
  }

  /** The letters cut into rows have the layout of the letter table. */
  lemma {:induction false} ChunkedLettersLayout()
    ensures var t := Chunk(Letters(), RowSize);
      && Layout(t)
      && (forall k | 0 <= k < |Flatten(t)| :: !Flatten(t)[k].isUsed)
      && t[5] == [Letter('Z', false)]
  {
    var t := Chunk(Letters(), RowSize);
    FlattenLength(t);
    assert |t| == 6;
    FlattenAt(t, 5, 0);
    FlattenUpdate(t, 5, 0, Letter('Z', false));
    assert Offset(t, 5) == 25 by {
      FlattenLength(t[..5]);
      assert t[..5][4] == t[4];
    }
  }

  /** The letters of the table that are used and whose lower-case form is not
      in the word, as positions in the flattened table. */
  ghost function Misses(t: Table, word: string): set<nat>
  {
    set k | 0 <= k < |Flatten(t)| && Flatten(t)[k].isUsed && LowerAscii(Flatten(t)[k].value) !in word
  }

  /** The positions `0 .. n - 1`. */
  function Positions(n: nat): (s: set<nat>)
    ensures |s| == n
    ensures forall k: int :: k in s <==> 0 <= k < n
  {
    if n == 0 then {} else Positions(n - 1) + {n - 1}
  }

  lemma {:induction false} SubsetSize(a: set<nat>, b: set<nat>)
    requires a <= b
    ensures |a| <= |b|
    decreases |b|
  {
    if b != {} {
      var x :| x in b;
      SubsetSize(a - {x}, b - {x});
    }
  }

  /** At most 26 letters can be missed. */
  lemma {:induction false} MissesBound(t: Table, word: string)
    requires Layout(t)
    ensures |Misses(t, word)| <= 26
  {
    SubsetSize(Misses(t, word), Positions(|Flatten(t)|));
  }

  /** The table after `selectedLetter.isUsed = true` on cell `(r, c)`. */
  function MarkUsed(t: Table, r: nat, c: nat): Table
    requires r < |t| && c < |t[r]|
  {
    t[r := t[r][c := Letter(t[r][c].value, true)]]
  }

  /** What selecting cell `(r, c)` does to the table `t`, the guess and the
      miss count, giving `t'`, `guessed'` and `misses'`: a used letter
      changes nothing; an unused one is marked used and either fills every
      slot of the word holding its lower-case form or, when the word has
      none, counts one more miss. */
  ghost predicate SelectEffect(word: string, t: Table, guessed: seq<Option<char>>, misses: nat, r: nat, c: nat,
                               t': Table, guessed': seq<Option<char>>, misses': nat)
    requires r < |t| && c < |t[r]| && |guessed| == |word|
  {
    var l := LowerAscii(t[r][c].value);
    && (t[r][c].isUsed ==> t' == t && guessed' == guessed && misses' == misses)
    && (!t[r][c].isUsed ==>
          && t' == MarkUsed(t, r, c)
          && (l in word ==>
                && misses' == misses && |guessed'| == |word|
                && forall i | 0 <= i < |word| :: guessed'[i] == if word[i] == l then Some(l) else guessed[i])
          && (l !in word ==> misses' == misses + 1 && guessed' == guessed))
  }

  /** Marking an unused letter keeps the layout, and adds it to the misses
      exactly when its lower-case form is not in the word. */
  lemma {:induction false} MarkUsedMisses(t: Table, word: string, r: nat, c: nat)
    requires Layout(t) && r < |t| && c < |t[r]| && !t[r][c].isUsed
    ensures Layout(MarkUsed(t, r, c))
    ensures LowerAscii(t[r][c].value) in word ==> Misses(MarkUsed(t, r, c), word) == Misses(t, word)
    ensures LowerAscii(t[r][c].value) !in word ==>
      |Misses(MarkUsed(t, r, c), word)| == |Misses(t, word)| + 1
  {
    var k := Offset(t, r) + c;
    FlattenAt(t, r, c);
    FlattenUpdate(t, r, c, Letter(t[r][c].value, true));
    if LowerAscii(t[r][c].value) !in word {
      assert Misses(MarkUsed(t, r, c), word) == Misses(t, word) + {k};
    } else {
      assert Misses(MarkUsed(t, r, c), word) == Misses(t, word);
    }
  }

  /** `guessedWord[i]` is empty or holds the letter of the word at `i`. */
  ghost predicate Reveals(word: string, guessed: seq<Option<char>>)
  {
    |guessed| == |word| && forall i | 0 <= i < |word| :: guessed[i] == None || guessed[i] == Some(word[i])
  }

  /** `guessedWord.join('')`: `join` renders the empty slots as nothing. */
  function Joined(guessed: seq<Option<char>>): (s: string)
    ensures |s| <= |guessed|
  {
    if guessed == [] then []
    else (match guessed[0] case None => [] case Some(ch) => [ch]) + Joined(guessed[1..])
  }

  /** The joined guess spells the word exactly when every slot is revealed. */
  lemma {:induction false} JoinedIsWord(word: string, guessed: seq<Option<char>>)
    ensures Reveals(word, guessed) ==>
      (Joined(guessed) == word <==> forall i | 0 <= i < |guessed| :: guessed[i].Some?)
    decreases |word|
  {
    if Reveals(word, guessed) && word != [] {
      JoinedIsWord(word[1..], guessed[1..]);
      if guessed[0].Some? {
        assert Joined(guessed) == [word[0]] + Joined(guessed[1..]);
        assert word == [word[0]] + word[1..];
        if (forall i | 0 <= i < |guessed| :: guessed[i].Some?) {
          assert forall i | 0 <= i < |guessed| - 1 :: guessed[1..][i] == guessed[i + 1];
        } else {
          var i :| 0 <= i < |guessed| && guessed[i].None?;
          assert guessed[1..][i - 1].None?;
        }
      } else {
        assert |Joined(guessed)| < |word|;
      }
    }
  }

  class HangmanGame {
    const gameID: string
    var word: string
    var guessedWord: seq<Option<char>>
    var numOfWrongAnswers: nat
    var letterTable: Table
    var selection: (nat, nat)

    /** Before `setup` the table is empty and nothing has been chosen; after
        it the table keeps its layout, the cursor is on a letter, the guess
        reveals only letters of the word, and the miss count is the number of
        used letters absent from the word. */
    ghost predicate Valid()
      reads this
    {
      && Reveals(word, guessedWord)
      && numOfWrongAnswers == |Misses(letterTable, word)|
      && (letterTable == [] ==> word == [] && selection == (0, 0))
      && (letterTable != [] ==>
            Layout(letterTable) && selection.0 < |letterTable| && selection.1 < |letterTable[selection.0]|)
    }

    constructor(gameID: string)
      ensures Valid()
      ensures this.gameID == gameID && word == [] && guessedWord == [] && numOfWrongAnswers == 0
      ensures letterTable == [] && selection == (0, 0)
    {
      this.gameID := gameID;
      word, guessedWord, numOfWrongAnswers := [], [], 0;
      letterTable, selection := [], (0, 0);
    }

    /** `setup()`, with the drawn word split into its characters. */
    method Setup(w: string)
      requires Valid() && letterTable == []
      modifies this
      ensures Valid()
      ensures word == w && guessedWord == seq(|w|, _ => None) && letterTable == LetterTable()
      ensures numOfWrongAnswers == old(numOfWrongAnswers) && selection == old(selection)
    {
      word := w;
      guessedWord := seq(|w|, _ => None);
      letterTable := LetterTable();
      assert Misses(letterTable, word) == {};
    }

    /** `getStatus()`: a loss is checked before a win; the game is won when
        every letter of the word has been revealed. */
    function GetStatus(): (s: Status)
      reads this
      ensures s == Loss <==> numOfWrongAnswers > 5
      ensures Reveals(word, guessedWord) ==>
        (s == Win <==> numOfWrongAnswers <= 5 && forall i | 0 <= i < |guessedWord| :: guessedWord[i].Some?)
    {
      JoinedIsWord(word, guessedWord);
      if numOfWrongAnswers > 5 then Loss
      else if word == Joined(guessedWord) then Win
      else Pending
    }

    /** `update(emoji)`: the arrows move the cursor with wrap-around, the
        horizontal ones within the current row, the vertical ones over every
        row when the last row has the current column and over all but the
        last otherwise; the check mark selects the letter under the cursor.
        Before `setup` the empty table makes reading the row length throw. */
    method Update(emoji: string) returns (outcome: Outcome)
      requires Valid()
      modifies this
      ensures Valid() && word == old(word)
      ensures old(letterTable) == [] ==>
        outcome.Fail? && outcome.error.TypeError? && unchanged(this)
      ensures old(letterTable) != [] ==> outcome == Pass
      ensures emoji != Check ==>
        letterTable == old(letterTable) && guessedWord == old(guessedWord) &&
        numOfWrongAnswers == old(numOfWrongAnswers)
      ensures old(letterTable) != [] ==>
        var t, (r, c) := old(letterTable), old(selection);
        var rowSize := |t[r]|;
        var columnSize := if c < |t[|t| - 1]| then |t| else |t| - 1;
        && (emoji == Left ==> selection == (r, (c + rowSize - 1) % rowSize))
        && (emoji == Up ==> selection == ((r + columnSize - 1) % columnSize, c))
        && (emoji == Down ==> selection == ((r + 1) % columnSize, c))
        && (emoji == Right ==> selection == (r, (c + 1) % rowSize))
        && (emoji !in {Left, Up, Down, Right} ==> selection == (r, c))
      ensures emoji == Check && old(letterTable) != [] ==>
        SelectEffect(word, old(letterTable), old(guessedWord), old(numOfWrongAnswers),
                     old(selection).0, old(selection).1, letterTable, guessedWord, numOfWrongAnswers)
    {
      var (r, c) := selection;
      if r >= |letterTable| {
        return Fail(TypeError("Cannot read properties of undefined (reading 'length')"));
      }
      var rowSize := |letterTable[r]|;
      var columnSize := if c < |letterTable[|letterTable| - 1]| then |letterTable| else |letterTable| - 1;
      outcome := Pass;
      if emoji == Left {
        selection := (r, (c + rowSize - 1) % rowSize);
      } else if emoji == Up {
        selection := ((r + columnSize - 1) % columnSize, c);
      } else if emoji == Down {
        selection := ((r + 1) % columnSize, c);
      } else if emoji == Right {
        selection := (r, (c + 1) % rowSize);
      } else if emoji == Check {
        outcome := SelectLetter(r, c);
      }
    }

    /** `selectLetter([r, c])`. A row outside the table throws a TypeError
        and a column outside the row throws the explicit error; a used letter
        changes nothing. Otherwise the letter is marked used and, when its
        lower-case form occurs in the word, every matching slot of the guess
        receives it; when it does not, the miss count rises by one
        (`SelectEffect`). */
    method SelectLetter(r: nat, c: nat) returns (outcome: Outcome)
      requires Valid()
      modifies this
      ensures Valid() && word == old(word) && selection == old(selection)
      ensures r >= |old(letterTable)| ==>
        outcome.Fail? && outcome.error.TypeError? && unchanged(this)
      ensures r < |old(letterTable)| && c >= |old(letterTable)[r]| ==>
        outcome == Fail(Thrown("selectLetter(): invalid coordinates (" + DecimalString(r) + ", " +
                               DecimalString(c) + ")")) && unchanged(this)
      ensures r < |old(letterTable)| && c < |old(letterTable)[r]| ==>
        && outcome == Pass
        && SelectEffect(word, old(letterTable), old(guessedWord), old(numOfWrongAnswers), r, c,
                        letterTable, guessedWord, numOfWrongAnswers)
    {
      if r >= |letterTable| {
        return Fail(TypeError("Cannot read properties of undefined (reading '" + DecimalString(c) + "')"));
      }
      if c >= |letterTable[r]| {
        return Fail(Thrown("selectLetter(): invalid coordinates (" + DecimalString(r) + ", " +
                           DecimalString(c) + ")"));
      }
      var selected := letterTable[r][c];
      outcome := Pass;
      if selected.isUsed {
        return;
      }
      var l := LowerAscii(selected.value);
      MarkUsedMisses(letterTable, word, r, c);
      if l in word {
        var guessed := guessedWord;
        var index := 0;
        while index < |word|
          invariant index <= |word| && |guessed| == |word|
          invariant forall i | 0 <= i < |word| ::
            guessed[i] == if i < index && word[i] == l then Some(l) else guessedWord[i]
        {
          if word[index] == l {
            guessed := guessed[index := Some(word[index])];
          }
          index := index + 1;
        }
        guessedWord := guessed;
      } else {
        numOfWrongAnswers := numOfWrongAnswers + 1;
      }
      letterTable := letterTable[r := letterTable[r][c := Letter(selected.value, true)]];
    }

    /** The miss count never passes 26. */
    lemma MissCountBound()
      requires Valid()
      ensures numOfWrongAnswers <= 26
    {
      if letterTable != [] {
        MissesBound(letterTable, word);
      } else {
        assert Misses(letterTable, word) == {};
      }
    }
  }
}
