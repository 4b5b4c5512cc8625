/** The sudoku input engine: a three-slot buffer filled from letter and digit
    reactions, with a backspace, whose third value is written into the board
    at the row and column given by the first two. The values 1..9 are used as
    they are as 0-based indices, so row 9 lies outside the nine rows and
    column 9 lies one past the end of a row. */
module Sudoku {
  import opened Wrappers
  import opened Game

  /** `SudokuGame.SIZE` */
  const Size: nat := 9

  datatype Tile = Tile(value: nat, isUserInput: bool)

  type Board = seq<seq<Tile>>

  /** The letters A..I as regional-indicator symbols, U+1F1E6 .. U+1F1EE. */
  const LetterEmojis: seq<string> := seq(9, i requires 0 <= i < 9 => [(0x1F1E6 + i) as char])

  /** The digits 1..9 as keycaps: the digit followed by U+20E3. */
  const DigitEmojis: seq<string> := seq(9, i requires 0 <= i < 9 => [('1' as int + i) as char, '\U{20E3}'])

  /** `SUDOKU_EMOJIS`: the letters, the digits, then the backspace. */
  const Emojis: seq<string> := LetterEmojis + DigitEmojis + [Cross]

  /** The number a letter or digit symbol stands for: the letter's place in
      the alphabet, or the digit's value. */
  function Ordinal(emoji: string): (v: nat)
    requires emoji in LetterEmojis + DigitEmojis
    ensures 1 <= v <= Size
  {
    if |emoji| == 1 then emoji[0] as int - 0x1F1E5 else emoji[0] as int - '0' as int
  }

  /** `SUDOKU_EMOJI_MAP` */
  const EmojiMap: map<string, nat> := map e | e in LetterEmojis + DigitEmojis :: Ordinal(e)

  /** The i-th letter and the i-th digit both stand for i + 1: nothing tells
      a row symbol from a column or value symbol. */
  lemma EmojiValues(i: nat)
    requires i < 9
    ensures LetterEmojis[i] in EmojiMap && EmojiMap[LetterEmojis[i]] == i + 1
    ensures DigitEmojis[i] in EmojiMap && EmojiMap[DigitEmojis[i]] == i + 1
  {
  }

  /** Every listed symbol other than the backspace has a value in 1..9, and
      the backspace has none. */
  lemma {:induction false} ListedValue(emoji: string)
    requires emoji in Emojis
    ensures emoji != Cross <==> emoji in EmojiMap
    ensures emoji in EmojiMap ==> 1 <= EmojiMap[emoji] <= Size
  {
    if emoji !in LetterEmojis + DigitEmojis {
      assert emoji == Cross;
    }
  }

  /** `SudokuGame.generateBoard(size)` */
  function GenerateBoard(size: nat): (b: Board)
    ensures |b| == size
    ensures forall r | 0 <= r < size :: |b[r]| == size
    ensures forall r, c | 0 <= r < size && 0 <= c < size :: b[r][c] == Tile(9, false)
  {
    seq(size, _ => seq(size, _ => Tile(9, false)))
  }

  /** Nine rows of at least nine tiles: a write at column 9 can have added a
      tenth. */
  ghost predicate Shaped(b: Board)
  {
    |b| == Size && forall r | 0 <= r < |b| :: Size <= |b[r]| <= Size + 1
  }

  /** The buffer holds values in the slots before `index` and nothing in the
      slots from `index` up to the last; the last slot can keep a value that
      a failed write left there. */
  ghost predicate Buffered(s: seq<Option<nat>>, index: nat)
  {
    && |s| == 3 && index < 3
    && (forall i | 0 <= i < index :: s[i].Some?)
    && (forall i | index <= i < 2 :: s[i] == None)
    && (forall i | 0 <= i < 3 && s[i].Some? :: 1 <= s[i].value <= Size)
  }

  /** `b'` is `b` with `b[r][c] = t`; a write one past the end of the row
      appends, as a JavaScript array assignment does. */
  ghost predicate Written(b: Board, b': Board, r: nat, c: nat, t: Tile)
  {
    && r < |b| && c <= |b[r]|
    && |b'| == |b|
    && |b'[r]| == (if c < |b[r]| then |b[r]| else c + 1)
    && b'[r][c] == t
    && (forall i | 0 <= i < |b| && i != r :: b'[i] == b[i])
    && (forall j | 0 <= j < |b[r]| && j != c :: b'[r][j] == b[r][j])
  }

  /** A write keeps nine rows of nine or ten tiles when its column is at most
      9. */
  lemma {:induction false} WrittenShaped(b: Board, b': Board, r: nat, c: nat, t: Tile)
    requires Shaped(b) && c <= Size && Written(b, b', r, c, t)
    ensures Shaped(b')
  {
    assert |b'[r]| <= Size + 1;
  }

  /** Storing a value at an index below 2 fills that slot and moves on. */
  lemma {:induction false} StoreKeepsBuffer(s: seq<Option<nat>>, index: nat, v: nat)
    requires Buffered(s, index) && index < 2 && 1 <= v <= Size
    ensures Buffered(s[index := Some(v)], index + 1)
  {
  }

  /** The backspace empties the slot it steps back to. */
  lemma {:induction false} BackspaceKeepsBuffer(s: seq<Option<nat>>, index: nat)
    requires Buffered(s, index)
    ensures var i := if index > 0 then index - 1 else 0; Buffered(s[i := None], i)
  {
  }

  /** A value stored in the last slot leaves the buffer at index 2 well formed
      even when the write that follows fails; at index 2 the row and column
      slots hold values. */
  lemma {:induction false} StoreLastKeepsBuffer(s: seq<Option<nat>>, v: nat)
    requires Buffered(s, 2) && 1 <= v <= Size
    ensures Buffered(s[2 := Some(v)], 2)
    ensures s[0].Some? && s[1].Some? && s[1].value <= Size
  {
  }

  /** What storing `value` does to the board `b`, the buffer `s` and the
      index `i`, giving `b'`, `s'` and `i'`: below index 2 the value fills
      the slot and the index moves on; at index 2 the slots hold a row and a
      column, and a row inside the board is written and the buffer emptied,
      while row 9 throws with the value left in the last slot. */
  ghost predicate StoreEffect(b: Board, s: seq<Option<nat>>, i: nat, value: nat,
                              outcome: Outcome, b': Board, s': seq<Option<nat>>, i': nat)
    requires |s| == 3
  {
    if i < 2 then
      outcome == Pass && b' == b && s' == s[i := Some(value)] && i' == i + 1
    else
      && s[0].Some? && s[1].Some?
      && var r, c := s[0].value, s[1].value;
      && (r < Size ==>
            outcome == Pass && Written(b, b', r, c, Tile(value, true)) && s' == [None, None, None] && i' == 0)
      && (r >= Size ==>
            outcome.Fail? && outcome.error.TypeError? && b' == b && s' == s[2 := Some(value)] && i' == 2)
  }

  class SudokuGame {
    const gameID: string
    var board: Board
    var userInput: array<Option<nat>>
    var inputIndex: nat

    ghost predicate Valid()
      reads this, userInput
    {
      Shaped(board) && Buffered(userInput[..], inputIndex)
    }

    constructor(gameID: string)
      ensures Valid()
      ensures this.gameID == gameID && board == GenerateBoard(Size)
      ensures userInput[..] == [None, None, None] && inputIndex == 0
    {
      this.gameID := gameID;
      board := GenerateBoard(Size);
      userInput := new Option<nat>[3](_ => None);
      inputIndex := 0;
      new;
      assert userInput[..] == [None, None, None];
    }

    /** `update(emoji)`. An unlisted symbol does nothing; the backspace and
        the other symbols are the two branches below. */
    method Update(emoji: string) returns (outcome: Outcome)
      requires Valid()
      modifies this, userInput
      ensures Valid()
      ensures emoji !in Emojis ==>
        outcome == Pass && board == old(board) && userInput == old(userInput) &&
        userInput[..] == old(userInput[..]) && inputIndex == old(inputIndex)
      ensures emoji == Cross ==>
        && outcome == Pass && board == old(board) && userInput == old(userInput)
        && inputIndex == (if old(inputIndex) > 0 then old(inputIndex) - 1 else 0)
        && userInput[..] == old(userInput[..])[inputIndex := None]
      ensures emoji in Emojis && emoji != Cross ==>
        emoji in EmojiMap && StoreEffect(old(board), old(userInput[..]), old(inputIndex), EmojiMap[emoji],
                                         outcome, board, userInput[..], inputIndex)
      ensures emoji in Emojis && emoji != Cross && (old(inputIndex) < 2 || outcome.Fail?) ==>
        userInput == old(userInput)
    {
      if emoji !in Emojis {
        return Pass;
      }
      ListedValue(emoji);
      if emoji == Cross {
        Backspace();
        outcome := Pass;
      } else {
        outcome := Store(EmojiMap[emoji]);
      }
    }

    /** The backspace branch of `update`: the index steps back when it is
        positive, and the slot it then points at is cleared. */
    method Backspace()
      requires Valid()
      modifies this, userInput
      ensures Valid() && board == old(board) && userInput == old(userInput)
      ensures inputIndex == (if old(inputIndex) > 0 then old(inputIndex) - 1 else 0)
      ensures userInput[..] == old(userInput[..])[inputIndex := None]
    {
      BackspaceKeepsBuffer(userInput[..], inputIndex);
      if inputIndex > 0 {
        inputIndex := inputIndex - 1;
      }
      userInput[inputIndex] := None;
    }

    /** The value branch of `update`: the value is stored at the index; at
        index 2 the first two values are the row and column of a write of the
        third, after which the buffer is emptied; the index advances modulo 3.
        A write to row 9 throws, leaving the third value in its slot and the
        index at 2. */
    method Store(value: nat) returns (outcome: Outcome)
      requires Valid() && 1 <= value <= Size
      modifies this, userInput
      ensures Valid()
      ensures StoreEffect(old(board), old(userInput[..]), old(inputIndex), value,
                          outcome, board, userInput[..], inputIndex)
      ensures old(inputIndex) < 2 || outcome.Fail? ==> userInput == old(userInput)
    {
      ghost var s := userInput[..];
      if inputIndex < 2 {
        StoreKeepsBuffer(s, inputIndex, value);
      } else {
        StoreLastKeepsBuffer(s, value);
      }
      userInput[inputIndex] := Some(value);
      assert userInput[..] == s[inputIndex := Some(value)];
      outcome := Pass;
      if inputIndex == 2 {
        var r, c, v := userInput[0].value, userInput[1].value, userInput[2].value;
        outcome := InsertValue(r, c, v);
        if outcome.Fail? {
          return;
        }
        userInput := new Option<nat>[3](_ => None);
        assert userInput[..] == [None, None, None];
      }
      inputIndex := (inputIndex + 1) % 3;
    }

    /** `insertValue([r, c], value)`: tile `(r, c)` becomes a user tile with
        the value and no other tile changes; a row outside the board throws,
        since the row is undefined. */
    method InsertValue(r: nat, c: nat, value: nat) returns (outcome: Outcome)
      requires Shaped(board) && c <= Size
      modifies this
      ensures Shaped(board) && userInput == old(userInput) && inputIndex == old(inputIndex)
      ensures r >= |old(board)| ==> outcome.Fail? && outcome.error.TypeError? && board == old(board)
      ensures r < |old(board)| ==> outcome == Pass && Written(old(board), board, r, c, Tile(value, true))
    {
      if r >= |board| {
        return Fail(TypeError("Cannot set properties of undefined"));
      }
      var row := board[r];
      var tile := Tile(value, true);
      var row' := if c < |row| then row[c := tile] else row + [tile];
      ghost var b := board;
      board := board[r := row'];
      WrittenShaped(b, board, r, c, tile);
      outcome := Pass;
    }
  }
}
