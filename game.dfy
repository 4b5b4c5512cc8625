/** What every game shares: the status it reports and the reaction symbols
    the games listen for. */
module Game {

  /** The three values a game's status can take. */
  datatype Status = Win | Loss | Pending

  /** Arrow reactions, shared by the maze and the hangman letter cursor. */
  const Left: string := "\U{2B05}"
  const Up: string := "\U{2B06}"
  const Down: string := "\U{2B07}"
  const Right: string := "\U{27A1}"

  /** The hangman confirm reaction. */
  const Check: string := "\U{2705}"

  /** The sudoku backspace reaction. */
  const Cross: string := "\U{274C}"
}
