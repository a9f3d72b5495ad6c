/** The optional value used wherever the game keeps `null` (an empty board
    cell, no selection, no winner yet, no side assigned yet). */
module Wrappers {

  datatype Option<+T> = None | Some(value: T)

}
