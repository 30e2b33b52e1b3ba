/**
  The editing actions the terminal host hands to the editing engine. The
  engine defines more; only those the host itself produces are listed.
*/
module Actions {
  datatype Action =
    | SelectAll
    | SelectFirstRegion
    | Copy
    | Cut
    | Paste
    | Undo
    | Redo
    | DeleteLeftCharacter
    | DeleteRightCharacter
    | MoveUpLine
    | MoveDownLine
    | MoveLeftCharacter
    | MoveRightCharacter
}
