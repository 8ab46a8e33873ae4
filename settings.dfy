/** The holder that carries the menu's choice into the game scene. Its static
    properties are modelled as the fields of one shared object. */
module SettingsHolder {

  const DefaultRows := 4
  const DefaultCols := 4

  class GameSettings {
    var rows: int
    var cols: int
    var loadGame: bool

    /** The values the holder starts with and that `Reset` restores. */
    ghost predicate IsInitial()
      reads this
    {
      rows == DefaultRows && cols == DefaultCols && !loadGame
    }

    /** The property initialisers. */
    constructor ()
      ensures IsInitial()
    {
      rows := DefaultRows;
      cols := DefaultCols;
      loadGame := false;
    }

    /** Restores the initial values. The new state does not depend on the old
        one, so resetting twice is the same as resetting once. */
    method Reset()
      modifies this
      ensures IsInitial()
    {
      rows := DefaultRows;
      cols := DefaultCols;
      loadGame := false;
    }
  }
}
