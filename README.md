# Card-matching game: a verified model of its game logic

This project models the game logic of a Unity card-matching game in Dafny:

- **Pairing coordinator** (`GameManager`). It records every card-flipped event and checks each completed pair. A check counts a turn. A match also counts a match, adds the configured points and records both cards. A miss turns both cards face-down again.
- **Deck builder** (`BoardManager`). It builds the values `0,0,1,1,…`, shuffles them with a swap loop, and deals one card per cell.
- **Card flag machine** (`CardsController`). Its state is whether the card is face-up, its button's interactability, its registered click listener and its overlay child.
- **Board-size picker** (`MenuManager`). It steps cyclically through the row (A1) and column (A2) options. It stops only at a pair whose product is even and at most 30, then refilters the other axis.
- **Settings holder** (`GameSettings`). It carries the picker's choice into the game scene.

## Files

| file | module | models |
|---|---|---|
| `cards.dfy` | `CardsControl` | `CardsController.cs` |
| `board.dfy` | `BoardSetup` | `BoardManager.cs` |
| `settings.dfy` | `SettingsHolder` | `GameSettings.cs` |
| `menu.dfy` | `MenuSelection` | `MenuManager.cs` |
| `game.dfy` | `PairingGame` | `GameManager.cs` (and `GameConfig.cs` as the `Config` datatype) |

## Modelling choices

- **Coroutines are collapsed.** Each coroutine becomes one method that produces its end state:
  - `CompleteFlip` is the end of `FlipCardCoroutine`;
  - `HideCard` is `HideCard` together with `HideCardCoroutine`;
  - `LoadFlipped` and `ShowPeek` are the ends of their coroutines;
  - `CheckPair` runs to its end inside `HandleCardFlipped`.

  Every `WaitForSeconds` only postpones a state change.
- **Listeners are counted.** `listeners` counts how many times `OnCardClicked` is registered on the button. `RemoveListener` drops every registration, so it sets the count to 0. `AddListener` adds one.
- **The click flow is explicit.** `GameManager.PressCard` models a button press, which Unity delivers only while the button is interactable and a listener is registered. It runs the click handler; when a flip starts, it completes the flip and raises the flipped event. The event bus is replaced by a direct call to `HandleCardFlipped`.
- **Sprites and the overlay.** A null sprite reference is `NoSprite`. The overlay child (`transform.GetChild(1)`, present when the card has more than one child) is the flag pair `hasOverlay`/`overlayShown`.
- **Randomness is an input.** The `Random.Range(0, list.Count)` draws of the shuffle are a supplied sequence `randomIndices`, each entry in range.
- **Static settings are an object.** `GameSettings`' static properties are the fields of one `GameSettings` object that the menu and the game share.
- **Menu text is an integer.** `A1Text`/`A2Text` are the integers they display, so `int.Parse` of them is the identity.
- **Configuration is a value.** `GameConfig` is the immutable `Config(rows, cols, pointsPerMatch)`. Scoring uses `config.pointsPerMatch`. The `pointsPerMatch` field declared on `GameManager` (GameManager.cs:19) is never read, so it is not modelled.
- **Checked values are ghost state.** `GameManager.checkedValues` holds the two values each pair check read. `Valid()` ties the counters and the matched list to them:
  - the checks ran on positions (2i, 2i+1) of the flipped list, one per completed pair;
  - `Turns == |flipped|/2`;
  - `Matches` is the number of equal pairs;
  - `Score == Matches * pointsPerMatch`;
  - `matchedCards` holds the cards of the equal pairs, in order.

## Model

| member | source | states |
|---|---|---|
| CardsControl.CardsController.constructor | Assets/Scripts/CardsController.cs:25-34 | a fresh card has value 0, is face-down, shows the prefab's image and has exactly one click listener |
| CardsControl.CardsController.SetCard | Assets/Scripts/CardsController.cs:39-46 | value and sprites set; the card ends face-down, showing the back when one is given, interactable, with one listener, and with the overlay off |
| CardsControl.CardsController.OnCardClicked | Assets/Scripts/CardsController.cs:56-78 | the flip starts exactly when the card was face-down; the button ends disabled if and only if the flip started, so clicking a face-up card leaves it face-up and interactable; nothing else changes |
| CardsControl.CardsController.CompleteFlip | Assets/Scripts/CardsController.cs:82-96 | the flip coroutine ends with the card face-up and showing its face |
| CardsControl.CardsController.HideCardImmediate | Assets/Scripts/CardsController.cs:101-106 | clears `isFlipped` and shows the back only when one is set; its frame allows no other change |
| CardsControl.CardsController.HideCard | Assets/Scripts/CardsController.cs:108-128 | the hide ends face-down, showing the back when one is set, re-enabled with exactly one listener and the overlay off; value and sprites unchanged |
| CardsControl.CardsController.DisableCard | Assets/Scripts/CardsController.cs:130-138 | no listener, button disabled, overlay shown when the card has one |
| CardsControl.CardsController.EnableCard | Assets/Scripts/CardsController.cs:140-149 | exactly one listener whatever the count before, interactable, overlay hidden when the card has one |
| CardsControl.EnableCardIdempotent | Assets/Scripts/CardsController.cs:140-149 | a second `EnableCard` leaves listener, interactability and overlay as the first one left them; the frame holds only those three fields, so value, face-up flag, image and sprites are untouched |
| CardsControl.CardsController.ShowPeek | Assets/Scripts/CardsController.cs:154-169 | the peek ends showing the back sprite; its frame allows only the image to change, so `isFlipped` is untouched |
| CardsControl.CardsController.LoadFlipped | Assets/Scripts/CardsController.cs:172-192 | ends face-up showing the face, with the button disabled and no listener |
| BoardSetup.PairedValues | Assets/Scripts/BoardManager.cs:24-29 | the value list for n pairs has 2n entries |
| BoardSetup.PairedValuesShape | Assets/Scripts/BoardManager.cs:24-29 | positions 2i and 2i+1 of the value list both hold i |
| BoardSetup.PairedValuesCounts | Assets/Scripts/BoardManager.cs:24-29 | every value in [0, n) occurs exactly twice in the value list, and no other value occurs |
| BoardSetup.Swap | Assets/Scripts/BoardManager.cs:48-51 | one shuffle iteration exchanges the two positions, keeps every other entry, the length and the multiset |
| BoardSetup.Shuffled | Assets/Scripts/BoardManager.cs:44-53 | the remaining shuffle iterations keep the length and the multiset of values |
| BoardSetup.DeckIsPaired | Assets/Scripts/BoardManager.cs:24-39 | after the shuffle every pair value still occurs exactly twice and every entry is a valid face index in [0, n) |
| BoardSetup.OddCellCountOverruns | Assets/Scripts/BoardManager.cs:21-37 | for a positive odd cell count the value list is one entry shorter than the number of cells the deal loop reads |
| BoardSetup.BoardManager.constructor | Assets/Scripts/BoardManager.cs:8-15 | a new board has no cards and no pairs |
| BoardSetup.BoardManager.ClearBoard | Assets/Scripts/BoardManager.cs:69-74 | empties the card list |
| BoardSetup.BoardManager.Shuffle | Assets/Scripts/BoardManager.cs:44-53 | the in-place swap loop leaves the array equal to `Shuffled` of its old contents, a permutation of them |
| BoardSetup.BoardManager.PairedValueList | Assets/Scripts/BoardManager.cs:24-29 | the value loop builds exactly `PairedValues(TotalPairs)`, or nothing for a non-positive count |
| BoardSetup.BoardManager.DealCards | Assets/Scripts/BoardManager.cs:33-39 | one fresh, distinct card per cell, in order, each face-down, interactable with one listener, holding its value and that value's face sprite |
| BoardSetup.BoardManager.DealShuffled | Assets/Scripts/BoardManager.cs:21-39 | the dealt values are the shuffled paired list, and the card list holds only the new cards, in deal order |
| BoardSetup.BoardManager.SetupBoard | Assets/Scripts/BoardManager.cs:17-42 | `TotalPairs == rows*cols/2`; an even, non-negative cell count gives exactly rows*cols fresh cards, face-down and enabled, dealt from the shuffled paired list |
| SettingsHolder.GameSettings.constructor | Assets/Scripts/GameSettings.cs:7-9 | the settings start as 4 × 4 with no load request |
| SettingsHolder.GameSettings.Reset | Assets/Scripts/GameSettings.cs:11-16 | restores exactly the initial values; the new state does not depend on the old one, so resetting is idempotent |
| MenuSelection.IsValidProduct | Assets/Scripts/MenuManager.cs:139-143 | the acceptance test itself: the product is at most 30 and its remainder by 2 is 0 (C#'s truncating `%` and Dafny's agree on whether that remainder is 0); `ValidProductParity` states what it means |
| MenuSelection.ValidProductParity | Assets/Scripts/MenuManager.cs:139-143 | a product is accepted exactly when it is at most 30 and one factor is even |
| MenuSelection.ValidProductSymmetric | Assets/Scripts/MenuManager.cs:139-143 | the product test does not depend on the order of the factors |
| MenuSelection.Compatible | Assets/Scripts/MenuManager.cs:115-137 | the refiltered list holds exactly the options that form a valid product with the other axis, and is no longer than the options |
| MenuSelection.IndexOf | Assets/Scripts/MenuManager.cs:122-134 | `List.IndexOf`: -1 exactly when the value is absent, otherwise the first position holding it |
| MenuSelection.CyclicStepsAreModular | Assets/Scripts/MenuManager.cs:65-98 | the cyclic steps used by the model equal the source's `(i + 1) % n` and `(i - 1 + n) % n` |
| MenuSelection.MenuManager.constructor | Assets/Scripts/MenuManager.cs:21-59 | both lists take all options and the first of each is shown |
| MenuSelection.MenuManager.IncrementA1 | Assets/Scripts/MenuManager.cs:61-70 | moves forward with wrap-around to the first A1 entry valid with the shown A2, skipping only invalid ones; the index stays in range, the selection ends valid, A2 keeps its value and its list is refiltered |
| MenuSelection.MenuManager.DecrementA1 | Assets/Scripts/MenuManager.cs:72-81 | the same moving backward |
| MenuSelection.MenuManager.IncrementA2 | Assets/Scripts/MenuManager.cs:83-92 | moves forward to the first A2 entry valid with the shown A1; A1 keeps its value and its list is refiltered |
| MenuSelection.MenuManager.DecrementA2 | Assets/Scripts/MenuManager.cs:94-103 | the same moving backward |
| MenuSelection.MenuManager.UpdateA1Text | Assets/Scripts/MenuManager.cs:105-108 | the A1 text shows the selected option |
| MenuSelection.MenuManager.UpdateA2Text | Assets/Scripts/MenuManager.cs:110-113 | the A2 text shows the selected option |
| MenuSelection.MenuManager.UpdateValidA1Selections | Assets/Scripts/MenuManager.cs:115-125 | the A1 list becomes A1 filtered against the shown A2, in order; the shown value stays selected at its first position when still offered, otherwise index 0 |
| MenuSelection.MenuManager.UpdateValidA2Selections | Assets/Scripts/MenuManager.cs:127-137 | the same for A2 against the shown A1 |
| MenuSelection.MenuManager.Play | Assets/Scripts/MenuManager.cs:145-154 | copies the shown selection into the settings and clears the load request |
| MenuSelection.MenuManager.Load | Assets/Scripts/MenuManager.cs:156-162 | sets the load request; its frame leaves rows and cols untouched |
| MenuSelection.ValidSelectionCanStep | Assets/Scripts/MenuManager.cs:61-103 | a valid shown selection meets the stepping methods' requirement, so every step terminates and keeps the selection valid |
| MenuSelection.DefaultStartIsValid | Assets/Scripts/MenuManager.cs:21-22 | the initial 2 × 2 selection is valid |
| PairingGame.MatchCountBound | Assets/Scripts/GameManager.cs:96-101 | there are never more matches than turns |
| PairingGame.MatchedOfLength | Assets/Scripts/GameManager.cs:99-111 | the matched list holds two cards per match |
| PairingGame.MatchCountPrefix | Assets/Scripts/GameManager.cs:79-86 | later flips do not change the outcome of the pairs already checked |
| PairingGame.MatchedOfPrefix | Assets/Scripts/GameManager.cs:79-86 | later flips do not change the matched cards of the pairs already checked |
| PairingGame.MatchedOfFlipped | Assets/Scripts/GameManager.cs:110-111 | every matched card is one of the flipped cards of a checked pair |
| PairingGame.PairChecked | Assets/Scripts/GameManager.cs:83-111 | checking the pair a flip completes adds one to the match count exactly when its two values are equal, and appends exactly those two cards to the matched list |
| PairingGame.ChosenDimension | Assets/Scripts/GameManager.cs:62-63 | a positive setting is used as it is, any other setting falls back to the configured value; the chosen dimension is positive exactly when the setting or the configured value is |
| PairingGame.GameManager.constructor | Assets/Scripts/GameManager.cs:21-28 | a new game has zero turns, score and matches and empty lists |
| PairingGame.GameManager.StartNewGame | Assets/Scripts/GameManager.cs:60-67 | uses each setting when positive, otherwise the configured dimension; the board is set up for that size and the game keeps its card list |
| PairingGame.GameManager.HandleCardFlipped | Assets/Scripts/GameManager.cs:79-87 | appends exactly one card; an odd length changes nothing else; an even length checks the last two cards: one more turn, and match or miss as `CheckPair` states; keeps `Score == Matches * pointsPerMatch`, `\|matchedCards\| == 2 * Matches` and `Matches <= Turns`; the two checked cards end as `CheckPair` leaves them (`LeftMatched`/`LeftHidden`), and an unpaired flip leaves the card untouched |
| PairingGame.GameManager.CheckPair | Assets/Scripts/GameManager.cs:89-128 | one more turn whatever the outcome, value and sprites of both cards kept; equal values add a match and the configured points and record both cards, each left face-up with the same image, disabled, without listener and with its overlay shown; different values leave the counters and matched list unchanged and both cards face-down showing their back (when set), interactable with one listener, overlay hidden |
| PairingGame.GameManager.PressCard | Assets/Scripts/CardsController.cs:56-96 | a press on an enabled face-down card flips it and raises the flipped event exactly once; when that flip is unpaired the counters stay and the card is face-up showing its face, disabled, with its listener and overlay as before; when it completes a pair the check runs: one more turn, and on equal values a match, the configured points, both cards recorded, the pressed card face-up, disabled, without listener, overlay shown, the partner `LeftMatched`; on different values the counters are kept, the pressed card face-down again (back, or face when no back is set), interactable with one listener, overlay hidden, the partner `LeftHidden`; a press on a face-up card adds no event, leaves it face-up and interactable with the same listener, image and overlay, and leaves the card waiting for its partner untouched; a press on a disabled card (not interactable, or no listener) changes neither the game nor that card nor the card waiting for its partner; value and sprites are always kept |
| PairingGame.ResetSettingsAreDealable | Assets/Scripts/GameSettings.cs:11-16 | after `Reset` the game deals a 4 × 4 board, which `SetupBoard` can deal with eight faces |
| PairingGame.PlayedSelectionIsDealable | Assets/Scripts/MenuManager.cs:139-154 | a positive selection the menu accepts is the size the game deals, is even and at most 30 cells, and needs at most fifteen faces |

## Left out

- Rendering is not modelled: sprites beyond which one is shown, animations, sparkle and win effects, and `UpdateGrid`'s floating-point layout (BoardManager.cs:55-67).
- Audio is not modelled: audio clips, `AudioManager` and `SelfRotate`.
- `UIManager`, the legacy `CardController` and the static `EventBus` are not part of this model; the event bus is replaced by a direct call.
- Saving and loading a game are not modelled. `SaveSystem` (SaveSystem.cs:26-33) has no behaviour, and its record shapes are not declared.
- A countdown and win or timeout detection are not modelled, because the code has none: `TimeRemaining` is never decremented, and `stopTimer` and `gameOverSoundPlayed` are never read.
- Coroutine timing and interleaving are not modelled. Each coroutine is its end state. Clicks that arrive between a delay's start and its end are therefore not modelled, and neither are a pair check that is still pending when the next one starts or a hide coroutine that ends after its `EnableCard` call.
- The menu's I/O is not modelled: the `File.Exists` check for the save file, `Time.timeScale`, `SceneManager`/`DontDestroyOnLoad`, `Application.Quit`, and the singleton `Instance` fields.
- `StartNewGame`'s `rows`/`cols` parameters are not modelled. They only appear in a log message.
- `ClearBoard`'s `Destroy` of the card objects (BoardManager.cs:71-72) is not modelled: the model only empties the list, and the old card objects stay usable. In C# a card still held in the game's flip or matched list would become a destroyed object. This is harmless in the game only because `StartNewGame` runs once per scene, before any card is flipped.
- `GetAllCards` is modelled as `StartNewGame` reading `boardManager.allCards`. The C# list is shared by reference, but the model copies the sequence. `SetupBoard` and `ClearBoard` do change that same list in place (`allCards.Clear()` and `Add`, BoardManager.cs:38 and 73), and in C# those changes would show through the game's reference. The model hides this only because `StartNewGame` reads the list again right after `SetupBoard`; a later `SetupBoard` without that read is not modelled.
- 32-bit `int` overflow of `rows * cols`, `Turns`, `Score` and `Matches` is not modelled; integers are unbounded. With at most 30 cells a board gives at most 15 matches, so `Matches` and `Score` stay far below the limit. `Turns` grows with every pair check, mismatches included, and nothing resets it; it would wrap only after more than 2^31 checks.
- The quality of the randomness is not modelled. Only the permutation property of the shuffle is proved.
- BoardSetup.BoardManager.SetupBoard: requires an even cell count and at least `rows*cols/2` face sprites. With a positive odd count the code indexes one past the end of the value list (see `OddCellCountOverruns`). With too few sprites it indexes past the end of the sprite list. Neither crash is modelled. A negative odd count (for example a configured -1 × 3) does not crash in C#: truncating division sets `TotalPairs` to `rows*cols/2` rounded toward zero (-1 for -3), and neither loop runs, so no card is dealt. `Dealable` excludes that case too, so the model does not cover it; the menu only offers positive sizes.
- BoardSetup.BoardManager.SetupBoard: does not state the value multiset of the dealt cards directly. `DeckIsPaired` states it for the deck that `SetupBoard` returns.
- MenuSelection.MenuManager.IncrementA1: requires some entry to be valid, since without one the do-while loop never ends; the same holds for `DecrementA1`, `IncrementA2` and `DecrementA2`. `ValidSelectionCanStep` shows that a valid shown selection always meets this.
- MenuSelection.MenuManager.UpdateValidA1Selections: requires some option to fit, since otherwise the code indexes an empty list; the same holds for `UpdateValidA2Selections`.
- MenuSelection.MenuManager.constructor: requires both option arrays to be non-empty, since `Start` indexes the first entry of each.
