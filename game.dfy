/** The pairing coordinator. Every card-flipped event is appended to the list
    of flipped cards; whenever that list reaches an even length its last two
    entries are checked as a pair. A check counts a turn; equal values also
    count a match, add the configured points and record both cards as matched,
    while different values turn both cards face-down and enable them again.
    The check's delays only postpone its effects, so a check is one step. */
module PairingGame {
  import opened CardsControl
  import opened BoardSetup
  import opened SettingsHolder
  import opened MenuSelection

  /** The board size and scoring fixed by the game configuration asset. */
  datatype Config = Config(rows: int, cols: int, pointsPerMatch: int)

  /** How many of the first `k` checked pairs, positions 2i and 2i+1 of
      `values`, hold equal values. */
  function MatchCount(values: seq<int>, k: nat): (r: nat)
    requires 2 * k <= |values|
  {
    if k == 0 then 0
    else MatchCount(values, k - 1) + (if values[2 * k - 2] == values[2 * k - 1] then 1 else 0)
  }

  /** The cards of the first `k` checked pairs whose values were equal, pair
      by pair in the order the pairs were checked. */
  function MatchedOf<T>(cards: seq<T>, values: seq<int>, k: nat): (r: seq<T>)
    requires 2 * k <= |cards| && 2 * k <= |values|
  {
    if k == 0 then []
    else
      MatchedOf(cards, values, k - 1)
      + (if values[2 * k - 2] == values[2 * k - 1] then [cards[2 * k - 2], cards[2 * k - 1]] else [])
  }

  /** No more matches than checks. */
  lemma {:induction false} MatchCountBound(values: seq<int>, k: nat)
    requires 2 * k <= |values|
    ensures MatchCount(values, k) <= k
  {
    if k > 0 {
      MatchCountBound(values, k - 1);
    }
  }

  /** Two matched cards per match. */
  lemma {:induction false} MatchedOfLength<T>(cards: seq<T>, values: seq<int>, k: nat)
    requires 2 * k <= |cards| && 2 * k <= |values|
    ensures |MatchedOf(cards, values, k)| == 2 * MatchCount(values, k)
  {
    if k > 0 {
      MatchedOfLength(cards, values, k - 1);
    }
  }

  /** Later entries do not change the outcome of pairs already checked. */
  lemma {:induction false} MatchCountPrefix(values: seq<int>, more: seq<int>, k: nat)
    requires 2 * k <= |values|
    ensures MatchCount(values + more, k) == MatchCount(values, k)
  {
    if k > 0 {
      MatchCountPrefix(values, more, k - 1);
    }
  }

  /** Later entries do not change the cards of pairs already checked. */
  lemma {:induction false} MatchedOfPrefix<T>(cards: seq<T>, moreCards: seq<T>, values: seq<int>, moreValues: seq<int>, k: nat)
    requires 2 * k <= |cards| && 2 * k <= |values|
    ensures MatchedOf(cards + moreCards, values + moreValues, k) == MatchedOf(cards, values, k)
  {
    if k > 0 {
      MatchedOfPrefix(cards, moreCards, values, moreValues, k - 1);
    }
  }

  /** Checking the pair that `card` completes extends the outcome of the
      earlier checks by the outcome of this one. */
  lemma PairChecked<T>(cards: seq<T>, card: T, values: seq<int>, k: nat)
    requires |cards| == 2 * k + 1 && |values| == 2 * k
    ensures forall v1, v2 {:trigger values + [v1, v2]} ::
              && MatchCount(values + [v1, v2], k + 1) == MatchCount(values, k) + (if v1 == v2 then 1 else 0)
              && MatchedOf(cards + [card], values + [v1, v2], k + 1)
                 == MatchedOf(cards, values, k) + (if v1 == v2 then [cards[2 * k], card] else [])
  {
    forall v1, v2
      ensures && MatchCount(values + [v1, v2], k + 1) == MatchCount(values, k) + (if v1 == v2 then 1 else 0)
              && MatchedOf(cards + [card], values + [v1, v2], k + 1)
                 == MatchedOf(cards, values, k) + (if v1 == v2 then [cards[2 * k], card] else [])
    {
      MatchCountPrefix(values, [v1, v2], k);
      MatchedOfPrefix(cards, [card], values, [v1, v2], k);
    }
  }

  /** Every matched card is one of the flipped cards of a checked pair. */
  lemma {:induction false} MatchedOfFlipped<T>(cards: seq<T>, values: seq<int>, k: nat)
    requires 2 * k <= |cards| && 2 * k <= |values|
    ensures forall c :: c in MatchedOf(cards, values, k) ==> c in cards[..2 * k]
  {
    if k > 0 {
      MatchedOfFlipped(cards, values, k - 1);
      assert cards[..2 * (k - 1)] <= cards[..2 * k];
    }
  }

  /** `GameSettings.Rows`/`Cols` when positive, otherwise the configured value. */
  function ChosenDimension(setting: int, configured: int): (r: int)
    ensures setting > 0 ==> r == setting
    ensures setting <= 0 ==> r == configured
    ensures r > 0 <==> setting > 0 || configured > 0
  {
    if setting > 0 then setting else configured
  }

  /** The number of cells of the board the game deals for these settings. */
  function BoardCells(settingRows: int, settingCols: int, config: Config): (r: int)
  {
    ChosenDimension(settingRows, config.rows) * ChosenDimension(settingCols, config.cols)
  }

  class GameManager {
    const boardManager: BoardManager
    const config: Config
    var allCards: seq<CardsController>
    var turns: int
    var score: int
    var matches: int
    /** Every card whose flip event arrived, in arrival order (`flippedCardss`). */
    var flippedCards: seq<CardsController>
    var matchedCards: seq<CardsController>
    /** The two values read by each pair check, in check order. */
    ghost var checkedValues: seq<int>

    /** Checks ran on the disjoint consecutive positions (2i, 2i+1) of the
        flipped list, once per completed pair; the counters and the matched
        list are what those checks give. */
    ghost predicate Valid()
      reads this
    {
      && turns == |flippedCards| / 2
      && |checkedValues| == 2 * turns
      && matches == MatchCount(checkedValues, turns)
      && score == matches * config.pointsPerMatch
      && matchedCards == MatchedOf(flippedCards, checkedValues, turns)
    }

    /** The card waiting for its partner: the last flipped one when the list is odd. */
    function PendingCard(): (r: set<CardsController>)
      reads this
    {
      if |flippedCards| % 2 == 1 then {flippedCards[|flippedCards| - 1]} else {}
    }

    constructor (board: BoardManager, configuration: Config)
      ensures Valid()
      ensures boardManager == board && config == configuration
      ensures turns == 0 && score == 0 && matches == 0
      ensures flippedCards == [] && matchedCards == [] && allCards == []
    {
      boardManager := board;
      config := configuration;
      allCards := [];
      turns, score, matches := 0, 0, 0;
      flippedCards, matchedCards := [], [];
      checkedValues := [];
    }

    /** Deals a board of the size chosen in the menu, falling back to the
        configured size for a dimension that is not positive. The counters and
        the flip lists are left as they are. */
    method StartNewGame(settings: GameSettings, randomIndices: seq<int>) returns (ghost deck: seq<int>)
      requires Dealable(BoardCells(settings.rows, settings.cols, config), |boardManager.cardFaceSprites|)
      requires |randomIndices| == 2 * PairCount(BoardCells(settings.rows, settings.cols, config))
      requires IndicesInRange(randomIndices, |randomIndices|)
      modifies this`allCards, boardManager`totalPairs, boardManager`allCards
      ensures boardManager.totalPairs == BoardCells(settings.rows, settings.cols, config) / 2
      ensures deck == Shuffled(PairedValues(PairCount(BoardCells(settings.rows, settings.cols, config))), randomIndices, 0)
      ensures allCards == boardManager.allCards && |allCards| == |randomIndices|
      ensures forall i :: 0 <= i < |allCards| ==> fresh(allCards[i])
      ensures boardManager.DealtInOrder(allCards, deck)
    {
      var rows := ChosenDimension(settings.rows, config.rows);
      var cols := ChosenDimension(settings.cols, config.cols);
      deck := boardManager.SetupBoard(rows, cols, randomIndices);
      allCards := boardManager.allCards;
    }

    /** The flipped-event handler: records the card and, when it completes a
        pair, checks that pair. */
    method HandleCardFlipped(card: CardsController)
      requires Valid() && card.Valid()
      requires forall c :: c in PendingCard() ==> c.Valid()
      modifies this`flippedCards, this`turns, this`matches, this`score, this`matchedCards, this`checkedValues
      modifies card, PendingCard()
      ensures Valid()
      ensures flippedCards == old(flippedCards) + [card]
      ensures |matchedCards| == 2 * matches && 0 <= matches <= turns
      ensures card.Valid() && forall c :: c in old(PendingCard()) ==> c.Valid()
      ensures |flippedCards| % 2 == 1 ==>
                && turns == old(turns) && matches == old(matches) && score == old(score)
                && matchedCards == old(matchedCards) && unchanged(card)
      ensures |flippedCards| % 2 == 0 ==>
                var first := flippedCards[|flippedCards| - 2];
                && turns == old(turns) + 1
                && first.cardValue == old(first.cardValue) && card.cardValue == old(card.cardValue)
                && (first.cardValue == card.cardValue ==>
                      && matches == old(matches) + 1
                      && score == old(score) + config.pointsPerMatch
                      && matchedCards == old(matchedCards) + [first, card]
                      && first.LeftMatched() && card.LeftMatched())
                && (first.cardValue != card.cardValue ==>
                      && matches == old(matches) && score == old(score)
                      && matchedCards == old(matchedCards)
                      && first.LeftHidden() && card.LeftHidden())
    {
      ghost var oldFlipped, k := flippedCards, turns;
      flippedCards := flippedCards + [card];
      if |flippedCards| % 2 == 0 {
        var first := flippedCards[|flippedCards| - 2];
        assert first in old(PendingCard());
        CheckPair(first, card);
        PairChecked(oldFlipped, card, old(checkedValues), k);
        ghost var m := old(matches);
        assert (m + 1) * config.pointsPerMatch == m * config.pointsPerMatch + config.pointsPerMatch;
      } else {
        MatchedOfPrefix(oldFlipped, [card], checkedValues, [], k);
        assert checkedValues + [] == checkedValues;
      }
      MatchCountBound(checkedValues, turns);
      MatchedOfLength(flippedCards, checkedValues, turns);
    }

    /** The pair check with its delays collapsed: both cards are disabled, a
        turn is counted, and the values decide between a match and a miss. */
    method CheckPair(card1: CardsController, card2: CardsController)
      requires card1.Valid() && card2.Valid()
      modifies this`turns, this`matches, this`score, this`matchedCards, this`checkedValues, card1, card2
      ensures card1.Valid() && card2.Valid()
      ensures turns == old(turns) + 1
      ensures checkedValues == old(checkedValues) + [old(card1.cardValue), old(card2.cardValue)]
      ensures card1.cardValue == old(card1.cardValue) && card2.cardValue == old(card2.cardValue)
      ensures card1.cardValue == card2.cardValue ==>
                && matches == old(matches) + 1
                && score == old(score) + config.pointsPerMatch
                && matchedCards == old(matchedCards) + [card1, card2]
                && card1.LeftMatched() && card2.LeftMatched()
      ensures card1.cardValue != card2.cardValue ==>
                && matches == old(matches) && score == old(score)
                && matchedCards == old(matchedCards)
                && card1.LeftHidden() && card2.LeftHidden()
    {
      card1.DisableCard();
      card2.DisableCard();
      turns := turns + 1;
      checkedValues := checkedValues + [card1.cardValue, card2.cardValue];
      if card1.cardValue == card2.cardValue {
        matches := matches + 1;
        score := score + config.pointsPerMatch;
        card1.DisableCard();
        card2.DisableCard();
        matchedCards := matchedCards + [card1, card2];
      } else {
        // The hide coroutines end after the EnableCard calls below; their end
        // state already includes EnableCard, which is idempotent.
        card1.HideCard();
        card2.HideCard();
        card1.EnableCard();
        card2.EnableCard();
      }
    }

    /** A press on a card's button, delivered only when the button is
        interactable and the handler registered: the click handler runs, and a
        face-down card completes its flip and raises the flipped event once. */
    method PressCard(card: CardsController)
      requires Valid() && card.Valid()
      requires forall c :: c in PendingCard() ==> c.Valid()
      modifies this`flippedCards, this`turns, this`matches, this`score, this`matchedCards, this`checkedValues
      modifies card, PendingCard()
      ensures Valid() && card.Valid()
      ensures var clicked := old(card.interactable) && old(card.listeners) > 0;
              var flips := clicked && !old(card.isFlipped);
              && flippedCards == old(flippedCards) + (if flips then [card] else [])
              && (!flips ==> turns == old(turns) && matches == old(matches) && score == old(score)
                             && matchedCards == old(matchedCards) && card.isFlipped == old(card.isFlipped))
              && (clicked && old(card.isFlipped) ==> card.interactable)
              && (flips && |flippedCards| % 2 == 1 ==> card.isFlipped && !card.interactable)
      ensures !(old(card.interactable) && old(card.listeners) > 0) ==>
                && unchanged(card) && checkedValues == old(checkedValues)
                && forall c :: c in old(PendingCard()) ==> unchanged(c)
      ensures card.cardValue == old(card.cardValue) && card.cardFace == old(card.cardFace) && card.cardBack == old(card.cardBack)
      ensures old(card.interactable) && old(card.listeners) > 0 && old(card.isFlipped) ==>
                && card.listeners == old(card.listeners) && card.image == old(card.image)
                && card.overlayShown == old(card.overlayShown) && checkedValues == old(checkedValues)
                && forall c :: c in old(PendingCard()) && c != card ==> unchanged(c)
      ensures var flips := old(card.interactable) && old(card.listeners) > 0 && !old(card.isFlipped);
              flips && |flippedCards| % 2 == 1 ==>
                && turns == old(turns) && matches == old(matches) && score == old(score)
                && matchedCards == old(matchedCards)
                && card.image == card.cardFace && card.listeners == 1
                && card.overlayShown == old(card.overlayShown)
      ensures var flips := old(card.interactable) && old(card.listeners) > 0 && !old(card.isFlipped);
              flips && |flippedCards| % 2 == 0 ==>
                var first := flippedCards[|flippedCards| - 2];
                && turns == old(turns) + 1
                && (first.cardValue == card.cardValue ==>
                      && matches == old(matches) + 1
                      && score == old(score) + config.pointsPerMatch
                      && matchedCards == old(matchedCards) + [first, card]
                      && card.isFlipped && card.image == card.cardFace
                      && !card.interactable && card.listeners == 0
                      && (card.hasOverlay ==> card.overlayShown)
                      && (first != card ==> first.LeftMatched()))
                && (first.cardValue != card.cardValue ==>
                      && matches == old(matches) && score == old(score)
                      && matchedCards == old(matchedCards)
                      && !card.isFlipped && card.interactable && card.listeners == 1
                      && card.image == (if card.cardBack != NoSprite then card.cardBack else card.cardFace)
                      && (card.hasOverlay ==> !card.overlayShown)
                      && first.LeftHidden())
    {
      if card.interactable && card.listeners > 0 {
        var startsFlip := card.OnCardClicked();
        if startsFlip {
          card.CompleteFlip();
          HandleCardFlipped(card);
        }
      }
    }
  }

  /** After `GameSettings.Reset` the game deals a 4 × 4 board, which is even,
      so the deal succeeds with eight face sprites or more. */
  lemma ResetSettingsAreDealable(settings: GameSettings, config: Config, faceCount: nat)
    requires settings.IsInitial() && faceCount >= 8
    ensures ChosenDimension(settings.rows, config.rows) == 4 && ChosenDimension(settings.cols, config.cols) == 4
    ensures Dealable(ChosenDimension(settings.rows, config.rows) * ChosenDimension(settings.cols, config.cols), faceCount)
  {
  }

  /** A selection the menu accepts, with positive sides, is the size the game
      deals, and it needs at most fifteen face sprites. */
  lemma PlayedSelectionIsDealable(rows: int, cols: int, config: Config, faceCount: nat)
    requires rows > 0 && cols > 0 && IsValidProduct(rows, cols) && faceCount >= 15
    ensures ChosenDimension(rows, config.rows) == rows && ChosenDimension(cols, config.cols) == cols
    ensures Dealable(rows * cols, faceCount) && rows * cols <= 30
  {
  }
}
