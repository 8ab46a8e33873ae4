/** Building a board: the paired value list, the swap shuffle driven by a
    supplied sequence of random indices, and the deal of one card per cell. */
module BoardSetup {
  import opened CardsControl

  /** The value list the setup loop builds for `n` pairs: 0,0,1,1,…,n-1,n-1. */
  function PairedValues(n: nat): (r: seq<int>)
    ensures |r| == 2 * n
  {
    if n == 0 then [] else PairedValues(n - 1) + [n - 1, n - 1]
  }

  /** Positions 2i and 2i+1 both hold i. */
  lemma {:induction false} PairedValuesShape(n: nat)
    ensures forall i :: 0 <= i < n ==> PairedValues(n)[2 * i] == i && PairedValues(n)[2 * i + 1] == i
  {
    if n > 0 {
      PairedValuesShape(n - 1);
      var prev := PairedValues(n - 1);
      assert PairedValues(n) == prev + [n - 1, n - 1];
      forall i | 0 <= i < n
        ensures PairedValues(n)[2 * i] == i && PairedValues(n)[2 * i + 1] == i
      {
        if i < n - 1 {
          assert PairedValues(n)[2 * i] == prev[2 * i];
          assert PairedValues(n)[2 * i + 1] == prev[2 * i + 1];
        }
      }
    }
  }

  /** Every value in [0, n) occurs exactly twice, and no other value occurs. */
  lemma {:induction false} PairedValuesCounts(n: nat)
    ensures forall v :: multiset(PairedValues(n))[v] == if 0 <= v < n then 2 else 0
  {
    if n > 0 {
      PairedValuesCounts(n - 1);
      assert multiset(PairedValues(n)) == multiset(PairedValues(n - 1)) + multiset{n - 1, n - 1};
    }
  }

  /** Exchanges the entries at `i` and `j` as the shuffle loop does, through a temporary. */
  function Swap(s: seq<int>, i: nat, j: nat): (r: seq<int>)
    requires i < |s| && j < |s|
    ensures |r| == |s| && multiset(r) == multiset(s)
    ensures r[i] == s[j] && r[j] == s[i]
    ensures forall k :: 0 <= k < |s| && k != i && k != j ==> r[k] == s[k]
  {
    s[i := s[j]][j := s[i]]
  }

  /** Each random index is a valid position of a list of `count` entries. */
  predicate IndicesInRange(randomIndices: seq<int>, count: int)
  {
    forall k :: 0 <= k < |randomIndices| ==> 0 <= randomIndices[k] < count
  }

  /** The list after shuffle iterations `i`, `i+1`, …, each swapping position
      `k` with `randomIndices[k]`. */
  function Shuffled(s: seq<int>, randomIndices: seq<int>, i: nat): (r: seq<int>)
    requires |randomIndices| == |s| && IndicesInRange(randomIndices, |s|) && i <= |s|
    ensures |r| == |s| && multiset(r) == multiset(s)
    decreases |s| - i
  {
    if i == |s| then s else Shuffled(Swap(s, i, randomIndices[i]), randomIndices, i + 1)
  }

  /** A shuffled deck keeps exactly two copies of every pair value. */
  lemma DeckIsPaired(n: nat, randomIndices: seq<int>)
    requires |randomIndices| == 2 * n && IndicesInRange(randomIndices, 2 * n)
    ensures |PairedValues(n)| == 2 * n
    ensures forall v :: multiset(Shuffled(PairedValues(n), randomIndices, 0))[v] == if 0 <= v < n then 2 else 0
    ensures forall k :: 0 <= k < 2 * n ==> 0 <= Shuffled(PairedValues(n), randomIndices, 0)[k] < n
  {
    PairedValuesShape(n);
    PairedValuesCounts(n);
    var deck := Shuffled(PairedValues(n), randomIndices, 0);
    forall k | 0 <= k < 2 * n
      ensures 0 <= deck[k] < n
    {
      assert deck[k] in multiset(deck);
    }
  }

  /** An odd cell count leaves the value list one entry short, so the deal
      loop's last read of `cardValues` is out of range. */
  lemma OddCellCountOverruns(totalCards: int)
    requires totalCards > 0 && totalCards % 2 == 1
    ensures |PairedValues(totalCards / 2)| == totalCards - 1
  {
  }

  /** Number of pairs the setup builds values for: `totalCards / 2`, or none
      when that is not positive (the value loop does not run). */
  function PairCount(totalCards: int): (r: nat)
  {
    if totalCards / 2 > 0 then totalCards / 2 else 0
  }

  /** What `SetupBoard` needs to finish: an even cell count, since the deal
      reads one value per cell, and a face sprite for every pair value. */
  predicate Dealable(totalCards: int, faceCount: int)
  {
    totalCards % 2 == 0 && faceCount >= totalCards / 2
  }

  class BoardManager {
    const cardPrefab: Prefab
    const cardBackSprite: Sprite
    const cardFaceSprites: seq<Sprite>
    var totalPairs: int
    var allCards: seq<CardsController>

    constructor (prefab: Prefab, backSprite: Sprite, faceSprites: seq<Sprite>)
      ensures cardPrefab == prefab && cardBackSprite == backSprite && cardFaceSprites == faceSprites
      ensures totalPairs == 0 && allCards == []
    {
      cardPrefab, cardBackSprite, cardFaceSprites := prefab, backSprite, faceSprites;
      totalPairs := 0;
      allCards := [];
    }

    /** Forgets every dealt card; the card objects themselves are not destroyed here. */
    method ClearBoard()
      modifies this`allCards
      ensures allCards == []
    {
      allCards := [];
    }

    /** The swap shuffle: iteration `i` exchanges `list[i]` with `list[randomIndices[i]]`,
        where `randomIndices[i]` is the i-th draw of `Random.Range(0, list.Count)`. */
    method Shuffle(list: array<int>, randomIndices: seq<int>)
      requires |randomIndices| == list.Length && IndicesInRange(randomIndices, list.Length)
      modifies list
      ensures list[..] == Shuffled(old(list[..]), randomIndices, 0)
      ensures multiset(list[..]) == multiset(old(list[..]))
    {
      var i := 0;
      while i < list.Length
        invariant 0 <= i <= list.Length
        invariant Shuffled(list[..], randomIndices, i) == Shuffled(old(list[..]), randomIndices, 0)
      {
        ghost var before := list[..];
        var temp := list[i];
        var randomIndex := randomIndices[i];
        list[i] := list[randomIndex];
        list[randomIndex] := temp;
        assert list[..] == Swap(before, i, randomIndex);
        i := i + 1;
      }
    }

    /** Clears the board, builds and shuffles the paired values, and deals one
        fresh card per cell, face-down and enabled, in deal order. */
    method SetupBoard(rows: int, cols: int, randomIndices: seq<int>) returns (ghost deck: seq<int>)
      requires Dealable(rows * cols, |cardFaceSprites|)
      requires |randomIndices| == 2 * PairCount(rows * cols)
      requires IndicesInRange(randomIndices, 2 * PairCount(rows * cols))
      modifies this`totalPairs, this`allCards
      ensures totalPairs == rows * cols / 2
      ensures deck == Shuffled(PairedValues(PairCount(rows * cols)), randomIndices, 0)
      ensures |allCards| == |deck| == 2 * PairCount(rows * cols)
      ensures rows * cols >= 0 ==> |allCards| == rows * cols
      ensures forall i :: 0 <= i < |allCards| ==> fresh(allCards[i])
      ensures DealtInOrder(allCards, deck)
    {
      ClearBoard();
      var totalCards := rows * cols;
      totalPairs := totalCards / 2;
      deck := DealShuffled(totalCards, randomIndices);
    }

    /** The part of `SetupBoard` after `totalCards` is known: the value loop,
        the shuffle, and the deal loop. */
    method DealShuffled(totalCards: int, randomIndices: seq<int>) returns (ghost deck: seq<int>)
      requires Dealable(totalCards, |cardFaceSprites|)
      requires |randomIndices| == 2 * PairCount(totalCards)
      requires IndicesInRange(randomIndices, 2 * PairCount(totalCards))
      requires allCards == []
      modifies this`allCards
      ensures deck == Shuffled(PairedValues(PairCount(totalCards)), randomIndices, 0)
      ensures |allCards| == |deck| == 2 * PairCount(totalCards)
      ensures totalCards >= 0 ==> |allCards| == totalCards
      ensures forall i :: 0 <= i < |allCards| ==> fresh(allCards[i])
      ensures DealtInOrder(allCards, deck)
    {
      var pairs := PairCount(totalCards);
      var values := PairedValueList(totalCards / 2);
      DeckIsPaired(pairs, randomIndices);
      var cardValues := new int[|values|](k requires 0 <= k < |values| => values[k]);
      assert cardValues[..] == values;
      Shuffle(cardValues, randomIndices);
      deck := cardValues[..];
      assert forall k :: 0 <= k < cardValues.Length ==> 0 <= cardValues[k] < pairs;
      DealCards(cardValues, totalCards);
      assert cardValues[..] == deck;
    }

    /** The value loop of `SetupBoard`: adds `i` twice for every `i < totalPairs`. */
    static method PairedValueList(totalPairs: int) returns (values: seq<int>)
      ensures values == PairedValues(if totalPairs > 0 then totalPairs else 0)
    {
      values := [];
      var i := 0;
      while i < totalPairs
        invariant 0 <= i <= if totalPairs > 0 then totalPairs else 0
        invariant values == PairedValues(i)
      {
        values := values + [i, i];
        i := i + 1;
      }
    }

    /** The deal loop of `SetupBoard`: one fresh card per cell, given its value,
        the back sprite and the face sprite of that value, appended in order. */
    method DealCards(cardValues: array<int>, totalCards: int)
      requires cardValues.Length == if totalCards > 0 then totalCards else 0
      requires forall k :: 0 <= k < cardValues.Length ==> 0 <= cardValues[k] < |cardFaceSprites|
      requires allCards == []
      modifies this`allCards
      ensures forall i :: 0 <= i < |allCards| ==> fresh(allCards[i])
      ensures DealtInOrder(allCards, cardValues[..])
    {
      var i := 0;
      while i < totalCards
        invariant 0 <= i <= cardValues.Length
        invariant |allCards| == i
        invariant forall j, k :: 0 <= j < k < i ==> allCards[j] != allCards[k]
        invariant forall j :: 0 <= j < i ==> fresh(allCards[j])
        invariant forall j :: 0 <= j < i ==> DealtCard(allCards[j], cardValues[j])
      {
        var card := new CardsController(cardPrefab);
        card.SetCard(cardValues[i], cardBackSprite, cardFaceSprites[cardValues[i]]);
        allCards := allCards + [card];
        i := i + 1;
      }
    }

    /** `cards` are distinct and the k-th was dealt with value `values[k]`. */
    ghost predicate DealtInOrder(cards: seq<CardsController>, values: seq<int>)
      reads set c | c in cards
    {
      && |cards| == |values|
      && (forall i, j :: 0 <= i < j < |cards| ==> cards[i] != cards[j])
      && (forall i :: 0 <= i < |cards| ==> DealtCard(cards[i], values[i]))
    }

    /** The state `SetupBoard` leaves a dealt card in: value `v` with its face
        sprite, face-down, interactable, listener attached, overlay off. */
    ghost predicate DealtCard(card: CardsController, v: int)
      reads card
    {
      && card.Valid()
      && card.cardValue == v
      && 0 <= v < |cardFaceSprites|
      && card.cardFace == cardFaceSprites[v]
      && card.cardBack == cardBackSprite
      && card.image == (if cardBackSprite != NoSprite then cardBackSprite else cardPrefab.image)
      && !card.isFlipped
      && card.interactable
      && card.listeners == 1
      && (card.hasOverlay ==> !card.overlayShown)
    }
  }
}
