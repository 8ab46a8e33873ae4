/** One card of the board and its flag state: the value, whether it is face-up,
    the button's interactability, the click listener and the overlay child.
    Every coroutine of a card is modelled by one method that produces the
    coroutine's end state; the delays only postpone that state. */
module CardsControl {

  /** A sprite reference; `NoSprite` stands for a null reference. */
  datatype Sprite = NoSprite | Sprite(name: string)

  /** What a freshly instantiated card prefab brings with it: whether it has an
      overlay child (more than one child transform), whether that child is
      active, whether its button is interactable, and the image it shows. */
  datatype Prefab = Prefab(hasOverlay: bool, overlayActive: bool, interactable: bool, image: Sprite)

  class CardsController {
    var cardValue: int
    var isFlipped: bool
    var cardFace: Sprite
    var cardBack: Sprite
    /** The sprite the card's image currently shows. */
    var image: Sprite
    /** `button.interactable`. */
    var interactable: bool
    /** How many times `OnCardClicked` is registered on `button.onClick`. */
    var listeners: nat
    /** Whether the card has an overlay child; fixed by the prefab. */
    const hasOverlay: bool
    /** Whether the overlay child is active (meaningful only when `hasOverlay`). */
    var overlayShown: bool

    /** The click handler is never registered twice. */
    ghost predicate Valid()
      reads this
    {
      listeners <= 1
    }

    /** What a matched card is left with, against the state before the check:
        still face-up and showing the same sprite, with its value and sprites
        kept, the button disabled, no listener and the overlay shown. */
    twostate predicate LeftMatched()
      reads this
    {
      && cardValue == old(cardValue) && cardFace == old(cardFace) && cardBack == old(cardBack)
      && isFlipped == old(isFlipped) && image == old(image)
      && !interactable && listeners == 0
      && overlayShown == (hasOverlay || old(overlayShown))
    }

    /** What a mismatched card is left with, against the state before the
        check: face-down, showing the back when one is set, with its value and
        sprites kept, interactable with one listener and the overlay hidden. */
    twostate predicate LeftHidden()
      reads this
    {
      && cardValue == old(cardValue) && cardFace == old(cardFace) && cardBack == old(cardBack)
      && !isFlipped && image == (if cardBack != NoSprite then cardBack else old(image))
      && interactable && listeners == 1
      && overlayShown == (!hasOverlay && old(overlayShown))
    }

    /** Instantiating the prefab; `Awake` registers the click listener once. */
    constructor (prefab: Prefab)
      ensures Valid()
      ensures cardValue == 0 && !isFlipped
      ensures cardFace == NoSprite && cardBack == NoSprite && image == prefab.image
      ensures interactable == prefab.interactable && listeners == 1
      ensures hasOverlay == prefab.hasOverlay && overlayShown == prefab.overlayActive
    {
      cardValue := 0;
      isFlipped := false;
      cardFace := NoSprite;
      cardBack := NoSprite;
      image := prefab.image;
      interactable := prefab.interactable;
      hasOverlay := prefab.hasOverlay;
      overlayShown := prefab.overlayActive;
      listeners := 1;
    }

    /** Gives the card its value and sprites, turns it face-down and enables it. */
    method SetCard(value: int, backSprite: Sprite, faceSprite: Sprite)
      requires Valid()
      modifies this
      ensures Valid()
      ensures cardValue == value && cardBack == backSprite && cardFace == faceSprite
      ensures !isFlipped
      ensures image == if backSprite != NoSprite then backSprite else old(image)
      ensures interactable && listeners == 1
      ensures overlayShown == (!hasOverlay && old(overlayShown))
    {
      cardValue := value;
      cardBack := backSprite;
      cardFace := faceSprite;
      HideCardImmediate();
      EnableCard();
    }

    /** The button's click handler. It disables the button; a face-down card
        starts its flip (completed by `CompleteFlip`), while a card already
        face-up gets its button back. `startsFlip` says whether the flip began. */
    method OnCardClicked() returns (startsFlip: bool)
      requires Valid()
      modifies this
      ensures Valid()
      ensures startsFlip == !old(isFlipped)
      ensures interactable == !startsFlip
      ensures isFlipped == old(isFlipped) && image == old(image)
      ensures listeners == old(listeners) && overlayShown == old(overlayShown)
      ensures cardValue == old(cardValue) && cardFace == old(cardFace) && cardBack == old(cardBack)
    {
      interactable := false;
      if !isFlipped {
        startsFlip := true;
      } else {
        startsFlip := false;
        interactable := true;
      }
    }

    /** End state of the flip coroutine: the card is face-up and shows its face.
        The caller raises the card-flipped event right after. */
    method CompleteFlip()
      requires Valid()
      modifies this`isFlipped, this`image
      ensures Valid()
      ensures isFlipped && image == cardFace
    {
      isFlipped := true;
      image := cardFace;
    }

    /** Turns the card face-down at once; the back is shown only when it is set. */
    method HideCardImmediate()
      modifies this`isFlipped, this`image
      ensures !isFlipped
      ensures image == if cardBack != NoSprite then cardBack else old(image)
    {
      isFlipped := false;
      if cardBack != NoSprite {
        image := cardBack;
      }
    }

    /** `HideCard` with its coroutine run to the end: face-down and clickable again. */
    method HideCard()
      requires Valid()
      modifies this
      ensures Valid()
      ensures !isFlipped
      ensures image == if cardBack != NoSprite then cardBack else old(image)
      ensures interactable && listeners == 1
      ensures overlayShown == (!hasOverlay && old(overlayShown))
      ensures cardValue == old(cardValue) && cardFace == old(cardFace) && cardBack == old(cardBack)
    {
      isFlipped := false;
      if cardBack != NoSprite {
        image := cardBack;
      }
      EnableCard();
    }

    /** Removes the click listener, disables the button and shows the overlay. */
    method DisableCard()
      requires Valid()
      modifies this`listeners, this`interactable, this`overlayShown
      ensures Valid()
      ensures listeners == 0 && !interactable
      ensures overlayShown == (hasOverlay || old(overlayShown))
    {
      listeners := 0;  // RemoveListener drops every registration
      interactable := false;
      if hasOverlay {
        overlayShown := true;
      }
    }

    /** Re-registers the click listener (remove, then add, so exactly once),
        enables the button and hides the overlay. The new values of these flags
        do not depend on the old ones, so a second call changes nothing. */
    method EnableCard()
      requires Valid()
      modifies this`listeners, this`interactable, this`overlayShown
      ensures Valid()
      ensures listeners == 1 && interactable
      ensures overlayShown == (!hasOverlay && old(overlayShown))
    {
      listeners := 0;
      listeners := listeners + 1;
      interactable := true;
      if hasOverlay {
        overlayShown := false;
      }
    }

    /** End state of the peek coroutine: the face was shown and then the back
        sprite is put in place, whatever the card's state. */
    method ShowPeek()
      modifies this`image
      ensures image == cardBack
    {
      image := cardFace;
      image := cardBack;
    }

    /** End state of the load-flipped coroutine: face-up, showing the face,
        with the button disabled and no listener. */
    method LoadFlipped()
      requires Valid()
      modifies this`isFlipped, this`image, this`interactable, this`listeners
      ensures Valid()
      ensures isFlipped && image == cardFace
      ensures !interactable && listeners == 0
    {
      isFlipped := true;
      image := cardFace;
      interactable := false;
      listeners := 0;
    }
  }

  /** Calling `EnableCard` a second time leaves every field as the first call left it. */
  method EnableCardIdempotent(card: CardsController)
    requires card.Valid()
    modifies card`listeners, card`interactable, card`overlayShown
    ensures card.Valid() && card.listeners == 1 && card.interactable
    ensures card.overlayShown == (!card.hasOverlay && old(card.overlayShown))
    ensures card.isFlipped == old(card.isFlipped) && card.cardValue == old(card.cardValue)
    ensures card.image == old(card.image)
  {
    card.EnableCard();
    ghost var once := (card.listeners, card.interactable, card.overlayShown);
    card.EnableCard();
    assert (card.listeners, card.interactable, card.overlayShown) == once;
  }
}
