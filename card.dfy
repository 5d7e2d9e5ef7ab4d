/** One card on the board: the value that identifies its pair partner and the
    three flags that gate selection. The flip, match and mismatch tweens are
    not modelled; each tween's callback is a method of its own that the
    animation layer invokes later (MidFlip, FlipComplete, AnimComplete). */
module Cards {

  /** The fields of a card, as a value. */
  datatype CardState = CardState(value: int, isFaceUp: bool, isMatched: bool, isAnimating: bool)

  /** The operations and tween callbacks that can reach a card after it is
      dealt, other than SetupCard. */
  datatype CardEvent = Flip | MidFlip | FlipComplete | SetMatched | Mismatch | AnimComplete

  class Card {
    var value: int
    var isFaceUp: bool
    var isMatched: bool
    var isAnimating: bool

    /** A card as the pool instantiates it: C# default field values. */
    constructor ()
      ensures value == 0 && !isFaceUp && !isMatched && !isAnimating
    {
      value := 0;
      isFaceUp := false;
      isMatched := false;
      isAnimating := false;
    }

    /** The card's fields at this moment. */
    function State(): CardState
      reads this
    {
      CardState(value, isFaceUp, isMatched, isAnimating)
    }

    /** The selection gate of OnClick. */
    predicate Selectable()
      reads this
    {
      !isMatched && !isFaceUp && !isAnimating
    }

    /** Gives the card its pair value and clears every flag; the only
        operation that ever clears `isMatched`. */
    method SetupCard(newValue: int)
      modifies this
      ensures value == newValue
      ensures !isMatched && !isFaceUp && !isAnimating
      ensures Selectable()
    {
      value := newValue;
      isMatched := false;
      isFaceUp := false;
      isAnimating := false;
    }

    /** A button press: `raised` is whether the click event goes out to
        listeners. A matched, face-up or animating card stays silent. */
    method OnClick() returns (raised: bool)
      ensures raised <==> Selectable()
      ensures isMatched ==> !raised
      ensures isAnimating ==> !raised
    {
      raised := false;
      if !isMatched && !isFaceUp && !isAnimating {
        raised := true;
      }
    }

    /** Starts a flip; the face changes only at MidFlip. */
    method Flip()
      modifies this
      ensures isAnimating
      ensures value == old(value) && isFaceUp == old(isFaceUp) && isMatched == old(isMatched)
    {
      isAnimating := true;
    }

    /** Callback at the middle of the flip tween: the face turns over. */
    method MidFlip()
      modifies this
      ensures isFaceUp == !old(isFaceUp)
      ensures value == old(value) && isMatched == old(isMatched) && isAnimating == old(isAnimating)
    {
      isFaceUp := !isFaceUp;
    }

    /** Callback at the end of the flip tween. */
    method FlipComplete()
      modifies this
      ensures !isAnimating
      ensures value == old(value) && isFaceUp == old(isFaceUp) && isMatched == old(isMatched)
    {
      isAnimating := false;
    }

    /** Marks the card matched for the rest of the level and starts the
        match tween. */
    method SetMatched()
      modifies this
      ensures isMatched && isAnimating
      ensures value == old(value) && isFaceUp == old(isFaceUp)
    {
      isMatched := true;
      isAnimating := true;
    }

    /** Starts the mismatch shake. */
    method PlayMismatchAnimation()
      modifies this
      ensures isAnimating
      ensures value == old(value) && isFaceUp == old(isFaceUp) && isMatched == old(isMatched)
    {
      isAnimating := true;
    }

    /** Completion callback of the match tween and of the mismatch shake. */
    method AnimComplete()
      modifies this
      ensures !isAnimating
      ensures value == old(value) && isFaceUp == old(isFaceUp) && isMatched == old(isMatched)
    {
      isAnimating := false;
    }
  }

  /** Whatever tween callbacks fire, a matched card stays matched and
      never raises a click, until SetupCard. (Flip, MidFlip, FlipComplete,
      SetMatched, PlayMismatchAnimation and AnimComplete each keep `isMatched`
      or set it.) */
  method MatchedCardStaysSilent(c: Card, events: seq<CardEvent>) returns (raised: bool)
    requires c.isMatched
    modifies c
    ensures c.isMatched && !raised
  {
    var k := 0;
    while k < |events|
      invariant 0 <= k <= |events|
      invariant c.isMatched
    {
      match events[k] {
        case Flip => c.Flip();
        case MidFlip => c.MidFlip();
        case FlipComplete => c.FlipComplete();
        case SetMatched => c.SetMatched();
        case Mismatch => c.PlayMismatchAnimation();
        case AnimComplete => c.AnimComplete();
      }
      k := k + 1;
    }
    raised := c.OnClick();
  }
}
