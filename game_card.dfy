/** One swipeable card: the decision a drag ends in, and the image carousel
    a tap moves through. Drag offsets and velocities are pixel values. */
module GameCard {
  import opened Types

  const SwipeThreshold: real := 100.0
  const VelocityThreshold: real := 500.0
  /** How far off screen a swiped card is sent. */
  const ExitDistance: int := 2000

  predicate PastLeft(offsetX: real, velocityX: real) {
    offsetX < -SwipeThreshold || velocityX < -VelocityThreshold
  }

  predicate PastRight(offsetX: real, velocityX: real) {
    offsetX > SwipeThreshold || velocityX > VelocityThreshold
  }

  predicate PastUp(offsetY: real, velocityY: real) {
    offsetY < -SwipeThreshold || velocityY < -VelocityThreshold
  }

  /** The if / else-if chain of `handleDragEnd` on an active card: the swipe
      a drag ends in, if any. Left wins over right, and both over up. */
  function ClassifySwipe(offsetX: real, offsetY: real, velocityX: real, velocityY: real): (r: Option<SwipeDirection>)
    ensures r == Some(Left) <==> PastLeft(offsetX, velocityX)
    ensures r == Some(Right) <==> !PastLeft(offsetX, velocityX) && PastRight(offsetX, velocityX)
    ensures r == Some(Up) <==> !PastLeft(offsetX, velocityX) && !PastRight(offsetX, velocityX) && PastUp(offsetY, velocityY)
    ensures r == None <==> !PastLeft(offsetX, velocityX) && !PastRight(offsetX, velocityX) && !PastUp(offsetY, velocityY)
  {
    if PastLeft(offsetX, velocityX) then Some(Left)
    else if PastRight(offsetX, velocityX) then Some(Right)
    else if PastUp(offsetY, velocityY) then Some(Up)
    else None
  }

  /** A drag that stays within both thresholds on every axis (a downward
      drag included) is no swipe at all. */
  lemma SmallDragIsNoSwipe(offsetX: real, offsetY: real, velocityX: real, velocityY: real)
    requires -SwipeThreshold <= offsetX <= SwipeThreshold && -VelocityThreshold <= velocityX <= VelocityThreshold
    requires offsetY >= -SwipeThreshold && velocityY >= -VelocityThreshold
    ensures ClassifySwipe(offsetX, offsetY, velocityX, velocityY) == None
  {
  }

  /** A drag past a horizontal threshold is never read as "up", however far
      it also went up. */
  lemma HorizontalWinsOverUp(offsetX: real, offsetY: real, velocityX: real, velocityY: real)
    requires PastLeft(offsetX, velocityX) || PastRight(offsetX, velocityX)
    ensures ClassifySwipe(offsetX, offsetY, velocityX, velocityY) != Some(Up)
    ensures ClassifySwipe(offsetX, offsetY, velocityX, velocityY).Some?
  {
  }

  /** The functional updater of `handleTap`: the left 30% of the card steps
      back, the right 30% steps forward, each stopping at the ends of the
      list; the middle does nothing, and so does a card with one image. */
  function NextImageIndex(index: nat, count: nat, clickX: real, width: real): (r: nat)
    ensures count <= 1 ==> r == index
    ensures index < count ==> r < count
    ensures r == index || r == index - 1 || r == index + 1
    ensures count > 1 && clickX < width * 0.3 ==> r == (if index > 0 then index - 1 else index)
    ensures count > 1 && !(clickX < width * 0.3) && clickX > width * 0.7
            ==> r == (if index < count - 1 then index + 1 else index)
    ensures !(clickX < width * 0.3) && !(clickX > width * 0.7) ==> r == index
  {
    if count <= 1 then index
    else if clickX < width * 0.3 then (if index > 0 then index - 1 else index)
    else if clickX > width * 0.7 then (if index < count - 1 then index + 1 else index)
    else index
  }

  /** From any image in range, enough taps on the right reach the last one
      and one more tap stays there. */
  lemma {:induction false} TapsReachLast(index: nat, count: nat, width: real, taps: nat)
    requires 1 < count && index < count && width > 0.0
    requires taps >= count - 1 - index
    ensures RepeatTaps(index, count, width, taps) == count - 1
    decreases taps
  {
    if taps > 0 && index < count - 1 {
      TapsReachLast(NextImageIndex(index, count, width, width), count, width, taps - 1);
    } else if taps > 0 {
      TapsReachLast(index, count, width, taps - 1);
    }
  }

  /** `taps` taps on the right edge of a card `width` wide. */
  function RepeatTaps(index: nat, count: nat, width: real, taps: nat): (r: nat)
    requires width > 0.0
    ensures index < count ==> r < count
    decreases taps
  {
    if taps == 0 then index else RepeatTaps(NextImageIndex(index, count, width, width), count, width, taps - 1)
  }

  /** Where the card is animated to. */
  datatype Target = ToX(x: int) | ToY(y: int) | Rest

  class Card {
    const active: bool
    /** The image URLs of the character, in order. */
    const images: seq<string>
    var currentImageIndex: nat
    var exitX: Option<int>
    var exitY: Option<int>
    /** The directions passed to `onSwipe`, oldest first. */
    var swipes: seq<SwipeDirection>

    ghost predicate Valid()
      reads this
    {
      currentImageIndex == 0 || currentImageIndex < |images|
    }

    constructor (active: bool, images: seq<string>)
      ensures this.active == active && this.images == images
      ensures currentImageIndex == 0 && exitX == None && exitY == None && swipes == []
      ensures Valid()
    {
      this.active := active;
      this.images := images;
      currentImageIndex := 0;
      exitX := None;
      exitY := None;
      swipes := [];
    }

    /** `images[currentImageIndex]?.imageUrl` */
    function CurrentImage(): (r: Option<string>)
      reads this
      requires Valid()
      ensures |images| > 0 ==> r == Some(images[currentImageIndex])
      ensures |images| == 0 ==> r == None
    {
      if currentImageIndex < |images| then Some(images[currentImageIndex]) else None
    }

    /** The `animate` prop: off screen once swiped, else back to the centre. */
    function Animate(): (r: Target)
      reads this
      ensures exitX.Some? ==> r == ToX(exitX.value)
      ensures exitX.None? && exitY.Some? ==> r == ToY(exitY.value)
      ensures exitX.None? && exitY.None? ==> r == Rest
    {
      if exitX.Some? then ToX(exitX.value)
      else if exitY.Some? then ToY(exitY.value)
      else Rest
    }

    /** `handleTap` for a click at `clickX` pixels from the card's left edge. */
    method HandleTap(clickX: real, width: real)
      requires Valid()
      modifies this
      ensures Valid()
      ensures !active || |images| <= 1 ==> currentImageIndex == old(currentImageIndex)
      ensures active ==> currentImageIndex == NextImageIndex(old(currentImageIndex), |images|, clickX, width)
      ensures exitX == old(exitX) && exitY == old(exitY) && swipes == old(swipes)
    {
      if |images| <= 1 || !active {
        return;
      }
      currentImageIndex := NextImageIndex(currentImageIndex, |images|, clickX, width);
    }

    /** `handleDragEnd`: an inactive card ignores the drag; an active one
        classifies it, sends the card off screen that way and reports the
        swipe. */
    method HandleDragEnd(offsetX: real, offsetY: real, velocityX: real, velocityY: real)
      requires Valid()
      modifies this
      ensures Valid()
      ensures currentImageIndex == old(currentImageIndex)
      ensures !active ==> exitX == old(exitX) && exitY == old(exitY) && swipes == old(swipes)
      ensures active ==>
                var d := ClassifySwipe(offsetX, offsetY, velocityX, velocityY);
                && swipes == old(swipes) + (if d.Some? then [d.value] else [])
                && exitX == (if d == Some(Left) then Some(-ExitDistance)
                             else if d == Some(Right) then Some(ExitDistance) else old(exitX))
                && exitY == (if d == Some(Up) then Some(-ExitDistance) else old(exitY))
    {
      if !active {
        return;
      }
      var d := ClassifySwipe(offsetX, offsetY, velocityX, velocityY);
      match d {
        case Some(Left) =>
          exitX := Some(-ExitDistance);
          swipes := swipes + [Left];
        case Some(Right) =>
          exitX := Some(ExitDistance);
          swipes := swipes + [Right];
        case Some(Up) =>
          exitY := Some(-ExitDistance);
          swipes := swipes + [Up];
        case None =>
      }
    }
  }

  /** A drag on a fresh active card that ends in a swipe reports exactly
      that one swipe and sends the card off screen in its direction. */
  method SwipeFreshCard(images: seq<string>, offsetX: real, offsetY: real, velocityX: real, velocityY: real)
    returns (swipes: seq<SwipeDirection>, target: Target)
    ensures |swipes| <= 1
    ensures swipes == [Left] <==> target == ToX(-ExitDistance)
    ensures swipes == [Right] <==> target == ToX(ExitDistance)
    ensures swipes == [Up] <==> target == ToY(-ExitDistance)
    ensures swipes == [] <==> target == Rest
  {
    var card := new Card(true, images);
    card.HandleDragEnd(offsetX, offsetY, velocityX, velocityY);
    swipes := card.swipes;
    target := card.Animate();
    var d := ClassifySwipe(offsetX, offsetY, velocityX, velocityY);
    assert swipes == (if d.Some? then [d.value] else []);
  }
}
