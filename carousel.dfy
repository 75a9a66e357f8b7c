/** The background crossfade carousel: two stacked layers `bg1` and `bg2`
    and a cursor `bgIndex` over the image list. Each tick loads the image at
    the cursor into the layer the cursor's parity names as "next", fades it
    in, fades the "current" layer out (with a further zoom), and advances the
    cursor modulo the list length. The synchronous half of a tick and its
    animation-frame half are taken together as one atomic step. */
module Carousel {

  /** The inline style fields of one layer the carousel writes. */
  datatype Layer = Layer(opacity: string, transform: string, backgroundImage: string)

  /** Both layers and the cursor. */
  datatype CarouselState = CarouselState(bg1: Layer, bg2: Layer, bgIndex: int)

  const BgImages: seq<string> :=
    ["pic1.jpg", "pic2.jpg", "pic3.avif", "pic4.avif", "pic5.avif", "pic6.avif"]

  const Opaque: string := "1"
  const Transparent: string := "0"
  const RestScale: string := "scale(1.04)"
  const ExitScale: string := "scale(1.08)"

  /** The CSS value `url(src)` the template literal builds. */
  function Url(src: string): string {
    "url(" + src + ")"
  }

  /** Both layers as created: transparent, at rest scale, no image. */
  const FreshLayer: Layer := Layer(Transparent, RestScale, "")

  /** The state once set-up is done: `bg1` shows the first image, opaque,
      and the cursor is at 1. */
  function Init(images: seq<string>): (s: CarouselState)
    requires |images| > 0
    ensures s.bgIndex == 1 && OneOpaque(s)
    ensures s.bg1.opacity == Opaque && s.bg1.backgroundImage == Url(images[0])
    ensures s.bg2 == FreshLayer
  {
    CarouselState(FreshLayer.(backgroundImage := Url(images[0]), opacity := Opaque), FreshLayer, 1)
  }

  /** The layer the cursor's parity names as on screen: `bg2` for an even
      cursor, `bg1` for an odd one. */
  function Current(s: CarouselState): Layer {
    if s.bgIndex % 2 == 0 then s.bg2 else s.bg1
  }

  /** The other layer, the one the next image is loaded into. */
  function Next(s: CarouselState): Layer {
    if s.bgIndex % 2 == 0 then s.bg1 else s.bg2
  }

  /** The cursor after `i`: `(i + 1) % n` for a cursor in range, written
      as the wrap it amounts to (see AdvanceIsIncrementMod). The carousel
      keeps the wrap form, rather than the `%` of `HeroRotator.Step`,
      because its proofs reason about the parity of the cursor, and a `%` by
      the list length inside them as well puts them over the solver's
      budget. */
  function Advance(i: int, n: int): (j: int)
    requires 0 <= i < n
    ensures 0 <= j < n
  {
    if i + 1 < n then i + 1 else 0
  }

  /** The cursor before `i`, modulo `n`: `(i - 1) % n` for a cursor in range. */
  function Retreat(i: int, n: int): (j: int)
    requires 0 <= i < n
    ensures 0 <= j < n
  {
    if i == 0 then n - 1 else i - 1
  }

  /** `Advance` is the source's `(bgIndex + 1) % length` on a cursor in
      range. `Retreat` is its inverse, which `Shown` uses to name the image
      on screen; the source never steps the cursor back, and the second
      clause uses Dafny's Euclidean `%`, not JavaScript's. */
  lemma AdvanceIsIncrementMod(i: int, n: int)
    requires 0 <= i < n
    ensures Advance(i, n) == (i + 1) % n
    ensures Retreat(i, n) == (i - 1) % n
    ensures 0 <= Advance(i, n) < n && Retreat(Advance(i, n), n) == i
  {
  }

  /** One tick of `showNextBg` and its animation frame. */
  function ShowNextBg(s: CarouselState, images: seq<string>): (r: CarouselState)
    requires 0 <= s.bgIndex < |images|
    ensures 0 <= r.bgIndex < |images|
  {
    var entering := Layer(Opaque, RestScale, Url(images[s.bgIndex]));
    var leaving := Current(s).(opacity := Transparent, transform := ExitScale);
    var cursor := Advance(s.bgIndex, |images|);
    if s.bgIndex % 2 == 0 then CarouselState(entering, leaving, cursor)
    else CarouselState(leaving, entering, cursor)
  }

  /** `k` ticks from `s`. */
  function Ticks(s: CarouselState, images: seq<string>, k: nat): (r: CarouselState)
    requires 0 <= s.bgIndex < |images|
    ensures 0 <= r.bgIndex < |images|
  {
    if k == 0 then s else ShowNextBg(Ticks(s, images, k - 1), images)
  }

  /** The image named by a cursor's predecessor: the one on screen. */
  function Shown(images: seq<string>, bgIndex: int): string
    requires 0 <= bgIndex < |images|
  {
    images[Retreat(bgIndex, |images|)]
  }

  /** The carousel's display invariant: the cursor is in range, the layer
      chosen by parity is the only opaque one, and it shows the image just
      before the cursor. */
  predicate Settled(s: CarouselState, images: seq<string>) {
    && 0 <= s.bgIndex < |images|
    && Current(s).opacity == Opaque
    && Next(s).opacity == Transparent
    && Current(s).backgroundImage == Url(Shown(images, s.bgIndex))
  }

  /** Exactly one of the two layers is opaque. */
  predicate OneOpaque(s: CarouselState) {
    (s.bg1.opacity == Opaque) != (s.bg2.opacity == Opaque)
  }

  /** A tick with an even number of images, from any state whose cursor is
      in range: the layer that was named current fades out and keeps its
      picture, the other becomes the only opaque layer, showing the image at
      the old cursor, and the new state is settled. Evenness alone, not the
      history, makes parity name the opaque layer after a tick: the tick
      writes the layer its new cursor's parity names as current. */
  lemma TickKeepsSettled(s: CarouselState, images: seq<string>)
    requires |images| % 2 == 0 && 0 <= s.bgIndex < |images|
    ensures Settled(ShowNextBg(s, images), images)
    ensures OneOpaque(ShowNextBg(s, images))
    ensures Current(ShowNextBg(s, images)).backgroundImage == Url(images[s.bgIndex])
    ensures Next(ShowNextBg(s, images)).backgroundImage == Current(s).backgroundImage
  {
  }

  /** One tick swaps the two roles: the layer it loads is current
      afterwards, opaque at rest scale with the image at the old cursor, and
      the layer that was current is next, faded out at the exit scale. */
  lemma TickSwapsRoles(s: CarouselState, images: seq<string>)
    requires |images| % 2 == 0 && 0 <= s.bgIndex < |images|
    ensures Current(ShowNextBg(s, images)) == Layer(Opaque, RestScale, Url(images[s.bgIndex]))
    ensures Next(ShowNextBg(s, images)) == Current(s).(opacity := Transparent, transform := ExitScale)
  {
  }

  /** The set-up state is settled whenever the list has at least two images
      (with one, the cursor 1 would be out of range). */
  lemma InitSettled(images: seq<string>)
    requires |images| >= 2
    ensures Settled(Init(images), images)
  {
  }

  /** With an even number of images the carousel is settled after any
      number of ticks from set-up: parity always names the opaque layer. */
  lemma AlwaysSettled(images: seq<string>, k: nat)
    requires |images| >= 2 && |images| % 2 == 0
    ensures Settled(Ticks(Init(images), images, k), images)
    ensures OneOpaque(Ticks(Init(images), images, k))
  {
    if k == 0 {
      InitSettled(images);
    } else {
      TickKeepsSettled(Ticks(Init(images), images, k - 1), images);
    }
  }

  /** For a list of six images, as the page has: after `k` ticks from
      set-up the cursor is `(1 + k) mod 6`. */
  lemma {:induction false} CursorAfterTicks(images: seq<string>, k: nat)
    requires |images| == 6
    ensures Ticks(Init(images), images, k).bgIndex == (1 + k) % 6
  {
    if k > 0 {
      CursorAfterTicks(images, k - 1);
      var i := Ticks(Init(images), images, k - 1).bgIndex;
      assert Ticks(Init(images), images, k).bgIndex == Advance(i, 6);
    }
  }

  /** ... and the picture on screen is image `k mod 6`. */
  lemma TicksFromInit(images: seq<string>, k: nat)
    requires |images| == 6
    ensures Ticks(Init(images), images, k).bgIndex == (1 + k) % 6
    ensures Current(Ticks(Init(images), images, k)).backgroundImage == Url(images[k % 6])
  {
    CursorAfterTicks(images, k);
    if k > 0 {
      var s := Ticks(Init(images), images, k - 1);
      CursorAfterTicks(images, k - 1);
      AlwaysSettled(images, k - 1);
      TickKeepsSettled(s, images);
      assert s.bgIndex == k % 6;
    }
  }

  /** Every image comes back on screen again and again: for any tick count
      `m`, image `j` is shown after some tick count from `m` on. */
  lemma EveryImageRecurs(images: seq<string>, j: nat, m: nat) returns (k: nat)
    requires |images| == 6 && j < 6
    ensures k >= m
    ensures Current(Ticks(Init(images), images, k)).backgroundImage == Url(images[j])
  {
    k := 6 * m + j;
    assert k % 6 == j;
    TicksFromInit(images, k);
  }

  /** Up to the first wrap-around the layers simply alternate, whatever the
      list length: after `k < n` ticks the opaque layer is `bg1` for even
      `k` and `bg2` for odd `k`, and the other one is transparent. */
  lemma {:induction false} AlternationBeforeWrap(images: seq<string>, k: nat)
    requires |images| >= 2 && k < |images|
    ensures Ticks(Init(images), images, k).bgIndex == if k + 1 < |images| then k + 1 else 0
    ensures k % 2 == 0 ==>
      Ticks(Init(images), images, k).bg1.opacity == Opaque && Ticks(Init(images), images, k).bg2.opacity == Transparent
    ensures k % 2 == 1 ==>
      Ticks(Init(images), images, k).bg2.opacity == Opaque && Ticks(Init(images), images, k).bg1.opacity == Transparent
  {
    if k > 0 {
      AlternationBeforeWrap(images, k - 1);
    }
  }

  /** Why the list length must be even: with an odd number of images, after
      `n - 1` ticks the cursor wraps to 0, whose parity names `bg2` as the
      layer on screen, yet `bg2` is the transparent one. The next tick would
      then "fade out" an invisible layer and cut to the new picture. */
  lemma OddLengthBreaksParity(images: seq<string>)
    requires |images| >= 3 && |images| % 2 == 1
    ensures Current(Ticks(Init(images), images, |images| - 1)).opacity == Transparent
  {
    var k := |images| - 1;
    AlternationBeforeWrap(images, k);
    var s := Ticks(Init(images), images, k);
    assert k % 2 == 0;
    assert s.bgIndex == 0 && s.bg2.opacity == Transparent;
  }

  /** The carousel as the page holds it: the two layer elements' styles and
      the module-level cursor. */
  class BackgroundCarousel {
    var bg1: Layer
    var bg2: Layer
    var bgIndex: int
    /** How many ticks have run since set-up. */
    ghost var ticks: nat

    function State(): CarouselState
      reads this
    {
      CarouselState(bg1, bg2, bgIndex)
    }

    ghost predicate Valid()
      reads this
    {
      State() == Ticks(Init(BgImages), BgImages, ticks)
    }

    /** The set-up: both layers created transparent at rest scale, then `bg1`
        given the first image and made opaque, and the cursor set to 1. */
    constructor ()
      ensures Valid() && ticks == 0
      ensures State() == Init(BgImages)
    {
      bg1 := FreshLayer;
      bg2 := FreshLayer;
      bgIndex := 0;
      ticks := 0;
      new;
      bg1 := bg1.(backgroundImage := Url(BgImages[0]));
      bg1 := bg1.(opacity := Opaque);
      bgIndex := 1;
    }

    /** `showNextBg` followed by its animation frame. */
    method Tick()
      requires Valid()
      modifies this
      ensures Valid() && ticks == old(ticks) + 1
      ensures State() == ShowNextBg(old(State()), BgImages)
      ensures bgIndex == (1 + ticks) % |BgImages|
      ensures Settled(State(), BgImages) && OneOpaque(State())
      ensures Current(State()).backgroundImage == Url(BgImages[old(bgIndex)])
    {
      var current := if bgIndex % 2 == 0 then bg2 else bg1;
      var next := if bgIndex % 2 == 0 then bg1 else bg2;
      next := next.(backgroundImage := Url(BgImages[bgIndex]));
      next := next.(opacity := Transparent);
      next := next.(transform := RestScale);
      // the animation frame
      current := current.(opacity := Transparent);
      current := current.(transform := ExitScale);
      next := next.(opacity := Opaque);
      next := next.(transform := RestScale);
      if bgIndex % 2 == 0 {
        bg1, bg2 := next, current;
      } else {
        bg1, bg2 := current, next;
      }
      AdvanceIsIncrementMod(bgIndex, |BgImages|);
      bgIndex := (bgIndex + 1) % |BgImages|;
      ticks := ticks + 1;
      TickKeepsSettled(old(State()), BgImages);
      CursorAfterTicks(BgImages, ticks);
    }
  }
}
