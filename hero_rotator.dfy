/** The hero text rotators. `rotateContent` fades an element out and, once
    the fade has had time to run, advances that rotator's cursor modulo the
    length of its list, writes the text at the new cursor into the element
    and fades it back in. The page runs two of them, each on its own
    interval: one over nine headings and one over six paragraphs. Each
    rotator owns its cursor and its element, so the two never touch each
    other's state. */
module HeroRotator {

  const HeadingTexts: seq<string> := [
    "Welcome!",
    "Hello There!",
    "Explore My Portfolio",
    "Your Go-To Knowledge Partner",
    "Crafting Insightful Articles",
    "High-Impact Writing",
    "Finance, Technology, Strategy",
    "Market Observer",
    "Idea Machine!"
  ]

  const ParagraphTexts: seq<string> := [
    "Discover creativity, work samples, and insights \U{2014} all in one place.",
    "Delivering well-researched insights on blockchain, Web3, and digital finance.",
    "Let's create something exceptional together.",
    "Turning ideas into responsive, beautiful interfaces.",
    "Helping brands communicate the future of decentralized technology.",
    "Scroll down to explore more."
  ]

  /** The cursors the rotators' callbacks compute: one step on, wrapping
      at the end of the list. */
  function Step(i: nat, n: nat): (j: nat)
    requires i < n
    ensures j < n
    ensures j == if i + 1 == n then 0 else i + 1
  {
    (i + 1) % n
  }

  /** The cursor after `swaps` steps from 0. */
  function CursorAfter(swaps: nat, n: nat): (i: nat)
    requires n > 0
    ensures i < n
  {
    if swaps == 0 then 0 else Step(CursorAfter(swaps - 1, n), n)
  }

  /** The page has nine headings and six paragraphs. */
  lemma TextCounts()
    ensures |HeadingTexts| == 9 && |ParagraphTexts| == 6
  {
  }

  /** For the nine headings: after `k` swaps the cursor is `k mod 9`. */
  lemma {:induction false} HeadingCursor(k: nat)
    ensures CursorAfter(k, 9) == k % 9
  {
    if k > 0 {
      HeadingCursor(k - 1);
    }
  }

  /** For the six paragraphs: after `m` swaps the cursor is `m mod 6`. */
  lemma {:induction false} ParagraphCursor(m: nat)
    ensures CursorAfter(m, 6) == m % 6
  {
    if m > 0 {
      ParagraphCursor(m - 1);
    }
  }

  /** Any list length: the cursor comes back to the start every `n` swaps. */
  lemma {:induction false} CursorPeriodic(t: nat, n: nat)
    requires n > 0
    ensures CursorAfter(t + n, n) == CursorAfter(t, n)
  {
    if t == 0 {
      CursorBeforeWrap(n - 1, n);
    } else {
      CursorPeriodic(t - 1, n);
    }
  }

  /** Before the first wrap, the cursor is the swap count. */
  lemma {:induction false} CursorBeforeWrap(t: nat, n: nat)
    requires t < n
    ensures CursorAfter(t, n) == t
  {
    if t > 0 {
      CursorBeforeWrap(t - 1, n);
    }
  }

  /** One text element and its cursor into a fixed list of texts. */
  class TextRotator {
    const texts: seq<string>
    /** The element's `textContent` and inline `opacity`. */
    var text: string
    var opacity: string
    /** The module-level cursor (`headIndex` or `paraIndex`). */
    var index: nat
    /** How many swaps (completed fade-out timers) have run. */
    ghost var swaps: nat

    /** The cursor counts the swaps modulo the list length; after any swap
        the element shows the text at the cursor. */
    ghost predicate Valid()
      reads this
    {
      && |texts| > 0
      && index == CursorAfter(swaps, |texts|)
      && (swaps > 0 ==> text == texts[index])
    }

    /** The element as the page's markup has it, and the cursor at 0. */
    constructor (texts: seq<string>, initialText: string, initialOpacity: string)
      requires |texts| > 0
      ensures Valid() && swaps == 0
      ensures this.texts == texts && index == 0
      ensures text == initialText && opacity == initialOpacity
    {
      this.texts := texts;
      text := initialText;
      opacity := initialOpacity;
      index := 0;
      swaps := 0;
    }

    /** The first half of `rotateContent`: fade the element out. */
    method FadeOut()
      requires Valid()
      modifies this`opacity
      ensures Valid()
      ensures opacity == "0"
    {
      opacity := "0";
    }

    /** The delayed half of `rotateContent`: advance the cursor, show the
        text at it and fade back in. */
    method Swap()
      requires Valid()
      modifies this`text, this`opacity, this`index, this`swaps
      ensures Valid() && swaps == old(swaps) + 1
      ensures index == Step(old(index), |texts|)
      ensures text == texts[index] && opacity == "1"
    {
      index := (index + 1) % |texts|;
      text := texts[index];
      opacity := "1";
      swaps := swaps + 1;
    }
  }

  /** The heading element after `k >= 1` swaps shows `HeadingTexts[k mod 9]`. */
  lemma HeadingShown(r: TextRotator)
    requires r.Valid() && r.texts == HeadingTexts && r.swaps > 0
    ensures r.text == HeadingTexts[r.swaps % 9]
  {
    TextCounts();
    HeadingCursor(r.swaps);
  }

  /** The paragraph element after `m >= 1` swaps shows `ParagraphTexts[m mod 6]`. */
  lemma ParagraphShown(r: TextRotator)
    requires r.Valid() && r.texts == ParagraphTexts && r.swaps > 0
    ensures r.text == ParagraphTexts[r.swaps % 6]
  {
    TextCounts();
    ParagraphCursor(r.swaps);
  }
}
