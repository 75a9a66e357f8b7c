/** The writings page: the same reveal-on-scroll observer, over the page's
    `.writing-card` elements, set up once the document is loaded. Its
    callback is `Reveal.RevealObserver.OnEntries`, so every property proved
    in `Reveal` holds of the cards. */
module Writings {
  import opened Reveal

  /** The `DOMContentLoaded` handler: a new observer, then every card
      observed in turn. */
  method SetUpWritingsPage<T(==)>(cards: seq<T>, marked: set<T>)
    returns (observer: RevealObserver<T>)
    ensures fresh(observer)
    ensures forall i :: 0 <= i < |cards| ==> cards[i] in observer.observed
    ensures observer.observed == Elements(cards) && observer.inView == marked
  {
    observer := new RevealObserver(marked);
    observer.ObserveAll(cards);
  }
}
