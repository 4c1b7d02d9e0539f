/**
 * The typing effect of the hero: the element's text is captured and cleared,
 * and `typeWriter` appends one character of it per timer tick. The timer
 * itself is a flag: `scheduled` is true while a call of `typeWriter` is
 * pending, and the environment fires it by calling `Step`.
 */
module HeroTyping {

  function Min(a: int, b: int): int { if a < b then a else b }

  /** The text shown after `n` calls of `typeWriter`. */
  function Revealed(text: string, n: nat): (r: string)
    ensures |r| == Min(n, |text|) && r <= text
  {
    text[..Min(n, |text|)]
  }

  /** Each call lengthens the revealed text by the next character until the
      whole text is shown; from then on the revealed text no longer changes. */
  lemma RevealedStep(text: string, n: nat)
    ensures n < |text| ==> Revealed(text, n + 1) == Revealed(text, n) + [text[n]]
    ensures n >= |text| ==> Revealed(text, n + 1) == Revealed(text, n) == text
  {
    if n < |text| {
      assert text[..n + 1] == text[..n] + [text[n]];
    }
  }

  class Typewriter {
    /** The element's text before the effect started. */
    const text: string
    /** The element's `textContent`. */
    var shown: string
    var i: nat
    var scheduled: bool

    /** What is shown is the first `i` characters of the text, and the reveal
        cannot stall: while characters remain, a call is pending. */
    ghost predicate Valid()
      reads this
    {
      i <= |text| && shown == text[..i] && (i < |text| ==> scheduled)
    }

    /** Capture the text, clear the element, schedule the first call. */
    constructor (initial: string)
      ensures Valid()
      ensures text == initial && shown == "" && i == 0 && scheduled
    {
      text := initial;
      shown := "";
      i := 0;
      scheduled := true;
    }

    /** `typeWriter`: append `text[i]` and schedule the next call while
        characters remain; otherwise do nothing. */
    method Step()
      requires Valid() && scheduled
      modifies this
      ensures Valid()
      ensures old(i) < |text| ==> i == old(i) + 1 && shown == old(shown) + [text[old(i)]] && scheduled
      ensures old(i) == |text| ==> i == old(i) && shown == old(shown) && !scheduled
    {
      if i < |text| {
        shown := shown + [text[i]];
        i := i + 1;
        scheduled := true;
      } else {
        scheduled := false;
      }
    }

    /** `n` turns of the timer: each runs `typeWriter` if a call is pending. */
    method Run(n: nat)
      requires Valid()
      modifies this
      ensures Valid()
      ensures i == Min(old(i) + n, |text|) && shown == Revealed(text, old(i) + n)
      ensures old(scheduled) && old(i) + n <= |text| ==> scheduled
    {
      for k := 0 to n
        invariant Valid()
        invariant i == Min(old(i) + k, |text|)
        invariant old(scheduled) && old(i) + k <= |text| ==> scheduled
      {
        if scheduled {
          Step();
        }
      }
    }
  }

  /** After as many calls as the text has characters, the whole text is shown,
      and one more call changes nothing. */
  method FullReveal(initial: string)
  {
    var t := new Typewriter(initial);
    t.Run(|initial|);
    assert t.shown == initial;
    t.Step();
    assert t.shown == initial && !t.scheduled;
  }
}
