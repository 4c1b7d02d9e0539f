/**
 * The two intersection-observer callbacks: the one-shot trigger of the
 * statistics counters and the lazy image loader. The browser hands a callback
 * a batch of entries; each names its target element and whether it is
 * intersecting. Elements are identified by number.
 */
module ScrollObservers {

  type Target = nat

  datatype Entry = Entry(target: Target, isIntersecting: bool)

  /** The targets of the intersecting entries of a batch. */
  function Hits(entries: seq<Entry>): set<Target> {
    if |entries| == 0 then {}
    else
      var e := entries[|entries| - 1];
      Hits(entries[..|entries| - 1]) + (if e.isIntersecting then {e.target} else {})
  }

  /** `Hits` holds exactly the targets that some intersecting entry names. */
  lemma {:induction false} HitsMembers(entries: seq<Entry>)
    ensures forall t :: t in Hits(entries) <==>
      exists k :: 0 <= k < |entries| && entries[k].isIntersecting && entries[k].target == t
  {
    if |entries| > 0 {
      var init := entries[..|entries| - 1];
      HitsMembers(init);
      assert forall k :: 0 <= k < |init| ==> init[k] == entries[k];
    }
  }

  /** One more entry at the end of a batch. */
  lemma HitsSnoc(entries: seq<Entry>, k: nat)
    requires k < |entries|
    ensures Hits(entries[..k + 1]) ==
      Hits(entries[..k]) + (if entries[k].isIntersecting then {entries[k].target} else {})
  {
    assert entries[..k + 1][..k] == entries[..k];
  }

  ghost predicate Distinct(s: seq<Target>) {
    forall i, j :: 0 <= i < j < |s| ==> s[i] != s[j]
  }

  /** The elements whose counting animation the callback starts, in order:
      the first intersecting entry of each element that is not yet animated. */
  function FirstStarts(animated: set<Target>, entries: seq<Entry>): (r: seq<Target>)
    ensures Distinct(r)
    ensures forall t :: t in r <==> t in Hits(entries) && t !in animated
  {
    if |entries| == 0 then []
    else
      var init := entries[..|entries| - 1];
      var e := entries[|entries| - 1];
      var prev := FirstStarts(animated, init);
      if e.isIntersecting && e.target !in animated + Hits(init) then prev + [e.target] else prev
  }

  /** Entries, intersecting or not, for elements already animated start nothing. */
  lemma AnimatedNeverRestart(animated: set<Target>, entries: seq<Entry>)
    requires forall k :: 0 <= k < |entries| ==> entries[k].target in animated
    ensures FirstStarts(animated, entries) == []
  {
  }

  /** The counter observer's callback, with `animateValue` recorded as the
      list of elements it was started on. */
  class CounterTrigger {
    /** Elements with the class `animated`. */
    var animated: set<Target>
    /** Elements handed to `animateValue`, in call order. */
    var started: seq<Target>

    /** Every animation started belongs to an element marked `animated`, every
        marked element had its animation started, and none was started twice. */
    ghost predicate Valid()
      reads this
    {
      Distinct(started) && forall t :: t in started <==> t in animated
    }

    constructor ()
      ensures Valid() && animated == {} && started == []
    {
      animated := {};
      started := [];
    }

    method OnEntries(entries: seq<Entry>)
      requires Valid()
      modifies this
      ensures Valid()
      ensures animated == old(animated) + Hits(entries)
      ensures started == old(started) + FirstStarts(old(animated), entries)
    {
      for k := 0 to |entries|
        invariant Valid()
        invariant animated == old(animated) + Hits(entries[..k])
        invariant started == old(started) + FirstStarts(old(animated), entries[..k])
      {
        assert entries[..k + 1][..k] == entries[..k];
        var e := entries[k];
        if e.isIntersecting && e.target !in animated {
          animated := animated + {e.target};
          started := started + [e.target];
        }
      }
      assert entries[..|entries|] == entries;
    }
  }

  lemma UpdateAfterUnion<K, V>(a: map<K, V>, b: map<K, V>, k: K, v: V)
    ensures (a + b)[k := v] == a + b[k := v]
  {
  }

  /** The lazy image observer's callback. */
  class LazyImages {
    /** The `data-src` attribute of each image that has one. */
    const dataSrc: map<Target, string>
    /** The `src` attribute of each image that has one. */
    var src: map<Target, string>
    /** Images with the class `loaded`. */
    var loaded: set<Target>
    /** Images the observer still watches. */
    var observed: set<Target>

    /** `img.dataset.src` is truthy: present and not empty. */
    predicate HasDeferredSource(t: Target) {
      t in dataSrc && dataSrc[t] != ""
    }

    /** The images one batch loads: the intersecting ones with a deferred source. */
    function Loaded(entries: seq<Entry>): (r: set<Target>)
      ensures r <= Hits(entries)
      ensures forall t :: t in r ==> HasDeferredSource(t)
    {
      if |entries| == 0 then {}
      else
        var e := entries[|entries| - 1];
        Loaded(entries[..|entries| - 1]) + (if e.isIntersecting && HasDeferredSource(e.target) then {e.target} else {})
    }

    /** The `src` changes one batch makes: each loaded image gets its deferred source. */
    function Loads(entries: seq<Entry>): (m: map<Target, string>)
      ensures m.Keys == Loaded(entries)
      ensures forall t :: t in m ==> m[t] == dataSrc[t]
    {
      if |entries| == 0 then map[]
      else
        var e := entries[|entries| - 1];
        var prev := Loads(entries[..|entries| - 1]);
        if e.isIntersecting && HasDeferredSource(e.target) then prev[e.target := dataSrc[e.target]] else prev
    }

    /** Every intersecting image with a deferred source is loaded. */
    lemma {:induction false} LoadedComplete(entries: seq<Entry>)
      ensures Loaded(entries) == set t | t in Hits(entries) && HasDeferredSource(t)
    {
      if |entries| > 0 {
        LoadedComplete(entries[..|entries| - 1]);
      }
    }

    /** An entry that loads its image extends the batch's loads by that image. */
    lemma LoadsHit(entries: seq<Entry>, k: nat)
      requires k < |entries| && entries[k].isIntersecting && HasDeferredSource(entries[k].target)
      ensures Loaded(entries[..k + 1]) == Loaded(entries[..k]) + {entries[k].target}
      ensures Loads(entries[..k + 1]) == Loads(entries[..k])[entries[k].target := dataSrc[entries[k].target]]
    {
      assert entries[..k + 1][..k] == entries[..k];
    }

    /** Any other entry leaves them as they were. */
    lemma LoadsMiss(entries: seq<Entry>, k: nat)
      requires k < |entries| && !(entries[k].isIntersecting && HasDeferredSource(entries[k].target))
      ensures Loaded(entries[..k + 1]) == Loaded(entries[..k])
      ensures Loads(entries[..k + 1]) == Loads(entries[..k])
    {
      assert entries[..k + 1][..k] == entries[..k];
    }

    /** A `loaded` image shows its deferred source. */
    ghost predicate Valid()
      reads this
    {
      forall t :: t in loaded ==> HasDeferredSource(t) && t in src && src[t] == dataSrc[t]
    }

    /** Every image carrying `data-src` is observed. */
    constructor (deferred: map<Target, string>, initialSrc: map<Target, string>)
      ensures Valid()
      ensures dataSrc == deferred && src == initialSrc && loaded == {} && observed == deferred.Keys
    {
      dataSrc := deferred;
      src := initialSrc;
      loaded := {};
      observed := deferred.Keys;
    }

    /** The arrow function run for one entry. */
    method Visit(e: Entry)
      requires Valid()
      modifies this
      ensures Valid()
      ensures e.isIntersecting && HasDeferredSource(e.target) ==>
        src == old(src)[e.target := dataSrc[e.target]] && loaded == old(loaded) + {e.target}
      ensures !(e.isIntersecting && HasDeferredSource(e.target)) ==>
        src == old(src) && loaded == old(loaded)
      ensures observed == if e.isIntersecting then old(observed) - {e.target} else old(observed)
    {
      if e.isIntersecting {
        var img := e.target;
        if img in dataSrc && dataSrc[img] != "" {
          src := src[img := dataSrc[img]];
          loaded := loaded + {img};
        }
        observed := observed - {img};
      }
    }

    /** Each intersecting image gets its deferred source and the class
        `loaded` when it has a deferred source, and is unobserved either way;
        other entries change nothing. */
    method OnEntries(entries: seq<Entry>)
      requires Valid()
      modifies this
      ensures Valid()
      ensures src == old(src) + Loads(entries)
      ensures loaded == old(loaded) + Loaded(entries)
      ensures observed == old(observed) - Hits(entries)
    {
      for k := 0 to |entries|
        invariant Valid()
        invariant src == old(src) + Loads(entries[..k])
        invariant loaded == old(loaded) + Loaded(entries[..k])
        invariant observed == old(observed) - Hits(entries[..k])
      {
        var e := entries[k];
        HitsSnoc(entries, k);
        if e.isIntersecting && HasDeferredSource(e.target) {
          LoadsHit(entries, k);
          UpdateAfterUnion(old(src), Loads(entries[..k]), e.target, dataSrc[e.target]);
        } else {
          LoadsMiss(entries, k);
        }
        Visit(e);
      }
      assert entries[..|entries|] == entries;
    }
  }
}
