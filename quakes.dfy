/**
 * Seismic events of the USGS feed and the magnitude filter of
 * `buscar_terremotos`: walk the feed's events in order, keep those whose
 * magnitude reaches the threshold and count them.
 */
module Quakes {

  /**
   * One feature of the feed. `lon`, `lat` and `depth` are the three entries of
   * `geometry.coordinates`, in that order (a GeoJSON position, section 3.1.1
   * of RFC 7946); `time` is epoch milliseconds; magnitudes and coordinates are
   * reals instead of floats.
   */
  datatype Event = Event(
    mag: real,
    place: string,
    time: int,
    url: string,
    lon: real,
    lat: real,
    depth: real)

  /** `magnitudeMinima`, the threshold the script runs with. */
  const DefaultThreshold: real := 4.5

  /** The filter's test; the boundary is inclusive. */
  predicate Qualifies(e: Event, threshold: real) {
    e.mag >= threshold
  }

  /** The events the filter keeps, defined left to right as the loop appends them. */
  function Kept(events: seq<Event>, threshold: real): (kept: seq<Event>)
    ensures |kept| <= |events|
    ensures forall e :: e in kept ==> e in events && Qualifies(e, threshold)
    decreases |events|
  {
    if events == [] then []
    else
      var last := events[|events| - 1];
      Kept(events[..|events| - 1], threshold) + (if Qualifies(last, threshold) then [last] else [])
  }

  predicate StrictlyIncreasing(ix: seq<nat>) {
    forall j, k :: 0 <= j < k < |ix| ==> ix[j] < ix[k]
  }

  /** The positions of the qualifying events, in ascending order. */
  function QualifyingIndices(events: seq<Event>, threshold: real): (ix: seq<nat>)
    ensures StrictlyIncreasing(ix)
    ensures forall j :: 0 <= j < |ix| ==> ix[j] < |events|
    ensures forall i :: 0 <= i < |events| ==> (i in ix <==> Qualifies(events[i], threshold))
    decreases |events|
  {
    if events == [] then []
    else
      var n := |events| - 1;
      QualifyingIndices(events[..n], threshold) + (if Qualifies(events[n], threshold) then [n] else [])
  }

  /**
   * The kept list is exactly the qualifying events in their original relative
   * order: its j-th element is the event at the j-th qualifying position.
   */
  lemma {:induction false} KeptIsOrderedSelection(events: seq<Event>, threshold: real)
    ensures |Kept(events, threshold)| == |QualifyingIndices(events, threshold)|
    ensures forall j :: 0 <= j < |Kept(events, threshold)| ==>
      Kept(events, threshold)[j] == events[QualifyingIndices(events, threshold)[j]]
    decreases |events|
  {
    if events != [] {
      var n := |events| - 1;
      KeptIsOrderedSelection(events[..n], threshold);
    }
  }

  /** An event whose magnitude equals the threshold is kept. */
  lemma ThresholdIsInclusive(events: seq<Event>, threshold: real, i: nat)
    requires i < |events| && events[i].mag == threshold
    ensures events[i] in Kept(events, threshold)
  {
    KeptIsOrderedSelection(events, threshold);
    var ix := QualifyingIndices(events, threshold);
    var j :| 0 <= j < |ix| && ix[j] == i;
    assert Kept(events, threshold)[j] == events[i];
  }

  /** Nothing is kept exactly when no event reaches the threshold. */
  lemma {:induction false} KeptEmptyIff(events: seq<Event>, threshold: real)
    ensures Kept(events, threshold) == [] <==> forall e :: e in events ==> !Qualifies(e, threshold)
    decreases |events|
  {
    if events != [] {
      var n := |events| - 1;
      KeptEmptyIff(events[..n], threshold);
      assert events == events[..n] + [events[n]];
    }
  }

  /**
   * The loop of `buscar_terremotos` (main.py:80-98): `tremores_para_kml` collects
   * the qualifying events and `contador` counts them.
   */
  method FilterByMagnitude(events: seq<Event>, threshold: real) returns (kept: seq<Event>, count: nat)
    ensures kept == Kept(events, threshold)
    ensures count == |kept|
  {
    count := 0;
    kept := [];
    for i := 0 to |events|
      invariant kept == Kept(events[..i], threshold)
      invariant count == |kept|
    {
      assert events[..i + 1][..i] == events[..i];
      if events[i].mag >= threshold {
        count := count + 1;
        kept := kept + [events[i]];
      }
    }
    assert events[..|events|] == events;
  }
}
