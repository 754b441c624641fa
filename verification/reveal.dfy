/**
  Scroll reveal: every `.reveal` element is observed once at start-up; the
  observer's callback marks an intersecting element `revealed` and stops
  observing it. Which elements intersect, batch by batch, is an input (the
  12% threshold is viewport geometry and is not modelled).
 */
module Reveal {

  type ElementId = nat

  /** Per-element state: not yet observed, observed, or revealed (terminal). */
  datatype Phase = Unobserved | Observed | Revealed

  /** One `IntersectionObserverEntry`: its target and `isIntersecting`. */
  datatype Entry = Entry(target: ElementId, isIntersecting: bool)

  /** The `.reveal` elements of the page and the phase of each. */
  type Page = map<ElementId, Phase>

  /** Some entry of the batch reports `e` as intersecting. */
  ghost predicate Hit(entries: seq<Entry>, e: ElementId) {
    exists k :: 0 <= k < |entries| && entries[k] == Entry(e, true)
  }

  /** Start-up: `observe` is called on every `.reveal` element. An element that
      already carries `revealed` is observed too; its phase stays `Revealed`,
      since a later intersection could only add the class again. */
  function ObserveAll(p: Page): (q: Page)
    ensures q.Keys == p.Keys
    ensures forall e :: e in q ==> q[e] != Unobserved
    ensures forall e :: e in p ==> (q[e] == Revealed <==> p[e] == Revealed)
  {
    map e | e in p :: if p[e] == Revealed then Revealed else Observed
  }

  /** The observer callback on one batch of entries, taken in order: an
      intersecting target is revealed and unobserved; other entries do nothing. */
  function OnIntersection(p: Page, entries: seq<Entry>): (q: Page)
    ensures q.Keys == p.Keys
    ensures forall e :: e in p ==> q[e] == (if Hit(entries, e) then Revealed else p[e])
    decreases |entries|
  {
    if entries == [] then p
    else
      var first := entries[0];
      var p' := if first.isIntersecting && first.target in p then p[first.target := Revealed] else p;
      var q := OnIntersection(p', entries[1..]);
      assert forall e :: Hit(entries, e) <==> entries[0] == Entry(e, true) || Hit(entries[1..], e) by {
        forall e ensures Hit(entries, e) <==> entries[0] == Entry(e, true) || Hit(entries[1..], e) {
          if Hit(entries[1..], e) {
            var k :| 0 <= k < |entries[1..]| && entries[1..][k] == Entry(e, true);
            assert entries[k + 1] == Entry(e, true);
          }
          if Hit(entries, e) && entries[0] != Entry(e, true) {
            var k :| 0 <= k < |entries| && entries[k] == Entry(e, true);
            assert entries[1..][k - 1] == Entry(e, true);
          }
        }
      }
      q
  }

  /** Successive batches delivered to the callback. */
  function Deliver(p: Page, batches: seq<seq<Entry>>): (q: Page)
    ensures q.Keys == p.Keys
  {
    if batches == [] then p else Deliver(OnIntersection(p, batches[0]), batches[1..])
  }

  /** Some batch reports `e` as intersecting. */
  ghost predicate EverHit(batches: seq<seq<Entry>>, e: ElementId) {
    exists b :: 0 <= b < |batches| && Hit(batches[b], e)
  }

  /** Over any run of batches an element ends revealed exactly when it started
      revealed or some batch reported it intersecting; otherwise it keeps its phase. */
  lemma {:induction false} DeliverReveals(p: Page, batches: seq<seq<Entry>>, e: ElementId)
    requires e in p
    ensures Deliver(p, batches)[e] == (if EverHit(batches, e) then Revealed else p[e])
    decreases |batches|
  {
    if batches != [] {
      var p' := OnIntersection(p, batches[0]);
      DeliverReveals(p', batches[1..], e);
      if EverHit(batches[1..], e) {
        var b :| 0 <= b < |batches[1..]| && Hit(batches[1..][b], e);
        assert batches[b + 1] == batches[1..][b];
      }
      if EverHit(batches, e) && !Hit(batches[0], e) {
        var b :| 0 <= b < |batches| && Hit(batches[b], e);
        assert batches[1..][b - 1] == batches[b];
      }
    }
  }

  /** Reveal is terminal: no later batch changes a revealed element. */
  lemma RevealedStaysRevealed(p: Page, batches: seq<seq<Entry>>, e: ElementId)
    requires e in p && p[e] == Revealed
    ensures Deliver(p, batches)[e] == Revealed
  {
    DeliverReveals(p, batches, e);
  }

  /** The set of revealed elements only grows. */
  lemma RevealIsMonotonic(p: Page, batches: seq<seq<Entry>>)
    ensures forall e :: e in p && p[e] == Revealed ==> Deliver(p, batches)[e] == Revealed
  {
    forall e | e in p && p[e] == Revealed ensures Deliver(p, batches)[e] == Revealed {
      RevealedStaysRevealed(p, batches, e);
    }
  }

  /** After start-up no element is unobserved, and an element is revealed
      exactly when some batch has reported it intersecting. */
  lemma StartupThenDeliver(elements: set<ElementId>, batches: seq<seq<Entry>>)
    ensures var q := Deliver(ObserveAll(map e | e in elements :: Unobserved), batches);
            && q.Keys == elements
            && (forall e :: e in elements ==> (q[e] == Revealed <==> EverHit(batches, e)))
            && (forall e :: e in elements ==> q[e] != Unobserved)
  {
    var p := ObserveAll(map e | e in elements :: Unobserved);
    forall e | e in elements
      ensures Deliver(p, batches)[e] == (if EverHit(batches, e) then Revealed else Observed)
    {
      DeliverReveals(p, batches, e);
    }
  }
}
