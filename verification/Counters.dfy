/** Event counts by dotted prefix. */
module Counters {

  const DOT: char := '.'

  /** The position of the first dot at or after start, or the length. */
  function NextDot(name: string, start: nat): (pos: nat)
    requires start <= |name|
    ensures start <= pos <= |name| && (pos < |name| ==> name[pos] == DOT)
    ensures forall k :: start <= k < pos ==> name[k] != DOT
    decreases |name| - start
  {
    if start == |name| || name[start] == DOT then start else NextDot(name, start + 1)
  }

  /** p is a prefix of the name that ends at a dot or at the end, and its last segment is not empty. */
  predicate CountsFor(p: string, name: string) {
    && p != [] && p <= name
    && (|p| == |name| || name[|p|] == DOT)
    && p[|p| - 1] != DOT
  }

  /** How many events of a history count for p. */
  function Occurrences(history: seq<string>, p: string): nat {
    if history == [] then 0
    else Occurrences(history[..|history| - 1], p) + (if CountsFor(p, history[|history| - 1]) then 1 else 0)
  }

  class EventCounter {
    var counts: map<string, nat>
    ghost var history: seq<string>

    ghost predicate Valid()
      reads this
    {
      && (forall p :: p in counts <==> Occurrences(history, p) > 0)
      && (forall p :: p in counts ==> counts[p] == Occurrences(history, p))
    }

    constructor ()
      ensures Valid() && history == []
    {
      counts, history := map[], [];
    }

    /** Counts the event for each of its dotted prefixes. */
    method Increment(eventName: string)
      requires Valid()
      modifies this
      ensures Valid() && history == old(history) + [eventName]
    {
      hide CountsFor, Occurrences;
      ghost var was := counts;
      var start := 0;
      var first := true;
      while first || start < |eventName|
        invariant history == old(history)
        invariant 0 <= start <= |eventName| + 1 && (first ==> start == 0) && (!first ==> start > 0)
        invariant start > 0 && start <= |eventName| ==> eventName[start - 1] == DOT
        invariant forall p :: p in counts <==> p in was || (CountsFor(p, eventName) && |p| < start)
        invariant forall p :: p in counts ==>
          counts[p] == (if p in was then was[p] else 0) + (if CountsFor(p, eventName) && |p| < start then 1 else 0)
        decreases first, |eventName| + 1 - start
      {
        first := false;
        var pos := NextDot(eventName, start);
        ghost var before := start;
        if pos != start {
          var prefix := eventName[..pos];
          SegmentCounts(eventName, start, pos);
          if prefix in counts {
            counts := counts[prefix := counts[prefix] + 1];
          } else {
            counts := counts[prefix := 1];
          }
        }
        start := pos + 1;
        OnlyAtDots(eventName, before, pos);
      }
      assert forall p :: CountsFor(p, eventName) ==> |p| < start by {
        PastTheEnd(eventName, start);
      }
      history := history + [eventName];
      OneMoreEvent(old(history), eventName);
    }

    /** The number of events so far of which the name is a counted prefix. */
    method GetCount(eventName: string) returns (n: nat)
      requires Valid()
      ensures n == Occurrences(history, eventName)
    {
      if eventName == [] {
        NothingIsNoPrefix(history);
        return 0;
      }
      if eventName in counts { return counts[eventName]; }
      n := 0;
    }
  }

  /** An event counts for itself and for what stands before a dot in it, unless a dot ends that. */
  lemma CountsUpToDots(p: string, name: string)
    ensures CountsFor(p, name) <==> p != "" && p[|p| - 1] != '.' && (name == p || p + "." <= name)
  {
    if p + "." <= name { assert (p + ".")[..|p|] == p; }
    if p <= name && |p| < |name| { assert p + "." <= name <==> name[|p|] == '.'; }
  }

  lemma SegmentCounts(name: string, start: nat, pos: nat)
    requires start <= |name| && pos == NextDot(name, start) && pos != start
    ensures CountsFor(name[..pos], name)
  {
  }

  lemma OneMoreEvent(history: seq<string>, name: string)
    ensures forall p :: Occurrences(history + [name], p) == Occurrences(history, p) + (if CountsFor(p, name) then 1 else 0)
  {
    hide CountsFor;
    assert (history + [name])[..|history|] == history;
  }

  // Between a segment's start and the dot after it, only the whole segment ends a counted prefix.
  lemma OnlyAtDots(name: string, start: nat, pos: nat)
    requires start <= |name| && (start > 0 ==> name[start - 1] == DOT) && pos == NextDot(name, start)
    ensures forall p :: CountsFor(p, name) && start <= |p| <= pos ==> p == name[..pos] && pos != start
  {
    forall p | CountsFor(p, name) && start <= |p| <= pos ensures p == name[..pos] && pos != start {
      assert |p| == |name| || name[|p|] == DOT;
      assert p[|p| - 1] == name[|p| - 1];
    }
  }

  // Nothing counted ends at a dot or beyond the name.
  lemma PastTheEnd(name: string, start: nat)
    requires start >= |name| && start > 0 && (start <= |name| ==> name[start - 1] == DOT)
    ensures forall p :: CountsFor(p, name) ==> |p| < start
  {
    forall p | CountsFor(p, name) ensures |p| < start {
      assert p[|p| - 1] == name[|p| - 1];
    }
  }

  lemma {:induction false} NothingIsNoPrefix(history: seq<string>)
    ensures Occurrences(history, []) == 0
  {
    if history != [] { NothingIsNoPrefix(history[..|history| - 1]); }
  }
}
