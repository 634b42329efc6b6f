/**
 * `getEventsByType`: the events are grouped by their type tag. Each distinct
 * tag that has a formatter, taken in order of first occurrence, maps to its
 * formatter's output on the events of that tag. Tags without a formatter are
 * skipped.
 */
module Grouping {
  import opened Wrappers
  import opened Seqs
  import opened AssocList
  import opened Events
  import opened Formatters

  /** `dataEvents.map((event) => event.type)`. */
  function Types(es: seq<Event>): (ts: seq<string>)
    ensures |ts| == |es|
    ensures forall i :: 0 <= i < |es| ==> ts[i] == es[i].kind
  {
    seq(|es|, i requires 0 <= i < |es| => es[i].kind)
  }

  lemma TypesSnoc(es: seq<Event>)
    requires es != []
    ensures Types(es) == Types(es[..|es| - 1]) + [es[|es| - 1].kind]
  {
  }

  /** `dataEvents.filter((event) => event.type === t)`: the events of tag `t`, in feed order. */
  function OfKind(es: seq<Event>, t: string): (r: seq<Event>)
    ensures forall e :: e in r <==> e in es && e.kind == t
  {
    if es == [] then []
    else
      var p, e := es[..|es| - 1], es[|es| - 1];
      assert es == p + [e];
      if e.kind == t then OfKind(p, t) + [e] else OfKind(p, t)
  }

  /** The tags of `tags` that have a formatter, in their order. */
  function Recognised(tags: seq<string>): (r: seq<string>)
    ensures forall t :: t in r <==> t in tags && HasFormatter(t)
  {
    if tags == [] then []
    else
      var p, t := tags[..|tags| - 1], tags[|tags| - 1];
      assert tags == p + [t];
      if HasFormatter(t) then Recognised(p) + [t] else Recognised(p)
  }

  /**
   * The loop of `getEventsByType` over `tags`, one tag at a time: a tag with a
   * formatter is stored with its formatter's output on the events of that tag.
   */
  function GroupsFor(es: seq<Event>, tags: seq<string>): seq<(string, Formatted)> {
    if tags == [] then []
    else
      var acc := GroupsFor(es, tags[..|tags| - 1]);
      var t := tags[|tags| - 1];
      if HasFormatter(t) then Put(acc, t, FormatGroup(t, OfKind(es, t))) else acc
  }

  /** What `getEventsByType(es)` returns: the loop run over the distinct tags. */
  function GroupSpec(es: seq<Event>): seq<(string, Formatted)> {
    GroupsFor(es, Dedup(Types(es)))
  }

  /** `getEventsByType`: fills the result object in place, one distinct tag at a time. */
  method GetEventsByType(es: seq<Event>) returns (groups: seq<(string, Formatted)>)
    ensures groups == GroupSpec(es)
  {
    var uniqueTypes := Dedup(Types(es));
    groups := [];
    for i := 0 to |uniqueTypes|
      invariant groups == GroupsFor(es, uniqueTypes[..i])
    {
      var t := uniqueTypes[i];
      assert uniqueTypes[..i + 1][..i] == uniqueTypes[..i];
      if !HasFormatter(t) {
        continue;
      }
      var filtered := OfKind(es, t);
      var formatted := ApplyFormatter(t, filtered);
      groups := Put(groups, t, formatted);
    }
    assert uniqueTypes[..|uniqueTypes|] == uniqueTypes;
  }

  // ---------------------------------------------------------------------------
  // The filter

  /** The filter works event by event: it distributes over concatenation. */
  lemma {:induction false} OfKindAppend(a: seq<Event>, b: seq<Event>, t: string)
    ensures OfKind(a + b, t) == OfKind(a, t) + OfKind(b, t)
  {
    if b != [] {
      var q, e := b[..|b| - 1], b[|b| - 1];
      assert (a + b)[..|a + b| - 1] == a + q;
      OfKindAppend(a, q, t);
    } else {
      assert a + b == a;
    }
  }

  /** On a single event the filter keeps it exactly when its tag is `t`. */
  lemma OfKindSingle(e: Event, t: string)
    ensures OfKind([e], t) == if e.kind == t then [e] else []
  {
    assert [e][..0] == [];
  }

  /** The filter keeps as many events as the tag occurs among the types. */
  lemma {:induction false} OfKindSize(es: seq<Event>, t: string)
    ensures |OfKind(es, t)| == Multiplicity(Types(es), t)
  {
    if es != [] {
      var p := es[..|es| - 1];
      OfKindSize(p, t);
      TypesSnoc(es);
      MultiplicitySnoc(Types(p), es[|es| - 1].kind, t);
    }
  }

  // ---------------------------------------------------------------------------
  // The recognised tags

  /** Keeping only some elements of a repetition-free list leaves it repetition-free. */
  lemma {:induction false} RecognisedDistinct(tags: seq<string>)
    requires Distinct(tags)
    ensures Distinct(Recognised(tags))
  {
    if tags != [] {
      var p := tags[..|tags| - 1];
      RecognisedDistinct(p);
    }
  }

  /** Keeping only some elements of a list in first-occurrence order keeps it in that order. */
  lemma {:induction false} RecognisedOrder(tags: seq<string>, s: seq<string>)
    requires InFirstOccurrenceOrder(tags, s)
    ensures InFirstOccurrenceOrder(Recognised(tags), s)
  {
    if tags != [] {
      var p, t := tags[..|tags| - 1], tags[|tags| - 1];
      assert InFirstOccurrenceOrder(p, s) by {
        forall i, j | 0 <= i < j < |p| ensures FirstIndex(s, p[i]) < FirstIndex(s, p[j]) {
          assert p[i] == tags[i] && p[j] == tags[j];
        }
      }
      RecognisedOrder(p, s);
      if HasFormatter(t) {
        var r := Recognised(p);
        assert Recognised(tags) == r + [t];
        forall i | 0 <= i < |r| ensures FirstIndex(s, r[i]) < FirstIndex(s, t) {
          RecognisedBeforeLast(tags, s, r[i]);
        }
      }
    }
  }

  /** A recognised tag among the older tags first occurs before the newest tag does. */
  lemma RecognisedBeforeLast(tags: seq<string>, s: seq<string>, x: string)
    requires tags != [] && InFirstOccurrenceOrder(tags, s)
    requires x in Recognised(tags[..|tags| - 1])
    ensures x in s && tags[|tags| - 1] in s
    ensures FirstIndex(s, x) < FirstIndex(s, tags[|tags| - 1])
  {
    var p := tags[..|tags| - 1];
    var k :| 0 <= k < |p| && p[k] == x;
    assert tags[k] == x;
  }

  // ---------------------------------------------------------------------------
  // What the loop builds

  /** Over repetition-free tags, the keys of the result are the recognised tags, in order. */
  lemma {:induction false} GroupsForKeys(es: seq<Event>, tags: seq<string>)
    requires Distinct(tags)
    ensures Keys(GroupsFor(es, tags)) == Recognised(tags)
  {
    if tags != [] {
      var p := tags[..|tags| - 1];
      GroupsForKeys(es, p);
    }
  }

  /** A recognised tag maps to its formatter's output on the events of that tag; no other name is a key. */
  lemma {:induction false} GroupsForLookup(es: seq<Event>, tags: seq<string>, t: string)
    ensures Lookup(GroupsFor(es, tags), t)
            == if t in tags && HasFormatter(t) then Some(FormatGroup(t, OfKind(es, t))) else None
  {
    if tags != [] {
      var p, u := tags[..|tags| - 1], tags[|tags| - 1];
      assert tags == p + [u];
      GroupsForLookup(es, p, t);
      if HasFormatter(u) {
        PutLookup(GroupsFor(es, p), u, FormatGroup(u, OfKind(es, u)), t);
      }
    }
  }

  /**
   * The keys of `getEventsByType(es)` are the distinct tags of `es` that have a
   * formatter, each once, in order of first occurrence.
   */
  lemma GroupKeys(es: seq<Event>)
    ensures Distinct(Keys(GroupSpec(es)))
    ensures forall t :: t in Keys(GroupSpec(es)) <==> t in Types(es) && HasFormatter(t)
    ensures InFirstOccurrenceOrder(Keys(GroupSpec(es)), Types(es))
  {
    var d := Dedup(Types(es));
    GroupsForKeys(es, d);
    RecognisedDistinct(d);
    DedupFirstOccurrenceOrder(Types(es));
    RecognisedOrder(d, Types(es));
  }

  /** Each group is its formatter's output on exactly the events of that tag, in feed order. */
  lemma GroupContents(es: seq<Event>, t: string)
    ensures Lookup(GroupSpec(es), t)
            == if t in Types(es) && HasFormatter(t) then Some(FormatGroup(t, OfKind(es, t))) else None
  {
    GroupsForLookup(es, Dedup(Types(es)), t);
  }

  // ---------------------------------------------------------------------------
  // Counting

  /** Number of events whose tag has a formatter. */
  function RecognisedCount(es: seq<Event>): nat {
    if es == [] then 0
    else RecognisedCount(es[..|es| - 1]) + if HasFormatter(es[|es| - 1].kind) then 1 else 0
  }

  /** Sum of the sizes of the filtered inputs of the tags in `tags`. */
  function FilteredSizes(es: seq<Event>, tags: seq<string>): nat {
    if tags == [] then 0
    else FilteredSizes(es, tags[..|tags| - 1]) + |OfKind(es, tags[|tags| - 1])|
  }

  lemma {:induction false} FilteredSizesAreMultiplicities(es: seq<Event>, tags: seq<string>)
    ensures FilteredSizes(es, tags) == TotalMultiplicity(Types(es), tags)
  {
    if tags != [] {
      FilteredSizesAreMultiplicities(es, tags[..|tags| - 1]);
      OfKindSize(es, tags[|tags| - 1]);
    }
  }

  /** When the keys are exactly the recognised tags, counting the types among them counts the recognised events. */
  lemma {:induction false} CountInRecognised(es: seq<Event>, keys: seq<string>)
    requires forall t :: t in Types(es) ==> (t in keys <==> HasFormatter(t))
    ensures CountIn(Types(es), keys) == RecognisedCount(es)
  {
    if es != [] {
      var p := es[..|es| - 1];
      TypesSnoc(es);
      assert Types(es)[..|es| - 1] == Types(p);
      CountInRecognised(p, keys);
    }
  }

  /**
   * Every event with a recognised tag reaches exactly one formatter: summed over
   * the keys of the result, the filtered inputs have as many events as there are
   * recognised events.
   */
  lemma GroupSizesSum(es: seq<Event>)
    ensures FilteredSizes(es, Keys(GroupSpec(es))) == RecognisedCount(es)
  {
    var keys := Keys(GroupSpec(es));
    GroupKeys(es);
    FilteredSizesAreMultiplicities(es, keys);
    TotalMultiplicityIsCountIn(Types(es), keys);
    CountInRecognised(es, keys);
  }

}
