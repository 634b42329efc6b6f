/**
 * The part of `main` that runs once the events are in hand: an empty feed
 * reports that there is no activity; otherwise the events are grouped by
 * type and every group is rendered, in key order.
 *
 * The lemmas here describe the whole report in terms of the events alone:
 * which lines it holds and how many.
 */
module Pipeline {
  import opened Wrappers
  import opened Seqs
  import opened AssocList
  import opened Events
  import opened Formatters
  import opened Grouping
  import opened Render

  /** The message printed for an empty feed. */
  const NoActivityMessage: string := "No activity found for this user."

  /** What a run prints: the no-activity message, or the report lines. */
  datatype Outcome = NoActivity | Report(lines: seq<string>)

  /** The outcome for a feed of events. */
  function ActivityReport(es: seq<Event>): (o: Outcome)
    ensures o.NoActivity? <==> |es| == 0
  {
    if |es| == 0 then NoActivity else Report(ReportLines(GroupSpec(es)))
  }

  /** The tail of `main`: the empty check, `getEventsByType`, then the dispatch loop. */
  method ShowActivity(es: seq<Event>) returns (o: Outcome)
    ensures o == ActivityReport(es)
  {
    if |es| == 0 {
      return NoActivity;
    }
    var groups := GetEventsByType(es);
    var lines := RenderReport(groups);
    o := Report(lines);
  }

  // ---------------------------------------------------------------------------
  // Shorthands for the events of each recognised tag

  function PushRowsOf(es: seq<Event>): seq<PushRow> {
    PushRows(OfKind(es, PushTag))
  }

  function CreateRowsOf(es: seq<Event>): seq<CreateRow> {
    CreateRows(OfKind(es, CreateTag))
  }

  // ---------------------------------------------------------------------------
  // Every expected line is in the report

  /** The group under a recognised tag of the feed sits at some position of the result, and is rendered. */
  lemma GroupAt(es: seq<Event>, t: string) returns (k: nat)
    requires t in Types(es) && HasFormatter(t)
    ensures var groups := GroupSpec(es);
      k < |groups| && groups[k] == (t, FormatGroup(t, OfKind(es, t))) && HasRenderer(t)
  {
    GroupKeys(es);
    GroupContents(es, t);
    k := KeyIndex(GroupSpec(es), t);
  }

  /** A tag whose filter keeps some event occurs among the types. */
  lemma KindPresent(es: seq<Event>, t: string, j: nat)
    requires j < |OfKind(es, t)|
    ensures t in Types(es)
  {
    var ev := OfKind(es, t)[j];
    assert ev in OfKind(es, t);
    var i :| 0 <= i < |es| && es[i] == ev;
    assert Types(es)[i] == t;
  }

  /** The watch line of each watch event of the feed is in the report. */
  lemma WatchEventReported(es: seq<Event>, i: nat)
    requires i < |es| && es[i].kind == WatchTag
    ensures ActivityReport(es).Report? && WatchLine(WatchRowOf(es[i])) in ActivityReport(es).lines
  {
    var watches := OfKind(es, WatchTag);
    assert es[i] in watches;
    var j :| 0 <= j < |watches| && watches[j] == es[i];
    KindPresent(es, WatchTag, j);
    var k := GroupAt(es, WatchTag);
    assert WatchLines(FormatWatch(watches))[j] == WatchLine(WatchRowOf(es[i]));
    ReportContainsGroup(GroupSpec(es), k, WatchLine(WatchRowOf(es[i])));
  }

  /**
   * Each repository pushed to is reported by one line carrying the number of
   * pushes to it and the type and actor of the last of them.
   */
  lemma PushRepoReported(es: seq<Event>, n: string)
    requires n in PushRepoNames(PushRowsOf(es))
    ensures ActivityReport(es).Report?
    ensures PushLine(n, PushEntryFor(PushRowsOf(es), n)) in ActivityReport(es).lines
  {
    var rows := PushRowsOf(es);
    var r := PushRepoNamesIndex(rows, n);
    KindPresent(es, PushTag, r);
    var k := GroupAt(es, PushTag);
    PushLineInGroup(rows, n);
    ReportContainsGroup(GroupSpec(es), k, PushLine(n, PushEntryFor(rows, n)));
  }

  /** A position of `n` among the repository names of `rows`. */
  lemma PushRepoNamesIndex(rows: seq<PushRow>, n: string) returns (j: nat)
    requires n in PushRepoNames(rows)
    ensures j < |rows| && rows[j].repoName == n
  {
    j :| 0 <= j < |rows| && PushRepoNames(rows)[j] == n;
  }

  /** The push renderer prints the aggregate of every repository pushed to. */
  lemma PushLineInGroup(rows: seq<PushRow>, n: string)
    requires n in PushRepoNames(rows)
    ensures PushLine(n, PushEntryFor(rows, n)) in PushLines(PushFold(rows))
  {
    var acc := PushFold(rows);
    PushFoldLookup(rows, n);
    var j := KeyIndex(acc, n);
    assert PushLines(acc)[j] == PushLine(n, PushEntryFor(rows, n));
  }

  /** Each repository created is reported by one line for its first create event. */
  lemma CreateRepoReported(es: seq<Event>, n: string)
    requires n in CreateRepoNames(CreateRowsOf(es))
    ensures ActivityReport(es).Report?
    ensures CreateLine(CreateRowsOf(es)[FirstIndex(CreateRepoNames(CreateRowsOf(es)), n)]) in ActivityReport(es).lines
  {
    var rows := CreateRowsOf(es);
    KindPresent(es, CreateTag, FirstIndex(CreateRepoNames(rows), n));
    var k := GroupAt(es, CreateTag);
    CreateLineInGroup(rows, n);
    ReportContainsGroup(GroupSpec(es), k, CreateLine(rows[FirstIndex(CreateRepoNames(rows), n)]));
  }

  /** The create renderer prints the first create row of every repository created. */
  lemma CreateLineInGroup(rows: seq<CreateRow>, n: string)
    requires n in CreateRepoNames(rows)
    ensures CreateLine(rows[FirstIndex(CreateRepoNames(rows), n)]) in CreateLines(CreateFirsts(rows))
  {
    CreateFoldSummary(rows);
    var acc := CreateFold(rows);
    var j := KeyIndex(acc, n);
    assert CreateLines(Values(acc))[j] == CreateLine(rows[FirstIndex(CreateRepoNames(rows), n)]);
  }

  // ---------------------------------------------------------------------------
  // Every line of the report is an expected one

  /** A line of the report is one of the lines the three lemmas above promise. */
  lemma ReportLineExpected(es: seq<Event>, line: string)
    requires ActivityReport(es).Report? && line in ActivityReport(es).lines
    ensures || (exists i :: 0 <= i < |es| && es[i].kind == WatchTag && line == WatchLine(WatchRowOf(es[i])))
            || (exists n :: n in PushRepoNames(PushRowsOf(es)) && line == PushLine(n, PushEntryFor(PushRowsOf(es), n)))
            || (exists n :: n in CreateRepoNames(CreateRowsOf(es))
                  && line == CreateLine(CreateRowsOf(es)[FirstIndex(CreateRepoNames(CreateRowsOf(es)), n)]))
  {
    var groups := GroupSpec(es);
    var k := ReportLineOrigin(groups, line);
    var t := groups[k].0;
    GroupKeys(es);
    assert t in Keys(groups);
    LookupAt(groups, k);
    GroupContents(es, t);
    if t == PushTag {
      var n := PushLineOrigin(PushRowsOf(es), line);
    } else if t == WatchTag {
      var i := WatchLineOrigin(es, line);
    } else {
      var n := CreateLineOrigin(CreateRowsOf(es), line);
    }
  }

  lemma PushLineOrigin(rows: seq<PushRow>, line: string) returns (n: string)
    requires line in PushLines(PushFold(rows))
    ensures n in PushRepoNames(rows) && line == PushLine(n, PushEntryFor(rows, n))
  {
    var acc := PushFold(rows);
    var j :| 0 <= j < |acc| && PushLines(acc)[j] == line;
    n := acc[j].0;
    PushKeys(rows);
    assert n in Keys(acc);
    LookupAt(acc, j);
    PushFoldLookup(rows, n);
  }

  lemma WatchLineOrigin(es: seq<Event>, line: string) returns (i: nat)
    requires line in WatchLines(FormatWatch(OfKind(es, WatchTag)))
    ensures i < |es| && es[i].kind == WatchTag && line == WatchLine(WatchRowOf(es[i]))
  {
    var watches := OfKind(es, WatchTag);
    var j :| 0 <= j < |watches| && WatchLines(FormatWatch(watches))[j] == line;
    assert watches[j] in watches;
    i :| 0 <= i < |es| && es[i] == watches[j];
  }

  lemma CreateLineOrigin(rows: seq<CreateRow>, line: string) returns (n: string)
    requires line in CreateLines(CreateFirsts(rows))
    ensures n in CreateRepoNames(rows) && line == CreateLine(rows[FirstIndex(CreateRepoNames(rows), n)])
  {
    var firsts := CreateFirsts(rows);
    var j :| 0 <= j < |firsts| && CreateLines(firsts)[j] == line;
    CreateFirstWins(rows);
    n := firsts[j].repoName;
  }

  // ---------------------------------------------------------------------------
  // How many lines

  /** Lines the renderer prints for the group of tag `t`. */
  function TagLineCount(es: seq<Event>, t: string): nat
    requires HasFormatter(t)
  {
    |GroupLines(FormatGroup(t, OfKind(es, t)))|
  }

  /** Lines printed for the recognised tags among `tags`. */
  function LineCountFor(es: seq<Event>, tags: seq<string>): nat {
    if tags == [] then 0
    else
      var t := tags[|tags| - 1];
      LineCountFor(es, tags[..|tags| - 1]) + if HasFormatter(t) then TagLineCount(es, t) else 0
  }

  /** Over repetition-free tags, the groups are rendered one after the other, each once. */
  lemma {:induction false} ReportOfGroupsFor(es: seq<Event>, tags: seq<string>)
    requires Distinct(tags)
    ensures |ReportLines(GroupsFor(es, tags))| == LineCountFor(es, tags)
  {
    if tags != [] {
      var p, t := tags[..|tags| - 1], tags[|tags| - 1];
      ReportOfGroupsFor(es, p);
      if HasFormatter(t) {
        var acc := GroupsFor(es, p);
        GroupsForKeys(es, p);
        assert t !in Keys(acc);
        var g := (t, FormatGroup(t, OfKind(es, t)));
        assert GroupsFor(es, tags) == acc + [g];
        assert (acc + [g])[..|acc|] == acc;
      }
    }
  }

  /** The count for the three tags, each counted when it occurs among `tags`. */
  function CountOfPresent(es: seq<Event>, tags: seq<string>): nat {
    (if PushTag in tags then TagLineCount(es, PushTag) else 0)
    + (if WatchTag in tags then TagLineCount(es, WatchTag) else 0)
    + (if CreateTag in tags then TagLineCount(es, CreateTag) else 0)
  }

  /** Over repetition-free tags, each of the three recognised tags contributes its count once. */
  lemma {:induction false} LineCountForPresent(es: seq<Event>, tags: seq<string>)
    requires Distinct(tags)
    ensures LineCountFor(es, tags) == CountOfPresent(es, tags)
  {
    if tags != [] {
      var p, t := tags[..|tags| - 1], tags[|tags| - 1];
      assert tags == p + [t];
      LineCountForPresent(es, p);
    }
  }

  /** A tag that does not occur in the feed has an empty group, which prints nothing. */
  lemma AbsentTagPrintsNothing(es: seq<Event>, t: string)
    requires HasFormatter(t) && t !in Types(es)
    ensures TagLineCount(es, t) == 0
  {
    HeadIsMember(OfKind(es, t));
  }

  /** The push group prints one line per distinct repository pushed to. */
  lemma PushLineCount(es: seq<Event>)
    ensures TagLineCount(es, PushTag) == |Dedup(PushRepoNames(PushRowsOf(es)))|
  {
    PushFoldKeys(PushRowsOf(es));
  }

  /** The watch group prints one line per watch event. */
  lemma WatchLineCount(es: seq<Event>)
    ensures TagLineCount(es, WatchTag) == |OfKind(es, WatchTag)|
  {
  }

  /** The create group prints one line per distinct repository created. */
  lemma CreateLineCount(es: seq<Event>)
    ensures TagLineCount(es, CreateTag) == |Dedup(CreateRepoNames(CreateRowsOf(es)))|
  {
    CreateFoldSummary(CreateRowsOf(es));
  }

  /** Summed over the distinct tags of the feed, the counts are those of the three recognised tags. */
  lemma PresentCount(es: seq<Event>)
    ensures CountOfPresent(es, Dedup(Types(es)))
            == TagLineCount(es, PushTag) + TagLineCount(es, WatchTag) + TagLineCount(es, CreateTag)
  {
    if PushTag !in Types(es) { AbsentTagPrintsNothing(es, PushTag); }
    if WatchTag !in Types(es) { AbsentTagPrintsNothing(es, WatchTag); }
    if CreateTag !in Types(es) { AbsentTagPrintsNothing(es, CreateTag); }
  }

  /**
   * The report has exactly one line per distinct repository pushed to, one per
   * watch event and one per distinct repository created.
   */
  lemma ReportLineCount(es: seq<Event>)
    requires es != []
    ensures |ActivityReport(es).lines|
            == |Dedup(PushRepoNames(PushRowsOf(es)))| + |OfKind(es, WatchTag)| + |Dedup(CreateRepoNames(CreateRowsOf(es)))|
  {
    var tags := Dedup(Types(es));
    ReportOfGroupsFor(es, tags);
    LineCountForPresent(es, tags);
    PresentCount(es);
    PushLineCount(es);
    WatchLineCount(es);
    CreateLineCount(es);
  }

  // ---------------------------------------------------------------------------
  // Worked examples

  /** An empty feed prints only the no-activity message. */
  lemma EmptyFeedExample()
    ensures ActivityReport([]) == NoActivity
  {
  }

  /** A single watch event of a public repository in an organisation. */
  lemma WatchExample()
    ensures ActivityReport([Event("WatchEvent", "u", "x/y", true, "acme", "started", "main", None)])
            == Report(["- WatchEvent: started public x/y by acme"])
  {
    var e := Event("WatchEvent", "u", "x/y", true, "acme", "started", "main", None);
    WatchExampleGroups(e);
    var w := WatchRow("WatchEvent", "x/y", "started", true, "acme");
    SingleGroupReport(WatchTag, WatchGroup([w]));
    WatchExampleLine(w);
  }

  lemma WatchExampleLine(w: WatchRow)
    requires w == WatchRow("WatchEvent", "x/y", "started", true, "acme")
    ensures GroupLines(WatchGroup([w])) == ["- WatchEvent: started public x/y by acme"]
  {
    WatchExampleText();
    assert WatchLines([w]) == [WatchLine(w)];
  }

  lemma WatchExampleText()
    ensures WatchLine(WatchRow("WatchEvent", "x/y", "started", true, "acme")) == "- WatchEvent: started public x/y by acme"
  {
  }

  /** A result with one rendered group prints that group's lines. */
  lemma SingleGroupReport(tag: string, g: Formatted)
    requires HasRenderer(tag)
    ensures ReportLines([(tag, g)]) == GroupLines(g)
  {
    assert [(tag, g)][..0] == [];
  }

  lemma WatchExampleGroups(e: Event)
    requires e == Event("WatchEvent", "u", "x/y", true, "acme", "started", "main", None)
    ensures GroupSpec([e]) == [(WatchTag, WatchGroup([WatchRow("WatchEvent", "x/y", "started", true, "acme")]))]
  {
    assert Types([e]) == [WatchTag];
    assert Dedup([WatchTag]) == [WatchTag] by { assert [WatchTag][..0] == []; }
    assert OfKind([e], WatchTag) == [e] by { assert [e][..0] == []; }
    var g := WatchGroup([WatchRowOf(e)]);
    assert FormatGroup(WatchTag, [e]) == g by { assert FormatWatch([e]) == [WatchRowOf(e)]; }
    assert GroupsFor([e], [WatchTag]) == Put([], WatchTag, g) by { assert [WatchTag][..0] == []; }
    assert Put([], WatchTag, g) == [(WatchTag, g)] by { assert Keys<Formatted>([]) == []; }
  }

  /** Two pushes to one repository: one line, counting both, naming the later actor. */
  lemma PushExample()
    ensures ActivityReport([Event("PushEvent", "u1", "a/b", true, "", "", "", None),
                            Event("PushEvent", "u2", "a/b", true, "", "", "", None)])
            == Report(["- PushEvent: 2 commits to a/b by u2"])
  {
    var e1 := Event("PushEvent", "u1", "a/b", true, "", "", "", None);
    var e2 := Event("PushEvent", "u2", "a/b", true, "", "", "", None);
    PushExampleReport(e1, e2);
  }

  lemma PushExampleReport(e1: Event, e2: Event)
    requires e1 == Event("PushEvent", "u1", "a/b", true, "", "", "", None)
    requires e2 == Event("PushEvent", "u2", "a/b", true, "", "", "", None)
    ensures ActivityReport([e1, e2]) == Report(["- PushEvent: 2 commits to a/b by u2"])
  {
    var es := [e1, e2];
    PushExampleRows(e1, e2);
    ReportLineCount(es);
    PushRepoReported(es, "a/b");
    PushExampleText();
    OneLineReport(ActivityReport(es), "- PushEvent: 2 commits to a/b by u2");
  }

  /** A report of one line that holds `line` is exactly that line. */
  lemma OneLineReport(o: Outcome, line: string)
    requires o.Report? && |o.lines| == 1 && line in o.lines
    ensures o == Report([line])
  {
  }

  /** The filter on a two-event feed. */
  lemma OfKindPair(e1: Event, e2: Event, t: string)
    ensures OfKind([e1, e2], t) == (if e1.kind == t then [e1] else []) + (if e2.kind == t then [e2] else [])
  {
    OfKindAppend([e1], [e2], t);
    OfKindSingle(e1, t);
    OfKindSingle(e2, t);
    assert [e1] + [e2] == [e1, e2];
  }

  lemma PushExampleRows(e1: Event, e2: Event)
    requires e1 == Event("PushEvent", "u1", "a/b", true, "", "", "", None)
    requires e2 == Event("PushEvent", "u2", "a/b", true, "", "", "", None)
    ensures var rows := PushRowsOf([e1, e2]);
      && PushRepoNames(rows) == ["a/b", "a/b"]
      && PushEntryFor(rows, "a/b") == PushEntry("PushEvent", "u2", 2)
      && |Dedup(PushRepoNames(rows))| == 1
    ensures OfKind([e1, e2], WatchTag) == [] && CreateRowsOf([e1, e2]) == []
  {
    var es := [e1, e2];
    OfKindPair(e1, e2, PushTag);
    OfKindPair(e1, e2, WatchTag);
    OfKindPair(e1, e2, CreateTag);
    var rows := PushRowsOf(es);
    assert PushRepoNames(rows) == ["a/b", "a/b"];
    var names := PushRepoNames(rows);
    assert names[..1] == ["a/b"] && ["a/b"][..0] == [];
    assert LastIndex(names, "a/b") == 1;
    assert Multiplicity(names, "a/b") == 2;
  }

  lemma PushExampleText()
    ensures PushLine("a/b", PushEntry("PushEvent", "u2", 2)) == "- PushEvent: 2 commits to a/b by u2"
  {
  }

}
