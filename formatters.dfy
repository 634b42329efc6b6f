/**
 * The `eventFormatter` table: one formatter per recognised type tag, each
 * taking the events of that tag (in feed order) to the structure its renderer
 * prints.
 *
 * - PushEvent folds the events into a per-repository object: a running count,
 *   and the type and actor of the LAST event seen for that repository.
 * - WatchEvent maps each event to a flat record, one to one.
 * - CreateEvent maps the events, then keeps the FIRST record per repository.
 *
 * The two folds are methods whose loops update an accumulator object in place;
 * each is proved equal to a function that folds one row at a time
 * (PushFold, CreateFold), and lemmas describe what those folds build without
 * reference to the fold.
 */
module Formatters {
  import opened Wrappers
  import opened Seqs
  import opened AssocList
  import opened Events

  /** The tags of the `eventFormatter` table; any other tag is skipped. */
  predicate HasFormatter(tag: string) {
    tag == PushTag || tag == WatchTag || tag == CreateTag
  }

  // ===========================================================================
  // PushEvent

  function PushRowOf(ev: Event): PushRow {
    PushRow(ev.kind, ev.actorLogin, ev.repoName)
  }

  /** `events.map(ev => ({ type, actor, repoName }))`. */
  function PushRows(events: seq<Event>): (rows: seq<PushRow>)
    ensures |rows| == |events|
    ensures forall i :: 0 <= i < |events| ==> rows[i] == PushRowOf(events[i])
  {
    seq(|events|, i requires 0 <= i < |events| => PushRowOf(events[i]))
  }

  /** The repository names of the push rows, in order. */
  function PushRepoNames(rows: seq<PushRow>): (names: seq<string>)
    ensures |names| == |rows|
    ensures forall i :: 0 <= i < |rows| ==> names[i] == rows[i].repoName
  {
    seq(|rows|, i requires 0 <= i < |rows| => rows[i].repoName)
  }

  lemma PushRepoNamesSnoc(rows: seq<PushRow>)
    requires rows != []
    ensures PushRepoNames(rows) == PushRepoNames(rows[..|rows| - 1]) + [rows[|rows| - 1].repoName]
  {
  }

  /** The aggregate for repository `n`: type and actor of its last push, and how many pushes it had. */
  function PushEntryFor(rows: seq<PushRow>, n: string): PushEntry
    requires n in PushRepoNames(rows)
  {
    var names := PushRepoNames(rows);
    var last := rows[LastIndex(names, n)];
    PushEntry(last.kind, last.actor, Multiplicity(names, n))
  }

  /** `acc[repoName]?.count || 0`: the count so far, zero for a repository not yet seen. */
  function CountSoFar(acc: seq<(string, PushEntry)>, n: string): nat {
    match Lookup(acc, n)
    case Some(e) => e.count
    case None => 0
  }

  /**
   * The PushEvent `reduce` callback: the row's repository gets the row's type
   * and actor, and its count so far plus one.
   */
  function PushStep(acc: seq<(string, PushEntry)>, row: PushRow): seq<(string, PushEntry)> {
    Put(acc, row.repoName, PushEntry(row.kind, row.actor, CountSoFar(acc, row.repoName) + 1))
  }

  /** The PushEvent `reduce`: the callback applied to the rows in order, from an empty object. */
  function PushFold(rows: seq<PushRow>): seq<(string, PushEntry)> {
    if rows == [] then [] else PushStep(PushFold(rows[..|rows| - 1]), rows[|rows| - 1])
  }

  /** Sum of the counts of an aggregate. */
  function TotalCount(acc: seq<(string, PushEntry)>): nat {
    if acc == [] then 0 else TotalCount(acc[..|acc| - 1]) + acc[|acc| - 1].1.count
  }

  /** The PushEvent formatter: map each event to a row, then fold the rows into a per-repository object. */
  method FormatPush(events: seq<Event>) returns (acc: seq<(string, PushEntry)>)
    ensures acc == PushFold(PushRows(events))
  {
    var rows := PushRows(events);
    acc := [];
    for i := 0 to |rows|
      invariant acc == PushFold(rows[..i])
    {
      var row := rows[i];
      assert rows[..i + 1][..i] == rows[..i];
      acc := Put(acc, row.repoName, PushEntry(row.kind, row.actor, CountSoFar(acc, row.repoName) + 1));
    }
    assert rows[..|rows|] == rows;
  }

  /** The fold's keys are the distinct repository names, in order of first occurrence. */
  lemma {:induction false} PushFoldKeys(rows: seq<PushRow>)
    ensures Keys(PushFold(rows)) == Dedup(PushRepoNames(rows))
  {
    if rows != [] {
      var p, r := rows[..|rows| - 1], rows[|rows| - 1];
      PushFoldKeys(p);
      PushRepoNamesSnoc(rows);
      DedupSnoc(PushRepoNames(p), r.repoName);
      PutKeys(PushFold(p), r.repoName, PushEntry(r.kind, r.actor, CountSoFar(PushFold(p), r.repoName) + 1));
    }
  }

  /**
   * What the fold stores under a name, described without the fold: nothing
   * for a name no row has, and otherwise PushEntryFor (the last row's type
   * and actor, and the number of rows for that repository).
   */
  lemma {:induction false} PushFoldLookup(rows: seq<PushRow>, m: string)
    ensures Lookup(PushFold(rows), m) == if m in PushRepoNames(rows) then Some(PushEntryFor(rows, m)) else None
  {
    if rows != [] {
      var p := rows[..|rows| - 1];
      PushFoldLookup(p, rows[|rows| - 1].repoName);
      PushFoldLookup(p, m);
      PushLookupStep(PushFold(p), rows, m);
    }
  }

  /** Storing the newest row's aggregate into a correct summary of the older rows gives a correct summary. */
  lemma PushLookupStep(acc: seq<(string, PushEntry)>, rows: seq<PushRow>, m: string)
    requires rows != []
    requires var p, n := rows[..|rows| - 1], rows[|rows| - 1].repoName;
      Lookup(acc, n) == if n in PushRepoNames(p) then Some(PushEntryFor(p, n)) else None
    requires var p := rows[..|rows| - 1];
      Lookup(acc, m) == if m in PushRepoNames(p) then Some(PushEntryFor(p, m)) else None
    ensures Lookup(PushStep(acc, rows[|rows| - 1]), m)
            == if m in PushRepoNames(rows) then Some(PushEntryFor(rows, m)) else None
  {
    var r := rows[|rows| - 1];
    PushRepoNamesSnoc(rows);
    PutLookup(acc, r.repoName, PushEntry(r.kind, r.actor, CountSoFar(acc, r.repoName) + 1), m);
    if m == r.repoName {
      PushLookupStepSame(acc, rows);
    } else if m in PushRepoNames(rows[..|rows| - 1]) {
      PushEntryForEarlier(rows, m);
    }
  }

  /** The newest row's repository: one more than its count so far, with the newest row's type and actor. */
  lemma PushLookupStepSame(acc: seq<(string, PushEntry)>, rows: seq<PushRow>)
    requires rows != []
    requires var p, n := rows[..|rows| - 1], rows[|rows| - 1].repoName;
      Lookup(acc, n) == if n in PushRepoNames(p) then Some(PushEntryFor(p, n)) else None
    ensures var r := rows[|rows| - 1];
      PushEntry(r.kind, r.actor, CountSoFar(acc, r.repoName) + 1) == PushEntryFor(rows, r.repoName)
  {
    var p, n := rows[..|rows| - 1], rows[|rows| - 1].repoName;
    PushEntryForLast(rows);
    assert CountSoFar(acc, n) == Multiplicity(PushRepoNames(p), n);
  }

  /** The repository of the newest row: its last row is that row, and its count grows by one. */
  lemma PushEntryForLast(rows: seq<PushRow>)
    requires rows != []
    ensures var p, r := rows[..|rows| - 1], rows[|rows| - 1];
      PushEntryFor(rows, r.repoName) == PushEntry(r.kind, r.actor, Multiplicity(PushRepoNames(p), r.repoName) + 1)
  {
    var p, r := rows[..|rows| - 1], rows[|rows| - 1];
    PushRepoNamesSnoc(rows);
    MultiplicitySnoc(PushRepoNames(p), r.repoName, r.repoName);
    LastIndexSnoc(PushRepoNames(p), r.repoName, r.repoName);
  }

  /** Any other repository keeps the aggregate it had before the newest row. */
  lemma PushEntryForEarlier(rows: seq<PushRow>, m: string)
    requires rows != []
    requires m != rows[|rows| - 1].repoName && m in PushRepoNames(rows[..|rows| - 1])
    ensures PushEntryFor(rows, m) == PushEntryFor(rows[..|rows| - 1], m)
  {
    var p, r := rows[..|rows| - 1], rows[|rows| - 1];
    PushRepoNamesSnoc(rows);
    MultiplicitySnoc(PushRepoNames(p), r.repoName, m);
    LastIndexSnoc(PushRepoNames(p), r.repoName, m);
  }

  /** The keys of the push aggregate are the distinct repository names, each once, in order of first occurrence. */
  lemma PushKeys(rows: seq<PushRow>)
    ensures Distinct(Keys(PushFold(rows)))
    ensures forall n :: n in Keys(PushFold(rows)) <==> n in PushRepoNames(rows)
    ensures InFirstOccurrenceOrder(Keys(PushFold(rows)), PushRepoNames(rows))
  {
    PushFoldKeys(rows);
    DedupFirstOccurrenceOrder(PushRepoNames(rows));
  }

  /**
   * Each repository's count is the number of push rows for it, and its type and
   * actor are those of the last push row for it (later rows overwrite earlier ones).
   */
  lemma PushLastWins(rows: seq<PushRow>, n: string)
    requires n in PushRepoNames(rows)
    ensures Lookup(PushFold(rows), n).Some?
    ensures var e := Lookup(PushFold(rows), n).value;
      && e.count == Multiplicity(PushRepoNames(rows), n)
      && exists k :: 0 <= k < |rows| && rows[k].repoName == n && e.actor == rows[k].actor && e.kind == rows[k].kind
                     && forall j :: k < j < |rows| ==> rows[j].repoName != n
  {
    PushFoldLookup(rows, n);
    var names := PushRepoNames(rows);
    var k := LastIndex(names, n);
    forall j | k < j < |rows| ensures rows[j].repoName != n {
      assert names[j] in names[k + 1..];
    }
  }

  /** Every push row is counted exactly once: the counts add up to the number of rows. */
  lemma {:induction false} PushCountsSum(rows: seq<PushRow>)
    ensures TotalCount(PushFold(rows)) == |rows|
  {
    if rows != [] {
      PushCountsSum(rows[..|rows| - 1]);
      PushCountStep(PushFold(rows[..|rows| - 1]), rows[|rows| - 1]);
    }
  }

  /** The callback adds exactly one to the total. */
  lemma PushCountStep(acc: seq<(string, PushEntry)>, r: PushRow)
    ensures TotalCount(PushStep(acc, r)) == TotalCount(acc) + 1
  {
    TotalCountPut(acc, r.repoName, PushEntry(r.kind, r.actor, CountSoFar(acc, r.repoName) + 1));
  }

  /** Storing an entry changes the total by the difference between the new count and the one it replaces. */
  lemma TotalCountPut(acc: seq<(string, PushEntry)>, n: string, e: PushEntry)
    ensures TotalCount(Put(acc, n, e)) + CountSoFar(acc, n) == TotalCount(acc) + e.count
  {
    if n in Keys(acc) {
      TotalCountUpdate(acc, KeyIndex(acc, n), (n, e));
    } else {
      assert (acc + [(n, e)])[..|acc|] == acc;
    }
  }

  lemma {:induction false} TotalCountUpdate(acc: seq<(string, PushEntry)>, j: nat, x: (string, PushEntry))
    requires j < |acc|
    ensures TotalCount(acc[j := x]) + acc[j].1.count == TotalCount(acc) + x.1.count
  {
    var p := acc[..|acc| - 1];
    if j == |acc| - 1 {
      assert acc[j := x][..|acc| - 1] == p;
    } else {
      assert acc[j := x][..|acc| - 1] == p[j := x];
      TotalCountUpdate(p, j, x);
    }
  }

  // ===========================================================================
  // WatchEvent

  function WatchRowOf(ev: Event): WatchRow {
    WatchRow(ev.kind, ev.repoName, ev.action, ev.isPublic, ev.orgLogin)
  }

  /** The WatchEvent formatter: `events.map(ev => ({ type, repoName, action, isPublicRepo, org }))`. */
  function FormatWatch(events: seq<Event>): (rows: seq<WatchRow>)
    ensures |rows| == |events|
    ensures forall i :: 0 <= i < |events| ==> rows[i] == WatchRowOf(events[i])
  {
    seq(|events|, i requires 0 <= i < |events| => WatchRowOf(events[i]))
  }

  /** The watch formatter works record by record: it distributes over concatenation. */
  lemma FormatWatchDistributes(a: seq<Event>, b: seq<Event>)
    ensures FormatWatch(a + b) == FormatWatch(a) + FormatWatch(b)
  {
    assert forall i :: 0 <= i < |a + b| ==> FormatWatch(a + b)[i] == (FormatWatch(a) + FormatWatch(b))[i];
  }

  // ===========================================================================
  // CreateEvent

  function CreateRowOf(ev: Event): CreateRow {
    CreateRow(ev.kind, ev.actorLogin, ev.repoName, ev.masterBranch, ev.description, ev.isPublic)
  }

  /** `events.map(ev => ({ type, actor, repoName, branch, description, isPublicRepo }))`. */
  function CreateRows(events: seq<Event>): (rows: seq<CreateRow>)
    ensures |rows| == |events|
    ensures forall i :: 0 <= i < |events| ==> rows[i] == CreateRowOf(events[i])
  {
    seq(|events|, i requires 0 <= i < |events| => CreateRowOf(events[i]))
  }

  /**
   * The repository names of the create rows, in order. It mirrors
   * `PushRepoNames`: the source reads `ev.repoName` from two record shapes,
   * and here those are two distinct datatypes, so each has its projection.
   */
  function CreateRepoNames(rows: seq<CreateRow>): (names: seq<string>)
    ensures |names| == |rows|
    ensures forall i :: 0 <= i < |rows| ==> names[i] == rows[i].repoName
  {
    seq(|rows|, i requires 0 <= i < |rows| => rows[i].repoName)
  }

  /** The CreateEvent `reduce` callback: a row is stored only under a repository not yet present. */
  function CreateStep(acc: seq<(string, CreateRow)>, row: CreateRow): seq<(string, CreateRow)> {
    if Lookup(acc, row.repoName).None? then Put(acc, row.repoName, row) else acc
  }

  /** The CreateEvent `reduce`: the callback applied to the rows in order, from an empty object. */
  function CreateFold(rows: seq<CreateRow>): seq<(string, CreateRow)> {
    if rows == [] then [] else CreateStep(CreateFold(rows[..|rows| - 1]), rows[|rows| - 1])
  }

  /** `Object.values(uniqueRepos)`: what the CreateEvent formatter returns. */
  function CreateFirsts(rows: seq<CreateRow>): seq<CreateRow> {
    Values(CreateFold(rows))
  }

  /** The CreateEvent formatter: map each event to a row, keep the first row per repository. */
  method FormatCreate(events: seq<Event>) returns (out: seq<CreateRow>)
    ensures out == CreateFirsts(CreateRows(events))
  {
    var rows := CreateRows(events);
    var acc: seq<(string, CreateRow)> := [];
    for i := 0 to |rows|
      invariant acc == CreateFold(rows[..i])
    {
      var row := rows[i];
      assert rows[..i + 1][..i] == rows[..i];
      if Lookup(acc, row.repoName).None? {
        acc := Put(acc, row.repoName, row);
      }
    }
    assert rows[..|rows|] == rows;
    out := Values(acc);
  }

  /** `CreateRepoNames` of a snoc, the counterpart of `PushRepoNamesSnoc`. */
  lemma CreateRepoNamesSnoc(rows: seq<CreateRow>)
    requires rows != []
    ensures CreateRepoNames(rows) == CreateRepoNames(rows[..|rows| - 1]) + [rows[|rows| - 1].repoName]
  {
  }

  /** The fold's keys are the distinct repository names, in order of first occurrence. */
  lemma {:induction false} CreateFoldKeys(rows: seq<CreateRow>)
    ensures Keys(CreateFold(rows)) == Dedup(CreateRepoNames(rows))
  {
    if rows != [] {
      var p, r := rows[..|rows| - 1], rows[|rows| - 1];
      CreateFoldKeys(p);
      CreateRepoNamesSnoc(rows);
      DedupSnoc(CreateRepoNames(p), r.repoName);
      PutKeys(CreateFold(p), r.repoName, r);
    }
  }

  /** What the fold stores under a name: the first row for that repository, or nothing. */
  lemma {:induction false} CreateFoldLookup(rows: seq<CreateRow>, m: string)
    ensures Lookup(CreateFold(rows), m)
            == if m in CreateRepoNames(rows) then Some(rows[FirstIndex(CreateRepoNames(rows), m)]) else None
  {
    if rows != [] {
      var p := rows[..|rows| - 1];
      CreateFoldLookup(p, rows[|rows| - 1].repoName);
      CreateFoldLookup(p, m);
      CreateLookupStep(CreateFold(p), rows, m);
    }
  }

  /** The callback turns a correct summary of the older rows into a correct summary of all rows. */
  lemma CreateLookupStep(acc: seq<(string, CreateRow)>, rows: seq<CreateRow>, m: string)
    requires rows != []
    requires var p, n := rows[..|rows| - 1], rows[|rows| - 1].repoName;
      Lookup(acc, n) == if n in CreateRepoNames(p) then Some(p[FirstIndex(CreateRepoNames(p), n)]) else None
    requires var p := rows[..|rows| - 1];
      Lookup(acc, m) == if m in CreateRepoNames(p) then Some(p[FirstIndex(CreateRepoNames(p), m)]) else None
    ensures Lookup(CreateStep(acc, rows[|rows| - 1]), m)
            == if m in CreateRepoNames(rows) then Some(rows[FirstIndex(CreateRepoNames(rows), m)]) else None
  {
    var p, r := rows[..|rows| - 1], rows[|rows| - 1];
    var names := CreateRepoNames(p);
    CreateRepoNamesSnoc(rows);
    PutLookup(acc, r.repoName, r, m);
    if m in names + [r.repoName] {
      FirstIndexSnoc(names, r.repoName, m);
    }
  }

  /**
   * What the fold builds, described without the fold: its keys are the
   * distinct repository names in order of first occurrence, and each name
   * maps to the first row for that repository.
   */
  lemma CreateFoldSummary(rows: seq<CreateRow>)
    ensures Keys(CreateFold(rows)) == Dedup(CreateRepoNames(rows))
    ensures forall n :: Lookup(CreateFold(rows), n)
                        == if n in CreateRepoNames(rows) then Some(rows[FirstIndex(CreateRepoNames(rows), n)]) else None
  {
    CreateFoldKeys(rows);
    forall n
      ensures Lookup(CreateFold(rows), n)
              == if n in CreateRepoNames(rows) then Some(rows[FirstIndex(CreateRepoNames(rows), n)]) else None
    {
      CreateFoldLookup(rows, n);
    }
  }

  /**
   * The CreateEvent formatter returns exactly one record per distinct
   * repository name, in order of first occurrence, and that record is the
   * first create row for its repository.
   */
  lemma CreateFirstWins(rows: seq<CreateRow>)
    ensures CreateRepoNames(CreateFirsts(rows)) == Dedup(CreateRepoNames(rows))
    ensures InFirstOccurrenceOrder(CreateRepoNames(CreateFirsts(rows)), CreateRepoNames(rows))
    ensures forall i :: 0 <= i < |CreateFirsts(rows)| ==>
              var r := CreateFirsts(rows)[i];
              && r.repoName in CreateRepoNames(rows)
              && r == rows[FirstIndex(CreateRepoNames(rows), r.repoName)]
  {
    var names := CreateRepoNames(rows);
    var acc := CreateFold(rows);
    CreateFoldSummary(rows);
    forall i | 0 <= i < |acc| ensures acc[i].1.repoName == acc[i].0 && acc[i].0 in names
                                 && acc[i].1 == rows[FirstIndex(names, acc[i].0)] {
      LookupAt(acc, i);
    }
    assert CreateRepoNames(CreateFirsts(rows)) == Keys(acc);
    DedupFirstOccurrenceOrder(names);
  }

  // ===========================================================================
  // The table

  /** `eventFormatter[tag](events)`. */
  function FormatGroup(tag: string, events: seq<Event>): (g: Formatted)
    requires HasFormatter(tag)
    ensures g.PushGroup? <==> tag == PushTag
    ensures g.WatchGroup? <==> tag == WatchTag
    ensures g.CreateGroup? <==> tag == CreateTag
  {
    if tag == PushTag then PushGroup(PushFold(PushRows(events)))
    else if tag == WatchTag then WatchGroup(FormatWatch(events))
    else CreateGroup(CreateFirsts(CreateRows(events)))
  }

  /** Looks up the formatter for `tag` and applies it. */
  method ApplyFormatter(tag: string, events: seq<Event>) returns (g: Formatted)
    requires HasFormatter(tag)
    ensures g == FormatGroup(tag, events)
  {
    if tag == PushTag {
      var repos := FormatPush(events);
      g := PushGroup(repos);
    } else if tag == WatchTag {
      g := WatchGroup(FormatWatch(events));
    } else {
      var creates := FormatCreate(events);
      g := CreateGroup(creates);
    }
  }

}
