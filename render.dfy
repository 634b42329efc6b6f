/**
 * The `events` table of renderers and `main`'s dispatch loop. Each renderer
 * emits one text line per item of a formatted group. Here the lines are
 * returned in order instead of being written to the console.
 */
module Render {
  import opened Wrappers
  import opened Events

  // ---------------------------------------------------------------------------
  // Numbers in text

  function DigitChar(d: nat): char
    requires d < 10
  {
    ('0' as int + d) as char
  }

  predicate IsDigit(c: char) {
    '0' <= c <= '9'
  }

  /** How a template literal prints a natural number: base ten, without leading zeros. */
  function DecimalString(n: nat): (s: string)
    ensures |s| >= 1 && forall i :: 0 <= i < |s| ==> IsDigit(s[i])
    ensures s[0] == '0' ==> n == 0 && |s| == 1
  {
    if n < 10 then [DigitChar(n)] else DecimalString(n / 10) + [DigitChar(n % 10)]
  }

  /** The number a string of decimal digits denotes. */
  function DecimalValue(s: string): nat
    requires forall i :: 0 <= i < |s| ==> IsDigit(s[i])
  {
    if s == [] then 0
    else
      assert IsDigit(s[|s| - 1]);
      DecimalValue(s[..|s| - 1]) * 10 + (s[|s| - 1] as int - '0' as int)
  }

  /** Reading the printed count back gives the count: the printed form loses nothing. */
  lemma {:induction false} DecimalRoundTrip(n: nat)
    ensures DecimalValue(DecimalString(n)) == n
  {
    if n >= 10 {
      DecimalRoundTrip(n / 10);
      var s := DecimalString(n);
      assert s[..|s| - 1] == DecimalString(n / 10);
    }
  }

  // ---------------------------------------------------------------------------
  // One line per item

  /** `- ${type}: ${count} commits to ${repoName} by ${actor}`. */
  function PushLine(repoName: string, e: PushEntry): string {
    "- " + e.kind + ": " + DecimalString(e.count) + " commits to " + repoName + " by " + e.actor
  }

  /** `- ${type}: ${action} public|private ${repoName} by ${org}`. */
  function WatchLine(w: WatchRow): string {
    "- " + w.kind + ": " + w.action + " " + (if w.isPublicRepo then "public" else "private")
    + " " + w.repoName + " by " + w.org
  }

  /** ` with description: ${description}` when the description is truthy (present and non-empty), else nothing. */
  function DescriptionSuffix(d: Option<string>): string {
    if d.Some? && d.value != "" then " with description: " + d.value else ""
  }

  /** `- ${type}: Public|Private repo ${repoName} created in branch ${branch} by ${actor}` and the description suffix. */
  function CreateLine(c: CreateRow): string {
    "- " + c.kind + ": " + (if c.isPublicRepo then "Public" else "Private") + " repo " + c.repoName
    + " created in branch " + c.branch + " by " + c.actor + DescriptionSuffix(c.description)
  }

  /**
   * The description only ever adds a suffix to the line, and an empty
   * description prints exactly like a missing one.
   */
  lemma CreateLineDescription(c: CreateRow)
    ensures CreateLine(c.(description := Some(""))) == CreateLine(c.(description := None))
    ensures c.description.Some? && c.description.value != "" ==>
              CreateLine(c) == CreateLine(c.(description := None)) + " with description: " + c.description.value
    ensures !(c.description.Some? && c.description.value != "") ==> CreateLine(c) == CreateLine(c.(description := None))
  {
  }

  // ---------------------------------------------------------------------------
  // The renderers

  function PushLines(repos: seq<(string, PushEntry)>): seq<string> {
    seq(|repos|, i requires 0 <= i < |repos| => PushLine(repos[i].0, repos[i].1))
  }

  function WatchLines(watches: seq<WatchRow>): seq<string> {
    seq(|watches|, i requires 0 <= i < |watches| => WatchLine(watches[i]))
  }

  function CreateLines(creates: seq<CreateRow>): seq<string> {
    seq(|creates|, i requires 0 <= i < |creates| => CreateLine(creates[i]))
  }

  /** The lines the renderer of a group's shape prints for it. */
  function GroupLines(g: Formatted): seq<string> {
    match g
    case PushGroup(repos) => PushLines(repos)
    case WatchGroup(watches) => WatchLines(watches)
    case CreateGroup(creates) => CreateLines(creates)
  }

  /** The PushEvent renderer: one line per repository key, in key order. */
  method RenderPush(repos: seq<(string, PushEntry)>) returns (lines: seq<string>)
    ensures |lines| == |repos|
    ensures forall i :: 0 <= i < |repos| ==> lines[i] == PushLine(repos[i].0, repos[i].1)
  {
    lines := [];
    for i := 0 to |repos|
      invariant |lines| == i
      invariant forall k :: 0 <= k < i ==> lines[k] == PushLine(repos[k].0, repos[k].1)
    {
      lines := lines + [PushLine(repos[i].0, repos[i].1)];
    }
  }

  /** The WatchEvent renderer: one line per watch record, in order. */
  method RenderWatch(watches: seq<WatchRow>) returns (lines: seq<string>)
    ensures |lines| == |watches|
    ensures forall i :: 0 <= i < |watches| ==> lines[i] == WatchLine(watches[i])
  {
    lines := [];
    for i := 0 to |watches|
      invariant |lines| == i
      invariant forall k :: 0 <= k < i ==> lines[k] == WatchLine(watches[k])
    {
      lines := lines + [WatchLine(watches[i])];
    }
  }

  /** The CreateEvent renderer: one line per deduplicated create record, in order. */
  method RenderCreate(creates: seq<CreateRow>) returns (lines: seq<string>)
    ensures |lines| == |creates|
    ensures forall i :: 0 <= i < |creates| ==> lines[i] == CreateLine(creates[i])
  {
    lines := [];
    for i := 0 to |creates|
      invariant |lines| == i
      invariant forall k :: 0 <= k < i ==> lines[k] == CreateLine(creates[k])
    {
      lines := lines + [CreateLine(creates[i])];
    }
  }

  /** Runs the renderer that matches the group's shape. */
  method RenderGroup(g: Formatted) returns (lines: seq<string>)
    ensures lines == GroupLines(g)
  {
    match g {
      case PushGroup(repos) =>
        lines := RenderPush(repos);
      case WatchGroup(watches) =>
        lines := RenderWatch(watches);
      case CreateGroup(creates) =>
        lines := RenderCreate(creates);
    }
  }

  // ---------------------------------------------------------------------------
  // main's dispatch loop

  /** The tags of the `events` table; a group under any other key is skipped. */
  predicate HasRenderer(tag: string) {
    tag == PushTag || tag == WatchTag || tag == CreateTag
  }

  /** The lines of every group that has a renderer, group after group in key order. */
  function ReportLines(groups: seq<(string, Formatted)>): seq<string> {
    if groups == [] then []
    else
      var p, g := groups[..|groups| - 1], groups[|groups| - 1];
      if HasRenderer(g.0) then ReportLines(p) + GroupLines(g.1) else ReportLines(p)
  }

  /** `for (let event in eventByType)`: renders each group that has a renderer, in key order. */
  method RenderReport(groups: seq<(string, Formatted)>) returns (out: seq<string>)
    ensures out == ReportLines(groups)
  {
    out := [];
    for i := 0 to |groups|
      invariant out == ReportLines(groups[..i])
    {
      assert groups[..i + 1][..i] == groups[..i];
      var (tag, data) := groups[i];
      if !HasRenderer(tag) {
        continue;
      }
      var lines := RenderGroup(data);
      out := out + lines;
    }
    assert groups[..|groups|] == groups;
  }

  /** Every line of a rendered group appears in the report. */
  lemma {:induction false} ReportContainsGroup(groups: seq<(string, Formatted)>, k: nat, line: string)
    requires k < |groups| && HasRenderer(groups[k].0) && line in GroupLines(groups[k].1)
    ensures line in ReportLines(groups)
  {
    var p := groups[..|groups| - 1];
    if k < |groups| - 1 {
      assert groups[k] == p[k];
      ReportContainsGroup(p, k, line);
    }
  }

  /** Every line of the report is a line of some group that has a renderer. */
  lemma {:induction false} ReportLineOrigin(groups: seq<(string, Formatted)>, line: string) returns (k: nat)
    requires line in ReportLines(groups)
    ensures k < |groups| && HasRenderer(groups[k].0) && line in GroupLines(groups[k].1)
  {
    var p := groups[..|groups| - 1];
    if HasRenderer(groups[|groups| - 1].0) && line in GroupLines(groups[|groups| - 1].1) {
      k := |groups| - 1;
    } else {
      k := ReportLineOrigin(p, line);
      assert groups[k] == p[k];
    }
  }

}
