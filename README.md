# GitHub user activity: grouping, formatting and rendering

`github-activity.js` is a command-line tool. It fetches a GitHub user's
recent public events and prints one summary line per item of activity. This
project models, in Dafny, the pipeline that runs once the events have arrived:

- **Grouping** (`getEventsByType`). The distinct `type` tags of the feed are
  taken in order of first occurrence. Tags without an entry in the
  `eventFormatter` table are skipped. Every other tag is stored in a result
  object, mapped to its formatter's output on the events of that tag, in
  feed order.
- **Formatters** (`eventFormatter`):
  - `PushEvent` folds the events into a per-repository object. Each entry
    holds a running `count`, and the `type` and `actor` of the last push to
    that repository.
  - `WatchEvent` maps each event to a flat record, one to one.
  - `CreateEvent` maps the events and keeps the first record per repository,
    in first-insertion order.
- **Renderers** (the `events` table) and `main`'s dispatch loop. Every group
  that has a renderer prints one line per item, in key order. An empty feed
  prints only "No activity found for this user.".

The model is split into these modules:

- `Wrappers` holds `Option`.
- `Seqs` covers first and last occurrences, the order-preserving duplicate
  removal of `[...new Set(xs)]`, and multiplicities.
- `AssocList` treats a JavaScript plain object as an insertion-ordered list
  of string-keyed pairs: keys, values, lookup, and the in-place assignment
  `o[k] = v`.
- `Events` has the event and record datatypes.
- `Formatters`, `Grouping`, `Render` and `Pipeline` cover the three stages and
  the whole run.

The source changes state step by step in several places:

- the loop of `getEventsByType` fills its result object;
- the two `reduce` callbacks update their accumulator in place;
- the renderers and `main` loop over their input.

Each of these is a Dafny `method` with a loop, proved equal to a function
(`GroupSpec`, `PushFold`, `CreateFold`, `ReportLines`). Lemmas then describe
what those functions compute in terms of the events alone. The `map` and
`filter` projections are functions.

Three behaviours of the code shape the model:

- The code does not default missing fields to sentinel values.
  `ev.actor.login`, `ev.repo.name`, `ev.payload.action` and `ev.org.login`
  throw when the nested object is absent.
- A watch line always ends in `by <org>`.
- `[...data]` throws on a response body that is not iterable; no such body
  becomes an empty list.

An event is therefore modelled with every field the formatters read present.

## Model

| member | source | states |
|---|---|---|
| Seqs.Dedup | github-activity.js:19-23 | The distinct tags of the feed: no repetitions, and exactly the elements of the input. |
| Seqs.DedupFirstOccurrenceOrder | github-activity.js:21-23 | A `Set` keeps its elements in order of first insertion, so the distinct tags are in order of first occurrence. |
| Seqs.DedupUnique | github-activity.js:21-23 | Being repetition-free, having the same elements and being in first-occurrence order determine the result uniquely. |
| AssocList.PutKeys | github-activity.js:65 | `o[k] = v` keeps the existing keys in order and appends `k` only when it is new. |
| AssocList.PutLookup | github-activity.js:65-69 | After `o[k] = v`, `o[k]` reads `v` and every other key reads as before. |
| Formatters.FormatPush | github-activity.js:55-71 | The push formatter's loop computes the fold `PushFold` of the mapped rows. |
| Formatters.PushFoldKeys | github-activity.js:63-71 | The keys of the push object are the distinct repository names, in first-occurrence order. |
| Formatters.PushFoldLookup | github-activity.js:63-71 | A repository with pushes maps to the type and actor of its last push and the number of its pushes. Any other name is absent. |
| Formatters.PushKeys | github-activity.js:63-71 | The push object's keys are repetition-free, are exactly the repository names pushed to, and are in first-occurrence order. |
| Formatters.PushLastWins | github-activity.js:65-68 | For each repository, `count` equals the number of its push records. The `actor` and `type` are those of a record for it with no later record for the same repository. |
| Formatters.PushCountsSum | github-activity.js:68 | The counts add up to the number of push records. |
| Formatters.FormatWatch | github-activity.js:73-81 | The watch output has the input's length, and element i is built from input record i alone. |
| Formatters.FormatWatchDistributes | github-activity.js:74-80 | The watch formatter distributes over concatenation, so it works record by record. |
| Formatters.FormatCreate | github-activity.js:82-101 | The create formatter's loop computes `Object.values` of the fold `CreateFold` of the mapped rows. |
| Formatters.CreateFoldKeys | github-activity.js:92-98 | The keys of the create object are the distinct repository names, in first-occurrence order. |
| Formatters.CreateFoldLookup | github-activity.js:92-98 | A created repository maps to its first create row; any other name is absent. |
| Formatters.CreateFoldSummary | github-activity.js:92-98 | The create object's keys are the distinct repository names, in first-occurrence order. Each maps to the first row for that repository. |
| Formatters.CreateFirstWins | github-activity.js:92-100 | The create formatter returns one record per distinct repository, in first-occurrence order. Each record is the first create record for its repository. |
| Formatters.FormatGroup | github-activity.js:54-102 | Each recognised tag's formatter yields a group of that tag's shape: a per-repository object for pushes, a list of records for watches and creates. |
| Formatters.ApplyFormatter | github-activity.js:28-38 | Applying the table entry for a recognised tag yields that tag's formatter output. |
| Grouping.OfKind | github-activity.js:34-36 | The filter keeps exactly the events of the tag. |
| Grouping.OfKindAppend | github-activity.js:34-36 | The filter distributes over concatenation, so it keeps the relative order of the events. |
| Grouping.OfKindSize | github-activity.js:34-36 | The filter keeps as many events as the tag occurs in the feed. |
| Grouping.GetEventsByType | github-activity.js:18-44 | The loop over the distinct tags builds `GroupSpec`: each tag with a formatter is stored with its formatter's output on its events. |
| Grouping.RecognisedOrder | github-activity.js:27-32 | Skipping the tags without a formatter keeps the first-occurrence order of the rest. |
| Grouping.GroupsForKeys | github-activity.js:27-41 | Over repetition-free tags, the result's keys are the tags that have a formatter, in order. |
| Grouping.GroupsForLookup | github-activity.js:27-41 | A tag with a formatter maps to the formatter output on its events. No other name is a key. |
| Grouping.GroupKeys | github-activity.js:19-32 | The result's keys are exactly the distinct tags of the feed that have a formatter, each once, in first-occurrence order. |
| Grouping.GroupContents | github-activity.js:34-40 | Each key holds its formatter's output on exactly the events of that tag, in feed order. |
| Grouping.GroupSizesSum | github-activity.js:34-38 | Summed over the keys, the filtered inputs hold as many events as the feed has events with a recognised tag. |
| Render.DecimalString | github-activity.js:111 | A count prints as decimal digits, without leading zeros. |
| Render.DecimalRoundTrip | github-activity.js:111 | Reading the printed count back gives the count. |
| Render.CreateLineDescription | github-activity.js:132-134 | The description only appends ` with description: <d>` when present and non-empty. An empty description prints like a missing one. |
| Render.RenderPush | github-activity.js:106-114 | One line `- <type>: <count> commits to <repo> by <actor>` per key, in key order. |
| Render.RenderWatch | github-activity.js:115-123 | One line `- <type>: <action> <public or private> <repo> by <org>` per watch record, in order. |
| Render.RenderCreate | github-activity.js:124-138 | One line `- <type>: <Public or Private> repo <repo> created in branch <branch> by <actor>` per create record, in order, with the description suffix. |
| Render.RenderGroup | github-activity.js:185-193 | A group is printed by the renderer for its shape. |
| Render.RenderReport | github-activity.js:184-194 | The dispatch loop prints, in key order, the lines of every group whose key has a renderer. |
| Render.ReportContainsGroup | github-activity.js:184-194 | Every line of a rendered group appears in the output. |
| Render.ReportLineOrigin | github-activity.js:184-194 | Every output line comes from a group whose key has a renderer. |
| Pipeline.ActivityReport | github-activity.js:177-194 | The outcome is the no-activity message exactly when the feed is empty. |
| Pipeline.ShowActivity | github-activity.js:177-194 | The empty check, the grouping and the dispatch loop together compute `ActivityReport`. |
| Pipeline.GroupAt | github-activity.js:40 | A recognised tag of the feed is stored, with its group, at some position of the result, and has a renderer. |
| Pipeline.WatchEventReported | github-activity.js:115-123 | The watch line of each watch event of the feed is in the output. Two identical watch events print the same string; `Pipeline.ReportLineCount` shows that each still gets a line. |
| Pipeline.PushRepoReported | github-activity.js:63-113 | Each repository pushed to gets a line with its push count and the type and actor of its last push. |
| Pipeline.CreateRepoReported | github-activity.js:92-137 | Each repository created gets a line for its first create event. |
| Pipeline.ReportLineExpected | github-activity.js:182-194 | Every output line is a watch line of a watch event, the push line of a repository pushed to, or the create line of a repository created. |
| Pipeline.ReportLineCount | github-activity.js:182-194 | The output has one line per distinct repository pushed to, one per watch event and one per distinct repository created. |
| Pipeline.EmptyFeedExample | github-activity.js:177-180 | An empty feed yields only the no-activity message. |
| Pipeline.WatchExample | github-activity.js:115-123 | A watch event of a public repository in organisation `acme` prints `- WatchEvent: started public x/y by acme`. |
| Pipeline.PushExample | github-activity.js:63-113 | Two pushes to `a/b`, by `u1` then `u2`, print the single line `- PushEvent: 2 commits to a/b by u2`. |

The pipeline cannot modify its input or depend on earlier runs. Events and
groups are immutable Dafny values, and every method above is specified by a
function of its arguments alone. Running it twice on the same feed therefore
gives the same outcome.

## Left out

- Argument handling, the help menu and the exit codes of `main` (github-activity.js:143-156, 162-167, 172-179): command-line plumbing with process side effects.
- `getUserActivity`, `fetch`, the status check and `response.json()` (github-activity.js:47-51, 159-175): network I/O. The model starts from the array of events.
- `console.log` and `console.error`: the renderers return their lines in order. The no-activity case is the `NoActivity` outcome, and `NoActivityMessage` is its text.
- Missing nested fields: the code throws a `TypeError` on them. Events are modelled with every field present, so this failure is not modelled.
- A `null` `payload.master_branch`: a template literal prints it as `null`. The branch is modelled as a string.
- A description that is not a string: only a missing, `null` or string description is modelled. Its truthiness is "present and non-empty".
- Key order and inherited properties of JavaScript objects: integer-like keys such as `"42"` are enumerated before the others. Property lookups also see inherited `Object.prototype` members, at four places: `eventFormatter[eventType]` (github-activity.js:28), `acc[repoName]?.count` (github-activity.js:68), `!acc[repoKey]` (github-activity.js:94) and `events[event]` (github-activity.js:185). A type tag such as `constructor` or `toString` would find a truthy "formatter" and become a key of the grouping result, and `valueOf` or `__proto__` would throw. `HasFormatter` and `HasRenderer` accept only the three table entries, so for such tags `Grouping.GroupKeys` does not describe the code. GitHub's event types are a fixed set of names ending in `Event`, none of which is an `Object.prototype` property or integer-like. Repository names contain `/`, so they are neither integer-like nor inherited property names. Objects are modelled as insertion-ordered lists of own keys.
- The renderer table is looked up by key in the source. Here each group is rendered by the renderer for its shape (`Render.RenderGroup`). Every stored key has a renderer (`Pipeline.GroupAt`) and its group has that key's shape, so the two agree on every result of `getEventsByType`.
