/**
 * The records the activity pipeline works on: the raw activity events of the
 * feed, the flat records each formatter maps them to, and the per-tag
 * formatted groups handed to the renderers.
 */
module Events {
  import opened Wrappers

  /** Type tags that have a formatter and a renderer. */
  const PushTag: string := "PushEvent"
  const WatchTag: string := "WatchEvent"
  const CreateTag: string := "CreateEvent"

  /**
   * One activity event of the feed, with the nested fields the formatters
   * read: `type`, `actor.login`, `repo.name`, `public`, `org.login`,
   * `payload.action`, `payload.master_branch` and `payload.description`
   * (absent or `null` as None).
   */
  datatype Event = Event(
    kind: string,
    actorLogin: string,
    repoName: string,
    isPublic: bool,
    orgLogin: string,
    action: string,
    masterBranch: string,
    description: Option<string>)

  /** A push event projected to `{ type, actor, repoName }`. */
  datatype PushRow = PushRow(kind: string, actor: string, repoName: string)

  /** The per-repository aggregate `{ type, actor, count }` of push events. */
  datatype PushEntry = PushEntry(kind: string, actor: string, count: nat)

  /** A watch event projected to `{ type, repoName, action, isPublicRepo, org }`. */
  datatype WatchRow = WatchRow(kind: string, repoName: string, action: string, isPublicRepo: bool, org: string)

  /** A create event projected to `{ type, actor, repoName, branch, description, isPublicRepo }`. */
  datatype CreateRow = CreateRow(
    kind: string,
    actor: string,
    repoName: string,
    branch: string,
    description: Option<string>,
    isPublicRepo: bool)

  /** What a formatter returns, one shape per recognised tag. */
  datatype Formatted =
    | PushGroup(repos: seq<(string, PushEntry)>)
    | WatchGroup(watches: seq<WatchRow>)
    | CreateGroup(creates: seq<CreateRow>)

}
