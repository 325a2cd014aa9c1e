/** What the component receives from the host: the release configuration,
    the current project, and the Git repositories it reads through the REST
    client. Every response is an input value; an awaited call that rejects
    is `Threw`. */
module Host {
  import opened Js

  /** One workflow task of a deploy phase and its string inputs. */
  datatype WorkflowTask = WorkflowTask(taskId: string, inputs: map<string, string>)

  /** One entry of `deployPhasesSnapshot`. */
  datatype DeployPhase = DeployPhase(workflowTasks: seq<WorkflowTask>)

  /** The fields of `configuration.releaseEnvironment` the component reads;
      of `deploySteps` only its length is used. The numeric identifiers are
      JavaScript numbers taken to be safe integers (below 2^53). */
  datatype Release = Release(
    name: string,
    definitionId: nat,
    releaseId: nat,
    definitionEnvironmentId: nat,
    deployStepCount: nat,
    deployPhasesSnapshot: seq<DeployPhase>)

  datatype Project = Project(id: string)

  /** `latestProcessedChange` of a listed item. */
  datatype GitChange = GitChange(commitId: string, comment: string)

  /** One item of a `getItems` listing. */
  datatype GitEntry = GitEntry(
    path: string,
    url: string,
    isFolder: bool,
    latestProcessedChange: Option<GitChange>)

  /** A location in the Git service: repository name, project id, path. */
  datatype Loc = Loc(repository: string, project: string, path: string)

  /** The Git service as the REST client sees it: the full recursive listing
      under each folder and the text of each file. A location with no entry
      is one the service answers with an error. */
  datatype GitStore = GitStore(listings: map<Loc, seq<GitEntry>>, texts: map<Loc, string>)

  /** Everything the host answers during one resolution. */
  datatype Env = Env(
    configuration: Attempt<Option<Release>>,
    project: Attempt<Option<Project>>,
    git: GitStore)

  /** `client.getItems(repository, project, path, Full, true, true)`. */
  function GetItems(git: GitStore, at: Loc): Attempt<seq<GitEntry>>
  {
    if at in git.listings then Done(git.listings[at]) else Threw
  }

  /** `client.getItemText(repository, path, project)`. */
  function GetItemText(git: GitStore, at: Loc): Attempt<string>
  {
    if at in git.texts then Done(git.texts[at]) else Threw
  }

  /** What the two guarded blocks see after awaiting the configuration and
      the project: a rejection, a falsy value, or both objects. */
  function Context(env: Env): Attempt<Option<(Release, Project)>>
  {
    match env.configuration
    case Threw => Threw
    case Done(configuration) =>
      match env.project
      case Threw => Threw
      case Done(project) =>
        if configuration.Some? && project.Some?
        then Done(Some((configuration.value, project.value)))
        else Done(None)
  }
}
