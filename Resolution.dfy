/** How `initializeState` and `validateReportOld` turn the host's answers
    into the component state: the versioned repository first, the legacy
    single-file report when the first attempt throws. */
module Resolution {
  import opened Js
  import opened Host
  import opened Items
  import opened Paths

  /** Repository of the versioned layout. */
  const ReportsRepository := "DevOps_Vault_Reports_Extension"
  /** Workflow task whose `nameRepository` input names the legacy repository. */
  const LegacyTaskId := "13008e5e-9195-4043-9baf-c5d70da839e3"
  const LoadingMessage := "Loading ....."
  const NotFoundMessage := " ¡ The report was not found !"
  /** Tab label of the single legacy item. */
  const LegacyLabel := "Report"

  /** `IReportContentState`, restricted to the fields resolution and
      selection use. */
  datatype ReportState = ReportState(
    selectedTabId: string,
    items: seq<ItemReport>,
    message: string,
    nameEnvironment: Option<string>)

  /** The state set by the constructor. */
  function Initial(): (s: ReportState)
    ensures s.items == [] && s.nameEnvironment.None?
  {
    ReportState("0", [], LoadingMessage, None)
  }

  /** Every published item carries its text. */
  predicate ContentsLoaded(s: ReportState)
  {
    forall i :: 0 <= i < |s.items| ==> s.items[i].content.Some?
  }

  /** The two `setState` calls that publish a list: select the first item's
      commit id, then set the items. */
  function Publish(s: ReportState, items: seq<ItemReport>): (r: ReportState)
    requires |items| > 0
    ensures r.items == items && r.selectedTabId == items[0].commitId
    ensures r.message == s.message && r.nameEnvironment == s.nameEnvironment
  {
    s.(selectedTabId := items[0].commitId).(items := items)
  }

  /** Where the versioned attempt lists files. */
  function VersionedLoc(release: Release, project: Project): Loc
  {
    Loc(ReportsRepository, project.id,
        VersionedPath(release.definitionId, release.releaseId,
                      release.definitionEnvironmentId, release.deployStepCount))
  }

  /** The list the versioned attempt publishes, or nothing when one of its
      steps throws: a missing listing, a kept entry without a latest change,
      a file whose text cannot be fetched, or no file at all (`items[0]` is
      `undefined`). */
  function VersionedSource(release: Release, project: Project, git: GitStore): (r: Option<seq<ItemReport>>)
    ensures r.Some? <==>
      VersionedLoc(release, project) in git.listings &&
      var entries := git.listings[VersionedLoc(release, project)];
      Normalise(entries).Done? &&
      |NonFolders(entries)| > 0 &&
      AllFetchable(Normalise(entries).value, ReportsRepository, project.id, git)
    ensures r.Some? ==>
      var kept := NonFolders(git.listings[VersionedLoc(release, project)]);
      |r.value| == |kept| > 0 &&
      forall i :: 0 <= i < |kept| ==>
        kept[i].latestProcessedChange.Some? &&
        Loc(ReportsRepository, project.id, kept[i].path) in git.texts &&
        r.value[i] == ItemReport(kept[i].url, kept[i].latestProcessedChange.value.commitId,
                                 kept[i].path, kept[i].latestProcessedChange.value.comment,
                                 Some(git.texts[Loc(ReportsRepository, project.id, kept[i].path)]))
  {
    match GetItems(git, VersionedLoc(release, project))
    case Threw => None
    case Done(entries) =>
      match Normalise(entries)
      case Threw => None
      case Done(items) =>
        match FetchAll(items, ReportsRepository, project.id, git)
        case Threw => None
        case Done(loaded) => if |loaded| == 0 then None else Some(loaded)
  }

  predicate IsLegacyTask(task: WorkflowTask)
  {
    task.taskId == LegacyTaskId
  }

  predicate HasLegacyTask(phase: DeployPhase)
  {
    Find(phase.workflowTasks, IsLegacyTask).Some?
  }

  /** `task.inputs.nameRepository`, `undefined` when the input is absent. */
  function NameInput(task: WorkflowTask): Option<string>
  {
    if "nameRepository" in task.inputs then Some(task.inputs["nameRepository"]) else None
  }

  /** `deployPhasesSnapshot.find(...).workflowTasks.find(...).inputs.nameRepository`:
      it throws when no phase holds the legacy workflow task, and is `undefined` when the
      task has no such input. */
  function LegacyRepositoryName(phases: seq<DeployPhase>): (r: Attempt<Option<string>>)
    ensures r.Threw? <==> forall i :: 0 <= i < |phases| ==> !HasLegacyTask(phases[i])
    ensures r.Done? ==>
      exists i, j :: (0 <= i < |phases| && 0 <= j < |phases[i].workflowTasks|
        && (forall k :: 0 <= k < i ==> !HasLegacyTask(phases[k]))
        && (forall k :: 0 <= k < j ==> !IsLegacyTask(phases[i].workflowTasks[k]))
        && IsLegacyTask(phases[i].workflowTasks[j])
        && r.value == NameInput(phases[i].workflowTasks[j]))
  {
    match FindIndex(phases, HasLegacyTask)
    case None => Threw
    case Some(i) =>
      match FindIndex(phases[i].workflowTasks, IsLegacyTask)
      case None => assert false; Threw
      case Some(j) =>
        Done(NameInput(phases[i].workflowTasks[j]))
  }

  /** The single item of the legacy attempt, or nothing when it throws: no
      phase with the legacy workflow task, a falsy repository name, or no such file. The
      text is taken as it is, empty or not. */
  function LegacySource(release: Release, project: Project, git: GitStore, randomId: string): (r: Option<ItemReport>)
    ensures r.Some? <==>
      var name := LegacyRepositoryName(release.deployPhasesSnapshot);
      name.Done? && Truthy(name.value) &&
      Loc(name.value.value, project.id, LegacyPath(release.definitionId, release.releaseId)) in git.texts
    ensures r.Some? ==>
      var path := LegacyPath(release.definitionId, release.releaseId);
      var name := LegacyRepositoryName(release.deployPhasesSnapshot).value.value;
      r.value == ItemReport("", randomId, path, LegacyLabel, Some(git.texts[Loc(name, project.id, path)]))
  {
    match LegacyRepositoryName(release.deployPhasesSnapshot)
    case Threw => None
    case Done(name) =>
      if !Truthy(name) then None
      else
        var path := LegacyPath(release.definitionId, release.releaseId);
        match GetItemText(git, Loc(name.value, project.id, path))
        case Threw => None
        case Done(text) => Some(ItemReport("", randomId, path, LegacyLabel, Some(text)))
  }

  /** The state left by the `try` block of `initializeState`, and whether it
      threw. */
  datatype Run = Run(state: ReportState, threw: bool)

  function FirstAttempt(s: ReportState, env: Env): (r: Run)
    ensures r.state.message == s.message
    ensures r.threw ==> r.state.items == s.items && r.state.selectedTabId == s.selectedTabId
    ensures !r.threw ==>
      (r.state == s ||
       (|r.state.items| > 0 && r.state.selectedTabId == r.state.items[0].commitId && ContentsLoaded(r.state)))
  {
    match Context(env)
    case Threw => Run(s, true)
    case Done(None) => Run(s, false)
    case Done(Some((release, project))) =>
      var named := s.(nameEnvironment := Some(release.name));
      match VersionedSource(release, project, env.git)
      case Some(items) => Run(Publish(named, items), false)
      case None => Run(named, true)
  }

  /** `validateReportOld`: every exception is swallowed. */
  function LegacyAttempt(s: ReportState, env: Env, randomId: string): (r: ReportState)
    ensures r.message == s.message
    ensures (r.items == s.items && r.selectedTabId == s.selectedTabId) ||
      (|r.items| == 1 && r.items[0].comment == LegacyLabel && r.items[0].commitId == randomId
       && r.items[0].content.Some? && r.selectedTabId == randomId)
  {
    match Context(env)
    case Threw => s
    case Done(None) => s
    case Done(Some((release, project))) =>
      var named := s.(nameEnvironment := Some(release.name));
      match LegacySource(release, project, env.git, randomId)
      case Some(item) => Publish(named, [item])
      case None => named
  }

  /** `initializeState`: on an exception, show the not-found message and run
      the legacy attempt once. */
  function InitializeState(s: ReportState, env: Env, randomId: string): (r: ReportState)
    ensures r.message == s.message || r.message == NotFoundMessage
    ensures ContentsLoaded(s) ==> ContentsLoaded(r)
    ensures r.items != s.items ==> |r.items| > 0 && r.selectedTabId == r.items[0].commitId
  {
    var first := FirstAttempt(s, env);
    if first.threw then LegacyAttempt(first.state.(message := NotFoundMessage), env, randomId)
    else first.state
  }

  /** A falsy configuration or project: neither source is tried and the
      state is left as it was. */
  lemma NoContextNoChange(s: ReportState, env: Env, randomId: string)
    requires Context(env) == Done(None)
    ensures InitializeState(s, env, randomId) == s
  {
  }

  /** A rejected configuration or project fetch: the not-found message, and
      the legacy attempt, which fails the same way, changes nothing else. */
  lemma ContextRejected(s: ReportState, env: Env, randomId: string)
    requires Context(env).Threw?
    ensures InitializeState(s, env, randomId) == s.(message := NotFoundMessage)
  {
  }

  /** The first attempt wins whenever it yields items: its list is published
      with its first item selected, the message stays, and the legacy source
      is not consulted (the result does not depend on the random id). */
  lemma VersionedSourceWins(s: ReportState, env: Env, randomId: string, otherId: string,
                            release: Release, project: Project)
    requires Context(env) == Done(Some((release, project)))
    requires VersionedSource(release, project, env.git).Some?
    ensures var items := VersionedSource(release, project, env.git).value;
      var r := InitializeState(s, env, randomId);
      r.items == items && r.selectedTabId == items[0].commitId
      && r.message == s.message && r.nameEnvironment == Some(release.name)
    ensures InitializeState(s, env, randomId) == InitializeState(s, env, otherId)
  {
  }

  /** Otherwise the legacy attempt runs once, on top of the not-found message. */
  lemma FallsBackToLegacy(s: ReportState, env: Env, randomId: string, release: Release, project: Project)
    requires Context(env) == Done(Some((release, project)))
    requires VersionedSource(release, project, env.git).None?
    ensures var named := s.(nameEnvironment := Some(release.name), message := NotFoundMessage);
      InitializeState(s, env, randomId) ==
        match LegacySource(release, project, env.git, randomId)
        case Some(item) => Publish(named, [item])
        case None => named
  {
  }

  /** A legacy hit publishes exactly one item labelled "Report", with the
      random id as commit id and the text of the `.html` file, which may be
      empty; it is selected and the not-found message stays set. */
  lemma LegacyReportPublished(s: ReportState, env: Env, randomId: string, release: Release, project: Project)
    requires Context(env) == Done(Some((release, project)))
    requires VersionedSource(release, project, env.git).None?
    requires LegacySource(release, project, env.git, randomId).Some?
    ensures var r := InitializeState(s, env, randomId);
      var path := LegacyPath(release.definitionId, release.releaseId);
      |r.items| == 1 && r.items[0].comment == LegacyLabel && r.items[0].commitId == randomId
      && r.items[0].path == path && r.items[0].url == ""
      && r.items[0].content.Some?
      && r.selectedTabId == randomId && r.message == NotFoundMessage
  {
  }

  /** Both sources fail: the items and the selection stay as they were and
      the not-found message is shown. */
  lemma NothingFound(s: ReportState, env: Env, randomId: string, release: Release, project: Project)
    requires Context(env) == Done(Some((release, project)))
    requires VersionedSource(release, project, env.git).None?
    requires LegacySource(release, project, env.git, randomId).None?
    ensures InitializeState(s, env, randomId)
         == s.(nameEnvironment := Some(release.name), message := NotFoundMessage)
  {
  }

  /** A listing that holds only folders (or nothing) makes the first attempt
      throw at `items[0]`, so resolution falls back. */
  lemma EmptyListingFallsBack(release: Release, project: Project, git: GitStore)
    requires VersionedLoc(release, project) in git.listings
    requires forall e :: e in git.listings[VersionedLoc(release, project)] ==> e.isFolder
    ensures VersionedSource(release, project, git).None?
  {
  }

  /** Whatever resolution publishes comes from a single source, carries its
      texts, and keeps an already loaded state loaded. */
  lemma ResolutionLoadsContents(s: ReportState, env: Env, randomId: string)
    requires ContentsLoaded(s)
    ensures ContentsLoaded(InitializeState(s, env, randomId))
    ensures var r := InitializeState(s, env, randomId);
      r.items == s.items ||
      (exists release, project :: Context(env) == Done(Some((release, project))) &&
        (VersionedSource(release, project, env.git) == Some(r.items) ||
         (VersionedSource(release, project, env.git).None? &&
          r.items == [LegacySource(release, project, env.git, randomId).value])))
  {
  }
}
