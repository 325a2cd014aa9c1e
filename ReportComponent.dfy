/** The `ReportContent` component: its state fields and the handlers that
    update them step by step. Each handler is proved against the function
    of `Resolution` or `Presentation` that specifies it. */
module ReportComponent {
  import opened Js
  import opened Host
  import opened Items
  import opened Paths
  import opened Resolution
  import opened Presentation

  /** The text-fetching loop of `initializeState`: fills `content` of each
      item in index order from its own path, stopping at the first fetch
      that rejects. */
  method FetchContents(buffer: array<ItemReport>, repository: string, project: string, git: GitStore)
    returns (ok: bool)
    modifies buffer
    ensures ok <==> AllFetchable(old(buffer[..]), repository, project, git)
    ensures ok ==> FetchAll(old(buffer[..]), repository, project, git) == Done(buffer[..])
    ensures !ok ==> exists k :: (0 <= k < buffer.Length
      && Loc(repository, project, old(buffer[k]).path) !in git.texts
      && (forall i :: 0 <= i < k ==>
            Loc(repository, project, old(buffer[i]).path) in git.texts &&
            buffer[i] == WithText(old(buffer[i]), git.texts[Loc(repository, project, old(buffer[i]).path)]))
      && (forall i :: k <= i < buffer.Length ==> buffer[i] == old(buffer[i])))
  {
    var index := 0;
    while index < buffer.Length
      invariant 0 <= index <= buffer.Length
      invariant forall i :: 0 <= i < index ==>
        Loc(repository, project, old(buffer[i]).path) in git.texts &&
        buffer[i] == WithText(old(buffer[i]), git.texts[Loc(repository, project, old(buffer[i]).path)])
      invariant forall i :: index <= i < buffer.Length ==> buffer[i] == old(buffer[i])
    {
      var text := GetItemText(git, Loc(repository, project, buffer[index].path));
      if text.Threw? {
        return false;
      }
      buffer[index] := buffer[index].(content := Some(text.value));
      index := index + 1;
    }
    ghost var before := old(buffer[..]);
    assert AllFetchable(before, repository, project, git);
    assert FetchAll(before, repository, project, git).value == buffer[..];
    return true;
  }

  class ReportContent {
    var selectedTabId: string
    var items: seq<ItemReport>
    var message: string
    var nameEnvironment: Option<string>

    /** The fields, as one value. */
    function State(): ReportState
      reads this
    {
      ReportState(selectedTabId, items, message, nameEnvironment)
    }

    constructor ()
      ensures State() == Initial()
    {
      selectedTabId := "0";
      items := [];
      message := LoadingMessage;
      nameEnvironment := None;
    }

    /** `onSelectedTabChanged`. */
    method OnSelectedTabChanged(newTabId: string)
      modifies this
      ensures State() == SelectTab(old(State()), newTabId)
    {
      selectedTabId := newTabId;
    }

    /** `initializeState`: the versioned attempt, and on any exception the
        not-found message followed by the legacy attempt. */
    method InitializeState(env: Env, randomId: string)
      modifies this
      ensures State() == Resolution.InitializeState(old(State()), env, randomId)
    {
      var threw := false;
      var configuration := env.configuration;
      var project := env.project;
      if configuration.Threw? || project.Threw? {
        threw := true;
      } else if configuration.value.Some? && project.value.Some? {
        var release := configuration.value.value;
        var projectId := project.value.value.id;
        var path := VersionedPath(release.definitionId, release.releaseId,
                                  release.definitionEnvironmentId, release.deployStepCount);
        nameEnvironment := Some(release.name);
        var listing := GetItems(env.git, Loc(ReportsRepository, projectId, path));
        if listing.Threw? {
          threw := true;
        } else {
          var normalised := Normalise(listing.value);
          if normalised.Threw? {
            threw := true;
          } else {
            var found := normalised.value;
            var buffer := new ItemReport[|found|](i requires 0 <= i < |found| => found[i]);
            assert buffer[..] == found;
            var fetched := FetchContents(buffer, ReportsRepository, projectId, env.git);
            if !fetched || buffer.Length == 0 {
              threw := true;
            } else {
              selectedTabId := buffer[0].commitId;
              items := buffer[..];
            }
          }
        }
      }
      if threw {
        message := NotFoundMessage;
        ValidateReportOld(env, randomId);
      }
    }

    /** `validateReportOld`: the single `.html` file named by the legacy
        task's `nameRepository` input; every exception is swallowed. */
    method ValidateReportOld(env: Env, randomId: string)
      modifies this
      ensures State() == LegacyAttempt(old(State()), env, randomId)
    {
      var configuration := env.configuration;
      var project := env.project;
      if configuration.Done? && project.Done? && configuration.value.Some? && project.value.Some? {
        var release := configuration.value.value;
        var projectId := project.value.value.id;
        var path := LegacyPath(release.definitionId, release.releaseId);
        nameEnvironment := Some(release.name);
        var repositoryName := LegacyRepositoryName(release.deployPhasesSnapshot);
        if repositoryName.Done? && Truthy(repositoryName.value) {
          var item := ItemReport("", randomId, path, LegacyLabel, None);
          var text := GetItemText(env.git, Loc(repositoryName.value.value, projectId, item.path));
          if text.Done? {
            item := item.(content := Some(text.value));
            var list := [];
            list := list + [item];
            selectedTabId := list[0].commitId;
            items := list;
          }
        }
      }
    }
  }
}
