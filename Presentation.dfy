/** What `render`, `getPageContent` and `onSelectedTabChanged` make of the
    component state. */
module Presentation {
  import opened Js
  import opened Items
  import opened Resolution

  datatype Tab = Tab(name: string, id: string)

  /** The two screens of `render`: the tab bar with the selected item's
      content under the environment name, or the spinner with the message. */
  datatype Screen =
    | TabsView(title: Option<string>, tabs: seq<Tab>, selectedTabId: string, content: Option<string>)
    | SpinnerView(caption: string)

  /** `getPageContent`: the content of the first item whose commit id is the
      selected tab id; nothing when none matches. */
  function PageContent(s: ReportState): (r: Option<string>)
    ensures (forall k :: 0 <= k < |s.items| ==> s.items[k].commitId != s.selectedTabId) ==> r.None?
    ensures forall k :: 0 <= k < |s.items| && s.items[k].commitId == s.selectedTabId
              && (forall j :: 0 <= j < k ==> s.items[j].commitId != s.selectedTabId)
              ==> r == s.items[k].content
  {
    match FindIndex(s.items, (x: ItemReport) => x.commitId == s.selectedTabId)
    case None => None
    case Some(k) => s.items[k].content
  }

  /** `render`: tabs exactly when there are items, one per item in list
      order, named by its comment and identified by its commit id. */
  function Render(s: ReportState): (r: Screen)
    ensures r.TabsView? <==> |s.items| > 0
    ensures r.SpinnerView? ==> r.caption == s.message
    ensures r.TabsView? ==>
      |r.tabs| == |s.items| && r.selectedTabId == s.selectedTabId && r.title == s.nameEnvironment
      && r.content == PageContent(s)
      && forall i :: 0 <= i < |s.items| ==> r.tabs[i] == Tab(s.items[i].comment, s.items[i].commitId)
  {
    if |s.items| > 0 then
      TabsView(s.nameEnvironment,
               seq(|s.items|, i requires 0 <= i < |s.items| => Tab(s.items[i].comment, s.items[i].commitId)),
               s.selectedTabId, PageContent(s))
    else
      SpinnerView(s.message)
  }

  /** `onSelectedTabChanged`: the new id is taken as it is, with no check
      that an item carries it. */
  function SelectTab(s: ReportState, newTabId: string): (r: ReportState)
    ensures r.selectedTabId == newTabId
    ensures r.items == s.items && r.message == s.message && r.nameEnvironment == s.nameEnvironment
  {
    s.(selectedTabId := newTabId)
  }

  /** Before resolution the spinner shows the loading message. */
  lemma InitialScreen()
    ensures Initial().selectedTabId == "0"
    ensures Render(Initial()) == SpinnerView(LoadingMessage)
  {
  }

  /** Selecting the tab already selected changes nothing. */
  lemma SelectCurrentIsNoOp(s: ReportState)
    ensures SelectTab(s, s.selectedTabId) == s
  {
  }

  /** Selecting the tab of an item that is the first with its commit id shows
      that item's content, which is present once resolution has loaded it. */
  lemma SelectThenShow(s: ReportState, k: nat)
    requires k < |s.items|
    requires forall j :: 0 <= j < k ==> s.items[j].commitId != s.items[k].commitId
    requires ContentsLoaded(s)
    ensures PageContent(SelectTab(s, s.items[k].commitId)) == s.items[k].content
    ensures PageContent(SelectTab(s, s.items[k].commitId)).Some?
  {
  }

  /** Items sharing a commit id share a tab id: selecting the later one shows
      the earlier one's content, so only the first is reachable. */
  lemma LaterDuplicateShadowed(s: ReportState, j: nat, k: nat)
    requires j < k < |s.items|
    requires s.items[j].commitId == s.items[k].commitId
    requires forall i :: 0 <= i < j ==> s.items[i].commitId != s.items[j].commitId
    ensures PageContent(SelectTab(s, s.items[k].commitId)) == s.items[j].content
  {
  }

  /** Selecting an id no item carries keeps the tab bar but shows no content. */
  lemma SelectUnknownShowsNothing(s: ReportState, id: string)
    requires |s.items| > 0
    requires forall k :: 0 <= k < |s.items| ==> s.items[k].commitId != id
    ensures Render(SelectTab(s, id)).TabsView?
    ensures Render(SelectTab(s, id)).content.None?
  {
  }

  /** After resolution from the initial state, the screen is the first
      item's tab and content when a source yielded items, and the not-found
      message otherwise (or the loading message when there was no context). */
  lemma ResolvedScreen(env: Host.Env, randomId: string)
    ensures var r := InitializeState(Initial(), env, randomId);
      match Render(r)
      case TabsView(_, tabs, selected, content) =>
        |r.items| > 0 && selected == r.items[0].commitId && content.Some?
        && content == r.items[0].content && tabs[0].id == selected
      case SpinnerView(caption) =>
        r.items == [] && (caption == NotFoundMessage || (caption == LoadingMessage && Host.Context(env) == Js.Done(None)))
  {
  }
}
