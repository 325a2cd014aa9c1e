# ReportContent — report resolution and tab selection, in Dafny

This project models the `ReportContent` component of an Azure DevOps
extension that shows a report for a release environment. Two parts are modelled:

- **Resolution.** `initializeState` lists the report files of the environment
  in the `DevOps_Vault_Reports_Extension` repository. The files sit under the
  folder `/{definitionId}/{releaseId}/{definitionEnvironmentId}/{attemptNumber}/`.
  The component loads each file's text and publishes the list with the first item
  selected. If anything in that attempt throws, it sets the message
  " ¡ The report was not found !" and runs `validateReportOld` once.
  That legacy attempt takes a repository name from the `nameRepository` input of
  the workflow task `13008e5e-9195-4043-9baf-c5d70da839e3`. It loads
  `{definitionId}/{releaseId}.html` from that repository and publishes it as a
  single item labelled "Report".
- **Presentation.** `render` shows either one tab per item or the status
  message. `onSelectedTabChanged` sets the selected tab id. `getPageContent`
  shows the content of the first item whose commit id is the selected id.

Module layout:

- `Js`: optional values, rejected awaits (`Attempt`), `Array.prototype.find`,
  string truthiness.
- `Decimal`: how a numeric id renders in a template literal, with a parser
  that reads it back. Ids are taken to be safe integers, where the rendering
  is plain decimal.
- `Paths`: the two path formats and their parsers.
- `Host`: the host's answers as one input value, `Env`. It holds the
  configuration, the project and the Git store. An absent key in the Git store
  is a rejected REST call.
- `Items`: the filter/map normalisation of a listing, and the text loading.
- `Resolution`: the state value, and the two attempts as functions on it.
- `Presentation`: `render`, `getPageContent` and tab selection, as functions.
- `ReportComponent`: the class `ReportContent`.
  - Its fields are `selectedTabId`, `items`, `message` and `nameEnvironment`.
  - Its handlers update those fields step by step.
  - The in-place `for` loop that fills `content` is kept as a loop over an array.
  - Each handler is proved equal to the function that specifies it.

What the component does not do, as the code is written:

- It has no attachment-based source and does not strip a `-+-` suffix from labels.
- It publishes a legacy report even when the report's text is empty.
- It lets a tab be selected with an id that no item carries.
- It treats a missing configuration or project as "do nothing": no source is
  tried and no message is set.

## Model

| member | source | states |
|---|---|---|
| `Js.FindIndex` | src/Extension/Report/Report.tsx:166 | the index returned is the first whose element satisfies the test; none is returned only when no element does |
| `Js.Find` | src/Extension/Report/Report.tsx:224-226 | `find` yields an element exactly when one satisfies the test; the element it yields satisfies the test, and no earlier element does |
| `Decimal.NatToStringRoundTrip` | src/Extension/Report/Report.tsx:66-67 | a numeric id renders as a canonical decimal string, and reading that string back gives the id |
| `Decimal.NatToStringInjective` | src/Extension/Report/Report.tsx:66-67 | distinct ids render to distinct strings |
| `Paths.VersionedPathSegments` | src/Extension/Report/Report.tsx:66-67 | the versioned path is a leading slash, the definition, release, definition-environment ids and the deploy-step count in decimal separated by slashes, and a trailing slash |
| `Paths.VersionedPathRoundTrip` | src/Extension/Report/Report.tsx:66-67 | the four identifiers can be read back from the versioned path |
| `Paths.VersionedPathInjective` | src/Extension/Report/Report.tsx:66-67 | two environments share a versioned folder only when all four identifiers agree |
| `Paths.LegacyPathSegments` | src/Extension/Report/Report.tsx:220 | the legacy path is the definition id, a slash, and the release id followed by `.html`; it has no leading slash |
| `Paths.LegacyPathRoundTrip` | src/Extension/Report/Report.tsx:220 | both identifiers can be read back from the legacy path |
| `Paths.LegacyPathInjective` | src/Extension/Report/Report.tsx:220 | two releases share a legacy file only when both identifiers agree |
| `Items.NonFolders` | src/Extension/Report/Report.tsx:74 | the filter keeps only non-folder entries, each taken from the listing |
| `Items.NonFoldersAppend` | src/Extension/Report/Report.tsx:74 | the filter distributes over concatenation, so it keeps the listing order |
| `Items.NonFoldersCount` | src/Extension/Report/Report.tsx:74 | the filter keeps every non-folder entry as many times as it occurs and drops every folder |
| `Items.NonFoldersEmpty` | src/Extension/Report/Report.tsx:74 | the filter yields nothing exactly when every entry is a folder |
| `Items.Normalise` | src/Extension/Report/Report.tsx:74-84 | filter then map succeeds exactly when every non-folder entry has a latest change; item i copies `url` and `path` from the i-th kept entry and `commitId` and `comment` from its latest change, with no content yet |
| `Items.FetchAll` | src/Extension/Report/Report.tsx:88-90 | loading succeeds exactly when every item's path has a text; each item then keeps its fields and gets the text of its own path |
| `Resolution.Initial` | src/Extension/Report/Report.tsx:37-41 | the constructor's state has no items and no environment name |
| `Resolution.Publish` | src/Extension/Report/Report.tsx:92-93 | publishing sets the items and selects the first item's commit id; message and environment name are untouched |
| `Resolution.VersionedSource` | src/Extension/Report/Report.tsx:66-93 | the first attempt yields items exactly when the listing exists, every kept entry has a latest change and a loadable text, and at least one entry is kept; the items are the kept entries in order, each with its own text |
| `Resolution.LegacyRepositoryName` | src/Extension/Report/Report.tsx:224-226 | the lookup throws exactly when no deploy phase holds the legacy task; otherwise it yields the `nameRepository` input of the first such task of the first such phase, or nothing when the input is absent |
| `Resolution.LegacySource` | src/Extension/Report/Report.tsx:224-250 | the legacy attempt yields an item exactly when the repository name is truthy and the `.html` file exists; that item has url "", the random id, the legacy path, label "Report" and the file's text, even when the text is empty |
| `Resolution.FirstAttempt` | src/Extension/Report/Report.tsx:52-95 | the `try` block never sets the message; when it throws, items and selection are as before; otherwise the state is unchanged or holds a non-empty, fully loaded list with its first item selected. Its full behaviour is stated by `NoContextNoChange`, `ContextRejected`, `VersionedSourceWins` and `FallsBackToLegacy` |
| `Resolution.LegacyAttempt` | src/Extension/Report/Report.tsx:206-257 | the message is never changed; either items and selection stay as they were, or exactly one loaded item labelled "Report" with the random id is published and selected. Its full behaviour is stated by `LegacyReportPublished`, `NothingFound` and `Resolution.LegacySource` |
| `Resolution.InitializeState` | src/Extension/Report/Report.tsx:50-104 | the message ends as it was or as the not-found message; loaded items stay loaded; a newly published list is non-empty and its first item is selected. Its full behaviour is stated by `NoContextNoChange` through `ResolutionLoadsContents` |
| `Resolution.NoContextNoChange` | src/Extension/Report/Report.tsx:59 | a falsy configuration or project leaves the state unchanged, and neither source is tried |
| `Resolution.ContextRejected` | src/Extension/Report/Report.tsx:97-101 | a rejected configuration or project fetch only sets the not-found message |
| `Resolution.VersionedSourceWins` | src/Extension/Report/Report.tsx:88-93 | when the first attempt yields items, they are published with the first selected, the message is kept, and the result does not depend on the random id |
| `Resolution.FallsBackToLegacy` | src/Extension/Report/Report.tsx:97-101 | otherwise the not-found message is set and the legacy attempt runs once on that state |
| `Resolution.LegacyReportPublished` | src/Extension/Report/Report.tsx:232-245 | a legacy hit publishes exactly one item labelled "Report" whose id is the random id; it is selected and the not-found message remains |
| `Resolution.NothingFound` | src/Extension/Report/Report.tsx:247-256 | when both attempts fail, the items and the selection are kept and only the not-found message and the environment name change |
| `Resolution.EmptyListingFallsBack` | src/Extension/Report/Report.tsx:92 | a listing with no file makes the first attempt fail, because `items[0]` is undefined |
| `Resolution.ResolutionLoadsContents` | src/Extension/Report/Report.tsx:88-93 | every published item carries its text, and the published list comes from exactly one source: the previous list, the versioned list, or the single legacy item |
| `Presentation.PageContent` | src/Extension/Report/Report.tsx:163-171 | the page shows the content of the first item whose commit id is the selected id, and nothing when no item matches |
| `Presentation.Render` | src/Extension/Report/Report.tsx:106-151 | tabs are shown exactly when there are items: one tab per item, in order, named by its comment and identified by its commit id, under the environment name; otherwise only the message is shown |
| `Presentation.SelectTab` | src/Extension/Report/Report.tsx:153-157 | selection sets the tab id to the given id with no membership check and changes nothing else |
| `Presentation.InitialScreen` | src/Extension/Report/Report.tsx:37-41 | initially the selected id is "0" and the spinner shows "Loading ....." |
| `Presentation.SelectCurrentIsNoOp` | src/Extension/Report/Report.tsx:153-157 | selecting the current tab leaves the state unchanged |
| `Presentation.SelectThenShow` | src/Extension/Report/Report.tsx:163-171 | selecting the tab of an item that is the first with its commit id shows that item's loaded content |
| `Presentation.LaterDuplicateShadowed` | src/Extension/Report/Report.tsx:166 | when two items share a commit id, selecting the later one shows the earlier one's content |
| `Presentation.SelectUnknownShowsNothing` | src/Extension/Report/Report.tsx:153-171 | selecting an id that no item carries keeps the tab bar and shows no content |
| `Presentation.ResolvedScreen` | src/Extension/Report/Report.tsx:106-151 | after resolution from the initial state, the screen shows either the first item selected with its content, or the not-found message; the loading message remains only when there was no configuration or project |
| `ReportComponent.FetchContents` | src/Extension/Report/Report.tsx:88-90 | the loop fills each item's content from its own path in index order and succeeds exactly when all paths load, matching `FetchAll`; on failure the items before the failing one are filled and the rest are untouched |
| `ReportComponent.ReportContent.constructor` | src/Extension/Report/Report.tsx:34-42 | the new component's state is the initial state |
| `ReportComponent.ReportContent.OnSelectedTabChanged` | src/Extension/Report/Report.tsx:153-157 | the new state is `SelectTab` of the old one |
| `ReportComponent.ReportContent.InitializeState` | src/Extension/Report/Report.tsx:50-104 | the fields end as `Resolution.InitializeState` says: versioned attempt first, not-found message and legacy attempt on any exception |
| `ReportComponent.ReportContent.ValidateReportOld` | src/Extension/Report/Report.tsx:206-257 | the fields end as `Resolution.LegacyAttempt` says; every exception is swallowed |

## Left out

- The SDK bootstrap and service lookup (`SDK.init`, `SDK.ready`,
  `getService`, `getClient`) are not modelled. Their answers are the input `Env`.
  A rejected service lookup counts as a rejected project fetch.
- The Git REST calls `getItems` and `getItemText` are network I/O. They are
  modelled as lookups in `GitStore`, keyed by repository, project id and path.
  A missing key is a rejection.
- Both attempts see the same host answers. A host whose answers change between
  the two attempts is not modelled.
- `Math.random().toString(36).substring(7)` uses floating point and randomness.
  The id is a parameter.
- `async`/`await` is modelled as straight-line code. React's `setState` is
  modelled as an immediate field update. Batching of updates is not modelled.
- React rendering (JSX, `Page`, `Header`, `TabBar`, `Spinner`, `createMarkup`,
  `dangerouslySetInnerHTML`) is not modelled. `render` is modelled only as the
  `Screen` value it chooses.
- The command bar, the placeholder download dialog, `console.error` logging,
  the stylesheet import and `showRootComponent` are not modelled. None of them
  affects resolution or selection.
- `headerDescription`, `useLargeTitle` and `useCompactPivots` are presentation
  flags, so they are not modelled.
- A malformed configuration is not modelled. Examples are a missing
  `releaseEnvironment`, `releaseDefinition`, `deploySteps`, `workflowTasks` or
  `inputs` object, each of which would raise a `TypeError`. The model assumes
  these fields are present. A missing `latestProcessedChange` on a listed file
  is modelled, and makes the first attempt throw.
- Numeric ids are assumed to be safe integers (below 2^53), where `${n}` and
  `+ "/" +` give plain decimal digits. Above 2^53 JavaScript holds integers
  inexactly, and from 1e21 it prints them in exponent form (`1e+21`); the
  model renders every natural number in plain decimal.
- `commitId` and `comment` are always strings in the model. An `undefined`
  commit id, which the code passes on with `as string`, is not modelled.
