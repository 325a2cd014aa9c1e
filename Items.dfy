/** Report items: how a repository listing becomes the list of tabs, and how
    each item's text is filled in. */
module Items {
  import opened Js
  import opened Host

  /** `ItemReport`. `content` is `undefined` until the item's text is fetched. */
  datatype ItemReport = ItemReport(
    url: string,
    commitId: string,
    path: string,
    comment: string,
    content: Option<string>)

  /** `items.filter(item => !item.isFolder)`. */
  function NonFolders(entries: seq<GitEntry>): (r: seq<GitEntry>)
    ensures |r| <= |entries|
    ensures forall i :: 0 <= i < |r| ==> !r[i].isFolder && r[i] in entries
  {
    if |entries| == 0 then []
    else if entries[0].isFolder then NonFolders(entries[1..])
    else [entries[0]] + NonFolders(entries[1..])
  }

  /** Filtering distributes over concatenation: together with the one-entry
      cases this says the filter keeps the listing order. */
  lemma {:induction false} NonFoldersAppend(a: seq<GitEntry>, b: seq<GitEntry>)
    ensures NonFolders(a + b) == NonFolders(a) + NonFolders(b)
    decreases |a|
  {
    if |a| > 0 {
      assert (a + b)[1..] == a[1..] + b;
      NonFoldersAppend(a[1..], b);
    } else {
      assert a + b == b;
    }
  }

  /** The filter keeps every non-folder entry as often as it occurs and drops
      every folder. */
  lemma {:induction false} NonFoldersCount(entries: seq<GitEntry>, e: GitEntry)
    ensures multiset(NonFolders(entries))[e] == if e.isFolder then 0 else multiset(entries)[e]
    decreases |entries|
  {
    if |entries| > 0 {
      var head, tail := entries[0], entries[1..];
      NonFoldersCount(tail, e);
      assert entries == [head] + tail;
      assert multiset(entries) == multiset([head]) + multiset(tail);
      if !head.isFolder {
        assert NonFolders(entries) == [head] + NonFolders(tail);
        assert multiset(NonFolders(entries)) == multiset([head]) + multiset(NonFolders(tail));
      }
    }
  }

  /** The listing yields no item exactly when every entry is a folder. */
  lemma {:induction false} NonFoldersEmpty(entries: seq<GitEntry>)
    ensures NonFolders(entries) == [] <==> forall i :: 0 <= i < |entries| ==> entries[i].isFolder
  {
    if NonFolders(entries) == [] {
      forall i | 0 <= i < |entries|
        ensures entries[i].isFolder
      {
        NonFoldersCount(entries, entries[i]);
        assert entries[i] in multiset(entries);
      }
    } else {
      var e := NonFolders(entries)[0];
      NonFoldersCount(entries, e);
      assert e in multiset(entries);
    }
  }

  /** The `map` callback: `url` and `path` from the entry, `commitId` and
      `comment` from its latest change. */
  function ToItem(e: GitEntry): ItemReport
    requires e.latestProcessedChange.Some?
  {
    ItemReport(e.url, e.latestProcessedChange.value.commitId, e.path,
               e.latestProcessedChange.value.comment, None)
  }

  /** `items.filter(...).map(...)`: the callback throws on a kept entry whose
      latest change is missing. */
  function Normalise(entries: seq<GitEntry>): (r: Attempt<seq<ItemReport>>)
    ensures r.Done? <==>
      forall i :: 0 <= i < |entries| && !entries[i].isFolder ==> entries[i].latestProcessedChange.Some?
    ensures r.Done? ==> |r.value| == |NonFolders(entries)|
    ensures r.Done? ==> forall i :: 0 <= i < |r.value| ==>
      var e := NonFolders(entries)[i];
      e.latestProcessedChange.Some? &&
      r.value[i] == ItemReport(e.url, e.latestProcessedChange.value.commitId, e.path,
                               e.latestProcessedChange.value.comment, None)
  {
    var kept := NonFolders(entries);
    if forall i :: 0 <= i < |kept| ==> kept[i].latestProcessedChange.Some? then
      assert forall i :: 0 <= i < |entries| && !entries[i].isFolder ==> entries[i].latestProcessedChange.Some? by {
        forall i | 0 <= i < |entries| && !entries[i].isFolder
          ensures entries[i].latestProcessedChange.Some?
        {
          NonFoldersCount(entries, entries[i]);
          assert entries[i] in multiset(entries);
          assert entries[i] in kept;
        }
      }
      Done(seq(|kept|, i requires 0 <= i < |kept| => ToItem(kept[i])))
    else
      Threw
  }

  /** The item with its text, fetched from its own path. */
  function WithText(item: ItemReport, text: string): ItemReport
  {
    item.(content := Some(text))
  }

  /** Every item's path names a file the repository can return. */
  predicate AllFetchable(items: seq<ItemReport>, repository: string, project: string, git: GitStore)
  {
    forall i :: 0 <= i < |items| ==> Loc(repository, project, items[i].path) in git.texts
  }

  /** The texts of the items, awaited one after the other; the first failing
      fetch makes the whole step throw. */
  function FetchAll(items: seq<ItemReport>, repository: string, project: string, git: GitStore): (r: Attempt<seq<ItemReport>>)
    ensures r.Done? <==> AllFetchable(items, repository, project, git)
    ensures r.Done? ==> |r.value| == |items| && forall i :: 0 <= i < |items| ==>
      r.value[i] == WithText(items[i], git.texts[Loc(repository, project, items[i].path)])
  {
    if |items| == 0 then Done([])
    else
      match GetItemText(git, Loc(repository, project, items[0].path))
      case Threw => Threw
      case Done(text) =>
        match FetchAll(items[1..], repository, project, git)
        case Threw => Threw
        case Done(rest) => Done([WithText(items[0], text)] + rest)
  }
}
