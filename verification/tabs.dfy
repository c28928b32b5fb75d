/** The open-document tab strip of the macOS host (`DocumentTabsView`).

    The view keeps an ordered list of tabs, the id of the selected tab, and a
    binding to the file selected in the file browser. Choosing a file in the
    browser opens (or re-selects) its tab; clicking a tab selects it; closing
    a tab hands the selection to its neighbour. A tab's id is a fresh UUID in
    the source; here the caller supplies an id no open tab uses. */
module Tabs {
  import opened Basics

  type TabId = nat
  type Url = string

  /** `DocumentTab`; its title and modified flag play no part in the logic. */
  datatype Tab = Tab(id: TabId, url: Url)

  datatype TabsView = TabsView(tabs: seq<Tab>, selectedId: Option<TabId>, selectedFile: Option<Url>)

  function Ids(tabs: seq<Tab>): set<TabId> {
    set t | t in tabs :: t.id
  }

  predicate UniqueIds(tabs: seq<Tab>) {
    forall i, j :: 0 <= i < j < |tabs| ==> tabs[i].id != tabs[j].id
  }

  predicate UniqueUrls(tabs: seq<Tab>) {
    forall i, j :: 0 <= i < j < |tabs| ==> tabs[i].url != tabs[j].url
  }

  /** Tab ids and urls are unique, and the selection names an open tab. */
  predicate Valid(v: TabsView) {
    && UniqueIds(v.tabs)
    && UniqueUrls(v.tabs)
    && (v.selectedId.Some? ==> v.selectedId.value in Ids(v.tabs))
  }

  /** The view and the file browser agree: a selected tab is exactly when a
      file is selected, and the file is that tab's. */
  predicate Synced(v: TabsView) {
    match v.selectedId
    case None => v.selectedFile.None?
    case Some(id) => exists t :: t in v.tabs && t.id == id && v.selectedFile == Some(t.url)
  }

  function Empty(): (v: TabsView)
    ensures Valid(v) && Synced(v)
  {
    TabsView([], None, None)
  }

  /** `openTabs.first(where: { $0.url == url })`, as an index. */
  function IndexOfUrl(tabs: seq<Tab>, url: Url): (r: Option<nat>)
    ensures r.None? <==> forall t :: t in tabs ==> t.url != url
    ensures r.Some? ==>
      && r.value < |tabs| && tabs[r.value].url == url
      && forall j :: 0 <= j < r.value ==> tabs[j].url != url
  {
    if |tabs| == 0 then None
    else if tabs[0].url == url then Some(0)
    else match IndexOfUrl(tabs[1..], url)
      case None => None
      case Some(i) => Some(i + 1)
  }

  /** `openTabs.firstIndex(where: { $0.id == id })`. */
  function IndexOfId(tabs: seq<Tab>, id: TabId): (r: Option<nat>)
    ensures r.None? <==> id !in Ids(tabs)
    ensures r.Some? ==>
      && r.value < |tabs| && tabs[r.value].id == id
      && forall j :: 0 <= j < r.value ==> tabs[j].id != id
  {
    if |tabs| == 0 then None
    else if tabs[0].id == id then Some(0)
    else match IndexOfId(tabs[1..], id)
      case None => None
      case Some(i) => Some(i + 1)
  }

  /** `selectedTab`: the open tab whose id is the selected id, if any. */
  function SelectedTab(v: TabsView): (r: Option<Tab>)
    ensures r.Some? ==> r.value in v.tabs && v.selectedId == Some(r.value.id)
    ensures r.None? <==> v.selectedId.None? || v.selectedId.value !in Ids(v.tabs)
  {
    if v.selectedId.None? then None
    else match IndexOfId(v.tabs, v.selectedId.value)
      case None => None
      case Some(i) => Some(v.tabs[i])
  }

  /** `openFile`: a url already open only re-selects its tab; a new url gets a
      new tab at the end, which is selected. The file binding is untouched. */
  function OpenFile(v: TabsView, url: Url, newId: TabId): (r: TabsView)
    requires newId !in Ids(v.tabs)
    ensures (exists t :: t in v.tabs && t.url == url) ==>
      r.tabs == v.tabs && exists t :: t in v.tabs && t.url == url && r.selectedId == Some(t.id)
    ensures (forall t :: t in v.tabs ==> t.url != url) ==>
      r.tabs == v.tabs + [Tab(newId, url)] && r.selectedId == Some(newId)
    ensures r.selectedFile == v.selectedFile
    ensures Valid(v) ==> Valid(r) && SelectedTab(r).Some? && SelectedTab(r).value.url == url
  {
    match IndexOfUrl(v.tabs, url)
    case Some(i) => v.(selectedId := Some(v.tabs[i].id))
    case None =>
      var r := v.(tabs := v.tabs + [Tab(newId, url)], selectedId := Some(newId));
      assert r.tabs[|v.tabs|] == Tab(newId, url);
      r
  }

  /** `selectTab`: both the selection and the browser's file follow the tab. */
  function SelectTab(v: TabsView, tab: Tab): (r: TabsView)
    ensures r.tabs == v.tabs
    ensures r.selectedId == Some(tab.id) && r.selectedFile == Some(tab.url)
    ensures Valid(v) && tab in v.tabs ==> Valid(r) && Synced(r) && SelectedTab(r) == Some(tab)
  {
    v.(selectedId := Some(tab.id), selectedFile := Some(tab.url))
  }

  /** The tabs without the one whose id is `id`, in their order. */
  function Without(tabs: seq<Tab>, id: TabId): (r: seq<Tab>)
    ensures forall t :: t in r <==> t in tabs && t.id != id
  {
    if |tabs| == 0 then []
    else if tabs[0].id == id then Without(tabs[1..], id)
    else [tabs[0]] + Without(tabs[1..], id)
  }

  /** The tab that takes over the selection when the tab at `i` was closed
      and `rest` remain: the one now at `i`, else the last, else none. */
  function Successor(rest: seq<Tab>, i: nat): (r: Option<Tab>)
    ensures r.Some? ==> r.value in rest
    ensures r.None? <==> |rest| == 0
  {
    if i < |rest| then Some(rest[i])
    else if |rest| > 0 then Some(rest[|rest| - 1])
    else None
  }

  /** `closeTab`: remove the tab with that id, and when it was the selected
      one, hand the selection (and the browser's file) to its successor. */
  function CloseTab(v: TabsView, tab: Tab): (r: TabsView)
    ensures tab.id !in Ids(v.tabs) ==> r == v
    ensures tab.id in Ids(v.tabs) ==> |r.tabs| == |v.tabs| - 1
    ensures UniqueIds(v.tabs) ==> r.tabs == Without(v.tabs, tab.id)
    ensures forall t :: t in r.tabs ==> t in v.tabs
    ensures v.selectedId != Some(tab.id) ==> r.selectedId == v.selectedId && r.selectedFile == v.selectedFile
  {
    match IndexOfId(v.tabs, tab.id)
    case None =>
      WithoutAbsent(v.tabs, tab.id);
      v
    case Some(i) =>
      var rest := v.tabs[..i] + v.tabs[i + 1..];
      RemoveAt(v.tabs, i);
      if v.selectedId == Some(tab.id) then
        match Successor(rest, i)
        case Some(t) => v.(tabs := rest, selectedId := Some(t.id), selectedFile := Some(t.url))
        case None => v.(tabs := rest, selectedId := None, selectedFile := None)
      else v.(tabs := rest)
  }

  /** Closing the selected tab at index `i` selects the tab that followed it,
      else the one before it, else nothing, and the browser's file follows. */
  lemma CloseSelectedTab(v: TabsView, tab: Tab)
    requires v.selectedId == Some(tab.id) && tab.id in Ids(v.tabs)
    ensures
      var i := IndexOfId(v.tabs, tab.id).value;
      var r := CloseTab(v, tab);
      && (i + 1 < |v.tabs| ==> r.selectedId == Some(v.tabs[i + 1].id) && r.selectedFile == Some(v.tabs[i + 1].url))
      && (i + 1 == |v.tabs| && i > 0 ==> r.selectedId == Some(v.tabs[i - 1].id) && r.selectedFile == Some(v.tabs[i - 1].url))
      && (|v.tabs| == 1 ==> r.selectedId == None && r.selectedFile == None)
  {
    var i := IndexOfId(v.tabs, tab.id).value;
    RemoveAtIndex(v.tabs, i);
  }

  /** Closing keeps ids and urls unique, keeps the selection on an open tab,
      and keeps the view in step with the browser. */
  lemma CloseTabValid(v: TabsView, tab: Tab)
    requires Valid(v)
    ensures Valid(CloseTab(v, tab))
    ensures Synced(v) ==> Synced(CloseTab(v, tab))
  {
    var r := CloseTab(v, tab);
    if tab.id in Ids(v.tabs) {
      var i := IndexOfId(v.tabs, tab.id).value;
      RemoveAt(v.tabs, i);
      if v.selectedId.Some? && v.selectedId != Some(tab.id) {
        var t :| t in v.tabs && t.id == v.selectedId.value;
        assert t in r.tabs;
        if Synced(v) {
          var u :| u in v.tabs && u.id == v.selectedId.value && v.selectedFile == Some(u.url);
          assert u in r.tabs;
        }
      }
    }
  }

  /** Removing the first tab with id `tabs[i].id` from a list of unique ids
      is filtering that id out; removal keeps ids and urls unique. */
  lemma RemoveAt(tabs: seq<Tab>, i: nat)
    requires i < |tabs|
    ensures UniqueIds(tabs) ==> tabs[..i] + tabs[i + 1..] == Without(tabs, tabs[i].id)
    ensures UniqueIds(tabs) ==> UniqueIds(tabs[..i] + tabs[i + 1..])
    ensures UniqueUrls(tabs) ==> UniqueUrls(tabs[..i] + tabs[i + 1..])
    ensures forall t :: t in tabs[..i] + tabs[i + 1..] ==> t in tabs
  {
    RemoveAtIndex(tabs, i);
    if UniqueIds(tabs) {
      WithoutSplit(tabs, i);
    }
  }

  lemma RemoveAtIndex(tabs: seq<Tab>, i: nat)
    requires i < |tabs|
    ensures forall k :: 0 <= k < |tabs| - 1 ==>
      (tabs[..i] + tabs[i + 1..])[k] == if k < i then tabs[k] else tabs[k + 1]
    ensures UniqueIds(tabs) ==> UniqueIds(tabs[..i] + tabs[i + 1..])
    ensures UniqueUrls(tabs) ==> UniqueUrls(tabs[..i] + tabs[i + 1..])
  {
    var rest := tabs[..i] + tabs[i + 1..];
    forall k | 0 <= k < |rest|
      ensures rest[k] == if k < i then tabs[k] else tabs[k + 1]
    {
    }
  }

  lemma {:induction false} WithoutSplit(tabs: seq<Tab>, i: nat)
    requires i < |tabs| && UniqueIds(tabs)
    ensures tabs[..i] + tabs[i + 1..] == Without(tabs, tabs[i].id)
    decreases i
  {
    var id := tabs[i].id;
    if i == 0 {
      WithoutAbsent(tabs[1..], id);
    } else {
      assert UniqueIds(tabs[1..]);
      WithoutSplit(tabs[1..], i - 1);
      assert tabs[0].id != id;
      assert tabs[1..][i - 1] == tabs[i];
      assert tabs[..i] + tabs[i + 1..] == [tabs[0]] + (tabs[1..][..i - 1] + tabs[1..][i..]);
    }
  }

  lemma {:induction false} WithoutAbsent(tabs: seq<Tab>, id: TabId)
    requires forall t :: t in tabs ==> t.id != id
    ensures Without(tabs, id) == tabs
  {
    if |tabs| > 0 {
      assert tabs[0] in tabs;
      assert forall t :: t in tabs[1..] ==> t in tabs;
      WithoutAbsent(tabs[1..], id);
      assert tabs == [tabs[0]] + tabs[1..];
    }
  }

  /** The view's reaction to the browser's file changing: keep the new file
      and, when there is one, open it. */
  function FileSelected(v: TabsView, newFile: Option<Url>, newId: TabId): (r: TabsView)
    requires newId !in Ids(v.tabs)
    ensures r.selectedFile == newFile
    ensures newFile.None? ==> r.tabs == v.tabs && r.selectedId == v.selectedId
    ensures Valid(v) && newFile.Some? ==> Valid(r) && Synced(r)
  {
    var v' := v.(selectedFile := newFile);
    match newFile
    case None => v'
    case Some(url) =>
      var r := OpenFile(v', url, newId);
      assert SelectedTab(r).value in r.tabs;
      r
  }

  /** Selecting a tab or closing one sets the browser's file, whose change
      handler then opens that file again; for a view in sync that echo
      changes nothing. */
  lemma EchoIsNoOp(v: TabsView, newId: TabId)
    requires Valid(v) && Synced(v) && newId !in Ids(v.tabs)
    requires v.selectedFile.Some?
    ensures FileSelected(v, v.selectedFile, newId) == v
  {
    var t :| t in v.tabs && t.id == v.selectedId.value && v.selectedFile == Some(t.url);
    var i := IndexOfUrl(v.tabs, t.url).value;
    var k :| 0 <= k < |v.tabs| && v.tabs[k] == t;
    assert v.tabs[i] == t by {
      if i != k {
        assert v.tabs[i].url == v.tabs[k].url;
      }
    }
  }

  /** Opening the same file twice is opening it once. */
  lemma OpenFileIdempotent(v: TabsView, url: Url, newId: TabId, otherId: TabId)
    requires Valid(v) && newId !in Ids(v.tabs)
    requires otherId !in Ids(OpenFile(v, url, newId).tabs)
    ensures OpenFile(OpenFile(v, url, newId), url, otherId) == OpenFile(v, url, newId)
  {
    var r := OpenFile(v, url, newId);
    var t :| t in r.tabs && t.url == url && r.selectedId == Some(t.id);
  }
}
