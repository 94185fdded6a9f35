/**
 * The worklist half of `fetch_playlist_index` in playlist.py: from what the
 * flat probe of a URL returned to a folder title and the numbered list of
 * video URLs to download. Entries are numbered from 1 before the ones
 * without a URL or an id are dropped, so the numbers can have gaps.
 */
module Worklist {
  import opened Wrappers
  import opened Sanitizer

  /** One flat playlist entry: its `url` and `id` fields. */
  datatype Entry = Entry(url: Option<string>, id: Option<string>)

  /** `_type` is "playlist", or anything else (a single video). */
  datatype ProbeKind = PlaylistKind | OtherKind

  /** The fields of the probe result the builder reads; `entries` is `[]` when missing. */
  datatype Probe = Probe(kind: ProbeKind, title: Option<string>, webpageUrl: Option<string>, entries: seq<Entry>)

  /** One download: its number in the playlist and its URL. */
  datatype Task = Task(index: nat, url: string)

  /** The folder title and the tasks. */
  datatype Index = Index(title: string, tasks: seq<Task>)

  const WatchPrefix: string := "https://www.youtube.com/watch?v="
  const NoInfoError: string := "Could not extract playlist info."
  const NoEntriesError: string := "No entries found in playlist."

  /** Python truthiness of an optional string: present and not empty. */
  predicate Truthy(o: Option<string>) {
    o.Some? && o.value != ""
  }

  /** `o or d` */
  function OrElse(o: Option<string>, d: string): string {
    if Truthy(o) then o.value else d
  }

  /** The URL an entry is downloaded from: its own, else the watch page of its id. */
  function EntryUrl(e: Entry): Option<string> {
    if Truthy(e.url) then e.url
    else if Truthy(e.id) then Some(WatchPrefix + e.id.value)
    else None
  }

  /** The tasks of the first `|entries|` entries, numbered from 1. */
  function TasksOf(entries: seq<Entry>): seq<Task> {
    if entries == [] then []
    else
      var n := |entries|;
      TasksOf(entries[..n - 1]) + match EntryUrl(entries[n - 1])
        case Some(u) => [Task(n, u)]
        case None => []
  }

  /** The loop over the entries that appends one task per entry with a URL. */
  method BuildTasks(entries: seq<Entry>) returns (tasks: seq<Task>)
    ensures tasks == TasksOf(entries)
  {
    tasks := [];
    for i := 0 to |entries|
      invariant tasks == TasksOf(entries[..i])
    {
      assert entries[..i + 1][..i] == entries[..i];
      var url := entries[i].url;
      if !Truthy(url) && Truthy(entries[i].id) {
        url := Some(WatchPrefix + entries[i].id.value);
      }
      if Truthy(url) {
        tasks := tasks + [Task(i + 1, url.value)];
      }
    }
    assert entries[..|entries|] == entries;
  }

  /** What `fetch_playlist_index` returns or raises, given the probe result. */
  function IndexOf(info: Option<Probe>, url: string): Result<Index> {
    match info
    case None => Failure(NoInfoError)
    case Some(p) =>
      if p.kind != PlaylistKind then
        Success(Index(SanitizeFolderName(OrElse(p.title, "single_video")), [Task(1, OrElse(p.webpageUrl, url))]))
      else
        var tasks := TasksOf(p.entries);
        if tasks == [] then Failure(NoEntriesError)
        else Success(Index(SanitizeFolderName(OrElse(p.title, "playlist")), tasks))
  }

  /** `fetch_playlist_index(url)` after the probe; `None` is a probe that returned nothing. */
  method FetchPlaylistIndex(info: Option<Probe>, url: string) returns (r: Result<Index>)
    ensures r == IndexOf(info, url)
  {
    if info.None? {
      return Failure(NoInfoError);
    }
    var p := info.value;
    if p.kind != PlaylistKind {
      var title := SanitizeFolderName(OrElse(p.title, "single_video"));
      return Success(Index(title, [Task(1, OrElse(p.webpageUrl, url))]));
    }
    var title := SanitizeFolderName(OrElse(p.title, "playlist"));
    var tasks := BuildTasks(p.entries);
    if tasks == [] {
      return Failure(NoEntriesError);
    }
    return Success(Index(title, tasks));
  }

  // ---------------------------------------------------------------- properties

  /** Task numbers strictly increase along the list. */
  predicate IncreasingIndices(tasks: seq<Task>) {
    forall i, j :: 0 <= i < j < |tasks| ==> tasks[i].index < tasks[j].index
  }

  /** The tasks are numbered in `1..|entries|`, in strictly increasing order. */
  lemma {:induction false} TasksNumbered(entries: seq<Entry>)
    ensures |TasksOf(entries)| <= |entries|
    ensures IncreasingIndices(TasksOf(entries))
    ensures forall j :: 0 <= j < |TasksOf(entries)| ==> 1 <= TasksOf(entries)[j].index <= |entries|
    decreases |entries|
  {
    if entries != [] {
      TasksNumbered(entries[..|entries| - 1]);
    }
  }

  /** Each task carries the URL of the entry its number points at. */
  lemma {:induction false} TasksSound(entries: seq<Entry>)
    ensures forall j :: 0 <= j < |TasksOf(entries)| ==>
      1 <= TasksOf(entries)[j].index <= |entries| && EntryUrl(entries[TasksOf(entries)[j].index - 1]) == Some(TasksOf(entries)[j].url)
    decreases |entries|
  {
    TasksNumbered(entries);
    if entries != [] {
      var init := entries[..|entries| - 1];
      TasksSound(init);
      var t, p := TasksOf(entries), TasksOf(init);
      forall j | 0 <= j < |p|
        ensures EntryUrl(entries[t[j].index - 1]) == Some(t[j].url)
      {
        assert t[j] == p[j] && entries[p[j].index - 1] == init[p[j].index - 1];
      }
    }
  }

  /** Every entry with a URL has a task with its number. */
  lemma {:induction false} TasksComplete(entries: seq<Entry>, k: nat)
    requires k < |entries| && EntryUrl(entries[k]).Some?
    ensures exists j :: 0 <= j < |TasksOf(entries)| && TasksOf(entries)[j].index == k + 1
    decreases |entries|
  {
    var n := |entries|;
    var init := entries[..n - 1];
    var t := TasksOf(entries);
    if k == n - 1 {
      assert t[|t| - 1].index == n;
    } else {
      TasksComplete(init, k);
      var j :| 0 <= j < |TasksOf(init)| && TasksOf(init)[j].index == k + 1;
      assert t[j] == TasksOf(init)[j];
    }
  }

  /** When every entry has a URL, the tasks are numbered `1, 2, ..., n` without gaps. */
  lemma {:induction false} TasksContiguous(entries: seq<Entry>)
    requires forall k :: 0 <= k < |entries| ==> EntryUrl(entries[k]).Some?
    ensures |TasksOf(entries)| == |entries|
    ensures forall j :: 0 <= j < |entries| ==> TasksOf(entries)[j] == Task(j + 1, EntryUrl(entries[j]).value)
    decreases |entries|
  {
    if entries != [] {
      var init := entries[..|entries| - 1];
      TasksContiguous(init);
    }
  }

  /** A probe that is not a playlist gives one task numbered 1, for its page URL or else the URL asked for. */
  lemma IndexSingle(p: Probe, url: string)
    requires p.kind != PlaylistKind
    ensures IndexOf(Some(p), url).Success?
    ensures IndexOf(Some(p), url).value.tasks == [Task(1, if Truthy(p.webpageUrl) then p.webpageUrl.value else url)]
  {
  }

  /**
   * The builder fails exactly when the probe returned nothing, or returned a
   * playlist none of whose entries has a URL or an id.
   */
  lemma IndexFails(info: Option<Probe>, url: string)
    ensures IndexOf(info, url).Failure? <==>
      info.None? || (info.value.kind == PlaylistKind && forall k :: 0 <= k < |info.value.entries| ==> EntryUrl(info.value.entries[k]).None?)
  {
    if info.Some? && info.value.kind == PlaylistKind {
      TasksEmpty(info.value.entries);
    }
  }

  /** No task at all exactly when no entry has a URL or an id. */
  lemma TasksEmpty(e: seq<Entry>)
    ensures TasksOf(e) == [] <==> forall k :: 0 <= k < |e| ==> EntryUrl(e[k]).None?
  {
    TasksSound(e);
    if exists k :: 0 <= k < |e| && EntryUrl(e[k]).Some? {
      var k :| 0 <= k < |e| && EntryUrl(e[k]).Some?;
      TasksComplete(e, k);
    }
  }

  /** The folder title of a built worklist is always a clean folder name. */
  lemma IndexTitleClean(info: Option<Probe>, url: string)
    requires IndexOf(info, url).Success?
    ensures IsCleanName(IndexOf(info, url).value.title)
  {
    var p := info.value;
    SanitizeIsClean(OrElse(p.title, if p.kind == PlaylistKind then "playlist" else "single_video"));
  }

  /** An entry with an empty URL but an id is fetched from the watch page of the id. */
  lemma EntryUrlFromId(id: string)
    requires id != ""
    ensures EntryUrl(Entry(None, Some(id))) == Some(WatchPrefix + id)
    ensures EntryUrl(Entry(Some(""), Some(id))) == Some(WatchPrefix + id)
  {
  }
}
