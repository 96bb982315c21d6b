/** get_all_encoded_files: turns a page of Pod records into the file picker's list view,
    one row per extension group of each audio or video record. */
module PodListing {
  import opened PodData

  const MediaTypeAudio := "audio"
  const MediaTypeVideo := "video"

  /** Only audio and video records are listed. */
  predicate IsMedia(r: Record) {
    r.videoData.mediatype in [MediaTypeAudio, MediaTypeVideo]
  }

  function Scheme(https: bool): string {
    if https then "https:" else "http:"
  }

  /** The row for file `f` of record `r`. */
  function MakeEntry(opts: Options, host: Host, r: Record, f: VideoFile): Entry {
    var v := r.videoData;
    var modified := host.parseDate(r.dateAdded);
    var created := if r.dateEvt.None? then modified else host.parseDate(r.dateEvt.value);
    var icon := host.iconUrl(f.extension);
    Entry(
      title := v.title + f.extension,
      url := Scheme(opts.https) + v.fullUrl,
      source := r.id,
      extension := f.extension,
      dateCreated := created,
      dateModified := modified,
      size := None,
      author := v.owner,
      license := host.licenceUnavailable,
      thumbnail := if !opts.thumbnailSet && v.thumbnail.Some? then Scheme(opts.https) + v.thumbnail.value else icon)
  }

  /** The rows of record `r` for the extension groups `groups`: one per non-empty group,
      built from its first file. */
  function GroupEntries(opts: Options, host: Host, r: Record, groups: seq<seq<VideoFile>>): seq<Entry> {
    if groups == [] then []
    else
      var last := groups[|groups| - 1];
      GroupEntries(opts, host, r, groups[..|groups| - 1])
        + (if last == [] then [] else [MakeEntry(opts, host, r, last[0])])
  }

  /** The rows of one record. */
  function RecordEntries(opts: Options, host: Host, r: Record): seq<Entry> {
    if !IsMedia(r) then []
    else match r.videoData.videoFiles
      case None => []
      case Some(groups) => GroupEntries(opts, host, r, groups)
  }

  function RowsOf(opts: Options, host: Host): Record -> seq<Entry> {
    r => RecordEntries(opts, host, r)
  }

  /** The rows of a sequence of records: the rows of each record, in the records' order. */
  function Entries(opts: Options, host: Host, rs: seq<Record>): seq<Entry> {
    Concat(RowsOf(opts, host), rs)
  }

  /** The concatenation of f(x) over the elements x of xs, in order. */
  function Concat<T, U>(f: T -> seq<U>, xs: seq<T>): seq<U> {
    if xs == [] then [] else Concat(f, xs[..|xs| - 1]) + f(xs[|xs| - 1])
  }

  /** The number of non-empty groups, counted from the front. */
  function CountNonEmpty(groups: seq<seq<VideoFile>>): nat {
    if groups == [] then 0
    else (if groups[0] == [] then 0 else 1) + CountNonEmpty(groups[1..])
  }

  /** Entry `e` is a row for media record `r`: it carries r's title followed by its
      extension, the scheme-prefixed URL, the date fallback, no size, the licence
      message, the thumbnail choice, and the extension of the first file of one of r's
      groups. */
  ghost predicate Describes(opts: Options, host: Host, r: Record, e: Entry) {
    var v := r.videoData;
    && IsMedia(r)
    && e.title == v.title + e.extension
    && e.url == Scheme(opts.https) + v.fullUrl
    && e.source == r.id
    && e.dateModified == host.parseDate(r.dateAdded)
    && (r.dateEvt.None? ==> e.dateCreated == e.dateModified)
    && (r.dateEvt.Some? ==> e.dateCreated == host.parseDate(r.dateEvt.value))
    && e.size == None
    && e.author == v.owner
    && e.license == host.licenceUnavailable
    && (!opts.thumbnailSet && v.thumbnail.Some? ==> e.thumbnail == Scheme(opts.https) + v.thumbnail.value)
    && (opts.thumbnailSet || v.thumbnail.None? ==> e.thumbnail == host.iconUrl(e.extension))
    && v.videoFiles.Some?
    && exists g :: 0 <= g < |v.videoFiles.value| && v.videoFiles.value[g] != []
                   && v.videoFiles.value[g][0].extension == e.extension
  }

  method GetAllEncodedFiles(opts: Options, host: Host, input: PageResult) returns (view: ListView)
    ensures view.total == input.total && view.pages == input.pages && view.page == input.page
    ensures view.perpage == opts.pageSize && view.norefresh
    ensures var entries := Entries(opts, host, input.results);
      && (forall k :: k in view.list <==> 0 <= k < |entries|)
      && (forall k :: 0 <= k < |entries| ==> view.list[k] == entries[k])
    ensures input.results == [] ==> view.list == map[]
  {
    var list: map<int, Entry> := map[];
    var results := input.results;
    if |results| > 0 {
      var i := 0;
      ghost var listed: seq<Entry> := [];
      for n := 0 to |results|
        invariant listed == Entries(opts, host, results[..n])
        invariant i == |listed|
        invariant forall k :: k in list <==> 0 <= k < i
        invariant forall k :: 0 <= k < i ==> list[k] == listed[k]
      {
        var result := results[n];
        EntriesSnoc(opts, host, results, n);
        list, i := ListRecord(opts, host, result, list, i);
        listed := listed + RecordEntries(opts, host, result);
      }
      assert results[..|results|] == results;
    }
    view := ListView(input.total, input.pages, opts.pageSize, input.page, true, list);
  }

  /** The body of the loop over the records: adds the rows of `result`, if it is an
      audio or video record, under the keys i, i + 1, ... and returns the next free key. */
  method ListRecord(opts: Options, host: Host, result: Record, list: map<int, Entry>, i: int)
    returns (list': map<int, Entry>, i': int)
    ensures i' == i + |RecordEntries(opts, host, result)|
    ensures forall k :: k in list' <==> k in list || i <= k < i'
    ensures forall k :: k in list && !(i <= k < i') ==> list'[k] == list[k]
    ensures forall k :: i <= k < i' ==> list'[k] == RecordEntries(opts, host, result)[k - i]
  {
    var videoData := result.videoData;
    if !IsMedia(result) {
      return list, i;
    }
    if videoData.videoFiles.Some? {
      list', i' := ListGroups(opts, host, result, videoData.videoFiles.value, list, i);
    } else {
      list', i' := list, i;
    }
  }

  /** The loop over the extension groups of one record: adds the record's rows to `list`
      under the keys i, i + 1, ... and returns the next free key. */
  method ListGroups(opts: Options, host: Host, result: Record, groups: seq<seq<VideoFile>>,
                    list: map<int, Entry>, i: int)
    returns (list': map<int, Entry>, i': int)
    ensures i' == i + |GroupEntries(opts, host, result, groups)|
    ensures forall k :: k in list' <==> k in list || i <= k < i'
    ensures forall k :: k in list && !(i <= k < i') ==> list'[k] == list[k]
    ensures forall k :: i <= k < i' ==> list'[k] == GroupEntries(opts, host, result, groups)[k - i]
  {
    list', i' := list, i;
    for g := 0 to |groups|
      invariant i' == i + |GroupEntries(opts, host, result, groups[..g])|
      invariant forall k :: k in list' <==> k in list || i <= k < i'
      invariant forall k :: k in list && !(i <= k < i') ==> list'[k] == list[k]
      invariant forall k :: i <= k < i' ==> list'[k] == GroupEntries(opts, host, result, groups[..g])[k - i]
    {
      GroupEntriesSnoc(opts, host, result, groups, g);
      var files := groups[g];
      // only the first file of each extension group is listed
      if |files| > 0 {
        list' := list'[i' := MakeEntry(opts, host, result, files[0])];
        i' := i' + 1;
      }
    }
    assert groups[..|groups|] == groups;
  }

  lemma {:induction false} ConcatAppend<T, U>(f: T -> seq<U>, a: seq<T>, b: seq<T>)
    ensures Concat(f, a + b) == Concat(f, a) + Concat(f, b)
    decreases |b|
  {
    if b == [] {
      assert a + b == a;
    } else {
      var b', last := b[..|b| - 1], b[|b| - 1];
      assert (a + b)[..|a + b| - 1] == a + b';
      assert (a + b)[|a + b| - 1] == last;
      ConcatAppend(f, a, b');
    }
  }

  lemma EntriesAppend(opts: Options, host: Host, a: seq<Record>, b: seq<Record>)
    ensures Entries(opts, host, a + b) == Entries(opts, host, a) + Entries(opts, host, b)
  {
    ConcatAppend(RowsOf(opts, host), a, b);
  }

  lemma EntriesSnoc(opts: Options, host: Host, rs: seq<Record>, n: nat)
    requires n < |rs|
    ensures Entries(opts, host, rs[..n + 1]) == Entries(opts, host, rs[..n]) + RecordEntries(opts, host, rs[n])
  {
    assert rs[..n + 1][..n] == rs[..n];
  }

  lemma GroupEntriesSnoc(opts: Options, host: Host, r: Record, groups: seq<seq<VideoFile>>, g: nat)
    requires g < |groups|
    ensures GroupEntries(opts, host, r, groups[..g + 1]) == GroupEntries(opts, host, r, groups[..g])
      + (if groups[g] == [] then [] else [MakeEntry(opts, host, r, groups[g][0])])
  {
    assert groups[..g + 1][..g] == groups[..g];
  }

  lemma EntriesSingle(opts: Options, host: Host, r: Record)
    ensures Entries(opts, host, [r]) == RecordEntries(opts, host, r)
  {
    var f := RowsOf(opts, host);
    assert [r][..0] == [];
    assert Concat(f, [r]) == Concat(f, []) + f(r);
  }

  /** A record that is neither audio nor video contributes no rows: removing it leaves
      the list unchanged. */
  lemma NonMediaContributesNothing(opts: Options, host: Host, rs: seq<Record>, k: nat)
    requires k < |rs| && !IsMedia(rs[k])
    ensures Entries(opts, host, rs[..k] + rs[k + 1..]) == Entries(opts, host, rs)
  {
    var pre, mid, post := rs[..k], [rs[k]], rs[k + 1..];
    assert rs == (pre + mid) + post;
    EntriesAppend(opts, host, pre + mid, post);
    EntriesAppend(opts, host, pre, mid);
    EntriesSingle(opts, host, rs[k]);
    EntriesAppend(opts, host, pre, post);
  }

  /** The rows of record k come right after the rows of the records before it. */
  lemma EntriesAt(opts: Options, host: Host, rs: seq<Record>, k: nat, j: nat)
    requires k < |rs| && j < |RecordEntries(opts, host, rs[k])|
    ensures |Entries(opts, host, rs[..k])| + j < |Entries(opts, host, rs)|
    ensures Entries(opts, host, rs)[|Entries(opts, host, rs[..k])| + j] == RecordEntries(opts, host, rs[k])[j]
  {
    var pre, mid, post := rs[..k], [rs[k]], rs[k + 1..];
    assert rs == (pre + mid) + post;
    EntriesAppend(opts, host, pre + mid, post);
    EntriesAppend(opts, host, pre, mid);
    EntriesSingle(opts, host, rs[k]);
  }

  lemma {:induction false} CountNonEmptyAppend(groups: seq<seq<VideoFile>>, last: seq<VideoFile>)
    ensures CountNonEmpty(groups + [last]) == CountNonEmpty(groups) + (if last == [] then 0 else 1)
  {
    if groups != [] {
      assert (groups + [last])[1..] == groups[1..] + [last];
      CountNonEmptyAppend(groups[1..], last);
    }
  }

  /** A record yields exactly as many rows as it has non-empty extension groups. */
  lemma {:induction false} GroupEntriesCount(opts: Options, host: Host, r: Record, groups: seq<seq<VideoFile>>)
    ensures |GroupEntries(opts, host, r, groups)| == CountNonEmpty(groups)
  {
    if groups != [] {
      var init := groups[..|groups| - 1];
      GroupEntriesCount(opts, host, r, init);
      assert groups == init + [groups[|groups| - 1]];
      CountNonEmptyAppend(init, groups[|groups| - 1]);
    }
  }

  /** The row of a non-empty group g is built from that group's first file, and it sits
      after the rows of the non-empty groups before g. */
  lemma {:induction false} GroupEntriesAt(opts: Options, host: Host, r: Record, groups: seq<seq<VideoFile>>, g: nat)
    requires g < |groups| && groups[g] != []
    ensures CountNonEmpty(groups[..g]) < |GroupEntries(opts, host, r, groups)|
    ensures GroupEntries(opts, host, r, groups)[CountNonEmpty(groups[..g])] == MakeEntry(opts, host, r, groups[g][0])
  {
    var init := groups[..|groups| - 1];
    if g == |groups| - 1 {
      assert groups[..g] == init;
      GroupEntriesCount(opts, host, r, init);
    } else {
      assert init[..g] == groups[..g];
      GroupEntriesAt(opts, host, r, init, g);
    }
  }

  /** Every row of a record's groups is built from the first file of one non-empty group. */
  lemma {:induction false} GroupEntryOrigin(opts: Options, host: Host, r: Record, groups: seq<seq<VideoFile>>, j: nat)
    returns (g: nat)
    requires j < |GroupEntries(opts, host, r, groups)|
    ensures g < |groups| && groups[g] != []
    ensures GroupEntries(opts, host, r, groups)[j] == MakeEntry(opts, host, r, groups[g][0])
  {
    var init := groups[..|groups| - 1];
    if j < |GroupEntries(opts, host, r, init)| {
      g := GroupEntryOrigin(opts, host, r, init, j);
    } else {
      g := |groups| - 1;
    }
  }

  /** Every row of the list describes one of the page's audio or video records. */
  lemma {:induction false} EntryOrigin(opts: Options, host: Host, rs: seq<Record>, i: nat)
    returns (k: nat)
    requires i < |Entries(opts, host, rs)|
    ensures k < |rs|
    ensures Describes(opts, host, rs[k], Entries(opts, host, rs)[i])
  {
    var init := rs[..|rs| - 1];
    if i < |Entries(opts, host, init)| {
      k := EntryOrigin(opts, host, init, i);
    } else {
      k := |rs| - 1;
      var r := rs[k];
      var groups := r.videoData.videoFiles.value;
      var g := GroupEntryOrigin(opts, host, r, groups, i - |Entries(opts, host, init)|);
      assert groups[g] != [] && groups[g][0].extension == Entries(opts, host, rs)[i].extension;
    }
  }
}
