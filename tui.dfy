/** The download gate and list handlers of the terminal interface
    (internal/tui/model.go, internal/tui/update.go).

    Each tab holds a list of items; `D` and `U` put matching items on a FIFO
    queue, and `ProcessQueue` starts queued downloads while fewer than three
    are running. Completion messages free a slot, clamping the counter at 0.
    Table rows are rebuilt from the items after every change, or filtered by
    a case-insensitive name query. Commands handed back to the event loop
    (download, verify, check) are returned as values. */
module Tui {

  import opened Wrappers
  import opened Strings
  import Config

  /** The number of downloads `ProcessQueue` lets run at once. */
  const MaxConcurrent := 3

  // Status texts the handlers test or set.
  const StatusNewer := "Newer Version Available"
  const StatusNotFound := "Local File Not Found"
  const StatusError := "Error Checking"
  const NotChecked := "Not Checked"
  const Queued := "Queued"
  const Starting := "Starting download..."

  datatype Item = Item(
    source: Config.Source,
    category: string,
    status: string,
    current: string,
    latest: string,
    message: string,
    downloaded: int,
    total: int)

  /** A STATUS cell: a progress bar while the size is known, text otherwise. */
  datatype Cell = Text(text: string) | Bar(downloaded: int, total: int)

  datatype Row = Row(name: string, status: Cell, current: string, latest: string)

  // ---------------------------------------------------------------------------
  // Rows
  // ---------------------------------------------------------------------------

  /** `normalizeVer`: version strings are shown without their leading 'v's. */
  function NormalizeVer(v: string): (r: string)
    ensures |r| <= |v| && (r == [] || r[0] != 'v')
    ensures v == seq(|v| - |r|, _ => 'v') + r
  {
    TrimLeftCharShape(v, 'v');
    TrimLeftChar(v, 'v')
  }

  /** Normalising twice is normalising once. */
  lemma NormalizeVerIdempotent(v: string)
    ensures NormalizeVer(NormalizeVer(v)) == NormalizeVer(v)
  {
  }

  function ToRow(it: Item): (r: Row)
    ensures r.name == it.source.name
    ensures r.status.Bar? <==> it.total > 0
    ensures it.total <= 0 && it.status == StatusError ==> r.status == Text("Error: " + it.message)
    ensures it.total <= 0 && it.status != StatusError ==> r.status == Text(it.status)
    ensures r.current == NormalizeVer(it.current) && r.latest == NormalizeVer(it.latest)
  {
    var status :=
      if it.total > 0 then Bar(it.downloaded, it.total)
      else if it.status == StatusError then Text("Error: " + it.message)
      else Text(it.status);
    Row(it.source.name, status, NormalizeVer(it.current), NormalizeVer(it.latest))
  }

  /** The rows `syncTableRows` shows for a tab: one per item, in order. */
  function RowsOf(items: seq<Item>): (r: seq<Row>)
    ensures |r| == |items| && forall k :: 0 <= k < |items| ==> r[k] == ToRow(items[k])
  {
    seq(|items|, k requires 0 <= k < |items| => ToRow(items[k]))
  }

  // ---------------------------------------------------------------------------
  // Progress messages
  // ---------------------------------------------------------------------------

  /** A value received from a download's progress channel. */
  datatype Event = Event(
    downloaded: int,
    total: int,
    error: Option<string>,
    status: string,
    current: string,
    latest: string,
    resolvedURL: string)

  datatype Msg =
    | DownloadMsg(category: string, index: int, err: Option<string>)
    | ProgressUpdateMsg(category: string, index: int, progress: Event)

  /** `WaitForProgress`: `received` is `None` when the channel is closed. */
  function Classify(index: int, category: string, received: Option<Event>): (m: Msg)
    ensures m.category == category && m.index == index
    ensures m.ProgressUpdateMsg? <==> received.Some? && received.value.error.None?
    ensures m.ProgressUpdateMsg? ==> m.progress == received.value
    ensures m.DownloadMsg? ==> (m.err.Some? <==> received.Some?)
    ensures m.DownloadMsg? && received.Some? ==> m.err == received.value.error
  {
    match received
    case None => DownloadMsg(category, index, None)
    case Some(p) =>
      if p.error.Some? then DownloadMsg(category, index, p.error)
      else ProgressUpdateMsg(category, index, p)
  }

  /** The messages one download produces: `WaitForProgress` is re-armed after
      each progress update, so the channel is read until it is closed or
      carries an error. */
  function Messages(index: int, category: string, events: seq<Event>): (ms: seq<Msg>)
    ensures 1 <= |ms| <= |events| + 1
    ensures ms[|ms| - 1].DownloadMsg?
    ensures forall j :: 0 <= j < |ms| - 1 ==> ms[j].ProgressUpdateMsg?
    decreases |events|
  {
    var m := Classify(index, category, if events == [] then None else Some(events[0]));
    if m.DownloadMsg? then [m] else [m] + Messages(index, category, events[1..])
  }

  /** The one completion message fails exactly when some event carries an
      error, and then with the first such error. */
  lemma {:induction false} CompletionReportsFirstError(index: int, category: string, events: seq<Event>)
    ensures var ms := Messages(index, category, events);
      var last := ms[|ms| - 1];
      (last.err.None? <==> forall j :: 0 <= j < |events| ==> events[j].error.None?)
      && (last.err.Some? ==>
            exists j :: (0 <= j < |events| && last.err == events[j].error
              && forall i :: 0 <= i < j ==> events[i].error.None?))
    decreases |events|
  {
    if events != [] && events[0].error.None? {
      CompletionReportsFirstError(index, category, events[1..]);
      var ms := Messages(index, category, events);
      var rest := Messages(index, category, events[1..]);
      assert ms == [ProgressUpdateMsg(category, index, events[0])] + rest;
      assert ms[|ms| - 1] == rest[|rest| - 1];
      var last := rest[|rest| - 1];
      if last.err.Some? {
        var j :| 0 <= j < |events[1..]| && last.err == events[1..][j].error
          && forall i :: 0 <= i < j ==> events[1..][i].error.None?;
        assert last.err == events[j + 1].error;
        assert forall i :: 0 <= i < j + 1 ==> events[i].error.None? by {
          forall i | 0 <= i < j + 1 ensures events[i].error.None? {
            if i > 0 { assert events[i] == events[1..][i - 1]; }
          }
        }
      } else {
        forall j | 0 <= j < |events| ensures events[j].error.None? {
          if j > 0 { assert events[j] == events[1..][j - 1]; }
        }
      }
    }
  }

  /** The formatting calls the status texts use: `humanize.Bytes` on an
      unsigned 64-bit count, and `%.1f` of a percentage given as
      (downloaded, total). */
  datatype Format = Format(bytes: nat -> string, percent: (int, int) -> string)

  /** Go's `uint64(n)` of a signed 64-bit value: wrap-around modulo 2^64. */
  function Uint64(n: int): (r: nat)
    ensures r < 0x1_0000_0000_0000_0000
    ensures 0 <= n < 0x1_0000_0000_0000_0000 ==> r == n
    ensures -0x1_0000_0000_0000_0000 <= n < 0 ==> r == n + 0x1_0000_0000_0000_0000
  {
    n % 0x1_0000_0000_0000_0000
  }

  /** The item update applied for a `ProgressUpdateMsg`. */
  function ApplyProgress(it: Item, p: Event, f: Format): (r: Item)
    ensures r.downloaded == p.downloaded && r.total == p.total
    ensures r.category == it.category && r.message == it.message
  {
    var it := it.(downloaded := p.downloaded, total := p.total);
    if it.total == -2 then
      if p.downloaded == 0 then it.(status := "Resolving URL...")
      else
        var it := it.(status := p.status, current := p.current, latest := p.latest);
        if p.resolvedURL != "" then it.(source := it.source.(url := p.resolvedURL)) else it
    else if it.total == -1 then
      if it.downloaded == 0 then it.(status := "Checking available space...")
      else if it.downloaded == 1 then it.(status := "Enough space available!")
      else it
    else if it.downloaded == -1 then
      it.(status := "Error: Not enough space (" + f.bytes(Uint64(it.total)) + " available)")
    else if it.total > 0 then
      it.(status := "Downloading... " + f.percent(it.downloaded, it.total) + "% ("
        + f.bytes(Uint64(it.downloaded)) + "/" + f.bytes(Uint64(it.total)) + ")")
    else
      it.(status := "Downloading... " + f.bytes(Uint64(it.downloaded)))
  }

  /** The sentinel values the downloader sends before real progress: -2 for
      URL resolution, -1 for the free-space check, and a downloaded count of
      -1 for "not enough space", whose size then sits in the total. */
  lemma ProgressSentinels(it: Item, p: Event, f: Format)
    ensures var r := ApplyProgress(it, p, f);
      (p.total == -2 && p.downloaded == 0 ==> r.status == "Resolving URL..." && r.source == it.source)
      && (p.total == -2 && p.downloaded != 0 ==>
            (r.status == p.status && r.current == p.current && r.latest == p.latest
             && r.source.url == (if p.resolvedURL != "" then p.resolvedURL else it.source.url)))
      && (p.total == -1 && p.downloaded == 0 ==> r.status == "Checking available space...")
      && (p.total == -1 && p.downloaded == 1 ==> r.status == "Enough space available!")
      && (p.total == -1 && p.downloaded != 0 && p.downloaded != 1 ==> r.status == it.status)
      && (p.total != -2 && p.total != -1 && p.downloaded == -1 ==>
            (r.status == "Error: Not enough space (" + f.bytes(Uint64(p.total)) + " available)"))
      && (p.total != -2 ==> r.source == it.source && r.current == it.current && r.latest == it.latest)
  {
  }

  /** Outside the sentinels, the status reports the byte count, with the
      percentage and the total when the total is known. */
  lemma ProgressDownloading(it: Item, p: Event, f: Format)
    requires p.total != -2 && p.total != -1 && p.downloaded != -1
    ensures var r := ApplyProgress(it, p, f);
      && (p.total > 0 ==>
            (r.status == "Downloading... " + f.percent(p.downloaded, p.total) + "% ("
               + f.bytes(Uint64(p.downloaded)) + "/" + f.bytes(Uint64(p.total)) + ")"))
      && (p.total <= 0 ==> r.status == "Downloading... " + f.bytes(Uint64(p.downloaded)))
  {
  }

  /** The item update applied for a `DownloadMsg`. */
  function Completed(it: Item, err: Option<string>): (r: Item)
    ensures r.source == it.source && r.category == it.category && r.message == it.message
    ensures err.Some? ==>
      (r.status == "Error: " + err.value && r.downloaded == it.downloaded && r.total == it.total)
    ensures err.None? && it.source.checksum != "" ==>
      (r.status == "Verifying integrity..." && r.downloaded == it.downloaded && r.total == it.total)
    ensures err.None? && it.source.checksum == "" ==>
      (r.status == "Finished" && r.downloaded == 0 && r.total == 0)
  {
    if err.Some? then it.(status := "Error: " + err.value)
    else if it.source.checksum != "" then it.(status := "Verifying integrity...")
    else it.(status := "Finished", downloaded := 0, total := 0)
  }

  /** What a finished version check hands back: the checker's status text,
      the versions, its message and a resolved URL ("" when none). */
  datatype CheckOutcome = CheckOutcome(status: string, current: string, latest: string,
                                       message: string, resolvedURL: string)

  /** The item update applied for a `CheckMsg`. */
  function Checked(it: Item, o: CheckOutcome): Item {
    var r := it.(total := 0, downloaded := 0, status := o.status, current := o.current,
                 latest := o.latest, message := o.message);
    if o.resolvedURL != "" then r.(source := r.source.(url := o.resolvedURL)) else r
  }

  /** After a check the row shows the outcome as text, never a stale bar, and
      the source changes at most in its URL. */
  lemma CheckedRow(it: Item, o: CheckOutcome)
    ensures var r := Checked(it, o);
      && r.category == it.category
      && r.source == it.source.(url := if o.resolvedURL != "" then o.resolvedURL else it.source.url)
      && ToRow(r) == Row(it.source.name,
                         Text(if o.status == StatusError then "Error: " + o.message else o.status),
                         NormalizeVer(o.current), NormalizeVer(o.latest))
  {
  }

  /** The item update applied for a `VerifyMsg`. */
  function Verified(it: Item, err: Option<string>): Item {
    if err.Some? then it.(status := "Checksum Failed", message := err.value)
    else it.(status := "Verified & Finished", downloaded := 0, total := 0)
  }

  /** A download's outcome on its row. Success ends as text; a failure keeps
      the byte counts, so while the total is known the row goes on showing the
      bar instead of the failed download or checksum. */
  lemma OutcomeRows(it: Item, err: Option<string>)
    ensures it.source.checksum == "" && err.None? ==> ToRow(Completed(it, err)).status == Text("Finished")
    ensures err.None? ==> ToRow(Verified(Completed(it, None), err)).status == Text("Verified & Finished")
    ensures err.Some? ==>
              ToRow(Completed(it, err)).status
              == (if it.total > 0 then Bar(it.downloaded, it.total) else Text("Error: " + err.value))
    ensures err.Some? ==>
              ToRow(Verified(it, err)).status
              == (if it.total > 0 then Bar(it.downloaded, it.total) else Text("Checksum Failed"))
  {
    if err.Some? {
      assert ("Error: " + err.value)[5] != StatusError[5];
    }
  }

  // ---------------------------------------------------------------------------
  // Tabs
  // ---------------------------------------------------------------------------

  /** Right arrow: the next tab, wrapping to the first. */
  function NextTab(t: int, n: int): (r: int)
    requires n > 0 && 0 <= t < n
    ensures 0 <= r < n
    ensures r == if t == n - 1 then 0 else t + 1
  {
    (t + 1) % n
  }

  /** Left arrow: the previous tab, wrapping to the last. */
  function PrevTab(t: int, n: int): (r: int)
    requires n > 0 && 0 <= t < n
    ensures 0 <= r < n
    ensures r == if t == 0 then n - 1 else t - 1
  {
    (t - 1 + n) % n
  }

  /** Left undoes right and right undoes left. */
  lemma TabsInverse(t: int, n: int)
    requires n > 0 && 0 <= t < n
    ensures PrevTab(NextTab(t, n), n) == t
    ensures NextTab(PrevTab(t, n), n) == t
  {
  }

  /** The first tab named `name`, as the handlers' scans find it. */
  function FindTab(tabs: seq<string>, name: string): (r: Option<nat>)
    ensures r.Some? ==> r.value < |tabs| && tabs[r.value] == name && name !in tabs[..r.value]
    ensures r.None? <==> name !in tabs
    decreases |tabs|
  {
    if tabs == [] then None
    else if tabs[|tabs| - 1] == name && name !in tabs[..|tabs| - 1] then Some(|tabs| - 1)
    else
      var r := FindTab(tabs[..|tabs| - 1], name);
      assert tabs[..|tabs| - 1] == tabs[..|tabs| - 1];
      r
  }

  // ---------------------------------------------------------------------------
  // Selecting items
  // ---------------------------------------------------------------------------

  /** The indices below `n` of the items that satisfy `p`, in index order. */
  function Where(items: seq<Item>, p: Item -> bool, n: nat): (ks: seq<nat>)
    requires n <= |items|
    ensures |ks| <= n
    ensures forall j :: 0 <= j < |ks| ==> ks[j] < n && p(items[ks[j]])
    ensures forall j, j' :: 0 <= j < j' < |ks| ==> ks[j] < ks[j']
    ensures forall k :: 0 <= k < n && p(items[k]) ==> k in ks
    decreases n
  {
    if n == 0 then []
    else Where(items, p, n - 1) + (if p(items[n - 1]) then [n - 1] else [])
  }

  /** The indices 0 .. n-1 in order. */
  function Indices(n: nat): (r: seq<nat>)
    ensures |r| == n && forall j :: 0 <= j < n ==> r[j] == j
  {
    if n == 0 then [] else Indices(n - 1) + [n - 1]
  }

  /** When every item is selected, the selection is every index. */
  lemma {:induction false} WhereAll(items: seq<Item>, p: Item -> bool, n: nat)
    requires n <= |items|
    requires forall k :: 0 <= k < n ==> p(items[k])
    ensures Where(items, p, n) == Indices(n)
    decreases n
  {
    if n > 0 {
      WhereAll(items, p, n - 1);
    }
  }


  // ---------------------------------------------------------------------------
  // The board: items, rows, queue and the running count
  // ---------------------------------------------------------------------------

  datatype QueueItem = QueueItem(category: string, index: int)

  /** A download command handed to the event loop. */
  datatype Dispatch = Dispatch(index: int, category: string, source: Config.Source)

  datatype Board = Board(data: seq<seq<Item>>, rows: seq<seq<Row>>, queue: seq<QueueItem>, active: int)

  /** One item list and one row list per tab. */
  predicate Fits(tabs: seq<string>, b: Board) {
    |b.data| == |tabs| && |b.rows| == |tabs|
  }

  /** The tab holding the queued item, when its category names a tab and its
      index is in range there. */
  function Locate(tabs: seq<string>, data: seq<seq<Item>>, q: QueueItem): (r: Option<nat>)
    requires |data| == |tabs|
    ensures r.Some? <==> FindTab(tabs, q.category).Some? && 0 <= q.index < |data[FindTab(tabs, q.category).value]|
    ensures r.Some? ==> r == FindTab(tabs, q.category)
  {
    match FindTab(tabs, q.category)
    case None => None
    case Some(i) => if 0 <= q.index < |data[i]| then Some(i) else None
  }

  /** `updateItemState`: apply `upd` to the item at `index` of the first tab
      named `category`, then rebuild that tab's rows. */
  function UpdateItem(tabs: seq<string>, b: Board, category: string, index: int, upd: Item -> Item): (r: Board)
    requires Fits(tabs, b)
    ensures Fits(tabs, r) && r.queue == b.queue && r.active == b.active
  {
    match FindTab(tabs, category)
    case None => b
    case Some(i) =>
      if 0 <= index < |b.data[i]| then
        var items := b.data[i][index := upd(b.data[i][index])];
        b.(data := b.data[i := items], rows := b.rows[i := RowsOf(items)])
      else b
  }

  /** `updateItemState` changes only the addressed item, of the first tab
      with that name, and only that tab's rows; an unknown category or an
      index out of range changes nothing. */
  lemma UpdateItemOnly(tabs: seq<string>, b: Board, category: string, index: int, upd: Item -> Item)
    requires Fits(tabs, b)
    ensures var r := UpdateItem(tabs, b, category, index, upd);
      && (forall i :: 0 <= i < |tabs| ==> |r.data[i]| == |b.data[i]|)
      && (forall i, k :: 0 <= i < |tabs| && 0 <= k < |b.data[i]| ==>
            r.data[i][k] == (if FindTab(tabs, category) == Some(i) && k == index then upd(b.data[i][k]) else b.data[i][k]))
      && (forall i :: 0 <= i < |tabs| ==>
            r.rows[i] == (if FindTab(tabs, category) == Some(i) && 0 <= index < |b.data[i]| then RowsOf(r.data[i]) else b.rows[i]))
      && (Locate(tabs, b.data, QueueItem(category, index)).None? ==> r == b)
  {
  }

  /** The update `ProcessQueue` applies to a dispatched item. */
  function Start(it: Item): (r: Item)
    ensures r == it.(status := Starting)
  {
    it.(status := Starting)
  }

  /** The command for a queued item: none when it names no item. */
  function DispatchOf(tabs: seq<string>, data: seq<seq<Item>>, q: QueueItem): (r: seq<Dispatch>)
    requires |data| == |tabs|
    ensures |r| <= 1 && (r != [] <==> Locate(tabs, data, q).Some?)
    ensures r != [] ==>
      (r[0].index == q.index && r[0].category == q.category
       && r[0].source == data[Locate(tabs, data, q).value][q.index].source)
  {
    match Locate(tabs, data, q)
    case Some(i) => [Dispatch(q.index, q.category, data[i][q.index].source)]
    case None => []
  }

  /** The commands for a run of queued items, in queue order. */
  function Dispatches(tabs: seq<string>, data: seq<seq<Item>>, qs: seq<QueueItem>): seq<Dispatch>
    requires |data| == |tabs|
    decreases |qs|
  {
    if qs == [] then [] else DispatchOf(tabs, data, qs[0]) + Dispatches(tabs, data, qs[1..])
  }

  /** Two boards whose tabs hold items with the same sources. */
  predicate SameSources(d1: seq<seq<Item>>, d2: seq<seq<Item>>) {
    |d1| == |d2|
    && (forall i :: 0 <= i < |d1| ==> |d1[i]| == |d2[i]|)
    && (forall i, k :: 0 <= i < |d1| && 0 <= k < |d1[i]| ==> d1[i][k].source == d2[i][k].source)
  }

  lemma {:induction false} DispatchesSameSources(tabs: seq<string>, d1: seq<seq<Item>>, d2: seq<seq<Item>>, qs: seq<QueueItem>)
    requires |d1| == |tabs| && SameSources(d1, d2)
    ensures Dispatches(tabs, d1, qs) == Dispatches(tabs, d2, qs)
    decreases |qs|
  {
    if qs != [] {
      DispatchesSameSources(tabs, d1, d2, qs[1..]);
    }
  }

  /** One turn of `ProcessQueue`'s loop: pop the front entry and count it
      as running; if it still names an item, mark the item as starting and
      dispatch it, otherwise give the slot back. */
  function Pop(tabs: seq<string>, b: Board): (r: (Board, seq<Dispatch>))
    requires Fits(tabs, b) && |b.queue| > 0
    ensures Fits(tabs, r.0) && r.0.queue == b.queue[1..]
    ensures |r.1| <= 1 && r.0.active == b.active + |r.1|
    ensures r.1 == DispatchOf(tabs, b.data, b.queue[0])
  {
    var q := b.queue[0];
    var b1 := b.(queue := b.queue[1..], active := b.active + 1);
    match Locate(tabs, b.data, q)
    case Some(i) =>
      (UpdateItem(tabs, b1, q.category, q.index, Start), DispatchOf(tabs, b.data, q))
    case None =>
      (b1.(active := b.active), [])
  }

  /** `ProcessQueue`: pop entries while the queue is non-empty and fewer than
      `MaxConcurrent` downloads run. */
  function Drain(tabs: seq<string>, b: Board): (r: (Board, seq<Dispatch>))
    requires Fits(tabs, b)
    ensures Fits(tabs, r.0)
    decreases |b.queue|
  {
    if |b.queue| == 0 || b.active >= MaxConcurrent then (b, [])
    else
      var p := Pop(tabs, b);
      var r := Drain(tabs, p.0);
      (r.0, p.1 + r.1)
  }

  /** The gate stops only when the queue is empty or all slots are taken;
      every dispatched command takes exactly one slot; so a count that starts
      at most `MaxConcurrent` stays there. */
  lemma {:induction false} DrainGate(tabs: seq<string>, b: Board)
    requires Fits(tabs, b)
    ensures var (b', cmds) := Drain(tabs, b);
      && (b'.queue == [] || b'.active >= MaxConcurrent)
      && b'.active == b.active + |cmds|
      && (b.active <= MaxConcurrent ==> b'.active <= MaxConcurrent)
    decreases |b.queue|
  {
    if |b.queue| > 0 && b.active < MaxConcurrent {
      DrainGate(tabs, Pop(tabs, b).0);
    }
  }

  /** Popping changes no item's source. */
  lemma PopSameSources(tabs: seq<string>, b: Board)
    requires Fits(tabs, b) && |b.queue| > 0
    ensures SameSources(b.data, Pop(tabs, b).0.data)
  {
    var q := b.queue[0];
    UpdateItemOnly(tabs, b.(queue := b.queue[1..], active := b.active + 1), q.category, q.index, Start);
  }

  lemma DispatchesCons(tabs: seq<string>, data: seq<seq<Item>>, qs: seq<QueueItem>, tail: seq<QueueItem>, m: nat)
    requires |data| == |tabs| && m < |qs| && tail == qs[1..]
    ensures Dispatches(tabs, data, qs[..m + 1]) == DispatchOf(tabs, data, qs[0]) + Dispatches(tabs, data, tail[..m])
  {
    assert qs[..m + 1][1..] == tail[..m];
  }

  /** `r` consumed a prefix of `b`'s queue, kept the rest in order, and
      dispatched that prefix's live entries in queue order. */
  predicate FifoRun(tabs: seq<string>, b: Board, r: (Board, seq<Dispatch>))
    requires |b.data| == |tabs|
  {
    var n := |b.queue| - |r.0.queue|;
    0 <= n && r.0.queue == b.queue[n..] && r.1 == Dispatches(tabs, b.data, b.queue[..n])
  }

  /** One popped entry in front of a FIFO run is a longer FIFO run. */
  lemma FifoStep(tabs: seq<string>, b: Board, p: (Board, seq<Dispatch>), r: (Board, seq<Dispatch>))
    requires Fits(tabs, b) && |b.queue| > 0
    requires p.0.queue == b.queue[1..] && p.1 == DispatchOf(tabs, b.data, b.queue[0])
    requires |p.0.data| == |tabs| && SameSources(b.data, p.0.data)
    requires FifoRun(tabs, p.0, r)
    ensures FifoRun(tabs, b, (r.0, p.1 + r.1))
  {
    var m := |p.0.queue| - |r.0.queue|;
    DispatchesSameSources(tabs, b.data, p.0.data, p.0.queue[..m]);
    DispatchesCons(tabs, b.data, b.queue, p.0.queue, m);
    assert b.queue[m + 1..] == p.0.queue[m..];
  }

  /** `ProcessQueue` is FIFO: it consumes a prefix of the queue, leaves the
      rest in order, and dispatches the entries of that prefix that still
      name an item, in queue order. */
  lemma {:induction false} DrainFifo(tabs: seq<string>, b: Board)
    requires Fits(tabs, b)
    ensures FifoRun(tabs, b, Drain(tabs, b))
    decreases |b.queue|
  {
    if |b.queue| > 0 && b.active < MaxConcurrent {
      var p := Pop(tabs, b);
      DrainFifo(tabs, p.0);
      PopSameSources(tabs, b);
      FifoStep(tabs, b, p, Drain(tabs, p.0));
    } else {
      assert b.queue[..0] == [];
    }
  }

  /** Some command of `cmds` targets item `k` of tab `i`. */
  predicate Started(tabs: seq<string>, cmds: seq<Dispatch>, i: int, k: int) {
    exists j :: 0 <= j < |cmds| && cmds[j].index == k && FindTab(tabs, cmds[j].category) == Some(i)
  }

  /** Some command of `cmds` targets an item of tab `i`. */
  predicate Touched(tabs: seq<string>, cmds: seq<Dispatch>, i: int) {
    exists j :: 0 <= j < |cmds| && FindTab(tabs, cmds[j].category) == Some(i)
  }

  /** From `b` to `r.0`, exactly the items targeted by `r.1` changed, and
      only their status, to `Starting`; the rows of the tabs concerned were
      rebuilt, and the other tabs' rows kept. */
  predicate MarksOnly(tabs: seq<string>, b: Board, r: (Board, seq<Dispatch>))
    requires Fits(tabs, b) && Fits(tabs, r.0)
  {
    && (forall i :: 0 <= i < |tabs| ==> |r.0.data[i]| == |b.data[i]|)
    && (forall i, k :: 0 <= i < |tabs| && 0 <= k < |b.data[i]| ==>
          r.0.data[i][k] == (if Started(tabs, r.1, i, k) then Start(b.data[i][k]) else b.data[i][k]))
    && (forall i :: 0 <= i < |tabs| ==>
          r.0.rows[i] == (if Touched(tabs, r.1, i) then RowsOf(r.0.data[i]) else b.rows[i]))
  }

  lemma PopMarks(tabs: seq<string>, b: Board)
    requires Fits(tabs, b) && |b.queue| > 0
    ensures MarksOnly(tabs, b, Pop(tabs, b))
  {
    var q := b.queue[0];
    var c := Pop(tabs, b).1;
    UpdateItemOnly(tabs, b.(queue := b.queue[1..], active := b.active + 1), q.category, q.index, Start);
    if Locate(tabs, b.data, q).Some? {
      assert c == [Dispatch(q.index, q.category, c[0].source)];
      forall i, k ensures Started(tabs, c, i, k) <==> FindTab(tabs, q.category) == Some(i) && k == q.index {
        if FindTab(tabs, q.category) == Some(i) && k == q.index {
          assert c[0].index == k;
        }
      }
      forall i ensures Touched(tabs, c, i) <==> FindTab(tabs, q.category) == Some(i) {
        if FindTab(tabs, q.category) == Some(i) {
          assert c[0].category == q.category;
        }
      }
    }
  }

  lemma StartedAppend(tabs: seq<string>, c: seq<Dispatch>, d: seq<Dispatch>, i: int, k: int)
    ensures Started(tabs, c + d, i, k) <==> Started(tabs, c, i, k) || Started(tabs, d, i, k)
    ensures Touched(tabs, c + d, i) <==> Touched(tabs, c, i) || Touched(tabs, d, i)
    ensures Started(tabs, c, i, k) ==> Touched(tabs, c, i)
  {
    if Started(tabs, c + d, i, k) {
      var j :| 0 <= j < |c + d| && (c + d)[j].index == k && FindTab(tabs, (c + d)[j].category) == Some(i);
      if j >= |c| { assert (c + d)[j] == d[j - |c|]; }
    }
    if Started(tabs, d, i, k) {
      var j :| 0 <= j < |d| && d[j].index == k && FindTab(tabs, d[j].category) == Some(i);
      assert (c + d)[|c| + j] == d[j];
    }
    if Started(tabs, c, i, k) {
      var j :| 0 <= j < |c| && c[j].index == k && FindTab(tabs, c[j].category) == Some(i);
      assert (c + d)[j] == c[j];
    }
    if Touched(tabs, c + d, i) {
      var j :| 0 <= j < |c + d| && FindTab(tabs, (c + d)[j].category) == Some(i);
      if j >= |c| { assert (c + d)[j] == d[j - |c|]; }
    }
    if Touched(tabs, d, i) {
      var j :| 0 <= j < |d| && FindTab(tabs, d[j].category) == Some(i);
      assert (c + d)[|c| + j] == d[j];
    }
    if Touched(tabs, c, i) {
      var j :| 0 <= j < |c| && FindTab(tabs, c[j].category) == Some(i);
      assert (c + d)[j] == c[j];
    }
  }

  /** Two marking steps in a row are one marking step. */
  lemma MarksCompose(tabs: seq<string>, b: Board, p: (Board, seq<Dispatch>), r: (Board, seq<Dispatch>))
    requires Fits(tabs, b) && Fits(tabs, p.0) && Fits(tabs, r.0)
    requires MarksOnly(tabs, b, p) && MarksOnly(tabs, p.0, r)
    ensures MarksOnly(tabs, b, (r.0, p.1 + r.1))
  {
    forall i, k | 0 <= i < |tabs| && 0 <= k < |b.data[i]|
      ensures r.0.data[i][k] == (if Started(tabs, p.1 + r.1, i, k) then Start(b.data[i][k]) else b.data[i][k])
    {
      StartedAppend(tabs, p.1, r.1, i, k);
    }
    forall i | 0 <= i < |tabs|
      ensures r.0.rows[i] == (if Touched(tabs, p.1 + r.1, i) then RowsOf(r.0.data[i]) else b.rows[i])
    {
      StartedAppend(tabs, p.1, r.1, i, 0);
      if !Touched(tabs, r.1, i) {
        forall k | 0 <= k < |p.0.data[i]| ensures r.0.data[i][k] == p.0.data[i][k] {
          StartedAppend(tabs, r.1, [], i, k);
        }
        assert r.0.data[i] == p.0.data[i];
      }
    }
  }

  /** `ProcessQueue` changes no item but the ones it dispatches, and those
      only to `Starting`. */
  lemma {:induction false} DrainMarks(tabs: seq<string>, b: Board)
    requires Fits(tabs, b)
    ensures MarksOnly(tabs, b, Drain(tabs, b))
    decreases |b.queue|
  {
    if |b.queue| > 0 && b.active < MaxConcurrent {
      var p := Pop(tabs, b);
      PopMarks(tabs, b);
      DrainMarks(tabs, p.0);
      MarksCompose(tabs, b, p, Drain(tabs, p.0));
    }
  }

  // ---------------------------------------------------------------------------
  // Completion: the decrement clamp
  // ---------------------------------------------------------------------------

  /** Every completion message gives its slot back, never going below 0. */
  function Released(n: int): (r: int)
    ensures r >= 0 && r >= n - 1 && (r == 0 || r == n - 1)
  {
    if n - 1 < 0 then 0 else n - 1
  }

  /** Completions and the gate keep the running count within
      [0, MaxConcurrent]. */
  lemma CountStaysInGate(tabs: seq<string>, b: Board)
    requires Fits(tabs, b) && 0 <= b.active <= MaxConcurrent
    ensures 0 <= Released(b.active) <= MaxConcurrent
    ensures 0 <= Drain(tabs, b).0.active <= MaxConcurrent
    ensures 0 <= Drain(tabs, b.(active := Released(b.active))).0.active <= MaxConcurrent
  {
    DrainGate(tabs, b);
    DrainGate(tabs, b.(active := Released(b.active)));
  }

  /** A verification request: the item's position and expected checksum. */
  datatype VerifyRequest = VerifyRequest(index: int, category: string, checksum: string)

  function CompletedUpdate(err: Option<string>): Item -> Item {
    it => Completed(it, err)
  }

  /** The item a message addresses, if any. */
  function ItemAt(tabs: seq<string>, data: seq<seq<Item>>, category: string, index: int): (r: Option<Item>)
    requires |data| == |tabs|
    ensures r.Some? <==> Locate(tabs, data, QueueItem(category, index)).Some?
    ensures r.Some? ==> r.value == data[FindTab(tabs, category).value][index]
  {
    match Locate(tabs, data, QueueItem(category, index))
    case Some(i) => Some(data[i][index])
    case None => None
  }

  /** The `DownloadMsg` handler: free a slot, record the outcome on the item,
      ask for verification when the item has a checksum, then run the gate. */
  function DownloadDone(tabs: seq<string>, b: Board, category: string, index: int, err: Option<string>)
    : (r: (Board, Option<VerifyRequest>, seq<Dispatch>))
    requires Fits(tabs, b)
    ensures Fits(tabs, r.0)
  {
    var b1 := UpdateItem(tabs, b.(active := Released(b.active)), category, index, CompletedUpdate(err));
    var verify :=
      match ItemAt(tabs, b.data, category, index)
      case Some(it) =>
        if err.None? && it.source.checksum != "" then Some(VerifyRequest(index, category, it.source.checksum))
        else None
      case None => None;
    var d := Drain(tabs, b1);
    (d.0, verify, d.1)
  }

  /** A verification is requested exactly for a successful download of an
      item that carries a checksum, and the freed slot goes to the queue. */
  lemma DownloadDoneVerifies(tabs: seq<string>, b: Board, category: string, index: int, err: Option<string>)
    requires Fits(tabs, b) && 0 <= b.active <= MaxConcurrent
    ensures var r := DownloadDone(tabs, b, category, index, err);
      var it := ItemAt(tabs, b.data, category, index);
      && (r.1.Some? <==> it.Some? && err.None? && it.value.source.checksum != "")
      && (r.1.Some? ==> r.1.value == VerifyRequest(index, category, it.value.source.checksum))
      && 0 <= r.0.active <= MaxConcurrent
      && (|b.queue| > 0 && b.active > 0 ==> |r.0.queue| < |b.queue|)
  {
    var b1 := UpdateItem(tabs, b.(active := Released(b.active)), category, index, CompletedUpdate(err));
    DrainGate(tabs, b1);
    DrainFifo(tabs, b1);
    if |b.queue| > 0 && b.active > 0 {
      assert b1.active < MaxConcurrent;
      assert Drain(tabs, b1).0 == Drain(tabs, Pop(tabs, b1).0).0;
      DrainFifo(tabs, Pop(tabs, b1).0);
    }
  }

  // ---------------------------------------------------------------------------
  // Enqueueing: the D and U keys
  // ---------------------------------------------------------------------------

  /** `D`: items not present locally, or not checked yet. */
  predicate Missing(it: Item) {
    it.status == StatusNotFound || it.status == NotChecked
  }

  /** `U`: items with a newer version available. */
  predicate Outdated(it: Item) {
    it.status == StatusNewer
  }

  /** The items with `wanted` marked as queued. */
  function Mark(items: seq<Item>, wanted: Item -> bool): (r: seq<Item>)
    ensures |r| == |items|
    ensures forall k :: 0 <= k < |items| ==>
      r[k] == (if wanted(items[k]) then items[k].(status := Queued) else items[k])
  {
    seq(|items|, k requires 0 <= k < |items| => if wanted(items[k]) then items[k].(status := Queued) else items[k])
  }

  /** The queue entries for the items at `ks`, each under its own category. */
  function QueueOf(items: seq<Item>, ks: seq<nat>): (r: seq<QueueItem>)
    requires forall j :: 0 <= j < |ks| ==> ks[j] < |items|
    ensures |r| == |ks| && forall j :: 0 <= j < |ks| ==> r[j] == QueueItem(items[ks[j]].category, ks[j])
  {
    seq(|ks|, j requires 0 <= j < |ks| => QueueItem(items[ks[j]].category, ks[j]))
  }

  /** The `D`/`U` loop over tab `t`: mark the wanted items as queued, append
      their entries to the queue in index order, and rebuild the rows. */
  function Enqueue(tabs: seq<string>, b: Board, t: int, wanted: Item -> bool): (r: Board)
    requires Fits(tabs, b) && 0 <= t < |tabs|
    ensures Fits(tabs, r) && r.active == b.active
    ensures r.data == b.data[t := Mark(b.data[t], wanted)]
    ensures r.rows == b.rows[t := RowsOf(r.data[t])]
  {
    var items := b.data[t];
    var marked := Mark(items, wanted);
    b.(data := b.data[t := marked], rows := b.rows[t := RowsOf(marked)],
       queue := b.queue + QueueOf(items, Where(items, wanted, |items|)))
  }

  /** `added` holds exactly the wanted items of `items`, in index order,
      each under its own category. */
  predicate ExactlyWanted(items: seq<Item>, wanted: Item -> bool, added: seq<QueueItem>) {
    && (forall j :: 0 <= j < |added| ==>
          0 <= added[j].index < |items| && wanted(items[added[j].index])
          && added[j].category == items[added[j].index].category)
    && (forall j, j' :: 0 <= j < j' < |added| ==> added[j].index < added[j'].index)
    && (forall k :: 0 <= k < |items| && wanted(items[k]) ==>
          exists j :: 0 <= j < |added| && added[j].index == k)
  }

  lemma QueueOfWhere(items: seq<Item>, wanted: Item -> bool)
    ensures ExactlyWanted(items, wanted, QueueOf(items, Where(items, wanted, |items|)))
  {
    QueueOfSelected(items, wanted, Where(items, wanted, |items|));
  }

  lemma QueueOfSelected(items: seq<Item>, wanted: Item -> bool, ks: seq<nat>)
    requires forall j :: 0 <= j < |ks| ==> ks[j] < |items| && wanted(items[ks[j]])
    requires forall j, j' :: 0 <= j < j' < |ks| ==> ks[j] < ks[j']
    requires forall k :: 0 <= k < |items| && wanted(items[k]) ==> k in ks
    ensures ExactlyWanted(items, wanted, QueueOf(items, ks))
  {
    var added := QueueOf(items, ks);
    forall k | 0 <= k < |items| && wanted(items[k])
      ensures exists j :: 0 <= j < |added| && added[j].index == k
    {
      var j :| 0 <= j < |ks| && ks[j] == k;
      assert added[j].index == k;
    }
  }

  /** The appended entries are exactly the wanted items of the tab, in index
      order, behind the entries already waiting. */
  lemma EnqueueExact(tabs: seq<string>, b: Board, t: int, wanted: Item -> bool)
    requires Fits(tabs, b) && 0 <= t < |tabs|
    ensures var r := Enqueue(tabs, b, t, wanted);
      |b.queue| <= |r.queue| && r.queue == b.queue + r.queue[|b.queue|..]
      && ExactlyWanted(b.data[t], wanted, r.queue[|b.queue|..])
  {
    var r := Enqueue(tabs, b, t, wanted);
    var items := b.data[t];
    QueueOfWhere(items, wanted);
    assert r.queue[|b.queue|..] == QueueOf(items, Where(items, wanted, |items|));
  }

  // ---------------------------------------------------------------------------
  // Filtering: applyTableFilter
  // ---------------------------------------------------------------------------

  /** The row test, for a query already lower-cased. */
  predicate NameMatches(it: Item, query: string) {
    query == "" || Contains(Lower(it.source.name), query)
  }

  function Matcher(query: string): Item -> bool {
    it => NameMatches(it, query)
  }

  /** The rows for the items at `ks`. */
  function RowsAt(items: seq<Item>, ks: seq<nat>): (r: seq<Row>)
    requires forall j :: 0 <= j < |ks| ==> ks[j] < |items|
    ensures |r| == |ks| && forall j :: 0 <= j < |ks| ==> r[j] == ToRow(items[ks[j]])
  {
    seq(|ks|, j requires 0 <= j < |ks| => ToRow(items[ks[j]]))
  }

  /** The indices of the items whose name contains the query, ignoring
      case, in index order. */
  function Kept(items: seq<Item>, filterQuery: string): (ks: seq<nat>)
    ensures forall j :: 0 <= j < |ks| ==>
      ks[j] < |items| && NameMatches(items[ks[j]], Lower(filterQuery))
    ensures forall j, j' :: 0 <= j < j' < |ks| ==> ks[j] < ks[j']
    ensures forall k :: 0 <= k < |items| && NameMatches(items[k], Lower(filterQuery)) ==> k in ks
    ensures |ks| <= |items|
  {
    Where(items, Matcher(Lower(filterQuery)), |items|)
  }

  /** The rows `applyTableFilter` shows for a tab. */
  function Filtered(items: seq<Item>, filterQuery: string): (r: seq<Row>)
    ensures |r| <= |items|
  {
    RowsAt(items, Kept(items, filterQuery))
  }

  /** An empty query keeps every row. */
  lemma FilterEmptyKeepsAll(items: seq<Item>)
    ensures Filtered(items, "") == RowsOf(items)
  {
    WhereAll(items, Matcher(Lower("")), |items|);
  }

  lemma LowerIdempotent(s: string)
    ensures Lower(Lower(s)) == Lower(s)
  {
  }

  /** The query's case does not matter. */
  lemma FilterIgnoresCase(items: seq<Item>, filterQuery: string)
    ensures Filtered(items, Lower(filterQuery)) == Filtered(items, filterQuery)
  {
    LowerIdempotent(filterQuery);
  }

  // ---------------------------------------------------------------------------
  // The model
  // ---------------------------------------------------------------------------

  /** An update check handed to the event loop by the `u` key. */
  datatype CheckRequest = CheckRequest(index: int, category: string, source: Config.Source)

  function ProgressUpdate(p: Event, f: Format): Item -> Item {
    it => ApplyProgress(it, p, f)
  }

  function CheckedUpdate(o: CheckOutcome): Item -> Item {
    it => Checked(it, o)
  }

  function VerifiedUpdate(err: Option<string>): Item -> Item {
    it => Verified(it, err)
  }

  /** The interface state the handlers change: the tabs, their items and
      rows, the download queue and the running count. `dynamic` holds the
      names of the catalog tabs, on which the bulk keys do nothing. */
  class Model {
    var tabs: seq<string>
    var activeTab: int
    var tableData: seq<seq<Item>>
    var rows: seq<seq<Row>>
    var downloadQueue: seq<QueueItem>
    var activeDownloads: int
    var dynamic: set<string>
    var filterQuery: string

    predicate Valid()
      reads this
    {
      |tableData| == |tabs| && |rows| == |tabs|
    }

    /** The part of the state the download gate works on. */
    function Snapshot(): (b: Board)
      reads this
      ensures b.data == tableData && b.rows == rows && b.queue == downloadQueue && b.active == activeDownloads
    {
      Board(tableData, rows, downloadQueue, activeDownloads)
    }

    /** The fields no handler below changes besides the ones it names. */
    twostate predicate Kept()
      reads this
    {
      tabs == old(tabs) && activeTab == old(activeTab) && dynamic == old(dynamic)
      && filterQuery == old(filterQuery)
    }

    constructor (tabs: seq<string>, data: seq<seq<Item>>, dynamic: set<string>)
      requires |data| == |tabs|
      ensures Valid() && this.tabs == tabs && activeTab == 0 && tableData == data
      ensures forall i :: 0 <= i < |tabs| ==> rows[i] == RowsOf(data[i])
      ensures downloadQueue == [] && activeDownloads == 0 && this.dynamic == dynamic && filterQuery == ""
    {
      this.tabs := tabs;
      activeTab := 0;
      tableData := data;
      rows := seq(|data|, i requires 0 <= i < |data| => RowsOf(data[i]));
      downloadQueue := [];
      activeDownloads := 0;
      this.dynamic := dynamic;
      filterQuery := "";
    }

    /** Right arrow. */
    method KeyRight()
      requires |tabs| > 0 && 0 <= activeTab < |tabs|
      modifies this
      ensures tabs == old(tabs) && Snapshot() == old(Snapshot())
      ensures activeTab == NextTab(old(activeTab), |tabs|)
    {
      activeTab := (activeTab + 1) % |tabs|;
    }

    /** Left arrow. */
    method KeyLeft()
      requires |tabs| > 0 && 0 <= activeTab < |tabs|
      modifies this
      ensures tabs == old(tabs) && Snapshot() == old(Snapshot())
      ensures activeTab == PrevTab(old(activeTab), |tabs|)
    {
      activeTab := (activeTab - 1 + |tabs|) % |tabs|;
    }

    /** `syncTableRows`: rebuild tab `t`'s rows from its items. */
    method SyncTableRows(t: int)
      requires Valid() && 0 <= t < |tabs|
      modifies this
      ensures Valid() && Kept()
      ensures tableData == old(tableData) && downloadQueue == old(downloadQueue)
      ensures activeDownloads == old(activeDownloads)
      ensures rows == old(rows)[t := RowsOf(tableData[t])]
    {
      var items := tableData[t];
      var built: seq<Row> := [];
      var k := 0;
      while k < |items|
        invariant 0 <= k <= |items|
        invariant built == RowsOf(items[..k])
      {
        assert items[..k + 1] == items[..k] + [items[k]];
        built := built + [ToRow(items[k])];
        k := k + 1;
      }
      assert items[..k] == items;
      rows := rows[t := built];
    }

    /** `updateItemState`. */
    method UpdateItemState(category: string, index: int, upd: Item -> Item)
      requires Valid()
      modifies this
      ensures Valid() && Kept()
      ensures Snapshot() == UpdateItem(tabs, old(Snapshot()), category, index, upd)
    {
      var i := 0;
      while i < |tabs|
        invariant 0 <= i <= |tabs| && category !in tabs[..i]
      {
        if tabs[i] == category {
          assert FindTab(tabs, category) == Some(i);
          if 0 <= index < |tableData[i]| {
            tableData := tableData[i := tableData[i][index := upd(tableData[i][index])]];
            SyncTableRows(i);
          }
          return;
        }
        assert tabs[..i + 1] == tabs[..i] + [tabs[i]];
        i := i + 1;
      }
      assert tabs[..i] == tabs;
    }

    /** The scan `ProcessQueue` makes for a popped entry. */
    method Lookup(q: QueueItem) returns (at: Option<nat>)
      requires Valid()
      ensures at == Locate(tabs, tableData, q)
    {
      at := None;
      var i := 0;
      while i < |tabs|
        invariant 0 <= i <= |tabs| && q.category !in tabs[..i]
      {
        if tabs[i] == q.category {
          assert FindTab(tabs, q.category) == Some(i);
          if 0 <= q.index < |tableData[i]| {
            at := Some(i);
          }
          return;
        }
        assert tabs[..i + 1] == tabs[..i] + [tabs[i]];
        i := i + 1;
      }
      assert tabs[..i] == tabs;
    }

    /** One turn of `ProcessQueue`'s loop. */
    method PopOne() returns (c: seq<Dispatch>)
      requires Valid() && |downloadQueue| > 0
      modifies this
      ensures Valid() && Kept()
      ensures (Snapshot(), c) == Pop(tabs, old(Snapshot()))
    {
      var item := downloadQueue[0];
      downloadQueue := downloadQueue[1..];
      activeDownloads := activeDownloads + 1;
      var at := Lookup(item);
      if at.Some? {
        var src := tableData[at.value][item.index].source;
        UpdateItemState(item.category, item.index, Start);
        c := [Dispatch(item.index, item.category, src)];
      } else {
        activeDownloads := activeDownloads - 1;
        c := [];
      }
    }

    /** `ProcessQueue`: start queued downloads while slots are free. */
    method ProcessQueue() returns (cmds: seq<Dispatch>)
      requires Valid()
      modifies this
      ensures Valid() && Kept()
      ensures (Snapshot(), cmds) == Drain(tabs, old(Snapshot()))
    {
      cmds := [];
      assert cmds + Drain(tabs, Snapshot()).1 == Drain(tabs, Snapshot()).1;
      while |downloadQueue| > 0 && activeDownloads < MaxConcurrent
        invariant Valid() && Kept()
        invariant Drain(tabs, old(Snapshot())) == (Drain(tabs, Snapshot()).0, cmds + Drain(tabs, Snapshot()).1)
        decreases |downloadQueue|
      {
        ghost var before := Snapshot();
        var c := PopOne();
        AppendAssoc(cmds, c, Drain(tabs, Snapshot()).1);
        cmds := cmds + c;
      }
      assert Drain(tabs, Snapshot()) == (Snapshot(), []);
      assert cmds + [] == cmds;
    }

    /** The `D`/`U` loop over tab `t` has handled the first `k` items of
        `items`, starting from `data0` and `queue0`. */
    ghost predicate EnqueuedUpTo(t: int, items: seq<Item>, wanted: Item -> bool, k: int,
                                 data0: seq<seq<Item>>, queue0: seq<QueueItem>)
      reads this
    {
      && 0 <= t < |data0| && items == data0[t] && 0 <= k <= |items|
      && |tableData| == |data0| && |tableData[t]| == |items| && tableData == data0[t := tableData[t]]
      && (forall j :: 0 <= j < |items| ==>
            tableData[t][j] == (if j < k && wanted(items[j]) then items[j].(status := Queued) else items[j]))
      && downloadQueue == queue0 + QueueOf(items, Where(items, wanted, k))
    }

    /** One turn of the `D`/`U` loop. */
    method EnqueueStep(t: int, items: seq<Item>, wanted: Item -> bool, k: int,
                       ghost data0: seq<seq<Item>>, ghost queue0: seq<QueueItem>)
      requires EnqueuedUpTo(t, items, wanted, k, data0, queue0) && k < |items|
      modifies this
      ensures EnqueuedUpTo(t, items, wanted, k + 1, data0, queue0)
      ensures tabs == old(tabs) && activeTab == old(activeTab) && dynamic == old(dynamic)
      ensures filterQuery == old(filterQuery) && rows == old(rows) && activeDownloads == old(activeDownloads)
    {
      var it := items[k];
      if wanted(it) {
        tableData := tableData[t := tableData[t][k := it.(status := Queued)]];
        QueueOfSnoc(items, Where(items, wanted, k), k);
        downloadQueue := downloadQueue + [QueueItem(it.category, k)];
      }
    }

    /** The `D`/`U` loop over the active tab. */
    method EnqueueWhere(wanted: Item -> bool)
      requires Valid() && 0 <= activeTab < |tabs|
      modifies this
      ensures Valid() && Kept()
      ensures Snapshot() == Enqueue(tabs, old(Snapshot()), activeTab, wanted)
    {
      var t := activeTab;
      var items := tableData[t];
      var k := 0;
      assert tableData == tableData[t := tableData[t]];
      while k < |items|
        invariant EnqueuedUpTo(t, items, wanted, k, old(tableData), old(downloadQueue))
        invariant Valid() && Kept() && rows == old(rows) && activeDownloads == old(activeDownloads)
      {
        EnqueueStep(t, items, wanted, k, old(tableData), old(downloadQueue));
        k := k + 1;
      }
      assert tableData[t] == Mark(items, wanted);
      SyncTableRows(t);
    }

    /** `D`: queue every missing or unchecked item of the active tab. */
    method KeyDownloadMissing() returns (cmds: seq<Dispatch>)
      requires Valid() && 0 <= activeTab < |tabs|
      modifies this
      ensures Valid() && Kept()
      ensures tabs[activeTab] in dynamic ==> Snapshot() == old(Snapshot()) && cmds == []
      ensures tabs[activeTab] !in dynamic ==>
        (Snapshot(), cmds) == Drain(tabs, Enqueue(tabs, old(Snapshot()), activeTab, Missing))
    {
      if tabs[activeTab] in dynamic {
        return [];
      }
      EnqueueWhere(Missing);
      cmds := ProcessQueue();
    }

    /** `U`: queue every item of the active tab with a newer version. */
    method KeyUpdateNewer() returns (cmds: seq<Dispatch>)
      requires Valid() && 0 <= activeTab < |tabs|
      modifies this
      ensures Valid() && Kept()
      ensures tabs[activeTab] in dynamic ==> Snapshot() == old(Snapshot()) && cmds == []
      ensures tabs[activeTab] !in dynamic ==>
        (Snapshot(), cmds) == Drain(tabs, Enqueue(tabs, old(Snapshot()), activeTab, Outdated))
    {
      if tabs[activeTab] in dynamic {
        return [];
      }
      EnqueueWhere(Outdated);
      cmds := ProcessQueue();
    }

    /** `u`: one update check per item of the active tab, in order. */
    method KeyCheckAll() returns (checks: seq<CheckRequest>)
      requires Valid() && 0 <= activeTab < |tabs|
      ensures tabs[activeTab] in dynamic ==> checks == []
      ensures tabs[activeTab] !in dynamic ==>
        |checks| == |tableData[activeTab]|
        && forall k :: 0 <= k < |checks| ==>
             checks[k] == CheckRequest(k, tableData[activeTab][k].category, tableData[activeTab][k].source)
    {
      checks := [];
      if tabs[activeTab] in dynamic {
        return;
      }
      var items := tableData[activeTab];
      var k := 0;
      while k < |items|
        invariant 0 <= k <= |items| && |checks| == k
        invariant forall j :: 0 <= j < k ==> checks[j] == CheckRequest(j, items[j].category, items[j].source)
      {
        checks := checks + [CheckRequest(k, items[k].category, items[k].source)];
        k := k + 1;
      }
    }

    /** The decrement every completion message starts with. */
    method Release()
      modifies this
      ensures activeDownloads == Released(old(activeDownloads))
      ensures tableData == old(tableData) && rows == old(rows) && downloadQueue == old(downloadQueue)
      ensures Kept()
    {
      activeDownloads := activeDownloads - 1;
      if activeDownloads < 0 {
        activeDownloads := 0;
      }
    }

    /** The `ProgressUpdateMsg` handler. */
    method OnProgress(category: string, index: int, p: Event, f: Format)
      requires Valid()
      modifies this
      ensures Valid() && Kept()
      ensures Snapshot() == UpdateItem(tabs, old(Snapshot()), category, index, ProgressUpdate(p, f))
    {
      UpdateItemState(category, index, ProgressUpdate(p, f));
    }

    /** The `DownloadMsg` handler. */
    method OnDownload(category: string, index: int, err: Option<string>)
      returns (verify: Option<VerifyRequest>, cmds: seq<Dispatch>)
      requires Valid()
      modifies this
      ensures Valid() && Kept()
      ensures (Snapshot(), verify, cmds) == DownloadDone(tabs, old(Snapshot()), category, index, err)
    {
      ghost var b := Snapshot();
      Release();
      var at := Lookup(QueueItem(category, index));
      verify := None;
      if at.Some? {
        var it := tableData[at.value][index];
        if err.None? && it.source.checksum != "" {
          verify := Some(VerifyRequest(index, category, it.source.checksum));
        }
      }
      UpdateItemState(category, index, CompletedUpdate(err));
      cmds := ProcessQueue();
    }

    /** The `CheckMsg` handler. */
    method OnCheck(category: string, index: int, o: CheckOutcome)
      requires Valid()
      modifies this
      ensures Valid() && Kept()
      ensures Snapshot() == UpdateItem(tabs, old(Snapshot()), category, index, CheckedUpdate(o))
    {
      UpdateItemState(category, index, CheckedUpdate(o));
    }

    /** The `VerifyMsg` handler. */
    method OnVerify(category: string, index: int, err: Option<string>)
      requires Valid()
      modifies this
      ensures Valid() && Kept()
      ensures Snapshot() == UpdateItem(tabs, old(Snapshot()), category, index, VerifiedUpdate(err))
    {
      UpdateItemState(category, index, VerifiedUpdate(err));
    }

    /** `applyTableFilter`. */
    method ApplyTableFilter(t: int)
      requires Valid()
      modifies this
      ensures Valid() && Kept()
      ensures tableData == old(tableData) && downloadQueue == old(downloadQueue)
      ensures activeDownloads == old(activeDownloads)
      ensures rows == if 0 <= t < |tabs| then old(rows)[t := Filtered(tableData[t], filterQuery)] else old(rows)
    {
      if t < 0 || t >= |tableData| {
        return;
      }
      var shown := FilterRows(tableData[t], Lower(filterQuery));
      rows := rows[t := shown];
    }
  }

  lemma QueueOfSnoc(items: seq<Item>, ks: seq<nat>, k: nat)
    requires k < |items| && forall j :: 0 <= j < |ks| ==> ks[j] < |items|
    ensures QueueOf(items, ks + [k]) == QueueOf(items, ks) + [QueueItem(items[k].category, k)]
  {
  }

  lemma RowsAtSnoc(items: seq<Item>, ks: seq<nat>, k: nat)
    requires k < |items| && forall j :: 0 <= j < |ks| ==> ks[j] < |items|
    ensures RowsAt(items, ks + [k]) == RowsAt(items, ks) + [ToRow(items[k])]
  {
  }

  /** The row-building loop of `applyTableFilter`, for a lower-cased query. */
  method FilterRows(items: seq<Item>, query: string) returns (shown: seq<Row>)
    ensures shown == RowsAt(items, Where(items, Matcher(query), |items|))
  {
    shown := [];
    var k := 0;
    while k < |items|
      invariant 0 <= k <= |items|
      invariant shown == RowsAt(items, Where(items, Matcher(query), k))
    {
      RowsAtSnoc(items, Where(items, Matcher(query), k), k);
      if query == "" || Contains(Lower(items[k].source.name), query) {
        shown := shown + [ToRow(items[k])];
      }
      k := k + 1;
    }
  }
}
