/** `BKDataContainer`, the sectioned table behind a list view, and the
    parts of `BKListView` that drive it: reloading and showing the status.
    The two closures `BKListView.init` installs on its container are
    modelled by the container's `listView` reference: every status
    assignment and every data change is recorded in `notifications` and
    forwarded to the list view, which updates its subviews. */
module BKList {

  import opened Wrappers

  /** The Swift `Error` values the container sees: `BKError.empty`, or an
      error the loader reports. */
  datatype ErrorValue = BKErrorEmpty | LoadError(description: string)

  datatype Status = Loading | Fail(error: ErrorValue) | Complete

  /** The hand-written `Status ==`: it compares cases only. */
  function StatusEq(lhs: Status, rhs: Status): (r: bool)
    ensures r <==> lhs == rhs || (lhs.Fail? && rhs.Fail?)
  {
    match (lhs, rhs)
    case (Loading, Loading) => true
    case (Fail(_), Fail(_)) => true
    case (Complete, Complete) => true
    case _ => false
  }

  /** `Status ==` is an equivalence that cannot tell two failures apart. */
  lemma StatusEqIsEquivalence(a: Status, b: Status, c: Status, e1: ErrorValue, e2: ErrorValue)
    ensures StatusEq(a, a)
    ensures StatusEq(a, b) ==> StatusEq(b, a)
    ensures StatusEq(a, b) && StatusEq(b, c) ==> StatusEq(a, c)
    ensures StatusEq(Fail(e1), Fail(e2))
  {
  }

  /** Foundation's `IndexPath` as the container uses it. */
  datatype IndexPath = IndexPath(section: nat, row: nat)

  /** The `DataChange` cases the closure receives. */
  datatype DataChange =
    | RowInserted(path: IndexPath)
    | RowsInserted(paths: seq<IndexPath>)
    | RowUpdated(path: IndexPath)
    | RowDeleted(path: IndexPath)
    | SectionDeleted(section: nat)

  /** One call of `statusDidChangeClosure` or `dataSourceDidChangeClosure`. */
  datatype Notification = StatusDidChange(status: Status) | DataSourceDidChange(change: DataChange)

  // ---------------------------------------------------------------------
  // The table and its edits, as values

  type Table<E> = seq<seq<E>>

  /** Total number of rows over all sections. */
  function TotalRows<E>(ds: Table<E>): (total: nat)
  {
    if ds == [] then 0 else TotalRows(ds[..|ds| - 1]) + |ds[|ds| - 1]|
  }

  lemma {:induction false} TotalRowsConcat<E>(a: Table<E>, b: Table<E>)
    ensures TotalRows(a + b) == TotalRows(a) + TotalRows(b)
  {
    if b == [] {
      assert a + b == a;
    } else {
      var n := |b| - 1;
      assert (a + b)[..|a + b| - 1] == a + b[..n];
      assert (a + b)[|a + b| - 1] == b[n];
      TotalRowsConcat(a, b[..n]);
    }
  }

  /** Replacing one section changes the total by the difference in length. */
  lemma TotalRowsReplace<E>(ds: Table<E>, s: nat, row: seq<E>)
    requires s < |ds|
    ensures TotalRows(ds[s := row]) + |ds[s]| == TotalRows(ds) + |row|
  {
    assert ds == ds[..s] + [ds[s]] + ds[s + 1..];
    assert ds[s := row] == ds[..s] + [row] + ds[s + 1..];
    TotalRowsConcat(ds[..s] + [ds[s]], ds[s + 1..]);
    TotalRowsConcat(ds[..s], [ds[s]]);
    TotalRowsConcat(ds[..s] + [row], ds[s + 1..]);
    TotalRowsConcat(ds[..s], [row]);
    assert [ds[s]][..0] == [] && [row][..0] == [];
  }

  /** Removing one section lowers the total by its length. */
  lemma TotalRowsRemove<E>(ds: Table<E>, s: nat)
    requires s < |ds|
    ensures TotalRows(ds[..s] + ds[s + 1..]) + |ds[s]| == TotalRows(ds)
  {
    assert ds == ds[..s] + [ds[s]] + ds[s + 1..];
    TotalRowsConcat(ds[..s] + [ds[s]], ds[s + 1..]);
    TotalRowsConcat(ds[..s], [ds[s]]);
    TotalRowsConcat(ds[..s], ds[s + 1..]);
    assert [ds[s]][..0] == [];
  }

  predicate CanInsert<E>(ds: Table<E>, p: IndexPath)
  {
    p.section < |ds| && p.row <= |ds[p.section]|
  }

  /** `insert(model, at:)` on the table: `Array.insert` into one section. */
  function InsertAt<E>(ds: Table<E>, m: E, p: IndexPath): (r: Table<E>)
    requires CanInsert(ds, p)
    ensures |r| == |ds|
    ensures r[p.section] == ds[p.section][..p.row] + [m] + ds[p.section][p.row..]
    ensures forall i :: 0 <= i < |ds| && i != p.section ==> r[i] == ds[i]
    ensures TotalRows(r) == TotalRows(ds) + 1
  {
    var row := ds[p.section][..p.row] + [m] + ds[p.section][p.row..];
    TotalRowsReplace(ds, p.section, row);
    ds[p.section := row]
  }

  /** The insertions of `insertRows` can be made one after the other, each
      within the bounds of the table the earlier ones left. */
  predicate CanInsertAll<E>(ds: Table<E>, ms: seq<E>, ps: seq<IndexPath>)
    requires |ms| == |ps|
    decreases |ps|
  {
    ps == [] || (CanInsert(ds, ps[0]) && CanInsertAll(InsertAt(ds, ms[0], ps[0]), ms[1..], ps[1..]))
  }

  /** The table after the insertions of `insertRows`, in index order. */
  function InsertAll<E>(ds: Table<E>, ms: seq<E>, ps: seq<IndexPath>): (r: Table<E>)
    requires |ms| == |ps| && CanInsertAll(ds, ms, ps)
    ensures |r| == |ds|
    ensures |ps| == 1 ==> r == InsertAt(ds, ms[0], ps[0])
    decreases |ps|
  {
    if ps == [] then ds else InsertAll(InsertAt(ds, ms[0], ps[0]), ms[1..], ps[1..])
  }

  /** `insertRows` adds one row per model. */
  lemma {:induction false} InsertAllCounts<E>(ds: Table<E>, ms: seq<E>, ps: seq<IndexPath>)
    requires |ms| == |ps| && CanInsertAll(ds, ms, ps)
    ensures TotalRows(InsertAll(ds, ms, ps)) == TotalRows(ds) + |ms|
    decreases |ps|
  {
    if ps != [] {
      InsertAllCounts(InsertAt(ds, ms[0], ps[0]), ms[1..], ps[1..]);
    }
  }

  predicate InBounds<E>(ds: Table<E>, p: IndexPath)
  {
    p.section < |ds| && p.row < |ds[p.section]|
  }

  /** `update(model, at:)` on the table. */
  function UpdateAt<E>(ds: Table<E>, m: E, p: IndexPath): (r: Table<E>)
    requires InBounds(ds, p)
    ensures |r| == |ds| && forall i :: 0 <= i < |ds| ==> |r[i]| == |ds[i]|
    ensures forall i, j :: 0 <= i < |ds| && 0 <= j < |ds[i]| ==>
              r[i][j] == if i == p.section && j == p.row then m else ds[i][j]
  {
    ds[p.section := ds[p.section][p.row := m]]
  }

  /** `delete(at:)` on the table: the row goes, and the section with it when
      it was the last row. */
  function DeleteAt<E>(ds: Table<E>, p: IndexPath): (r: Table<E>)
    requires InBounds(ds, p)
    ensures TotalRows(r) + 1 == TotalRows(ds)
    ensures |ds[p.section]| == 1 ==> r == ds[..p.section] + ds[p.section + 1..]
    ensures |ds[p.section]| > 1 ==>
              r == ds[p.section := ds[p.section][..p.row] + ds[p.section][p.row + 1..]]
  {
    var row := ds[p.section][..p.row] + ds[p.section][p.row + 1..];
    if |row| == 0 then
      TotalRowsRemove(ds, p.section);
      ds[..p.section] + ds[p.section + 1..]
    else
      TotalRowsReplace(ds, p.section, row);
      ds[p.section := row]
  }

  predicate NoEmptySection<E>(ds: Table<E>)
  {
    forall i :: 0 <= i < |ds| ==> |ds[i]| > 0
  }

  /** Deleting never leaves an empty section behind, and inserting never
      creates one. */
  lemma EmptySectionsCollapse<E>(ds: Table<E>, m: E, p: IndexPath)
    requires NoEmptySection(ds)
    ensures InBounds(ds, p) ==> NoEmptySection(DeleteAt(ds, p))
    ensures CanInsert(ds, p) ==> NoEmptySection(InsertAt(ds, m, p))
  {
    if InBounds(ds, p) && |ds[p.section]| == 1 {
      var r := DeleteAt(ds, p);
      forall i | 0 <= i < |r| ensures |r[i]| > 0 {
        if i < p.section { assert r[i] == ds[i]; } else { assert r[i] == ds[i + 1]; }
      }
    }
  }

  // ---------------------------------------------------------------------
  // What the list view's subviews show

  /** The calls `dataSourceDidChangeClosure` and `updateStatus` make on the
      table or collection view. */
  datatype ContentCall =
    | LvInsert(path: IndexPath)
    | LvInsertRows(paths: seq<IndexPath>)
    | LvUpdate(path: IndexPath)
    | LvDeleteRow(path: IndexPath)
    | LvDeleteSection(section: nat)
    | LvReloadData

  /** The visible state of the indicator, the reload view and the
      container view, the error the reload view displays, and the calls
      made on the content view so far. */
  datatype Display = Display(indicatorHidden: bool, reloadHidden: bool, containerHidden: bool,
                             animating: bool, shownError: Option<ErrorValue>, contentCalls: seq<ContentCall>)

  /** Right after `BKListView.init`: no view hidden, the indicator started. */
  const InitialDisplay: Display := Display(false, false, false, true, None, [])

  /** The body of `updateStatus`. */
  function ShowStatus(d: Display, s: Status): (r: Display)
    ensures !r.indicatorHidden <==> s.Loading?
    ensures !r.reloadHidden <==> s.Fail?
    ensures !r.containerHidden <==> s.Complete?
    ensures r.animating <==> s.Loading?
    ensures r.shownError == if s.Fail? then Some(s.error) else d.shownError
    ensures r.contentCalls == d.contentCalls + if s.Complete? then [LvReloadData] else []
  {
    match s
    case Loading => d.(indicatorHidden := false, reloadHidden := true, containerHidden := true, animating := true)
    case Fail(error) =>
      d.(indicatorHidden := true, reloadHidden := false, shownError := Some(error),
         containerHidden := true, animating := false)
    case Complete =>
      d.(indicatorHidden := true, reloadHidden := true, containerHidden := false, animating := false,
         contentCalls := d.contentCalls + [LvReloadData])
  }

  /** The case analysis of `dataSourceDidChangeClosure`. */
  function ContentCallFor(c: DataChange): (call: ContentCall)
    ensures call != LvReloadData
  {
    match c
    case RowInserted(p) => LvInsert(p)
    case RowsInserted(ps) => LvInsertRows(ps)
    case RowUpdated(p) => LvUpdate(p)
    case RowDeleted(p) => LvDeleteRow(p)
    case SectionDeleted(s) => LvDeleteSection(s)
  }

  /** The content view is told enough to tell every data change apart:
      different changes make different calls. */
  lemma ContentCallsDistinguishChanges(c1: DataChange, c2: DataChange)
    ensures ContentCallFor(c1) == ContentCallFor(c2) ==> c1 == c2
  {
  }

  /** What the installed closures do for one notification. */
  function Step(d: Display, n: Notification): (r: Display)
  {
    match n
    case StatusDidChange(s) => ShowStatus(d, s)
    case DataSourceDidChange(c) => d.(contentCalls := d.contentCalls + [ContentCallFor(c)])
  }

  /** The display after the closures have run for each notification in turn. */
  function Replay(d: Display, ns: seq<Notification>): (r: Display)
  {
    if ns == [] then d else Step(Replay(d, ns[..|ns| - 1]), ns[|ns| - 1])
  }

  /** The status of the most recent status notification, if any. */
  function LastStatus(ns: seq<Notification>): (last: Option<Status>)
  {
    if ns == [] then None
    else if ns[|ns| - 1].StatusDidChange? then Some(ns[|ns| - 1].status)
    else LastStatus(ns[..|ns| - 1])
  }

  /** Exactly the subview that belongs to `s` is visible, and the
      indicator animates only while loading. */
  predicate Shows(d: Display, s: Status)
  {
    && (!d.indicatorHidden <==> s.Loading?)
    && (!d.reloadHidden <==> s.Fail?)
    && (!d.containerHidden <==> s.Complete?)
    && (d.animating <==> s.Loading?)
  }

  lemma LastStatusAppend(ns: seq<Notification>, n: Notification)
    ensures LastStatus(ns + [n]) == if n.StatusDidChange? then Some(n.status) else LastStatus(ns)
  {
    assert (ns + [n])[..|ns|] == ns;
  }

  /** Once any status has been announced, the display shows the latest
      one, whatever data changes came after it. */
  lemma {:induction false} DisplayFollowsLastStatus(d: Display, ns: seq<Notification>)
    requires LastStatus(ns).Some?
    ensures Shows(Replay(d, ns), LastStatus(ns).value)
  {
    if !ns[|ns| - 1].StatusDidChange? {
      DisplayFollowsLastStatus(d, ns[..|ns| - 1]);
    }
  }

  /** Before the first status is announced nothing is hidden: the
      indicator, the reload view and the container view all show. */
  lemma InitialDisplayShowsAll()
    ensures forall s: Status :: !Shows(InitialDisplay, s)
  {
  }

  // ---------------------------------------------------------------------
  // The container

  class BKDataContainer<E> {
    var status: Status
    var dataSource: Table<E>
    /** Every call of the two change closures, in order. */
    var notifications: seq<Notification>
    /** The list view whose closures are installed, if any. */
    var listView: BKListView?<E>

    /** The installed closures have run for every notification. */
    ghost predicate Observed()
      reads this, listView
    {
      listView != null ==> listView.display == Replay(InitialDisplay, notifications)
    }

    /** `status` is the value last announced; it keeps its initial
        `.loading` until the first assignment. */
    ghost predicate Valid()
      reads this, listView
    {
      && Observed()
      && (LastStatus(notifications).Some? ==> LastStatus(notifications).value == status)
      && (LastStatus(notifications).None? ==> status == Loading)
    }

    constructor ()
      ensures status == Loading && dataSource == [] && notifications == [] && listView == null
      ensures Valid()
    {
      status := Loading;
      dataSource := [];
      notifications := [];
      listView := null;
    }

    /** Assigning `status`: `didSet` calls `statusDidChangeClosure` with the
        new value, whether or not it differs from the old one. */
    method SetStatus(s: Status)
      requires Valid()
      modifies this`status, this`notifications, listView
      ensures Valid()
      ensures status == s
      ensures notifications == old(notifications) + [StatusDidChange(s)]
      ensures listView != null ==> Shows(listView.display, s)
    {
      status := s;
      Emit(StatusDidChange(s));
      if listView != null {
        DisplayFollowsLastStatus(InitialDisplay, notifications);
      }
    }

    /** Records one closure call and lets the list view react to it. */
    method Emit(n: Notification)
      requires Observed()
      modifies this`notifications, listView
      ensures Observed()
      ensures notifications == old(notifications) + [n]
      ensures LastStatus(notifications) == if n.StatusDidChange? then Some(n.status) else LastStatus(old(notifications))
    {
      LastStatusAppend(notifications, n);
      notifications := notifications + [n];
      assert notifications[..|notifications| - 1] == old(notifications);
      if listView != null {
        listView.Handle(n);
      }
    }

    /** `insert(_:at:)`. Indexing a section that does not exist, or a row
        past its end, traps. */
    method Insert(m: E, p: IndexPath)
      requires Valid()
      requires status.Complete? ==> CanInsert(dataSource, p)
      modifies this`dataSource, this`notifications, listView
      ensures Valid() && status == old(status)
      ensures old(status).Complete? ==>
                dataSource == InsertAt(old(dataSource), m, p)
                && notifications == old(notifications) + [DataSourceDidChange(RowInserted(p))]
      ensures !old(status).Complete? ==> dataSource == old(dataSource) && notifications == old(notifications)
    {
      if status.Complete? {
        var temp := dataSource[p.section];
        temp := temp[..p.row] + [m] + temp[p.row..];
        dataSource := dataSource[p.section := temp];
        Emit(DataSourceDidChange(RowInserted(p)));
      }
    }

    /** `insertRows(_:at:)`: nothing at all when the counts differ, otherwise
        the insertions one after another and a single notification. */
    method InsertRows(ms: seq<E>, ps: seq<IndexPath>)
      requires Valid()
      requires status.Complete? && |ms| == |ps| ==> CanInsertAll(dataSource, ms, ps)
      modifies this`dataSource, this`notifications, listView
      ensures Valid() && status == old(status)
      ensures old(status).Complete? && |ms| == |ps| ==>
                dataSource == InsertAll(old(dataSource), ms, ps)
                && notifications == old(notifications) + [DataSourceDidChange(RowsInserted(ps))]
      ensures !old(status).Complete? || |ms| != |ps| ==>
                dataSource == old(dataSource) && notifications == old(notifications)
    {
      if status.Complete? {
        if |ms| != |ps| {
          return;
        }
        for i := 0 to |ps|
          invariant CanInsertAll(dataSource, ms[i..], ps[i..])
          invariant InsertAll(dataSource, ms[i..], ps[i..]) == InsertAll(old(dataSource), ms, ps)
          invariant Valid() && notifications == old(notifications)
        {
          assert ms[i..][1..] == ms[i + 1..] && ps[i..][1..] == ps[i + 1..];
          var p := ps[i];
          var temp := dataSource[p.section];
          temp := temp[..p.row] + [ms[i]] + temp[p.row..];
          dataSource := dataSource[p.section := temp];
        }
        Emit(DataSourceDidChange(RowsInserted(ps)));
      }
    }

    /** `update(_:at:)`: subscript assignment, which traps out of bounds. */
    method Update(m: E, p: IndexPath)
      requires Valid()
      requires status.Complete? ==> InBounds(dataSource, p)
      modifies this`dataSource, this`notifications, listView
      ensures Valid() && status == old(status)
      ensures old(status).Complete? ==>
                dataSource == UpdateAt(old(dataSource), m, p)
                && notifications == old(notifications) + [DataSourceDidChange(RowUpdated(p))]
      ensures !old(status).Complete? ==> dataSource == old(dataSource) && notifications == old(notifications)
    {
      if status.Complete? {
        dataSource := dataSource[p.section := dataSource[p.section][p.row := m]];
        Emit(DataSourceDidChange(RowUpdated(p)));
      }
    }

    /** `delete(at:)`. When the last row of a section goes, the section goes
        too; when it was the last section, the status becomes
        `.fail(BKError.empty)` before the section deletion is announced. */
    method Delete(p: IndexPath)
      requires Valid()
      requires status.Complete? ==> InBounds(dataSource, p)
      modifies this`dataSource, this`status, this`notifications, listView
      ensures Valid()
      ensures old(status).Complete? ==> dataSource == DeleteAt(old(dataSource), p)
      ensures old(status).Complete? && |old(dataSource)[p.section]| > 1 ==>
                status == old(status) && notifications == old(notifications) + [DataSourceDidChange(RowDeleted(p))]
      ensures old(status).Complete? && |old(dataSource)[p.section]| == 1 && |old(dataSource)| > 1 ==>
                status == old(status)
                && notifications == old(notifications) + [DataSourceDidChange(SectionDeleted(p.section))]
      ensures old(status).Complete? && |old(dataSource)[p.section]| == 1 && |old(dataSource)| == 1 ==>
                status == Fail(BKErrorEmpty)
                && notifications == old(notifications)
                   + [StatusDidChange(Fail(BKErrorEmpty)), DataSourceDidChange(SectionDeleted(p.section))]
      ensures !old(status).Complete? ==>
                dataSource == old(dataSource) && status == old(status) && notifications == old(notifications)
    {
      if status.Complete? {
        var temp := dataSource[p.section];
        temp := temp[..p.row] + temp[p.row + 1..];
        if |temp| == 0 {
          dataSource := dataSource[..p.section] + dataSource[p.section + 1..];
          if |dataSource| == 0 {
            SetStatus(Fail(BKErrorEmpty));
          }
          Emit(DataSourceDidChange(SectionDeleted(p.section)));
        } else {
          dataSource := dataSource[p.section := temp];
          Emit(DataSourceDidChange(RowDeleted(p)));
        }
      }
    }

    /** `executeIfComplete`: the closure's result on the table, only when
        the status is `.complete`. */
    function ExecuteIfComplete<T>(f: Table<E> --> T): (r: Option<T>)
      reads this
      requires status.Complete? ==> f.requires(dataSource)
      ensures r.Some? <==> status.Complete?
      ensures r.Some? ==> r.value == f(dataSource)
    {
      if status.Complete? then Some(f(dataSource)) else None
    }

    /** `numberOfSections()`. */
    function NumberOfSections(): (n: int)
      reads this
      ensures n == if status.Complete? then |dataSource| else 0
    {
      var count := (ds: Table<E>) => |ds|;
      assert count.requires(dataSource);
      ExecuteIfComplete(count).GetOr(0)
    }

    /** `numberOfRowsInSection(_:)`; the section must exist when the status
        is `.complete`, or the subscript traps. */
    function NumberOfRowsInSection(section: int): (n: int)
      reads this
      requires status.Complete? ==> 0 <= section < |dataSource|
      ensures n == if status.Complete? then |dataSource[section]| else 0
    {
      ExecuteIfComplete((ds: Table<E>) requires 0 <= section < |ds| => |ds[section]|).GetOr(0)
    }
  }

  // ---------------------------------------------------------------------
  // The list view

  class BKListView<E> {
    /** The subviews' state. */
    var display: Display
    const container: BKDataContainer<E>

    ghost predicate Valid()
      reads this, container, container.listView
    {
      container.listView == this && container.Valid()
    }

    /** `init`: a fresh container, with this view's closures installed. */
    constructor ()
      ensures Valid() && fresh(container)
      ensures display == InitialDisplay
      ensures container.status == Loading && container.dataSource == [] && container.notifications == []
    {
      display := InitialDisplay;
      var c := new BKDataContainer<E>();
      container := c;
      new;
      c.listView := this;
    }

    /** The closures installed on the container: `updateStatus` for status
        changes, the matching content-view call for data changes. */
    method Handle(n: Notification)
      modifies this`display
      ensures display == Step(old(display), n)
    {
      match n
      case StatusDidChange(s) => UpdateStatus(s);
      case DataSourceDidChange(c) => display := display.(contentCalls := display.contentCalls + [ContentCallFor(c)]);
    }

    /** `updateStatus`: show the view that belongs to the status. */
    method UpdateStatus(s: Status)
      modifies this`display
      ensures display == ShowStatus(old(display), s)
    {
      match s
      case Loading =>
        display := display.(indicatorHidden := false, reloadHidden := true, containerHidden := true);
        display := display.(animating := true);
      case Fail(error) =>
        display := display.(indicatorHidden := true, reloadHidden := false, shownError := Some(error));
        display := display.(containerHidden := true, animating := false);
      case Complete =>
        display := display.(indicatorHidden := true, reloadHidden := true, containerHidden := false);
        display := display.(animating := false);
        display := display.(contentCalls := display.contentCalls + [LvReloadData]);
    }

    /** `reload()`: the status becomes `.loading` and the loader is asked
        for the table; it answers later through `ReloadCompleted`. */
    method Reload()
      requires Valid()
      modifies container`status, container`notifications, this
      ensures Valid()
      ensures container.status == Loading && container.dataSource == old(container.dataSource)
      ensures container.notifications == old(container.notifications) + [StatusDidChange(Loading)]
      ensures Shows(display, Loading)
    {
      container.SetStatus(Loading);
    }

    /** Assigning `loadDataSourceClosure`: its `didSet` reloads. */
    method SetLoadDataSourceClosure()
      requires Valid()
      modifies container`status, container`notifications, this
      ensures Valid()
      ensures container.status == Loading && container.dataSource == old(container.dataSource)
      ensures container.notifications == old(container.notifications) + [StatusDidChange(Loading)]
      ensures Shows(display, Loading)
    {
      Reload();
    }

    /** The callback `reload()` hands to the loader. */
    method ReloadCompleted(result: Result<Table<E>, ErrorValue>)
      requires Valid()
      modifies container`status, container`dataSource, container`notifications, this
      ensures Valid()
      ensures result.Success? ==> container.dataSource == result.value && container.status == Complete
      ensures result.Failure? ==> container.dataSource == [] && container.status == Fail(result.error)
      ensures container.notifications == old(container.notifications) + [StatusDidChange(container.status)]
      ensures Shows(display, container.status)
    {
      match result
      case Success(source) =>
        container.dataSource := source;
        container.SetStatus(Complete);
      case Failure(error) =>
        container.dataSource := [];
        container.SetStatus(Fail(error));
    }

    /** `reloadFromFailView`, the reload view's action: reloads only after a
        failure. */
    method ReloadFromFailView()
      requires Valid()
      modifies container`status, container`notifications, this
      ensures Valid()
      ensures container.dataSource == old(container.dataSource)
      ensures old(container.status).Fail? ==>
                container.status == Loading && Shows(display, Loading)
                && container.notifications == old(container.notifications) + [StatusDidChange(Loading)]
      ensures !old(container.status).Fail? ==>
                container.status == old(container.status) && container.notifications == old(container.notifications)
    {
      if container.status.Fail? {
        Reload();
      }
    }
  }
}
