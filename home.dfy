/**
 * The `Home` component's view-model: its four pieces of state, the effect of
 * each fetch on them, the event handlers, and the two render gates (the
 * "no data" message and the pagination buttons). Every network response is
 * a parameter: `Ok(records)` for the `results` of a successful request,
 * `NoResults` for a response without `results`, `Failure` for a request
 * whose `catch` only logs.
 */
module Dashboard {
  import opened Wrappers
  import opened JsValues
  import opened Sorting
  import opened Search

  datatype Direction = Ascending | Descending

  /** `sortConfig`: the active column's dotted path (`null` as `None`) and
      the direction. */
  datatype SortConfig = SortConfig(key: Option<string>, direction: Direction)

  /** `{ key: null, direction: "ascending" }`. */
  const InitialSort: SortConfig := SortConfig(None, Ascending)

  /** The direction a click on `column` picks: descending only when that
      column is already active and ascending. */
  function NextDirection(config: SortConfig, column: string): Direction
  {
    if config.key == Some(column) && config.direction == Ascending then Descending else Ascending
  }

  /** `sortConfig` after a click on `column`. */
  function Click(config: SortConfig, column: string): SortConfig
  {
    SortConfig(Some(column), NextDirection(config, column))
  }

  /** `dataUser`: falsy (the initial empty string, or `undefined` after a
      response without `results`), or an array of records (truthy, even
      when empty). */
  datatype UserList = Absent | Loaded(rows: seq<JsVal>)

  /** The outcome of one request: the response's `results`, a response
      whose `data` has no `results`, or a failure. */
  datatype FetchResult = Ok(records: seq<JsVal>) | NoResults | Failure

  /** The three requests the component issues: a page of 10, a pool of 500
      for searching, 10 users of one gender. */
  datatype Request = Page(num: int) | SearchAll | ByGender(gender: string)

  /** `dataUser` after `fetchData` or `filterGender`: replaced by the results
      on success (by `undefined` when there are none), left alone when the
      request fails. */
  function Fetched(current: UserList, fetched: FetchResult): UserList
  {
    match fetched
    case Ok(records) => Loaded(records)
    case NoResults => Absent
    case Failure => current
  }

  /** `dataUser` after `searchData(name)`: the filtered pool on success; left
      alone when the request fails, when there is no `results` to filter or
      when the filter throws (all are caught). */
  function Searched(current: UserList, name: string, fetched: FetchResult): UserList
  {
    match fetched
    case Failure => current
    case NoResults => current
    case Ok(pool) =>
      match FilterUsers(pool, name)
      case None => current
      case Some(r) => Loaded(r)
  }

  /** A click on a column that is not the active one sorts ascending; a
      second click sorts descending, a third ascending again. */
  lemma ClickCycle(config: SortConfig, column: string)
    requires config.key != Some(column)
    ensures Click(config, column) == SortConfig(Some(column), Ascending)
    ensures Click(Click(config, column), column) == SortConfig(Some(column), Descending)
    ensures Click(Click(Click(config, column), column), column) == SortConfig(Some(column), Ascending)
  {
  }

  /** A successful search over a pool whose users all have string names
      replaces the list by exactly the users, in pool order, whose
      lower-cased first or last name equals the term. */
  lemma SearchedExact(current: UserList, name: string, pool: seq<JsVal>, x: JsVal)
    requires forall i :: 0 <= i < |pool| ==> HasNames(pool[i])
    ensures Searched(current, name, Ok(pool)).Loaded?
    ensures IsSubsequence(Searched(current, name, Ok(pool)).rows, pool)
    ensures x in Searched(current, name, Ok(pool)).rows <==> x in pool && Kept(x, name)
    ensures multiset(Searched(current, name, Ok(pool)).rows)[x]
         == if Kept(x, name) then multiset(pool)[x] else 0
  {
    forall i | 0 <= i < |pool| ensures Keep(pool[i], name).Some? {
      KeepExact(pool[i], name);
    }
    FilterDefined(pool, name);
    FilterSubsequence(pool, name);
    FilterMembers(pool, name, x);
    FilterCounts(pool, name, x);
  }

  class Home {
    var dataUser: UserList
    var dataSearch: string
    var searchShow: bool
    var sortConfig: SortConfig
    /** The requests issued so far, oldest first. */
    ghost var requests: seq<Request>

    /** The state `useState` starts with. */
    constructor ()
      ensures dataUser == Absent && dataSearch == "" && !searchShow
      ensures sortConfig == InitialSort && requests == []
    {
      dataUser := Absent;
      dataSearch := "";
      searchShow := false;
      sortConfig := InitialSort;
      requests := [];
    }

    /** `[...dataUser]`: spreading the initial empty string gives []. Spreading
        `undefined` would throw instead, but then nothing is rendered and no
        column header can be clicked. */
    function Rows(): seq<JsVal>
      reads this
    {
      if dataUser.Loaded? then dataUser.rows else []
    }

    /** The component renders anything at all (`if (!dataUser) return null`). */
    predicate Rendered()
      reads this
    {
      dataUser.Loaded?
    }

    /** "there is no data match" is shown. */
    predicate ShowsNoDataMessage()
      reads this
    {
      Rendered() && searchShow && |dataUser.rows| == 0
    }

    /** The page buttons 1, 2 and 3 are shown. */
    predicate ShowsPagination()
      reads this
    {
      Rendered() && !searchShow
    }

    /** `fetchData(num)`. */
    method FetchData(num: int, fetched: FetchResult)
      modifies this`dataUser, this`requests
      ensures requests == old(requests) + [Page(num)]
      ensures dataUser == Fetched(old(dataUser), fetched)
    {
      requests := requests + [Page(num)];
      if fetched.Ok? {
        dataUser := Loaded(fetched.records);
      } else if fetched.NoResults? {
        dataUser := Absent;
      }
    }

    /** `searchData(name)`. */
    method SearchData(name: string, fetched: FetchResult)
      modifies this`dataUser, this`requests
      ensures requests == old(requests) + [SearchAll]
      ensures dataUser == Searched(old(dataUser), name, fetched)
    {
      requests := requests + [SearchAll];
      if fetched.Ok? {
        var filtered := FilterUsers(fetched.records, name);
        if filtered.Some? {
          dataUser := Loaded(filtered.value);
        }
      }
    }

    /** `filterGender(gender)`. */
    method FilterGender(gender: string, fetched: FetchResult)
      modifies this`dataUser, this`requests
      ensures requests == old(requests) + [ByGender(gender)]
      ensures dataUser == Fetched(old(dataUser), fetched)
    {
      requests := requests + [ByGender(gender)];
      if fetched.Ok? {
        dataUser := Loaded(fetched.records);
      } else if fetched.NoResults? {
        dataUser := Absent;
      }
    }

    /** The effect run after the first render: fetch page 1 while there is no
        list yet. */
    method Mount(fetched: FetchResult)
      modifies this`dataUser, this`requests
      ensures old(dataUser) == Absent ==>
        requests == old(requests) + [Page(1)] && dataUser == Fetched(Absent, fetched)
      ensures old(dataUser) != Absent ==>
        requests == old(requests) && dataUser == old(dataUser)
    {
      if dataUser == Absent {
        FetchData(1, fetched);
      }
    }

    /** `sortData(column)`: the copied list sorted ascending by the column's
        key, then reversed when the new direction is descending. */
    method SortData(column: string)
      requires AllResolve(Rows(), column)
      modifies this`dataUser, this`sortConfig
      ensures sortConfig == Click(old(sortConfig), column)
      ensures dataUser.Loaded? && multiset(dataUser.rows) == multiset(old(Rows()))
      ensures sortConfig.direction == Ascending ==> IsAscending(dataUser.rows, ColumnKey(column))
      ensures sortConfig.direction == Descending ==>
        IsAscending(Reversed(dataUser.rows), ColumnKey(column)) &&
        IsDescending(dataUser.rows, ColumnKey(column))
      ensures AllResolve(Rows(), column)
    {
      var direction := NextDirection(sortConfig, column);
      var rows := Rows();
      var key := ColumnKey(column);
      var sortedData := new JsVal[|rows|](i requires 0 <= i < |rows| => rows[i]);
      assert sortedData[..] == rows;
      SortAscending(sortedData, key);
      if direction == Descending {
        ghost var ascending := sortedData[..];
        ReverseInPlace(sortedData);
        ReversedTwice(ascending);
        ReversedPermutation(ascending);
        ReversedAscending(ascending, key);
      }
      dataUser := Loaded(sortedData[..]);
      sortConfig := SortConfig(Some(column), direction);
      AllResolvePermutation(sortedData[..], rows, column);
    }

    /** The search input's `onChange`. */
    method HandleSearchInput(text: string)
      modifies this`dataSearch
      ensures dataSearch == text
    {
      dataSearch := text;
    }

    /** `handleSearchButton`: search with the lower-cased term, enter search
        mode and clear the sort. */
    method HandleSearchButton(fetched: FetchResult)
      modifies this`dataUser, this`requests, this`searchShow, this`sortConfig
      ensures searchShow && sortConfig == InitialSort && dataSearch == old(dataSearch)
      ensures requests == old(requests) + [SearchAll]
      ensures dataUser == Searched(old(dataUser), ToLowerCase(old(dataSearch)), fetched)
      ensures !ShowsPagination()
      ensures ShowsNoDataMessage() <==> dataUser == Loaded([])
    {
      SearchData(ToLowerCase(dataSearch), fetched);
      searchShow := true;
      sortConfig := InitialSort;
    }

    /** `handleResetButton`: clear the term, leave search mode, fetch page 1.
        The sort configuration is kept. */
    method HandleResetButton(fetched: FetchResult)
      modifies this`dataSearch, this`searchShow, this`dataUser, this`requests
      ensures dataSearch == "" && !searchShow && sortConfig == old(sortConfig)
      ensures requests == old(requests) + [Page(1)]
      ensures dataUser == Fetched(old(dataUser), fetched)
      ensures !ShowsNoDataMessage()
      ensures ShowsPagination() <==> Rendered()
    {
      dataSearch := "";
      searchShow := false;
      FetchData(1, fetched);
    }

    /** `handleJumpLink(num)`: fetch page num; mode, term and sort are
        kept. */
    method HandleJumpLink(num: int, fetched: FetchResult)
      modifies this`dataUser, this`requests
      ensures searchShow == old(searchShow) && sortConfig == old(sortConfig)
      ensures dataSearch == old(dataSearch)
      ensures requests == old(requests) + [Page(num)]
      ensures dataUser == Fetched(old(dataUser), fetched)
    {
      FetchData(num, fetched);
    }

    /** `handleFilterGender(gender)`: fetch users of that gender and clear
        the sort; the select's "All" is passed on as the gender "All". */
    method HandleFilterGender(gender: string, fetched: FetchResult)
      modifies this`dataUser, this`requests, this`sortConfig
      ensures sortConfig == InitialSort
      ensures searchShow == old(searchShow) && dataSearch == old(dataSearch)
      ensures requests == old(requests) + [ByGender(gender)]
      ensures dataUser == Fetched(old(dataUser), fetched)
    {
      FilterGender(gender, fetched);
      sortConfig := InitialSort;
    }
  }

  /** Two clicks on the same column after page 1 loads: ascending, then
      descending over the same rows; a page change afterwards replaces the
      rows but keeps the descending indicator. */
  method SortTwiceThenJump(rows: seq<JsVal>, column: string, page: seq<JsVal>)
    returns (first: SortConfig, second: SortConfig, shown: seq<JsVal>,
             afterJump: SortConfig, shownAfterJump: seq<JsVal>)
    requires AllResolve(rows, column)
    ensures first == SortConfig(Some(column), Ascending)
    ensures second == SortConfig(Some(column), Descending)
    ensures multiset(shown) == multiset(rows) && IsDescending(shown, ColumnKey(column))
    ensures afterJump == second && shownAfterJump == page
  {
    var home := new Home();
    home.Mount(Ok(rows));
    home.SortData(column);
    first := home.sortConfig;
    home.SortData(column);
    second := home.sortConfig;
    shown := home.Rows();
    home.HandleJumpLink(2, Ok(page));
    afterJump := home.sortConfig;
    shownAfterJump := home.Rows();
  }

  /** A search that matches nobody shows the "no data" message and hides the
      page buttons; reset hides the message and brings the buttons back. */
  method EmptySearchThenReset(page: seq<JsVal>, term: string, pool: seq<JsVal>)
    returns (noData: bool, pagination: bool, noDataAfter: bool, paginationAfter: bool)
    requires forall i :: 0 <= i < |pool| ==> HasNames(pool[i])
    requires forall i :: 0 <= i < |pool| ==> !Kept(pool[i], ToLowerCase(term))
    ensures noData && !pagination
    ensures !noDataAfter && paginationAfter
  {
    var home := new Home();
    home.Mount(Ok(page));
    home.HandleSearchInput(term);
    home.HandleSearchButton(Ok(pool));
    NothingKept(home.dataUser, ToLowerCase(term), pool);
    noData := home.ShowsNoDataMessage();
    pagination := home.ShowsPagination();
    home.HandleResetButton(Ok(page));
    noDataAfter := home.ShowsNoDataMessage();
    paginationAfter := home.ShowsPagination();
  }

  /** A successful search in which no user is kept loads the empty list. */
  lemma NothingKept(current: UserList, name: string, pool: seq<JsVal>)
    requires forall i :: 0 <= i < |pool| ==> HasNames(pool[i])
    requires forall i :: 0 <= i < |pool| ==> !Kept(pool[i], name)
    ensures Searched(current, name, Ok(pool)) == Loaded([])
  {
    var r := Searched(current, name, Ok(pool));
    SearchedExact(current, name, pool, Undefined);
    if |r.rows| > 0 {
      SearchedExact(current, name, pool, r.rows[0]);
      assert false;
    }
  }
}
