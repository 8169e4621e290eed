/**
 The earnings table: a simulated server that answers a page request with a
 slice of the backing records and their total count, and the table's page
 state, which re-fetches whenever the current page changes. The server's
 delay is taken to resolve immediately.
 */
module TipTable {
  import opened Js

  datatype Status = Active | Inactive

  /** One row of earnings data. */
  datatype Record = Record(user: string, avatar: string, date: string, earnings: int, status: Status, key: string)

  /** What the server resolves with: the rows of the page and the number of
      records in the whole collection. */
  datatype Response = Response(data: seq<Record>, total: nat)

  /** The table's fixed page size. */
  const PageSize: int := 5

  /** First index of page `page` when pages hold `size` rows. */
  function StartIndex(page: int, size: int): (i: int)
    ensures 1 <= page && 0 <= size ==> 0 <= i
  {
    (page - 1) * size
  }

  /** Index just past page `page`: the next page's first index. */
  function EndIndex(page: int, size: int): (i: int)
    ensures i == StartIndex(page, size) + size
  {
    page * size
  }

  /** Answers a request for page `page` of `pageSize` rows: the records from
      StartIndex up to EndIndex, through `slice`, with the size of the whole
      collection whatever the page. */
  function FetchDataFromServer(callsData: seq<Record>, page: int, pageSize: int): (r: Response)
    ensures r.total == |callsData|
    ensures |r.data| <= |callsData|
  {
    var startIndex := StartIndex(page, pageSize);
    var endIndex := EndIndex(page, pageSize);
    Response(Slice(callsData, startIndex, endIndex), |callsData|)
  }

  /** A valid page request returns the records in [StartIndex, EndIndex)
      clamped to the collection: at most a page of them, a full page when
      the page ends inside the collection, and none past its end. */
  lemma FetchReturnsPage(callsData: seq<Record>, page: int, pageSize: int)
    requires 1 <= page && 1 <= pageSize
    ensures var r := FetchDataFromServer(callsData, page, pageSize);
      && r.data == callsData[Min(StartIndex(page, pageSize), |callsData|)..Min(EndIndex(page, pageSize), |callsData|)]
      && |r.data| <= pageSize
      && (EndIndex(page, pageSize) <= |callsData| ==> |r.data| == pageSize)
      && (StartIndex(page, pageSize) >= |callsData| ==> r.data == [])
  {
    var n := |callsData|;
    var from := Min(StartIndex(page, pageSize), n);
    var to := Min(EndIndex(page, pageSize), n);
    var data := FetchDataFromServer(callsData, page, pageSize).data;
    assert data == Slice(callsData, StartIndex(page, pageSize), EndIndex(page, pageSize));
    assert from <= to;
    assert |data| == to - from;
    assert forall j :: 0 <= j < |data| ==> data[j] == callsData[from..to][j];
  }

  /** Index t lies at offset t % size of page t / size + 1. */
  lemma PageOfIndex(t: nat, size: int)
    requires 1 <= size
    ensures 0 <= t % size < size
    ensures StartIndex(t / size + 1, size) + t % size == t
  {
    assert StartIndex(t / size + 1, size) == (t / size) * size;
  }

  /** Every record sits on a page of a given size at a fixed offset: record
      t is row t % size of page t / size + 1. */
  lemma RecordOnItsPage(callsData: seq<Record>, t: nat, size: int)
    requires t < |callsData|
    requires 1 <= size
    ensures var rows := FetchDataFromServer(callsData, t / size + 1, size).data;
      t % size < |rows| && rows[t % size] == callsData[t]
  {
    var page := t / size + 1;
    var offset := t % size;
    PageOfIndex(t, size);
    FetchReturnsPage(callsData, page, size);
    var rows := FetchDataFromServer(callsData, page, size).data;
    var from := StartIndex(page, size);
    assert from + offset == t;
    assert EndIndex(page, size) == from + size;
    assert rows == callsData[from..Min(from + size, |callsData|)];
  }

  /** The rows of pages 1 to k, one page after the other. */
  function FirstPages(callsData: seq<Record>, k: nat, size: int): seq<Record>
  {
    if k == 0 then [] else FirstPages(callsData, k - 1, size) + FetchDataFromServer(callsData, k, size).data
  }

  /** Pages are adjacent and disjoint: pages 1 to k together are exactly the
      first min(k*size, n) records. */
  lemma {:induction false} FirstPagesArePrefix(callsData: seq<Record>, k: nat, size: int)
    requires 1 <= size
    ensures FirstPages(callsData, k, size) == callsData[..Min(EndIndex(k, size), |callsData|)]
  {
    if k > 0 {
      FirstPagesArePrefix(callsData, k - 1, size);
      var n := |callsData|;
      var a := Min(StartIndex(k, size), n);
      var b := Min(EndIndex(k, size), n);
      assert EndIndex(k - 1, size) == StartIndex(k, size);
      FetchReturnsPage(callsData, k, size);
      assert callsData[..a] + callsData[a..b] == callsData[..b];
    }
  }

  /** Twelve records in pages of five: five rows, five, the last two, then
      nothing, with the total twelve every time. */
  lemma TwelveRecordsInPagesOfFive(callsData: seq<Record>)
    requires |callsData| == 12
    ensures |FetchDataFromServer(callsData, 1, PageSize).data| == 5
    ensures FetchDataFromServer(callsData, 3, PageSize).data == callsData[10..12]
    ensures FetchDataFromServer(callsData, 4, PageSize) == Response([], 12)
  {
    FetchReturnsPage(callsData, 1, PageSize);
    FetchReturnsPage(callsData, 3, PageSize);
    FetchReturnsPage(callsData, 4, PageSize);
  }

  /** The table component's state. */
  datatype Table = Table(data: seq<Record>, total: nat, loading: bool, current: int)

  /** State before the first fetch: no rows, total 0, page 1. */
  const Initial: Table := Table([], 0, false, 1)

  /** The table shows what the server answers for its current page. */
  predicate Shows(t: Table, callsData: seq<Record>)
  {
    && !t.loading
    && t.data == FetchDataFromServer(callsData, t.current, PageSize).data
    && t.total == |callsData|
  }

  /** The effect body: mark loading, fetch (current, PageSize), store the
      response and clear loading. */
  function LoadData(t: Table, callsData: seq<Record>): (t': Table)
    ensures Shows(t', callsData)
    ensures t'.current == t.current
  {
    var loading := t.(loading := true);
    var response := FetchDataFromServer(callsData, loading.current, PageSize);
    loading.(data := response.data, total := response.total, loading := false)
  }

  /** Mounting runs the effect once for page 1. */
  function Mount(callsData: seq<Record>): (t: Table)
    ensures Shows(t, callsData) && t.current == 1
    ensures t.data == callsData[..Min(PageSize, |callsData|)]
  {
    FetchReturnsPage(callsData, 1, PageSize);
    LoadData(Initial, callsData)
  }

  /** The table's change handler only records the requested page. */
  function HandleTableChange(t: Table, requested: int): (t': Table)
    ensures t'.current == requested
    ensures t'.data == t.data && t'.total == t.total && t'.loading == t.loading
  {
    t.(current := requested)
  }

  /** A change event followed by the effect, which runs only when `current`
      actually changed. */
  function ChangePage(t: Table, requested: int, callsData: seq<Record>): (t': Table)
    ensures t'.current == requested
    ensures requested != t.current ==> Shows(t', callsData)
    ensures requested == t.current ==> t' == t
  {
    var changed := HandleTableChange(t, requested);
    if changed.current != t.current then LoadData(changed, callsData) else changed
  }

  /** Mount, then a sequence of page requests. */
  function Browse(callsData: seq<Record>, requests: seq<int>): Table
  {
    if |requests| == 0 then Mount(callsData)
    else ChangePage(Browse(callsData, requests[..|requests| - 1]), requests[|requests| - 1], callsData)
  }

  /** After any sequence of page requests the table shows the page last
      asked for (page 1 if none), with the full record count. */
  lemma {:induction false} BrowseShowsLastRequest(callsData: seq<Record>, requests: seq<int>)
    ensures var t := Browse(callsData, requests);
      Shows(t, callsData) && t.current == (if |requests| == 0 then 1 else requests[|requests| - 1])
  {
    if |requests| > 0 {
      var earlier := requests[..|requests| - 1];
      var last := requests[|requests| - 1];
      BrowseShowsLastRequest(callsData, earlier);
      var before := Browse(callsData, earlier);
      assert Browse(callsData, requests) == ChangePage(before, last, callsData);
    }
  }
}
