/**
 * The employees page: the status-tab and search filter, the choice between a
 * soft and a permanent delete, and the per-row decisions of the status and
 * actions columns (badge or dropdown, which status the dropdown offers,
 * whether Restore is shown and what clicking it does), and the update
 * request a status change sends.
 */
module EmployeeList {
  import opened Common
  import EmployeePayload

  datatype EmployeeStatus = Active | Inactive | Deleted

  /** The status tabs: "all" or one status. */
  datatype StatusFilter = All | Only(status: EmployeeStatus)

  /** A row of the employees table. */
  datatype EmployeeRow = EmployeeRow(
    id: int,
    employeeId: string,
    name: string,
    position: string,
    branch: string,
    status: EmployeeStatus)

  /** `b` keeps some of the elements of `a`, in their order. */
  predicate IsSubsequence<T(==)>(b: seq<T>, a: seq<T>)
    decreases |a|
  {
    b == [] || (a != [] && ((b[0] == a[0] && IsSubsequence(b[1..], a[1..])) || IsSubsequence(b, a[1..])))
  }

  // -----------------------------------------------------------------------
  // filterEmployees

  /** The query the search box yields: lower-cased first, then trimmed. */
  function SearchQuery(search: string): string {
    JsTrim(ToLower(search))
  }

  predicate MatchesStatus(row: EmployeeRow, filter: StatusFilter) {
    filter.All? || row.status == filter.status
  }

  /** An empty query matches everything; otherwise one of the four text columns must contain it. */
  predicate MatchesSearch(row: EmployeeRow, query: string) {
    || query == []
    || Contains(ToLower(row.employeeId), query)
    || Contains(ToLower(row.name), query)
    || Contains(ToLower(row.position), query)
    || Contains(ToLower(row.branch), query)
  }

  predicate Keeps(row: EmployeeRow, search: string, filter: StatusFilter) {
    MatchesStatus(row, filter) && MatchesSearch(row, SearchQuery(search))
  }

  function FilterEmployees(rows: seq<EmployeeRow>, search: string, filter: StatusFilter): (r: seq<EmployeeRow>)
    ensures |r| <= |rows|
    ensures forall x :: x in r <==> x in rows && Keeps(x, search, filter)
    decreases |rows|
  {
    if rows == [] then []
    else (if Keeps(rows[0], search, filter) then [rows[0]] else []) + FilterEmployees(rows[1..], search, filter)
  }

  /** The filtered list keeps the rows it keeps in their original order. */
  lemma {:induction false} FilterIsSubsequence(rows: seq<EmployeeRow>, search: string, filter: StatusFilter)
    ensures IsSubsequence(FilterEmployees(rows, search, filter), rows)
    decreases |rows|
  {
    if rows != [] {
      var rest := FilterEmployees(rows[1..], search, filter);
      FilterIsSubsequence(rows[1..], search, filter);
      if Keeps(rows[0], search, filter) {
        var r := [rows[0]] + rest;
        assert FilterEmployees(rows, search, filter) == r;
        assert r[0] == rows[0] && r[1..] == rest;
      } else {
        assert FilterEmployees(rows, search, filter) == rest;
      }
    }
  }

  /** A row that passes both tests appears in the filtered list as often as in the input. */
  lemma {:induction false} FilterKeepsCount(rows: seq<EmployeeRow>, search: string, filter: StatusFilter, x: EmployeeRow)
    requires Keeps(x, search, filter)
    ensures multiset(FilterEmployees(rows, search, filter))[x] == multiset(rows)[x]
    decreases |rows|
  {
    if rows != [] {
      var y, more := rows[0], rows[1..];
      var head := if Keeps(y, search, filter) then [y] else [];
      var t := FilterEmployees(more, search, filter);
      FilterKeepsCount(more, search, filter, x);
      assert multiset(rows)[x] == multiset([y])[x] + multiset(more)[x] by {
        assert rows == [y] + more;
      }
      assert multiset(FilterEmployees(rows, search, filter))[x] == multiset(head)[x] + multiset(t)[x] by {
        assert FilterEmployees(rows, search, filter) == head + t;
      }
      assert multiset(head)[x] == multiset([y])[x];
    }
  }

  /** A kept row appears as often as in the input, a dropped row not at all. */
  lemma FilterCounts(rows: seq<EmployeeRow>, search: string, filter: StatusFilter, x: EmployeeRow)
    ensures multiset(FilterEmployees(rows, search, filter))[x] == if Keeps(x, search, filter) then multiset(rows)[x] else 0
  {
    if Keeps(x, search, filter) {
      FilterKeepsCount(rows, search, filter, x);
    } else {
      assert x !in FilterEmployees(rows, search, filter);
    }
  }

  /** When every row passes both tests, filtering returns the list unchanged. */
  lemma {:induction false} FilterKeepsAllMatches(rows: seq<EmployeeRow>, search: string, filter: StatusFilter)
    requires forall i :: 0 <= i < |rows| ==> Keeps(rows[i], search, filter)
    ensures FilterEmployees(rows, search, filter) == rows
    decreases |rows|
  {
    if rows != [] {
      FilterKeepsAllMatches(rows[1..], search, filter);
      assert [rows[0]] + rows[1..] == rows;
    }
  }

  /** Lower-casing a string of white space leaves it unchanged. */
  lemma LowerOfSpace(s: string)
    requires forall i :: 0 <= i < |s| ==> IsJsSpace(s[i])
    ensures ToLower(s) == s
  {
    assert forall i :: 0 <= i < |s| ==> ToLower(s)[i] == s[i];
  }

  /**
   * An empty or white-space-only search matches every row, so the "all" tab
   * shows every row and a status tab shows exactly its status.
   */
  lemma BlankSearchMatchesAll(rows: seq<EmployeeRow>, search: string, filter: StatusFilter)
    requires forall i :: 0 <= i < |search| ==> IsJsSpace(search[i])
    ensures SearchQuery(search) == []
    ensures FilterEmployees(rows, search, All) == rows
    ensures forall x :: x in FilterEmployees(rows, search, filter) <==> x in rows && MatchesStatus(x, filter)
  {
    LowerOfSpace(search);
    TrimAllSpace(search, IsJsSpace);
    FilterKeepsAllMatches(rows, search, All);
  }

  lemma ToLowerIdempotent(s: string)
    ensures ToLower(ToLower(s)) == ToLower(s)
  {
    assert forall i :: 0 <= i < |s| ==> ToLower(ToLower(s))[i] == ToLower(s)[i];
  }

  /** The search is case-insensitive in the query: lower-casing it first changes nothing. */
  lemma SearchIgnoresQueryCase(rows: seq<EmployeeRow>, search: string, filter: StatusFilter)
    ensures FilterEmployees(rows, ToLower(search), filter) == FilterEmployees(rows, search, filter)
  {
    ToLowerIdempotent(search);
  }

  /** Filtering a filtered list again with the same search and tab changes nothing. */
  lemma FilterIdempotent(rows: seq<EmployeeRow>, search: string, filter: StatusFilter)
    ensures FilterEmployees(FilterEmployees(rows, search, filter), search, filter) == FilterEmployees(rows, search, filter)
  {
    var r := FilterEmployees(rows, search, filter);
    assert forall i :: 0 <= i < |r| ==> r[i] in r;
    FilterKeepsAllMatches(r, search, filter);
  }

  // -----------------------------------------------------------------------
  // Delete: soft or permanent

  /** The pending deletion onDelete records. */
  datatype PendingDelete = PendingDelete(row: EmployeeRow, force: bool)

  /** The API call handleConfirmDelete makes. */
  datatype DeleteCall = SoftDelete(id: int) | ForceDelete(id: int)

  function OnDelete(row: EmployeeRow, filter: StatusFilter): (p: PendingDelete)
    ensures p.row == row
    ensures p.force <==> filter == Only(Deleted)
  {
    PendingDelete(row, filter == Only(Deleted))
  }

  /** Nothing is deleted without a pending deletion. */
  function ConfirmDelete(pending: Option<PendingDelete>): (c: Option<DeleteCall>)
    ensures c.None? <==> pending.None?
    ensures c.Some? ==> (c.value.ForceDelete? <==> pending.value.force) && c.value.id == pending.value.row.id
  {
    match pending
    case None => None
    case Some(p) => Some(if p.force then ForceDelete(p.row.id) else SoftDelete(p.row.id))
  }

  /** A delete is permanent exactly when it was asked for on the Deleted tab. */
  lemma DeleteIsPermanentOnlyOnDeletedTab(row: EmployeeRow, filter: StatusFilter)
    ensures ConfirmDelete(Some(OnDelete(row, filter))) ==
      Some(if filter == Only(Deleted) then ForceDelete(row.id) else SoftDelete(row.id))
  {
  }

  // -----------------------------------------------------------------------
  // The status and actions columns

  /** The rows shown as deleted: every row on the Deleted tab, deleted rows on the All tab. */
  predicate ShowsAsDeleted(filter: StatusFilter, row: EmployeeRow) {
    filter == Only(Deleted) || (filter.All? && row.status == Deleted)
  }

  datatype StatusCell = Badge(shown: EmployeeStatus) | Dropdown(value: EmployeeStatus, options: seq<EmployeeStatus>)

  function StatusCellFor(filter: StatusFilter, row: EmployeeRow): (c: StatusCell)
    ensures c.Badge? <==> ShowsAsDeleted(filter, row)
    ensures c.Badge? ==> c.shown == row.status
    ensures c.Dropdown? ==> c.value == row.status && |c.options| == 1
    ensures c.Dropdown? ==>
      (c.options == [Inactive] <==> filter == Only(Active) || (filter.All? && row.status == Active))
    ensures c.Dropdown? ==> c.options == [Inactive] || c.options == [Active]
  {
    if ShowsAsDeleted(filter, row) then Badge(row.status)
    else Dropdown(row.status, if filter == Only(Active) || (filter.All? && row.status == Active) then [Inactive] else [Active])
  }

  /**
   * On every row the current tab shows, a dropdown never offers the status
   * the row already has.
   */
  lemma DropdownOffersAChange(rows: seq<EmployeeRow>, search: string, filter: StatusFilter, row: EmployeeRow)
    requires row in FilterEmployees(rows, search, filter)
    requires StatusCellFor(filter, row).Dropdown?
    ensures row.status !in StatusCellFor(filter, row).options
  {
    assert Keeps(row, search, filter);
    StatusDropdownOffersAChange(filter, row);
  }

  /** A row that passes the status test never sees its own status offered in the dropdown. */
  lemma StatusDropdownOffersAChange(filter: StatusFilter, row: EmployeeRow)
    requires MatchesStatus(row, filter)
    requires StatusCellFor(filter, row).Dropdown?
    ensures row.status !in StatusCellFor(filter, row).options
  {
  }

  /** A status change sent from the dropdown or by Restore: update this row to that status. */
  datatype StatusUpdate = StatusUpdate(id: int, status: EmployeeStatus)

  datatype ActionsCell = ActionsCell(showRestore: bool, restoreWired: bool)

  /** The actions column shows and wires Restore on exactly the rows shown as deleted. */
  function ActionsCellFor(filter: StatusFilter, row: EmployeeRow): (c: ActionsCell)
    ensures c.showRestore <==> ShowsAsDeleted(filter, row)
    ensures c.restoreWired <==> c.showRestore
  {
    ActionsCell(ShowsAsDeleted(filter, row), ShowsAsDeleted(filter, row))
  }

  /** The page hands the columns a restore handler only on the Deleted tab. */
  predicate PageHasRestoreHandler(filter: StatusFilter) {
    filter == Only(Deleted)
  }

  /**
   * What clicking Restore does as the page is written: the column calls the
   * page's handler if there is one, and there is one only on the Deleted tab.
   */
  function RestoreClickAsWritten(filter: StatusFilter, row: EmployeeRow): (r: Option<StatusUpdate>)
    ensures r.Some? <==> ActionsCellFor(filter, row).restoreWired && PageHasRestoreHandler(filter)
    ensures r.Some? ==> r.value == StatusUpdate(row.id, Active)
  {
    if ActionsCellFor(filter, row).restoreWired && PageHasRestoreHandler(filter) then Some(StatusUpdate(row.id, Active))
    else None
  }

  /** As written, a deleted row on the All tab offers Restore, and clicking it does nothing. */
  lemma RestoreOnAllTabIsInert(row: EmployeeRow)
    requires row.status == Deleted
    ensures ActionsCellFor(All, row).showRestore
    ensures RestoreClickAsWritten(All, row) == None
  {
  }

  /** Restore as intended: every shown Restore reactivates its row. */
  function RestoreClick(filter: StatusFilter, row: EmployeeRow): (r: Option<StatusUpdate>)
    ensures r.Some? <==> ActionsCellFor(filter, row).showRestore
    ensures r.Some? ==> r.value == StatusUpdate(row.id, Active)
  {
    if ActionsCellFor(filter, row).restoreWired then Some(StatusUpdate(row.id, Active)) else None
  }

  /** The intended behaviour agrees with the written one on the Deleted tab and fixes the All tab. */
  lemma RestoreClickAgrees(filter: StatusFilter, row: EmployeeRow)
    ensures filter == Only(Deleted) ==> RestoreClick(filter, row) == RestoreClickAsWritten(filter, row)
    ensures filter.All? && row.status == Deleted ==> RestoreClick(filter, row) == Some(StatusUpdate(row.id, Active))
    ensures !ShowsAsDeleted(filter, row) ==> RestoreClick(filter, row) == None
  {
  }

  /** The status strings the server stores. */
  function StatusText(s: EmployeeStatus): (t: string)
    ensures t in EmployeePayload.Statuses
  {
    match s
    case Active => "active"
    case Inactive => "inactive"
    case Deleted => "deleted"
  }

  lemma StatusTextInjective(a: EmployeeStatus, b: EmployeeStatus)
    ensures StatusText(a) == StatusText(b) <==> a == b
  {
    if a != b {
      assert StatusText(a)[0] != StatusText(b)[0];
    }
  }

  /**
   * The payload the page rebuilds from a row's record for a status change:
   * each field of the record as it is, the chosen status, and no photo.
   */
  function StatusChangePayload(full: EmployeePayload.Payload, newStatus: EmployeeStatus): EmployeePayload.Payload {
    full.(status := Some(StatusText(newStatus)), photo := None)
  }

  /** Apart from the status, the JSON body of a status change is the row's own body. */
  lemma StatusChangeKeepsFields(full: EmployeePayload.Payload, newStatus: EmployeeStatus, k: string)
    requires k in EmployeePayload.JsonBody(full) && k != "status"
    ensures k in EmployeePayload.JsonBody(StatusChangePayload(full, newStatus))
    ensures EmployeePayload.JsonBody(StatusChangePayload(full, newStatus))[k] == EmployeePayload.JsonBody(full)[k]
  {
    var p := StatusChangePayload(full, newStatus);
    var keys := EmployeePayload.BodyKeys;
    EmployeePayload.JsonBodyKeys(full, k);
    EmployeePayload.BodyKeysDistinct();
    var i :| 0 <= i < |keys| && keys[i] == k;
    var before, after := EmployeePayload.JsonEntries(full), EmployeePayload.JsonEntries(p);
    assert i != 3;
    assert after[i] == before[i];
    EmployeePayload.MapOfLookup(before, i);
    EmployeePayload.MapOfLookup(after, i);
  }

  /**
   * What choosing a status in a row's dropdown sends: the update request for
   * that row, whose JSON body is the row's own with the chosen status.
   */
  function StatusChange(row: EmployeeRow, full: EmployeePayload.Payload, newStatus: EmployeeStatus): (r: EmployeePayload.HttpRequest)
    ensures r.verb == EmployeePayload.Put && r.url == EmployeePayload.EmployeeUrl(row.id)
    ensures r.body.Json?
    ensures forall k :: k in r.body.fields <==> k in EmployeePayload.BodyKeys
    ensures "status" in r.body.fields && r.body.fields["status"] == VStr(StatusText(newStatus))
    ensures forall k :: k in EmployeePayload.JsonBody(full) && k != "status" ==>
      k in r.body.fields && r.body.fields[k] == EmployeePayload.JsonBody(full)[k]
  {
    var p := StatusChangePayload(full, newStatus);
    EmployeePayload.JsonBodyStatus(p);
    assert forall k :: k in EmployeePayload.JsonBody(p) <==> k in EmployeePayload.BodyKeys by {
      forall k { EmployeePayload.JsonBodyKeys(p, k); }
    }
    assert forall k :: k in EmployeePayload.JsonBody(full) && k != "status" ==>
      k in EmployeePayload.JsonBody(p) && EmployeePayload.JsonBody(p)[k] == EmployeePayload.JsonBody(full)[k] by {
      forall k | k in EmployeePayload.JsonBody(full) && k != "status" {
        StatusChangeKeepsFields(full, newStatus, k);
      }
    }
    EmployeePayload.UpdateRequest(row.id, p)
  }
}
