/**
  The sortable data table: what a click on a column header asks the
  surrounding data scope to do (`sortColumns`), and which of three things
  `render` shows (nothing, the table, or only the empty-content node).
*/
module SimpleDataTable {
  import opened Js

  /** The sort the table is showing: `props.sortKey` (a column name, or none) and `props.sortOrder`. */
  datatype SortState = SortState(sortKey: Option<string>, sortOrder: Option<string>)

  /** The arguments of `onChangeSort(sortKey, sortOrder)`; `None` is `undefined`. */
  datatype SortRequest = SortRequest(sortKey: Option<string>, sortOrder: Option<string>)

  const Descending := "descending"
  const Ascending := "ascending"

  /** `toLowerCase()` on the ASCII letters. */
  function Lower(s: string): (r: string)
    ensures |r| == |s|
    ensures forall i :: 0 <= i < |s| ==> (r[i] == s[i] <==> !('A' <= s[i] <= 'Z'))
    ensures forall i :: 0 <= i < |s| && 'A' <= s[i] <= 'Z' ==> r[i] == (s[i] as int + 32) as char
  {
    if |s| == 0 then ""
    else
      var c := s[0];
      [if 'A' <= c <= 'Z' then (c as int + 32) as char else c] + Lower(s[1..])
  }

  /** `(sortOrder || '').toLowerCase().indexOf('asc') === 0` */
  predicate IsSortAscending(sortOrder: Option<string>)
    ensures IsSortAscending(sortOrder) <==>
      && sortOrder.Some? && |sortOrder.value| >= 3
      && (sortOrder.value[0] == 'a' || sortOrder.value[0] == 'A')
      && (sortOrder.value[1] == 's' || sortOrder.value[1] == 'S')
      && (sortOrder.value[2] == 'c' || sortOrder.value[2] == 'C')
  {
    var order := if sortOrder.Some? then sortOrder.value else "";
    var lower := Lower(order);
    |lower| >= 3 && lower[..3] == "asc"
  }

  /** A click on the header of column `dataKey`. */
  function SortColumns(state: SortState, dataKey: string): (r: SortRequest)
    ensures state.sortKey != Some(dataKey) ==> r == SortRequest(Some(dataKey), Some(Descending))
    ensures state.sortKey == Some(dataKey) && !IsSortAscending(state.sortOrder) ==> r == SortRequest(Some(dataKey), Some(Ascending))
    ensures state.sortKey == Some(dataKey) && IsSortAscending(state.sortOrder) ==> r == SortRequest(None, None)
  {
    var isSortedOnColumn := state.sortKey == Some(dataKey);
    var isSortAscending := IsSortAscending(state.sortOrder);
    var sortKey := if !isSortedOnColumn || !isSortAscending then Some(dataKey) else None;
    var sortOrder := if !isSortedOnColumn then Some(Descending) else if !isSortAscending then Some(Ascending) else None;
    SortRequest(sortKey, sortOrder)
  }

  /** The data scope applies the request: it becomes the table's new sort. */
  function Apply(r: SortRequest): SortState {
    SortState(r.sortKey, r.sortOrder)
  }

  /** A missing or empty order is not ascending. */
  lemma MissingOrderNotAscending()
    ensures !IsSortAscending(None)
    ensures !IsSortAscending(Some(""))
  {
  }

  /** "ascending" is ascending and "descending" is not. */
  lemma OrderWordsDetected()
    ensures IsSortAscending(Some(Ascending))
    ensures !IsSortAscending(Some(Descending))
  {
    assert Ascending[0] == 'a' && Ascending[1] == 's' && Ascending[2] == 'c';
  }

  /** The test ignores case: "ASC" and "Ascending" are ascending. */
  lemma AscendingIgnoresCase()
    ensures IsSortAscending(Some("ASC"))
    ensures IsSortAscending(Some("Ascending"))
  {
    var word := "Ascending";
    assert word[0] == 'A' && word[1] == 's' && word[2] == 'c';
  }

  /** The requested key is undefined exactly when the requested order is, and otherwise it is the clicked column. */
  lemma KeyUndefinedIffOrderUndefined(state: SortState, dataKey: string)
    ensures SortColumns(state, dataKey).sortKey.None? <==> SortColumns(state, dataKey).sortOrder.None?
    ensures SortColumns(state, dataKey).sortKey.Some? ==> SortColumns(state, dataKey).sortKey == Some(dataKey)
  {
  }

  /**
    Repeated clicks on one column, starting from any sort on another column
    or none, go descending, ascending, unsorted, and then descending again.
  */
  lemma {:induction false} ClickCycle(state: SortState, dataKey: string)
    requires state.sortKey != Some(dataKey)
    ensures var s1 := Apply(SortColumns(state, dataKey));
      var s2 := Apply(SortColumns(s1, dataKey));
      var s3 := Apply(SortColumns(s2, dataKey));
      var s4 := Apply(SortColumns(s3, dataKey));
      && s1 == SortState(Some(dataKey), Some(Descending))
      && s2 == SortState(Some(dataKey), Some(Ascending))
      && s3 == SortState(None, None)
      && s4 == s1
  {
    OrderWordsDetected();
  }

  /** What `render` returns. */
  datatype Rendered<Row, Content> =
    | Nothing
    | TableOfRows(rows: seq<Row>)
    | TableOfContent(content: Content)
    | ContentOnly(content: Content)

  /** `props.data && props.data.length`: a list of rows that is not empty. */
  predicate HasData<Row>(data: Option<seq<Row>>) {
    data.Some? && |data.value| > 0
  }

  /**
    The outcome of `render`: `data` is absent or a list of rows,
    `emptyContent` is `None` when it is null.
  */
  function Render<Row, Content>(data: Option<seq<Row>>, emptyContent: Option<Content>, isEmptyContentInTable: bool): (r: Rendered<Row, Content>)
    ensures r.Nothing? <==> !HasData(data) && emptyContent.None?
    ensures r.TableOfRows? <==> HasData(data)
    ensures r.TableOfRows? ==> r.rows == data.value
    ensures r.TableOfContent? <==> !HasData(data) && emptyContent.Some? && isEmptyContentInTable
    ensures r.ContentOnly? <==> !HasData(data) && emptyContent.Some? && !isEmptyContentInTable
    ensures (r.TableOfContent? || r.ContentOnly?) ==> r.content == emptyContent.value
  {
    var hasData := HasData(data);
    if !hasData && emptyContent.None? then Nothing
    else if hasData || isEmptyContentInTable then
      (if hasData then TableOfRows(data.value) else TableOfContent(emptyContent.value))
    else ContentOnly(emptyContent.value)
  }

  /** The empty-content node is shown whenever there are no rows to show and it is not null. */
  lemma EmptyContentShown<Row, Content>(data: Option<seq<Row>>, emptyContent: Option<Content>, isEmptyContentInTable: bool)
    requires !HasData(data) && emptyContent.Some?
    ensures var r := Render(data, emptyContent, isEmptyContentInTable);
      (r.TableOfContent? || r.ContentOnly?) && r.content == emptyContent.value
  {
  }
}
