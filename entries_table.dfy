/**
 * The handler logic of the `EntriesTable` component of
 * src/components/entries-table.tsx: the search filter over the fetched
 * page, the row selection and its toggles, and the page navigation.
 * React state becomes the fields of `TableState`; each handler is a method
 * that updates them.
 */
module EntriesTable {
  import opened Wrappers
  import opened Text
  import opened AppConfig

  /** The part of the `/api/entries` response the table reads. */
  datatype ApiPage = ApiPage(entries: seq<Entry>, total: int, page: int, pageSize: int, totalPages: int)

  /** The filter test: one of four fields, lower-cased, contains the lower-cased query. */
  predicate Matches(e: Entry, query: string) {
    var q := ToLower(query);
    || Contains(ToLower(e.registrationNumber), q)
    || Contains(ToLower(e.name), q)
    || Contains(ToLower(e.email), q)
    || Contains(ToLower(e.transactionId), q)
  }

  /** `entries.filter(...)` with the test above. */
  function Matching(es: seq<Entry>, query: string): seq<Entry>
    decreases |es|
  {
    if es == [] then [] else (if Matches(es[0], query) then [es[0]] else []) + Matching(es[1..], query)
  }

  /** `filtered`: a blank query (after trimming) shows every entry; any other query filters untrimmed. */
  function Filtered(es: seq<Entry>, query: string): (r: seq<Entry>)
    ensures |r| <= |es|
    ensures forall e :: e in r ==> e in es
  {
    MatchingMembers(es, query);
    if IsBlank(query) then es else Matching(es, query)
  }

  /** Filtering keeps exactly the matching entries. */
  lemma {:induction false} MatchingMembers(es: seq<Entry>, query: string)
    ensures forall e :: e in Matching(es, query) <==> e in es && Matches(e, query)
    ensures |Matching(es, query)| <= |es|
    decreases |es|
  {
    if es != [] {
      MatchingMembers(es[1..], query);
      assert es == [es[0]] + es[1..];
    }
  }

  /** Filtering keeps the original order: it distributes over concatenation. */
  lemma {:induction false} MatchingConcat(a: seq<Entry>, b: seq<Entry>, query: string)
    ensures Matching(a + b, query) == Matching(a, query) + Matching(b, query)
    decreases |a|
  {
    if a != [] {
      assert (a + b)[1..] == a[1..] + b;
      MatchingConcat(a[1..], b, query);
    } else {
      assert a + b == b;
    }
  }

  /** What the table shows for a query. */
  lemma FilteredSpec(es: seq<Entry>, query: string)
    ensures IsBlank(query) ==> Filtered(es, query) == es
    ensures !IsBlank(query) ==> forall e :: e in Filtered(es, query) <==> e in es && Matches(e, query)
    ensures |Filtered(es, query)| <= |es|
  {
    MatchingMembers(es, query);
  }

  /** An entry whose name holds the query, in any letter case, at some offset, is shown. */
  lemma NameMatchShown(es: seq<Entry>, query: string, i: nat, k: nat)
    requires i < |es| && k <= |es[i].name| && ToLower(query) <= ToLower(es[i].name)[k..]
    ensures es[i] in Filtered(es, query)
  {
    ContainsAt(ToLower(es[i].name), ToLower(query), k);
    MatchingMembers(es, query);
  }

  /** A shown entry has a field that holds the lower-cased query at some offset. */
  lemma ShownHasMatch(es: seq<Entry>, query: string, e: Entry)
    requires !IsBlank(query) && e in Filtered(es, query)
    ensures exists f: string, k: nat :: f in {e.registrationNumber, e.name, e.email, e.transactionId}
                        && k <= |ToLower(f)| && ToLower(query) <= ToLower(f)[k..]
  {
    MatchingMembers(es, query);
    var q := ToLower(query);
    var f := if Contains(ToLower(e.registrationNumber), q) then e.registrationNumber
             else if Contains(ToLower(e.name), q) then e.name
             else if Contains(ToLower(e.email), q) then e.email
             else e.transactionId;
    var k := ContainsFound(ToLower(f), q);
    assert f in {e.registrationNumber, e.name, e.email, e.transactionId};
  }

  /** `currentIds`: the row numbers of the shown entries. */
  function RowIds(es: seq<Entry>): (ids: seq<int>)
    ensures |ids| == |es|
  {
    seq(|es|, i requires 0 <= i < |es| => es[i].rowNumber)
  }

  /** `allOnPageSelected`: some row is shown and every shown row is selected. */
  predicate AllSelected(ids: seq<int>, selected: set<int>) {
    |ids| > 0 && forall i :: 0 <= i < |ids| ==> ids[i] in selected
  }

  function IdSet(ids: seq<int>): set<int> {
    set i | 0 <= i < |ids| :: ids[i]
  }

  /** `toggleRow(id)` on the selection. */
  function Toggled(selected: set<int>, id: int): set<int> {
    if id in selected then selected - {id} else selected + {id}
  }

  /** `toggleAllOnPage()` on the selection. */
  function ToggledAll(selected: set<int>, ids: seq<int>): set<int> {
    if AllSelected(ids, selected) then selected - IdSet(ids) else selected + IdSet(ids)
  }

  /** `toggleRow` flips that one id, so toggling twice restores the selection. */
  lemma ToggleRowSpec(selected: set<int>, id: int)
    ensures id in Toggled(selected, id) <==> id !in selected
    ensures forall x :: x != id ==> (x in Toggled(selected, id) <==> x in selected)
    ensures Toggled(Toggled(selected, id), id) == selected
  {
  }

  /**
   * `toggleAllOnPage` clears every shown id when all are selected and
   * selects them all otherwise; an id not shown keeps its state. After
   * selecting, a non-empty page is all selected; after clearing, none of it is.
   */
  lemma ToggleAllSpec(selected: set<int>, ids: seq<int>)
    ensures var r := ToggledAll(selected, ids);
      && (forall x :: x !in IdSet(ids) ==> (x in r <==> x in selected))
      && (AllSelected(ids, selected) ==> forall i :: 0 <= i < |ids| ==> ids[i] !in r)
      && (!AllSelected(ids, selected) ==> forall i :: 0 <= i < |ids| ==> ids[i] in r)
      && (!AllSelected(ids, selected) && ids != [] ==> AllSelected(ids, r))
      && (AllSelected(ids, selected) ==> !AllSelected(ids, r))
  {
    var r := ToggledAll(selected, ids);
    if AllSelected(ids, selected) {
      assert ids[0] in IdSet(ids);
    }
  }

  /** With no row shown the header checkbox is never checked. */
  lemma EmptyPageNotAllSelected(selected: set<int>)
    ensures !AllSelected([], selected)
  {
  }

  /** `nextPage`: one page on, only with data and only while `page < totalPages`. */
  function NextPageOf(page: int, data: Option<ApiPage>): int {
    if data.Some? && page < data.value.totalPages then page + 1 else page
  }

  /** `prevPage`: one page back, only while `page > 1`. */
  function PrevPageOf(page: int): int {
    if page > 1 then page - 1 else page
  }

  /**
   * Navigation keeps the page within 1 .. max(1, totalPages) once it is
   * there, and moves exactly when its guard holds.
   */
  lemma NavigationSpec(page: int, data: Option<ApiPage>)
    ensures page >= 1 ==> PrevPageOf(page) >= 1 && NextPageOf(page, data) >= 1
    ensures PrevPageOf(page) != page <==> page > 1
    ensures NextPageOf(page, data) != page <==> data.Some? && page < data.value.totalPages
    ensures data.Some? && page <= data.value.totalPages ==> NextPageOf(page, data) <= data.value.totalPages
    ensures data.None? ==> NextPageOf(page, data) == page
  {
  }

  /** The component's state. `page >= 1` always holds. */
  class TableState {
    var page: int
    var pageSize: int
    var query: string
    var selected: set<int>
    var data: Option<ApiPage>

    predicate Valid()
      reads this
    {
      page >= 1
    }

    /** The initial state: page 1, 50 rows, no query, nothing selected, no data yet. */
    constructor()
      ensures Valid()
      ensures page == 1 && pageSize == 50 && query == "" && selected == {} && data == None
    {
      page, pageSize, query, selected, data := 1, 50, "", {}, None;
    }

    /** `data?.entries || []`. */
    function Entries(): seq<Entry>
      reads this
    {
      if data.Some? then data.value.entries else []
    }

    function Shown(): seq<Entry>
      reads this
    {
      Filtered(Entries(), query)
    }

    function CurrentIds(): seq<int>
      reads this
    {
      RowIds(Shown())
    }

    method ToggleRow(id: int)
      requires Valid()
      modifies this
      ensures Valid()
      ensures selected == Toggled(old(selected), id)
      ensures page == old(page) && pageSize == old(pageSize) && query == old(query) && data == old(data)
    {
      var next := selected;
      if id in next {
        next := next - {id};
      } else {
        next := next + {id};
      }
      selected := next;
    }

    method ToggleAllOnPage()
      requires Valid()
      modifies this
      ensures Valid()
      ensures selected == ToggledAll(old(selected), old(CurrentIds()))
      ensures page == old(page) && pageSize == old(pageSize) && query == old(query) && data == old(data)
    {
      var ids := CurrentIds();
      var all := AllSelected(ids, selected);
      var next := selected;
      var i := 0;
      while i < |ids|
        invariant 0 <= i <= |ids|
        invariant next == if all then selected - IdSet(ids[..i]) else selected + IdSet(ids[..i])
      {
        assert IdSet(ids[..i + 1]) == IdSet(ids[..i]) + {ids[i]} by {
          assert forall j :: 0 <= j < i + 1 ==> ids[..i + 1][j] == if j < i then ids[..i][j] else ids[i];
        }
        if all {
          next := next - {ids[i]};
        } else {
          next := next + {ids[i]};
        }
        i := i + 1;
      }
      assert ids[..|ids|] == ids;
      selected := next;
    }

    method NextPage()
      requires Valid()
      modifies this
      ensures Valid()
      ensures page == NextPageOf(old(page), old(data))
      ensures selected == (if page != old(page) then {} else old(selected))
      ensures pageSize == old(pageSize) && query == old(query) && data == old(data)
    {
      if data.None? {
        return;
      }
      if page < data.value.totalPages {
        selected := {};
        page := page + 1;
      }
    }

    method PrevPage()
      requires Valid()
      modifies this
      ensures Valid()
      ensures page == PrevPageOf(old(page))
      ensures selected == (if page != old(page) then {} else old(selected))
      ensures pageSize == old(pageSize) && query == old(query) && data == old(data)
    {
      if page > 1 {
        selected := {};
        page := page - 1;
      }
    }

    /** The rows-per-page select. */
    method ChangePageSize(n: int)
      requires Valid()
      modifies this
      ensures Valid()
      ensures page == 1 && selected == {} && pageSize == n
      ensures query == old(query) && data == old(data)
    {
      page := 1;
      selected := {};
      pageSize := n;
    }

    /** The search box; the selection is kept. */
    method SetQuery(q: string)
      requires Valid()
      modifies this
      ensures Valid()
      ensures query == q
      ensures page == old(page) && pageSize == old(pageSize) && selected == old(selected) && data == old(data)
    {
      query := q;
    }

    /** The "Clear" button. */
    method ClearSelection()
      requires Valid()
      modifies this
      ensures Valid()
      ensures selected == {}
      ensures page == old(page) && pageSize == old(pageSize) && query == old(query) && data == old(data)
    {
      selected := {};
    }

    /** A response arriving for the current request; the selection and the page are kept. */
    method Receive(p: ApiPage)
      requires Valid()
      modifies this
      ensures Valid()
      ensures data == Some(p)
      ensures page == old(page) && pageSize == old(pageSize) && query == old(query) && selected == old(selected)
    {
      data := Some(p);
    }
  }
}
