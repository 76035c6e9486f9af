// Row bookkeeping of the two-section task list: a "Favorites:" header, the leading
// favorite tasks, an "Others:" header, then the remaining tasks. The adapter derives
// the row count, the row kind and the row-to-task offset from one number, the index
// of the first non-favorite task plus one; this module states those three computations
// as functions and proves that they agree with a display built once as a list of
// tagged rows.

module Sections {
  import opened Tasks

  const ID_ELEMENT: int := 0
  const ID_HEADER: int := 1
  const TITLE_FAVORITE: string := "Favorites:"
  const TITLE_OTHERS: string := "Others:"

  /** One display row: a section header carrying its title, or a task. */
  datatype Row = Header(title: string) | Element(task: Task)

  // ---------------------------------------------------------------------------
  // The adapter's arithmetic
  // ---------------------------------------------------------------------------

  /** `indexOfFirst { !it.favorite }`: the index of the first task that is not a
      favorite, or -1 when every task is a favorite. */
  function IndexOfFirstNonFavorite(list: seq<Task>): (r: int)
    ensures -1 <= r < |list|
    ensures r >= 0 ==> !list[r].favorite
    ensures forall j :: 0 <= j < |list| && (r < 0 || j < r) ==> list[j].favorite
  {
    if list == [] then -1
    else if !list[0].favorite then 0
    else
      var r := IndexOfFirstNonFavorite(list[1..]);
      assert forall j :: 1 <= j < |list| ==> list[j] == list[1..][j - 1];
      if r < 0 then -1 else r + 1
  }

  /** The cached field `posHeadOther`: the first non-favorite's index plus one, 0 when
      there is none. When it is positive it is also the row of the "Others:" header. */
  function PosHeadOther(list: seq<Task>): (p: nat)
    ensures p <= |list|
    ensures p > 0 ==> !list[p - 1].favorite
    ensures forall j :: 0 <= j < |list| && (p == 0 || j < p - 1) ==> list[j].favorite
  {
    IndexOfFirstNonFavorite(list) + 1
  }

  /** Independent reading of when headers are shown: the first task is a favorite and
      at least one task is not. */
  ghost predicate HasTwoSections(list: seq<Task>)
  {
    |list| > 0 && list[0].favorite && exists i :: 0 <= i < |list| && !list[i].favorite
  }

  /** The guard the adapter writes before reading `taskList[0]`: `posHeadOther > 0`
      comes first, so an empty list is never indexed. */
  predicate Sectioned(list: seq<Task>): (b: bool)
    ensures b <==> HasTwoSections(list)
  {
    PosHeadOther(list) > 0 && list[0].favorite
  }

  /** `getItemCount`: two header rows on top of the tasks when the list is sectioned. */
  function ItemCount(list: seq<Task>): (n: nat)
    ensures n == if HasTwoSections(list) then |list| + 2 else |list|
    ensures list == [] ==> n == 0
  {
    if |list| > 0 then
      if list[0].favorite && PosHeadOther(list) > 0 then |list| + 2 else |list|
    else
      |list|
  }

  /** Row `position` is the first row after the favorites, stated without
      `indexOfFirst`: the task just above it is the first non-favorite. */
  ghost predicate IsFirstOtherRow(list: seq<Task>, position: int)
  {
    1 <= position <= |list| && !list[position - 1].favorite &&
    forall j :: 0 <= j < position - 1 ==> list[j].favorite
  }

  /** `getItemViewType`: header at row 0 and at the "Others:" row of a sectioned list,
      element everywhere else. Defined for every list and every position. */
  function ViewType(list: seq<Task>, position: int): (t: int)
    ensures t == ID_HEADER || t == ID_ELEMENT
    ensures t == ID_HEADER <==> HasTwoSections(list) && (position == 0 || IsFirstOtherRow(list, position))
  {
    var p := PosHeadOther(list);
    if (p > 0 && list[0].favorite) && (position == 0 || position == p) then ID_HEADER else ID_ELEMENT
  }

  /** A row the framework may bind as a task: in range and not a header. */
  ghost predicate IsElementRow(list: seq<Task>, position: int)
  {
    0 <= position < ItemCount(list) && ViewType(list, position) == ID_ELEMENT
  }

  /** The header rows among the displayed rows. */
  ghost function HeaderRows(list: seq<Task>): set<int>
  {
    set q | 0 <= q < ItemCount(list) && ViewType(list, q) == ID_HEADER
  }

  /** The offset of `onBindViewHolder`: 1 when sectioned, raised to 2 once the row is at
      or past `posHeadOther`. It is the number of header rows above the row. */
  function RowOffset(list: seq<Task>, position: int): (o: int)
    requires IsElementRow(list, position)
    ensures o == |set q | q in HeaderRows(list) && q < position|
  {
    var p := PosHeadOther(list);
    var o := if p > 0 && list[0].favorite then 1 else 0;
    HeaderRowsAre(list);
    if 1 <= p <= position && list[0].favorite then
      assert (set q | q in HeaderRows(list) && q < position) == {0, p};
      2
    else if o == 1 then
      assert (set q | q in HeaderRows(list) && q < position) == {0};
      o
    else
      assert (set q | q in HeaderRows(list) && q < position) == {};
      o
  }

  /** The list index of the task shown at an element row. */
  function RowToIndex(list: seq<Task>, position: int): (i: int)
    requires IsElementRow(list, position)
    ensures 0 <= i < |list|
    ensures HasTwoSections(list) && position < PosHeadOther(list) ==> list[i].favorite
  {
    position - RowOffset(list, position)
  }

  /** The inverse of `RowToIndex`: the row at which list index `i` is shown. */
  function IndexToRow(list: seq<Task>, i: int): (position: int)
    requires 0 <= i < |list|
    ensures IsElementRow(list, position)
    ensures RowToIndex(list, position) == i
  {
    if Sectioned(list) then
      if i < PosHeadOther(list) - 1 then i + 1 else i + 2
    else
      i
  }

  // ---------------------------------------------------------------------------
  // Header positions and the row-to-task mapping
  // ---------------------------------------------------------------------------

  /** Exactly two header rows, 0 and `posHeadOther`, when sectioned; none otherwise. */
  lemma HeaderRowsAre(list: seq<Task>)
    ensures HasTwoSections(list) ==> 0 < PosHeadOther(list) < ItemCount(list)
    ensures HeaderRows(list) == if HasTwoSections(list) then {0, PosHeadOther(list)} else {}
    ensures |HeaderRows(list)| == ItemCount(list) - |list|
  {
    var h := HeaderRows(list);
    if HasTwoSections(list) {
      var p := PosHeadOther(list);
      assert ViewType(list, 0) == ID_HEADER;
      assert ViewType(list, p) == ID_HEADER;
      assert h == {0, p};
    } else {
      assert h == {};
    }
  }

  /** Element rows map to list indices in increasing order. */
  lemma RowToIndexIncreasing(list: seq<Task>, p: int, q: int)
    requires IsElementRow(list, p) && IsElementRow(list, q) && p < q
    ensures RowToIndex(list, p) < RowToIndex(list, q)
  {
    HeaderRowsAre(list);
  }

  /** Every element row is the row of its own index, so together with `IndexToRow`
      the mapping is a bijection between element rows and list indices. */
  lemma IndexToRowOfRowToIndex(list: seq<Task>, position: int)
    requires IsElementRow(list, position)
    ensures IndexToRow(list, RowToIndex(list, position)) == position
  {
    HeaderRowsAre(list);
  }

  /** All favorites come before all non-favorites, the order the display expects. */
  ghost predicate FavoritesFirst(list: seq<Task>)
  {
    forall i, j :: 0 <= i < j < |list| && list[j].favorite ==> list[i].favorite
  }

  /** On a favorites-first list, the rows under "Others:" show exactly the non-favorites:
      each of them is a non-favorite, and each non-favorite is shown under it. */
  lemma OthersSectionOnFavoritesFirst(list: seq<Task>, position: int)
    requires FavoritesFirst(list) && HasTwoSections(list) && IsElementRow(list, position)
    ensures position > PosHeadOther(list) <==> !list[RowToIndex(list, position)].favorite
  {
    HeaderRowsAre(list);
  }

  // ---------------------------------------------------------------------------
  // The display built once as tagged rows
  // ---------------------------------------------------------------------------

  /** The favorites at the head of the list, up to the first non-favorite. */
  function LeadingFavorites(list: seq<Task>): (f: seq<Task>)
    ensures |f| <= |list| && f == list[..|f|]
    ensures forall j :: 0 <= j < |f| ==> f[j].favorite
    ensures |f| < |list| ==> !list[|f|].favorite
  {
    if list == [] || !list[0].favorite then []
    else [list[0]] + LeadingFavorites(list[1..])
  }

  /** Each task of `s` as an element row, in order. */
  function Elements(s: seq<Task>): (rows: seq<Row>)
    ensures |rows| == |s|
    ensures forall j :: 0 <= j < |s| ==> rows[j] == Element(s[j])
  {
    seq(|s|, j requires 0 <= j < |s| => Element(s[j]))
  }

  /** The two-section display: the leading favorites under "Favorites:", the rest under
      "Others:", and no headers at all unless both sections are non-empty. */
  function Rows(list: seq<Task>): seq<Row>
  {
    var favorites := LeadingFavorites(list);
    var others := list[|favorites|..];
    if favorites != [] && others != [] then
      [Header(TITLE_FAVORITE)] + Elements(favorites) + [Header(TITLE_OTHERS)] + Elements(others)
    else
      Elements(list)
  }

  /** The tasks of a row sequence, headers dropped. */
  function TasksOf(rows: seq<Row>): seq<Task>
  {
    if rows == [] then []
    else if rows[0].Header? then TasksOf(rows[1..])
    else [rows[0].task] + TasksOf(rows[1..])
  }

  lemma {:induction false} TasksOfAppend(a: seq<Row>, b: seq<Row>)
    ensures TasksOf(a + b) == TasksOf(a) + TasksOf(b)
  {
    if a != [] {
      assert (a + b)[0] == a[0] && (a + b)[1..] == a[1..] + b;
      TasksOfAppend(a[1..], b);
    } else {
      assert a + b == b;
    }
  }

  lemma {:induction false} TasksOfElements(s: seq<Task>)
    ensures TasksOf(Elements(s)) == s
  {
    if s != [] {
      assert Elements(s)[1..] == Elements(s[1..]);
      TasksOfElements(s[1..]);
    }
  }

  /** Headers contribute no tasks to a two-section display. */
  lemma TwoSectionTasks(favorites: seq<Task>, others: seq<Task>)
    ensures TasksOf([Header(TITLE_FAVORITE)] + Elements(favorites) + [Header(TITLE_OTHERS)] + Elements(others))
      == favorites + others
  {
    var a := [Header(TITLE_FAVORITE)];
    var b := [Header(TITLE_OTHERS)];
    TasksOfAppend(a + Elements(favorites) + b, Elements(others));
    TasksOfAppend(a + Elements(favorites), b);
    TasksOfAppend(a, Elements(favorites));
    TasksOfElements(favorites);
    TasksOfElements(others);
    assert TasksOf(a) == [] && TasksOf(b) == [];
  }

  /** Each task is displayed exactly once, in list order. */
  lemma EachTaskShownOnce(list: seq<Task>)
    ensures TasksOf(Rows(list)) == list
  {
    var favorites := LeadingFavorites(list);
    var others := list[|favorites|..];
    if favorites != [] && others != [] {
      TwoSectionTasks(favorites, others);
      assert favorites + others == list;
    } else {
      TasksOfElements(list);
    }
  }

  /** The leading favorites end where `posHeadOther` says the "Others:" section begins. */
  lemma LeadingFavoritesEnd(list: seq<Task>)
    ensures |LeadingFavorites(list)| == if PosHeadOther(list) > 0 then PosHeadOther(list) - 1 else |list|
  {
  }

  /** The adapter's row count is the length of the tagged-row display, for every list. */
  lemma CountAgrees(list: seq<Task>)
    ensures |Rows(list)| == ItemCount(list)
  {
    if ItemCount(list) > 0 {
      RowsAgree(list, 0);
    }
  }

  /** The three computations of the adapter agree with the tagged-row display: the same
      number of rows, headers at the same rows with the titles `onBindViewHolder` picks,
      and each element row showing the task at `RowToIndex`. */
  lemma RowsAgree(list: seq<Task>, position: int)
    requires 0 <= position < ItemCount(list)
    ensures |Rows(list)| == ItemCount(list)
    ensures Rows(list)[position].Header? <==> ViewType(list, position) == ID_HEADER
    ensures ViewType(list, position) == ID_HEADER ==>
      Rows(list)[position] == Header(if position == 0 then TITLE_FAVORITE else TITLE_OTHERS)
    ensures ViewType(list, position) == ID_ELEMENT ==>
      Rows(list)[position] == Element(list[RowToIndex(list, position)])
  {
    LeadingFavoritesEnd(list);
    HeaderRowsAre(list);
    var favorites := LeadingFavorites(list);
    var others := list[|favorites|..];
    var rows := Rows(list);
    if favorites != [] && others != [] {
      var k := |favorites|;
      assert Sectioned(list) && PosHeadOther(list) == k + 1;
      var front := [Header(TITLE_FAVORITE)] + Elements(favorites);
      assert rows == front + [Header(TITLE_OTHERS)] + Elements(others);
      if position == 0 {
        assert rows[0] == Header(TITLE_FAVORITE);
      } else if position <= k {
        assert rows[position] == front[position] == Elements(favorites)[position - 1];
      } else if position == k + 1 {
        assert rows[position] == Header(TITLE_OTHERS);
      } else {
        assert rows[position] == Elements(others)[position - k - 2];
        assert others[position - k - 2] == list[position - 2];
      }
    } else {
      assert !Sectioned(list);
    }
  }
}
