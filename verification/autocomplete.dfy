/** The grouped autocomplete: an in-memory search over groups of items, the
    per-group truncation of its results, keyboard navigation of the highlighted
    (group, item) position, and the set of selected items.

    Items are generic; `searchText` is the item's `search_text`. The reactive
    plumbing (the debounce timer, signals, effects) is left out: each callback is a
    function from the component's state to its next state. */
module Autocomplete {
  import opened Wrappers
  import opened Text

  datatype Group<T> = Group(id: string, name: string, items: seq<T>)

  /** A static data source: the groups it searches and whether matching respects case. */
  datatype Source<T> = Source(groups: seq<Group<T>>, caseSensitive: bool)

  /** The component's configuration; the debounce delay is left out. */
  datatype Config = Config(minQueryLength: nat, maxResultsPerGroup: Option<nat>)

  function DefaultConfig(): Config {
    Config(1, None)
  }

  /** Whether an item's search text matches the query: plain containment when
      matching respects case, containment of the lower-cased query in the
      lower-cased text otherwise. */
  predicate Matches(text: string, query: string, caseSensitive: bool) {
    if caseSensitive then Contains(text, query) else Contains(ToLowerAscii(text), ToLowerAscii(query))
  }

  /** The items of one group that match, in their order. */
  function FilterItems<T>(items: seq<T>, query: string, caseSensitive: bool, searchText: T -> string): (r: seq<T>)
    ensures |r| <= |items|
    ensures forall k :: 0 <= k < |r| ==> r[k] in items && Matches(searchText(r[k]), query, caseSensitive)
    ensures forall k :: 0 <= k < |items| && Matches(searchText(items[k]), query, caseSensitive) ==> items[k] in r
  {
    if |items| == 0 then []
    else
      var rest := FilterItems(items[1..], query, caseSensitive, searchText);
      if Matches(searchText(items[0]), query, caseSensitive) then [items[0]] + rest else rest
  }

  /** `a` is `b` with some elements left out, the rest kept in order. */
  ghost predicate IsSubsequence<T>(a: seq<T>, b: seq<T>)
    decreases |b|
  {
    |a| == 0 || (|b| > 0 && ((a[0] == b[0] && IsSubsequence(a[1..], b[1..])) || IsSubsequence(a, b[1..])))
  }

  /** The kept items are a subsequence of the group's items. */
  lemma {:induction false} FilterItemsSubsequence<T>(items: seq<T>, query: string, caseSensitive: bool, searchText: T -> string)
    ensures IsSubsequence(FilterItems(items, query, caseSensitive, searchText), items)
    decreases |items|
  {
    if |items| > 0 {
      var rest := FilterItems(items[1..], query, caseSensitive, searchText);
      FilterItemsSubsequence(items[1..], query, caseSensitive, searchText);
      if Matches(searchText(items[0]), query, caseSensitive) {
        assert ([items[0]] + rest)[1..] == rest;
      }
    }
  }

  /** The groups with at least one matching item, each with only those items;
      groups with none are dropped. */
  function FilterGroups<T>(groups: seq<Group<T>>, query: string, caseSensitive: bool, searchText: T -> string): (r: seq<Group<T>>)
    ensures |r| <= |groups|
    ensures forall k :: 0 <= k < |r| ==> |r[k].items| > 0
  {
    if |groups| == 0 then []
    else
      var items := FilterItems(groups[0].items, query, caseSensitive, searchText);
      var rest := FilterGroups(groups[1..], query, caseSensitive, searchText);
      if |items| == 0 then rest else [groups[0].(items := items)] + rest
  }

  /** `StaticDataSource::search`: an empty query returns every group as it is. */
  function Search<T>(source: Source<T>, query: string, searchText: T -> string): seq<Group<T>> {
    if |query| == 0 then source.groups else FilterGroups(source.groups, query, source.caseSensitive, searchText)
  }

  /** The positions, from `j` on, of the groups with a matching item, in increasing order. */
  function KeptFrom<T>(groups: seq<Group<T>>, query: string, caseSensitive: bool, searchText: T -> string, j: nat): (idx: seq<nat>)
    requires j <= |groups|
    ensures forall k :: 0 <= k < |idx| ==> j <= idx[k] < |groups|
    ensures forall k :: 0 <= k < |idx| - 1 ==> idx[k] < idx[k + 1]
    decreases |groups| - j
  {
    if j == |groups| then []
    else
      var rest := KeptFrom(groups, query, caseSensitive, searchText, j + 1);
      if |FilterItems(groups[j].items, query, caseSensitive, searchText)| > 0 then [j] + rest else rest
  }

  /** A position is kept exactly when its group has a matching item. */
  lemma {:induction false} KeptFromExact<T>(groups: seq<Group<T>>, query: string, caseSensitive: bool, searchText: T -> string, j: nat, i: nat)
    requires j <= i < |groups|
    ensures i in KeptFrom(groups, query, caseSensitive, searchText, j) <==> |FilterItems(groups[i].items, query, caseSensitive, searchText)| > 0
    decreases |groups| - j
  {
    var idx := KeptFrom(groups, query, caseSensitive, searchText, j);
    var rest := KeptFrom(groups, query, caseSensitive, searchText, j + 1);
    var hit := |FilterItems(groups[j].items, query, caseSensitive, searchText)| > 0;
    assert idx == if hit then [j] + rest else rest;
    if j < i {
      KeptFromExact(groups, query, caseSensitive, searchText, j + 1, i);
      assert i in idx <==> i in rest;
    } else {
      assert j !in rest;
    }
  }

  /** The filtered groups, position by position, are the source groups with a
      match, in their order, each with its items filtered. */
  ghost predicate FilteredAt<T>(r: seq<Group<T>>, groups: seq<Group<T>>, idx: seq<nat>, query: string, caseSensitive: bool, searchText: T -> string) {
    && |r| == |idx|
    && (forall k :: 0 <= k < |idx| ==>
          idx[k] < |groups| && r[k] == groups[idx[k]].(items := FilterItems(groups[idx[k]].items, query, caseSensitive, searchText)))
  }

  lemma {:induction false} FilterGroupsFrom<T>(groups: seq<Group<T>>, query: string, caseSensitive: bool, searchText: T -> string, j: nat)
    requires j <= |groups|
    ensures FilteredAt(FilterGroups(groups[j..], query, caseSensitive, searchText), groups,
                       KeptFrom(groups, query, caseSensitive, searchText, j), query, caseSensitive, searchText)
    decreases |groups| - j
  {
    if j < |groups| {
      FilterGroupsFrom(groups, query, caseSensitive, searchText, j + 1);
      assert groups[j..][1..] == groups[j + 1..];
      var r := FilterGroups(groups[j..], query, caseSensitive, searchText);
      var rest := FilterGroups(groups[j + 1..], query, caseSensitive, searchText);
      var idx := KeptFrom(groups, query, caseSensitive, searchText, j);
      var restIdx := KeptFrom(groups, query, caseSensitive, searchText, j + 1);
      var items := FilterItems(groups[j].items, query, caseSensitive, searchText);
      if |items| > 0 {
        assert r == [groups[j].(items := items)] + rest;
        assert idx == [j] + restIdx;
        forall k | 0 <= k < |idx|
          ensures idx[k] < |groups| && r[k] == groups[idx[k]].(items := FilterItems(groups[idx[k]].items, query, caseSensitive, searchText))
        {
          if k > 0 {
            assert r[k] == rest[k - 1] && idx[k] == restIdx[k - 1];
          }
        }
      } else {
        assert r == rest && idx == restIdx;
      }
    }
  }

  /** A non-empty query keeps exactly the groups with a matching item, in their
      order, each with only its matching items; id and name are kept. */
  lemma SearchKeepsMatchingGroups<T>(source: Source<T>, query: string, searchText: T -> string)
    requires |query| > 0
    ensures FilteredAt(Search(source, query, searchText), source.groups,
                       KeptFrom(source.groups, query, source.caseSensitive, searchText, 0), query, source.caseSensitive, searchText)
  {
    FilterGroupsFrom(source.groups, query, source.caseSensitive, searchText, 0);
    assert source.groups[0..] == source.groups;
  }

  /** An empty query returns the groups unchanged, empty groups included. */
  lemma EmptyQueryReturnsAll<T>(source: Source<T>, searchText: T -> string)
    ensures Search(source, "", searchText) == source.groups
  {
  }

  /** Every group a non-empty query returns has an item. */
  lemma SearchGroupsNonEmpty<T>(source: Source<T>, query: string, searchText: T -> string)
    requires |query| > 0
    ensures forall k :: 0 <= k < |Search(source, query, searchText)| ==> |Search(source, query, searchText)[k].items| > 0
  {
  }

  lemma LowerAsciiCharIdempotent(c: char)
    ensures LowerAscii(LowerAscii(c)) == LowerAscii(c)
  {
  }

  /** Lower-casing twice is lower-casing once. */
  lemma LowerAsciiIdempotent(s: string)
    ensures ToLowerAscii(ToLowerAscii(s)) == ToLowerAscii(s)
  {
    var l := ToLowerAscii(s);
    forall i | 0 <= i < |s|
      ensures ToLowerAscii(l)[i] == l[i]
    {
      LowerAsciiCharIdempotent(s[i]);
    }
  }

  /** Two queries that match the same items filter a group alike. */
  lemma {:induction false} FilterItemsSameMatches<T>(items: seq<T>, q1: string, q2: string, caseSensitive: bool, searchText: T -> string)
    requires forall k :: 0 <= k < |items| ==> (Matches(searchText(items[k]), q1, caseSensitive) <==> Matches(searchText(items[k]), q2, caseSensitive))
    ensures FilterItems(items, q1, caseSensitive, searchText) == FilterItems(items, q2, caseSensitive, searchText)
    decreases |items|
  {
    if |items| > 0 {
      FilterItemsSameMatches(items[1..], q1, q2, caseSensitive, searchText);
    }
  }

  lemma {:induction false} FilterGroupsLowerQuery<T>(groups: seq<Group<T>>, query: string, searchText: T -> string)
    ensures FilterGroups(groups, query, false, searchText) == FilterGroups(groups, ToLowerAscii(query), false, searchText)
    decreases |groups|
  {
    if |groups| > 0 {
      LowerAsciiIdempotent(query);
      FilterItemsSameMatches(groups[0].items, query, ToLowerAscii(query), false, searchText);
      FilterGroupsLowerQuery(groups[1..], query, searchText);
    }
  }

  /** When matching ignores case, so does the query: it searches like its lower-cased self. */
  lemma SearchIgnoresQueryCase<T>(source: Source<T>, query: string, searchText: T -> string)
    requires !source.caseSensitive
    ensures Search(source, query, searchText) == Search(source, ToLowerAscii(query), searchText)
  {
    FilterGroupsLowerQuery(source.groups, query, searchText);
  }

  /** `Vec::truncate`: the first `max` items, or all of them when there are fewer. */
  function Truncate<T>(items: seq<T>, max: nat): (r: seq<T>)
    ensures |r| == if |items| < max then |items| else max
    ensures IsPrefixOf(r, items)
  {
    if max < |items| then items[..max] else items
  }

  ghost predicate IsPrefixOf<T>(p: seq<T>, s: seq<T>) {
    |p| <= |s| && s[..|p|] == p
  }

  /** The per-group limit of the configuration, when there is one. */
  function Limit<T>(groups: seq<Group<T>>, maxResultsPerGroup: Option<nat>): (r: seq<Group<T>>)
    ensures |r| == |groups|
    ensures forall k :: 0 <= k < |r| ==> r[k].id == groups[k].id && r[k].name == groups[k].name
    ensures forall k :: 0 <= k < |r| ==> IsPrefixOf(r[k].items, groups[k].items)
    ensures maxResultsPerGroup.Some? ==> forall k :: 0 <= k < |r| ==> |r[k].items| <= maxResultsPerGroup.value
    ensures maxResultsPerGroup.Some? ==> forall k :: 0 <= k < |r| ==>
              |r[k].items| == (if |groups[k].items| < maxResultsPerGroup.value then |groups[k].items| else maxResultsPerGroup.value)
    ensures maxResultsPerGroup.None? ==> r == groups
  {
    match maxResultsPerGroup
    case None => groups
    case Some(m) => seq(|groups|, k requires 0 <= k < |groups| => groups[k].(items := Truncate(groups[k].items, m)))
  }

  /** A highlighted position: a group of the results and an item of that group. */
  datatype Position = Position(group: nat, item: nat)

  /** What the component holds. */
  datatype State<T> = State(query: string, results: seq<Group<T>>, selected: set<T>,
                            isOpen: bool, isLoading: bool, highlighted: Option<Position>)

  /** The component as it starts: nothing typed, nothing found, closed, the initial selection. */
  function Init<T>(initialSelected: set<T>): (s: State<T>)
    ensures s.selected == initialSelected && s.query == "" && |s.results| == 0
    ensures !s.isOpen && !s.isLoading && s.highlighted.None?
  {
    State("", [], initialSelected, false, false, None)
  }

  /** The debounced search, run for the current query. A query shorter than the
      minimum (counted in bytes) empties the results and closes the list; otherwise
      the limited results are shown and the list opens. The highlight is left as it was. */
  function RunSearch<T>(s: State<T>, source: Source<T>, config: Config, searchText: T -> string): (r: State<T>)
    ensures r.query == s.query && r.selected == s.selected && r.highlighted == s.highlighted
    ensures Utf8Len(s.query) < config.minQueryLength ==> |r.results| == 0 && !r.isOpen && r.isLoading == s.isLoading
    ensures Utf8Len(s.query) >= config.minQueryLength ==>
      r.isOpen && !r.isLoading && r.results == Limit(Search(source, s.query, searchText), config.maxResultsPerGroup)
  {
    if Utf8Len(s.query) < config.minQueryLength then s.(results := [], isOpen := false)
    else s.(results := Limit(Search(source, s.query, searchText), config.maxResultsPerGroup), isLoading := false, isOpen := true)
  }

  /** `select_item`: the item joins the selection; the query, the list and the highlight are cleared. */
  function Select<T>(s: State<T>, item: T): (r: State<T>)
    ensures r.selected == s.selected + {item}
    ensures r.query == "" && !r.isOpen && r.highlighted.None?
    ensures r.results == s.results && r.isLoading == s.isLoading
  {
    s.(selected := s.selected + {item}, query := "", isOpen := false, highlighted := None)
  }

  /** `remove_item`: only the selection changes. */
  function Remove<T>(s: State<T>, item: T): (r: State<T>)
    ensures r.selected == s.selected - {item}
    ensures r.(selected := s.selected) == s
  {
    s.(selected := s.selected - {item})
  }

  /** `clear_all`: the selection empties and nothing else changes. */
  function ClearAll<T>(s: State<T>): (r: State<T>)
    ensures |r.selected| == 0
    ensures r.(selected := s.selected) == s
  {
    s.(selected := {})
  }

  /** Removing an item that was not selected before selecting it restores the selection. */
  lemma RemoveUndoesSelect<T>(s: State<T>, item: T)
    requires item !in s.selected
    ensures Remove(Select(s, item), item).selected == s.selected
  {
  }

  /** Selecting twice is selecting once; removing twice is removing once. */
  lemma SelectRemoveIdempotent<T>(s: State<T>, item: T)
    ensures Select(Select(s, item), item) == Select(s, item)
    ensures Remove(Remove(s, item), item) == Remove(s, item)
  {
  }

  // Keyboard navigation over (group, item) positions.

  function SaturatingPred(n: nat): nat {
    if n == 0 then 0 else n - 1
  }

  /** The last item of the last group, or nothing when there are no results. */
  function LastPosition<T>(results: seq<Group<T>>): Option<Position> {
    if |results| == 0 then None else Some(Position(|results| - 1, SaturatingPred(|results[|results| - 1].items|)))
  }

  /** ArrowDown: the next item of the group, else the first item of the next group,
      else back to the first item of the first group. A highlight whose group is
      gone also goes back to the start. */
  function ArrowDown<T>(results: seq<Group<T>>, h: Option<Position>): Option<Position> {
    match h
    case None => Some(Position(0, 0))
    case Some(Position(g, i)) =>
      if g < |results| then
        if i + 1 < |results[g].items| then Some(Position(g, i + 1))
        else if g + 1 < |results| then Some(Position(g + 1, 0))
        else Some(Position(0, 0))
      else Some(Position(0, 0))
  }

  /** ArrowUp as written: stepping back from the first item of group `g` reads
      group `g - 1` without checking that it is still among the results, so a
      highlight left over from a longer list of results indexes out of bounds. */
  function ArrowUpAsWritten<T>(results: seq<Group<T>>, h: Option<Position>): Result<Option<Position>, string> {
    match h
    case None => Ok(LastPosition(results))
    case Some(Position(g, i)) =>
      if i > 0 then Ok(Some(Position(g, i - 1)))
      else if g > 0 then
        if g - 1 < |results| then Ok(Some(Position(g - 1, SaturatingPred(|results[g - 1].items|))))
        else Err("index out of bounds")
      else Ok(LastPosition(results))
  }

  /** ArrowUp: the previous item of the group, else the last item of the previous
      group, else round to the last item of the last group. A highlight whose
      previous group is gone wraps round too, as ArrowDown does for a group that is gone. */
  function ArrowUp<T>(results: seq<Group<T>>, h: Option<Position>): Option<Position> {
    match h
    case None => LastPosition(results)
    case Some(Position(g, i)) =>
      if i > 0 then Some(Position(g, i - 1))
      else if g > 0 && g - 1 < |results| then Some(Position(g - 1, SaturatingPred(|results[g - 1].items|)))
      else LastPosition(results)
  }

  /** The position names an item of the results. */
  predicate ValidPosition<T>(results: seq<Group<T>>, h: Option<Position>) {
    h.Some? && h.value.group < |results| && h.value.item < |results[h.value.group].items|
  }

  /** Results as a search returns them: every group has an item. */
  predicate NoEmptyGroups<T>(results: seq<Group<T>>) {
    forall k :: 0 <= k < |results| ==> |results[k].items| > 0
  }

  /** Where the code as written does not fail, the corrected ArrowUp moves the same way. */
  lemma ArrowUpAgrees<T>(results: seq<Group<T>>, h: Option<Position>)
    ensures ArrowUpAsWritten(results, h).Ok? ==> ArrowUp(results, h) == ArrowUpAsWritten(results, h).value
    ensures ArrowUpAsWritten(results, h).Err? <==> h.Some? && h.value.item == 0 && h.value.group > 0 && h.value.group - 1 >= |results|
  {
  }

  /** A stale highlight in a shorter list of results makes the code as written fail:
      two groups were shown, the third group's item was highlighted, and the
      results have since shrunk to one group. */
  lemma ArrowUpAsWrittenFails()
    ensures ArrowUpAsWritten([Group("a", "A", ["ax"])], Some(Position(2, 0))).Err?
  {
  }

  /** ArrowUp undoes ArrowDown on every item of search-shaped results, the wrap included. */
  lemma ArrowUpUndoesArrowDown<T>(results: seq<Group<T>>, h: Option<Position>)
    requires NoEmptyGroups(results) && ValidPosition(results, h)
    ensures ArrowUp(results, ArrowDown(results, h)) == h
  {
  }

  /** ArrowDown undoes ArrowUp on every item of search-shaped results, the wrap included. */
  lemma ArrowDownUndoesArrowUp<T>(results: seq<Group<T>>, h: Option<Position>)
    requires NoEmptyGroups(results) && ValidPosition(results, h)
    ensures ArrowDown(results, ArrowUp(results, h)) == h
  {
  }

  /** ArrowDown always lands on an item of non-empty search-shaped results, whatever was highlighted. */
  lemma ArrowDownValid<T>(results: seq<Group<T>>, h: Option<Position>)
    requires NoEmptyGroups(results) && |results| > 0
    ensures ValidPosition(results, ArrowDown(results, h))
  {
  }

  /** ArrowUp from nothing or from an item lands on an item of non-empty search-shaped results. */
  lemma ArrowUpValid<T>(results: seq<Group<T>>, h: Option<Position>)
    requires NoEmptyGroups(results) && |results| > 0
    requires h.None? || ValidPosition(results, h)
    ensures ValidPosition(results, ArrowUp(results, h))
  {
  }

  datatype Key = ArrowDownKey | ArrowUpKey | EnterKey | EscapeKey | OtherKey

  /** `handle_key_down`, with the corrected ArrowUp: Enter selects the highlighted
      item when there is one, Escape closes the list and drops the highlight. */
  function HandleKey<T>(s: State<T>, key: Key): (r: State<T>)
    ensures key == EnterKey && ValidPosition(s.results, s.highlighted) ==>
      r == Select(s, s.results[s.highlighted.value.group].items[s.highlighted.value.item])
    ensures key == EnterKey && !ValidPosition(s.results, s.highlighted) ==> r == s
    ensures key == EscapeKey ==> r == s.(isOpen := false, highlighted := None)
    ensures key == OtherKey ==> r == s
    ensures key == ArrowDownKey || key == ArrowUpKey ==> r.(highlighted := s.highlighted) == s
  {
    match key
    case ArrowDownKey => s.(highlighted := ArrowDown(s.results, s.highlighted))
    case ArrowUpKey => s.(highlighted := ArrowUp(s.results, s.highlighted))
    case EnterKey =>
      if s.highlighted.Some? && s.highlighted.value.group < |s.results| && s.highlighted.value.item < |s.results[s.highlighted.value.group].items|
      then Select(s, s.results[s.highlighted.value.group].items[s.highlighted.value.item])
      else s
    case EscapeKey => s.(isOpen := false, highlighted := None)
    case OtherKey => s
  }

  function Identity(s: string): string { s }

  /** Three groups of one item each; every item contains "x", only the first contains "a". */
  function ScenarioGroups(): seq<Group<string>> {
    [Group("a", "A", ["ax"]), Group("b", "B", ["bx"]), Group("c", "C", ["cx"])]
  }

  lemma ScenarioSearchX()
    ensures Search(Source(ScenarioGroups(), true), "x", Identity) == ScenarioGroups()
  {
    var groups := ScenarioGroups();
    assert IsPrefix("x", "x");
    assert Contains("ax", "x") && Contains("bx", "x") && Contains("cx", "x");
    assert FilterItems(["cx"], "x", true, Identity) == ["cx"];
    assert FilterGroups(groups[2..], "x", true, Identity) == groups[2..];
    assert FilterItems(["bx"], "x", true, Identity) == ["bx"];
    assert FilterGroups(groups[1..], "x", true, Identity) == groups[1..];
    assert FilterItems(["ax"], "x", true, Identity) == ["ax"];
  }

  lemma ScenarioSearchA()
    ensures Search(Source(ScenarioGroups(), true), "a", Identity) == ScenarioGroups()[..1]
  {
    var groups := ScenarioGroups();
    assert !Contains("", "a");
    assert !Contains("x", "a") by { assert "x"[1..] == ""; assert "x"[..1][0] == 'x'; }
    assert !Contains("bx", "a") by { assert "bx"[1..] == "x"; assert "bx"[..1][0] == 'b'; }
    assert !Contains("cx", "a") by { assert "cx"[1..] == "x"; assert "cx"[..1][0] == 'c'; }
    assert FilterItems(["cx"], "a", true, Identity) == [];
    assert FilterGroups(groups[2..], "a", true, Identity) == [];
    assert FilterItems(["bx"], "a", true, Identity) == [];
    assert FilterGroups(groups[1..], "a", true, Identity) == [];
    assert IsPrefix("a", "ax");
    assert FilterItems(["ax"], "a", true, Identity) == ["ax"];
  }

  /** The failure is reachable: with three matching groups the third is
      highlighted by ArrowDown; a narrower query leaves one group but keeps the
      highlight, and ArrowUp as written then reads past the end of the results. */
  lemma StaleHighlightReachable()
    ensures
      var source := Source(ScenarioGroups(), true);
      var s1 := RunSearch(Init<string>({}).(query := "x"), source, DefaultConfig(), Identity);
      var s2 := HandleKey(HandleKey(HandleKey(s1, ArrowDownKey), ArrowDownKey), ArrowDownKey);
      var s3 := RunSearch(s2.(query := "a"), source, DefaultConfig(), Identity);
      ValidPosition(s2.results, s2.highlighted) && |s3.results| == 1 && ArrowUpAsWritten(s3.results, s3.highlighted).Err?
  {
    var source := Source(ScenarioGroups(), true);
    assert Utf8Len("x") == 1 by { assert "x"[..0] == ""; }
    assert Utf8Len("a") == 1 by { assert "a"[..0] == ""; }
    ScenarioSearchX();
    ScenarioSearchA();
    var s1 := RunSearch(Init<string>({}).(query := "x"), source, DefaultConfig(), Identity);
    assert s1.results == ScenarioGroups() && s1.highlighted.None?;
    var h := ArrowDown(s1.results, ArrowDown(s1.results, ArrowDown(s1.results, None)));
    assert h == Some(Position(2, 0));
    var s2 := HandleKey(HandleKey(HandleKey(s1, ArrowDownKey), ArrowDownKey), ArrowDownKey);
    assert s2.results == s1.results && s2.highlighted == h;
    var s3 := RunSearch(s2.(query := "a"), source, DefaultConfig(), Identity);
    assert s3.results == ScenarioGroups()[..1] && s3.highlighted == h;
  }
}
