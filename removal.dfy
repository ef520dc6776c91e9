/**
 * Which session ids the bulk-removal commands ask the background to drop,
 * and how a filter menu entry's id names the filter it stands for.
 */
module Removal {
  import opened Wrappers
  import opened DownloadStates
  import opened Records

  /** The session ids, in order, of the records that pass `p`: `filter(p).map(i => i.sessionId)`. */
  function SidsWhere(rows: seq<ItemView>, p: ItemView -> bool): (r: seq<int>)
    ensures |r| <= |rows|
  {
    if rows == [] then []
    else
      var n := |rows| - 1;
      SidsWhere(rows[..n], p) + (if p(rows[n]) then [rows[n].sessionId] else [])
  }

  lemma {:induction false} SidsWhereExact(rows: seq<ItemView>, p: ItemView -> bool, x: int)
    ensures x in SidsWhere(rows, p) <==> exists k :: 0 <= k < |rows| && p(rows[k]) && rows[k].sessionId == x
  {
    if rows != [] {
      var n := |rows| - 1;
      SidsWhereExact(rows[..n], p, x);
      assert forall k :: 0 <= k < n ==> rows[..n][k] == rows[k];
    }
  }

  /** Nothing is chosen exactly when no record passes. */
  lemma {:induction false} SidsWhereEmpty(rows: seq<ItemView>, p: ItemView -> bool)
    ensures SidsWhere(rows, p) == [] <==> forall k :: 0 <= k < |rows| ==> !p(rows[k])
  {
    if rows != [] {
      var n := |rows| - 1;
      SidsWhereEmpty(rows[..n], p);
      assert forall k :: 0 <= k < n ==> rows[..n][k] == rows[k];
    }
  }

  /**
   * `removeDownloadsByState`: the records in exactly `state`; with
   * `selectionOnly`, among the filtered rows whose filtered position is
   * selected, otherwise among all records.
   */
  function ByState(items: seq<ItemView>, filtered: seq<ItemView>, selection: seq<int>,
                   state: StateBits, selectionOnly: bool): (r: seq<int>)
    ensures forall x :: x in r <==>
              if selectionOnly then
                exists k :: 0 <= k < |filtered| && filtered[k].state == state
                         && filtered[k].filteredPosition.Some? && filtered[k].filteredPosition.value in selection
                         && filtered[k].sessionId == x
              else exists k :: 0 <= k < |items| && items[k].state == state && items[k].sessionId == x
  {
    if selectionOnly then
      var p := (v: ItemView) => v.filteredPosition.Some? && v.filteredPosition.value in selection && v.state == state;
      forall x { SidsWhereExact(filtered, p, x); }
      SidsWhere(filtered, p)
    else
      var p := (v: ItemView) => v.state == state;
      forall x { SidsWhereExact(items, p, x); }
      SidsWhere(items, p)
  }

  /**
   * The rows of the filtered view with the positions the collection keeps
   * in sync: each record's `filteredPosition` is its index in the view.
   */
  function Positioned(rows: seq<ItemView>): (r: seq<ItemView>)
    ensures |r| == |rows|
    ensures forall k :: 0 <= k < |rows| ==> r[k] == rows[k].(filteredPosition := Some(k))
  {
    seq(|rows|, k requires 0 <= k < |rows| => rows[k].(filteredPosition := Some(k)))
  }

  /**
   * Over the positioned view, removal from the selection chooses exactly
   * the records in `state` at selected rows of the view.
   */
  lemma SelectedByStateExact(items: seq<ItemView>, rows: seq<ItemView>, selection: seq<int>, state: StateBits, x: int)
    ensures x in ByState(items, Positioned(rows), selection, state, true) <==>
            exists k :: 0 <= k < |rows| && k in selection && rows[k].state == state && rows[k].sessionId == x
  {
    var p := Positioned(rows);
    if x in ByState(items, p, selection, state, true) {
      var k :| 0 <= k < |p| && p[k].state == state && p[k].filteredPosition.Some?
               && p[k].filteredPosition.value in selection && p[k].sessionId == x;
      assert rows[k].state == state && k in selection;
    }
    if exists k :: 0 <= k < |rows| && k in selection && rows[k].state == state && rows[k].sessionId == x {
      var k :| 0 <= k < |rows| && k in selection && rows[k].state == state && rows[k].sessionId == x;
      assert p[k].filteredPosition == Some(k);
    }
  }

  /** `removeDomainDownloads`: the records of one domain, only the DONE ones when `complete`. */
  function ByDomain(items: seq<ItemView>, domain: string, complete: bool): (r: seq<int>)
    ensures forall x :: x in r <==>
              exists k :: 0 <= k < |items| && (complete ==> items[k].state == DONE)
                       && items[k].domain == domain && items[k].sessionId == x
  {
    var p := (v: ItemView) => (complete ==> v.state == DONE) && v.domain == domain;
    forall x { SidsWhereExact(items, p, x); }
    SidsWhere(items, p)
  }

  /** `removeBatchDownloads`: the records of one batch, only the DONE ones when `complete`. */
  function ByBatch(items: seq<ItemView>, batch: int, complete: bool): (r: seq<int>)
    ensures forall x :: x in r <==>
              exists k :: 0 <= k < |items| && (complete ==> items[k].state == DONE)
                       && items[k].batch == batch && items[k].sessionId == x
  {
    var p := (v: ItemView) => (complete ==> v.state == DONE) && v.batch == batch;
    forall x { SidsWhereExact(items, p, x); }
    SidsWhere(items, p)
  }

  /** A registered filter, reduced to what removal needs of it. */
  datatype Filter = Filter(id: string, matches: string -> bool)

  /**
   * `handleFilterRemove`'s selection: the records whose `usable` name the
   * filter matches; unless `all`, only the DONE ones.
   */
  function ByFilter(items: seq<ItemView>, filter: Filter, all: bool): (r: seq<int>)
    ensures forall x :: x in r <==>
              exists k :: 0 <= k < |items| && (all || items[k].state == DONE)
                       && filter.matches(items[k].usable) && items[k].sessionId == x
  {
    var p := (v: ItemView) => (all || v.state == DONE) && filter.matches(v.usable);
    forall x { SidsWhereExact(items, p, x); }
    SidsWhere(items, p)
  }

  /** `s` has the separator "--" at index `j`. */
  predicate SepAt(s: string, j: int) {
    0 <= j < |s| - 1 && s[j] == '-' && s[j + 1] == '-'
  }

  /** The first index at or after `from` where `s` has the separator. */
  function FindSep(s: string, from: nat): (r: Option<nat>)
    decreases |s| - from
    ensures r.Some? ==> from <= r.value && SepAt(s, r.value)
    ensures r.Some? ==> forall j :: from <= j < r.value ==> !SepAt(s, j)
    ensures r.None? ==> forall j :: from <= j ==> !SepAt(s, j)
  {
    if from + 2 > |s| then None
    else if SepAt(s, from) then Some(from)
    else FindSep(s, from + 1)
  }

  /** The string has no separator anywhere in it. */
  predicate NoSep(s: string) {
    forall j | 0 <= j < |s| :: !SepAt(s, j)
  }

  /**
   * `event.split("--", 2)`: the text before the first separator, and the
   * text between it and the next separator (or the end), or `None` when the
   * event has no separator.
   */
  function SplitTwo(s: string): (r: (string, Option<string>))
    ensures NoSep(s) <==> r == (s, None)
    ensures !NoSep(s) ==> && r.1.Some?
                          && |r.0| + 2 <= |s| && s[..|r.0| + 2] == r.0 + "--"
                          && NoSep(r.0) && NoSep(r.1.value)
                          && r.1.value <= s[|r.0| + 2..]
  {
    match FindSep(s, 0)
    case None => (s, None)
    case Some(i) =>
      var rest := s[i + 2..];
      var id := match FindSep(rest, 0) case None => rest case Some(j) => rest[..j];
      assert NoSep(s[..i]) by {
        forall j | SepAt(s[..i], j) ensures false {
          assert SepAt(s, j);
        }
      }
      assert NoSep(id) by {
        forall j | SepAt(id, j) ensures false {
          assert SepAt(rest, j);
        }
      }
      assert s[..i + 2] == s[..i] + "--";
      (s[..i], Some(id))
  }

  /** Which removal a filter menu entry asks for: all matching records, or the DONE ones only. */
  datatype FilterRemoval = FilterRemoval(all: bool, filterId: string)

  /** The prefixes that the context menu gives to its filter entries. */
  const RemoveFilterPrefix: string := "ctx-remove-filter"
  const RemoveCompleteFilterPrefix: string := "ctx-remove-complete-filter"

  /**
   * `handleFilterRemove`'s parse of a clicked entry's id: both pieces of
   * the split must be non-empty and the first must be one of the two filter
   * prefixes; any other click is ignored.
   */
  function ParseFilterEvent(event: string): (r: Option<FilterRemoval>)
    ensures r.Some? ==> r.value.filterId != [] && NoSep(r.value.filterId)
    ensures r.Some? ==> var p := if r.value.all then RemoveFilterPrefix else RemoveCompleteFilterPrefix;
                        && |p| + 2 <= |event| && event[..|p| + 2] == p + "--"
                        && r.value.filterId <= event[|p| + 2..]
  {
    var (prefix, id) := SplitTwo(event);
    if prefix == [] || id.None? || id.value == [] then None
    else if prefix == RemoveFilterPrefix then Some(FilterRemoval(true, id.value))
    else if prefix == RemoveCompleteFilterPrefix then Some(FilterRemoval(false, id.value))
    else None
  }

  /** The id that the context menu's `prepareMenu` gives to a filter's entry under a submenu. */
  function MenuEntryId(submenu: string, filterId: string): string {
    submenu + "-filter-" + "-" + filterId
  }

  /** A separator-free text not ending in '-': the first separator after it is the one that follows it. */
  lemma SkipsPlainPrefix(prefix: string, tail: string)
    requires NoSep(prefix) && prefix != [] && prefix[|prefix| - 1] != '-'
    ensures FindSep(prefix + "--" + tail, 0) == Some(|prefix|)
  {
    var s := prefix + "--" + tail;
    assert SepAt(s, |prefix|);
    forall j | 0 <= j < |prefix| ensures !SepAt(s, j) {
      if j + 1 < |prefix| {
        assert !SepAt(prefix, j);
      }
    }
  }

  /**
   * Every filter entry the menu builds parses back to its filter: entries
   * under "ctx-remove" remove all matching records, entries under
   * "ctx-remove-complete" only the DONE ones.
   */
  lemma MenuEntryRoundTrip(filterId: string)
    requires filterId != [] && NoSep(filterId)
    ensures ParseFilterEvent(MenuEntryId("ctx-remove", filterId)) == Some(FilterRemoval(true, filterId))
    ensures ParseFilterEvent(MenuEntryId("ctx-remove-complete", filterId)) == Some(FilterRemoval(false, filterId))
  {
    assert MenuEntryId("ctx-remove", filterId) == RemoveFilterPrefix + "--" + filterId;
    assert MenuEntryId("ctx-remove-complete", filterId) == RemoveCompleteFilterPrefix + "--" + filterId;
    PrefixesPlain();
    SplitsAtPrefix(RemoveFilterPrefix, filterId);
    SplitsAtPrefix(RemoveCompleteFilterPrefix, filterId);
  }

  /** Neither filter prefix contains the separator. */
  lemma PrefixesPlain()
    ensures NoSep(RemoveFilterPrefix) && NoSep(RemoveCompleteFilterPrefix)
  {
    forall j | 0 <= j < |RemoveFilterPrefix| - 1 ensures !SepAt(RemoveFilterPrefix, j) {
      SingleDashes(RemoveFilterPrefix, j);
    }
    forall j | 0 <= j < |RemoveCompleteFilterPrefix| - 1 ensures !SepAt(RemoveCompleteFilterPrefix, j) {
      SingleDashes(RemoveCompleteFilterPrefix, j);
    }
  }

  lemma SingleDashes(s: string, j: int)
    requires 0 <= j < |s| - 1
    requires s == RemoveFilterPrefix || s == RemoveCompleteFilterPrefix || s == "ctx-remove-all"
    ensures s[j] != '-' || s[j + 1] != '-'
  {
    if s[j] == '-' {
      assert j in {3, 10, 19};
    }
  }

  lemma SplitsAtPrefix(prefix: string, filterId: string)
    requires NoSep(prefix) && prefix != [] && prefix[|prefix| - 1] != '-'
    requires filterId != [] && NoSep(filterId)
    ensures SplitTwo(prefix + "--" + filterId) == (prefix, Some(filterId))
  {
    var s := prefix + "--" + filterId;
    SkipsPlainPrefix(prefix, filterId);
    assert s[|prefix| + 2..] == filterId;
    assert s[..|prefix|] == prefix;
  }

  /** Clicks on the plain menu entries, and entries with an empty piece, are ignored. */
  lemma PlainEntriesIgnored()
    ensures ParseFilterEvent("ctx-remove-all") == None
    ensures ParseFilterEvent("--deffilter-all") == None
  {
    assert NoSep("ctx-remove-all") by {
      forall j | 0 <= j < |"ctx-remove-all"| - 1 ensures !SepAt("ctx-remove-all", j) {
        SingleDashes("ctx-remove-all", j);
      }
    }
    var e := "--deffilter-all";
    assert SepAt(e, 0);
    assert FindSep(e, 0) == Some(0);
  }
}
