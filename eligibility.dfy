/**
 * Which bulk actions a selection enables, and which session ids an action
 * posts: the OR-reduce of the selected states against the capability masks.
 */
module Eligibility {
  import opened Wrappers
  import opened DownloadStates
  import opened Records

  /** The broadcasters a selection change enables and disables. */
  datatype Action = Resume | Force | Pause | Cancel
                  | MoveTop | MoveUp | MoveDown | MoveBottom
                  | OpenFile | OpenDirectory

  /** `disableSet`, in the order the table registers its broadcasters. */
  const DisableSet: seq<Action> :=
    [Resume, Force, Pause, Cancel, MoveTop, MoveUp, MoveDown, MoveBottom, OpenFile, OpenDirectory]

  const AllActions: set<Action> :=
    {Resume, Force, Pause, Cancel, MoveTop, MoveUp, MoveDown, MoveBottom, OpenFile, OpenDirectory}

  /** `disableSet` holds every action. */
  lemma DisableSetCoversAll()
    ensures (set k | 0 <= k < |DisableSet| :: DisableSet[k]) == AllActions
    ensures forall a: Action :: a in AllActions && a in DisableSet
  {
    forall a: Action ensures a in AllActions && a in DisableSet {
      match a
      case Resume => assert DisableSet[0] == a;
      case Force => assert DisableSet[1] == a;
      case Pause => assert DisableSet[2] == a;
      case Cancel => assert DisableSet[3] == a;
      case MoveTop => assert DisableSet[4] == a;
      case MoveUp => assert DisableSet[5] == a;
      case MoveDown => assert DisableSet[6] == a;
      case MoveBottom => assert DisableSet[7] == a;
      case OpenFile => assert DisableSet[8] == a;
      case OpenDirectory => assert DisableSet[9] == a;
    }
  }

  /**
   * The rows of the filtered view that the selection names, in selection
   * order. A selected row outside the view names no record.
   */
  function SelectedRows(rows: seq<ItemView>, selection: seq<int>): (r: seq<ItemView>)
    ensures |r| <= |selection|
    ensures (forall k :: 0 <= k < |selection| ==> 0 <= selection[k] < |rows|) ==> |r| == |selection|
  {
    if selection == [] then []
    else
      var n := |selection| - 1;
      var i := selection[n];
      SelectedRows(rows, selection[..n]) + (if 0 <= i < |rows| then [rows[i]] else [])
  }

  /** Every selected row in the view contributes its record. */
  lemma {:induction false} SelectedRowsHolds(rows: seq<ItemView>, selection: seq<int>, k: nat)
    requires k < |selection| && 0 <= selection[k] < |rows|
    ensures rows[selection[k]] in SelectedRows(rows, selection)
  {
    var n := |selection| - 1;
    if k < n {
      assert selection[..n][k] == selection[k];
      SelectedRowsHolds(rows, selection[..n], k);
    }
  }

  /** Every selected record comes from a selected row in the view. */
  lemma {:induction false} SelectedRowsSource(rows: seq<ItemView>, selection: seq<int>, v: ItemView) returns (k: nat)
    requires v in SelectedRows(rows, selection)
    ensures k < |selection| && 0 <= selection[k] < |rows| && rows[selection[k]] == v
  {
    var n := |selection| - 1;
    var pre := SelectedRows(rows, selection[..n]);
    if v in pre {
      k := SelectedRowsSource(rows, selection[..n], v);
      assert selection[..n][k] == selection[k];
    } else {
      k := n;
    }
  }

  /** A record is among the selected rows exactly when some selected row in the view holds it. */
  lemma SelectedRowsExact(rows: seq<ItemView>, selection: seq<int>, v: ItemView)
    ensures v in SelectedRows(rows, selection) <==>
            exists k :: 0 <= k < |selection| && 0 <= selection[k] < |rows| && rows[selection[k]] == v
  {
    if v in SelectedRows(rows, selection) {
      var k := SelectedRowsSource(rows, selection, v);
    }
    if exists k :: 0 <= k < |selection| && 0 <= selection[k] < |rows| && rows[selection[k]] == v {
      var k :| 0 <= k < |selection| && 0 <= selection[k] < |rows| && rows[selection[k]] == v;
      SelectedRowsHolds(rows, selection, k);
    }
  }

  /** `items.reduce((p, c) => p |= c.state, 0)`. */
  function OrStates(rs: seq<ItemView>): (r: StateBits)
    ensures rs == [] ==> r == 0
    ensures forall k :: 0 <= k < |rs| ==> rs[k].state & r == rs[k].state
  {
    if rs == [] then 0 else OrStates(rs[..|rs| - 1]) | rs[|rs| - 1].state
  }

  lemma Distributes(a: StateBits, b: StateBits, m: StateBits)
    ensures (a | b) & m == (a & m) | (b & m)
  {
  }

  lemma OrZero(x: StateBits, y: StateBits)
    ensures x | y == 0 <==> x == 0 && y == 0
  {
  }

  lemma OrMeets(a: StateBits, b: StateBits, m: StateBits)
    ensures Meets(a | b, m) <==> Meets(a, m) || Meets(b, m)
  {
    Distributes(a, b, m);
    OrZero(a & m, b & m);
  }

  /** Some record in the list has a state that meets `m`. */
  predicate AnyMeets(rs: seq<ItemView>, m: StateBits) {
    rs != [] && (AnyMeets(rs[..|rs| - 1], m) || Meets(rs[|rs| - 1].state, m))
  }

  lemma {:induction false} AnyMeetsExact(rs: seq<ItemView>, m: StateBits)
    ensures AnyMeets(rs, m) <==> exists k :: 0 <= k < |rs| && Meets(rs[k].state, m)
  {
    if rs != [] {
      var n := |rs| - 1;
      var front := rs[..n];
      AnyMeetsExact(front, m);
      assert forall k :: 0 <= k < n ==> front[k] == rs[k];
    }
  }

  lemma {:induction false} OrStatesMeets(rs: seq<ItemView>, m: StateBits)
    ensures Meets(OrStates(rs), m) <==> AnyMeets(rs, m)
  {
    if rs != [] {
      var n := |rs| - 1;
      var front, last := OrStates(rs[..n]), rs[n].state;
      assert OrStates(rs) == front | last;
      assert AnyMeets(rs, m) <==> AnyMeets(rs[..n], m) || Meets(last, m);
      OrStatesMeets(rs[..n], m);
      OrMeets(front, last, m);
    }
  }

  /** The OR-reduce meets a mask exactly when some single record's state does. */
  lemma OrStatesExact(rs: seq<ItemView>, m: StateBits)
    ensures Meets(OrStates(rs), m) <==> exists k :: 0 <= k < |rs| && Meets(rs[k].state, m)
  {
    OrStatesMeets(rs, m);
    AnyMeetsExact(rs, m);
  }

  /** `getSelectedSids`: the session ids, in order, of the records whose state meets `allowed`. */
  function SidsAllowed(rs: seq<ItemView>, allowed: StateBits): (r: seq<int>)
    ensures |r| <= |rs|
  {
    if rs == [] then []
    else
      var n := |rs| - 1;
      SidsAllowed(rs[..n], allowed) + (if Meets(rs[n].state, allowed) then [rs[n].sessionId] else [])
  }

  lemma {:induction false} SidsAllowedExact(rs: seq<ItemView>, allowed: StateBits, x: int)
    ensures x in SidsAllowed(rs, allowed) <==>
            exists k :: 0 <= k < |rs| && Meets(rs[k].state, allowed) && rs[k].sessionId == x
  {
    if rs != [] {
      var n := |rs| - 1;
      SidsAllowedExact(rs[..n], allowed, x);
      assert forall k :: 0 <= k < n ==> rs[..n][k] == rs[k];
    }
  }

  /** Something is posted exactly when at least one record in the list has an allowed state. */
  lemma SidsAllowedNonEmpty(rs: seq<ItemView>, allowed: StateBits)
    ensures SidsAllowed(rs, allowed) != [] <==> Meets(OrStates(rs), allowed)
  {
    OrStatesExact(rs, allowed);
    if SidsAllowed(rs, allowed) != [] {
      SidsAllowedExact(rs, allowed, SidsAllowed(rs, allowed)[0]);
    }
    if exists k :: 0 <= k < |rs| && Meets(rs[k].state, allowed) {
      var k :| 0 <= k < |rs| && Meets(rs[k].state, allowed);
      SidsAllowedExact(rs, allowed, rs[k].sessionId);
    }
  }

  /**
   * `getSelectedSids(allowed)` holds a session id exactly when some selected
   * row in the view holds a record with that id whose state meets `allowed`.
   */
  lemma SelectedSidsExact(rows: seq<ItemView>, selection: seq<int>, allowed: StateBits, x: int)
    ensures x in SidsAllowed(SelectedRows(rows, selection), allowed) <==>
            exists k :: && 0 <= k < |selection| && 0 <= selection[k] < |rows|
                        && Meets(rows[selection[k]].state, allowed) && rows[selection[k]].sessionId == x
  {
    var sel := SelectedRows(rows, selection);
    SidsAllowedExact(sel, allowed, x);
    if x in SidsAllowed(sel, allowed) {
      var j :| 0 <= j < |sel| && Meets(sel[j].state, allowed) && sel[j].sessionId == x;
      SelectedRowsExact(rows, selection, sel[j]);
    }
    if exists k :: && 0 <= k < |selection| && 0 <= selection[k] < |rows|
                   && Meets(rows[selection[k]].state, allowed) && rows[selection[k]].sessionId == x {
      var k :| && 0 <= k < |selection| && 0 <= selection[k] < |rows|
               && Meets(rows[selection[k]].state, allowed) && rows[selection[k]].sessionId == x;
      SelectedRowsExact(rows, selection, rows[selection[k]]);
      var j :| 0 <= j < |sel| && sel[j] == rows[selection[k]];
    }
  }

  /** The session ids of a list of records, in order. */
  function RowIds(rs: seq<ItemView>): (r: seq<int>)
    ensures |r| == |rs| && forall k :: 0 <= k < |rs| ==> r[k] == rs[k].sessionId
  {
    seq(|rs|, k requires 0 <= k < |rs| => rs[k].sessionId)
  }

  /**
   * The ids `removeDownloadsInternal` collects from the selection hold a
   * session id exactly when some selected row in the view holds a record
   * with that id.
   */
  lemma SelectionIdsExact(rows: seq<ItemView>, selection: seq<int>, x: int)
    ensures x in RowIds(SelectedRows(rows, selection)) <==>
            exists k :: 0 <= k < |selection| && 0 <= selection[k] < |rows| && rows[selection[k]].sessionId == x
  {
    var sel := SelectedRows(rows, selection);
    if x in RowIds(sel) {
      var j :| 0 <= j < |sel| && RowIds(sel)[j] == x;
      SelectedRowsExact(rows, selection, sel[j]);
    }
    if exists k :: 0 <= k < |selection| && 0 <= selection[k] < |rows| && rows[selection[k]].sessionId == x {
      var k :| 0 <= k < |selection| && 0 <= selection[k] < |rows| && rows[selection[k]].sessionId == x;
      SelectedRowsExact(rows, selection, rows[selection[k]]);
      var j :| 0 <= j < |sel| && sel[j] == rows[selection[k]];
      assert RowIds(sel)[j] == x;
    }
  }

  /** The record under the focus row, if the row is in the view. */
  function Focused(rows: seq<ItemView>, focusRow: int): Option<ItemView> {
    if 0 <= focusRow < |rows| then Some(rows[focusRow]) else None
  }

  /** The focused record can be opened: it has a manager id and is DONE. */
  predicate CanOpenFile(f: Option<ItemView>) {
    f.Some? && f.value.manId != 0 && f.value.state == DONE
  }

  /** The focused record's directory can be shown: it has a manager id. */
  predicate CanOpenDirectory(f: Option<ItemView>) {
    f.Some? && f.value.manId != 0
  }

  /** The mask that enables each bulk action. */
  function EnableMask(a: Action, masks: Masks): StateBits
    requires a in {Resume, Force, Pause, Cancel}
  {
    match a
    case Resume => masks.resumable
    case Force => masks.forcable
    case Pause => masks.pausable
    case Cancel => masks.cancelable
  }

  /**
   * Whether `selectionChanged` leaves action `a` disabled: every action while
   * the selection is empty; otherwise a bulk action whose mask the OR of the
   * selected states misses, and an open action whose guard the focused
   * record fails. The move actions stay enabled.
   */
  predicate IsDisabled(rows: seq<ItemView>, selection: seq<int>, focusRow: int, masks: Masks, a: Action) {
    selection == [] || ActionDisabled(OrStates(SelectedRows(rows, selection)), Focused(rows, focusRow), masks, a)
  }

  /** For a non-empty selection whose states OR to `states`, with `focused` under the focus row. */
  predicate ActionDisabled(states: StateBits, focused: Option<ItemView>, masks: Masks, a: Action) {
    match a
    case Resume => !Meets(states, masks.resumable)
    case Force => !Meets(states, masks.forcable)
    case Pause => !Meets(states, masks.pausable)
    case Cancel => !Meets(states, masks.cancelable)
    case OpenFile => !CanOpenFile(focused)
    case OpenDirectory => !CanOpenDirectory(focused)
    case MoveTop => false
    case MoveUp => false
    case MoveDown => false
    case MoveBottom => false
  }

  /** Each broadcaster's `disabled` flag is the one `IsDisabled` gives it. */
  predicate Shows(disabled: map<Action, bool>, rows: seq<ItemView>, selection: seq<int>, focusRow: int, masks: Masks) {
    forall a: Action :: a in disabled && disabled[a] == IsDisabled(rows, selection, focusRow, masks, a)
  }

  /** Flags that are clear for the move actions and set as `selectionChanged` sets them follow `ActionDisabled`. */
  lemma FlagsFollow(d: map<Action, bool>, states: StateBits, f: Option<ItemView>, masks: Masks)
    requires forall a: Action :: a in d
    requires d[Pause] == !Meets(states, masks.pausable) && d[Resume] == !Meets(states, masks.resumable)
    requires d[Force] == !Meets(states, masks.forcable) && d[Cancel] == !Meets(states, masks.cancelable)
    requires d[OpenFile] == !CanOpenFile(f) && d[OpenDirectory] == !CanOpenDirectory(f)
    requires !d[MoveTop] && !d[MoveUp] && !d[MoveDown] && !d[MoveBottom]
    ensures forall a: Action :: a in d && d[a] == ActionDisabled(states, f, masks, a)
  {
  }

  /** For a non-empty selection, flags that follow `ActionDisabled` show the selection. */
  lemma ShowsSelected(d: map<Action, bool>, rows: seq<ItemView>, selection: seq<int>, focusRow: int, masks: Masks)
    requires selection != []
    requires forall a: Action :: a in d && d[a] == ActionDisabled(OrStates(SelectedRows(rows, selection)), Focused(rows, focusRow), masks, a)
    ensures Shows(d, rows, selection, focusRow, masks)
  {
  }

  /**
   * A bulk action is enabled exactly when the selection is not empty and
   * some selected record's own state is in the action's mask: one eligible
   * record in a mixed selection is enough.
   */
  lemma BulkActionEligibility(rows: seq<ItemView>, selection: seq<int>, focusRow: int, masks: Masks, a: Action)
    requires a in {Resume, Force, Pause, Cancel}
    ensures var sel := SelectedRows(rows, selection);
            !IsDisabled(rows, selection, focusRow, masks, a) <==>
            selection != [] && exists k :: 0 <= k < |sel| && Meets(sel[k].state, EnableMask(a, masks))
  {
    var sel := SelectedRows(rows, selection);
    OrStatesExact(sel, EnableMask(a, masks));
    if selection != [] {
      DisabledByMask(OrStates(sel), Focused(rows, focusRow), masks, a);
    }
  }

  lemma DisabledByMask(states: StateBits, focused: Option<ItemView>, masks: Masks, a: Action)
    requires a in {Resume, Force, Pause, Cancel}
    ensures ActionDisabled(states, focused, masks, a) <==> !Meets(states, EnableMask(a, masks))
  {
  }

  /**
   * Resume, pause and cancel are enabled exactly when invoking them would
   * post a non-empty list of session ids.
   */
  lemma EnabledExactlyWhenSomethingToPost(rows: seq<ItemView>, selection: seq<int>, focusRow: int, masks: Masks, a: Action)
    requires a in {Resume, Pause, Cancel}
    ensures !IsDisabled(rows, selection, focusRow, masks, a) <==>
            selection != [] && SidsAllowed(SelectedRows(rows, selection), EnableMask(a, masks)) != []
  {
    BulkActionEligibility(rows, selection, focusRow, masks, a);
    SidsAllowedNonEmpty(SelectedRows(rows, selection), EnableMask(a, masks));
  }

  /** The move actions are enabled by any non-empty selection. */
  lemma MovesFollowSelection(rows: seq<ItemView>, selection: seq<int>, focusRow: int, masks: Masks, a: Action)
    requires a in {MoveTop, MoveUp, MoveDown, MoveBottom}
    ensures IsDisabled(rows, selection, focusRow, masks, a) <==> selection == []
  {
  }

  /**
   * Opening a file or a directory is enabled exactly when the selection is
   * not empty and the guard of `openFile` or `openDirectory` lets the
   * focused record through.
   */
  lemma OpenActionsFollowFocus(rows: seq<ItemView>, selection: seq<int>, focusRow: int, masks: Masks)
    ensures !IsDisabled(rows, selection, focusRow, masks, OpenFile) <==>
            selection != [] && CanOpenFile(Focused(rows, focusRow))
    ensures !IsDisabled(rows, selection, focusRow, masks, OpenDirectory) <==>
            selection != [] && CanOpenDirectory(Focused(rows, focusRow))
  {
  }

  /**
   * Two selected records, one QUEUED and one DONE, with masks that admit
   * QUEUED but not DONE: resume and cancel are enabled. Opening the file
   * depends on the focused row alone, so with the DONE record focused it
   * stays enabled although two records are selected.
   */
  lemma MixedSelection(q: ItemView, d: ItemView, masks: Masks)
    requires q.state == QUEUED && d.state == DONE && d.manId != 0
    requires Meets(QUEUED, masks.resumable) && !Meets(DONE, masks.resumable)
    requires Meets(QUEUED, masks.cancelable) && !Meets(DONE, masks.cancelable)
    ensures !IsDisabled([q, d], [0, 1], 1, masks, Resume)
    ensures !IsDisabled([q, d], [0, 1], 1, masks, Cancel)
    ensures !IsDisabled([q, d], [0, 1], 1, masks, OpenFile)
    ensures IsDisabled([q, d], [0, 1], 0, masks, OpenFile)
    ensures SidsAllowed(SelectedRows([q, d], [0, 1]), masks.resumable) == [q.sessionId]
  {
    var sel := SelectedRows([q, d], [0, 1]);
    assert [0, 1][..1] == [0];
    assert SelectedRows([q, d], [0]) == [q] by {
      assert [0][..0] == [];
    }
    assert sel == [q, d];
    BulkActionEligibility([q, d], [0, 1], 1, masks, Resume);
    BulkActionEligibility([q, d], [0, 1], 1, masks, Cancel);
    assert [q, d][..1] == [q];
    assert SidsAllowed([q], masks.resumable) == [q.sessionId] by {
      assert [q][..0] == [];
    }
  }
}
