/**
 * The download-manager list: records that the background's snapshots update
 * in place, and the table that keeps the identity map, the running set, the
 * finished count and the sampling timer, decides which actions a selection
 * enables and posts the user's requests to the background.
 */
module Manager {
  import opened Wrappers
  import opened DownloadStates
  import opened Records
  import opened Bookkeeping
  import opened Sampling
  import opened Eligibility
  import opened Display
  import opened Removal

  /** Requests to the background page, in the order they are posted. */
  datatype Message =
    | ResyncAll
    | ResumeSids(sids: seq<int>, forced: bool)
    | PauseSids(sids: seq<int>)
    | CancelSids(sids: seq<int>)
    | RemoveSids(sids: seq<int>)
    | MissingSid(sid: int)

  /** The connection to the background page: a log of what was posted. */
  class Port {
    var sent: seq<Message>

    constructor ()
      ensures sent == []
    {
      sent := [];
    }

    method Post(m: Message)
      modifies this`sent
      ensures sent == old(sent) + [m]
    {
      sent := sent + [m];
    }
  }

  /** What the table asks of the filtered collection. */
  datatype CollectionRequest = Replaced(count: nat) | Appended(count: nat) | Recalculated(sid: int)

  /** The entries of `list` at the positions `view` names, skipping positions outside it. */
  function Project<T>(list: seq<T>, view: seq<int>): (r: seq<T>)
    ensures |r| <= |view|
    ensures forall k :: 0 <= k < |r| ==> r[k] in list
  {
    if view == [] then []
    else
      var n := |view| - 1;
      Project(list, view[..n]) + (if 0 <= view[n] < |list| then [list[view[n]]] else [])
  }

  /**
   * The filtered, sorted collection behind the table. Its filtering and
   * sorting are not modelled: whoever replaces or extends the records also
   * says, as `view`, which positions of the new backing list are shown.
   */
  class Collection {
    var items: seq<DownloadItem>
    var filtered: seq<DownloadItem>
    var requests: seq<CollectionRequest>

    constructor ()
      ensures items == [] && filtered == [] && requests == []
    {
      items, filtered, requests := [], [], [];
    }

    /** `set`: replace every record. */
    method Set(list: seq<DownloadItem>, view: seq<int>)
      modifies this`items, this`filtered, this`requests
      ensures items == list && filtered == Project(list, view)
      ensures requests == old(requests) + [Replaced(|list|)]
    {
      items := list;
      filtered := Project(list, view);
      requests := requests + [Replaced(|list|)];
    }

    /** `add`: append new records. */
    method Add(list: seq<DownloadItem>, view: seq<int>)
      modifies this`items, this`filtered, this`requests
      ensures items == old(items) + list && filtered == Project(items, view)
      ensures requests == old(requests) + [Appended(|list|)]
    {
      items := items + list;
      filtered := Project(items, view);
      requests := requests + [Appended(|list|)];
    }

    /** `recalculateItem`: the record's sort and filter keys may have changed. */
    method RecalculateItem(item: DownloadItem)
      modifies this`requests
      ensures requests == old(requests) + [Recalculated(item.sessionId)]
    {
      requests := requests + [Recalculated(item.sessionId)];
    }
  }

  /** The events a record emits to its listeners. */
  datatype ItemEvent = UrlChanged | Updated | StatsSampled

  /** Every field of a record that changes after it is made, its sample log aside. */
  datatype ItemFields = ItemFields(
    position: Option<int>, state: StateBits, url: string, domain: string, written: int, totalSize: int,
    lastWritten: int, manId: int, batch: int, usable: string, error: string,
    filteredPosition: Option<nat>, emitted: seq<ItemEvent>)

  /** What a record made from `raw` holds: absent numbers read as 0, absent texts as empty. */
  function Initial(raw: Snapshot, domainOf: string -> string): ItemFields {
    var url := raw.url.GetOr([]);
    ItemFields(raw.position, raw.state.GetOr(0), url, domainOf(url), raw.written.GetOr(0), raw.totalSize.GetOr(0),
               0, raw.manId.GetOr(0), raw.batch.GetOr(0), raw.usable.GetOr([]), raw.error.GetOr([]),
               None, [UrlChanged])
  }

  /** What the records made from `list` hold, in order. */
  function Initials(list: seq<Snapshot>, domainOf: string -> string): (r: seq<ItemFields>)
    ensures |r| == |list| && forall k :: 0 <= k < |list| ==> r[k] == Initial(list[k], domainOf)
  {
    seq(|list|, k requires 0 <= k < |list| => Initial(list[k], domainOf))
  }

  lemma InitialsStep(list: seq<Snapshot>, i: nat, domainOf: string -> string)
    requires i < |list|
    ensures Initials(list[..i + 1], domainOf) == Initials(list[..i], domainOf) + [Initial(list[i], domainOf)]
  {
  }

  /** The (record, state) pairs of a list, which the registry must account for. */
  function Pairs(list: seq<DownloadItem>): (r: seq<(DownloadItem, StateBits)>)
    reads list`state
    ensures |r| == |list|
    ensures forall k {:trigger r[k]} :: 0 <= k < |list| ==> r[k] == (list[k], list[k].state)
  {
    if list == [] then []
    else
      var n := |list| - 1;
      Pairs(list[..n]) + [(list[n], list[n].state)]
  }

  /** The value views of a list of records. */
  function Rows(list: seq<DownloadItem>): (r: seq<ItemView>)
    reads list
    ensures |r| == |list|
    ensures forall k :: 0 <= k < |list| ==> r[k] == list[k].View()
  {
    if list == [] then []
    else
      var n := |list| - 1;
      Rows(list[..n]) + [list[n].View()]
  }

  /** The fields of a list of records. */
  function FieldsOf(list: seq<DownloadItem>): (r: seq<ItemFields>)
    reads list
    ensures |r| == |list|
    ensures forall k :: 0 <= k < |list| ==> r[k] == list[k].Fields()
  {
    if list == [] then []
    else
      var n := |list| - 1;
      FieldsOf(list[..n]) + [list[n].Fields()]
  }

  lemma FieldsAppend(list: seq<DownloadItem>, x: DownloadItem)
    ensures FieldsOf(list + [x]) == FieldsOf(list) + [x.Fields()]
  {
    assert (list + [x])[..|list|] == list;
  }

  /** The sampling state of a list of records. */
  function Trackers(list: seq<DownloadItem>): (r: seq<Sampler>)
    reads list
    ensures |r| == |list|
    ensures forall k :: 0 <= k < |list| ==> r[k] == list[k].Tracker()
  {
    if list == [] then []
    else
      var n := |list| - 1;
      Trackers(list[..n]) + [list[n].Tracker()]
  }

  /**
   * The identity map agrees with a list of records: its keys are the
   * records' session ids and each maps to a record of the list with that id.
   */
  ghost predicate SidsAgree(sids: map<int, DownloadItem>, list: seq<DownloadItem>) {
    && (forall sid :: sid in sids <==> exists k :: 0 <= k < |list| && list[k].sessionId == sid)
    && (forall sid :: sid in sids ==> sids[sid] in list && sids[sid].sessionId == sid)
  }

  /** Every record of the list belongs to `table`. */
  ghost predicate OwnedBy(list: seq<DownloadItem>, table: DownloadTable) {
    forall k :: 0 <= k < |list| ==> list[k].owner == table
  }

  /** A record with a new id, appended, keeps the identity map in agreement once it is entered. */
  lemma AgreeAppend(sids: map<int, DownloadItem>, list: seq<DownloadItem>, x: DownloadItem)
    requires SidsAgree(sids, list)
    ensures SidsAgree(sids[x.sessionId := x], list + [x])
  {
    var l := list + [x];
    assert l[|list|] == x;
    forall sid | sid in sids ensures exists k :: 0 <= k < |l| && l[k].sessionId == sid {
      var k :| 0 <= k < |list| && list[k].sessionId == sid;
      assert l[k] == list[k];
    }
    forall sid | (exists k :: 0 <= k < |l| && l[k].sessionId == sid) ensures sid in sids || sid == x.sessionId {
      var k :| 0 <= k < |l| && l[k].sessionId == sid;
      if k < |list| { assert l[k] == list[k]; }
    }
  }

  lemma OwnedAppend(list: seq<DownloadItem>, x: DownloadItem, table: DownloadTable)
    requires OwnedBy(list, table) && x.owner == table
    ensures OwnedBy(list + [x], table)
  {
  }

  /** The records in a consistent registry's running set are RUNNING records of the list. */
  lemma RunningListed(r: Registry<DownloadItem>, list: seq<DownloadItem>)
    requires Consistent(r, Pairs(list))
    ensures forall x :: x in r.running ==> x in list && x.state == RUNNING
  {
    var ps := Pairs(list);
    forall x | x in r.running ensures x in list && x.state == RUNNING {
      assert x in Elements(r.running);
      var p :| p in ps && p.1 == RUNNING && p.0 == x;
      var k :| 0 <= k < |ps| && ps[k] == p;
      assert ps[k] == (list[k], list[k].state);
    }
  }

  /** The session ids of a list of records, in order. */
  function SessionIds(list: seq<DownloadItem>): (r: seq<int>)
    ensures |r| == |list| && forall k :: 0 <= k < |list| ==> r[k] == list[k].sessionId
  {
    seq(|list|, k requires 0 <= k < |list| => list[k].sessionId)
  }

  /** `removedItems`' filter: the records, in order, whose session id is not in `gone`. */
  function Surviving(list: seq<DownloadItem>, gone: set<int>): seq<DownloadItem> {
    if list == [] then []
    else
      var n := |list| - 1;
      Surviving(list[..n], gone) + (if list[n].sessionId in gone then [] else [list[n]])
  }

  /** The filter keeps exactly the records whose id is not in `gone`. */
  lemma {:induction false} SurvivingExact(list: seq<DownloadItem>, gone: set<int>)
    ensures |Surviving(list, gone)| <= |list|
    ensures forall x :: x in Surviving(list, gone) ==> x in list && x.sessionId !in gone
    ensures forall k :: 0 <= k < |list| && list[k].sessionId !in gone ==> list[k] in Surviving(list, gone)
  {
    if list != [] {
      var n := |list| - 1;
      SurvivingExact(list[..n], gone);
      assert list == list[..n] + [list[n]];
      forall k | 0 <= k < n ensures list[..n][k] == list[k] { }
    }
  }

  /** The pairs, in order, whose record's session id is not in `gone`. */
  function SurvivingPairs(ps: seq<(DownloadItem, StateBits)>, gone: set<int>): seq<(DownloadItem, StateBits)>
  {
    if ps == [] then []
    else
      var n := |ps| - 1;
      SurvivingPairs(ps[..n], gone) + (if ps[n].0.sessionId in gone then [] else [ps[n]])
  }

  lemma PairsAppend(a: seq<DownloadItem>, b: seq<DownloadItem>)
    ensures Pairs(a + b) == Pairs(a) + Pairs(b)
  {
    var l, r := Pairs(a + b), Pairs(a) + Pairs(b);
    forall k | 0 <= k < |a + b| ensures l[k] == r[k] {
      if k < |a| { assert (a + b)[k] == a[k]; } else { assert (a + b)[k] == b[k - |a|]; }
    }
  }

  /** Filtering the records and then pairing them with their states is filtering the pairs. */
  lemma {:induction false} PairsSurviving(list: seq<DownloadItem>, gone: set<int>)
    ensures Pairs(Surviving(list, gone)) == SurvivingPairs(Pairs(list), gone)
  {
    if list != [] {
      var n := |list| - 1;
      var ps := Pairs(list);
      PairsSurviving(list[..n], gone);
      assert ps[..n] == Pairs(list[..n]);
      assert ps[n] == (list[n], list[n].state);
      var s := Surviving(list[..n], gone);
      var tail := if list[n].sessionId in gone then [] else [list[n]];
      assert Surviving(list, gone) == s + tail;
      assert SurvivingPairs(ps, gone) == SurvivingPairs(ps[..n], gone) + (if list[n].sessionId in gone then [] else [ps[n]]);
      PairsAppend(s, tail);
    }
  }

  /**
   * What `removedItems`' filter has built so far: the records it keeps, and
   * the running set, the finished count and the identity map it deletes from.
   */
  datatype Sweeping = Sweeping(kept: seq<DownloadItem>, running: seq<DownloadItem>, finished: int,
                               sids: map<int, DownloadItem>)

  /**
   * The filter's callback on record `x` in state `st`: a record whose id is
   * not listed is kept; a listed one leaves the running set and the identity
   * map and, when DONE, the finished count.
   */
  function SweepOne(s: Sweeping, x: DownloadItem, st: StateBits, gone: set<int>): Sweeping {
    if x.sessionId !in gone then s.(kept := s.kept + [x])
    else s.(running := Without(s.running, x), sids := s.sids - {x.sessionId},
            finished := s.finished - (if st == DONE then 1 else 0))
  }

  /** The filter run over the first `i` (record, state) pairs. */
  function SweepUpTo(s: Sweeping, ps: seq<(DownloadItem, StateBits)>, i: nat, gone: set<int>): Sweeping
    requires i <= |ps|
  {
    if i == 0 then s else SweepOne(SweepUpTo(s, ps, i - 1, gone), ps[i - 1].0, ps[i - 1].1, gone)
  }

  /** The ids of the first `i` pairs' records. */
  ghost function IdsUpTo(ps: seq<(DownloadItem, StateBits)>, i: nat): set<int>
    requires i <= |ps|
  {
    set k | 0 <= k < i :: ps[k].0.sessionId
  }

  /** Where the filter's next pair sits once the pairs before it are filtered. */
  lemma SpliceSurvivors(ps: seq<(DownloadItem, StateBits)>, i: nat, gone: set<int>)
    requires i < |ps|
    ensures var s := SurvivingPairs(ps[..i], gone); var t := s + ps[i..];
            && t[|s|] == ps[i]
            && (ps[i].0.sessionId in gone ==> t[..|s|] + t[|s| + 1..] == SurvivingPairs(ps[..i + 1], gone) + ps[i + 1..])
            && (ps[i].0.sessionId !in gone ==> SurvivingPairs(ps[..i + 1], gone) + ps[i + 1..] == t)
  {
    var s := SurvivingPairs(ps[..i], gone);
    assert ps[..i + 1][..i] == ps[..i];
    var t := s + ps[i..];
    if ps[i].0.sessionId in gone {
      assert t[..|s|] + t[|s| + 1..] == s + ps[i + 1..];
    } else {
      assert s + [ps[i]] + ps[i + 1..] == t;
    }
  }

  /**
   * One step of `removedItems`' filter: a record whose id is listed is
   * evicted, any other is kept, and either way the registry accounts for
   * the records kept so far followed by those not yet looked at.
   */
  lemma SweepStep(r: Registry<DownloadItem>, ps: seq<(DownloadItem, StateBits)>, i: nat, gone: set<int>)
    requires i < |ps| && Consistent(r, SurvivingPairs(ps[..i], gone) + ps[i..])
    ensures ps[i].0.sessionId in gone ==>
              Consistent(Evict(r, ps[i].0, ps[i].1), SurvivingPairs(ps[..i + 1], gone) + ps[i + 1..])
    ensures ps[i].0.sessionId !in gone ==> Consistent(r, SurvivingPairs(ps[..i + 1], gone) + ps[i + 1..])
  {
    SpliceSurvivors(ps, i, gone);
    if ps[i].0.sessionId in gone {
      var s := SurvivingPairs(ps[..i], gone);
      EvictKeepsConsistent(r, s + ps[i..], |s|);
    }
  }

  /** The filter's state after `i + 1` pairs accounts for one more pair than after `i`. */
  lemma SweepUpToStep(r: Registry<DownloadItem>, s: Sweeping, ps: seq<(DownloadItem, StateBits)>, gone: set<int>, i: nat)
    requires i < |ps|
    requires var p := SweepUpTo(s, ps, i, gone);
             Consistent(Registry(p.running, p.finished, r.timerOn), SurvivingPairs(ps[..i], gone) + ps[i..])
    ensures var f := SweepUpTo(s, ps, i + 1, gone);
            Consistent(Registry(f.running, f.finished, r.timerOn), SurvivingPairs(ps[..i + 1], gone) + ps[i + 1..])
  {
    var p := SweepUpTo(s, ps, i, gone);
    var before := Registry(p.running, p.finished, r.timerOn);
    var f := SweepUpTo(s, ps, i + 1, gone);
    SweepStep(before, ps, i, gone);
    if ps[i].0.sessionId in gone {
      assert Registry(f.running, f.finished, r.timerOn) == Evict(before, ps[i].0, ps[i].1);
    } else {
      assert Registry(f.running, f.finished, r.timerOn) == before;
    }
  }

  /** After any prefix of the filter, the registry accounts for the kept pairs followed by the rest. */
  lemma {:induction false} SweepConsistent(r: Registry<DownloadItem>, s: Sweeping,
                                           ps: seq<(DownloadItem, StateBits)>, gone: set<int>, i: nat)
    requires Consistent(r, ps) && i <= |ps|
    requires s.running == r.running && s.finished == r.finished
    ensures var f := SweepUpTo(s, ps, i, gone);
            Consistent(Registry(f.running, f.finished, r.timerOn), SurvivingPairs(ps[..i], gone) + ps[i..])
  {
    if i == 0 {
      assert ps[..0] == [] && ps[0..] == ps;
      assert SurvivingPairs(ps[..0], gone) + ps[0..] == ps;
    } else {
      SweepConsistent(r, s, ps, gone, i - 1);
      SweepUpToStep(r, s, ps, gone, i - 1);
    }
  }

  /** After any prefix of the filter, the records kept are the survivors of that prefix. */
  lemma {:induction false} SweepKept(s: Sweeping, ps: seq<(DownloadItem, StateBits)>, gone: set<int>, i: nat)
    requires i <= |ps| && s.kept == []
    ensures SweepUpTo(s, ps, i, gone).kept == SurvivingLabels(ps[..i], gone)
  {
    if i > 0 {
      SweepKept(s, ps, gone, i - 1);
      assert ps[..i][..i - 1] == ps[..i - 1];
    }
  }

  /** After any prefix of the filter, the identity map has lost exactly the listed ids seen so far. */
  lemma {:induction false} SweepSids(s: Sweeping, ps: seq<(DownloadItem, StateBits)>, gone: set<int>, i: nat)
    requires i <= |ps|
    ensures SweepUpTo(s, ps, i, gone).sids == s.sids - (gone * IdsUpTo(ps, i))
  {
    if i == 0 {
      assert IdsUpTo(ps, 0) == {};
    } else {
      SweepSids(s, ps, gone, i - 1);
      assert IdsUpTo(ps, i) == IdsUpTo(ps, i - 1) + {ps[i - 1].0.sessionId};
    }
  }

  /** The records of a list of pairs whose id is not in `gone`. */
  function SurvivingLabels(ps: seq<(DownloadItem, StateBits)>, gone: set<int>): seq<DownloadItem>
  {
    if ps == [] then []
    else
      var n := |ps| - 1;
      SurvivingLabels(ps[..n], gone) + (if ps[n].0.sessionId in gone then [] else [ps[n].0])
  }

  lemma {:induction false} LabelsSurviving(list: seq<DownloadItem>, gone: set<int>)
    ensures SurvivingLabels(Pairs(list), gone) == Surviving(list, gone)
  {
    if list != [] {
      var n := |list| - 1;
      var ps := Pairs(list);
      LabelsSurviving(list[..n], gone);
      assert ps[..n] == Pairs(list[..n]);
    }
  }

  /** `removedItems`' filter over all the records, from the table's registry and identity map. */
  function SweepAll(r: Registry<DownloadItem>, m: map<int, DownloadItem>, list: seq<DownloadItem>, gone: set<int>): Sweeping
    reads list`state
  {
    SweepUpTo(Sweeping([], r.running, r.finished, m), Pairs(list), |list|, gone)
  }

  /** The filter keeps exactly the survivors, and a consistent registry stays consistent with them. */
  lemma RemovalAccounts(r: Registry<DownloadItem>, m: map<int, DownloadItem>, list: seq<DownloadItem>, gone: set<int>)
    requires Consistent(r, Pairs(list))
    ensures var f := SweepAll(r, m, list, gone);
            && f.kept == Surviving(list, gone)
            && Consistent(Registry(f.running, f.finished, r.timerOn), Pairs(f.kept))
  {
    var ps := Pairs(list);
    var s := Sweeping([], r.running, r.finished, m);
    SweepConsistent(r, s, ps, gone, |ps|);
    SweepKept(s, ps, gone, |ps|);
    assert ps[..|ps|] == ps && ps[|ps|..] == [];
    assert SurvivingPairs(ps, gone) + [] == SurvivingPairs(ps, gone);
    LabelsSurviving(list, gone);
    PairsSurviving(list, gone);
  }

  /**
   * The identity map loses exactly the listed ids, and one that agreed with
   * the records agrees with the survivors.
   */
  lemma RemovalSids(r: Registry<DownloadItem>, m: map<int, DownloadItem>, list: seq<DownloadItem>, gone: set<int>)
    requires SidsAgree(m, list)
    ensures var f := SweepAll(r, m, list, gone);
            f.sids == m - gone && SidsAgree(f.sids, Surviving(list, gone))
  {
    var ps := Pairs(list);
    var s := Sweeping([], r.running, r.finished, m);
    SweepSids(s, ps, gone, |ps|);
    forall sid | sid in m && sid in gone ensures sid in IdsUpTo(ps, |ps|) {
      var k :| 0 <= k < |list| && list[k].sessionId == sid;
      assert ps[k].0 == list[k];
    }
    SurvivingExact(list, gone);
    var kept := Surviving(list, gone);
    var m' := m - gone;
    forall sid | sid in m' ensures m'[sid] in kept && exists k :: 0 <= k < |kept| && kept[k].sessionId == sid {
      var k :| 0 <= k < |list| && list[k] == m[sid];
      assert list[k] in kept;
      var j :| 0 <= j < |kept| && kept[j] == list[k];
    }
    forall sid | sid !in m' ensures forall k :: 0 <= k < |kept| ==> kept[k].sessionId != sid {
      forall k | 0 <= k < |kept| ensures kept[k].sessionId != sid {
        assert kept[k] in kept;
      }
    }
  }

  /** The survivors belong to whoever owned the records. */
  lemma SurvivorsOwned(list: seq<DownloadItem>, gone: set<int>, table: DownloadTable)
    requires OwnedBy(list, table)
    ensures OwnedBy(Surviving(list, gone), table)
  {
    SurvivingExact(list, gone);
    var kept := Surviving(list, gone);
    forall k | 0 <= k < |kept| ensures kept[k].owner == table {
      assert kept[k] in kept;
      var j :| 0 <= j < |list| && list[j] == kept[k];
    }
  }

  /**
   * The session ids `updateItems` creates records for: those of the
   * snapshots whose id is neither known nor met earlier in the batch, in
   * the order they first occur.
   */
  function NewIds(list: seq<Snapshot>, known: set<int>): (r: seq<int>)
    ensures |r| <= |list|
    ensures forall x :: x in r ==> x !in known
  {
    if list == [] then []
    else
      var n := |list| - 1;
      var pre := NewIds(list[..n], known);
      pre + (if list[n].sessionId in known || list[n].sessionId in pre then [] else [list[n].sessionId])
  }

  lemma NewIdsStep(list: seq<Snapshot>, i: nat, known: set<int>)
    requires i < |list|
    ensures var pre := NewIds(list[..i], known);
            NewIds(list[..i + 1], known)
            == pre + (if list[i].sessionId in known || list[i].sessionId in pre then [] else [list[i].sessionId])
  {
    assert list[..i + 1][..i] == list[..i];
  }

  /**
   * One snapshot of `updateItems` keeps the created ids equal to `NewIds`
   * and the identity map's keys equal to the known ids with the created ones.
   */
  lemma ExtendIds(list: seq<Snapshot>, i: nat, known: set<int>, pending: seq<DownloadItem>,
                  got: seq<DownloadItem>, m0: map<int, DownloadItem>, m1: map<int, DownloadItem>)
    requires i < |list|
    requires SessionIds(pending) == NewIds(list[..i], known)
    requires m0.Keys == known + Elements(SessionIds(pending))
    requires list[i].sessionId in m0 ==> got == [] && m1 == m0
    requires list[i].sessionId !in m0 ==> |got| == 1 && got[0].sessionId == list[i].sessionId
                                          && m1 == m0[list[i].sessionId := got[0]]
    ensures SessionIds(pending + got) == NewIds(list[..i + 1], known)
    ensures m1.Keys == known + Elements(SessionIds(pending + got))
  {
    NewIdsStep(list, i, known);
    var ids := SessionIds(pending);
    assert SessionIds(pending + got) == ids + SessionIds(got);
    if list[i].sessionId !in m0 {
      assert SessionIds(got) == [list[i].sessionId];
      assert Elements(ids + [list[i].sessionId]) == Elements(ids) + {list[i].sessionId};
    } else {
      assert ids + SessionIds(got) == ids;
    }
  }

  lemma Regroup(all: seq<DownloadItem>, items: seq<DownloadItem>, pending: seq<DownloadItem>, got: seq<DownloadItem>)
    requires all == items + pending
    ensures all + got == items + (pending + got)
  {
  }

  /** A list of new objects, extended by at most one more new object, holds only new objects. */
  twostate lemma FreshGrows(new before: seq<DownloadItem>, new after: seq<DownloadItem>)
    requires forall k :: 0 <= k < |before| ==> fresh(before[k])
    requires |before| <= |after| <= |before| + 1 && forall k :: 0 <= k < |before| ==> after[k] == before[k]
    requires |after| > |before| ==> fresh(after[|before|])
    ensures forall k :: 0 <= k < |after| ==> fresh(after[k])
  {
  }

  /** The known ids with the new ones are the known ids with every id of the batch. */
  lemma NewIdsCover(list: seq<Snapshot>, known: set<int>)
    ensures NoDups(NewIds(list, known))
    ensures known + Elements(NewIds(list, known)) == known + IdsOf(list)
  {
    NewIdsExact(list, known);
    IdsOfMembers(list);
  }

  /** Each id of the batch that is not known is created once, and nothing else is. */
  lemma {:induction false} NewIdsExact(list: seq<Snapshot>, known: set<int>)
    ensures NoDups(NewIds(list, known))
    ensures forall x :: x in NewIds(list, known) <==> x !in known && exists k :: 0 <= k < |list| && list[k].sessionId == x
  {
    if list != [] {
      var n := |list| - 1;
      var pre := NewIds(list[..n], known);
      NewIdsExact(list[..n], known);
      var x := list[n].sessionId;
      if !(x in known || x in pre) {
        forall i, j | 0 <= i < j < |pre + [x]| ensures (pre + [x])[i] != (pre + [x])[j] {
          if j == |pre| { assert (pre + [x])[i] == pre[i]; }
        }
      }
      forall y ensures y in NewIds(list, known) <==> y !in known && exists k :: 0 <= k < |list| && list[k].sessionId == y {
        if exists k :: 0 <= k < n && list[k].sessionId == y {
          var k :| 0 <= k < n && list[k].sessionId == y;
          assert list[..n][k] == list[k];
        }
        if y in pre {
          var k :| 0 <= k < n && list[..n][k].sessionId == y;
          assert list[k] == list[..n][k];
        }
      }
    }
  }

  /**
   * The snapshots `updateItems` makes records from: for each id that is
   * neither known nor met earlier in the batch, the snapshot where it first occurs.
   */
  function NewSnapshots(list: seq<Snapshot>, known: set<int>): (r: seq<Snapshot>)
    ensures SnapshotIds(r) == NewIds(list, known)
  {
    if list == [] then []
    else
      var n := |list| - 1;
      var pre := NewSnapshots(list[..n], known);
      var add := if list[n].sessionId in known || list[n].sessionId in NewIds(list[..n], known) then [] else [list[n]];
      assert SnapshotIds(pre + add) == SnapshotIds(pre) + SnapshotIds(add);
      pre + add
  }

  lemma NewSnapshotsStep(list: seq<Snapshot>, i: nat, known: set<int>)
    requires i < |list|
    ensures NewSnapshots(list[..i + 1], known)
            == NewSnapshots(list[..i], known)
               + (if list[i].sessionId in known || list[i].sessionId in NewIds(list[..i], known) then [] else [list[i]])
  {
    assert list[..i + 1][..i] == list[..i];
  }

  /** No two snapshots of the batch carry the same session id. */
  ghost predicate DistinctIds(list: seq<Snapshot>) {
    list == [] || (DistinctIds(list[..|list| - 1]) && list[|list| - 1].sessionId !in IdsOf(list[..|list| - 1]))
  }

  lemma {:induction false} DistinctAt(list: seq<Snapshot>, i: nat)
    requires DistinctIds(list) && i < |list|
    ensures list[i].sessionId !in IdsOf(list[..i])
  {
    var n := |list| - 1;
    if i < n {
      DistinctAt(list[..n], i);
      assert list[..n][..i] == list[..i];
    }
  }

  /** `DistinctIds` says exactly that the batch's ids are free of duplicates. */
  lemma {:induction false} DistinctMeans(list: seq<Snapshot>)
    ensures DistinctIds(list) <==> NoDups(SnapshotIds(list))
  {
    if list != [] {
      var n := |list| - 1;
      var pre, x := SnapshotIds(list[..n]), list[n].sessionId;
      DistinctMeans(list[..n]);
      IdsOfMembers(list[..n]);
      assert SnapshotIds(list) == pre + [x];
      assert x in IdsOf(list[..n]) <==> x in pre;
      if NoDups(pre + [x]) {
        assert NoDups(pre) by {
          forall i, j | 0 <= i < j < |pre| ensures pre[i] != pre[j] {
            assert (pre + [x])[i] == pre[i] && (pre + [x])[j] == pre[j];
          }
        }
        assert (pre + [x])[|pre|] == x;
      }
      if NoDups(pre) && x !in pre {
        forall i, j | 0 <= i < j < |pre + [x]| ensures (pre + [x])[i] != (pre + [x])[j] {
          if j == |pre| { assert (pre + [x])[i] == pre[i]; }
        }
      }
    }
  }

  /** In a batch without repeated ids, no record made for an earlier snapshot carries the id of snapshot `i`. */
  lemma RepeatFree(list: seq<Snapshot>, i: nat, known: set<int>, pending: seq<DownloadItem>, x: DownloadItem)
    requires i < |list| && DistinctIds(list)
    requires SessionIds(pending) == NewIds(list[..i], known) && x.sessionId == list[i].sessionId
    ensures x !in pending
  {
    DistinctAt(list, i);
    IdsOfMembers(list[..i]);
    NewIdsExact(list[..i], known);
    assert x.sessionId !in NewIds(list[..i], known);
    forall k | 0 <= k < |pending| ensures pending[k] != x {
      assert SessionIds(pending)[k] == pending[k].sessionId;
    }
  }

  /**
   * One snapshot of `updateItems`, on values: the fields of the records made
   * so far grow by the new record's initial fields exactly when its id is new.
   */
  lemma ExtendFields(list: seq<Snapshot>, i: nat, known: set<int>, keys: set<int>, fs: seq<ItemFields>,
                     got: seq<ItemFields>, domainOf: string -> string)
    requires i < |list| && keys == known + Elements(NewIds(list[..i], known))
    requires fs == Initials(NewSnapshots(list[..i], known), domainOf)
    requires list[i].sessionId in keys ==> got == []
    requires list[i].sessionId !in keys ==> got == [Initial(list[i], domainOf)]
    ensures fs + got == Initials(NewSnapshots(list[..i + 1], known), domainOf)
  {
    NewSnapshotsStep(list, i, known);
    var pre := NewSnapshots(list[..i], known);
    if list[i].sessionId !in keys {
      assert Initials(pre + [list[i]], domainOf) == Initials(pre, domainOf) + [Initial(list[i], domainOf)];
    } else {
      assert pre + [] == pre;
    }
  }

  /**
   * The records made for the new ids of `list` hold, index by index, the
   * fields `made`, which are the initial fields of those snapshots.
   */
  ghost predicate Made(list: seq<Snapshot>, known: set<int>, pending: seq<DownloadItem>, made: seq<ItemFields>,
                       domainOf: string -> string)
    reads pending
  {
    && made == Initials(NewSnapshots(list, known), domainOf)
    && |made| == |pending|
    && forall k {:trigger made[k]} :: 0 <= k < |pending| ==> pending[k].Fields() == made[k]
  }

  /** One snapshot of `updateItems`: the records made so far with the new one hold the grown `made`. */
  lemma MadeStep(list: seq<Snapshot>, i: nat, known: set<int>, keys: set<int>, before: seq<DownloadItem>,
                 after: seq<DownloadItem>, made: seq<ItemFields>, got: seq<ItemFields>, domainOf: string -> string)
    requires i < |list| && keys == known + Elements(NewIds(list[..i], known))
    requires Made(list[..i], known, before, made, domainOf)
    requires |before| <= |after| <= |before| + 1 && forall k :: 0 <= k < |before| ==> after[k] == before[k]
    requires |after| > |before| <==> list[i].sessionId !in keys
    requires |after| > |before| ==> after[|before|].Fields() == Initial(list[i], domainOf)
    requires got == if |after| > |before| then [Initial(list[i], domainOf)] else []
    ensures Made(list[..i + 1], known, after, made + got, domainOf)
  {
    ExtendFields(list, i, known, keys, made, got, domainOf);
    forall k | 0 <= k < |after| ensures after[k].Fields() == (made + got)[k] {
      if k < |before| {
        assert after[k] == before[k];
      }
    }
  }

  /** The session ids of a list of snapshots, in order. */
  function SnapshotIds(list: seq<Snapshot>): (r: seq<int>)
    ensures |r| == |list| && forall k :: 0 <= k < |list| ==> r[k] == list[k].sessionId
  {
    seq(|list|, k requires 0 <= k < |list| => list[k].sessionId)
  }

  /** The states of a batch of snapshots, an absent one read as 0. */
  function SnapshotStates(list: seq<Snapshot>): (r: seq<StateBits>)
    ensures |r| == |list| && forall k :: 0 <= k < |list| ==> r[k] == list[k].state.GetOr(0)
  {
    seq(|list|, k requires 0 <= k < |list| => list[k].state.GetOr(0))
  }

  /** Some snapshot of the batch is RUNNING. */
  predicate AnyRunning(list: seq<Snapshot>) {
    list != [] && (AnyRunning(list[..|list| - 1]) || list[|list| - 1].state.GetOr(0) == RUNNING)
  }

  lemma RunningStep(list: seq<Snapshot>, i: nat)
    requires i < |list|
    ensures AnyRunning(list[..i + 1]) == (AnyRunning(list[..i]) || list[i].state.GetOr(0) == RUNNING)
  {
    assert list[..i + 1][..i] == list[..i];
  }

  lemma {:induction false} AnyRunningMeans(list: seq<Snapshot>)
    ensures AnyRunning(list) <==> RUNNING in SnapshotStates(list)
  {
    if list != [] {
      var n := |list| - 1;
      AnyRunningMeans(list[..n]);
      assert SnapshotStates(list) == SnapshotStates(list[..n]) + [list[n].state.GetOr(0)];
    }
  }

  /** The session ids a batch of snapshots names. */
  ghost function IdsOf(list: seq<Snapshot>): set<int> {
    if list == [] then {} else IdsOf(list[..|list| - 1]) + {list[|list| - 1].sessionId}
  }

  lemma {:induction false} IdsOfMembers(list: seq<Snapshot>)
    ensures forall x :: x in IdsOf(list) <==> exists k :: 0 <= k < |list| && list[k].sessionId == x
  {
    if list != [] {
      var n := |list| - 1;
      IdsOfMembers(list[..n]);
      forall x | x in IdsOf(list) ensures exists k :: 0 <= k < |list| && list[k].sessionId == x {
        if x != list[n].sessionId {
          assert x in IdsOf(list[..n]);
          var k :| 0 <= k < |list[..n]| && list[..n][k].sessionId == x;
          assert list[k].sessionId == x;
        }
      }
      forall x | exists k :: 0 <= k < |list| && list[k].sessionId == x ensures x in IdsOf(list) {
        var k :| 0 <= k < |list| && list[k].sessionId == x;
        if k < n {
          assert list[..n][k].sessionId == x;
        }
      }
    }
  }

  /** The records of `items` whose session id is in `ids`: those a batch naming `ids` may update. */
  ghost function Named(items: seq<DownloadItem>, ids: set<int>): set<DownloadItem> {
    set x | x in items && x.sessionId in ids
  }

  /** `after` is `before` followed by at most `n` requests for a full resync, and nothing else. */
  predicate OnlyResyncs(before: seq<Message>, after: seq<Message>, n: nat) {
    && |before| <= |after| <= |before| + n
    && after[..|before|] == before
    && forall k :: |before| <= k < |after| ==> after[k] == ResyncAll
  }

  lemma ResyncsGrow(before: seq<Message>, mid: seq<Message>, after: seq<Message>, n: nat)
    requires OnlyResyncs(before, mid, n)
    requires after == mid || after == mid + [ResyncAll]
    ensures OnlyResyncs(before, after, n + 1)
  {
    if after != mid {
      assert after[..|before|] == mid[..|before|];
    }
  }

  /** Every key of `m0` is still a key of `m1`, bound to the same value. */
  predicate MapKeeps(m0: map<int, DownloadItem>, m1: map<int, DownloadItem>) {
    forall x :: x in m0 ==> x in m1 && m1[x] == m0[x]
  }

  lemma KeepsCompose(m0: map<int, DownloadItem>, m1: map<int, DownloadItem>, m2: map<int, DownloadItem>)
    requires MapKeeps(m0, m1) && MapKeeps(m1, m2)
    ensures MapKeeps(m0, m2)
  {
  }

  lemma KeepsFresh(m: map<int, DownloadItem>, x: int, v: DownloadItem)
    requires x !in m
    ensures MapKeeps(m, m[x := v])
  {
  }

  /**
   * `setItems`'s `savedStats`: each record's sample log under its session
   * id; a later record with the same id wins, as in a `Map` built from pairs.
   */
  function SavedStats(list: seq<DownloadItem>): (r: map<int, seq<int>>)
    reads list`stats
    ensures forall sid :: sid in r <==> exists k :: 0 <= k < |list| && list[k].sessionId == sid
    ensures forall sid :: sid in r ==> exists k :: 0 <= k < |list| && list[k].sessionId == sid && list[k].stats == r[sid]
  {
    if list == [] then map[]
    else
      var n := |list| - 1;
      var pre := SavedStats(list[..n]);
      assert forall k :: 0 <= k < n ==> list[..n][k] == list[k];
      pre[list[n].sessionId := list[n].stats]
  }

  /** The saved log for a session id, if there is one. */
  function SavedFor(saved: map<int, seq<int>>, sid: int): Option<seq<int>> {
    if sid in saved then Some(saved[sid]) else None
  }

  /** The sample logs of a list of records. */
  function StatsOf(list: seq<DownloadItem>): (r: seq<seq<int>>)
    reads list`stats
    ensures |r| == |list| && forall k :: 0 <= k < |list| ==> r[k] == list[k].stats
  {
    if list == [] then []
    else
      var n := |list| - 1;
      StatsOf(list[..n]) + [list[n].stats]
  }

  /** The sample logs `setItems` hands to the records it makes from `list`. */
  function RestoredStats(saved: map<int, seq<int>>, list: seq<Snapshot>): (r: seq<seq<int>>)
    ensures |r| == |list| && forall k :: 0 <= k < |list| ==> r[k] == SavedFor(saved, list[k].sessionId).GetOr([])
  {
    seq(|list|, k requires 0 <= k < |list| => SavedFor(saved, list[k].sessionId).GetOr([]))
  }

  /** The sample logs of a list grown by one record. */
  lemma StatsAppend(list: seq<DownloadItem>, x: DownloadItem)
    ensures StatsOf(list + [x]) == StatsOf(list) + [x.stats]
  {
    assert (list + [x])[..|list|] == list;
  }

  /**
   * A record made while the registry is off by `base` in its count keeps it
   * off by exactly `base`: `setItems`'s uncleared `finished`.
   */
  lemma RecreateAccounts(t: DownloadTable, base: int, made: seq<DownloadItem>, x: DownloadItem,
                          run0: seq<DownloadItem>, fin0: int, on0: bool)
    requires Consistent(Registry(run0, fin0 - base, on0), Pairs(made))
    requires Registry(t.running, t.finished, t.timerOn) == Transition(Registry(run0, fin0, on0), x, None, x.state)
    requires x !in made
    ensures t.Counts(base, made + [x])
  {
    NotPaired(made, x);
    PairsSnoc(made, x);
    AdmitShifted(Registry(run0, fin0, on0), Registry(t.running, t.finished, t.timerOn), Pairs(made), Pairs(made + [x]),
                 x, x.state, base);
  }

  lemma NotPaired(made: seq<DownloadItem>, x: DownloadItem)
    requires x !in made
    ensures Untracked(Pairs(made), x)
  {
  }

  lemma PairsSnoc(made: seq<DownloadItem>, x: DownloadItem)
    ensures Pairs(made + [x]) == Pairs(made) + [(x, x.state)]
  {
    PairsAppend(made, [x]);
    assert Pairs([x]) == [(x, x.state)];
  }

  /** One class-side step of a recreating loop: the lists grow by one record. */
  lemma Extend(list: seq<Snapshot>, i: nat, saved: map<int, seq<int>>, made: seq<DownloadItem>, st: seq<seq<int>>, rv: DownloadItem)
    requires i < |list| && SessionIds(made) == SnapshotIds(list[..i]) && st == RestoredStats(saved, list[..i])
    requires rv.sessionId == list[i].sessionId
    ensures SessionIds(made + [rv]) == SnapshotIds(list[..i + 1])
    ensures st + [SavedFor(saved, list[i].sessionId).GetOr([])] == RestoredStats(saved, list[..i + 1])
  {
  }

  /** Each running record is listed once and belongs to its table. */
  lemma RunningOwned(t: DownloadTable)
    requires t.Valid()
    ensures NoDups(t.running) && forall r :: r in t.running ==> r.owner == t
  {
    RunningListed(t.Reg(), t.downloads.items);
  }

  /** One download record, updated in place by the background's snapshots. */
  class DownloadItem {
    const owner: DownloadTable
    const sessionId: int
    var position: Option<int>
    var state: StateBits
    var url: string
    var domain: string
    var written: int
    var totalSize: int
    var lastWritten: int
    var manId: int
    var batch: int
    var usable: string
    var error: string
    var filteredPosition: Option<nat>
    var stats: seq<int>
    var emitted: seq<ItemEvent>

    function View(): ItemView
      reads this
    {
      ItemView(sessionId, state, manId, written, totalSize, domain, batch, usable, filteredPosition)
    }

    function Tracker(): Sampler
      reads this
    {
      Sampler(state, manId, written, totalSize, lastWritten, stats)
    }

    function Fields(): ItemFields
      reads this
    {
      ItemFields(position, state, url, domain, written, totalSize, lastWritten, manId, batch, usable, error,
                 filteredPosition, emitted)
    }

    /**
     * A record made from a snapshot: the snapshot's fields are copied (an
     * absent number reads as 0, an absent text as empty), the domain is
     * derived from the url, the saved sample log is kept (a fresh one
     * otherwise), and the owner is told of the new record's state.
     */
    constructor (table: DownloadTable, raw: Snapshot, saved: Option<seq<int>>)
      modifies table`running, table`finished, table`timerOn, table`disabled
      ensures owner == table && sessionId == raw.sessionId && position == raw.position
      ensures state == raw.state.GetOr(0) && url == raw.url.GetOr([]) && domain == table.domainOf(url)
      ensures written == raw.written.GetOr(0) && totalSize == raw.totalSize.GetOr(0)
      ensures manId == raw.manId.GetOr(0) && batch == raw.batch.GetOr(0)
      ensures usable == raw.usable.GetOr([]) && error == raw.error.GetOr([])
      ensures filteredPosition == None && lastWritten == 0 && stats == saved.GetOr([])
      ensures emitted == [UrlChanged]
      ensures table.Reg() == Transition(old(table.Reg()), this, None, state)
      ensures Shows(table.disabled, Rows(table.downloads.filtered), table.selection, table.focusRow, table.masks)
    {
      owner := table;
      sessionId := raw.sessionId;
      position := raw.position;
      state := raw.state.GetOr(0);
      url := raw.url.GetOr([]);
      written := raw.written.GetOr(0);
      totalSize := raw.totalSize.GetOr(0);
      manId := raw.manId.GetOr(0);
      batch := raw.batch.GetOr(0);
      usable := raw.usable.GetOr([]);
      error := raw.error.GetOr([]);
      filteredPosition := None;
      domain := table.domainOf(raw.url.GetOr([]));
      emitted := [UrlChanged];
      stats := saved.GetOr([]);
      lastWritten := 0;
      new;
      table.UpdatedState(this, None, state);
    }

    /**
     * `updateDownload`. A snapshot whose position disagrees with the
     * record's asks the background for everything again and changes nothing
     * else; any other snapshot is applied as `ApplySnapshot` says. The
     * owner's registry keeps accounting for every list of records that
     * holds this one.
     */
    method UpdateDownload(raw: Snapshot, ghost list: seq<DownloadItem>)
      requires raw.sessionId == sessionId
      requires this in list && owner.Accounts(list)
      modifies this, owner`running, owner`finished, owner`timerOn, owner`disabled
      modifies owner.port`sent, owner.downloads`requests
      ensures owner.Accounts(list)
      ensures position == old(position)
      ensures raw.position.Some? && raw.position != old(position) ==>
                && owner.port.sent == old(owner.port.sent) + [ResyncAll]
                && unchanged(this) && owner.Reg() == old(owner.Reg()) && owner.disabled == old(owner.disabled)
                && owner.downloads.requests == old(owner.downloads.requests)
      ensures !(raw.position.Some? && raw.position != old(position)) ==>
                && owner.port.sent == old(owner.port.sent)
                && lastWritten == old(lastWritten) && filteredPosition == old(filteredPosition)
                && state == raw.state.GetOr(old(state)) && url == raw.url.GetOr(old(url))
                && written == raw.written.GetOr(old(written)) && totalSize == raw.totalSize.GetOr(old(totalSize))
                && manId == raw.manId.GetOr(old(manId)) && batch == raw.batch.GetOr(old(batch))
                && usable == raw.usable.GetOr(old(usable)) && error == raw.error.GetOr(old(error))
                && domain == (if raw.url.Some? && raw.url.value != [] then owner.domainOf(url) else old(domain))
                && stats == (if state != old(state) then [] else old(stats))
                && owner.Reg() == (if state != old(state) then Transition(old(owner.Reg()), this, Some(old(state)), state)
                                   else old(owner.Reg()))
                && owner.downloads.requests == old(owner.downloads.requests) + [Recalculated(sessionId)]
                && emitted == old(emitted) + (if raw.url.Some? && raw.url.value != [] then [UrlChanged] else [])
                                           + [Updated]
    {
      if raw.position.Some? && raw.position != position {
        owner.port.Post(ResyncAll);
        return;
      }
      ghost var k :| 0 <= k < |list| && list[k] == this;
      ghost var before := Pairs(list);
      ghost var reg := owner.Reg();
      ApplySnapshot(raw);
      ghost var after := Pairs(list);
      assert after == before[k := (this, state)] by {
        forall j | 0 <= j < |list| ensures after[j] == before[k := (this, state)][j] {
          if j != k {
            assert before[j].0 != before[k].0;
          }
        }
      }
      if state != old(state) {
        TransitionKeepsConsistent(reg, before, k, state);
        assert before[k] == (this, old(state));
      } else {
        assert after == before;
      }
    }

    /**
     * The rest of `updateDownload`: copy the snapshot; a changed state
     * clears the sample log and is reported to the owner exactly once; the
     * owner recalculates the record and listeners hear "update".
     */
    method ApplySnapshot(raw: Snapshot)
      modifies this, owner`running, owner`finished, owner`timerOn, owner`disabled, owner.downloads`requests
      ensures position == old(position) && lastWritten == old(lastWritten) && filteredPosition == old(filteredPosition)
      ensures state == raw.state.GetOr(old(state)) && url == raw.url.GetOr(old(url))
      ensures written == raw.written.GetOr(old(written)) && totalSize == raw.totalSize.GetOr(old(totalSize))
      ensures manId == raw.manId.GetOr(old(manId)) && batch == raw.batch.GetOr(old(batch))
      ensures usable == raw.usable.GetOr(old(usable)) && error == raw.error.GetOr(old(error))
      ensures domain == (if raw.url.Some? && raw.url.value != [] then owner.domainOf(url) else old(domain))
      ensures stats == (if state != old(state) then [] else old(stats))
      ensures owner.Reg() == (if state != old(state) then Transition(old(owner.Reg()), this, Some(old(state)), state)
                              else old(owner.Reg()))
      ensures owner.downloads.requests == old(owner.downloads.requests) + [Recalculated(sessionId)]
      ensures emitted == old(emitted) + (if raw.url.Some? && raw.url.value != [] then [UrlChanged] else [])
                                      + [Updated]
    {
      var oldState := state;
      Assign(raw);
      ReportState(oldState);
      owner.UpdatedDownload(this);
      emitted := emitted + [Updated];
    }

    /** A state that differs from `oldState` clears the sample log and is reported to the owner. */
    method ReportState(oldState: StateBits)
      modifies this`stats, owner`running, owner`finished, owner`timerOn, owner`disabled
      ensures stats == (if state != oldState then [] else old(stats))
      ensures owner.Reg() == (if state != oldState then Transition(old(owner.Reg()), this, Some(oldState), state)
                              else old(owner.Reg()))
    {
      if state != oldState {
        stats := [];
        owner.UpdatedState(this, Some(oldState), state);
      }
    }

    /** Copies the snapshot's fields and re-derives the domain from a new url. */
    method Assign(raw: Snapshot)
      modifies this`state, this`url, this`written, this`totalSize, this`manId, this`batch
      modifies this`usable, this`error, this`domain, this`emitted
      ensures state == raw.state.GetOr(old(state)) && url == raw.url.GetOr(old(url))
      ensures written == raw.written.GetOr(old(written)) && totalSize == raw.totalSize.GetOr(old(totalSize))
      ensures manId == raw.manId.GetOr(old(manId)) && batch == raw.batch.GetOr(old(batch))
      ensures usable == raw.usable.GetOr(old(usable)) && error == raw.error.GetOr(old(error))
      ensures domain == (if raw.url.Some? && raw.url.value != [] then owner.domainOf(url) else old(domain))
      ensures emitted == old(emitted) + (if raw.url.Some? && raw.url.value != [] then [UrlChanged] else [])
    {
      state := raw.state.GetOr(state);
      url := raw.url.GetOr(url);
      written := raw.written.GetOr(written);
      totalSize := raw.totalSize.GetOr(totalSize);
      manId := raw.manId.GetOr(manId);
      batch := raw.batch.GetOr(batch);
      usable := raw.usable.GetOr(usable);
      error := raw.error.GetOr(error);
      if raw.url.Some? && raw.url.value != [] {
        domain := owner.domainOf(url);
        emitted := emitted + [UrlChanged];
      }
    }

    /** `adoptSize`: take the sizes a `downloads.search` report gives, clamped as `AdoptedSize` says. */
    method AdoptSize(rep: SizeReport)
      modifies this`written, this`totalSize
      ensures Sizes(written, totalSize) == AdoptedSize(rep)
    {
      written := Max0(rep.bytesReceived);
      totalSize := Max0(if rep.fileSize >= 0 then rep.fileSize else rep.totalBytes);
    }

    /**
     * `updateStats`, with the settled outcome of the `downloads.search` it
     * awaits. The record's sampling state moves as `Sample` says, the value
     * returned is the tick's, and listeners hear "stats" exactly when a
     * sample was added.
     */
    method UpdateStats(outcome: SearchOutcome) returns (v: real)
      modifies this`written, this`totalSize, this`lastWritten, this`stats, this`emitted
      ensures Tracker() == Sample(old(Tracker()), outcome, owner.avgOf).after
      ensures v == Sample(old(Tracker()), outcome, owner.avgOf).value
      ensures emitted == old(emitted) + (if Sample(old(Tracker()), outcome, owner.avgOf).sampled then [StatsSampled] else [])
    {
      if state != RUNNING {
        return -1.0;
      }
      var delta := 0;
      if manId != 0 && outcome.Found? {
        AdoptSize(outcome.report);
        if lastWritten == 0 {
          lastWritten := Max0(written);
          return -1.0;
        }
        delta := Max0(written - lastWritten);
        lastWritten := Max0(written);
      }
      stats := stats + [delta];
      emitted := emitted + [StatsSampled];
      v := owner.avgOf(stats);
    }
  }

  /** The download list and its bookkeeping. */
  class DownloadTable {
    var running: seq<DownloadItem>
    var finished: int
    var timerOn: bool
    var globalStats: seq<real>
    var sids: map<int, DownloadItem>
    var selection: seq<int>
    var focusRow: int
    var disabled: map<Action, bool>
    const downloads: Collection
    const port: Port
    const masks: Masks
    const domainOf: string -> string
    const avgOf: seq<int> -> real

    /** The running set, the finished count and the timer flag, as one value. */
    function Reg(): Registry<DownloadItem>
      reads this`running, this`finished, this`timerOn
    {
      Registry(running, finished, timerOn)
    }

    /** The registry with `base` taken off the finished count. */
    function Shifted(base: int): Registry<DownloadItem>
      reads this`running, this`finished, this`timerOn
    {
      Registry(running, finished - base, timerOn)
    }

    /** The registry, with `base` taken off its count, accounts for exactly the records of `list`. */
    ghost predicate Counts(base: int, list: seq<DownloadItem>)
      reads this`running, this`finished, this`timerOn, list`state
    {
      Consistent(Shifted(base), Pairs(list))
    }

    /** The registry accounts for exactly the records of `list`. */
    ghost predicate Accounts(list: seq<DownloadItem>)
      reads this`running, this`finished, this`timerOn, list`state
    {
      Consistent(Reg(), Pairs(list))
    }

    /**
     * The table's invariant: the registry accounts for the collection's
     * records, the identity map agrees with them and they all belong here.
     */
    ghost predicate Valid()
      reads this`running, this`finished, this`timerOn, this`sids, downloads`items, downloads.items`state
    {
      Tracks(downloads.items)
    }

    /** The bookkeeping covers exactly the records of `list`, all of which belong here. */
    ghost predicate Tracks(list: seq<DownloadItem>)
      reads this`running, this`finished, this`timerOn, this`sids, list`state
    {
      && Accounts(list)
      && SidsAgree(sids, list)
      && OwnedBy(list, this)
    }

    /** An empty list whose actions are all disabled. */
    constructor (port: Port, masks: Masks, domainOf: string -> string, avgOf: seq<int> -> real)
      ensures this.port == port && this.masks == masks && this.domainOf == domainOf && this.avgOf == avgOf
      ensures fresh(downloads) && downloads.items == [] && downloads.filtered == [] && downloads.requests == []
      ensures running == [] && finished == 0 && !timerOn && globalStats == [] && sids == map[]
      ensures selection == [] && forall a :: a in disabled && disabled[a]
      ensures Valid()
    {
      running, finished, timerOn, globalStats, sids := [], 0, false, [], map[];
      selection, focusRow, disabled := [], -1, map[];
      downloads := new Collection();
      this.port := port;
      this.masks := masks;
      this.domainOf := domainOf;
      this.avgOf := avgOf;
      new;
      SelectionChanged();
    }

    /**
     * `updatedState`: the registry takes the transition `Transition`
     * describes, and the enabled actions are recomputed.
     */
    method UpdatedState(item: DownloadItem, previous: Option<StateBits>, current: StateBits)
      modifies this`running, this`finished, this`timerOn, this`disabled
      ensures Reg() == Transition(old(Reg()), item, previous, current)
      ensures Shows(disabled, Rows(downloads.filtered), selection, focusRow, masks)
    {
      if previous == Some(RUNNING) {
        running := Without(running, item);
        if running == [] && timerOn {
          timerOn := false;
        }
      } else if previous == Some(DONE) {
        finished := finished - 1;
      }
      if current == RUNNING {
        running := With(running, item);
        if !timerOn {
          timerOn := true;
        }
      } else if current == DONE {
        finished := finished + 1;
      }
      SelectionChanged();
    }

    /**
     * `selectionChanged`: an empty selection disables every action;
     * otherwise each action is enabled and then disabled again as
     * `IsDisabled` says.
     */
    method SelectionChanged()
      modifies this`disabled
      ensures Shows(disabled, Rows(downloads.filtered), selection, focusRow, masks)
    {
      if selection == [] {
        SetAll(true);
        return;
      }
      SetAll(false);
      var rows := Rows(downloads.filtered);
      var states := OrStates(SelectedRows(rows, selection));
      var item := Focused(rows, focusRow);
      DisableIneligible(states, item);
      ShowsSelected(disabled, rows, selection, focusRow, masks);
    }

    /**
     * The second half of `selectionChanged`, with every broadcaster enabled:
     * disable the bulk actions whose mask misses `states`, the OR of the
     * selected states, and set the open actions from the focused record.
     */
    method DisableIneligible(states: StateBits, item: Option<ItemView>)
      requires forall a: Action :: a in disabled && !disabled[a]
      modifies this`disabled
      ensures forall a: Action :: a in disabled && disabled[a] == ActionDisabled(states, item, masks, a)
    {
      var d := disabled;
      if !Meets(states, masks.pausable) {
        d := d[Pause := true];
      }
      if !Meets(states, masks.resumable) {
        d := d[Resume := true];
      }
      if !Meets(states, masks.forcable) {
        d := d[Force := true];
      }
      if !Meets(states, masks.cancelable) {
        d := d[Cancel := true];
      }
      d := d[Action.OpenFile := !CanOpenFile(item)];
      d := d[Action.OpenDirectory := !CanOpenDirectory(item)];
      FlagsFollow(d, states, item, masks);
      disabled := d;
    }

    /** Sets every broadcaster of `disableSet` to `flag`, one after the other. */
    method SetAll(flag: bool)
      modifies this`disabled
      ensures forall a: Action :: a in disabled && disabled[a] == flag
    {
      for i := 0 to |DisableSet|
        invariant forall k :: 0 <= k < i ==> DisableSet[k] in disabled && disabled[DisableSet[k]] == flag
      {
        disabled := disabled[DisableSet[i] := flag];
      }
      DisableSetCoversAll();
      forall a: Action ensures a in disabled && disabled[a] == flag {
        var k :| 0 <= k < |DisableSet| && DisableSet[k] == a;
      }
    }

    /**
     * `getSelectedSids(allowed)`: in selection order, the session ids of the
     * selected rows whose record's state meets `allowed`.
     */
    function SelectedSids(allowed: StateBits): (r: seq<int>)
      reads this, downloads, downloads.filtered
      ensures |r| <= |selection|
      ensures forall x :: x in r <==>
                exists k :: && 0 <= k < |selection| && 0 <= selection[k] < |downloads.filtered|
                            && Meets(downloads.filtered[selection[k]].state, allowed)
                            && downloads.filtered[selection[k]].sessionId == x
    {
      var rows := Rows(downloads.filtered);
      forall x { SelectedSidsExact(rows, selection, allowed, x); }
      SidsAllowed(SelectedRows(rows, selection), allowed)
    }

    /** The session ids of the selected rows, in selection order, as `removeDownloadsInternal` collects them. */
    function SelectionSids(): (r: seq<int>)
      reads this, downloads, downloads.filtered
      ensures |r| <= |selection|
      ensures forall x :: x in r <==>
                exists k :: && 0 <= k < |selection| && 0 <= selection[k] < |downloads.filtered|
                            && downloads.filtered[selection[k]].sessionId == x
    {
      var rows := Rows(downloads.filtered);
      forall x { SelectionIdsExact(rows, selection, x); }
      RowIds(SelectedRows(rows, selection))
    }

    /**
     * With the flags `selectionChanged` sets, resume, pause and cancel are
     * enabled exactly when invoking them would post something.
     */
    lemma EnabledExactlyWhenPosting()
      requires Shows(disabled, Rows(downloads.filtered), selection, focusRow, masks)
      ensures !disabled[Resume] <==> SelectedSids(masks.resumable) != []
      ensures !disabled[Pause] <==> SelectedSids(masks.pausable) != []
      ensures !disabled[Cancel] <==> SelectedSids(masks.cancelable) != []
    {
      var rows := Rows(downloads.filtered);
      EnabledExactlyWhenSomethingToPost(rows, selection, focusRow, masks, Resume);
      EnabledExactlyWhenSomethingToPost(rows, selection, focusRow, masks, Pause);
      EnabledExactlyWhenSomethingToPost(rows, selection, focusRow, masks, Cancel);
    }

    /** `resumeDownloads(forced)`: the resumable selected records, posted unless there are none. */
    method ResumeDownloads(forced: bool)
      modifies port`sent
      ensures var sids := SelectedSids(masks.resumable);
              port.sent == old(port.sent) + (if sids == [] then [] else [ResumeSids(sids, forced)])
    {
      var sids := SelectedSids(masks.resumable);
      if sids == [] {
        return;
      }
      port.Post(ResumeSids(sids, forced));
    }

    /** `pauseDownloads`: the pausable selected records, posted unless there are none. */
    method PauseDownloads()
      modifies port`sent
      ensures var sids := SelectedSids(masks.pausable);
              port.sent == old(port.sent) + (if sids == [] then [] else [PauseSids(sids)])
    {
      var sids := SelectedSids(masks.pausable);
      if sids == [] {
        return;
      }
      port.Post(PauseSids(sids));
    }

    /** `cancelDownloads`: the cancelable selected records, posted unless there are none. */
    method CancelDownloads()
      modifies port`sent
      ensures var sids := SelectedSids(masks.cancelable);
              port.sent == old(port.sent) + (if sids == [] then [] else [CancelSids(sids)])
    {
      var sids := SelectedSids(masks.cancelable);
      if sids == [] {
        return;
      }
      port.Post(CancelSids(sids));
    }

    /**
     * `openFile`, with whether `downloads.open` succeeded (`succeeded`): only a focused
     * record in the view that has a manager id and is DONE is opened, and a
     * failure reports it as missing.
     */
    method OpenFile(succeeded: bool)
      modifies port`sent
      ensures var f := Focused(Rows(downloads.filtered), focusRow);
              port.sent == old(port.sent) + (if CanOpenFile(f) && !succeeded then [MissingSid(f.value.sessionId)] else [])
    {
      if focusRow < 0 || focusRow >= |downloads.filtered| {
        return;
      }
      var item := downloads.filtered[focusRow];
      if item.manId == 0 || item.state != DONE {
        return;
      }
      if !succeeded {
        port.Post(MissingSid(item.sessionId));
      }
    }

    /**
     * `openDirectory`, with whether `downloads.show` succeeded: only a
     * focused record in the view that has a manager id is shown, and a
     * failure reports it as missing.
     */
    method OpenDirectory(shown: bool)
      modifies port`sent
      ensures var f := Focused(Rows(downloads.filtered), focusRow);
              port.sent == old(port.sent) + (if CanOpenDirectory(f) && !shown then [MissingSid(f.value.sessionId)] else [])
    {
      if focusRow < 0 || focusRow >= |downloads.filtered| {
        return;
      }
      var item := downloads.filtered[focusRow];
      if item.manId == 0 {
        return;
      }
      if !shown {
        port.Post(MissingSid(item.sessionId));
      }
    }

    /**
     * `removeDownloadsInternal(sids)`: without a list, the selected records;
     * a non-empty list is posted for removal, an empty one is dropped.
     */
    method RemoveDownloadsInternal(sids: Option<seq<int>>)
      modifies port`sent
      ensures var s := if sids.Some? then sids.value else SelectionSids();
              port.sent == old(port.sent) + (if s == [] then [] else [RemoveSids(s)])
    {
      var s := if sids.Some? then sids.value else SelectionSids();
      if s == [] {
        return;
      }
      port.Post(RemoveSids(s));
    }

    /** `removeDownloadsByState(state, selectionOnly)`: the records in exactly that state, if any. */
    method RemoveDownloadsByState(state: StateBits, selectionOnly: bool)
      modifies port`sent
      ensures var s := ByState(Rows(downloads.items), Positioned(Rows(downloads.filtered)), selection, state, selectionOnly);
              port.sent == old(port.sent) + (if s == [] then [] else [RemoveSids(s)])
    {
      var s := ByState(Rows(downloads.items), Positioned(Rows(downloads.filtered)), selection, state, selectionOnly);
      if s == [] {
        return;
      }
      RemoveDownloadsInternal(Some(s));
    }

    /**
     * `removeDomainDownloads(complete)`, with whether the user confirmed the
     * dialog: nothing without a focused record in the view; then the
     * records of its domain (only the DONE ones when `complete`), if any.
     */
    method RemoveDomainDownloads(complete: bool, confirmed: bool)
      modifies port`sent
      ensures var f := Focused(Rows(downloads.filtered), focusRow);
              var s := if f.Some? then ByDomain(Rows(downloads.items), f.value.domain, complete) else [];
              port.sent == old(port.sent) + (if f.None? || !confirmed || s == [] then [] else [RemoveSids(s)])
    {
      var f := Focused(Rows(downloads.filtered), focusRow);
      if f.None? || !confirmed {
        return;
      }
      var s := ByDomain(Rows(downloads.items), f.value.domain, complete);
      if s == [] {
        return;
      }
      RemoveDownloadsInternal(Some(s));
    }

    /**
     * `removeBatchDownloads(complete)`, with whether the user confirmed the
     * dialog: nothing without a focused record in the view; then the
     * records of its batch (only the DONE ones when `complete`), if any.
     */
    method RemoveBatchDownloads(complete: bool, confirmed: bool)
      modifies port`sent
      ensures var f := Focused(Rows(downloads.filtered), focusRow);
              var s := if f.Some? then ByBatch(Rows(downloads.items), f.value.batch, complete) else [];
              port.sent == old(port.sent) + (if f.None? || !confirmed || s == [] then [] else [RemoveSids(s)])
    {
      var f := Focused(Rows(downloads.filtered), focusRow);
      if f.None? || !confirmed {
        return;
      }
      var s := ByBatch(Rows(downloads.items), f.value.batch, complete);
      if s == [] {
        return;
      }
      RemoveDownloadsInternal(Some(s));
    }

    /**
     * `handleFilterRemove(event)`, with the filter registry and whether the
     * user confirmed the dialog: an entry that parses and names a known
     * filter removes the records the filter matches (only the DONE ones for
     * the "complete" entries), if any.
     */
    method HandleFilterRemove(event: string, filters: map<string, Filter>, confirmed: bool)
      modifies port`sent
      ensures var p := ParseFilterEvent(event);
              var ok := p.Some? && p.value.filterId in filters && confirmed;
              var s := if ok then ByFilter(Rows(downloads.items), filters[p.value.filterId], p.value.all) else [];
              port.sent == old(port.sent) + (if !ok || s == [] then [] else [RemoveSids(s)])
    {
      var p := ParseFilterEvent(event);
      if p.None? || p.value.filterId !in filters || !confirmed {
        return;
      }
      var s := ByFilter(Rows(downloads.items), filters[p.value.filterId], p.value.all);
      if s == [] {
        return;
      }
      RemoveDownloadsInternal(Some(s));
    }

    /**
     * `updateItems`: a snapshot whose id the identity map does not know
     * makes a new record, entered in the map at once; any other updates the
     * record it names. The new records, one per new id in order of first
     * occurrence, are then added to the collection, even when there are none.
     */
    method UpdateItems(list: seq<Snapshot>, view: seq<int>) returns (ghost added: seq<DownloadItem>)
      requires Valid()
      modifies this`running, this`finished, this`timerOn, this`disabled, this`sids
      modifies port`sent, downloads, Named(downloads.items, IdsOf(list))
      ensures Valid()
      ensures downloads.items == old(downloads.items) + added
      ensures SessionIds(added) == NewIds(list, old(sids).Keys)
      ensures forall k :: 0 <= k < |added| ==> fresh(added[k])
      ensures sids.Keys == old(sids).Keys + IdsOf(list)
      ensures forall x :: x in old(sids) ==> sids[x] == old(sids)[x]
      ensures OnlyResyncs(old(port.sent), port.sent, |list|)
      ensures |downloads.requests| > 0 && downloads.requests[|downloads.requests| - 1] == Appended(|added|)
      ensures downloads.filtered == Project(downloads.items, view)
      ensures DistinctIds(list) ==> FieldsOf(added) == Initials(NewSnapshots(list, old(sids).Keys), domainOf)
    {
      ghost var known, items := sids.Keys, downloads.items;
      var pending;
      ghost var made;
      pending, made := ReceiveAll(list, items);
      NewIdsCover(list, known);
      ghost var held := if DistinctIds(list) then made else FieldsOf(pending);
      Publish(pending, view, items, held);
      assert FieldsOf(pending) == held;
      added := pending;
    }

    /** The loop of `updateItems`: every snapshot in order, collecting the new records. */
    method ReceiveAll(list: seq<Snapshot>, ghost items: seq<DownloadItem>)
      returns (pending: seq<DownloadItem>, ghost made: seq<ItemFields>)
      requires downloads.items == items && Tracks(items)
      modifies this`running, this`finished, this`timerOn, this`disabled, this`sids
      modifies port`sent, downloads`requests, Named(items, IdsOf(list))
      ensures downloads.items == items && Tracks(items + pending)
      ensures forall k :: 0 <= k < |pending| ==> fresh(pending[k])
      ensures SessionIds(pending) == NewIds(list, old(sids).Keys)
      ensures sids.Keys == old(sids).Keys + Elements(SessionIds(pending))
      ensures MapKeeps(old(sids), sids)
      ensures OnlyResyncs(old(port.sent), port.sent, |list|)
      ensures DistinctIds(list) ==> Made(list, old(sids).Keys, pending, made, domainOf)
    {
      pending, made := [], [];
      ghost var known, m0, p0 := sids.Keys, sids, port.sent;
      assert list[..0] == [] && items + pending == items;
      var i := 0;
      while i < |list|
        invariant i <= |list|
        invariant downloads.items == items
        invariant Tracks(items + pending)
        invariant forall k :: 0 <= k < |pending| ==> fresh(pending[k])
        invariant SessionIds(pending) == NewIds(list[..i], known)
        invariant sids.Keys == known + Elements(SessionIds(pending))
        invariant MapKeeps(m0, sids) && OnlyResyncs(p0, port.sent, i)
        invariant DistinctIds(list) ==> Made(list[..i], known, pending, made, domainOf)
      {
        ghost var before := pending;
        pending, made := ReceiveStep(list, i, known, items, pending, m0, p0, made);
        FreshGrows(before, pending);
        i := i + 1;
      }
      assert list[..|list|] == list;
    }

    /**
     * `Receive` on snapshot `i`, carrying along the fields of the records
     * made so far: when the batch repeats no id, they are the initial fields
     * of its snapshots with a new id.
     */
    method ReceiveStep(list: seq<Snapshot>, i: nat, ghost known: set<int>, ghost items: seq<DownloadItem>,
                       pending: seq<DownloadItem>, ghost m0: map<int, DownloadItem>, ghost p0: seq<Message>,
                       ghost made: seq<ItemFields>)
      returns (pending': seq<DownloadItem>, ghost made': seq<ItemFields>)
      requires i < |list| && Tracks(items + pending)
      requires SessionIds(pending) == NewIds(list[..i], known)
      requires sids.Keys == known + Elements(SessionIds(pending))
      requires MapKeeps(m0, sids) && OnlyResyncs(p0, port.sent, i)
      requires DistinctIds(list) ==> Made(list[..i], known, pending, made, domainOf)
      modifies this`running, this`finished, this`timerOn, this`disabled, this`sids
      modifies port`sent, downloads`requests, Named(items, IdsOf(list)) + Elements(pending)
      ensures downloads.items == old(downloads.items)
      ensures Tracks(items + pending')
      ensures |pending| <= |pending'| <= |pending| + 1 && forall k :: 0 <= k < |pending| ==> pending'[k] == pending[k]
      ensures |pending'| > |pending| ==> fresh(pending'[|pending|])
      ensures SessionIds(pending') == NewIds(list[..i + 1], known)
      ensures sids.Keys == known + Elements(SessionIds(pending'))
      ensures MapKeeps(m0, sids) && OnlyResyncs(p0, port.sent, i + 1)
      ensures DistinctIds(list) ==> Made(list[..i + 1], known, pending', made', domainOf)
    {
      ghost var keys := sids.Keys;
      ghost var others := if DistinctIds(list) then pending else [];
      IdsOfMembers(list);
      assert list[i].sessionId in IdsOf(list);
      pending' := Receive(list, i, known, items, pending, m0, p0, others, made);
      ghost var got := if |pending'| > |pending| then [Initial(list[i], domainOf)] else [];
      if DistinctIds(list) {
        MadeStep(list, i, known, keys, pending, pending', made, got, domainOf);
      }
      made' := made + got;
    }

    /** `downloads.add`: the new records join the collection, which the bookkeeping already covers. */
    method Publish(pending: seq<DownloadItem>, view: seq<int>, ghost items: seq<DownloadItem>, ghost made: seq<ItemFields>)
      requires downloads.items == items && Tracks(items + pending)
      requires |made| == |pending| && forall k {:trigger made[k]} :: 0 <= k < |pending| ==> pending[k].Fields() == made[k]
      modifies downloads`items, downloads`filtered, downloads`requests
      ensures Valid() && downloads.items == items + pending
      ensures sids == old(sids) && port.sent == old(port.sent)
      ensures downloads.requests == old(downloads.requests) + [Appended(|pending|)]
      ensures downloads.filtered == Project(downloads.items, view)
      ensures forall k {:trigger made[k]} :: 0 <= k < |pending| ==> pending[k].Fields() == made[k]
    {
      ghost var all := items + pending;
      ghost var m, r, pairs := sids, Reg(), Pairs(all);
      downloads.Add(pending, view);
      assert sids == m && Reg() == r && Pairs(all) == pairs;
      assert Tracks(all);
      assert downloads.items == all;
    }

    /**
     * One snapshot of `updateItems`: one with an unknown id becomes a new
     * record, appended to `pending`; any other updates the record it names.
     */
    method Receive(list: seq<Snapshot>, i: nat, ghost known: set<int>, ghost items: seq<DownloadItem>,
                   pending: seq<DownloadItem>, ghost m0: map<int, DownloadItem>, ghost p0: seq<Message>,
                   ghost others: seq<DownloadItem>, ghost made: seq<ItemFields>)
      returns (pending': seq<DownloadItem>)
      requires i < |list| && Tracks(items + pending)
      requires SessionIds(pending) == NewIds(list[..i], known)
      requires sids.Keys == known + Elements(SessionIds(pending))
      requires others == [] || (DistinctIds(list) && others == pending)
      requires |others| <= |made| && forall k {:trigger made[k]} :: 0 <= k < |others| ==> others[k].Fields() == made[k]
      requires MapKeeps(m0, sids) && OnlyResyncs(p0, port.sent, i)
      modifies this`running, this`finished, this`timerOn, this`disabled, this`sids
      modifies port`sent, downloads`requests, if list[i].sessionId in sids then {sids[list[i].sessionId]} else {}
      ensures downloads.items == old(downloads.items)
      ensures Tracks(items + pending')
      ensures |pending| <= |pending'| <= |pending| + 1 && forall k :: 0 <= k < |pending| ==> pending'[k] == pending[k]
      ensures |pending'| > |pending| ==> fresh(pending'[|pending|])
      ensures SessionIds(pending') == NewIds(list[..i + 1], known)
      ensures sids.Keys == known + Elements(SessionIds(pending'))
      ensures MapKeeps(m0, sids) && OnlyResyncs(p0, port.sent, i + 1)
      ensures |pending'| > |pending| <==> list[i].sessionId !in old(sids)
      ensures |pending'| > |pending| ==> pending'[|pending|].Fields() == Initial(list[i], domainOf)
      ensures forall k {:trigger made[k]} :: 0 <= k < |others| ==> others[k].Fields() == made[k]
    {
      var raw := list[i];
      ghost var all := items + pending;
      ghost var m1, sent := sids, port.sent;
      var got: seq<DownloadItem>;
      if raw.sessionId !in sids {
        var rv := Admit(raw, all, others, made);
        got := [rv];
        KeepsFresh(m1, raw.sessionId, rv);
        assert port.sent == sent;
      } else {
        assert all + [] == all;
        if others != [] {
          RepeatFree(list, i, known, pending, sids[raw.sessionId]);
        }
        Refresh(raw, all, others, made);
        got := [];
      }
      ExtendIds(list, i, known, pending, got, m1, sids);
      Regroup(all, items, pending, got);
      ResyncsGrow(p0, sent, port.sent, i);
      KeepsCompose(m0, m1, sids);
      pending' := pending + got;
    }

    /** A snapshot whose id is known updates that record and no other; the bookkeeping still covers `list`. */
    method Refresh(raw: Snapshot, ghost list: seq<DownloadItem>, ghost others: seq<DownloadItem>,
                   ghost made: seq<ItemFields>)
      requires Tracks(list) && raw.sessionId in sids
      requires forall k :: 0 <= k < |others| ==> others[k] != sids[raw.sessionId]
      requires |others| <= |made| && forall k {:trigger made[k]} :: 0 <= k < |others| ==> others[k].Fields() == made[k]
      modifies this`running, this`finished, this`timerOn, this`disabled, port`sent, downloads`requests, sids[raw.sessionId]
      ensures Tracks(list) && sids == old(sids) && downloads.items == old(downloads.items)
      ensures port.sent == old(port.sent) || port.sent == old(port.sent) + [ResyncAll]
      ensures forall k :: 0 <= k < |others| ==> unchanged(others[k])
      ensures forall k {:trigger made[k]} :: 0 <= k < |others| ==> others[k].Fields() == made[k]
    {
      var item := sids[raw.sessionId];
      ghost var k :| 0 <= k < |list| && list[k] == item;
      assert item.owner == this;
      ghost var d := downloads;
      item.UpdateDownload(raw, list);
      assert d == downloads && downloads.items == old(downloads.items);
    }

    /**
     * A record for a snapshot whose id is unknown: made, entered in the
     * identity map and accounted for after the records of `list`.
     */
    method Admit(raw: Snapshot, ghost list: seq<DownloadItem>, ghost others: seq<DownloadItem>,
                 ghost made: seq<ItemFields>) returns (rv: DownloadItem)
      requires Tracks(list) && raw.sessionId !in sids
      requires |others| <= |made| && forall k {:trigger made[k]} :: 0 <= k < |others| ==> others[k].Fields() == made[k]
      modifies this`running, this`finished, this`timerOn, this`disabled, this`sids
      ensures fresh(rv) && rv.sessionId == raw.sessionId && rv.Fields() == Initial(raw, domainOf)
      ensures sids == old(sids)[raw.sessionId := rv] && downloads.items == old(downloads.items)
      ensures Tracks(list + [rv])
      ensures forall k :: 0 <= k < |others| ==> unchanged(others[k])
      ensures forall k {:trigger made[k]} :: 0 <= k < |others| ==> others[k].Fields() == made[k]
    {
      ghost var r0 := Reg();
      ghost var ps := Pairs(list);
      rv := new DownloadItem(this, raw, None);
      assert rv.Fields() == Initial(raw, domainOf);
      ghost var r1 := Transition(r0, rv, None, rv.state);
      assert Reg() == r1;
      AgreeAppend(sids, list, rv);
      sids := sids[rv.sessionId := rv];
      assert Reg() == r1 && Pairs(list) == ps;
      assert forall k :: 0 <= k < |ps| ==> ps[k].0 != rv;
      AdmitKeepsConsistent(r0, ps, rv, rv.state);
      PairsAppend(list, [rv]);
      assert Pairs(list + [rv]) == ps + [(rv, rv.state)];
      OwnedAppend(list, rv, this);
    }

    /**
     * `updateRunning`, with the settled outcome of each running record's
     * search: every running record takes one sampling tick, in the running
     * set's order, and the global log gains the total of the values that are
     * not negative.
     */
    method UpdateRunning(outcomes: seq<SearchOutcome>)
      requires Valid() && |outcomes| == |running|
      modifies running`written, running`totalSize, running`lastWritten, running`stats, running`emitted
      modifies this`globalStats
      ensures Trackers(running) == AftersOf(TickAll(old(Trackers(running)), outcomes, avgOf))
      ensures globalStats == old(globalStats) + [Total(ValuesOf(TickAll(old(Trackers(running)), outcomes, avgOf)))]
    {
      RunningOwned(this);
      var sum := SampleRunning(outcomes);
      AppendGlobal(sum);
    }

    /** `globalStats.add(sum)`. */
    method AppendGlobal(sum: real)
      modifies this`globalStats
      ensures globalStats == old(globalStats) + [sum]
      ensures Trackers(running) == old(Trackers(running))
    {
      globalStats := globalStats + [sum];
    }

    /** The loop of `updateRunning`: one tick per running record, summing the values that are not negative. */
    method SampleRunning(outcomes: seq<SearchOutcome>) returns (sum: real)
      requires |outcomes| == |running| && NoDups(running)
      requires forall r :: r in running ==> r.owner == this
      modifies running`written, running`totalSize, running`lastWritten, running`stats, running`emitted
      ensures Trackers(running) == AftersOf(TickAll(old(Trackers(running)), outcomes, avgOf))
      ensures sum == Total(ValuesOf(TickAll(old(Trackers(running)), outcomes, avgOf)))
    {
      ghost var before := Trackers(running);
      ghost var ticks := TickAll(before, outcomes, avgOf);
      ghost var got: seq<real> := [];
      sum := 0.0;
      for i := 0 to |running|
        invariant forall k :: 0 <= k < i ==> running[k].Tracker() == ticks[k].after
        invariant forall k :: i <= k < |running| ==> running[k].Tracker() == before[k]
        invariant |got| == i && forall k :: 0 <= k < i ==> got[k] == ticks[k].value
        invariant sum == Total(got)
      {
        got, sum := SampleOne(running[i], i, outcomes, before, ticks, got, sum);
      }
      assert got == ValuesOf(ticks);
      assert Trackers(running) == AftersOf(ticks);
    }

    /** One tick of `updateRunning`'s loop: the record at `i` samples, the others keep their state. */
    method SampleOne(r: DownloadItem, i: nat, outcomes: seq<SearchOutcome>, ghost before: seq<Sampler>, ghost ticks: seq<Tick>,
                     ghost got: seq<real>, sum: real) returns (ghost got': seq<real>, sum': real)
      requires i < |running| == |outcomes| == |before| && NoDups(running) && running[i] == r
      requires forall r :: r in running ==> r.owner == this
      requires ticks == TickAll(before, outcomes, avgOf)
      requires forall k :: 0 <= k < i ==> running[k].Tracker() == ticks[k].after
      requires forall k :: i <= k < |running| ==> running[k].Tracker() == before[k]
      requires |got| == i && forall k :: 0 <= k < i ==> got[k] == ticks[k].value
      requires sum == Total(got)
      modifies r`written, r`totalSize, r`lastWritten, r`stats, r`emitted
      ensures forall k :: 0 <= k < i + 1 ==> running[k].Tracker() == ticks[k].after
      ensures forall k :: i + 1 <= k < |running| ==> running[k].Tracker() == before[k]
      ensures |got'| == i + 1 && forall k :: 0 <= k < i + 1 ==> got'[k] == ticks[k].value
      ensures sum' == Total(got')
    {
      assert r in running;
      assert forall k :: 0 <= k < |running| && k != i ==> running[k] != r;
      var v := r.UpdateStats(outcomes[i]);
      TotalAppend(got, v);
      got' := got + [v];
      sum' := if v >= 0.0 then sum + v else sum;
    }

    /**
     * `removedItems`: the records whose session id is listed leave the
     * collection, the running set, the identity map and (when DONE) the
     * finished count; the rest stay in order. The timer is left as it was,
     * even when the running set becomes empty.
     */
    method RemovedItems(removed: seq<int>, view: seq<int>)
      requires Valid()
      modifies this`running, this`finished, this`sids, downloads
      ensures downloads.items == Surviving(old(downloads.items), set sid | sid in removed)
      ensures downloads.filtered == Project(downloads.items, view)
      ensures downloads.requests == old(downloads.requests) + [Replaced(|downloads.items|)]
      ensures sids == old(sids) - (set sid | sid in removed)
      ensures timerOn == old(timerOn)
      ensures Valid()
    {
      var gone := set sid | sid in removed;
      ghost var r0, m0, items := Reg(), sids, downloads.items;
      ghost var f := SweepAll(r0, m0, items, gone);
      RemovalAccounts(r0, m0, items, gone);
      RemovalSids(r0, m0, items, gone);
      SurvivorsOwned(items, gone, this);
      ghost var ps := Pairs(f.kept);
      var kept := Sweep(downloads.items, gone);
      assert kept == f.kept && sids == f.sids && Reg() == Registry(f.running, f.finished, r0.timerOn);
      assert Pairs(kept) == ps;
      Install(kept, view);
    }

    /** `downloads.set`: the records replace the collection's, which the bookkeeping already covers. */
    method Install(kept: seq<DownloadItem>, view: seq<int>)
      requires Tracks(kept)
      modifies downloads`items, downloads`filtered, downloads`requests
      ensures Valid() && downloads.items == kept && downloads.filtered == Project(kept, view)
      ensures downloads.requests == old(downloads.requests) + [Replaced(|kept|)]
    {
      ghost var m, r, pairs := sids, Reg(), Pairs(kept);
      downloads.Set(kept, view);
      assert sids == m && Reg() == r && Pairs(kept) == pairs;
      assert Tracks(kept);
    }

    /**
     * The loop of `removedItems` over `items`, the collection's records;
     * it collects the running set, the finished count and the identity map
     * in locals and stores them once the filter is done.
     */
    method Sweep(items: seq<DownloadItem>, gone: set<int>) returns (kept: seq<DownloadItem>)
      modifies this`running, this`finished, this`sids
      ensures Sweeping(kept, running, finished, sids) == SweepAll(old(Reg()), old(sids), items, gone)
      ensures timerOn == old(timerOn)
    {
      ghost var ps := Pairs(items);
      ghost var s0 := Sweeping([], running, finished, sids);
      var run, fin, index := running, finished, sids;
      kept := [];
      for i := 0 to |items|
        modifies {}
        invariant Sweeping(kept, run, fin, index) == SweepUpTo(s0, ps, i, gone)
      {
        var x := items[i];
        assert ps[i] == (x, x.state);
        if x.sessionId !in gone {
          kept := kept + [x];
        } else {
          run := Without(run, x);
          index := index - {x.sessionId};
          if x.state == DONE {
            fin := fin - 1;
          }
        }
      }
      running, finished, sids := run, fin, index;
    }

    /**
     * `setItems` as written: the running records' sample logs are saved,
     * the running set and the identity map are cleared, and a record is made
     * from every snapshot in order (each one entered in the map and counted
     * by `updatedState`) before the collection is replaced. `finished` is not
     * cleared, so it ends up as its old value plus the number of new DONE
     * records: the registry accounts for the new records only once the old
     * count is taken off.
     */
    method SetItemsAsWritten(list: seq<Snapshot>, view: seq<int>) returns (made: seq<DownloadItem>)
      modifies this`running, this`finished, this`timerOn, this`disabled, this`sids
      modifies downloads`items, downloads`filtered, downloads`requests
      ensures downloads.items == made && downloads.filtered == Project(made, view)
      ensures downloads.requests == old(downloads.requests) + [Replaced(|list|)]
      ensures forall k :: 0 <= k < |made| ==> fresh(made[k])
      ensures SessionIds(made) == SnapshotIds(list)
      ensures FieldsOf(made) == Initials(list, domainOf)
      ensures StatsOf(made) == RestoredStats(old(SavedStats(running)), list)
      ensures Counts(old(finished), made)
      ensures finished == old(finished) + Count(SnapshotStates(list), DONE)
      ensures timerOn == (old(timerOn) || RUNNING in SnapshotStates(list))
      ensures old(finished) != 0 ==> !Accounts(made)
      ensures SidsAgree(sids, made) && OwnedBy(made, this)
    {
      var saved := SavedStats(running);
      ghost var base := finished;
      running := [];
      sids := map[];
      made := RecreateAll(list, saved, base);
      Replace(made, view, list, saved, base, old(timerOn));
      RebuiltAll(list, saved, made, base, old(timerOn));
    }

    /**
     * What `setItems`'s loop has built from the first `|made|` snapshots:
     * one record per snapshot, holding its fields and its saved log, each in
     * the identity map and accounted for (the count off by `base`), with the
     * timer on if it was (`on0`) or if one of them is RUNNING.
     */
    ghost predicate Rebuilt(list: seq<Snapshot>, saved: map<int, seq<int>>, made: seq<DownloadItem>, base: int, on0: bool)
      reads this`running, this`finished, this`timerOn, this`sids, made
    {
      var done := list[..if |made| <= |list| then |made| else |list|];
      && |made| <= |list|
      && Counts(base, made) && SidsAgree(sids, made) && OwnedBy(made, this)
      && SessionIds(made) == SnapshotIds(done)
      && StatsOf(made) == RestoredStats(saved, done)
      && FieldsOf(made) == Initials(done, domainOf)
      && timerOn == (on0 || AnyRunning(done))
    }

    /** Built from the whole batch: the records, their fields, count and timer as the snapshots say. */
    lemma RebuiltAll(list: seq<Snapshot>, saved: map<int, seq<int>>, made: seq<DownloadItem>, base: int, on0: bool)
      requires |made| == |list| && Rebuilt(list, saved, made, base, on0)
      ensures SessionIds(made) == SnapshotIds(list) && FieldsOf(made) == Initials(list, domainOf)
      ensures StatsOf(made) == RestoredStats(saved, list)
      ensures Counts(base, made) && SidsAgree(sids, made) && OwnedBy(made, this)
      ensures finished == base + Count(SnapshotStates(list), DONE)
      ensures timerOn == (on0 || RUNNING in SnapshotStates(list))
    {
      assert list[..|made|] == list;
      assert StatesIn(Pairs(made)) == SnapshotStates(list);
      AnyRunningMeans(list);
    }

    /** The loop of `setItems`: one new record per snapshot, in order. */
    method RecreateAll(list: seq<Snapshot>, saved: map<int, seq<int>>, ghost base: int) returns (made: seq<DownloadItem>)
      requires running == [] && sids == map[] && finished == base
      modifies this`running, this`finished, this`timerOn, this`disabled, this`sids
      ensures forall k :: 0 <= k < |made| ==> fresh(made[k])
      ensures |made| == |list| && Rebuilt(list, saved, made, base, old(timerOn))
    {
      made := [];
      ghost var on0 := timerOn;
      assert list[..0] == [] && Shifted(base) == Registry([], 0, timerOn);
      for i := 0 to |list|
        invariant |made| == i && Rebuilt(list, saved, made, base, on0)
        invariant forall k :: 0 <= k < |made| ==> fresh(made[k])
      {
        ghost var before := made;
        made := RecreateStep(list, saved, made, base, on0);
        FreshGrows(before, made);
      }
    }

    /** `downloads.set` for the records `setItems` made; the bookkeeping is left as it was. */
    method Replace(made: seq<DownloadItem>, view: seq<int>, ghost list: seq<Snapshot>, ghost saved: map<int, seq<int>>,
                   ghost base: int, ghost on0: bool)
      requires Rebuilt(list, saved, made, base, on0)
      modifies downloads`items, downloads`filtered, downloads`requests
      ensures Rebuilt(list, saved, made, base, on0)
      ensures downloads.items == made && downloads.filtered == Project(made, view)
      ensures downloads.requests == old(downloads.requests) + [Replaced(|made|)]
    {
      downloads.Set(made, view);
    }

    /** One turn of `setItems`'s loop: the record made from the next snapshot joins `made`. */
    method RecreateStep(list: seq<Snapshot>, saved: map<int, seq<int>>, made: seq<DownloadItem>, ghost base: int, ghost on0: bool)
      returns (made': seq<DownloadItem>)
      requires |made| < |list| && Rebuilt(list, saved, made, base, on0)
      modifies this`running, this`finished, this`timerOn, this`disabled, this`sids
      ensures |made'| == |made| + 1 && (forall k :: 0 <= k < |made| ==> made'[k] == made[k]) && fresh(made'[|made|])
      ensures Rebuilt(list, saved, made', base, on0)
    {
      var i := |made|;
      ghost var st := StatsOf(made);
      var rv := Recreate(list[i], saved, made, base);
      Extend(list, i, saved, made, st, rv);
      InitialsStep(list, i, domainOf);
      RunningStep(list, i);
      made' := made + [rv];
    }

    /**
     * One snapshot of `setItems`: a new record with the saved log for its id
     * (a fresh one if none was saved), entered in the identity map, which may
     * replace an earlier record of the same id.
     */
    method Recreate(raw: Snapshot, saved: map<int, seq<int>>, made: seq<DownloadItem>, ghost base: int)
      returns (rv: DownloadItem)
      requires Counts(base, made) && SidsAgree(sids, made) && OwnedBy(made, this)
      modifies this`running, this`finished, this`timerOn, this`disabled, this`sids
      ensures fresh(rv) && rv.sessionId == raw.sessionId
      ensures FieldsOf(made + [rv]) == old(FieldsOf(made)) + [Initial(raw, domainOf)]
      ensures timerOn == (old(timerOn) || raw.state.GetOr(0) == RUNNING)
      ensures StatsOf(made + [rv]) == old(StatsOf(made)) + [SavedFor(saved, raw.sessionId).GetOr([])]
      ensures Counts(base, made + [rv]) && SidsAgree(sids, made + [rv]) && OwnedBy(made + [rv], this)
    {
      ghost var run0, fin0, on0, m0 := running, finished, timerOn, sids;
      ghost var ps := Pairs(made);
      ghost var st, fs := StatsOf(made), FieldsOf(made);
      assert Consistent(Registry(run0, fin0 - base, on0), ps);
      rv := Make(raw, SavedFor(saved, raw.sessionId), made);
      assert Pairs(made) == ps && StatsOf(made) == st && rv !in made;
      FieldsAppend(made, rv);
      AdmitTimer(Registry(run0, fin0, on0), rv, rv.state);
      StatsAppend(made, rv);
      RecreateAccounts(this, base, made, rv, run0, fin0, on0);
      AgreeAppend(m0, made, rv);
      OwnedAppend(made, rv, this);
    }

    /** `new DownloadItem(this, raw, saved)`, entered in the identity map. */
    method Make(raw: Snapshot, saved: Option<seq<int>>, ghost made: seq<DownloadItem>) returns (rv: DownloadItem)
      modifies this`running, this`finished, this`timerOn, this`disabled, this`sids
      ensures fresh(rv) && rv.owner == this && rv.sessionId == raw.sessionId && rv.stats == saved.GetOr([])
      ensures rv.Fields() == Initial(raw, domainOf)
      ensures FieldsOf(made) == old(FieldsOf(made))
      ensures Registry(running, finished, timerOn) == Transition(Registry(old(running), old(finished), old(timerOn)), rv, None, rv.state)
      ensures sids == old(sids)[rv.sessionId := rv]
    {
      ghost var fs := FieldsOf(made);
      rv := new DownloadItem(this, raw, saved);
      assert Reg() == Registry(running, finished, timerOn);
      sids := sids[rv.sessionId := rv];
      assert FieldsOf(made) == fs;
    }

    /**
     * `setItems` with `finished` cleared together with the running set: the
     * table's invariant holds for the new records, whatever it was before.
     */
    method SetItems(list: seq<Snapshot>, view: seq<int>) returns (made: seq<DownloadItem>)
      modifies this`running, this`finished, this`timerOn, this`disabled, this`sids
      modifies downloads`items, downloads`filtered, downloads`requests
      ensures Valid()
      ensures downloads.items == made && downloads.filtered == Project(made, view)
      ensures downloads.requests == old(downloads.requests) + [Replaced(|list|)]
      ensures forall k :: 0 <= k < |made| ==> fresh(made[k])
      ensures SessionIds(made) == SnapshotIds(list)
      ensures FieldsOf(made) == Initials(list, domainOf)
      ensures StatsOf(made) == RestoredStats(old(SavedStats(running)), list)
      ensures finished == Count(SnapshotStates(list), DONE)
      ensures timerOn == (old(timerOn) || RUNNING in SnapshotStates(list))
    {
      ghost var keep := SavedStats(running);
      finished := 0;
      assert SavedStats(running) == keep;
      made := SetItemsAsWritten(list, view);
      assert Shifted(0) == Reg();
    }

    /** `updatedDownload`: the collection recalculates the record. */
    method UpdatedDownload(item: DownloadItem)
      modifies downloads`requests
      ensures downloads.requests == old(downloads.requests) + [Recalculated(item.sessionId)]
    {
      downloads.RecalculateItem(item);
    }
  }
}
