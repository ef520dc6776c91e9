/**
 * The table's registry bookkeeping as a value: the insertion-ordered set of
 * running records, the number of finished records and whether the sampling
 * timer is on, together with the transitions `updatedState` and
 * `removedItems` apply to it.
 */
module Bookkeeping {
  import opened Wrappers
  import opened DownloadStates

  /** No element occurs twice: what makes a sequence a JavaScript `Set`. */
  ghost predicate NoDups<T>(s: seq<T>) {
    forall i, j :: 0 <= i < j < |s| ==> s[i] != s[j]
  }

  ghost function Elements<T>(s: seq<T>): set<T> {
    set x | x in s
  }

  lemma ElementsCons<T>(a: T, s: seq<T>)
    ensures Elements([a] + s) == {a} + Elements(s)
  {
    assert forall y :: y in [a] + s <==> y == a || y in s;
  }

  lemma NoDupsCons<T>(a: T, s: seq<T>)
    ensures a !in s && NoDups(s) ==> NoDups([a] + s)
  {
    if a !in s && NoDups(s) {
      forall i, j | 0 <= i < j < |[a] + s| ensures ([a] + s)[i] != ([a] + s)[j] {
        if i > 0 { assert ([a] + s)[i] == s[i - 1]; }
        assert ([a] + s)[j] == s[j - 1];
      }
    }
  }

  /** `Set.prototype.delete`: drops `x`, keeps the order of the rest. */
  function Without<T(==)>(s: seq<T>, x: T): (r: seq<T>)
    ensures Elements(r) == Elements(s) - {x}
    ensures NoDups(s) ==> NoDups(r)
  {
    if s == [] then []
    else
      var rest := Without(s[1..], x);
      assert s == [s[0]] + s[1..];
      assert Elements(s) == {s[0]} + Elements(s[1..]);
      assert NoDups(s) ==> s[0] !in s[1..];
      ElementsCons(s[0], rest);
      if s[0] == x then rest
      else
        assert NoDups(s) ==> s[0] !in rest && NoDups(s[1..]);
        NoDupsCons(s[0], rest);
        [s[0]] + rest
  }

  /** `Set.prototype.add`: appends `x` unless it is already there. */
  function With<T(==)>(s: seq<T>, x: T): (r: seq<T>)
    ensures Elements(r) == Elements(s) + {x}
    ensures NoDups(s) ==> NoDups(r)
    ensures x !in s ==> r == s + [x]
  {
    if x in s then s else s + [x]
  }

  /** The number of entries equal to `st`. */
  function Count(states: seq<StateBits>, st: StateBits): (n: nat)
    ensures n <= |states|
  {
    if states == [] then 0
    else Count(states[..|states| - 1], st) + (if states[|states| - 1] == st then 1 else 0)
  }

  lemma {:induction false} CountUpdate(s: seq<StateBits>, k: nat, x: StateBits, st: StateBits)
    requires k < |s|
    ensures Count(s[k := x], st) + (if s[k] == st then 1 else 0)
         == Count(s, st) + (if x == st then 1 else 0)
  {
    var n := |s| - 1;
    if k < n {
      assert s[k := x][..n] == s[..n][k := x];
      CountUpdate(s[..n], k, x, st);
    } else {
      assert s[k := x][..n] == s[..n];
    }
  }

  lemma {:induction false} CountRemove(s: seq<StateBits>, k: nat, st: StateBits)
    requires k < |s|
    ensures Count(s[..k] + s[k + 1..], st) + (if s[k] == st then 1 else 0) == Count(s, st)
  {
    var n := |s| - 1;
    if k == n {
      assert s[..k] + s[k + 1..] == s[..n];
    } else {
      var r := s[..k] + s[k + 1..];
      assert r[..|r| - 1] == s[..n][..k] + s[..n][k + 1..];
      assert r[|r| - 1] == s[n];
      CountRemove(s[..n], k, st);
    }
  }

  lemma CountAppend(s: seq<StateBits>, x: StateBits, st: StateBits)
    ensures Count(s + [x], st) == Count(s, st) + (if x == st then 1 else 0)
  {
    assert (s + [x])[..|s|] == s;
  }

  /** The running set, the finished counter and the timer flag. */
  datatype Registry<T> = Registry(running: seq<T>, finished: int, timerOn: bool)

  /**
   * `updatedState(item, previous, current)`: leaving RUNNING removes the
   * record from the running set and stops the timer once the set is empty;
   * leaving DONE decrements `finished`; entering RUNNING adds the record and
   * starts the timer if it is off; entering DONE increments `finished`.
   * `None` is the `undefined` old state of a record being created.
   */
  function Transition<T(==)>(r: Registry<T>, item: T, previous: Option<StateBits>, current: StateBits): Registry<T> {
    var left :=
      if previous == Some(RUNNING) then
        var rest := Without(r.running, item);
        r.(running := rest, timerOn := r.timerOn && rest != [])
      else if previous == Some(DONE) then r.(finished := r.finished - 1)
      else r;
    if current == RUNNING then left.(running := With(left.running, item), timerOn := true)
    else if current == DONE then left.(finished := left.finished + 1)
    else left
  }

  /**
   * What `updatedState` does to the registry: the count moves by the DONE
   * records left and entered, the running set loses the record it left and
   * gains the one it entered, without duplicates, and the timer starts on
   * entering RUNNING, stops when leaving it empties the set, and is
   * otherwise left alone.
   */
  lemma TransitionEffect<T>(r: Registry<T>, item: T, previous: Option<StateBits>, current: StateBits)
    ensures var r' := Transition(r, item, previous, current);
            && r'.finished == r.finished - (if previous == Some(DONE) then 1 else 0) + (if current == DONE then 1 else 0)
            && Elements(r'.running)
               == (Elements(r.running) - (if previous == Some(RUNNING) then {item} else {})) + (if current == RUNNING then {item} else {})
            && (NoDups(r.running) ==> NoDups(r'.running))
            && (current == RUNNING ==> r'.timerOn)
            && (current != RUNNING && previous == Some(RUNNING) ==> r'.timerOn == (r.timerOn && r'.running != []))
            && (current != RUNNING && previous != Some(RUNNING) ==> r'.timerOn == r.timerOn && r'.running == r.running)
  {
  }

  /** A record made in state `current` starts the timer exactly when it is RUNNING, and never stops it. */
  lemma AdmitTimer<T>(r: Registry<T>, item: T, current: StateBits)
    ensures Transition(r, item, None, current).timerOn == (r.timerOn || current == RUNNING)
  {
  }

  /** One record dropped by `removedItems`: it leaves the running set and, if DONE, the count. */
  function Evict<T(==)>(r: Registry<T>, item: T, state: StateBits): Registry<T> {
    r.(running := Without(r.running, item), finished := r.finished - (if state == DONE then 1 else 0))
  }

  /** Eviction takes the record out of the running set and, if DONE, off the count, and leaves the timer alone. */
  lemma EvictEffect<T>(r: Registry<T>, item: T, state: StateBits)
    ensures var r' := Evict(r, item, state);
            && Elements(r'.running) == Elements(r.running) - {item}
            && (NoDups(r.running) ==> NoDups(r'.running))
            && r'.finished == r.finished - (if state == DONE then 1 else 0) && r'.timerOn == r.timerOn
  {
  }

  /** (identity, state) pairs: the records the registry accounts for, in backing order. */
  ghost function RunningIn<T>(tracked: seq<(T, StateBits)>): set<T> {
    set p | p in tracked && p.1 == RUNNING :: p.0
  }

  function StatesIn<T>(tracked: seq<(T, StateBits)>): (s: seq<StateBits>)
    ensures |s| == |tracked|
    ensures forall k :: 0 <= k < |tracked| ==> s[k] == tracked[k].1
  {
    seq(|tracked|, k requires 0 <= k < |tracked| => tracked[k].1)
  }

  ghost predicate UniqueIdentities<T>(tracked: seq<(T, StateBits)>) {
    forall i, j :: 0 <= i < j < |tracked| ==> tracked[i].0 != tracked[j].0
  }

  /**
   * The registry agrees with the records: `finished` is the number of DONE
   * records, `running` holds each RUNNING record once and nothing else, and
   * the timer is on whenever something runs.
   */
  ghost predicate Consistent<T>(r: Registry<T>, tracked: seq<(T, StateBits)>) {
    && UniqueIdentities(tracked)
    && r.finished == Count(StatesIn(tracked), DONE)
    && NoDups(r.running)
    && Elements(r.running) == RunningIn(tracked)
    && (r.running != [] ==> r.timerOn)
  }

  /** `x` is none of the tracked identities. */
  ghost predicate Untracked<T>(tracked: seq<(T, StateBits)>, x: T) {
    forall k :: 0 <= k < |tracked| ==> tracked[k].0 != x
  }

  /** The timer is on exactly while something runs. */
  ghost predicate TimerExact<T>(r: Registry<T>) {
    r.timerOn <==> r.running != []
  }

  lemma RunningInUpdate<T>(tracked: seq<(T, StateBits)>, k: nat, st: StateBits)
    requires k < |tracked| && UniqueIdentities(tracked)
    ensures RunningIn(tracked[k := (tracked[k].0, st)])
         == (RunningIn(tracked) - {tracked[k].0}) + (if st == RUNNING then {tracked[k].0} else {})
  {
    var x := tracked[k].0;
    var t := tracked[k := (x, st)];
    forall y | y in RunningIn(t)
      ensures y in (RunningIn(tracked) - {x}) + (if st == RUNNING then {x} else {})
    {
      var i :| 0 <= i < |t| && t[i].0 == y && t[i].1 == RUNNING;
      if i != k { assert tracked[i] in tracked; }
    }
    forall y | y in (RunningIn(tracked) - {x}) + (if st == RUNNING then {x} else {})
      ensures y in RunningIn(t)
    {
      if y == x {
        assert t[k] in t;
      } else {
        var i :| 0 <= i < |tracked| && tracked[i].0 == y && tracked[i].1 == RUNNING;
        assert t[i] in t;
      }
    }
  }

  lemma RunningInRemove<T>(tracked: seq<(T, StateBits)>, k: nat)
    requires k < |tracked| && UniqueIdentities(tracked)
    ensures RunningIn(tracked[..k] + tracked[k + 1..]) == RunningIn(tracked) - {tracked[k].0}
  {
    var x := tracked[k].0;
    var t := tracked[..k] + tracked[k + 1..];
    forall y | y in RunningIn(t) ensures y in RunningIn(tracked) - {x} {
      var i :| 0 <= i < |t| && t[i].0 == y && t[i].1 == RUNNING;
      if i < k { assert t[i] == tracked[i]; } else { assert t[i] == tracked[i + 1]; }
    }
    forall y | y in RunningIn(tracked) - {x} ensures y in RunningIn(t) {
      var i :| 0 <= i < |tracked| && tracked[i].0 == y && tracked[i].1 == RUNNING;
      if i < k { assert t[i] == tracked[i]; } else { assert t[i - 1] == tracked[i]; }
    }
  }

  /** Through a transition whose old state is right, the registry stays consistent. */
  lemma TransitionKeepsConsistent<T>(r: Registry<T>, tracked: seq<(T, StateBits)>, k: nat, current: StateBits)
    requires Consistent(r, tracked) && k < |tracked|
    ensures Consistent(Transition(r, tracked[k].0, Some(tracked[k].1), current),
                       tracked[k := (tracked[k].0, current)])
  {
    StatesInUpdate(tracked, k, current);
    CountUpdate(StatesIn(tracked), k, current, DONE);
    RunningInUpdate(tracked, k, current);
    UniqueUpdate(tracked, k, current);
    assert tracked[k] in tracked;
  }

  lemma StatesInUpdate<T>(tracked: seq<(T, StateBits)>, k: nat, st: StateBits)
    requires k < |tracked|
    ensures StatesIn(tracked[k := (tracked[k].0, st)]) == StatesIn(tracked)[k := st]
  {
  }

  lemma UniqueUpdate<T>(tracked: seq<(T, StateBits)>, k: nat, st: StateBits)
    requires k < |tracked| && UniqueIdentities(tracked)
    ensures UniqueIdentities(tracked[k := (tracked[k].0, st)])
  {
    var t := tracked[k := (tracked[k].0, st)];
    assert forall i :: 0 <= i < |t| ==> t[i].0 == tracked[i].0;
  }

  /** A record created in state `st` and appended keeps the registry consistent. */
  lemma AdmitKeepsConsistent<T>(r: Registry<T>, tracked: seq<(T, StateBits)>, x: T, st: StateBits)
    requires Consistent(r, tracked)
    requires forall k :: 0 <= k < |tracked| ==> tracked[k].0 != x
    ensures Consistent(Transition(r, x, None, st), tracked + [(x, st)])
  {
    var t := tracked + [(x, st)];
    assert StatesIn(t) == StatesIn(tracked) + [st];
    CountAppend(StatesIn(tracked), st, DONE);
    RunningInAppend(tracked, x, st);
    UniqueAppend(tracked, x, st);
  }

  lemma RunningInAppend<T>(tracked: seq<(T, StateBits)>, x: T, st: StateBits)
    ensures RunningIn(tracked + [(x, st)]) == RunningIn(tracked) + (if st == RUNNING then {x} else {})
  {
    var t := tracked + [(x, st)];
    assert t[|tracked|] in t;
    forall y | y in RunningIn(t) ensures y in RunningIn(tracked) + (if st == RUNNING then {x} else {}) {
      var i :| 0 <= i < |t| && t[i].0 == y && t[i].1 == RUNNING;
      if i < |tracked| { assert tracked[i] in tracked; }
    }
    forall y | y in RunningIn(tracked) ensures y in RunningIn(t) {
      var i :| 0 <= i < |tracked| && tracked[i].0 == y && tracked[i].1 == RUNNING;
      assert t[i] in t;
    }
  }

  lemma UniqueAppend<T>(tracked: seq<(T, StateBits)>, x: T, st: StateBits)
    requires UniqueIdentities(tracked)
    requires forall k :: 0 <= k < |tracked| ==> tracked[k].0 != x
    ensures UniqueIdentities(tracked + [(x, st)])
  {
  }

  /** Dropping one record in `removedItems` keeps the registry consistent with the rest. */
  lemma EvictKeepsConsistent<T>(r: Registry<T>, tracked: seq<(T, StateBits)>, k: nat)
    requires Consistent(r, tracked) && k < |tracked|
    ensures Consistent(Evict(r, tracked[k].0, tracked[k].1), tracked[..k] + tracked[k + 1..])
  {
    StatesInRemove(tracked, k);
    CountRemove(StatesIn(tracked), k, DONE);
    RunningInRemove(tracked, k);
    UniqueRemove(tracked, k);
  }

  lemma StatesInRemove<T>(tracked: seq<(T, StateBits)>, k: nat)
    requires k < |tracked|
    ensures StatesIn(tracked[..k] + tracked[k + 1..]) == StatesIn(tracked)[..k] + StatesIn(tracked)[k + 1..]
  {
    var t := tracked[..k] + tracked[k + 1..];
    var s := StatesIn(tracked);
    forall i | 0 <= i < |t| ensures StatesIn(t)[i] == (s[..k] + s[k + 1..])[i] {
      if i < k { assert t[i] == tracked[i]; } else { assert t[i] == tracked[i + 1]; }
    }
  }

  lemma UniqueRemove<T>(tracked: seq<(T, StateBits)>, k: nat)
    requires k < |tracked| && UniqueIdentities(tracked)
    ensures UniqueIdentities(tracked[..k] + tracked[k + 1..])
  {
    var t := tracked[..k] + tracked[k + 1..];
    forall i, j | 0 <= i < j < |t| ensures t[i].0 != t[j].0 {
      var i' := if i < k then i else i + 1;
      var j' := if j < k then j else j + 1;
      assert t[i] == tracked[i'] && t[j] == tracked[j'];
    }
  }

  /** Transitions keep the timer exact: on exactly while the running set is non-empty. */
  lemma TransitionKeepsTimerExact<T>(r: Registry<T>, item: T, previous: Option<StateBits>, current: StateBits)
    requires TimerExact(r) || current == RUNNING
    ensures TimerExact(Transition(r, item, previous, current))
  {
    var r' := Transition(r, item, previous, current);
    if current == RUNNING {
      assert item in r'.running;
    }
  }

  /** Evicting the last running record leaves the timer on: `removedItems` never stops it. */
  lemma EvictLeavesTimerOn(x: int)
    ensures var r := Evict(Registry([x], 0, true), x, RUNNING);
            r.running == [] && r.timerOn && !TimerExact(r)
  {
    assert Without([x], x) == [] + Without([x][1..], x);
  }

  /** A transition moves `finished` by the same amount whatever it started from. */
  lemma TransitionShifts<T>(r: Registry<T>, item: T, previous: Option<StateBits>, current: StateBits, c: int)
    ensures Transition(r.(finished := r.finished - c), item, previous, current)
         == var t := Transition(r, item, previous, current); t.(finished := t.finished - c)
  {
  }

  /** Admitting a record keeps a registry whose count is off by `base` off by exactly `base`. */
  lemma AdmitShifted<T>(r0: Registry<T>, r1: Registry<T>, ps: seq<(T, StateBits)>, qs: seq<(T, StateBits)>,
                        x: T, st: StateBits, base: int)
    requires Consistent(Registry(r0.running, r0.finished - base, r0.timerOn), ps)
    requires Untracked(ps, x) && qs == ps + [(x, st)]
    requires r1 == Transition(r0, x, None, st)
    ensures Consistent(Registry(r1.running, r1.finished - base, r1.timerOn), qs)
  {
    TransitionShifts(r0, x, None, st, base);
    assert r0.(finished := r0.finished - base) == Registry(r0.running, r0.finished - base, r0.timerOn);
    AdmitKeepsConsistent(r0.(finished := r0.finished - base), ps, x, st);
  }

  /**
   * A resync that clears the running set but keeps the finished count
   * counts a DONE record twice: the registry that accounted for one DONE
   * record, after the same download is admitted again, says 2 while the
   * records hold a single DONE one.
   */
  lemma ResyncCountsTwice<T>(x: T, y: T)
    ensures Consistent(Registry([], 1, false), [(x, DONE)])
    ensures var after := Transition(Registry([], 1, false), y, None, DONE);
            after.finished == 2 && !Consistent(after, [(y, DONE)])
  {
    assert StatesIn([(x, DONE)]) == [DONE];
    assert StatesIn([(y, DONE)]) == [DONE];
    assert Count([DONE], DONE) == Count([], DONE) + 1;
    assert [DONE][..0] == [];
  }

  /** Starting the count from zero instead, the same resync accounts for the one record correctly. */
  lemma ResyncFromZero<T>(y: T)
    ensures Consistent(Transition(Registry([], 0, false), y, None, DONE), [(y, DONE)])
  {
    var r: Registry<T> := Registry([], 0, false);
    var none: seq<(T, StateBits)> := [];
    assert Consistent(r, none);
    AdmitKeepsConsistent(r, none, y, DONE);
  }
}
