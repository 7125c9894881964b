// internal/store/domains.go, RecordProbe: whether a primary is up, from its probe results, with a threshold each way.

module Probe {
  import opened Options

  /** A row of the status table. */
  datatype Status = Status(isUp: bool, failures: nat, successes: nat, probed: bool)

  datatype Thresholds = Thresholds(failure: int, success: int)

  /** How a new domain starts. */
  const UNKNOWN := Status(false, 0, 0, false)

  /** The row after a probe. */
  function Recorded(s: Status, ok: bool, t: Thresholds): Status {
    if ok then Status(s.isUp || s.successes + 1 >= t.success, 0, s.successes + 1, true)
    else Status(s.isUp && s.failures + 1 < t.failure, s.failures + 1, 0, true)
  }

  /** Whether the probe is reported as a change. */
  predicate Flips(s: Status, ok: bool, t: Thresholds) {
    if ok then !s.isUp && s.successes + 1 >= t.success
    else (s.isUp && s.failures + 1 >= t.failure) || !s.probed
  }

  /** A row of the table: the state, and when it was checked, went up and went down last. */
  datatype Row = Row(state: Status, lastCheck: Option<int>, lastUp: Option<int>, lastDown: Option<int>)

  const NEW_ROW := Row(UNKNOWN, None, None, None)

  /** Probed means that there is a last check. */
  predicate RowOk(r: Row) {
    r.state.probed <==> r.lastCheck.Some?
  }

  function RowAfter(r: Row, ok: bool, t: Thresholds, now: int): Row {
    var s := Recorded(r.state, ok, t);
    var flips := Flips(r.state, ok, t);
    Row(s, Some(now), if flips && s.isUp then Some(now) else r.lastUp, if flips && !s.isUp then Some(now) else r.lastDown)
  }

  class StatusTable {
    var rows: map<nat, Row>

    ghost predicate Valid()
      reads this
    {
      forall id :: id in rows ==> RowOk(rows[id])
    }

    constructor ()
      ensures Valid() && rows == map[]
    {
      rows := map[];
    }

    /** One transaction; `found` is false when there is no row, and then nothing changes. */
    method RecordProbe(id: nat, ok: bool, t: Thresholds, now: int) returns (found: bool, flipped: bool, up: bool)
      requires Valid()
      modifies this
      ensures Valid()
      ensures found == (id in old(rows))
      ensures rows == if found then old(rows)[id := RowAfter(old(rows)[id], ok, t, now)] else old(rows)
      ensures if found then flipped == Flips(old(rows)[id].state, ok, t) && up == rows[id].state.isUp else !flipped && !up
    {
      found := id in rows;
      if !found {
        return false, false, false;
      }
      var r := rows[id];
      var failures, successes := r.state.failures, r.state.successes;
      up, flipped := r.state.isUp, false;
      if ok {
        successes := successes + 1;
        failures := 0;
        if !up && successes >= t.success {
          up, flipped := true, true;
        }
      } else {
        failures := failures + 1;
        successes := 0;
        if up && failures >= t.failure {
          up, flipped := false, true;
        } else if r.lastCheck.None? {
          flipped := true;
        }
      }
      var lastUp, lastDown := r.lastUp, r.lastDown;
      if flipped {
        if up {
          lastUp := Some(now);
        } else {
          lastDown := Some(now);
        }
      }
      rows := rows[id := Row(Status(up, failures, successes, true), Some(now), lastUp, lastDown)];
    }
  }

  // ----- whole histories -----

  function StatusAfter(probes: seq<bool>, t: Thresholds): Status {
    if probes == [] then UNKNOWN else Recorded(StatusAfter(probes[..|probes| - 1], t), probes[|probes| - 1], t)
  }

  /** How many probes at the end of the history gave `ok`. */
  function RunLength(probes: seq<bool>, ok: bool): nat {
    if probes == [] || probes[|probes| - 1] != ok then 0 else RunLength(probes[..|probes| - 1], ok) + 1
  }

  /** The reported changes, each with the state it reports. */
  function Reports(probes: seq<bool>, t: Thresholds): seq<bool> {
    if probes == [] then []
    else
      var init, ok := probes[..|probes| - 1], probes[|probes| - 1];
      Reports(init, t) + (if Flips(StatusAfter(init, t), ok, t) then [StatusAfter(probes, t).isUp] else [])
  }

  /** The row after a history, the probe number `i` at time `at(i)`. */
  function RowOf(probes: seq<bool>, at: nat -> int, t: Thresholds): Row {
    if probes == [] then NEW_ROW
    else RowAfter(RowOf(probes[..|probes| - 1], at, t), probes[|probes| - 1], t, at(|probes| - 1))
  }

  /** Probe number `i` is reported, as up or as down. */
  predicate ReportedAt(probes: seq<bool>, t: Thresholds, i: nat, up: bool)
    requires i < |probes|
  {
    Flips(StatusAfter(probes[..i], t), probes[i], t) && StatusAfter(probes[..i + 1], t).isUp == up
  }

  /** The stamp is the time of the last probe that was reported this way, if there is one. */
  ghost predicate StampOf(probes: seq<bool>, at: nat -> int, t: Thresholds, up: bool, stamp: Option<int>) {
    match stamp
    case None => forall i: nat :: i < |probes| ==> !ReportedAt(probes, t, i, up)
    case Some(x) =>
      exists i: nat :: i < |probes| && ReportedAt(probes, t, i, up) && x == at(i)
        && forall j: nat :: i < j < |probes| ==> !ReportedAt(probes, t, j, up)
  }

  lemma ReportedStays(probes: seq<bool>, ok: bool, t: Thresholds, i: nat, up: bool)
    requires i < |probes|
    ensures ReportedAt(probes + [ok], t, i, up) <==> ReportedAt(probes, t, i, up)
  {
    hide StatusAfter, Flips;
    var all := probes + [ok];
    assert all[..i] == probes[..i] && all[..i + 1] == probes[..i + 1];
  }

  lemma StampStep(probes: seq<bool>, ok: bool, at: nat -> int, t: Thresholds, up: bool, before: Option<int>)
    requires StampOf(probes, at, t, up, before)
    ensures StampOf(probes + [ok], at, t, up, if ReportedAt(probes + [ok], t, |probes|, up) then Some(at(|probes|)) else before)
  {
    hide ReportedAt;
    var all := probes + [ok];
    forall i: nat | i < |probes|
      ensures ReportedAt(all, t, i, up) <==> ReportedAt(probes, t, i, up)
    {
      ReportedStays(probes, ok, t, i, up);
    }
    if !ReportedAt(all, t, |probes|, up) && before.Some? {
      var i: nat :| i < |probes| && ReportedAt(probes, t, i, up) && before.value == at(i)
        && forall j: nat :: i < j < |probes| ==> !ReportedAt(probes, t, j, up);
      assert ReportedAt(all, t, i, up);
    }
  }

  /** For every history the row holds the state after it, and its stamps are the times of the last reported changes. */
  lemma {:induction false} StampsAreReports(probes: seq<bool>, at: nat -> int, t: Thresholds)
    ensures var r := RowOf(probes, at, t);
            && r.state == StatusAfter(probes, t) && RowOk(r)
            && (probes != [] ==> r.lastCheck == Some(at(|probes| - 1)))
            && StampOf(probes, at, t, true, r.lastUp) && StampOf(probes, at, t, false, r.lastDown)
  {
    if probes != [] {
      var init, ok := probes[..|probes| - 1], probes[|probes| - 1];
      StampsAreReports(init, at, t);
      var r := RowOf(init, at, t);
      assert probes == init + [ok];
      assert probes[..|init|] == init && probes[..|init| + 1] == probes;
      StampStep(init, ok, at, t, true, r.lastUp);
      StampStep(init, ok, at, t, false, r.lastDown);
      hide StampOf, Recorded, Flips;
    }
  }

  /** The counters are the lengths of the run of results at the end. */
  lemma {:induction false} CountersAreRuns(probes: seq<bool>, t: Thresholds)
    ensures var s := StatusAfter(probes, t);
            s.successes == RunLength(probes, true) && s.failures == RunLength(probes, false) && (s.probed <==> probes != [])
  {
    if probes != [] {
      CountersAreRuns(probes[..|probes| - 1], t);
    }
  }

  function AtLeastOne(n: int): int {
    if n < 1 then 1 else n
  }

  /** A run of successes reached its threshold after the first `k` probes, and since then no run of failures did. */
  ghost predicate RoseAt(probes: seq<bool>, t: Thresholds, k: nat) {
    && k <= |probes| && RunLength(probes[..k], true) >= AtLeastOne(t.success)
    && forall j :: k < j <= |probes| ==> RunLength(probes[..j], false) < AtLeastOne(t.failure)
  }

  lemma RoseBefore(probes: seq<bool>, t: Thresholds, ok: bool, k: nat)
    requires k <= |probes| && RoseAt(probes + [ok], t, k)
    ensures RoseAt(probes, t, k) && RunLength(probes + [ok], false) < AtLeastOne(t.failure)
  {
    hide RunLength, AtLeastOne;
    var all := probes + [ok];
    assert all[..k] == probes[..k] && all[..|all|] == all;
    forall j | k < j <= |probes|
      ensures RunLength(probes[..j], false) < AtLeastOne(t.failure)
    {
      assert all[..j] == probes[..j];
    }
  }

  lemma RoseAfter(probes: seq<bool>, t: Thresholds, ok: bool, k: nat)
    requires RoseAt(probes, t, k) && RunLength(probes + [ok], false) < AtLeastOne(t.failure)
    ensures RoseAt(probes + [ok], t, k)
  {
    hide RunLength, AtLeastOne;
    var all := probes + [ok];
    assert all[..k] == probes[..k];
    forall j | k < j <= |all|
      ensures RunLength(all[..j], false) < AtLeastOne(t.failure)
    {
      assert all[..j] == if j <= |probes| then probes[..j] else all;
    }
  }

  lemma RoseStays(probes: seq<bool>, t: Thresholds, ok: bool, k: nat)
    requires k <= |probes|
    ensures RoseAt(probes + [ok], t, k) <==>
            RoseAt(probes, t, k) && RunLength(probes + [ok], false) < AtLeastOne(t.failure)
  {
    hide RoseAt, RunLength, AtLeastOne;
    if RoseAt(probes + [ok], t, k) {
      RoseBefore(probes, t, ok, k);
    } else if RoseAt(probes, t, k) && RunLength(probes + [ok], false) < AtLeastOne(t.failure) {
      RoseAfter(probes, t, ok, k);
    }
  }

  lemma RoseNow(probes: seq<bool>, t: Thresholds)
    ensures RoseAt(probes, t, |probes|) <==> RunLength(probes, true) >= AtLeastOne(t.success)
  {
    assert probes[..|probes|] == probes;
  }

  /** Up exactly when enough successes in a row have come since enough failures in a row last did. */
  lemma {:induction false} UpExactly(probes: seq<bool>, t: Thresholds)
    ensures StatusAfter(probes, t).isUp <==> exists k: nat :: RoseAt(probes, t, k)
  {
    RoseNow(probes, t);
    RoseBounds(probes, t);
    if probes == [] {
      NeverUp(t);
      hide RoseAt, StatusAfter;
    } else {
      hide RoseAt, StatusAfter, RunLength, AtLeastOne;
      var n := |probes| - 1;
      var init, ok := probes[..n], probes[n];
      assert probes == init + [ok];
      UpExactly(init, t);
      UpStep(init, ok, t);
      RoseBounds(init, t);
      forall k: nat | k <= n
        ensures RoseAt(probes, t, k) <==> RoseAt(init, t, k) && RunLength(probes, false) < AtLeastOne(t.failure)
      {
        RoseStays(init, t, ok, k);
      }
      if StatusAfter(init, t).isUp {
        var k: nat :| RoseAt(init, t, k);
        assert RoseAt(probes, t, k) <==> RunLength(probes, false) < AtLeastOne(t.failure);
      }
    }
  }

  /** One more probe: up by a run of successes that is long enough, or still up. */
  lemma UpStep(init: seq<bool>, ok: bool, t: Thresholds)
    ensures StatusAfter(init + [ok], t).isUp <==>
              || RunLength(init + [ok], true) >= AtLeastOne(t.success)
              || (StatusAfter(init, t).isUp && RunLength(init + [ok], false) < AtLeastOne(t.failure))
  {
    var all := init + [ok];
    assert all[..|init|] == init;
    CountersAreRuns(init, t);
  }

  lemma RoseBounds(probes: seq<bool>, t: Thresholds)
    ensures forall k: nat :: RoseAt(probes, t, k) ==> k <= |probes|
  {
  }

  /** Reported changes strictly alternate; the newest one is the present state, and the first failing probe of a
      history that starts with a failure is reported as the initial down. */
  lemma {:induction false} ReportsAlternate(probes: seq<bool>, t: Thresholds)
    ensures var r := Reports(probes, t);
            && (forall i :: 0 < i < |r| ==> r[i] != r[i - 1])
            && (r == [] ==> !StatusAfter(probes, t).isUp)
            && (r != [] ==> r[|r| - 1] == StatusAfter(probes, t).isUp)
            && (probes != [] && !probes[0] ==> r != [] && r[0] == false)
            && (probes != [] && probes[0] && r != [] ==> r[0] == true)
  {
    if probes != [] {
      ReportsAlternate(probes[..|probes| - 1], t);
      CountersAreRuns(probes[..|probes| - 1], t);
    }
  }

  /** A probe is reported exactly when it changes the state, or fails as the first of all. */
  lemma ReportedExactly(probes: seq<bool>, t: Thresholds, i: nat, up: bool)
    requires i < |probes|
    ensures ReportedAt(probes, t, i, up) <==>
              var before, after := StatusAfter(probes[..i], t).isUp, StatusAfter(probes[..i + 1], t).isUp;
              after == up && (before != after || (i == 0 && !probes[0]))
  {
    assert probes[..i + 1][..i] == probes[..i];
    CountersAreRuns(probes[..i], t);
    assert i == 0 ==> probes[..i] == [];
    hide RunLength;
    NeverUp(t);
  }

  lemma NeverUp(t: Thresholds)
    ensures !StatusAfter([], t).isUp
  {
  }
}
