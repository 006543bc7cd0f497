/** Threshold alerts on the latest entry of the displayed series: when an
    alert fires, how often it may fire, and the list of alerts the user
    creates, deletes and switches on and off. Clock readings are parameters
    (milliseconds); saving to and loading from browser storage is not part of
    this model. */
module Alerts {
  import opened Common
  import opened Metrics

  datatype AlertType = PerformanceAlert | VolatilityAlert | VolumeAlert | PriceAlert

  datatype Condition = Above | Below | Equals

  datatype Alert = Alert(
    id: string, name: string, kind: AlertType, condition: Condition, threshold: real,
    enabled: bool, symbol: string, timeframe: string, createdAt: int,
    lastTriggered: Option<int>, triggerCount: nat)

  /** An alert is silent for five minutes after it fires. */
  const ThrottleMs: int := 5 * 60 * 1000

  /** The figure an alert watches; a price alert watches the close. */
  function WatchedValue(kind: AlertType, e: FinancialMetrics): real
  {
    match kind
    case PerformanceAlert => e.performance
    case VolatilityAlert => e.volatility
    case VolumeAlert => e.volume
    case PriceAlert => e.close
  }

  /** The alert's condition holds for the entry; "equals" means within 0.01. */
  predicate ConditionHolds(a: Alert, e: FinancialMetrics)
  {
    var v := WatchedValue(a.kind, e);
    match a.condition
    case Above => v > a.threshold
    case Below => v < a.threshold
    case Equals => Abs(v - a.threshold) < 0.01
  }

  /** The alert fired less than five minutes before `now`. */
  predicate Throttled(a: Alert, now: int)
  {
    a.lastTriggered.Some? && a.lastTriggered.value > now - ThrottleMs
  }

  /** The alert is on, its condition holds and it is not throttled. */
  predicate WouldFire(a: Alert, latest: FinancialMetrics, now: int)
  {
    a.enabled && ConditionHolds(a, latest) && !Throttled(a, now)
  }

  /** The alert as it is after firing at `now`. */
  function Fired(a: Alert, now: int): Alert
  {
    a.(lastTriggered := Some(now), triggerCount := a.triggerCount + 1)
  }

  /** `alerts.map(a => a.id === id ? b : a)` */
  function ReplaceById(s: seq<Alert>, id: string, b: Alert): (r: seq<Alert>)
    ensures |r| == |s|
    ensures forall i :: 0 <= i < |s| ==> r[i] == if s[i].id == id then b else s[i]
  {
    seq(|s|, i requires 0 <= i < |s| => if s[i].id == id then b else s[i])
  }

  /** The list after `triggerAlert` has handled the snapshot alert `a`. */
  function TriggerStep(state: seq<Alert>, a: Alert, now: int): seq<Alert>
  {
    if Throttled(a, now) then state else ReplaceById(state, a.id, Fired(a, now))
  }

  /** The list after the evaluation pass has gone through the snapshot
      alerts `snapshot`, starting from `state`. */
  function Evaluated(state: seq<Alert>, snapshot: seq<Alert>, latest: FinancialMetrics, now: int): (r: seq<Alert>)
    ensures |r| == |state|
  {
    if |snapshot| == 0 then state
    else
      var before := Evaluated(state, snapshot[..|snapshot| - 1], latest, now);
      var a := snapshot[|snapshot| - 1];
      if a.enabled && ConditionHolds(a, latest) then TriggerStep(before, a, now) else before
  }

  /** The alerts handed to the trigger callback, in order. */
  function Firings(snapshot: seq<Alert>, latest: FinancialMetrics, now: int): (r: seq<Alert>)
    ensures |r| <= |snapshot|
  {
    if |snapshot| == 0 then []
    else
      var before := Firings(snapshot[..|snapshot| - 1], latest, now);
      var a := snapshot[|snapshot| - 1];
      if WouldFire(a, latest, now) then before + [Fired(a, now)] else before
  }

  /** A fired alert is silent for exactly five minutes and may fire again
      from then on. */
  lemma ThrottleWindow(a: Alert, firedAt: int, later: int)
    requires later >= firedAt
    ensures Throttled(Fired(a, firedAt), later) <==> later < firedAt + ThrottleMs
    ensures Fired(a, firedAt).triggerCount == a.triggerCount + 1
  {
  }

  /** Above and below never fire together for one alert's threshold. */
  lemma AboveAndBelowExclusive(a: Alert, e: FinancialMetrics)
    requires a.condition == Above
    ensures !(ConditionHolds(a, e) && ConditionHolds(a.(condition := Below), e))
  {
  }

  /** An "above" alert that fires keeps firing when its threshold is lowered,
      and a "below" alert when its threshold is raised. */
  lemma ThresholdMonotone(a: Alert, e: FinancialMetrics, t: real)
    requires a.condition == Above ==> t <= a.threshold
    requires a.condition == Below ==> t >= a.threshold
    requires a.condition != Equals && ConditionHolds(a, e)
    ensures ConditionHolds(a.(threshold := t), e)
  {
  }

  /** Alerts that are not fired keep their place; fired ones carry the stamp. */
  ghost predicate SettledAt(state: seq<Alert>, snapshot: seq<Alert>, k: nat, latest: FinancialMetrics, now: int)
    requires |state| == |snapshot| && k <= |snapshot|
  {
    forall j :: 0 <= j < |state| ==>
      state[j].id == snapshot[j].id &&
      (state[j].lastTriggered == Some(now) ||
       (state[j] == snapshot[j] &&
        forall i :: 0 <= i < k && snapshot[i].id == snapshot[j].id ==> !WouldFire(snapshot[i], latest, now)))
  }

  lemma SettledStep(state: seq<Alert>, snapshot: seq<Alert>, k: nat, latest: FinancialMetrics, now: int)
    requires |state| == |snapshot| && k < |snapshot|
    requires SettledAt(state, snapshot, k, latest, now)
    ensures var a := snapshot[k];
      var next := if a.enabled && ConditionHolds(a, latest) then TriggerStep(state, a, now) else state;
      |next| == |snapshot| && SettledAt(next, snapshot, k + 1, latest, now)
  {
  }

  lemma {:induction false} EvaluatedSettles(snapshot: seq<Alert>, k: nat, latest: FinancialMetrics, now: int)
    requires k <= |snapshot|
    ensures SettledAt(Evaluated(snapshot, snapshot[..k], latest, now), snapshot, k, latest, now)
  {
    if k > 0 {
      EvaluatedSettles(snapshot, k - 1, latest, now);
      assert snapshot[..k][..k - 1] == snapshot[..k - 1];
      SettledStep(Evaluated(snapshot, snapshot[..k - 1], latest, now), snapshot, k - 1, latest, now);
    }
  }

  /** After an evaluation pass no alert would fire again at the same moment. */
  lemma NothingFiresAfterEvaluation(snapshot: seq<Alert>, latest: FinancialMetrics, now: int)
    ensures forall j :: 0 <= j < |Evaluated(snapshot, snapshot, latest, now)| ==>
      !WouldFire(Evaluated(snapshot, snapshot, latest, now)[j], latest, now)
  {
    EvaluatedSettles(snapshot, |snapshot|, latest, now);
    assert snapshot[..|snapshot|] == snapshot;
    var after := Evaluated(snapshot, snapshot, latest, now);
    forall j | 0 <= j < |after|
      ensures !WouldFire(after[j], latest, now)
    {
      if after[j].lastTriggered != Some(now) {
        assert after[j] == snapshot[j];
      }
    }
  }

  /** A pass over alerts none of which would fire changes nothing and
      reports nothing. */
  lemma {:induction false} QuietPass(state: seq<Alert>, snapshot: seq<Alert>, latest: FinancialMetrics, now: int)
    requires forall j :: 0 <= j < |snapshot| ==> !WouldFire(snapshot[j], latest, now)
    ensures Evaluated(state, snapshot, latest, now) == state
    ensures Firings(snapshot, latest, now) == []
  {
    if |snapshot| > 0 {
      QuietPass(state, snapshot[..|snapshot| - 1], latest, now);
    }
  }

  /** Evaluating the same entry again at the same moment is idle: the
      throttle keeps every alert from firing twice. */
  lemma SecondPassIsIdle(snapshot: seq<Alert>, latest: FinancialMetrics, now: int)
    ensures var after := Evaluated(snapshot, snapshot, latest, now);
      Evaluated(after, after, latest, now) == after && Firings(after, latest, now) == []
  {
    NothingFiresAfterEvaluation(snapshot, latest, now);
    var after := Evaluated(snapshot, snapshot, latest, now);
    assert forall j :: 0 <= j < |after| ==> !WouldFire(after[j], latest, now);
    QuietPass(after, after, latest, now);
  }

  /** `b` is some snapshot alert that would fire, after firing. */
  ghost predicate FiredFrom(snapshot: seq<Alert>, b: Alert, latest: FinancialMetrics, now: int)
  {
    exists i :: 0 <= i < |snapshot| && WouldFire(snapshot[i], latest, now) && b == Fired(snapshot[i], now)
  }

  /** Each reported alert is a snapshot alert that would fire, after firing. */
  lemma {:induction false} FiringsSound(snapshot: seq<Alert>, latest: FinancialMetrics, now: int)
    ensures forall k :: 0 <= k < |Firings(snapshot, latest, now)| ==>
      FiredFrom(snapshot, Firings(snapshot, latest, now)[k], latest, now)
  {
    if |snapshot| > 0 {
      var n := |snapshot| - 1;
      var prefix := snapshot[..n];
      FiringsSound(prefix, latest, now);
      var r, before := Firings(snapshot, latest, now), Firings(prefix, latest, now);
      forall k | 0 <= k < |r|
        ensures FiredFrom(snapshot, r[k], latest, now)
      {
        if k < |before| {
          assert r[k] == before[k];
          assert FiredFrom(prefix, before[k], latest, now);
          var i :| 0 <= i < |prefix| && WouldFire(prefix[i], latest, now) && before[k] == Fired(prefix[i], now);
          assert snapshot[i] == prefix[i];
        } else {
          assert WouldFire(snapshot[n], latest, now) && r[k] == Fired(snapshot[n], now);
        }
      }
    }
  }

  /** Every snapshot alert that would fire is reported. */
  lemma {:induction false} FiringsComplete(snapshot: seq<Alert>, latest: FinancialMetrics, now: int)
    ensures forall i :: 0 <= i < |snapshot| && WouldFire(snapshot[i], latest, now) ==>
      Fired(snapshot[i], now) in Firings(snapshot, latest, now)
  {
    if |snapshot| > 0 {
      var n := |snapshot| - 1;
      var prefix := snapshot[..n];
      FiringsComplete(prefix, latest, now);
      assert forall i :: 0 <= i < n ==> snapshot[i] == prefix[i];
    }
  }

  /** `a.enabled = !a.enabled` for every alert with the id. */
  function ToggleById(s: seq<Alert>, id: string): (r: seq<Alert>)
    ensures |r| == |s|
    ensures forall i :: 0 <= i < |s| ==> r[i] == if s[i].id == id then s[i].(enabled := !s[i].enabled) else s[i]
  {
    seq(|s|, i requires 0 <= i < |s| => if s[i].id == id then s[i].(enabled := !s[i].enabled) else s[i])
  }

  /** Switching an alert twice leaves the list as it was. */
  lemma ToggleTwice(s: seq<Alert>, id: string)
    ensures ToggleById(ToggleById(s, id), id) == s
  {
    var t := ToggleById(ToggleById(s, id), id);
    assert forall i :: 0 <= i < |s| ==> t[i] == s[i];
  }

  function WithoutId(s: seq<Alert>, id: string): seq<Alert>
  {
    Keep(s, (a: Alert) => a.id != id)
  }

  /** Deleting removes every alert with the id and keeps the others in order. */
  lemma DeleteRemovesExactly(s: seq<Alert>, id: string)
    ensures var r := WithoutId(s, id);
      (forall k :: 0 <= k < |r| ==> r[k].id != id && r[k] in s) &&
      FilteredAt(r, s, (a: Alert) => a.id != id, KeptIndices(s, (a: Alert) => a.id != id))
  {
    KeepIsSubsequence(s, (a: Alert) => a.id != id);
  }

  /** The alert `createAlert` makes: on, never fired, stamped with `now`. */
  function NewAlert(id: string, name: string, kind: AlertType, condition: Condition, threshold: real,
                    symbol: string, timeframe: string, now: int): (a: Alert)
    ensures a.enabled && a.triggerCount == 0 && a.lastTriggered.None?
    ensures a.id == id && a.name == name && a.threshold == threshold && a.createdAt == now
  {
    Alert(id, name, kind, condition, threshold, true, symbol, timeframe, now, None, 0)
  }

  /** Deleting a freshly created alert by its new id gives the list back. */
  lemma CreateThenDelete(s: seq<Alert>, a: Alert)
    requires forall i :: 0 <= i < |s| ==> s[i].id != a.id
    ensures WithoutId(s + [a], a.id) == s
  {
    var p := (b: Alert) => b.id != a.id;
    assert (s + [a])[..|s|] == s;
    KeepAll(s, p);
  }

  /** The alert list of one symbol and timeframe. */
  class AlertBook {
    var alerts: seq<Alert>
    const symbol: string
    const timeframe: string

    constructor (symbol: string, timeframe: string)
      ensures alerts == [] && this.symbol == symbol && this.timeframe == timeframe
    {
      alerts := [];
      this.symbol := symbol;
      this.timeframe := timeframe;
    }

    /** `createAlert`: a missing name or threshold is refused; otherwise the
        new alert is appended. The caller supplies the id (the source uses
        `Date.now()`). */
    method CreateAlert(name: string, kind: AlertType, condition: Condition, threshold: Option<real>,
                       id: string, now: int) returns (created: bool)
      modifies this
      ensures created <==> name != [] && threshold.Some?
      ensures created ==>
        alerts == old(alerts) + [NewAlert(id, name, kind, condition, threshold.value, symbol, timeframe, now)]
      ensures !created ==> alerts == old(alerts)
    {
      if name == [] || threshold.None? {
        return false;
      }
      alerts := alerts + [NewAlert(id, name, kind, condition, threshold.value, symbol, timeframe, now)];
      created := true;
    }

    /** `deleteAlert` */
    method DeleteAlert(id: string)
      modifies this
      ensures alerts == WithoutId(old(alerts), id)
    {
      alerts := WithoutId(alerts, id);
    }

    /** `toggleAlert` */
    method ToggleAlert(id: string)
      modifies this
      ensures alerts == ToggleById(old(alerts), id)
    {
      alerts := ToggleById(alerts, id);
    }

    /** `triggerAlert` for the snapshot alert `a`: nothing within five minutes
        of its last firing; otherwise every alert with its id is replaced by
        `a` after firing, which is reported. */
    method TriggerAlert(a: Alert, now: int) returns (fired: Option<Alert>)
      modifies this
      ensures alerts == TriggerStep(old(alerts), a, now)
      ensures fired == if Throttled(a, now) then None else Some(Fired(a, now))
    {
      if Throttled(a, now) {
        return None;
      }
      var updated := Fired(a, now);
      alerts := ReplaceById(alerts, a.id, updated);
      fired := Some(updated);
    }

    /** The evaluation pass: with alerts and data present, every enabled
        alert of the current list whose condition holds for the latest entry
        is triggered, in list order; the triggered alerts are returned. */
    method EvaluateAlerts(currentData: seq<FinancialMetrics>, now: int) returns (fired: seq<Alert>)
      modifies this
      ensures |old(alerts)| == 0 || |currentData| == 0 ==> alerts == old(alerts) && fired == []
      ensures |old(alerts)| > 0 && |currentData| > 0 ==>
        var latest := currentData[|currentData| - 1];
        alerts == Evaluated(old(alerts), old(alerts), latest, now) &&
        fired == Firings(old(alerts), latest, now)
    {
      fired := [];
      if |alerts| == 0 || |currentData| == 0 {
        return;
      }
      var latest := currentData[|currentData| - 1];
      var snapshot := alerts;
      for i := 0 to |snapshot|
        invariant alerts == Evaluated(snapshot, snapshot[..i], latest, now)
        invariant fired == Firings(snapshot[..i], latest, now)
      {
        var a := snapshot[i];
        assert snapshot[..i + 1][..i] == snapshot[..i];
        if a.enabled && ConditionHolds(a, latest) {
          var f := TriggerAlert(a, now);
          if f.Some? {
            fired := fired + [f.value];
          }
        }
      }
      assert snapshot[..|snapshot|] == snapshot;
    }
  }
}
