/** Alert rules and their cooldown in libs/monitoring/src/monitoring.service.ts. Times are milliseconds. */
module Alerts {
  import opened Collections
  import opened Text

  datatype Rule = Rule(name: string, enabled: bool, cooldownMinutes: nat, lastTriggered: Option<nat>)

  /** The rule's id and a clock reading, of which the id text is made. */
  datatype AlertId = AlertId(ruleId: string, at: nat)

  function IdText(id: AlertId): string {
    "alert_" + id.ruleId + "_" + Decimal(id.at)
  }

  /** The text determines both, so that ids can be kept instead of their texts. */
  lemma IdTextInjective(x: AlertId, y: AlertId)
    ensures IdText(x) == IdText(y) <==> x == y
  {
    if IdText(x) == IdText(y) {
      EndsInNumber("alert_" + x.ruleId + "_", x.at, "alert_" + y.ruleId + "_", y.at);
      assert ("alert_" + x.ruleId + "_")[6..|x.ruleId| + 6] == x.ruleId;
      assert ("alert_" + y.ruleId + "_")[6..|y.ruleId| + 6] == y.ruleId;
    }
  }

  datatype Alert = Alert(id: AlertId, ruleId: string, timestamp: nat, resolved: bool)

  /** The map of active alerts shares its objects with the history, so it is kept as positions in the history. */
  datatype State = State(rules: map<string, Rule>, active: map<AlertId, nat>, history: seq<Alert>)

  /** The clock readings of one pass over a rule: the cooldown test, the id, the timestamp, lastTriggered. */
  datatype Readings = Readings(test: nat, id: nat, stamp: nat, mark: nat)

  datatype Event =
    | Visit(ruleId: string, condition: bool, r: Readings)
    | Resolve(id: AlertId)
    | Update(ruleId: string, rule: Rule)

  predicate CoolingDown(rule: Rule, now: nat) {
    rule.lastTriggered.Some? && now < rule.lastTriggered.value + rule.cooldownMinutes * 60 * 1000
  }

  /** The visit raises an alert. */
  predicate Fires(s: State, e: Event) {
    && e.Visit? && e.ruleId in s.rules && s.rules[e.ruleId].enabled
    && !CoolingDown(s.rules[e.ruleId], e.r.test) && e.condition
  }

  function AlertOf(e: Event): Alert
    requires e.Visit?
  {
    Alert(AlertId(e.ruleId, e.r.id), e.ruleId, e.r.stamp, false)
  }

  function Next(s: State, e: Event): State {
    match e
    case Visit(ruleId, _, r) =>
      if !Fires(s, e) then s
      else State(s.rules[ruleId := s.rules[ruleId].(lastTriggered := Some(r.mark))],
                 s.active[AlertId(ruleId, r.id) := |s.history|], s.history + [AlertOf(e)])
    case Resolve(id) =>
      if id in s.active && s.active[id] < |s.history| then
        s.(history := s.history[s.active[id] := s.history[s.active[id]].(resolved := true)])
      else s
    case Update(ruleId, rule) => if ruleId in s.rules then s.(rules := s.rules[ruleId := rule]) else s
  }

  class MonitoringService {
    var alertRules: map<string, Rule>
    var activeAlerts: map<AlertId, nat>
    var alertHistory: seq<Alert>

    ghost function Contents(): State
      reads this
    {
      State(alertRules, activeAlerts, alertHistory)
    }

    /** Every active alert is an object of the history, under its own id. */
    ghost predicate Valid()
      reads this
    {
      ActiveInHistory(Contents())
    }

    constructor (rules: map<string, Rule>)
      ensures Contents() == State(rules, map[], []) && Valid()
    {
      alertRules, activeAlerts, alertHistory := rules, map[], [];
    }

    /** One turn of the loop in checkAlerts; nothing else runs between the test and the update of the rule. */
    method VisitRule(ruleId: string, condition: bool, r: Readings) returns (alerted: bool)
      requires Valid() && ruleId in alertRules
      modifies this
      ensures Contents() == Next(old(Contents()), Visit(ruleId, condition, r))
      ensures alerted == Fires(old(Contents()), Visit(ruleId, condition, r)) && Valid()
      ensures var rule := old(alertRules[ruleId]);
              alerted <==> rule.enabled && condition
                           && (rule.lastTriggered == None
                               || r.test - rule.lastTriggered.value >= 60_000 * rule.cooldownMinutes)
      ensures var alert := Alert(AlertId(ruleId, r.id), ruleId, r.stamp, false);
              if alerted then
                && alertHistory == old(alertHistory) + [alert]
                && activeAlerts == old(activeAlerts)[alert.id := |old(alertHistory)|]
                && alertRules == old(alertRules)[ruleId := old(alertRules[ruleId]).(lastTriggered := Some(r.mark))]
              else
                && alertHistory == old(alertHistory) && activeAlerts == old(activeAlerts)
                && alertRules == old(alertRules)
    {
      var rule := alertRules[ruleId];
      if !rule.enabled {
        return false;
      }
      if rule.lastTriggered.Some? {
        var cooldownEnd := rule.lastTriggered.value + rule.cooldownMinutes * 60 * 1000;
        if r.test < cooldownEnd {
          return false;
        }
      }
      if condition {
        var alert := Alert(AlertId(ruleId, r.id), ruleId, r.stamp, false);
        activeAlerts := activeAlerts[alert.id := |alertHistory|];
        alertHistory := alertHistory + [alert];
        alertRules := alertRules[ruleId := rule.(lastTriggered := Some(r.mark))];
        return true;
      }
      return false;
    }

    method ResolveAlert(id: AlertId) returns (done: bool)
      requires Valid()
      modifies this
      ensures Contents() == Next(old(Contents()), Resolve(id)) && Valid()
      ensures done <==> id in old(activeAlerts) && !old(alertHistory[activeAlerts[id]].resolved)
      ensures alertRules == old(alertRules) && activeAlerts == old(activeAlerts)
        && |alertHistory| == |old(alertHistory)|
      ensures forall k :: 0 <= k < |alertHistory| ==>
                alertHistory[k] == if done && k == old(activeAlerts[id]) then old(alertHistory[k]).(resolved := true)
                                   else old(alertHistory[k])
    {
      if id in activeAlerts && !alertHistory[activeAlerts[id]].resolved {
        var k := activeAlerts[id];
        alertHistory := alertHistory[k := alertHistory[k].(resolved := true)];
        return true;
      }
      return false;
    }

    method UpdateAlertRule(ruleId: string, rule: Rule) returns (found: bool)
      requires Valid()
      modifies this
      ensures Contents() == Next(old(Contents()), Update(ruleId, rule)) && Valid()
      ensures found <==> ruleId in old(alertRules)
      ensures alertRules == (if found then old(alertRules)[ruleId := rule] else old(alertRules))
      ensures activeAlerts == old(activeAlerts) && alertHistory == old(alertHistory)
    {
      if ruleId in alertRules {
        alertRules := alertRules[ruleId := rule];
        return true;
      }
      return false;
    }
  }

  ghost predicate ActiveInHistory(s: State) {
    forall id :: id in s.active ==> s.active[id] < |s.history| && s.history[s.active[id]].id == id
  }

  // ----- runs -----

  function At(rules: map<string, Rule>, events: seq<Event>, i: nat): State
    requires i <= |events|
  {
    if i == 0 then State(rules, map[], []) else Next(At(rules, events, i - 1), events[i - 1])
  }

  /** The clock does not run backwards within a visit; between visits it may do anything. */
  predicate ClockRunsForward(events: seq<Event>) {
    forall i :: 0 <= i < |events| && events[i].Visit? ==>
      events[i].r.test <= events[i].r.id <= events[i].r.stamp <= events[i].r.mark
  }

  /** Event `i` raises an alert of the rule. */
  predicate Raises(rules: map<string, Rule>, events: seq<Event>, i: nat, ruleId: string)
    requires i < |events|
  {
    Fires(At(rules, events, i), events[i]) && events[i].ruleId == ruleId
  }

  predicate NotUpdated(events: seq<Event>, from: nat, to: nat, ruleId: string) {
    forall k :: from <= k < to && k < |events| ==> !(events[k].Update? && events[k].ruleId == ruleId)
  }

  /** From an alert on, the rule remembers a trigger at least as late, and keeps its cooldown, until it is updated. */
  lemma {:induction false} TriggerRemembered(rules: map<string, Rule>, events: seq<Event>, ruleId: string, i: nat,
      j: nat)
    requires i < j <= |events| && ClockRunsForward(events)
    requires Raises(rules, events, i, ruleId) && NotUpdated(events, i, j, ruleId)
    ensures var s := At(rules, events, j);
            && ruleId in s.rules && s.rules[ruleId].cooldownMinutes
                == At(rules, events, i).rules[ruleId].cooldownMinutes
            && s.rules[ruleId].lastTriggered.Some? && s.rules[ruleId].lastTriggered.value >= events[i].r.mark
  {
    if j > i + 1 {
      TriggerRemembered(rules, events, ruleId, i, j - 1);
    }
  }

  /**
   * Cooldown. Two alerts of one rule, with overlapping runs of checkAlerts visiting rules in any
   * order and the rule not updated in between, are at least its cooldown apart.
   */
  lemma AlertsAreSpaced(rules: map<string, Rule>, events: seq<Event>, ruleId: string, i: nat, j: nat)
    requires i < j < |events| && ClockRunsForward(events)
    requires Raises(rules, events, i, ruleId) && Raises(rules, events, j, ruleId) && NotUpdated(events, i, j, ruleId)
    ensures events[j].r.stamp >= events[i].r.stamp + At(rules, events, i).rules[ruleId].cooldownMinutes * 60_000
  {
    TriggerRemembered(rules, events, ruleId, i, j);
  }

  predicate NoneRaised(rules: map<string, Rule>, events: seq<Event>, from: nat, to: nat, ruleId: string)
    requires to <= |events|
  {
    forall k :: from <= k < to ==> !Raises(rules, events, k, ruleId)
  }

  /** While it raises nothing and is not updated, a rule stays as it is. */
  lemma {:induction false} RuleStays(rules: map<string, Rule>, events: seq<Event>, ruleId: string, i: nat, j: nat)
    requires i <= j <= |events| && NotUpdated(events, i, j, ruleId) && NoneRaised(rules, events, i, j, ruleId)
    requires ruleId in At(rules, events, i).rules
    ensures ruleId in At(rules, events, j).rules
    ensures At(rules, events, j).rules[ruleId] == At(rules, events, i).rules[ruleId]
  {
    if i < j {
      RuleStays(rules, events, ruleId, i, j - 1);
      assert !Raises(rules, events, j - 1, ruleId);
    }
  }

  /**
   * After an alert, a visit of the rule before the next one raises it if and only if the condition
   * holds and the cooldown since the alert is over.
   */
  lemma NextAlertIff(rules: map<string, Rule>, events: seq<Event>, ruleId: string, i: nat, j: nat)
    requires i < j < |events| && Raises(rules, events, i, ruleId)
    requires NotUpdated(events, i, j, ruleId) && NoneRaised(rules, events, i + 1, j, ruleId)
    requires events[j].Visit? && events[j].ruleId == ruleId
    ensures var cooldown := At(rules, events, i).rules[ruleId].cooldownMinutes * 60_000;
            Raises(rules, events, j, ruleId) <==> events[j].condition && events[j].r.test >= events[i].r.mark + cooldown
  {
    assert At(rules, events, i + 1) == Next(At(rules, events, i), events[i]);
    RuleStays(rules, events, ruleId, i + 1, j);
  }

  /**
   * A rule that was never triggered raises its first alert at the first visit with a true
   * condition, if it is enabled.
   */
  lemma FirstAlertIff(rules: map<string, Rule>, events: seq<Event>, ruleId: string, j: nat)
    requires j < |events| && ruleId in rules && rules[ruleId].lastTriggered == None
    requires NotUpdated(events, 0, j, ruleId) && NoneRaised(rules, events, 0, j, ruleId)
    requires events[j].Visit? && events[j].ruleId == ruleId
    ensures Raises(rules, events, j, ruleId) <==> rules[ruleId].enabled && events[j].condition
  {
    RuleStays(rules, events, ruleId, 0, j);
  }

  /** A disabled rule raises nothing until it is updated. */
  lemma {:induction false} DisabledIsSilent(rules: map<string, Rule>, events: seq<Event>, ruleId: string, j: nat)
    requires j <= |events| && ruleId in rules && !rules[ruleId].enabled && NotUpdated(events, 0, j, ruleId)
    ensures NoneRaised(rules, events, 0, j, ruleId)
  {
    if j > 0 {
      DisabledIsSilent(rules, events, ruleId, j - 1);
      RuleStays(rules, events, ruleId, 0, j - 1);
    }
  }

  /** The timestamps of the rule's alerts among the first `n` events that fall in the window. */
  function TimesIn(rules: map<string, Rule>, events: seq<Event>, n: nat, ruleId: string, start: nat,
      width: nat): seq<nat>
    requires n <= |events|
  {
    if n == 0 then []
    else
      var before := TimesIn(rules, events, n - 1, ruleId, start, width);
      if Raises(rules, events, n - 1, ruleId) && start <= events[n - 1].r.stamp <= start + width
      then before + [events[n - 1].r.stamp] else before
  }

  /** The last of the times belongs to alert `last`, and the times before it are a cooldown apart. */
  ghost predicate SpacedUpTo(rules: map<string, Rule>, events: seq<Event>, n: nat, ruleId: string, start: nat,
      width: nat, gap: nat, last: nat)
    requires n <= |events|
  {
    var t := TimesIn(rules, events, n, ruleId, start, width);
    t != [] ==> last < n && Raises(rules, events, last, ruleId) && t[|t| - 1] == events[last].r.stamp <= start + width
                && events[last].r.stamp >= start + gap * (|t| - 1)
  }

  lemma {:induction false} TimesAreSpaced(rules: map<string, Rule>, events: seq<Event>, n: nat, ruleId: string,
      start: nat, width: nat, gap: nat)
    returns (last: nat)
    requires n <= |events| && ClockRunsForward(events) && NotUpdated(events, 0, |events|, ruleId)
    requires ruleId in rules && rules[ruleId].cooldownMinutes * 60_000 == gap
    ensures SpacedUpTo(rules, events, n, ruleId, start, width, gap, last)
  {
    last := 0;
    if n > 0 {
      last := TimesAreSpaced(rules, events, n - 1, ruleId, start, width, gap);
      if Raises(rules, events, n - 1, ruleId) && start <= events[n - 1].r.stamp <= start + width {
        if TimesIn(rules, events, n - 1, ruleId, start, width) != [] {
          NextIsSpaced(rules, events, n - 1, ruleId, gap, last);
          var k := |TimesIn(rules, events, n - 1, ruleId, start, width)|;
          assert gap * (k - 1) + gap == gap * k;
        }
        last := n - 1;
      }
    }
  }

  lemma NextIsSpaced(rules: map<string, Rule>, events: seq<Event>, n: nat, ruleId: string, gap: nat, last: nat)
    requires last < n < |events| && ClockRunsForward(events) && NotUpdated(events, 0, |events|, ruleId)
    requires ruleId in rules && rules[ruleId].cooldownMinutes * 60_000 == gap
    requires Raises(rules, events, last, ruleId) && Raises(rules, events, n, ruleId)
    ensures events[n].r.stamp >= events[last].r.stamp + gap
  {
    AlertsAreSpaced(rules, events, ruleId, last, n);
    CooldownKept(rules, events, ruleId, last);
  }

  lemma {:induction false} CooldownKept(rules: map<string, Rule>, events: seq<Event>, ruleId: string, i: nat)
    requires i <= |events| && NotUpdated(events, 0, |events|, ruleId) && ruleId in rules
    ensures ruleId in At(rules, events, i).rules && At(rules, events, i).rules[ruleId].cooldownMinutes
      == rules[ruleId].cooldownMinutes
  {
    if i > 0 {
      CooldownKept(rules, events, ruleId, i - 1);
    }
  }

  /**
   * Rate limit. All but one of the alerts of a rule that is never updated account for a whole
   * cooldown of any window they fall in: a window holds at most width / cooldown + 1 of them.
   */
  lemma WindowBound(rules: map<string, Rule>, events: seq<Event>, ruleId: string, start: nat, width: nat)
    requires ClockRunsForward(events) && NotUpdated(events, 0, |events|, ruleId) && ruleId in rules
    ensures var raised := TimesIn(rules, events, |events|, ruleId, start, width);
            rules[ruleId].cooldownMinutes * 60_000 * (|raised| - 1) <= width
  {
    var gap := rules[ruleId].cooldownMinutes * 60_000;
    var last := TimesAreSpaced(rules, events, |events|, ruleId, start, width, gap);
    var count := |TimesIn(rules, events, |events|, ruleId, start, width)|;
    if count == 0 {
      assert gap * (count - 1) == -gap;
    } else {
      assert start + gap * (count - 1) <= start + width;
    }
  }

  /** Every alert comes from a visit that raised it. */
  lemma {:induction false} VisitOfAlert(rules: map<string, Rule>, events: seq<Event>, n: nat, k: nat) returns (i: nat)
    requires n <= |events| && k < |At(rules, events, n).history|
    ensures i < n && events[i].Visit? && Raises(rules, events, i, events[i].ruleId)
    ensures At(rules, events, n).history[k].id == AlertOf(events[i]).id
  {
    if k < |At(rules, events, n - 1).history| {
      i := VisitOfAlert(rules, events, n - 1, k);
    } else {
      i := n - 1;
    }
  }

  lemma LaterIdIsLater(rules: map<string, Rule>, events: seq<Event>, i: nat, n: nat, ruleId: string)
    requires i < n < |events| && ClockRunsForward(events) && NotUpdated(events, 0, |events|, ruleId)
    requires Raises(rules, events, i, ruleId) && Raises(rules, events, n, ruleId)
    requires ruleId in rules && rules[ruleId].cooldownMinutes > 0
    ensures events[i].r.id < events[n].r.id
  {
    TriggerRemembered(rules, events, ruleId, i, n);
    CooldownKept(rules, events, ruleId, i);
  }

  /**
   * With positive cooldowns and no updates, every alert of the history, resolved or not, is reached
   * through the active map, and the active map reaches nothing else.
   */
  lemma {:induction false} HistoryIsReached(rules: map<string, Rule>, events: seq<Event>, n: nat)
    requires n <= |events| && ClockRunsForward(events)
    requires forall r :: r in rules ==> rules[r].cooldownMinutes > 0
    requires forall i :: 0 <= i < |events| ==> !events[i].Update?
    ensures AllReached(At(rules, events, n))
  {
    if n > 0 {
      HistoryIsReached(rules, events, n - 1);
      var s, e := At(rules, events, n - 1), events[n - 1];
      forall k | 0 <= k < |s.history| && Fires(s, e) ensures s.history[k].id != AlertOf(e).id {
        NewIdIsNew(rules, events, n - 1, k);
      }
      StepKeepsActive(s, e);
    }
  }

  /** Every alert of the history is found in the active map under its id, at its own position. */
  ghost predicate AllReached(s: State) {
    ActiveInHistory(s) && forall k :: 0 <= k < |s.history| ==>
        s.history[k].id in s.active && s.active[s.history[k].id] == k
  }

  /**
   * With positive cooldowns and no updates, an alert is resolved if and only if its id was resolved
   * after it was raised.
   */
  lemma {:induction false} ResolvedIff(rules: map<string, Rule>, events: seq<Event>, n: nat, k: nat)
    requires n <= |events| && ClockRunsForward(events) && k < |At(rules, events, n).history|
    requires forall r :: r in rules ==> rules[r].cooldownMinutes > 0
    requires forall i :: 0 <= i < |events| ==> !events[i].Update?
    ensures At(rules, events, n).history[k].resolved <==>
            exists i :: 0 <= i < n && ResolvesAt(rules, events, i, k, At(rules, events, n).history[k].id)
  {
    var s, e := At(rules, events, n - 1), events[n - 1];
    var id := At(rules, events, n).history[k].id;
    if k < |s.history| {
      ResolvedIff(rules, events, n - 1, k);
      HistoryIsReached(rules, events, n - 1);
      ResolveStep(s, e, k);
      assert ResolvesAt(rules, events, n - 1, k, id) <==> e == Resolve(id);
    } else {
      forall i | 0 <= i < n ensures !ResolvesAt(rules, events, i, k, id) {
        HistoryGrows(rules, events, i, n - 1);
      }
    }
  }

  lemma ResolveStep(s: State, e: Event, k: nat)
    requires AllReached(s) && k < |s.history|
    ensures k < |Next(s, e).history| && Next(s, e).history[k].id == s.history[k].id
    ensures Next(s, e).history[k].resolved <==> s.history[k].resolved || e == Resolve(s.history[k].id)
  {
  }

  /** Event `i` resolves the id when position `k` of the history is taken. */
  predicate ResolvesAt(rules: map<string, Rule>, events: seq<Event>, i: nat, k: nat, id: AlertId)
    requires i < |events|
  {
    events[i] == Resolve(id) && k < |At(rules, events, i).history|
  }

  lemma {:induction false} HistoryGrows(rules: map<string, Rule>, events: seq<Event>, i: nat, j: nat)
    requires i <= j <= |events|
    ensures |At(rules, events, i).history| <= |At(rules, events, j).history|
  {
    if i < j {
      HistoryGrows(rules, events, i, j - 1);
    }
  }

  lemma StepKeepsActive(s: State, e: Event)
    requires AllReached(s)
    requires Fires(s, e) ==> forall k :: 0 <= k < |s.history| ==> s.history[k].id != AlertOf(e).id
    ensures AllReached(Next(s, e))
  {
  }

  lemma NewIdIsNew(rules: map<string, Rule>, events: seq<Event>, n: nat, k: nat)
    requires n < |events| && ClockRunsForward(events) && k < |At(rules, events, n).history|
    requires forall r :: r in rules ==> rules[r].cooldownMinutes > 0
    requires forall i :: 0 <= i < |events| ==> !events[i].Update?
    requires Fires(At(rules, events, n), events[n])
    ensures At(rules, events, n).history[k].id != AlertOf(events[n]).id
  {
    var i := VisitOfAlert(rules, events, n, k);
    var ruleId := events[n].ruleId;
    if events[i].ruleId == ruleId {
      RuleExists(rules, events, i, ruleId);
      LaterIdIsLater(rules, events, i, n, ruleId);
    }
  }

  lemma {:induction false} RuleExists(rules: map<string, Rule>, events: seq<Event>, i: nat, ruleId: string)
    requires i <= |events|
    ensures ruleId in At(rules, events, i).rules <==> ruleId in rules
  {
    if i > 0 {
      RuleExists(rules, events, i - 1, ruleId);
    }
  }
}
