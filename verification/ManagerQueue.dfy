/**
 The manager queue (orchestrator_harness/manager_queue.py) and the worker outbox that
 feeds it (orchestrator_harness/monitor.py).

 A queue transaction runs under the queue lock and replaces the file in one step, so
 it is one method call here.  Draining one notice is two steps, promotion and
 archiving, and the monitor may die before, between or after them.
 */
module ManagerQueue {
  import opened Common
  import opened Strings

  /******* Records *******/

  datatype State = Pending | Acknowledged | Complete | Blocked

  datatype Entry = Entry(state: State, at: string, summary: Option<string>)

  datatype Receipt = Receipt(source: string, queueId: string, eventId: string,
                             sessionId: Option<string>, bindingId: Option<string>, at: string)

  datatype Event = Event(id: string, kind: string, lane: string, run: string, summary: string,
                         state: State, history: seq<Entry>, deliveries: seq<Receipt>,
                         eventClass: string, severity: string, signal: Option<string>, key: Option<string>)

  // What a promotion asks for.  An empty string is an argument left out.
  datatype Promotion = Promotion(kind: string, lane: string, run: string, summary: string,
                                 eventClass: string, severity: string, signal: Option<string>, key: string)

  datatype Error =
    | InvalidEventType
    | InvalidSeverity
    | EventNotFound
    | AlreadyAcknowledged
    | NotAcknowledged
    | AlreadyClosed
    | InvalidOutcome
    | SummaryRequired

  const EVENT_TYPES := {"COMPLETION_REVIEW_REQUIRED", "LANE_RESULT_INVALID", "LANE_RESUME_REQUIRED", "LANE_STATUS_CHANGED"}

  const SEVERITIES := {"info", "warning", "error", "blocking"}

  /******* What always holds of a queue *******/

  ghost function States(history: seq<Entry>): seq<State> {
    seq(|history|, i requires 0 <= i < |history| => history[i].state)
  }

  // A prefix of pending, acknowledged, complete or blocked, ending in the event's state.
  ghost predicate HistoryLawful(e: Event) {
    States(e.history) ==
    match e.state
    case Pending => [Pending]
    case Acknowledged => [Pending, Acknowledged]
    case Complete => [Pending, Acknowledged, Complete]
    case Blocked => [Pending, Acknowledged, Blocked]
  }

  predicate WatchReceipt(r: Receipt, queueId: string, eventId: string, session: string, binding: string) {
    r.source == "watch" && r.queueId == queueId && r.eventId == eventId
    && r.sessionId == Some(session) && r.bindingId == Some(binding)
  }

  // The idle watch told this session and binding of this event of this queue, at some time.
  ghost predicate Told(r: Receipt, queueId: string, eventId: string, session: string, binding: string) {
    r == Receipt("watch", queueId, eventId, Some(session), Some(binding), r.at)
  }

  // No session and binding is told twice by the idle watch.
  ghost predicate WatchedOnce(queueId: string, e: Event) {
    forall i, j, session, binding | 0 <= i < j < |e.deliveries| ::
      !(Told(e.deliveries[i], queueId, e.id, session, binding) && Told(e.deliveries[j], queueId, e.id, session, binding))
  }

  ghost predicate Lawful(queueId: string, e: Event) {
    HistoryLawful(e) && WatchedOnce(queueId, e) && e.key != Some("")
  }

  // Ids and deduplication keys name at most one event.
  ghost predicate Distinct(events: seq<Event>) {
    forall i, j | 0 <= i < j < |events| ::
      events[i].id != events[j].id && (events[i].key.Some? ==> events[i].key != events[j].key)
  }

  ghost predicate Sound(queueId: string, events: seq<Event>) {
    Distinct(events) && forall i | 0 <= i < |events| :: Lawful(queueId, events[i])
  }

  // What one event may become: what it is stays, what it went through only grows.
  ghost predicate Grows(before: Event, after: Event) {
    && after == before.(state := after.state, history := after.history, deliveries := after.deliveries, summary := after.summary)
    && before.history <= after.history && before.deliveries <= after.deliveries
  }

  // What a queue may become: events are added at the end and never removed.
  ghost predicate Evolves(before: seq<Event>, after: seq<Event>) {
    |before| <= |after| && forall i | 0 <= i < |before| :: Grows(before[i], after[i])
  }

  lemma EvolvesTransitive(a: seq<Event>, b: seq<Event>, c: seq<Event>)
    requires Evolves(a, b) && Evolves(b, c)
    ensures Evolves(a, c)
  {
    forall i | 0 <= i < |a|
      ensures Grows(a[i], c[i])
    {
      assert Grows(a[i], b[i]) && Grows(b[i], c[i]);
    }
  }

  // Closed events stay closed, with the same outcome.
  lemma ClosedStaysClosed(queueId: string, before: seq<Event>, after: seq<Event>, i: nat)
    requires Sound(queueId, before) && Sound(queueId, after) && Evolves(before, after)
    requires i < |before| && before[i].state in {Complete, Blocked}
    ensures after[i].state == before[i].state && after[i].history == before[i].history
  {
    var e, f := before[i], after[i];
    assert Grows(e, f) && HistoryLawful(e) && HistoryLawful(f);
    assert |States(e.history)| == 3 && |States(f.history)| <= 3;
    assert States(e.history)[2] == e.history[2].state == f.history[2].state == States(f.history)[2];
  }

  ghost predicate HasId(events: seq<Event>, id: string) {
    exists i :: 0 <= i < |events| && events[i].id == id
  }

  ghost predicate HasKey(events: seq<Event>, key: string) {
    exists i :: 0 <= i < |events| && events[i].key == Some(key)
  }

  lemma EvolvesKeepsKeys(before: seq<Event>, after: seq<Event>, key: string)
    requires Evolves(before, after) && HasKey(before, key)
    ensures HasKey(after, key)
  {
    var i :| 0 <= i < |before| && before[i].key == Some(key);
    assert Grows(before[i], after[i]);
  }

  lemma AppendKeepsSound(queueId: string, events: seq<Event>, e: Event)
    requires Sound(queueId, events) && Lawful(queueId, e)
    requires !HasId(events, e.id) && (e.key.Some? ==> !HasKey(events, e.key.value))
    ensures Sound(queueId, events + [e]) && Evolves(events, events + [e])
  {
  }

  lemma ReplaceKeepsSound(queueId: string, events: seq<Event>, i: nat, e: Event)
    requires Sound(queueId, events) && i < |events| && Grows(events[i], e) && Lawful(queueId, e)
    ensures Sound(queueId, events[i := e]) && Evolves(events, events[i := e])
  {
  }

  /******* The transitions of one event *******/

  function AcknowledgedAt(e: Event, now: string): Event {
    e.(state := Acknowledged, history := e.history + [Entry(Acknowledged, now, None)])
  }

  function ClosedAt(e: Event, outcome: State, summary: string, now: string): Event {
    e.(state := outcome, history := e.history + [Entry(outcome, now, Some(summary))], summary := summary)
  }

  function DeliveredAt(e: Event, r: Receipt): Event {
    e.(deliveries := e.deliveries + [r])
  }

  lemma StatesAppend(history: seq<Entry>, entry: Entry)
    ensures States(history + [entry]) == States(history) + [entry.state]
  {
  }

  // Acknowledging is lawful exactly for a pending event.
  lemma AcknowledgeExactly(queueId: string, e: Event, now: string)
    requires Lawful(queueId, e)
    ensures Grows(e, AcknowledgedAt(e, now))
    ensures Lawful(queueId, AcknowledgedAt(e, now)) <==> e.state == Pending
  {
    StatesAppend(e.history, Entry(Acknowledged, now, None));
    assert States(e.history)[|States(e.history)| - 1] == e.state;
  }

  // Closing is lawful exactly for an acknowledged event and one of the two outcomes.
  lemma CloseExactly(queueId: string, e: Event, outcome: State, summary: string, now: string)
    requires Lawful(queueId, e) && outcome in {Complete, Blocked}
    ensures Grows(e, ClosedAt(e, outcome, summary, now))
    ensures Lawful(queueId, ClosedAt(e, outcome, summary, now)) <==> e.state == Acknowledged
  {
    StatesAppend(e.history, Entry(outcome, now, Some(summary)));
    assert States(e.history)[|States(e.history)| - 1] == e.state;
  }

  // A watch receipt is lawful exactly when there is none for its session and binding.
  lemma WatchExactly(queueId: string, e: Event, session: string, binding: string, now: string)
    requires Lawful(queueId, e)
    ensures var next := DeliveredAt(e, Receipt("watch", queueId, e.id, Some(session), Some(binding), now));
            && Grows(e, next)
            && (Lawful(queueId, next) <==>
                forall i | 0 <= i < |e.deliveries| :: !Told(e.deliveries[i], queueId, e.id, session, binding))
  {
    var r := Receipt("watch", queueId, e.id, Some(session), Some(binding), now);
    var next := DeliveredAt(e, r);
    var n := |e.deliveries|;
    assert next.deliveries[n] == r && Told(r, queueId, e.id, session, binding);
    forall i | 0 <= i < n && Told(e.deliveries[i], queueId, e.id, session, binding)
      ensures !WatchedOnce(queueId, next)
    {
      assert next.deliveries[i] == e.deliveries[i];
    }
  }

  // The hook's receipts do not count as the watch's.
  lemma HookReceiptIsLawful(queueId: string, e: Event, r: Receipt)
    requires Lawful(queueId, e) && r.source != "watch"
    ensures Grows(e, DeliveredAt(e, r)) && Lawful(queueId, DeliveredAt(e, r))
  {
  }

  /******* The queue *******/

  class ManagerQueue {
    const queueId: string
    var events: seq<Event>

    constructor (queueId: string)
      ensures this.queueId == queueId && events == []
    {
      this.queueId, events := queueId, [];
    }

    ghost predicate Valid()
      reads this
    {
      Sound(queueId, events)
    }

    // The first event of this id.
    method FindEvent(id: string) returns (found: Option<nat>)
      ensures found.None? <==> !HasId(events, id)
      ensures found.Some? ==> found.value < |events| && events[found.value].id == id
    {
      found := None;
      for i := 0 to |events|
        invariant forall j | 0 <= j < i :: events[j].id != id
      {
        if events[i].id == id {
          return Some(i);
        }
      }
    }

    // Admit one pending event, or return the event that already has its key.
    method Promote(p: Promotion, id: string, now: string) returns (r: Result<Event, Error>)
      requires Valid() && !HasId(events, id)
      modifies this`events
      ensures Valid() && Evolves(old(events), events)
      ensures var known, typed := p.key != "" && HasKey(old(events), p.key),
                                  p.kind in {"COMPLETION_REVIEW_REQUIRED", "LANE_RESULT_INVALID", "LANE_RESUME_REQUIRED", "LANE_STATUS_CHANGED"};
              && (!typed ==> r == Err(InvalidEventType))
              && (typed && known ==> r.Ok? && r.value in old(events) && r.value.key == Some(p.key))
              && (typed && !known && p.severity !in {"", "info", "warning", "error", "blocking"} ==> r == Err(InvalidSeverity))
              && (typed && !known && p.severity in {"", "info", "warning", "error", "blocking"} ==>
                    r == Ok(Event(id, p.kind, p.lane, p.run, p.summary, Pending, [Entry(Pending, now, None)], [],
                                  p.eventClass, p.severity, p.signal, if p.key == "" then None else Some(p.key))))
              && events == if r.Ok? && !known then old(events) + [r.value] else old(events)
    {
      if p.kind !in EVENT_TYPES {
        return Err(InvalidEventType);
      }
      if p.key != "" {
        for i := 0 to |events|
          invariant forall j | 0 <= j < i :: events[j].key != Some(p.key)
          invariant events == old(events)
        {
          if events[i].key == Some(p.key) {
            return Ok(events[i]);
          }
        }
      }
      if p.severity != "" && p.severity !in SEVERITIES {
        return Err(InvalidSeverity);
      }
      var event := Event(id, p.kind, p.lane, p.run, p.summary, Pending, [Entry(Pending, now, None)], [],
                         p.eventClass, p.severity, p.signal, if p.key == "" then None else Some(p.key));
      AppendKeepsSound(queueId, events, event);
      events := events + [event];
      return Ok(event);
    }

    // Advance one event from pending to acknowledged.
    method Acknowledge(id: string, now: string) returns (r: Result<Event, Error>)
      requires Valid()
      modifies this`events
      ensures Valid() && Evolves(old(events), events)
      ensures !HasId(old(events), id) ==> r == Err(EventNotFound)
      ensures r.Err? ==> events == old(events)
      ensures forall i | 0 <= i < |old(events)| && old(events)[i].id == id ::
                if old(events)[i].state == Pending
                then r == Ok(AcknowledgedAt(old(events)[i], now)) && events == old(events)[i := r.value]
                else r == Err(AlreadyAcknowledged)
    {
      var found := FindEvent(id);
      if found.None? {
        return Err(EventNotFound);
      }
      var event := events[found.value];
      AcknowledgeExactly(queueId, event, now);
      if event.state != Pending {
        return Err(AlreadyAcknowledged);
      }
      event := AcknowledgedAt(event, now);
      ReplaceKeepsSound(queueId, events, found.value, event);
      events := events[found.value := event];
      return Ok(event);
    }

    // Close an acknowledged event with its outcome and a summary that is not blank.
    method Close(id: string, outcome: string, summary: string, now: string) returns (r: Result<Event, Error>)
      requires Valid()
      modifies this`events
      ensures Valid() && Evolves(old(events), events)
      ensures r.Err? ==> events == old(events)
      ensures outcome !in {"COMPLETE", "BLOCKED"} ==> r == Err(InvalidOutcome)
      ensures outcome in {"COMPLETE", "BLOCKED"} && Strip(summary) == "" ==> r == Err(SummaryRequired)
      ensures outcome in {"COMPLETE", "BLOCKED"} && Strip(summary) != "" ==>
                && (!HasId(old(events), id) ==> r == Err(EventNotFound))
                && forall i | 0 <= i < |old(events)| && old(events)[i].id == id ::
                     match old(events)[i].state
                     case Pending => r == Err(NotAcknowledged)
                     case Acknowledged =>
                       && r == Ok(ClosedAt(old(events)[i], if outcome == "COMPLETE" then Complete else Blocked, Strip(summary), now))
                       && events == old(events)[i := r.value]
                     case _ => r == Err(AlreadyClosed)
    {
      if outcome !in {"COMPLETE", "BLOCKED"} {
        return Err(InvalidOutcome);
      }
      var normalized := Strip(summary);
      if normalized == "" {
        return Err(SummaryRequired);
      }
      var found := FindEvent(id);
      if found.None? {
        return Err(EventNotFound);
      }
      var event := events[found.value];
      var next := if outcome == "COMPLETE" then Complete else Blocked;
      CloseExactly(queueId, event, next, normalized, now);
      if event.state == Pending {
        return Err(NotAcknowledged);
      }
      if event.state in {Complete, Blocked} {
        return Err(AlreadyClosed);
      }
      event := ClosedAt(event, next, normalized, now);
      ReplaceKeepsSound(queueId, events, found.value, event);
      events := events[found.value := event];
      return Ok(event);
    }

    // The hook's receipt, made whatever the event's state.
    method AppendDeliveryHistory(id: string, session: Option<string>, binding: Option<string>, now: string)
      requires Valid()
      modifies this`events
      ensures Valid() && Evolves(old(events), events)
      ensures !HasId(old(events), id) ==> events == old(events)
      ensures forall i | 0 <= i < |old(events)| && old(events)[i].id == id ::
                events == old(events)[i := DeliveredAt(old(events)[i], Receipt("hook", queueId, id, session, binding, now))]
    {
      var found := FindEvent(id);
      if found.None? {
        return;
      }
      var event := events[found.value];
      var receipt := Receipt("hook", queueId, id, session, binding, now);
      HookReceiptIsLawful(queueId, event, receipt);
      ReplaceKeepsSound(queueId, events, found.value, DeliveredAt(event, receipt));
      events := events[found.value := DeliveredAt(event, receipt)];
    }

    // The idle watch's receipt, made once for a session and binding while the event is open.
    method AppendWatchDelivery(id: string, session: string, binding: string, now: string) returns (delivered: bool)
      requires Valid()
      modifies this`events
      ensures Valid() && Evolves(old(events), events)
      ensures !HasId(old(events), id) ==> !delivered
      ensures !delivered ==> events == old(events)
      ensures forall i | 0 <= i < |old(events)| && old(events)[i].id == id ::
                && (delivered <==>
                    && old(events)[i].state in {Pending, Acknowledged}
                    && forall k | 0 <= k < |old(events)[i].deliveries| ::
                         !Told(old(events)[i].deliveries[k], queueId, id, session, binding))
                && (delivered ==> events == old(events)[i :=
                      DeliveredAt(old(events)[i], Receipt("watch", queueId, id, Some(session), Some(binding), now))])
    {
      var found := FindEvent(id);
      if found.None? || events[found.value].state !in {Pending, Acknowledged} {
        return false;
      }
      var event := events[found.value];
      for k := 0 to |event.deliveries|
        invariant forall j | 0 <= j < k :: !Told(event.deliveries[j], queueId, id, session, binding)
        invariant events == old(events)
      {
        if WatchReceipt(event.deliveries[k], queueId, id, session, binding) {
          return false;
        }
      }
      WatchExactly(queueId, event, session, binding, now);
      event := DeliveredAt(event, Receipt("watch", queueId, id, Some(session), Some(binding), now));
      ReplaceKeepsSound(queueId, events, found.value, event);
      events := events[found.value := event];
      return true;
    }
  }

  /******* The outbox of one lane *******/

  // A file a worker left.  An empty field is a missing one.
  datatype File =
    | Unreadable
    | NotAnObject
    | Notice(summary: string, message: string, severity: string, eventClass: string, noticeId: string, signalId: string)

  function Or(a: string, b: string): string {
    if a != "" then a else b
  }

  function LastDot(name: string, n: nat): (i: int)
    requires n <= |name|
    ensures -1 <= i < n
  {
    if n == 0 then -1 else if name[n - 1] == '.' then n - 1 else LastDot(name, n - 1)
  }

  // A file name without its suffix.
  function Stem(name: string): string {
    var i := LastDot(name, |name|);
    if 0 < i < |name| - 1 then name[..i] else name
  }

  // The suffix begins at the last dot, which is neither the first character nor the last.
  lemma {:induction false} LastDotExactly(name: string, n: nat)
    requires n <= |name|
    ensures var i := LastDot(name, n); (i >= 0 ==> name[i] == '.') && forall k | 0 <= k < n && k > i :: name[k] != '.'
  {
    if n > 0 && name[n - 1] != '.' {
      LastDotExactly(name, n - 1);
    }
  }

  ghost predicate IsStem(stem: string, name: string) {
    && (forall i | 0 < i < |name| - 1 && name[i] == '.' && '.' !in name[i + 1..] :: stem == name[..i])
    && ((forall i | 0 < i < |name| - 1 && name[i] == '.' :: '.' in name[i + 1..]) ==> stem == name)
  }

  lemma StemExactly(name: string)
    ensures IsStem(Stem(name), name)
  {
    LastDotExactly(name, |name|);
    var last := LastDot(name, |name|);
    forall i | 0 < i < |name| - 1 && name[i] == '.'
      ensures '.' !in name[i + 1..] <==> i == last
    {
      if i < last {
        assert name[i + 1..][last - i - 1] == '.';
      }
    }
  }

  function SignalOf(file: File, name: string): string
    requires file.Notice?
  {
    Or(file.signalId, Or(file.noticeId, Stem(name)))
  }

  function NoticeKey(lane: string, run: string, signal: string): string {
    "worker-notice:" + lane + ":" + run + ":" + signal
  }

  function PromotionOf(lane: string, run: string, file: File, name: string): Promotion
    requires file.Notice?
  {
    Promotion("LANE_STATUS_CHANGED", lane, run, Or(Or(file.summary, file.message), "worker escalation"),
              Or(file.eventClass, "WORKER_ESCALATION"), Or(file.severity, "blocking"),
              Some(SignalOf(file, name)), NoticeKey(lane, run, SignalOf(file, name)))
  }

  // The event that a notice asks for.  Its signal is the notice's own, or its id, or the stem of its name.
  ghost predicate EventOf(e: Event, lane: string, run: string, file: File, name: string, id: string, now: string) {
    && file.Notice? && e.id == id && e.kind == "LANE_STATUS_CHANGED" && e.lane == lane && e.run == run
    && e.summary == (if file.summary != "" then file.summary else if file.message != "" then file.message else "worker escalation")
    && e.eventClass == (if file.eventClass != "" then file.eventClass else "WORKER_ESCALATION")
    && e.severity == (if file.severity != "" then file.severity else "blocking")
    && e.state == Pending && e.history == [Entry(Pending, now, None)] && e.deliveries == []
    && e.signal.Some? && e.key == Some("worker-notice:" + lane + ":" + run + ":" + e.signal.value)
    && (file.signalId != "" ==> e.signal.value == file.signalId)
    && (file.signalId == "" && file.noticeId != "" ==> e.signal.value == file.noticeId)
    && (file.signalId == "" && file.noticeId == "" ==> IsStem(e.signal.value, name))
  }

  lemma PromotedIsEventOf(lane: string, run: string, file: File, name: string, id: string, now: string)
    requires file.Notice?
    ensures var p := PromotionOf(lane, run, file, name);
            && p.kind in EVENT_TYPES && p.key != ""
            && (p.severity == "" || p.severity in SEVERITIES <==> GoodSeverity(file))
            && EventOf(Event(id, p.kind, p.lane, p.run, p.summary, Pending, [Entry(Pending, now, None)], [],
                             p.eventClass, p.severity, p.signal, Some(p.key)), lane, run, file, name, id, now)
  {
    hide IsStem, Stem;
    StemExactly(name);
  }

  // What a key says before the signal.
  ghost function NoticeScope(lane: string, run: string): string {
    lane + ":" + run + ":"
  }

  lemma KeyIsScopeAndSignal(lane: string, run: string, signal: string)
    ensures NoticeKey(lane, run, signal) == "worker-notice:" + (NoticeScope(lane, run) + signal)
  {
  }

  // Keys are equal exactly when scopes and signals spell the same text.
  lemma SameKeySameText(lane: string, run: string, signal: string, lane': string, run': string, signal': string)
    ensures NoticeKey(lane, run, signal) == NoticeKey(lane', run', signal') <==>
            NoticeScope(lane, run) + signal == NoticeScope(lane', run') + signal'
  {
    var p, x, y := "worker-notice:", NoticeScope(lane, run) + signal, NoticeScope(lane', run') + signal';
    KeyIsScopeAndSignal(lane, run, signal);
    KeyIsScopeAndSignal(lane', run', signal');
    assert (p + x)[|p|..] == x && (p + y)[|p|..] == y;
  }

  // Some signals of two lanes and runs share a key if and only if one scope is a prefix of the other.
  lemma NoticeKeysCollideExactly(lane: string, run: string, lane': string, run': string)
    ensures (exists signal, signal' :: NoticeKey(lane, run, signal) == NoticeKey(lane', run', signal')) <==>
            NoticeScope(lane, run) <= NoticeScope(lane', run') || NoticeScope(lane', run') <= NoticeScope(lane, run)
  {
    hide NoticeKey, NoticeScope;
    var x, y := NoticeScope(lane, run), NoticeScope(lane', run');
    forall signal, signal' | NoticeKey(lane, run, signal) == NoticeKey(lane', run', signal')
      ensures x <= y || y <= x
    {
      SameKeySameText(lane, run, signal, lane', run', signal');
      assert x == (x + signal)[..|x|] && y == (y + signal')[..|y|];
    }
    if x <= y {
      assert x + y[|x|..] == y + "";
      SameKeySameText(lane, run, y[|x|..], lane', run', "");
    }
    if y <= x {
      assert y + x[|y|..] == x + "";
      SameKeySameText(lane, run, "", lane', run', x[|y|..]);
    }
  }

  lemma FirstColon(a: string, b: string, x: string, y: string)
    requires ':' !in a && ':' !in b && a + ":" + x == b + ":" + y
    ensures a == b && x == y
  {
    var s, t := a + ":" + x, b + ":" + y;
    assert s[|a|] == t[|b|] == ':' && (forall k | 0 <= k < |a| :: s[k] == a[k]) && forall k | 0 <= k < |b| :: t[k] == b[k];
    assert |a| == |b|;
    assert a == s[..|a|] == t[..|b|] == b;
    assert x == s[|a| + 1..] == t[|b| + 1..] == y;
  }

  // Without colons in lane and run, neither scope is a proper prefix of the other,
  lemma ColonFreeScopes(lane: string, run: string, lane': string, run': string)
    requires ':' !in lane && ':' !in lane' && ':' !in run && ':' !in run'
    ensures NoticeScope(lane, run) <= NoticeScope(lane', run') ==> lane == lane' && run == run'
  {
    var x, y := NoticeScope(lane, run), NoticeScope(lane', run');
    if x <= y {
      var rest := y[|x|..];
      assert x + rest == y;
      assert lane + ":" + (run + ":" + rest) == x + rest;
      assert lane' + ":" + (run' + ":") == y;
      FirstColon(lane, lane', run + ":" + rest, run' + ":");
      assert run' + ":" == run' + ":" + "";
      FirstColon(run, run', rest, "");
    }
  }

  // so a key belongs to one lane, run and signal.
  lemma NoticeKeyExactly(lane: string, run: string, signal: string, lane': string, run': string, signal': string)
    requires ':' !in lane && ':' !in lane' && ':' !in run && ':' !in run'
    ensures NoticeKey(lane, run, signal) == NoticeKey(lane', run', signal') <==> lane == lane' && run == run' && signal == signal'
  {
    if NoticeKey(lane, run, signal) == NoticeKey(lane', run', signal') {
      NoticeKeysCollideExactly(lane, run, lane', run');
      ColonFreeScopes(lane, run, lane', run');
      ColonFreeScopes(lane', run', lane, run);
      SameKeySameText(lane, run, signal, lane', run', signal');
      var x := NoticeScope(lane, run);
      assert (x + signal)[|x|..] == signal && (x + signal')[|x|..] == signal';
    }
  }

  // With a colon in a lane's name, two lanes' signals can share one key.
  lemma NoticeKeysCollide()
    ensures NoticeKey("a", "r", "s:t") == NoticeKey("a:r", "s", "t")
    ensures NoticeScope("a", "r") <= NoticeScope("a:r", "s")
  {
    assert NoticeScope("a", "r") + "s:t" == NoticeScope("a:r", "s") + "t";
    SameKeySameText("a", "r", "s:t", "a:r", "s", "t");
  }

  datatype Diagnostic = Inspection(name: string) | PromotionFailed(name: string) | ArchiveFailed(name: string)

  // What happens to the monitor while it drains one notice.
  datatype Fault = NoFault | ArchiveFails | DiesBeforePromotion | DiesBeforeArchive

  datatype Drained = Archived | Retained(diagnostic: Diagnostic) | Gone | Died

  // The notice's event is in the queue.
  ghost predicate Recorded(events: seq<Event>, lane: string, run: string, name: string, file: File) {
    file.Notice? && HasKey(events, NoticeKey(lane, run, SignalOf(file, name)))
  }

  ghost predicate GoodSeverity(file: File) {
    file.Notice? && Or(file.severity, "blocking") in SEVERITIES
  }

  // Its event exists, or may be made.
  ghost predicate Promotable(events: seq<Event>, lane: string, run: string, name: string, file: File) {
    file.Notice? && (Recorded(events, lane, run, name, file) || GoodSeverity(file))
  }

  ghost function DrainResult(waiting: map<string, File>, events: seq<Event>, lane: string, run: string, name: string, fault: Fault): Drained {
    if name !in waiting then Gone
    else if !waiting[name].Notice? then Retained(Inspection(name))
    else if fault == DiesBeforePromotion then Died
    else if !Promotable(events, lane, run, name, waiting[name]) then Retained(PromotionFailed(name))
    else match fault
      case ArchiveFails => Retained(ArchiveFailed(name))
      case DiesBeforeArchive => Died
      case _ => Archived
  }

  class Outbox {
    const lane: string
    const run: string
    var waiting: map<string, File>
    var archived: map<string, File>

    constructor (lane: string, run: string)
      ensures this.lane == lane && this.run == run && waiting == map[] && archived == map[]
    {
      this.lane, this.run, waiting, archived := lane, run, map[], map[];
    }

    // A notice is archived only once its event exists.
    ghost predicate ArchivedAreRecorded(events: seq<Event>)
      reads this
    {
      forall name | name in archived :: Recorded(events, lane, run, name, archived[name])
    }

    // A worker leaves a file.
    method Post(name: string, file: File)
      modifies this`waiting
      ensures waiting == old(waiting)[name := file]
    {
      waiting := waiting[name := file];
    }

    // Promote one waiting notice, then archive it.
    method Drain(queue: ManagerQueue, name: string, id: string, now: string, fault: Fault) returns (drained: Drained)
      requires queue.Valid() && ArchivedAreRecorded(queue.events) && !HasId(queue.events, id)
      modifies this`waiting, this`archived, queue`events
      ensures queue.Valid() && Evolves(old(queue.events), queue.events) && ArchivedAreRecorded(queue.events)
      // at most one event is added, the one that the notice asks for
      ensures queue.events != old(queue.events) ==>
                && name in old(waiting) && |queue.events| == |old(queue.events)| + 1 && queue.events[..|old(queue.events)|] == old(queue.events)
                && EventOf(queue.events[|old(queue.events)|], lane, run, old(waiting)[name], name, id, now)
      // what becomes of the file, from what was there before
      ensures drained == DrainResult(old(waiting), old(queue.events), lane, run, name, fault)
      // the drained file is not lost: it waits, or it is archived unchanged
      ensures drained == Archived ==> name in old(waiting) && waiting == old(waiting) - {name} && archived == old(archived)[name := old(waiting)[name]]
      ensures drained != Archived ==> waiting == old(waiting) && archived == old(archived)
      // an archived file goes exactly if another one of its name is promotable, and archived over it undisturbed
      ensures (exists n :: n in old(archived) && !(n in archived && archived[n] == old(archived)[n])) <==>
                && fault == NoFault && name in old(waiting) && Promotable(old(queue.events), lane, run, name, old(waiting)[name])
                && name in old(archived) && old(archived)[name] != old(waiting)[name]
      // its event stays
      ensures forall n | n in old(archived) :: Recorded(queue.events, lane, run, n, old(archived)[n])
      // what the monitor cannot read, or may not promote, leaves the queue alone
      ensures name in old(waiting) && !Promotable(old(queue.events), lane, run, name, old(waiting)[name]) ==> queue.events == old(queue.events)
      ensures fault == DiesBeforePromotion ==> queue.events == old(queue.events)
      // a replay after a death between the two steps, or after a failed archive, adds nothing
      ensures name in old(waiting) && Recorded(old(queue.events), lane, run, name, old(waiting)[name]) ==> queue.events == old(queue.events)
      // a promotable notice has its event unless the monitor died first, whatever becomes of its file
      ensures name in old(waiting) && fault != DiesBeforePromotion && (GoodSeverity(old(waiting)[name]) || drained == Archived) ==>
                Recorded(queue.events, lane, run, name, old(waiting)[name])
    {
      hide Sound, Evolves, NoticeKey, SignalOf, HasId, EventOf;
      EvolvesReflexive(queue.events);
      if name !in waiting {
        return Gone;
      }
      var file := waiting[name];
      if !file.Notice? {
        return Retained(Inspection(name));
      }
      if fault == DiesBeforePromotion {
        return Died;
      }
      ghost var before := queue.events;
      ghost var key := NoticeKey(lane, run, SignalOf(file, name));
      KeyIsNotEmpty(lane, run, SignalOf(file, name));
      PromotedIsEventOf(lane, run, file, name, id, now);
      var promoted := queue.Promote(PromotionOf(lane, run, file, name), id, now);
      StillRecorded(before, queue.events);
      if promoted.Err? {
        return Retained(PromotionFailed(name));
      }
      KeyIsIn(before, queue.events, key);
      if fault == DiesBeforeArchive {
        return Died;
      }
      if fault == ArchiveFails {
        return Retained(ArchiveFailed(name));
      }
      archived := archived[name := file];
      waiting := waiting - {name};
      return Archived;
    }

    lemma KeyIsNotEmpty(lane: string, run: string, signal: string)
      ensures NoticeKey(lane, run, signal) != ""
    {
      assert |NoticeKey(lane, run, signal)| > 0;
    }

    lemma KeyIsIn(before: seq<Event>, after: seq<Event>, key: string)
      requires HasKey(before, key) || (|after| > 0 && after[|after| - 1].key == Some(key))
      requires Evolves(before, after)
      ensures HasKey(after, key)
    {
      if HasKey(before, key) {
        EvolvesKeepsKeys(before, after, key);
      }
    }

    lemma StillRecorded(before: seq<Event>, after: seq<Event>)
      requires Evolves(before, after) && ArchivedAreRecorded(before)
      ensures ArchivedAreRecorded(after)
    {
      forall name | name in archived
        ensures Recorded(after, lane, run, name, archived[name])
      {
        EvolvesKeepsKeys(before, after, NoticeKey(lane, run, SignalOf(archived[name], name)));
      }
    }
  }

  // Two notices left one after the other under one name: the second is archived over the first.
  method ArchiveOverwrites(outbox: Outbox, queue: ManagerQueue, first: File, second: File, ids: (string, string), now: string)
    requires queue.Valid() && outbox.waiting == map[] && outbox.archived == map[]
    requires GoodSeverity(first) && GoodSeverity(second) && first != second
    requires !HasId(queue.events, ids.0) && !HasId(queue.events, ids.1) && ids.0 != ids.1
    modifies outbox`waiting, outbox`archived, queue`events
    ensures outbox.waiting == map[] && outbox.archived == map["notice.json" := second]
    ensures Recorded(queue.events, outbox.lane, outbox.run, "notice.json", first)
    ensures Recorded(queue.events, outbox.lane, outbox.run, "notice.json", second)
  {
    hide Recorded, Sound, Or;
    outbox.Post("notice.json", first);
    assert map["notice.json" := first] - {"notice.json"} == map[] && map["notice.json" := second] - {"notice.json"} == map[];
    var before := outbox.Drain(queue, "notice.json", ids.0, now, NoFault);
    assert outbox.waiting == map[];
    outbox.Post("notice.json", second);
    var after := outbox.Drain(queue, "notice.json", ids.1, now, NoFault);
  }

  // One pass of the monitor over a lane's outbox; archiving fails for some names.
  method ConsumeOutbox(outbox: Outbox, queue: ManagerQueue, listing: seq<string>, ids: seq<string>, now: string, archiveFails: set<string>)
    returns (diagnostics: seq<Diagnostic>)
    requires queue.Valid() && outbox.ArchivedAreRecorded(queue.events)
    requires |ids| == |listing|
    requires forall i | 0 <= i < |listing| :: listing[i] in outbox.waiting && !HasId(queue.events, ids[i])
    requires forall i, j | 0 <= i < j < |listing| :: listing[i] != listing[j] && ids[i] != ids[j]
    modifies outbox`waiting, outbox`archived, queue`events
    ensures queue.Valid() && Evolves(old(queue.events), queue.events) && outbox.ArchivedAreRecorded(queue.events)
    // every listed notice that may be promoted has its event, and is archived where archiving works
    ensures forall i | 0 <= i < |listing| && GoodSeverity(old(outbox.waiting)[listing[i]]) ::
              Recorded(queue.events, outbox.lane, outbox.run, listing[i], old(outbox.waiting)[listing[i]])
    ensures forall i | 0 <= i < |listing| && GoodSeverity(old(outbox.waiting)[listing[i]]) && listing[i] !in archiveFails ::
              && listing[i] !in outbox.waiting
              && listing[i] in outbox.archived && outbox.archived[listing[i]] == old(outbox.waiting)[listing[i]]
    // every other file still waits, unchanged, unless it is a notice whose event exists
    ensures forall name | name in old(outbox.waiting) ::
              if name in outbox.waiting then outbox.waiting[name] == old(outbox.waiting)[name]
              else && name in listing
                   && Recorded(queue.events, outbox.lane, outbox.run, name, old(outbox.waiting)[name])
    // where archiving fails nothing leaves
    ensures forall i | 0 <= i < |listing| && listing[i] in archiveFails :: listing[i] in outbox.waiting
    // one diagnostic for each listed file that is retained, which says why
    ensures |diagnostics| + |old(outbox.waiting)| == |listing| + |outbox.waiting|
    ensures Diagnosed(diagnostics, old(outbox.waiting), outbox.waiting, listing, |listing|, archiveFails)
  {
    hide Recorded, Evolves, Sound, HasId, Diagnosed;
    diagnostics := [];
    ghost var all := outbox.waiting;
    SweepStarts(outbox.lane, outbox.run, all, outbox.archived, queue.events, listing, archiveFails);
    EvolvesReflexive(queue.events);
    NothingDiagnosed(all, outbox.waiting, listing, archiveFails);
    for i := 0 to |listing|
      invariant queue.Valid() && Evolves(old(queue.events), queue.events) && outbox.ArchivedAreRecorded(queue.events)
      invariant forall j | i <= j < |listing| :: !HasId(queue.events, ids[j])
      invariant Swept(outbox.lane, outbox.run, all, outbox.waiting, outbox.archived, queue.events, listing, i, archiveFails)
      invariant |diagnostics| + |all| == i + |outbox.waiting|
      invariant Diagnosed(diagnostics, all, outbox.waiting, listing, i, archiveFails)
    {
      var name := listing[i];
      ghost var before, waiting := queue.events, outbox.waiting;
      assert name in waiting && waiting[name] == all[name];
      var drained := DrainListed(outbox, queue, all, listing, i, ids[i], now, archiveFails);
      EvolvesTransitive(old(queue.events), before, queue.events);
      IdsStayNew(before, queue.events, ids, i);
      ghost var reported := diagnostics;
      if drained.Retained? {
        diagnostics := diagnostics + [drained.diagnostic];
      }
      DiagnosedGrows(reported, diagnostics, all, waiting, outbox.waiting, listing, i, archiveFails, drained);
      if !drained.Retained? {
        assert |waiting - {name}| == |waiting| - 1;
      }
    }
    assert listing[..|listing|] == listing;
  }

  // What a diagnostic says of a file that stays.
  ghost predicate Says(d: Diagnostic, file: File, archiveFails: set<string>) {
    match d
    case Inspection(_) => !file.Notice?
    case PromotionFailed(_) => file.Notice? && !GoodSeverity(file)
    case ArchiveFailed(name) => file.Notice? && name in archiveFails
  }

  // The first n listed files are diagnosed if and only if they stay.
  ghost predicate Diagnosed(diagnostics: seq<Diagnostic>, all: map<string, File>, waiting: map<string, File>, listing: seq<string>, n: nat,
                            archiveFails: set<string>)
  {
    && n <= |listing| && (forall i | 0 <= i < n :: listing[i] in waiting <==> exists d :: d in diagnostics && d.name == listing[i])
    && forall d | d in diagnostics :: d.name in listing[..n] && d.name in all && Says(d, all[d.name], archiveFails)
  }

  lemma NothingDiagnosed(all: map<string, File>, waiting: map<string, File>, listing: seq<string>, archiveFails: set<string>)
    ensures Diagnosed([], all, waiting, listing, 0, archiveFails)
  {
  }

  lemma DiagnosedGrows(before: seq<Diagnostic>, after: seq<Diagnostic>, all: map<string, File>, waiting: map<string, File>, waiting': map<string, File>,
                       listing: seq<string>, i: nat, archiveFails: set<string>, drained: Drained)
    requires Diagnosed(before, all, waiting, listing, i, archiveFails) && i < |listing| && listing[i] in waiting && listing[i] in all
    requires forall j, k | 0 <= j < k < |listing| :: listing[j] != listing[k]
    requires if drained.Retained? then after == before + [drained.diagnostic] && waiting' == waiting
             else after == before && waiting' == waiting - {listing[i]}
    requires drained.Retained? ==> drained.diagnostic.name == listing[i] && Says(drained.diagnostic, all[listing[i]], archiveFails)
    ensures Diagnosed(after, all, waiting', listing, i + 1, archiveFails)
  {
    hide Says;
    assert listing[..i + 1] == listing[..i] + [listing[i]];
    if drained.Retained? {
      assert drained.diagnostic in after;
    }
    forall j | 0 <= j < i
      ensures (exists d :: d in after && d.name == listing[j]) <==> exists d :: d in before && d.name == listing[j]
    {
      if d :| d in before && d.name == listing[j] {
        assert d in after;
      }
    }
    forall d | d in before
      ensures d.name != listing[i]
    {
      var j :| 0 <= j < i && listing[..i][j] == d.name;
      assert listing[j] == d.name;
    }
  }

  // One listed notice of a pass.
  method DrainListed(outbox: Outbox, queue: ManagerQueue, ghost all: map<string, File>, listing: seq<string>, i: nat, id: string,
                     now: string, archiveFails: set<string>) returns (drained: Drained)
    requires queue.Valid() && outbox.ArchivedAreRecorded(queue.events) && i < |listing| && !HasId(queue.events, id)
    requires forall j, k | 0 <= j < k < |listing| :: listing[j] != listing[k]
    requires Swept(outbox.lane, outbox.run, all, outbox.waiting, outbox.archived, queue.events, listing, i, archiveFails)
    modifies outbox`waiting, outbox`archived, queue`events
    ensures queue.Valid() && outbox.ArchivedAreRecorded(queue.events) && Evolves(old(queue.events), queue.events)
    ensures queue.events != old(queue.events) ==> |queue.events| == |old(queue.events)| + 1 && queue.events[|old(queue.events)|].id == id
    ensures Swept(outbox.lane, outbox.run, all, outbox.waiting, outbox.archived, queue.events, listing, i + 1, archiveFails)
    ensures (drained.Retained? && outbox.waiting == old(outbox.waiting))
         || (drained.Archived? && outbox.waiting == old(outbox.waiting) - {listing[i]})
    ensures drained.Retained? ==>
              listing[i] in all && drained.diagnostic.name == listing[i] && Says(drained.diagnostic, all[listing[i]], archiveFails)
  {
    hide Recorded, Evolves, Sound, HasId, Swept;
    ghost var before, waiting, archived := queue.events, outbox.waiting, outbox.archived;
    SweptWaits(outbox.lane, outbox.run, all, waiting, archived, before, listing, i, archiveFails);
    var fault := if listing[i] in archiveFails then ArchiveFails else NoFault;
    drained := outbox.Drain(queue, listing[i], id, now, fault);
    RecordedStays(before, queue.events);
    SweptGrows(outbox.lane, outbox.run, all, waiting, outbox.waiting, archived, outbox.archived,
               before, queue.events, listing, i, archiveFails);
  }

  lemma SweptWaits(lane: string, run: string, all: map<string, File>, waiting: map<string, File>, archived: map<string, File>,
                   events: seq<Event>, listing: seq<string>, i: nat, archiveFails: set<string>)
    requires Swept(lane, run, all, waiting, archived, events, listing, i, archiveFails) && i < |listing|
    ensures listing[i] in waiting && listing[i] in all && waiting[listing[i]] == all[listing[i]]
  {
  }

  // How far a pass has come.
  ghost predicate Swept(lane: string, run: string, all: map<string, File>, waiting: map<string, File>, archived: map<string, File>,
                        events: seq<Event>, listing: seq<string>, i: nat, archiveFails: set<string>)
  {
    && i <= |listing| && (forall j | 0 <= j < |listing| :: listing[j] in all)
    && waiting.Keys <= all.Keys && (forall name | name in waiting :: waiting[name] == all[name])
    && (forall j | i <= j < |listing| :: listing[j] in waiting)
    && (forall j | 0 <= j < i && GoodSeverity(all[listing[j]]) :: Recorded(events, lane, run, listing[j], all[listing[j]]))
    && (forall j | 0 <= j < i && GoodSeverity(all[listing[j]]) && listing[j] !in archiveFails ::
          listing[j] !in waiting && listing[j] in archived && archived[listing[j]] == all[listing[j]])
    && (forall name | name in all && name !in waiting :: name in listing[..i] && name !in archiveFails && Recorded(events, lane, run, name, all[name]))
  }

  lemma SweepStarts(lane: string, run: string, all: map<string, File>, archived: map<string, File>,
                    events: seq<Event>, listing: seq<string>, archiveFails: set<string>)
    requires forall j | 0 <= j < |listing| :: listing[j] in all
    ensures Swept(lane, run, all, all, archived, events, listing, 0, archiveFails)
  {
  }

  lemma SweptGrows(lane: string, run: string, all: map<string, File>, waiting: map<string, File>, waiting': map<string, File>,
                   archived: map<string, File>, archived': map<string, File>, events: seq<Event>, events': seq<Event>,
                   listing: seq<string>, i: nat, archiveFails: set<string>)
    requires Swept(lane, run, all, waiting, archived, events, listing, i, archiveFails) && i < |listing|
    requires forall j, k | 0 <= j < k < |listing| :: listing[j] != listing[k]
    requires forall name, file | Recorded(events, lane, run, name, file) :: Recorded(events', lane, run, name, file)
    requires var name := listing[i];
             || (&& name !in archiveFails && waiting' == waiting - {name} && archived' == archived[name := all[name]]
                 && Recorded(events', lane, run, name, all[name]))
             || (&& waiting' == waiting && archived' == archived
                 && (GoodSeverity(all[name]) ==> name in archiveFails && Recorded(events', lane, run, name, all[name])))
    ensures Swept(lane, run, all, waiting', archived', events', listing, i + 1, archiveFails)
  {
    hide Recorded, GoodSeverity;
    assert listing[..i + 1] == listing[..i] + [listing[i]];
  }

  lemma EvolvesReflexive(events: seq<Event>)
    ensures Evolves(events, events)
  {
  }

  lemma IdsStayNew(before: seq<Event>, after: seq<Event>, ids: seq<string>, i: nat)
    requires i < |ids| && forall j | i <= j < |ids| :: !HasId(before, ids[j])
    requires forall j, k | 0 <= j < k < |ids| :: ids[j] != ids[k]
    requires Evolves(before, after)
    requires after != before ==> |after| == |before| + 1 && after[|before|].id == ids[i]
    ensures forall j | i < j < |ids| :: !HasId(after, ids[j])
  {
    forall j | i < j < |ids|
      ensures !HasId(after, ids[j])
    {
      forall k | 0 <= k < |after|
        ensures after[k].id != ids[j]
      {
        if k < |before| {
          assert Grows(before[k], after[k]);
        }
      }
    }
  }

  lemma RecordedStays(before: seq<Event>, after: seq<Event>)
    requires Evolves(before, after)
    ensures forall lane, run, name, file | Recorded(before, lane, run, name, file) :: Recorded(after, lane, run, name, file)
  {
    forall lane, run, name, file | Recorded(before, lane, run, name, file)
      ensures Recorded(after, lane, run, name, file)
    {
      EvolvesKeepsKeys(before, after, NoticeKey(lane, run, SignalOf(file, name)));
    }
  }

  /******* Every interleaving *******/

  datatype Action =
    | Promotes(promotion: Promotion, id: string)
    | Acknowledges(event: string)
    | Closes(event: string, outcome: string, summary: string)
    | HookDelivers(event: string, session: Option<string>, binding: Option<string>)
    | WatchDelivers(event: string, session': string, binding': string)
    | Posts(outbox: nat, name: string, file: File)
    | Drains(outbox: nat, name: string, id: string, fault: Fault)

  ghost predicate Brings(a: Action, id: string) {
    (a.Promotes? || a.Drains?) && a.id == id
  }

  // Generated ids are new and never come twice.
  ghost predicate FreshIds(events: seq<Event>, script: seq<Action>) {
    && (forall t, id | 0 <= t < |script| && Brings(script[t], id) :: !HasId(events, id))
    && forall t, u, id | 0 <= t < u < |script| && Brings(script[t], id) :: !Brings(script[u], id)
  }

  ghost predicate AllRecorded(outboxes: seq<Outbox>, events: seq<Event>)
    reads outboxes
  {
    forall k | 0 <= k < |outboxes| :: outboxes[k].ArchivedAreRecorded(events)
  }

  // One action of the monitor, ROOT, the hook, the watch or a worker.
  method Act(queue: ManagerQueue, outboxes: seq<Outbox>, a: Action, now: string)
    requires queue.Valid() && AllRecorded(outboxes, queue.events)
    requires forall id | Brings(a, id) :: !HasId(queue.events, id)
    requires a.Posts? || a.Drains? ==> a.outbox < |outboxes|
    modifies queue`events, outboxes
    ensures queue.Valid() && Evolves(old(queue.events), queue.events) && AllRecorded(outboxes, queue.events)
    ensures forall id | HasId(queue.events, id) :: HasId(old(queue.events), id) || Brings(a, id)
  {
    hide Sound, Recorded, GoodSeverity, SignalOf, States;
    match a {
      case Promotes(promotion, id) =>
        var _ := queue.Promote(promotion, id, now);
      case Acknowledges(event) =>
        var _ := queue.Acknowledge(event, now);
      case Closes(event, outcome, summary) =>
        var _ := queue.Close(event, outcome, summary, now);
      case HookDelivers(event, session, binding) =>
        queue.AppendDeliveryHistory(event, session, binding, now);
      case WatchDelivers(event, session, binding) =>
        var _ := queue.AppendWatchDelivery(event, session, binding, now);
      case Posts(k, name, file) =>
        outboxes[k].Post(name, file);
      case Drains(k, name, id, fault) =>
        var _ := outboxes[k].Drain(queue, name, id, now, fault);
    }
    RecordedStays(old(queue.events), queue.events);
  }

  // Any number of such actions, in any order, with deaths inside any drain.
  method Operate(queue: ManagerQueue, outboxes: seq<Outbox>, script: seq<Action>, now: seq<string>)
    requires queue.Valid() && AllRecorded(outboxes, queue.events) && FreshIds(queue.events, script)
    requires |now| == |script|
    requires forall t | 0 <= t < |script| && (script[t].Posts? || script[t].Drains?) :: script[t].outbox < |outboxes|
    modifies queue`events, outboxes
    ensures queue.Valid() && Evolves(old(queue.events), queue.events) && AllRecorded(outboxes, queue.events)
  {
    for t := 0 to |script|
      invariant queue.Valid() && Evolves(old(queue.events), queue.events) && AllRecorded(outboxes, queue.events)
      invariant forall u, id | t <= u < |script| && Brings(script[u], id) :: !HasId(queue.events, id)
    {
      ghost var before := queue.events;
      Act(queue, outboxes, script[t], now[t]);
      EvolvesTransitive(old(queue.events), before, queue.events);
    }
  }
}
