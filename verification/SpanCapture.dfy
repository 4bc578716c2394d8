/**
 The span-capture layer: spans are opened, annotated and closed by any number of threads
 while another thread drains the sink. Closing is two steps, because the record is detached
 from its span before the sink's lock is taken.
 */
module SpanCapture {
  import opened Prelude
  import opened Ordering
  import opened Spans

  type Fields = map<string, FieldValue>

  /** The layer as one thread sees it. */
  class BenchSpanLayer {
    const allowlist: Option<set<string>>
    var inFlight: map<nat, SpanRecord>
    var sink: seq<SpanRecord>

    constructor (allowlist: Option<set<string>>)
      ensures this.allowlist == allowlist && inFlight == map[] && sink == []
    {
      this.allowlist := allowlist;
      inFlight := map[];
      sink := [];
    }

    /** The layer as a state of the transition system below. */
    ghost function View(): State
      reads this
    {
      State(inFlight, multiset{}, sink, [])
    }

    /** `owner` is whoever opens the span; the layer does not look at it. */
    method OnNewSpan(id: nat, name: string, parent: Option<string>, fields: Fields, ghost owner: nat)
      modifies this`inFlight
      ensures View() == Step(allowlist, old(View()), Open(id, name, parent, fields, owner))
    {
      if !Allowed(allowlist, name) {
        return;
      }
      inFlight := inFlight[id := SpanRecord(name, parent, 0, fields)];
    }

    method OnRecord(id: nat, values: Fields)
      modifies this`inFlight
      ensures View() == Step(allowlist, old(View()), Record(id, values))
    {
      if id in inFlight {
        inFlight := inFlight[id := inFlight[id].(fields := inFlight[id].fields + values)];
      }
    }

    /** Both steps of closing, with nothing in between. */
    method OnClose(id: nat, elapsedUs: nat)
      modifies this`inFlight, this`sink
      ensures var detached := Step(allowlist, old(View()), Detach(id, elapsedUs));
              View() == if id in old(inFlight)
                        then Step(allowlist, detached, Push(Closed(old(inFlight)[id], elapsedUs)))
                        else detached
    {
      if id !in inFlight {
        return;
      }
      var record := inFlight[id];
      inFlight := inFlight - {id};
      record := record.(elapsedUs := Min(elapsedUs, U64_MAX));
      sink := sink + [record];
    }

    method TakeAll() returns (records: seq<SpanRecord>)
      modifies this`sink
      ensures records == old(sink)
      ensures View() == Step(allowlist, old(View()), Take).(taken := [])
    {
      records := sink;
      sink := [];
    }
  }

  predicate Allowed(allowlist: Option<set<string>>, name: string) {
    allowlist.None? || name in allowlist.value
  }

  function Closed(r: SpanRecord, elapsedUs: nat): SpanRecord {
    r.(elapsedUs := Min(elapsedUs, U64_MAX))
  }

  // ------------------------------------------------------------------
  // Interleavings
  // ------------------------------------------------------------------

  /** `detached` are the records of closed spans on their way to the sink. */
  datatype State = State(
    inFlight: map<nat, SpanRecord>,
    detached: multiset<SpanRecord>,
    sink: seq<SpanRecord>,
    taken: seq<seq<SpanRecord>>)

  datatype Event =
    | Open(id: nat, name: string, parent: Option<string>, fields: Fields, owner: nat)
    | Record(id: nat, values: Fields)
    | Detach(id: nat, elapsedUs: nat)
    | Push(record: SpanRecord)
    | Take

  /** An id names at most one open span, and only a detached record is pushed. */
  predicate Possible(s: State, e: Event) {
    match e
    case Open(id, _, _, _, _) => id !in s.inFlight
    case Push(r) => r in s.detached
    case _ => true
  }

  ghost function Step(allowlist: Option<set<string>>, s: State, e: Event): State {
    match e
    case Open(id, name, parent, fields, _) =>
      if Allowed(allowlist, name) then s.(inFlight := s.inFlight[id := SpanRecord(name, parent, 0, fields)]) else s
    case Record(id, values) =>
      if id in s.inFlight
          then s.(inFlight := s.inFlight[id := s.inFlight[id].(fields := s.inFlight[id].fields + values)]) else s
    case Detach(id, elapsedUs) =>
      if id in s.inFlight
      then s.(inFlight := s.inFlight - {id}, detached := s.detached + multiset{Closed(s.inFlight[id], elapsedUs)})
      else s
    case Push(r) => s.(detached := s.detached - multiset{r}, sink := s.sink + [r])
    case Take => s.(taken := s.taken + [s.sink], sink := [])
  }

  ghost predicate CanRun(allowlist: Option<set<string>>, s: State, events: seq<Event>)
    decreases events
  {
    events == [] || (Possible(s, events[0]) && CanRun(allowlist, Step(allowlist, s, events[0]), events[1..]))
  }

  ghost function Run(allowlist: Option<set<string>>, s: State, events: seq<Event>): State
    decreases events
  {
    if events == [] then s else Run(allowlist, Step(allowlist, s, events[0]), events[1..])
  }

  /** The record an event detaches from its span, if any. */
  ghost function ClosedBy(s: State, e: Event): multiset<SpanRecord> {
    if e.Detach? && e.id in s.inFlight then multiset{Closed(s.inFlight[e.id], e.elapsedUs)} else multiset{}
  }

  /** The records of all spans closed during a run. */
  ghost function ClosedIn(allowlist: Option<set<string>>, s: State, events: seq<Event>): multiset<SpanRecord>
    decreases events
  {
    if events == [] then multiset{}
    else ClosedBy(s, events[0]) + ClosedIn(allowlist, Step(allowlist, s, events[0]), events[1..])
  }

  /** Everything that has left its span: taken, in the sink, or on its way there. */
  ghost function Accounted(s: State): multiset<SpanRecord> {
    multiset(Concat(s.taken)) + multiset(s.sink) + s.detached
  }

  lemma {:induction false} ConcatSnoc(takes: seq<seq<SpanRecord>>, last: seq<SpanRecord>)
    ensures Concat(takes + [last]) == Concat(takes) + last
  {
    if takes == [] {
      assert [last][1..] == [];
      assert takes + [last] == [last];
    } else {
      ConcatSnoc(takes[1..], last);
      assert (takes + [last])[1..] == takes[1..] + [last];
    }
  }

  lemma PushMoves(
      taken: multiset<SpanRecord>, sink: seq<SpanRecord>, detached: multiset<SpanRecord>, r: SpanRecord)
    requires r in detached
    ensures taken + multiset(sink + [r]) + (detached - multiset{r}) == taken + multiset(sink) + detached
  {
    assert multiset(sink + [r]) == multiset(sink) + multiset{r};
  }

  lemma TakeConserves(allowlist: Option<set<string>>, s: State)
    ensures Accounted(Step(allowlist, s, Take)) == Accounted(s)
  {
    hide Concat;
    ConcatSnoc(s.taken, s.sink);
    assert multiset(Concat(s.taken) + s.sink) == multiset(Concat(s.taken)) + multiset(s.sink);
  }

  lemma DetachConserves(allowlist: Option<set<string>>, s: State, id: nat, elapsedUs: nat)
    ensures Accounted(Step(allowlist, s, Detach(id, elapsedUs))) == Accounted(s) + ClosedBy(s, Detach(id, elapsedUs))
  {
    hide Concat, Closed;
    if id in s.inFlight {
      MultisetAssociates(
        multiset(Concat(s.taken)) + multiset(s.sink), s.detached, multiset{Closed(s.inFlight[id], elapsedUs)});
    }
  }

  lemma {:induction false} StepConserves(allowlist: Option<set<string>>, s: State, e: Event)
    requires Possible(s, e)
    ensures Accounted(Step(allowlist, s, e)) == Accounted(s) + ClosedBy(s, e)
  {
    hide Concat, Closed;
    match e {
      case Take => TakeConserves(allowlist, s);
      case Push(r) => PushMoves(multiset(Concat(s.taken)), s.sink, s.detached, r);
      case Detach(id, elapsedUs) => DetachConserves(allowlist, s, id, elapsedUs);
      case _ =>
    }
  }

  /**
   Over every interleaving, each closed allowlisted span is in exactly one take, still in the
   sink, or being pushed: none is lost and none is reported twice.
   */
  lemma {:induction false} SpansAreConserved(allowlist: Option<set<string>>, s: State, events: seq<Event>)
    requires CanRun(allowlist, s, events)
    ensures Accounted(Run(allowlist, s, events)) == Accounted(s) + ClosedIn(allowlist, s, events)
    decreases events
  {
    if events != [] {
      var next := Step(allowlist, s, events[0]);
      StepConserves(allowlist, s, events[0]);
      SpansAreConserved(allowlist, next, events[1..]);
      hide Accounted, ClosedBy, Step;
      MultisetAssociates(Accounted(s), ClosedBy(s, events[0]), ClosedIn(allowlist, next, events[1..]));
    }
  }

  lemma MultisetAssociates(a: multiset<SpanRecord>, b: multiset<SpanRecord>, c: multiset<SpanRecord>)
    ensures a + b + c == a + (b + c)
  {
  }

  // ------------------------------------------------------------------
  // What a captured record holds
  // ------------------------------------------------------------------

  /** The event neither opens nor closes span `id`. */
  predicate LeavesOpen(e: Event, id: nat) {
    !(e.Open? && e.id == id) && !(e.Detach? && e.id == id)
  }

  /** The values recorded on `id`, later ones winning. */
  ghost function Recorded(events: seq<Event>, id: nat, fields: Fields): Fields
    decreases events
  {
    if events == [] then fields
    else Recorded(events[1..], id, if events[0].Record? && events[0].id == id then fields + events[0].values
        else fields)
  }

  /** While a span is open it gathers every value recorded on it, whatever else happens. */
  lemma {:induction false} OpenSpanGathersFields(allowlist: Option<set<string>>, s: State, events: seq<Event>, id: nat)
    requires id in s.inFlight
    requires forall i :: 0 <= i < |events| ==> LeavesOpen(events[i], id)
    ensures var after := Run(allowlist, s, events);
            id in after.inFlight && after.inFlight[id]
                == s.inFlight[id].(fields := Recorded(events, id, s.inFlight[id].fields))
    decreases events
  {
    if events != [] {
      assert LeavesOpen(events[0], id);
      OpenSpanGathersFields(allowlist, Step(allowlist, s, events[0]), events[1..], id);
    }
  }

  /** Every name the layer holds is on the allowlist. */
  ghost predicate NamesAllowed(allowlist: Option<set<string>>, s: State) {
    allowlist.Some? ==>
      && (forall id :: id in s.inFlight ==> s.inFlight[id].name in allowlist.value)
      && (forall r :: r in Accounted(s) ==> r.name in allowlist.value)
  }

  lemma {:induction false} OnlyAllowedNames(allowlist: Option<set<string>>, s: State, events: seq<Event>)
    requires NamesAllowed(allowlist, s) && CanRun(allowlist, s, events)
    ensures NamesAllowed(allowlist, Run(allowlist, s, events))
    decreases events
  {
    if events != [] {
      StepKeepsNames(allowlist, s, events[0]);
      hide NamesAllowed, Step;
      OnlyAllowedNames(allowlist, Step(allowlist, s, events[0]), events[1..]);
    }
  }

  lemma {:induction false} StepKeepsNames(allowlist: Option<set<string>>, s: State, e: Event)
    requires NamesAllowed(allowlist, s) && Possible(s, e)
    ensures NamesAllowed(allowlist, Step(allowlist, s, e))
  {
    StepConserves(allowlist, s, e);
    hide Accounted;
    var next := Step(allowlist, s, e);
    if allowlist.Some? {
      forall r | r in Accounted(next) ensures r.name in allowlist.value {
        assert r in Accounted(s) || r in ClosedBy(s, e);
      }
      forall id | id in next.inFlight ensures next.inFlight[id].name in allowlist.value {
        assert id in s.inFlight || (e.Open? && e.id == id);
      }
    }
  }

  ghost function FieldOf(fields: Fields, key: string): Option<FieldValue> {
    if key in fields then Some(fields[key]) else None
  }

  /** The value of a field once `events` have been recorded on `id`: the last one given, else the one it had. */
  ghost function FieldAfter(events: seq<Event>, id: nat, key: string, before: Option<FieldValue>): Option<FieldValue> {
    if events == [] then before
    else
      var e, earlier := events[|events| - 1], FieldAfter(events[..|events| - 1], id, key, before);
      if e.Record? && e.id == id && key in e.values then Some(e.values[key]) else earlier
  }

  lemma {:induction false} RecordedSnoc(events: seq<Event>, e: Event, id: nat, fields: Fields)
    ensures Recorded(events + [e], id, fields)
            == if e.Record? && e.id == id then Recorded(events, id, fields) + e.values else Recorded(events, id, fields)
    decreases events
  {
    if events == [] {
      assert events + [e] == [e] && [e][1..] == [];
      assert Recorded([], id, fields) == fields;
      assert e.Record? ==> Recorded([], id, fields + e.values) == fields + e.values;
    } else {
      assert (events + [e])[1..] == events[1..] + [e];
      RecordedSnoc(events[1..], e, id,
                   if events[0].Record? && events[0].id == id then fields + events[0].values else fields);
    }
  }

  lemma {:induction false} RecordedAt(events: seq<Event>, id: nat, fields: Fields, key: string)
    ensures FieldAfter(events, id, key, FieldOf(fields, key)) == FieldOf(Recorded(events, id, fields), key)
  {
    if events != [] {
      var n := |events| - 1;
      assert events == events[..n] + [events[n]];
      RecordedSnoc(events[..n], events[n], id, fields);
      hide Recorded;
      RecordedAt(events[..n], id, fields, key);
    }
  }

  /**
   What a captured record tells: from a span's opening, through whatever happens while it is
   open, to its closing, the record is under its name and parent, with its lifetime, and every
   field has the last value recorded on it, or the one it was opened with.
   */
  lemma {:induction false} RecordTellsItsSpan(
      allowlist: Option<set<string>>, s: State, begin: Event, events: seq<Event>, elapsedUs: nat)
    requires begin.Open? && (allowlist == None || begin.name in allowlist.value)
    requires forall i :: 0 <= i < |events| ==> LeavesOpen(events[i], begin.id)
    ensures var before := Run(allowlist, Step(allowlist, s, begin), events);
            && begin.id in before.inFlight
            && var r := Closed(before.inFlight[begin.id], elapsedUs);
               && ClosedBy(before, Detach(begin.id, elapsedUs)) == multiset{r}
               && r.name == begin.name && r.parent == begin.parent
               && r.elapsedUs == (if elapsedUs < 0x1_0000_0000_0000_0000 then elapsedUs else 0xFFFF_FFFF_FFFF_FFFF)
               && forall key :: FieldOf(r.fields, key)
                                == FieldAfter(events, begin.id, key, FieldOf(begin.fields, key))
  {
    OpenSpanGathersFields(allowlist, Step(allowlist, s, begin), events, begin.id);
    forall key
      ensures FieldOf(Recorded(events, begin.id, begin.fields), key)
              == FieldAfter(events, begin.id, key, FieldOf(begin.fields, key))
    {
      RecordedAt(events, begin.id, begin.fields, key);
    }
    hide Run, Recorded, FieldAfter, FieldOf;
  }

  // ------------------------------------------------------------------
  // Taking before and after an execution isolates it
  // ------------------------------------------------------------------

  ghost function PushedBy(events: seq<Event>): seq<SpanRecord> {
    if events == [] then [] else (if events[0].Push? then [events[0].record] else []) + PushedBy(events[1..])
  }

  lemma {:induction false} SinkCollectsPushes(allowlist: Option<set<string>>, s: State, events: seq<Event>)
    requires forall i :: 0 <= i < |events| ==> !events[i].Take?
    ensures Run(allowlist, s, events).sink == s.sink + PushedBy(events)
    ensures Run(allowlist, s, events).taken == s.taken
    decreases events
  {
    if events != [] {
      var next := Step(allowlist, s, events[0]);
      assert !events[0].Take?;
      assert next.taken == s.taken && next.sink == s.sink + if events[0].Push? then [events[0].record] else [];
      hide Step;
      SinkCollectsPushes(allowlist, next, events[1..]);
      Associate(s.sink, if events[0].Push? then [events[0].record] else [], PushedBy(events[1..]));
    }
  }

  lemma {:induction false} RunSplits(allowlist: Option<set<string>>, s: State, a: seq<Event>, b: seq<Event>)
    ensures Run(allowlist, s, a + b) == Run(allowlist, Run(allowlist, s, a), b)
    decreases a
  {
    if a == [] {
      assert a + b == b;
    } else {
      RunSplits(allowlist, Step(allowlist, s, a[0]), a[1..], b);
      assert (a + b)[1..] == a[1..] + b;
    }
  }

  /** Nothing is open, nothing is on its way. */
  const EMPTY := State(map[], multiset{}, [], [])

  /** The event opens a span for somebody else than `owner`. */
  predicate ForeignOpen(e: Event, owner: nat) {
    e.Open? && e.owner != owner
  }

  /** The events without the spans other owners open. */
  ghost function WithoutForeign(events: seq<Event>, owner: nat): seq<Event> {
    if events == [] then []
    else (if ForeignOpen(events[0], owner) then [] else [events[0]]) + WithoutForeign(events[1..], owner)
  }

  /** The records of the spans `owner` both opened and closed: what would be closed in an empty layer of its own. */
  ghost function OwnClosed(allowlist: Option<set<string>>, owner: nat, events: seq<Event>): multiset<SpanRecord> {
    ClosedIn(allowlist, EMPTY, WithoutForeign(events, owner))
  }

  /** The open spans that are not the owner's: those open before, and those others have opened since. */
  ghost function ForeignAfter(allowlist: Option<set<string>>, foreign: set<nat>, owner: nat, e: Event): set<nat> {
    if e.Detach? then foreign - {e.id}
    else if ForeignOpen(e, owner) && Allowed(allowlist, e.name) then foreign + {e.id}
    else foreign
  }

  /** The records of foreign spans that get closed; `foreign` are those open at the start. */
  ghost function ForeignClosed(
      allowlist: Option<set<string>>, s: State, foreign: set<nat>, owner: nat, events: seq<Event>): multiset<SpanRecord>
    decreases events
  {
    if events == [] then multiset{}
    else
      var e := events[0];
      (if e.Detach? && e.id in foreign then ClosedBy(s, e) else multiset{})
      + ForeignClosed(allowlist, Step(allowlist, s, e), ForeignAfter(allowlist, foreign, owner, e), owner, events[1..])
  }

  type InFlight = map<nat, SpanRecord>

  /** `own` are the open spans that are not foreign. */
  ghost predicate Split(open: InFlight, own: InFlight, foreign: set<nat>) {
    && foreign <= open.Keys
    && own.Keys == open.Keys - foreign
    && forall id :: id in own ==> own[id] == open[id]
  }

  ghost predicate Apart(s: State, own: State, foreign: set<nat>) {
    Split(s.inFlight, own.inFlight, foreign)
  }

  ghost function OwnStep(allowlist: Option<set<string>>, own: State, owner: nat, e: Event): State {
    if ForeignOpen(e, owner) then own else Step(allowlist, own, e)
  }

  lemma SplitUpdate(open: InFlight, own: InFlight, foreign: set<nat>, id: nat, r: SpanRecord)
    requires Split(open, own, foreign)
    ensures id !in foreign ==> Split(open[id := r], own[id := r], foreign)
    ensures id in foreign ==> Split(open[id := r], own, foreign)
    ensures id !in open ==> Split(open[id := r], own, foreign + {id})
  {
  }

  lemma SplitRemove(open: InFlight, own: InFlight, foreign: set<nat>, id: nat)
    requires Split(open, own, foreign)
    ensures Split(open - {id}, own - {id}, foreign - {id})
    ensures id !in open ==> open - {id} == open && foreign - {id} == foreign
    ensures id !in own ==> own - {id} == own
  {
  }

  lemma StepKeepsApart(allowlist: Option<set<string>>, s: State, own: State, foreign: set<nat>, owner: nat, e: Event)
    requires Apart(s, own, foreign) && Possible(s, e)
    ensures Apart(Step(allowlist, s, e), OwnStep(allowlist, own, owner, e), ForeignAfter(allowlist, foreign, owner, e))
  {
    var open, mine := s.inFlight, own.inFlight;
    assert forall id :: id in mine <==> id in open && id !in foreign;
    assert forall id :: id in foreign ==> id in open;
    assert forall id :: id in mine ==> mine[id] == open[id];
    hide Split, Closed;
    match e {
      case Open(id, name, parent, fields, _) =>
        SplitUpdate(open, mine, foreign, id, SpanRecord(name, parent, 0, fields));
      case Record(id, values) =>
        if id in open {
          SplitUpdate(open, mine, foreign, id, open[id].(fields := open[id].fields + values));
        }
      case Detach(id, elapsedUs) =>
        SplitRemove(open, mine, foreign, id);
      case _ =>
    }
  }

  lemma ClosingIsOwnOrForeign(s: State, own: State, foreign: set<nat>, e: Event)
    requires Apart(s, own, foreign)
    ensures ClosedBy(s, e)
            == ClosedBy(own, e) + if e.Detach? && e.id in foreign then ClosedBy(s, e) else multiset{}
  {
    hide Closed;
  }

  lemma OwnClosedStep(allowlist: Option<set<string>>, own: State, owner: nat, events: seq<Event>)
    requires events != []
    ensures ClosedIn(allowlist, own, WithoutForeign(events, owner))
            == ClosedBy(own, events[0])
               + ClosedIn(allowlist, OwnStep(allowlist, own, owner, events[0]), WithoutForeign(events[1..], owner))
  {
    var rest := WithoutForeign(events[1..], owner);
    if ForeignOpen(events[0], owner) {
      assert WithoutForeign(events, owner) == rest;
      assert ClosedBy(own, events[0]) == multiset{};
    } else {
      assert ([events[0]] + rest)[1..] == rest;
    }
  }

  /** Every span closed during an execution is its owner's own or foreign. */
  lemma {:induction false} ClosedSplits(
      allowlist: Option<set<string>>, s: State, own: State, foreign: set<nat>, owner: nat, events: seq<Event>)
    requires Apart(s, own, foreign) && CanRun(allowlist, s, events)
    ensures ClosedIn(allowlist, s, events)
            == ClosedIn(allowlist, own, WithoutForeign(events, owner))
               + ForeignClosed(allowlist, s, foreign, owner, events)
    decreases events
  {
    if events != [] {
      var e, rest := events[0], ForeignAfter(allowlist, foreign, owner, events[0]);
      StepKeepsApart(allowlist, s, own, foreign, owner, e);
      ClosingIsOwnOrForeign(s, own, foreign, e);
      OwnClosedStep(allowlist, own, owner, events);
      hide Step, Apart, ClosedBy, OwnStep, ForeignAfter, WithoutForeign;
      var next, own' := Step(allowlist, s, e), OwnStep(allowlist, own, owner, e);
      ClosedSplits(allowlist, next, own', rest, owner, events[1..]);
      Regroup(ClosedBy(own, e), if e.Detach? && e.id in foreign then ClosedBy(s, e) else multiset{},
              ClosedIn(allowlist, own', WithoutForeign(events[1..], owner)),
              ForeignClosed(allowlist, next, rest, owner, events[1..]));
    } else {
      assert WithoutForeign(events, owner) == [];
    }
  }

  lemma Regroup(a: multiset<SpanRecord>, b: multiset<SpanRecord>, c: multiset<SpanRecord>, d: multiset<SpanRecord>)
    ensures a + b + (c + d) == a + c + (b + d)
  {
  }

  ghost predicate NoTakes(events: seq<Event>) {
    forall i :: 0 <= i < |events| ==> !events[i].Take?
  }

  /** The layer right after the first take of `exec_once`. */
  ghost function Drained(s: State): State {
    s.(taken := s.taken + [s.sink], sink := [])
  }

  lemma {:induction false} BracketRuns(allowlist: Option<set<string>>, s: State, events: seq<Event>)
    requires NoTakes(events)
    ensures var executed := Run(allowlist, Drained(s), events);
            && Run(allowlist, s, [Take] + events + [Take]) == Drained(executed)
            && executed.sink == PushedBy(events) && executed.taken == s.taken + [s.sink]
  {
    var drained := Drained(s);
    RunSplits(allowlist, s, [Take] + events, [Take]);
    RunSplits(allowlist, s, [Take], events);
    assert [Take][1..] == [];
    assert Run(allowlist, s, [Take]) == drained by { assert Run(allowlist, drained, []) == drained; }
    SinkCollectsPushes(allowlist, drained, events);
    var executed := Run(allowlist, drained, events);
    assert Run(allowlist, executed, [Take]) == Drained(executed) by {
      assert Run(allowlist, Drained(executed), []) == Drained(executed);
    }
    assert drained.sink + PushedBy(events) == PushedBy(events);
  }

  /** What the second take holds or still misses: what was on its way before, plus everything closed since. */
  lemma {:induction false} PushesAreClosings(allowlist: Option<set<string>>, s: State, events: seq<Event>)
    requires NoTakes(events) && CanRun(allowlist, Drained(s), events)
    ensures multiset(PushedBy(events)) + Run(allowlist, Drained(s), events).detached
            == s.detached + ClosedIn(allowlist, Drained(s), events)
  {
    var drained := Drained(s);
    var executed := Run(allowlist, drained, events);
    SpansAreConserved(allowlist, drained, events);
    BracketRuns(allowlist, s, events);
    hide Run, ClosedIn, PushedBy, Concat;
    var taken := multiset(Concat(drained.taken));
    assert Accounted(drained) == taken + s.detached;
    Cancel(taken, multiset(PushedBy(events)), executed.detached, s.detached, ClosedIn(allowlist, drained, events));
  }

  lemma Cancel(
      a: multiset<SpanRecord>, p: multiset<SpanRecord>, d: multiset<SpanRecord>, e: multiset<SpanRecord>,
      c: multiset<SpanRecord>)
    requires a + p + d == a + e + c
    ensures p + d == e + c
  {
    assert p + d == (a + p + d) - a && e + c == (a + e + c) - a;
  }

  /**
   `exec_once` drains the sink, executes, and drains it again. What the second take holds,
   together with what is still on its way to the sink, is what the execution opened and
   closed, plus what was on its way at the first take, plus every foreign span closed since:
   open at the first take, or opened by another execution in between.
   */
  lemma {:induction false} TakesBracketOneExecution(
      allowlist: Option<set<string>>, s: State, owner: nat, events: seq<Event>)
    requires NoTakes(events) && CanRun(allowlist, Drained(s), events)
    ensures var after := Run(allowlist, s, [Take] + events + [Take]);
            && after.sink == [] && |after.taken| == |s.taken| + 2
            && after.taken[..|s.taken| + 1] == s.taken + [s.sink]
            && multiset(after.taken[|s.taken| + 1]) + after.detached
               == OwnClosed(allowlist, owner, events)
                  + (s.detached + ForeignClosed(allowlist, Drained(s), s.inFlight.Keys, owner, events))
  {
    BracketRuns(allowlist, s, events);
    PushesAreClosings(allowlist, s, events);
    ClosedSplits(allowlist, Drained(s), EMPTY, s.inFlight.Keys, owner, events);
    hide Run, ForeignClosed, ClosedIn, PushedBy, WithoutForeign;
  }

  /** The second take of a bracketed execution. */
  ghost function SecondTake(allowlist: Option<set<string>>, s: State, events: seq<Event>): seq<SpanRecord>
    requires NoTakes(events)
  {
    BracketRuns(allowlist, s, events);
    Run(allowlist, s, [Take] + events + [Take]).taken[|s.taken| + 1]
  }

  /** Nobody but `owner` opens a span. */
  ghost predicate OnlyOwner(events: seq<Event>, owner: nat) {
    forall i :: 0 <= i < |events| ==> !ForeignOpen(events[i], owner)
  }

  /** Whatever the owner does between the takes, with no other one at work, the second take holds only its own spans. */
  ghost predicate Isolates(allowlist: Option<set<string>>, s: State, owner: nat) {
    forall events :: NoTakes(events) && OnlyOwner(events, owner) && CanRun(allowlist, Drained(s), events) ==>
      multiset(SecondTake(allowlist, s, events)) <= OwnClosed(allowlist, owner, events)
  }

  /**
   Provided no other owner opens spans during it, the first take isolates an execution exactly
   when no span is open and none is on its way to the sink at that moment. An earlier execution
   that is still draining after its deadline breaks this.
   */
  lemma {:induction false} FirstTakeIsolatesIff(allowlist: Option<set<string>>, s: State, owner: nat)
    ensures Isolates(allowlist, s, owner) <==> s.inFlight == map[] && s.detached == multiset{}
  {
    if s.inFlight == map[] && s.detached == multiset{} {
      forall events | NoTakes(events) && OnlyOwner(events, owner) && CanRun(allowlist, Drained(s), events)
        ensures multiset(SecondTake(allowlist, s, events)) <= OwnClosed(allowlist, owner, events)
      {
        CleanLayerIsolates(allowlist, s, owner, events);
      }
    } else {
      var events := StrayRun(allowlist, s, owner);
      assert SecondTake(allowlist, s, events)[0] in multiset(SecondTake(allowlist, s, events));
    }
  }

  /** From a clean layer the second take and what is still on its way are exactly the owner's own spans. */
  lemma {:induction false} CleanLayerIsolates(allowlist: Option<set<string>>, s: State, owner: nat, events: seq<Event>)
    requires NoTakes(events) && OnlyOwner(events, owner) && CanRun(allowlist, Drained(s), events)
    requires s.inFlight == map[] && s.detached == multiset{}
    ensures multiset(SecondTake(allowlist, s, events)) + Run(allowlist, s, [Take] + events + [Take]).detached
            == OwnClosed(allowlist, owner, events)
  {
    TakesBracketOneExecution(allowlist, s, owner, events);
    NothingForeign(allowlist, Drained(s), owner, events);
    assert s.inFlight.Keys == {};
    hide Run, ForeignClosed, ClosedIn;
  }

  lemma {:induction false} NothingForeign(allowlist: Option<set<string>>, s: State, owner: nat, events: seq<Event>)
    requires OnlyOwner(events, owner)
    ensures ForeignClosed(allowlist, s, {}, owner, events) == multiset{}
    decreases events
  {
    if events != [] {
      assert !ForeignOpen(events[0], owner);
      assert ForeignAfter(allowlist, {}, owner, events[0]) == {};
      NothingForeign(allowlist, Step(allowlist, s, events[0]), owner, events[1..]);
    }
  }

  /** None of the spans opened is the owner's. */
  ghost predicate OpensNothing(events: seq<Event>, owner: nat) {
    forall i :: 0 <= i < |events| ==> !(events[i].Open? && events[i].owner == owner)
  }

  lemma {:induction false} NothingOpened(allowlist: Option<set<string>>, own: State, owner: nat, events: seq<Event>)
    requires own.inFlight == map[] && OpensNothing(events, owner)
    ensures ClosedIn(allowlist, own, WithoutForeign(events, owner)) == multiset{}
    decreases events
  {
    if events != [] {
      assert !(events[0].Open? && events[0].owner == owner);
      OwnClosedStep(allowlist, own, owner, events);
      hide ClosedIn, WithoutForeign;
      NothingOpened(allowlist, OwnStep(allowlist, own, owner, events[0]), owner, events[1..]);
    }
  }

  /** A bracketed execution of a owner that opens nothing, and whose second take is not empty. */
  ghost predicate Charged(allowlist: Option<set<string>>, s: State, owner: nat, events: seq<Event>) {
    && NoTakes(events) && CanRun(allowlist, Drained(s), events)
    && SecondTake(allowlist, s, events) != [] && OwnClosed(allowlist, owner, events) == multiset{}
  }

  lemma {:induction false} OnlyPushes(allowlist: Option<set<string>>, s: State, owner: nat, events: seq<Event>)
    requires NoTakes(events) && CanRun(allowlist, Drained(s), events) && PushedBy(events) != []
    requires OpensNothing(events, owner)
    ensures Charged(allowlist, s, owner, events)
  {
    NothingOpened(allowlist, EMPTY, owner, events);
    BracketRuns(allowlist, s, events);
    hide Run, ClosedIn, CanRun, PushedBy, WithoutForeign;
  }

  lemma PushRuns(allowlist: Option<set<string>>, s: State, r: SpanRecord)
    requires r in s.detached
    ensures CanRun(allowlist, s, [Push(r)]) && PushedBy([Push(r)]) == [r]
  {
    assert [Push(r)][1..] == [];
    assert CanRun(allowlist, Step(allowlist, s, Push(r)), []);
  }

  lemma ClosingRuns(allowlist: Option<set<string>>, s: State, id: nat, r: SpanRecord, elapsedUs: nat)
    requires id in s.inFlight && r == Closed(s.inFlight[id], elapsedUs)
    ensures CanRun(allowlist, s, [Detach(id, elapsedUs), Push(r)])
    ensures PushedBy([Detach(id, elapsedUs), Push(r)]) == [r]
  {
    PushRuns(allowlist, Step(allowlist, s, Detach(id, elapsedUs)), r);
    assert [Detach(id, elapsedUs), Push(r)][1..] == [Push(r)];
  }

  /** The failing runs: a span that was open, or a record on its way, is charged to the execution. */
  lemma {:induction false} StrayRun(allowlist: Option<set<string>>, s: State, owner: nat) returns (events: seq<Event>)
    requires s.inFlight != map[] || s.detached != multiset{}
    ensures Charged(allowlist, s, owner, events) && OnlyOwner(events, owner)
  {
    hide Charged, Closed, CanRun, PushedBy;
    if s.detached != multiset{} {
      var r :| r in s.detached;
      events := [Push(r)];
      PushRuns(allowlist, Drained(s), r);
    } else {
      var id :| id in s.inFlight;
      var r := Closed(s.inFlight[id], 0);
      events := [Detach(id, 0), Push(r)];
      ClosingRuns(allowlist, Drained(s), id, r, 0);
    }
    OnlyPushes(allowlist, s, owner, events);
  }

  /** Such a layer is reached from an empty one: a span opened before the first take and closed after it. */
  lemma StrayCloseIsCharged(name: string, r: SpanRecord, owner: nat, earlier: nat)
    requires r == Closed(SpanRecord(name, None, 0, map[]), 5)
    ensures var s := Run(None, EMPTY, [Open(7, name, None, map[], earlier)]);
            Charged(None, s, owner, [Detach(7, 5), Push(r)]) && SecondTake(None, s, [Detach(7, 5), Push(r)]) == [r]
  {
    var open := Open(7, name, None, map[], earlier);
    var s := Step(None, EMPTY, open);
    assert Run(None, EMPTY, [open]) == s by {
      assert [open][1..] == [];
      assert Run(None, s, []) == s;
    }
    ClosingRuns(None, Drained(s), 7, r, 5);
    hide CanRun, PushedBy, Run, Charged;
    OnlyPushes(None, s, owner, [Detach(7, 5), Push(r)]);
    BracketRuns(None, s, [Detach(7, 5), Push(r)]);
  }

  /** A clean layer does not help against a neighbour: a span another owner opens in between is charged as well. */
  lemma NeighbourIsCharged(name: string, r: SpanRecord, owner: nat, other: nat)
    requires r == Closed(SpanRecord(name, None, 0, map[]), 5) && other != owner
    ensures var events := [Open(7, name, None, map[], other), Detach(7, 5), Push(r)];
            Charged(None, EMPTY, owner, events) && SecondTake(None, EMPTY, events) == [r]
  {
    var open, rest := Open(7, name, None, map[], other), [Detach(7, 5), Push(r)];
    var events := [open, Detach(7, 5), Push(r)];
    var drained := Drained(EMPTY);
    ClosingRuns(None, Step(None, drained, open), 7, r, 5);
    assert events[1..] == rest;
    assert CanRun(None, drained, events);
    assert PushedBy(events) == [] + PushedBy(rest);
    hide CanRun, PushedBy, Run, Charged;
    OnlyPushes(None, EMPTY, owner, events);
    BracketRuns(None, EMPTY, events);
  }
}
