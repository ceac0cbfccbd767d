/** picolytics/event.go: one call of `SaveEvent`, from the raw event to the channel. */
module Saver {
  import opened Wrappers
  import opened Events
  import opened Pipeline

  /** The worker's buffered channel. `sent` is everything ever sent to it. */
  class Channel {
    const capacity: nat
    var items: seq<Event>
    ghost var sent: seq<Event>

    constructor (capacity: nat)
      ensures this.capacity == capacity && items == [] && sent == []
    {
      this.capacity := capacity;
      items, sent := [], [];
    }

    /** `queueEvent`: never blocks. */
    method TrySend(e: Event) returns (ok: bool)
      modifies this
      ensures ok <==> |old(items)| < capacity
      ensures ok ==> items == old(items) + [e] && sent == old(sent) + [e]
      ensures !ok ==> items == old(items) && sent == old(sent)
    {
      ok := |items| < capacity;
      if ok {
        items := items + [e];
        sent := sent + [e];
      }
    }

    method Receive() returns (e: Event)
      requires items != []
      modifies this`items
      ensures [e] + items == old(items)
    {
      e := items[0];
      items := items[1..];
    }
  }

  /** `validEventName`. */
  method IsValidEventName(validNames: seq<string>, name: string) returns (valid: bool)
    ensures valid <==> name != "" && name in validNames
  {
    if |name| < 1 {
      return false;
    }
    for i := 0 to |validNames|
      invariant name !in validNames[..i]
    {
      if name == validNames[i] {
        return true;
      }
    }
    assert validNames[..|validNames|] == validNames;
    return false;
  }

  /** What a call of `SaveEvent` can change: the channel, all that was ever sent to it, the counters. */
  datatype Gate = Gate(queue: seq<Event>, sent: seq<Event>, parseErrors: nat, ingested: nat, enqueueErrors: nat)

  /** What one call makes of it; `salt` is what `getSalt` answered. */
  function AfterCall(g: Gate, event: Event, salt: string, capacity: nat, validNames: seq<string>, foreign: Foreign): Gate {
    match Parse(event, validNames, foreign)
    case None => g.(parseErrors := g.parseErrors + 1)
    case Some(parsed) =>
      var e := parsed.(visitorId := foreign.visitorHash(salt, parsed));
      if |g.queue| < capacity then g.(queue := g.queue + [e], sent := g.sent + [e], ingested := g.ingested + 1)
      else g.(ingested := g.ingested + 1, enqueueErrors := g.enqueueErrors + 1)
  }

  /** Exactly one of three things happens to an event: a parse error is counted, or the event is
      counted as ingested and sent, or it is counted as ingested and as an enqueue error. It is sent
      if and only if it parses and there is room; of its fields only domain, path and visitor id have
      then been set, the last by the hash of the salt and the rest of the event. */
  lemma {:induction false} OneOutcome(g: Gate, event: Event, salt: string, capacity: nat, validNames: seq<string>, foreign: Foreign)
    ensures var h := AfterCall(g, event, salt, capacity, validNames, foreign);
            var errors, rejected, sent := h.parseErrors - g.parseErrors, h.enqueueErrors - g.enqueueErrors, |h.sent| - |g.sent|;
            && errors >= 0 && rejected >= 0 && sent >= 0 && errors + rejected + sent == 1
            && h.ingested - g.ingested == rejected + sent
            && g.sent <= h.sent && h.queue == g.queue + h.sent[|g.sent|..]
            && (sent == 1 <==> Parse(event, validNames, foreign).Some? && |g.queue| < capacity)
            && (sent == 1 ==> var e := h.sent[|g.sent|];
                 && e == event.(domain := e.domain, path := e.path, visitorId := e.visitorId)
                 && e.visitorId == foreign.visitorHash(salt, e.(visitorId := event.visitorId)))
            && (errors == 1 <==> Parse(event, validNames, foreign).None?)
  {
    var h := AfterCall(g, event, salt, capacity, validNames, foreign);
    assert g.queue + h.sent[|g.sent|..] == h.queue;
  }

  class AsyncEventSaver {
    const events: Channel
    const validNames: seq<string>
    const foreign: Foreign
    var parseErrors: nat
    var ingested: nat
    var enqueueErrors: nat

    constructor (events: Channel, validNames: seq<string>, foreign: Foreign)
      ensures this.events == events && this.validNames == validNames && this.foreign == foreign
      ensures parseErrors == ingested == enqueueErrors == 0
    {
      this.events, this.validNames, this.foreign := events, validNames, foreign;
      parseErrors, ingested, enqueueErrors := 0, 0, 0;
    }

    method ParseEvent(e: Event) returns (r: Option<Event>)
      ensures r == Parse(e, validNames, foreign)
    {
      var valid := IsValidEventName(validNames, e.name);
      if !valid {
        return None;
      }
      var domainPath := DomainPath(e.location, foreign);
      if domainPath.None? {
        return None;
      }
      return Some(e.(domain := domainPath.value.0, path := domainPath.value.1));
    }

    ghost function View(): Gate
      reads this, events
    {
      Gate(events.items, events.sent, parseErrors, ingested, enqueueErrors)
    }

    method SaveEvent(event: Event, salt: string)
      modifies this, events
      ensures View() == AfterCall(old(View()), event, salt, events.capacity, validNames, foreign)
    {
      var parsed := ParseEvent(event);
      if parsed.None? {
        parseErrors := parseErrors + 1;
        return;
      }
      var e := parsed.value.(visitorId := foreign.visitorHash(salt, parsed.value));
      ingested := ingested + 1;
      var sent := events.TrySend(e);
      if !sent {
        enqueueErrors := enqueueErrors + 1;
      }
    }
  }

  /** The gate as the state machine has it. */
  function GateOf(s: State): Gate {
    Gate(s.w.queue, s.w.accepted, s.parseErrors, s.ingested, s.enqueueErrors)
  }

  /** Uninterrupted, the three steps a call takes in the state machine do what `SaveEvent` does, end
      the call with the outcome that was counted, and change nothing else. */
  lemma {:induction false} CallInOneGo(s: State, i: nat, salt: string, c: Config, foreign: Foreign)
    requires i < |s.calls| && s.calls[i].Received?
    ensures var u := CallStep(CallStep(CallStep(s, i, salt, c, foreign), i, salt, c, foreign), i, salt, c, foreign);
            var g, h := GateOf(s), GateOf(u);
            && h == AfterCall(g, s.calls[i].event, salt, c.queueSize, c.validNames, foreign)
            && |u.calls| == |s.calls| && u.calls == s.calls[i := u.calls[i]]
            && u.w == s.w.(queue := h.queue, accepted := h.sent)
            && (u.calls[i].ParseError? <==> h.parseErrors > g.parseErrors)
            && (u.calls[i].EnqueueError? <==> h.enqueueErrors > g.enqueueErrors)
            && (u.calls[i].Done? <==> |h.sent| > |g.sent|)
  {
    var one := CallStep(s, i, salt, c, foreign);
    if one.calls[i].Parsed? {
      var two := CallStep(one, i, salt, c, foreign);
      assert two.calls == s.calls[i := two.calls[i]];
    }
  }
}
