/**
  Domain events on their way from the transaction that caused them to the
  automation engine: outbox row, JSON envelope, event again.
 */
module CrmEvents {
  import opened Wrappers

  type Uuid = nat                                  // 0 is the nil id
  type Time = int                                  // 0 is the zero time

  datatype Actor = Actor(kind: string, id: Option<Uuid>, name: string)

  datatype Subject = Subject(kind: string, id: Option<Uuid>)

  /** Which rule produced the event, and how long the chain of rules already is. */
  datatype Origin = Origin(rule: Option<Uuid>, depth: int)

  datatype Event = Event(
    id: Uuid,
    kind: string,
    org: Uuid,
    contact: Option<Uuid>,
    subject: Subject,
    actor: Actor,
    data: map<string, string>,
    occurredAt: Time,
    origin: Origin)

  /** A row of the outbox: the event's parts as columns. */
  datatype Row = Row(
    id: Uuid, org: Uuid, kind: string, contact: Option<Uuid>, subjectType: string, subjectId: Option<Uuid>,
    actorType: string, actorId: Option<Uuid>, actorName: string, originRule: Option<Uuid>, originDepth: int,
    data: map<string, string>, occurredAt: Time)

  /** A JSON object with text members; an absent member was left out because its value was empty. */
  datatype Envelope = Envelope(
    eventId: Uuid, kind: string, org: Uuid, contact: Option<Uuid>, subjectType: Option<string>,
    subjectId: Option<Uuid>, actorType: string, actorId: Option<Uuid>, actorName: Option<string>,
    data: map<string, string>, occurredAt: Time, originRule: Option<Uuid>, originDepth: Option<int>)

  const ACTOR_SYSTEM := "system"

  /** `freshId` and `now` stand for the id and the clock used when the event has none. */
  function ToRow(e: Event, freshId: Uuid, now: Time): Row
  {
    Row(if e.id == 0 then freshId else e.id, e.org, e.kind, e.contact, e.subject.kind, e.subject.id,
        if e.actor.kind == "" then ACTOR_SYSTEM else e.actor.kind, e.actor.id, e.actor.name,
        e.origin.rule, e.origin.depth, e.data, if e.occurredAt == 0 then now else e.occurredAt)
  }

  function EventFromRow(r: Row): Event
  {
    Event(r.id, r.kind, r.org, r.contact, Subject(r.subjectType, r.subjectId),
          Actor(r.actorType, r.actorId, r.actorName), r.data, r.occurredAt, Origin(r.originRule, r.originDepth))
  }

  function OmitText(s: string): Option<string>
  {
    if s == "" then None else Some(s)
  }

  function OmitZero(n: int): Option<int>
  {
    if n == 0 then None else Some(n)
  }

  /** The envelope as written: members marked to be omitted when empty are. */
  function Encode(e: Event): Envelope
  {
    Envelope(e.id, e.kind, e.org, e.contact, OmitText(e.subject.kind), e.subject.id, e.actor.kind, e.actor.id,
             OmitText(e.actor.name), e.data, e.occurredAt, e.origin.rule, OmitZero(e.origin.depth))
  }

  function TextOr(s: Option<string>): string
  {
    if s.Some? then s.value else ""
  }

  /** An absent member reads as its zero value; the time is not read back. */
  function Decode(v: Envelope): Event
  {
    Event(v.eventId, v.kind, v.org, v.contact, Subject(TextOr(v.subjectType), v.subjectId),
          Actor(v.actorType, v.actorId, TextOr(v.actorName)), v.data, 0,
          Origin(v.originRule, if v.originDepth.Some? then v.originDepth.value else 0))
  }

  /** What the engine is handed for a published event. */
  function Delivered(e: Event, freshId: Uuid, now: Time): Event
  {
    Decode(Encode(EventFromRow(ToRow(e, freshId, now))))
  }

  /**
    The whole event arrives as published, origin included, but for its time; an
    event without an id or an actor is given one on the way.
   */
  lemma EventSurvives(e: Event, freshId: Uuid, now: Time)
    ensures Delivered(e, freshId, now).origin == e.origin
    ensures Delivered(e, freshId, now) == e.(
      id := if e.id == 0 then freshId else e.id,
      actor := e.actor.(kind := if e.actor.kind == "" then ACTOR_SYSTEM else e.actor.kind),
      occurredAt := 0)
  {
    var row := ToRow(e, freshId, now);
    var sent := Encode(EventFromRow(row));
    assert TextOr(sent.subjectType) == e.subject.kind && TextOr(sent.actorName) == e.actor.name;
    assert sent.originDepth == OmitZero(e.origin.depth);
  }
}
