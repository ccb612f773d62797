/** What the gRPC servicers make of the use cases' items (app/grpcapi/stream.py,
    app/grpcapi/attention.py), and how the attention use case makes an item of the core's
    update (`_update`, app/usecases/attention.py). */
module Servicers {
  import opened Options
  import opened Sse
  import Grouping

  // ── the core's attention update ─────────────────────────────────────────────

  /** The core's kinds; a number the edge has no name for is `OTHER`. */
  datatype CoreKind =
    | THREAD_BLOCKED | GATE_PENDING | PR_REVIEW | MERGE_CONFLICT | DIRECTIVE | BUDGET_EXCEEDED
    | INTEGRATION_BROKEN | CONTACT_PHONE_UNVERIFIED | OTHER(number: int)

  datatype CoreChange = OPENED | RESOLVED | ANOTHER(number: int)

  datatype CoreItem = CoreItem(id: string, kind: CoreKind, targetKind: string, targetId: string, demand: Maybe<string>,
                               title: string, summary: string, priority: int, openedAt: Maybe<int>, resolvedAt: Maybe<int>)

  datatype CoreUpdate = CoreUpdate(change: CoreChange, item: Maybe<CoreItem>, eventId: string)

  function KindName(kind: CoreKind): string {
    match kind
    case THREAD_BLOCKED => "thread_blocked"
    case GATE_PENDING => "gate_pending"
    case PR_REVIEW => "pr_review"
    case MERGE_CONFLICT => "merge_conflict"
    case DIRECTIVE => "directive"
    case BUDGET_EXCEEDED => "budget_exceeded"
    case INTEGRATION_BROKEN => "integration_broken"
    case CONTACT_PHONE_UNVERIFIED => "contact_phone_unverified"
    case OTHER(_) => ""
  }

  function ChangeName(change: CoreChange): string {
    match change case OPENED => "opened" case RESOLVED => "resolved" case ANOTHER(_) => ""
  }

  /** `_item`, the use case's. */
  function ItemOf(it: CoreItem): Grouping.AttentionItem {
    Grouping.AttentionItem(it.id, KindName(it.kind), it.targetKind, it.targetId,
                           match it.demand case Some(id) => id case None => "",
                           it.title, it.summary, it.priority, it.openedAt, it.resolvedAt)
  }

  const NO_ITEM := Grouping.AttentionItem("", "", "", "", "", "", "", 0, None, None)

  /** `_update`: the id is that of the event behind the update. */
  function Update(u: CoreUpdate): Item {
    AttentionUpdate(u.eventId, ChangeName(u.change), match u.item case Some(it) => ItemOf(it) case None => NO_ITEM)
  }

  // ── the edge's messages ─────────────────────────────────────────────────────

  datatype EdgeKind =
    | KIND_UNSPECIFIED | KIND_THREAD_BLOCKED | KIND_GATE_PENDING | KIND_PR_REVIEW | KIND_MERGE_CONFLICT
    | KIND_DIRECTIVE | KIND_BUDGET_EXCEEDED | KIND_INTEGRATION_BROKEN | KIND_CONTACT_PHONE_UNVERIFIED

  datatype EdgeChange = CHANGE_UNSPECIFIED | CHANGE_OPENED | CHANGE_RESOLVED

  datatype ItemMessage = ItemMessage(id: string, kind: EdgeKind, targetKind: string, targetId: string, demandId: string,
                                     title: string, summary: string, priority: int,
                                     openedAt: Maybe<int>, resolvedAt: Maybe<int>)

  /** The messages of the three streams. The attention update's has no field for an id. */
  datatype Message =
    | EventMessage(id: string, kind: string, aggregate: string, aggregateId: string, payload: string)
    | LineMessage(source: string, service: string, line: string)
    | UpdateMessage(change: EdgeChange, item: ItemMessage)

  function EnumByKind(name: string): EdgeKind {
    if name == "thread_blocked" then KIND_THREAD_BLOCKED
    else if name == "gate_pending" then KIND_GATE_PENDING
    else if name == "pr_review" then KIND_PR_REVIEW
    else if name == "merge_conflict" then KIND_MERGE_CONFLICT
    else if name == "directive" then KIND_DIRECTIVE
    else if name == "budget_exceeded" then KIND_BUDGET_EXCEEDED
    else if name == "integration_broken" then KIND_INTEGRATION_BROKEN
    else if name == "contact_phone_unverified" then KIND_CONTACT_PHONE_UNVERIFIED
    else KIND_UNSPECIFIED
  }

  function EnumByChange(name: string): EdgeChange {
    if name == "opened" then CHANGE_OPENED else if name == "resolved" then CHANGE_RESOLVED else CHANGE_UNSPECIFIED
  }

  /** `_item`, the servicer's. */
  function ItemCopy(i: Grouping.AttentionItem): ItemMessage {
    ItemMessage(i.id, EnumByKind(i.kind), i.targetKind, i.targetId, i.demandId, i.title, i.summary, i.priority,
                i.openedAt, i.resolvedAt)
  }

  /** What the servicers yield for an item. */
  function Copy(item: Item): Message {
    match item
    case StreamEvent(id, kind, aggregate, aggregateId, payload) => EventMessage(id, kind, aggregate, aggregateId, payload)
    case LogLine(source, service, line) => LineMessage(source, service, line)
    case AttentionUpdate(_, change, subject) => UpdateMessage(EnumByChange(change), ItemCopy(subject))
  }

  // ── what a client reads off a message ───────────────────────────────────────

  function EdgeKindName(kind: EdgeKind): string {
    match kind
    case KIND_UNSPECIFIED => ""
    case KIND_THREAD_BLOCKED => "thread_blocked"
    case KIND_GATE_PENDING => "gate_pending"
    case KIND_PR_REVIEW => "pr_review"
    case KIND_MERGE_CONFLICT => "merge_conflict"
    case KIND_DIRECTIVE => "directive"
    case KIND_BUDGET_EXCEEDED => "budget_exceeded"
    case KIND_INTEGRATION_BROKEN => "integration_broken"
    case KIND_CONTACT_PHONE_UNVERIFIED => "contact_phone_unverified"
  }

  function EdgeChangeName(change: EdgeChange): string {
    match change case CHANGE_UNSPECIFIED => "" case CHANGE_OPENED => "opened" case CHANGE_RESOLVED => "resolved"
  }

  /** The item a message describes, in the words of the edge's models. */
  function Reading(m: Message): Item {
    match m
    case EventMessage(id, kind, aggregate, aggregateId, payload) => StreamEvent(id, kind, aggregate, aggregateId, payload)
    case LineMessage(source, service, line) => LogLine(source, service, line)
    case UpdateMessage(change, i) =>
      AttentionUpdate("", EdgeChangeName(change),
                      Grouping.AttentionItem(i.id, EdgeKindName(i.kind), i.targetKind, i.targetId, i.demandId,
                                             i.title, i.summary, i.priority, i.openedAt, i.resolvedAt))
  }

  /** An item some use case emits: an attention update is one of the core's. */
  ghost predicate Emitted(item: Item) {
    item.AttentionUpdate? ==> exists u :: item == Update(u)
  }

  /** The edge's kind of the same name. */
  function EdgeKindFor(kind: CoreKind): EdgeKind {
    match kind
    case THREAD_BLOCKED => KIND_THREAD_BLOCKED
    case GATE_PENDING => KIND_GATE_PENDING
    case PR_REVIEW => KIND_PR_REVIEW
    case MERGE_CONFLICT => KIND_MERGE_CONFLICT
    case DIRECTIVE => KIND_DIRECTIVE
    case BUDGET_EXCEEDED => KIND_BUDGET_EXCEEDED
    case INTEGRATION_BROKEN => KIND_INTEGRATION_BROKEN
    case CONTACT_PHONE_UNVERIFIED => KIND_CONTACT_PHONE_UNVERIFIED
    case OTHER(_) => KIND_UNSPECIFIED
  }

  /** Through both tables of names, the message holds the core's kind, its change and
      every field of its item. */
  lemma MessageHoldsTheCores(u: CoreUpdate)
    ensures Copy(Update(u)).UpdateMessage?
    ensures Copy(Update(u)).change ==
              match u.change
              case OPENED => CHANGE_OPENED
              case RESOLVED => CHANGE_RESOLVED
              case ANOTHER(_) => CHANGE_UNSPECIFIED
    ensures u.item.Some? ==>
              var it := u.item.value;
              Copy(Update(u)).item ==
                ItemMessage(it.id, EdgeKindFor(it.kind), it.targetKind, it.targetId,
                            if it.demand.Some? then it.demand.value else "",
                            it.title, it.summary, it.priority, it.openedAt, it.resolvedAt)
    ensures u.item.None? ==>
              Copy(Update(u)).item == ItemMessage("", KIND_UNSPECIFIED, "", "", "", "", "", 0, None, None)
  {
    match u.item
    case Some(it) => KindSurvives(it.kind);
    case None => KindSurvives(OTHER(0));
  }

  /** The names of kinds tell them apart. */
  lemma KindSurvives(kind: CoreKind)
    ensures EdgeKindName(EnumByKind(KindName(kind))) == KindName(kind)
    ensures EnumByKind(KindName(kind)) == EdgeKindFor(kind)
  {
    assert "thread_blocked"[0] != "merge_conflict"[0] && "pr_review"[0] != "directive"[0];
  }

  lemma ChangeSurvives(change: CoreChange)
    ensures EdgeChangeName(EnumByChange(ChangeName(change))) == ChangeName(change)
  {
  }

  /** The servicer keeps all of an update but its event id. */
  lemma UpdateSurvives(u: CoreUpdate)
    ensures Reading(Copy(Update(u))) == Update(u).(id := "")
  {
    ChangeSurvives(u.change);
    match u.item
    case Some(it) => KindSurvives(it.kind);
    case None => KindSurvives(OTHER(0));
  }

  /** The message says what the item says, exactly when the item is no attention update
      with an event id. */
  lemma CarriedExactly(item: Item)
    requires Emitted(item)
    ensures Reading(Copy(item)) == item <==> !(item.AttentionUpdate? && item.id != "")
  {
    if item.AttentionUpdate? {
      var u :| item == Update(u);
      UpdateSurvives(u);
    }
  }

  const ATTENTION := "attention"

  /** A cursor that only one port hands out: on SSE the update's frame carries the event
      id, and the gRPC message is the same whatever the id was. */
  lemma OnlySseHandsOutTheCursor(u: CoreUpdate, other: string)
    requires u.eventId != "" && other != u.eventId
    ensures ItemFrame(ATTENTION, Update(u)).id == Some(u.eventId)
    ensures ItemFrame(ATTENTION, Update(u)) != ItemFrame(ATTENTION, Update(u.(eventId := other)))
    ensures Copy(Update(u)) == Copy(Update(u.(eventId := other)))
  {
  }
}
