/** Announcements from creation to removal. Every service call, and every batch of the scheduler, is one atomic
    step with its own clock reading. The id of a removed announcement is never used again. */
module Announcements {
  import opened Batches
  import opened Text

  const PUBLISH_BATCH := 50

  type Id = string

  datatype Status = Draft | Scheduled | Published | Expired | Cancelled

  datatype Row = Row(org: Option<string>, status: Status, scheduledAt: Option<int>, expiresAt: Option<int>,
      publishedAt: Option<int>)

  /** `issued` and `broadcasts` are history: the ids ever given out, and how often each was broadcast, which means that
      the notices of all its recipients were stored and sent. */
  datatype State = State(rows: map<Id, Row>, issued: set<Id>, broadcasts: multiset<Id>)

  datatype Access = Access(platformAdmin: bool, tenantAdmin: bool, org: Option<string>)

  /** The parts of an update that matter here. None is an absent field; Some(None) clears a date. */
  datatype Patch = Patch(scheduledAt: Option<Option<int>>, expiresAt: Option<Option<int>>, status: Option<Status>)

  datatype Outcome = Done | NotFound | Forbidden | BadRequest | Failed

  /** How a publication goes: it may throw before anything is stored, or after the new status was but before the
      notices are, or behind the notices, when unread counts are read and the audit log is written. */
  datatype Fate = Succeeds | FailsFirst | FailsUnsent | FailsSent

  predicate Sends(fate: Fate) { fate == Succeeds || fate == FailsSent }

  /** A platform administrator sees every announcement, anyone else those of the same organization. */
  predicate Sees(access: Access, row: Row) { access.platformAdmin || row.org == access.org }

  predicate Pending(row: Row) { row.status == Draft || row.status == Scheduled }

  predicate IsDue(row: Row, now: int) {
    row.status == Scheduled && row.scheduledAt.Some? && row.scheduledAt.value <= now
  }

  predicate IsOver(row: Row, now: int) { row.status == Published && row.expiresAt.Some? && row.expiresAt.value < now }

  function Due(rows: map<Id, Row>, now: int): (ids: set<Id>)
    ensures forall id <- ids :: id in rows && Pending(rows[id])
  {
    set id | id in rows && IsDue(rows[id], now)
  }

  function Over(rows: map<Id, Row>, now: int): set<Id> { set id | id in rows && IsOver(rows[id], now) }

  // ----- The service as functions -----

  function PublishedRow(row: Row, now: int): Row {
    row.(status := Published, publishedAt := Some(now), scheduledAt := None)
  }

  function Create(s: State, access: Access, scheduledAt: Option<int>, expiresAt: Option<int>, id: Id, now: int)
    : (State, Outcome)
  {
    if !access.platformAdmin && (!access.tenantAdmin || access.org.None?) then (s, Forbidden)
    else
      var org := if access.platformAdmin then None else access.org;
      var row := if scheduledAt.Some? then Row(org, Scheduled, scheduledAt, expiresAt, None)
                 else Row(org, Published, None, expiresAt, Some(now));
      (State(s.rows[id := row], s.issued + {id}, s.broadcasts), Done)
  }

  function Publish(s: State, access: Access, id: Id, now: int, fate: Fate): (State, Outcome) {
    if id !in s.rows || !Sees(access, s.rows[id]) then (s, NotFound)
    else if !Pending(s.rows[id]) then (s, if s.rows[id].status == Published then Done else BadRequest)
    else
      var rows := s.rows[id := PublishedRow(s.rows[id], now)];
      match fate
      case Succeeds => (s.(rows := rows, broadcasts := s.broadcasts + multiset{id}), Done)
      case FailsFirst => (s, Failed)
      case FailsUnsent => (s.(rows := rows), Failed)
      case FailsSent => (s.(rows := rows, broadcasts := s.broadcasts + multiset{id}), Failed)
  }

  function Patched(row: Row, patch: Patch, now: int): Row {
    var status :=
      if patch.status in {Some(Published), Some(Cancelled), Some(Expired)} then patch.status.value
      else if row.status == Draft && patch.scheduledAt.Some? && patch.scheduledAt.value.Some? then Scheduled
      else row.status;
    var scheduledAt := if patch.scheduledAt.Some? then patch.scheduledAt.value else row.scheduledAt;
    var expiresAt := if patch.expiresAt.Some? then patch.expiresAt.value else row.expiresAt;
    if patch.status == Some(Published) then Row(row.org, status, None, expiresAt, Some(now))
    else Row(row.org, status, scheduledAt, expiresAt, row.publishedAt)
  }

  function Update(s: State, access: Access, id: Id, patch: Patch, now: int): (State, Outcome) {
    if id !in s.rows || !Sees(access, s.rows[id]) then (s, NotFound)
    else if s.rows[id].status == Published && patch.status !in {Some(Expired), Some(Cancelled)} then (s, BadRequest)
    else (s.(rows := s.rows[id := Patched(s.rows[id], patch, now)]), Done)
  }

  function Remove(s: State, access: Access, id: Id): (State, Outcome) {
    if id !in s.rows || !Sees(access, s.rows[id]) then (s, NotFound) else (s.(rows := s.rows - {id}), Done)
  }

  function ExpireDue(s: State, now: int): State {
    s.(rows := map id | id in s.rows :: if IsOver(s.rows[id], now) then s.rows[id].(status := Expired) else s.rows[id])
  }

  /** The access the scheduler makes up for a row. */
  function OwnerAccess(row: Row): Access { Access(row.org.None?, true, row.org) }

  function PublishAll(s: State, batch: seq<Id>, now: int, fates: Id -> Fate): (t: State)
    requires forall id <- batch :: id in s.rows
    ensures t.rows.Keys == s.rows.Keys
  {
    if batch == [] then s
    else
      var t := PublishAll(s, batch[..|batch|-1], now, fates);
      var id := batch[|batch|-1];
      Publish(t, OwnerAccess(t.rows[id]), id, now, fates(id)).0
  }

  /** How many publications of a batch succeed. */
  function Successes(batch: seq<Id>, fates: Id -> Fate): nat {
    if batch == [] then 0
    else Successes(batch[..|batch|-1], fates) + if fates(batch[|batch|-1]) == Succeeds then 1 else 0
  }

  /** Every publication of a batch that sends its notices also succeeds. */
  ghost predicate SentMeansDone(batch: seq<Id>, fates: Id -> Fate) { forall id <- batch :: fates(id) != FailsSent }

  // ----- Runs -----

  datatype Op =
    | CreateOp(access: Access, scheduledAt: Option<int>, expiresAt: Option<int>, id: Id, now: int)
    | PublishOp(access: Access, id: Id, now: int, fate: Fate)
    | UpdateOp(access: Access, id: Id, patch: Patch, now: int)
    | RemoveOp(access: Access, id: Id)
    | ExpireDueOp(now: int)
    | PublishDueOp(batch: seq<Id>, now: int, fates: Id -> Fate)

  /** A new id has never been used, and the scheduler works on what its query may return. */
  ghost predicate Legal(s: State, op: Op) {
    match op
    case CreateOp(_, _, _, id, _) => id !in s.issued
    case PublishDueOp(batch, now, _) => IsBatch(batch, Due(s.rows, now), PUBLISH_BATCH)
    case _ => true
  }

  ghost function Step(s: State, op: Op): State
    requires Legal(s, op)
  {
    match op
    case CreateOp(access, scheduledAt, expiresAt, id, now) => Create(s, access, scheduledAt, expiresAt, id, now).0
    case PublishOp(access, id, now, fate) => Publish(s, access, id, now, fate).0
    case UpdateOp(access, id, patch, now) => Update(s, access, id, patch, now).0
    case RemoveOp(access, id) => Remove(s, access, id).0
    case ExpireDueOp(now) => ExpireDue(s, now)
    case PublishDueOp(batch, now, fates) => PublishAll(s, batch, now, fates)
  }

  ghost predicate StepAt(states: seq<State>, ops: seq<Op>, i: nat)
    requires |states| == |ops| + 1 && i < |ops|
  {
    Legal(states[i], ops[i]) && states[i + 1] == Step(states[i], ops[i])
  }

  ghost predicate IsRun(states: seq<State>, ops: seq<Op>) {
    |states| == |ops| + 1 && forall i :: 0 <= i < |ops| ==> StepAt(states, ops, i)
  }

  // ----- What each call does -----

  /** The caller is a platform administrator or of the announcement's organization. */
  ghost predicate MayTouch(s: State, access: Access, id: Id) {
    id in s.rows && (access.platformAdmin || s.rows[id].org == access.org)
  }

  /** Only administrators create announcements: those of the platform without an organization, others for their own.
      With a time it waits as scheduled, without one it is stored as published at once. */
  lemma CreateStores(s: State, access: Access, scheduledAt: Option<int>, expiresAt: Option<int>, id: Id, now: int)
    ensures var (t, r) := Create(s, access, scheduledAt, expiresAt, id, now);
            && (r == Done <==> access.platformAdmin || (access.tenantAdmin && access.org.Some?))
            && if r == Done then
                 var org := if access.platformAdmin then None else access.org;
                 && t.broadcasts == s.broadcasts && t.issued == s.issued + {id}
                 && t.rows == s.rows[id := if scheduledAt.Some? then Row(org, Scheduled, scheduledAt, expiresAt, None)
                                           else Row(org, Published, None, expiresAt, Some(now))]
               else t == s && r == Forbidden
  {
  }

  /** Publishing takes drafts and scheduled announcements: they become published at that moment and lose their time. */
  lemma PublishStores(s: State, access: Access, id: Id, now: int, fate: Fate)
    ensures var (t, r) := Publish(s, access, id, now, fate);
            && t.issued == s.issued
            && (r == NotFound <==> !MayTouch(s, access, id))
            && (r == Done <==> MayTouch(s, access, id)
                               && (s.rows[id].status == Published
                                   || (s.rows[id].status in {Draft, Scheduled} && fate == Succeeds)))
            && (r == BadRequest <==> MayTouch(s, access, id) && s.rows[id].status in {Expired, Cancelled})
            && (if MayTouch(s, access, id) && s.rows[id].status in {Draft, Scheduled} && fate != FailsFirst then
                  var a := s.rows[id];
                  && t.rows == s.rows[id := Row(a.org, Published, None, a.expiresAt, Some(now))]
                  && t.broadcasts
                     == if fate in {Succeeds, FailsSent} then s.broadcasts + multiset{id} else s.broadcasts
                else t == s)
  {
  }

  /** A published announcement can only expire or be cancelled. Otherwise the given dates are stored, a draft with a new
      time becomes scheduled, and a given status of published, cancelled or expired is taken over, published with its
      date and without a time. */
  lemma UpdateStores(s: State, access: Access, id: Id, patch: Patch, now: int)
    ensures var (t, r) := Update(s, access, id, patch, now);
            && t.issued == s.issued && t.broadcasts == s.broadcasts
            && (r == NotFound <==> !MayTouch(s, access, id))
            && (r == BadRequest <==> MayTouch(s, access, id) && s.rows[id].status == Published
                                     && patch.status != Some(Expired) && patch.status != Some(Cancelled))
            && (r == Done || (t == s && r in {NotFound, BadRequest}))
            && (r == Done ==>
                  && t.rows.Keys == s.rows.Keys && (forall k <- s.rows :: k != id ==> t.rows[k] == s.rows[k])
                  && IsPatched(s.rows[id], t.rows[id], patch, now))
  {
  }

  ghost predicate IsPatched(a: Row, b: Row, patch: Patch, now: int) {
    && b.org == a.org
    && b.expiresAt == (if patch.expiresAt.Some? then patch.expiresAt.value else a.expiresAt)
    && (patch.status == Some(Published) ==>
          b.status == Published && b.publishedAt == Some(now) && b.scheduledAt == None)
    && (patch.status != Some(Published) ==>
          && b.publishedAt == a.publishedAt
          && b.scheduledAt == if patch.scheduledAt.Some? then patch.scheduledAt.value else a.scheduledAt)
    && (patch.status == Some(Cancelled) ==> b.status == Cancelled)
    && (patch.status == Some(Expired) ==> b.status == Expired)
    && (patch.status in {None, Some(Draft), Some(Scheduled)} ==>
          b.status == if a.status == Draft && patch.scheduledAt.Some? && patch.scheduledAt.value.Some?
                      then Scheduled else a.status)
  }

  /** Removing takes the row; expiring changes the published ones whose date is past, and nothing else. */
  lemma RemovalStores(s: State, access: Access, id: Id, now: int)
    ensures var (t, r) := Remove(s, access, id);
            && t.issued == s.issued && t.broadcasts == s.broadcasts
            && (r == Done <==> MayTouch(s, access, id)) && (r != Done ==> t == s && r == NotFound)
            && (r == Done ==> t.rows.Keys == s.rows.Keys - {id} && forall k <- t.rows :: t.rows[k] == s.rows[k])
    ensures var t := ExpireDue(s, now);
            && t.issued == s.issued && t.broadcasts == s.broadcasts && t.rows.Keys == s.rows.Keys
            && forall k <- s.rows ::
                 var a := s.rows[k];
                 t.rows[k] == if a.status == Published && a.expiresAt.Some? && a.expiresAt.value < now
                              then a.(status := Expired) else a
  {
  }

  /** A scheduled announcement whose time has come. */
  ghost predicate TimeHasCome(row: Row, now: int) {
    row.status == Scheduled && row.scheduledAt.Some? && row.scheduledAt.value <= now
  }

  // ----- The service as methods on the table -----

  class Service {
    var rows: map<Id, Row>
    ghost var issued: set<Id>
    ghost var broadcasts: multiset<Id>

    ghost function Tables(): State
      reads this
    {
      State(rows, issued, broadcasts)
    }

    constructor (existing: map<Id, Row>)
      ensures Tables() == State(existing, existing.Keys, multiset{})
    {
      rows, issued, broadcasts := existing, existing.Keys, multiset{};
    }

    method PublishNow(access: Access, id: Id, now: int, fate: Fate) returns (r: Outcome)
      modifies this`rows, this`broadcasts
      ensures (Tables(), r) == Publish(old(Tables()), access, id, now, fate)
    {
      if id !in rows || !Sees(access, rows[id]) { return NotFound; }
      if rows[id].status == Published { return Done; }
      if rows[id].status == Expired { return BadRequest; }
      if rows[id].status == Cancelled { return BadRequest; }
      if fate == FailsFirst { return Failed; }
      rows := rows[id := rows[id].(status := Published, publishedAt := Some(now), scheduledAt := None)];
      if fate == FailsUnsent { return Failed; }
      broadcasts := broadcasts + multiset{id};
      if fate == FailsSent { return Failed; }
      r := Done;
    }

    /** An announcement created for immediate publication is stored as published before it is published, so it does
        not matter how that goes. */
    method CreateAnnouncement(access: Access, scheduledAt: Option<int>, expiresAt: Option<int>, id: Id, now: int,
                              fate: Fate)
      returns (r: Outcome)
      requires id !in issued
      modifies this
      ensures (Tables(), r) == Create(old(Tables()), access, scheduledAt, expiresAt, id, now)
    {
      if !access.platformAdmin && !access.tenantAdmin { return Forbidden; }
      if !access.platformAdmin && access.org.None? { return Forbidden; }
      var org := if access.platformAdmin then None else access.org;
      var status := if scheduledAt.Some? then Scheduled else Published;
      rows := rows[id := Row(org, status, scheduledAt, expiresAt, if status == Published then Some(now) else None)];
      issued := issued + {id};
      if status == Published {
        var ignored := PublishNow(access, id, now, fate);
      }
      r := Done;
    }

    method UpdateAnnouncement(access: Access, id: Id, patch: Patch, now: int, fate: Fate) returns (r: Outcome)
      modifies this
      ensures (Tables(), r) == Update(old(Tables()), access, id, patch, now)
    {
      if id !in rows || !Sees(access, rows[id]) { return NotFound; }
      var row := rows[id];
      if row.status == Published && patch.status != Some(Expired) && patch.status != Some(Cancelled) {
        return BadRequest;
      }
      var data := row;
      if patch.scheduledAt.Some? {
        data := data.(scheduledAt := patch.scheduledAt.value);
        if patch.scheduledAt.value.Some? && row.status == Draft {
          data := data.(status := Scheduled);
        }
      }
      if patch.expiresAt.Some? { data := data.(expiresAt := patch.expiresAt.value); }
      if patch.status == Some(Published) {
        data := data.(status := Published, publishedAt := Some(now), scheduledAt := None);
      } else if patch.status == Some(Cancelled) {
        data := data.(status := Cancelled);
      } else if patch.status == Some(Expired) {
        data := data.(status := Expired);
      }
      rows := rows[id := data];
      if patch.status == Some(Published) {
        var ignored := PublishNow(access, id, now, fate);
      }
      r := Done;
    }

    method RemoveAnnouncement(access: Access, id: Id) returns (r: Outcome)
      modifies this`rows
      ensures (Tables(), r) == Remove(old(Tables()), access, id)
    {
      if id !in rows || !Sees(access, rows[id]) { return NotFound; }
      rows := rows - {id};
      r := Done;
    }

    method ExpirePast(now: int) returns (count: nat)
      modifies this`rows
      ensures Tables() == ExpireDue(old(Tables()), now) && count == |Over(old(rows), now)|
    {
      count := |Over(rows, now)|;
      rows := map id | id in rows :: if IsOver(rows[id], now) then rows[id].(status := Expired) else rows[id];
    }

    /** The scheduler's sweep: what fails is caught, and only what succeeds is counted. So the count falls short of the
        broadcasts made, exactly if a publication failed behind its notices. */
    method PublishDue(now: int, fates: Id -> Fate) returns (count: nat, ghost batch: seq<Id>)
      modifies this`rows, this`broadcasts
      ensures Legal(old(Tables()), PublishDueOp(batch, now, fates))
      ensures Tables() == Step(old(Tables()), PublishDueOp(batch, now, fates)) && count == Successes(batch, fates)
      ensures count <= |broadcasts| - |old(broadcasts)|
      ensures count == |broadcasts| - |old(broadcasts)| <==> SentMeansDone(batch, fates)
    {
      hide Due, PublishAll, Pending, PublishedRow, Successes;
      ghost var start := Tables();
      var due := Select(Due(rows, now), PUBLISH_BATCH);
      batch := due;
      count := 0;
      NothingPublished(start, now, fates);
      for i := 0 to |due|
        invariant rows.Keys == start.rows.Keys && count == Successes(due[..i], fates)
        invariant Tables() == PublishAll(start, due[..i], now, fates)
      {
        BatchStaysPending(start, due, i, now, fates);
        PublishOneMore(start, due, i, now, fates);
        var access := OwnerAccess(rows[due[i]]);
        var r := PublishNow(access, due[i], now, fates(due[i]));
        PendingPublishes(PublishAll(start, due[..i], now, fates), due[i], now, fates(due[i]));
        if r == Done { count := count + 1; }
      }
      assert due[..|due|] == due;
      CountOfSweep(start, due, now, fates);
    }
  }

  lemma NothingPublished(s: State, now: int, fates: Id -> Fate)
    ensures PublishAll(s, [], now, fates) == s && Successes([], fates) == 0 && SentMeansDone([], fates)
  {
  }

  lemma PublishOneMore(s: State, batch: seq<Id>, i: nat, now: int, fates: Id -> Fate)
    requires i < |batch| && forall id <- batch :: id in s.rows
    ensures var t := PublishAll(s, batch[..i], now, fates);
            PublishAll(s, batch[..i + 1], now, fates)
            == Publish(t, OwnerAccess(t.rows[batch[i]]), batch[i], now, fates(batch[i])).0
    ensures Successes(batch[..i + 1], fates)
         == Successes(batch[..i], fates) + if fates(batch[i]) == Succeeds then 1 else 0
  {
    assert batch[..i + 1][..i] == batch[..i];
  }

  lemma PendingPublishes(s: State, id: Id, now: int, fate: Fate)
    requires id in s.rows && Pending(s.rows[id])
    ensures Publish(s, OwnerAccess(s.rows[id]), id, now, fate).1 == Done <==> fate == Succeeds
  {
  }

  /** From s to t the rows of a batch were published but for those that fail at once, and those that send their notices
      were broadcast once each; nothing else changed. */
  ghost predicate BatchDone(s: State, t: State, batch: seq<Id>, now: int, fates: Id -> Fate) {
    && t.issued == s.issued && t.rows.Keys == s.rows.Keys
    && (forall id <- s.rows ::
          var published := id in batch && fates(id) != FailsFirst;
          t.rows[id] == if published then PublishedRow(s.rows[id], now) else s.rows[id])
    && forall id :: t.broadcasts[id] == s.broadcasts[id] + if id in batch && Sends(fates(id)) then 1 else 0
  }

  lemma OneMoreDone(s: State, t: State, front: seq<Id>, last: Id, now: int, fates: Id -> Fate)
    requires BatchDone(s, t, front, now, fates) && last in s.rows && Pending(s.rows[last]) && last !in front
    ensures BatchDone(s, Publish(t, OwnerAccess(t.rows[last]), last, now, fates(last)).0, front + [last], now, fates)
  {
    hide PublishedRow;
    assert forall id :: id in front + [last] <==> id in front || id == last;
    assert t.rows[last] == s.rows[last];
  }

  /** Publishing a batch publishes its rows but for those that fail at once, and broadcasts those that get to send their
      notices, whether or not they fail behind that. */
  lemma {:induction false} PublishAllIs(s: State, batch: seq<Id>, now: int, fates: Id -> Fate)
    requires forall i :: 0 <= i < |batch| ==> batch[i] in s.rows && Pending(s.rows[batch[i]])
    requires forall i, j :: 0 <= i < j < |batch| ==> batch[i] != batch[j]
    ensures BatchDone(s, PublishAll(s, batch, now, fates), batch, now, fates)
  {
    hide Publish, OwnerAccess, Pending, BatchDone;
    if batch == [] {
      NoneDone(s, now, fates);
    } else {
      var front, last := batch[..|batch|-1], batch[|batch|-1];
      PublishAllIs(s, front, now, fates);
      assert batch == front + [last];
      assert last !in front;
      OneMoreDone(s, PublishAll(s, front, now, fates), front, last, now, fates);
    }
  }

  lemma NoneDone(s: State, now: int, fates: Id -> Fate)
    ensures BatchDone(s, s, [], now, fates)
  {
  }

  lemma BatchStaysPending(s: State, batch: seq<Id>, i: nat, now: int, fates: Id -> Fate)
    requires IsBatch(batch, Due(s.rows, now), PUBLISH_BATCH) && i < |batch|
    ensures batch[i] in s.rows && Pending(PublishAll(s, batch[..i], now, fates).rows[batch[i]])
  {
    hide PublishAll;
    PublishAllIs(s, batch[..i], now, fates);
    assert batch[i] !in batch[..i];
  }

  /** The broadcasts a batch makes are its successes and, uncounted, its failures behind the notices. */
  lemma {:induction false} CountOfSweep(s: State, batch: seq<Id>, now: int, fates: Id -> Fate)
    requires forall i :: 0 <= i < |batch| ==> batch[i] in s.rows && Pending(s.rows[batch[i]])
    requires forall i, j :: 0 <= i < j < |batch| ==> batch[i] != batch[j]
    ensures var sent := |PublishAll(s, batch, now, fates).broadcasts| - |s.broadcasts|;
            && Successes(batch, fates) <= sent
            && (Successes(batch, fates) == sent <==> SentMeansDone(batch, fates))
  {
    hide PublishAll, Successes, SentMeansDone, Pending;
    if batch == [] {
      NothingPublished(s, now, fates);
    } else {
      var front, last := batch[..|batch|-1], batch[|batch|-1];
      CountOfSweep(s, front, now, fates);
      assert batch == front + [last];
      OneMoreSent(s, front, last, now, fates);
    }
  }

  lemma OneMoreSent(s: State, front: seq<Id>, last: Id, now: int, fates: Id -> Fate)
    requires forall i :: 0 <= i < |front| ==> front[i] in s.rows && Pending(s.rows[front[i]])
    requires forall i, j :: 0 <= i < j < |front| ==> front[i] != front[j]
    requires last in s.rows && Pending(s.rows[last]) && last !in front
    ensures |PublishAll(s, front + [last], now, fates).broadcasts|
         == |PublishAll(s, front, now, fates).broadcasts| + if Sends(fates(last)) then 1 else 0
    ensures Successes(front + [last], fates) == Successes(front, fates) + if fates(last) == Succeeds then 1 else 0
    ensures SentMeansDone(front + [last], fates) <==> SentMeansDone(front, fates) && fates(last) != FailsSent
  {
    var batch := front + [last];
    assert batch[..|batch|-1] == front;
    assert SentMeansDone(batch, fates) <==> SentMeansDone(front, fates) && fates(last) != FailsSent by {
      assert forall id :: id in batch <==> id in front || id == last;
    }
    hide OwnerAccess, Pending, Publish, Sends, SentMeansDone;
    PublishAllIs(s, front, now, fates);
    PublishOwn(PublishAll(s, front, now, fates), last, now, fates(last));
  }

  lemma PublishOwn(s: State, id: Id, now: int, fate: Fate)
    requires id in s.rows && Pending(s.rows[id])
    ensures |Publish(s, OwnerAccess(s.rows[id]), id, now, fate).0.broadcasts|
         == |s.broadcasts| + if Sends(fate) then 1 else 0
  {
  }

  // ----- When an announcement is broadcast -----

  /** The step tries to publish the announcement while it is a draft or scheduled. */
  ghost predicate Attempts(s: State, op: Op, id: Id) {
    && id in s.rows && Pending(s.rows[id])
    && ((op.PublishOp? && op.id == id && Sees(op.access, s.rows[id])) || (op.PublishDueOp? && id in op.batch))
  }

  ghost function FateOf(op: Op, id: Id): Fate
    requires op.PublishOp? || op.PublishDueOp?
  {
    if op.PublishOp? then op.fate else op.fates(id)
  }

  /** It tries, and gets as far as sending the notices. */
  ghost predicate Hits(s: State, op: Op, id: Id) { Attempts(s, op, id) && Sends(FateOf(op, id)) }

  /** A step broadcasts exactly what it hits. */
  lemma StepBroadcasts(s: State, op: Op, id: Id)
    requires Legal(s, op)
    ensures Step(s, op).broadcasts[id] == s.broadcasts[id] + if Hits(s, op, id) then 1 else 0
  {
    if op.PublishDueOp? {
      hide PublishAll;
      PublishAllIs(s, op.batch, op.now, op.fates);
    }
  }

  /** The announcement exists or existed, and can no longer be broadcast. */
  ghost predicate Spent(s: State, id: Id) {
    id in s.issued && (id in s.rows ==> !Pending(s.rows[id]))
  }

  lemma StepKeepsSpent(s: State, op: Op, id: Id)
    requires Legal(s, op) && Spent(s, id)
    ensures Spent(Step(s, op), id) && !Hits(s, op, id)
  {
    if op.PublishDueOp? {
      hide PublishAll;
      PublishAllIs(s, op.batch, op.now, op.fates);
    }
  }

  lemma HitIsSpent(s: State, op: Op, id: Id)
    requires Legal(s, op) && Hits(s, op, id) && id in s.issued
    ensures Spent(Step(s, op), id)
  {
    if op.PublishDueOp? {
      hide PublishAll;
      PublishAllIs(s, op.batch, op.now, op.fates);
    }
  }

  /** Known rows have known ids, published rows a publication date, and what has been broadcast, once, is spent. */
  ghost predicate Accounted(s: State, id: Id) {
    && (id in s.rows ==> id in s.issued)
    && (id in s.rows && s.rows[id].status == Published ==> s.rows[id].publishedAt.Some?)
    && s.broadcasts[id] <= 1 && (s.broadcasts[id] == 1 ==> Spent(s, id))
  }

  ghost predicate Inv(s: State) { forall id :: Accounted(s, id) }

  lemma StepKeepsRows(s: State, op: Op, id: Id)
    requires Legal(s, op) && Inv(s)
    ensures id in Step(s, op).rows ==> id in Step(s, op).issued
    ensures id in Step(s, op).rows && Step(s, op).rows[id].status == Published ==>
            Step(s, op).rows[id].publishedAt.Some?
  {
    assert Accounted(s, id);
    if op.PublishDueOp? {
      hide PublishAll;
      PublishAllIs(s, op.batch, op.now, op.fates);
    }
  }

  lemma StepKeepsInv(s: State, op: Op)
    requires Legal(s, op) && Inv(s)
    ensures Inv(Step(s, op))
  {
    hide Spent, Hits, Legal;
    forall id
      ensures Accounted(Step(s, op), id)
    {
      assert Accounted(s, id);
      StepKeepsRows(s, op, id);
      StepBroadcasts(s, op, id);
      if Spent(s, id) {
        StepKeepsSpent(s, op, id);
      } else if Hits(s, op, id) {
        assert id in s.rows by { HitIsThere(s, op, id); }
        HitIsSpent(s, op, id);
      }
    }
  }

  lemma HitIsThere(s: State, op: Op, id: Id)
    requires Hits(s, op, id)
    ensures id in s.rows
  {
  }

  lemma {:induction false} RunKeepsInv(states: seq<State>, ops: seq<Op>, n: nat)
    requires IsRun(states, ops) && Inv(states[0]) && n < |states|
    ensures Inv(states[n])
  {
    hide Inv, Step, Legal;
    if n > 0 {
      RunKeepsInv(states, ops, n - 1);
      assert StepAt(states, ops, n - 1);
      StepKeepsInv(states[n - 1], ops[n - 1]);
    }
  }

  /** Any table to start from, as long as its published rows have a publication date. */
  lemma AnyTableIsFine(existing: map<Id, Row>)
    requires forall id <- existing :: existing[id].status == Published ==> existing[id].publishedAt.Some?
    ensures Inv(State(existing, existing.Keys, multiset{}))
  {
  }

  /** At most once: over any run whatever, no announcement is broadcast twice. */
  lemma AtMostOnce(states: seq<State>, ops: seq<Op>, m: nat, n: nat, id: Id)
    requires IsRun(states, ops) && Inv(states[0]) && m < n < |ops|
    ensures !(Hits(states[m], ops[m], id) && Hits(states[n], ops[n], id))
    ensures states[n].broadcasts[id] <= 1
  {
    RunKeepsInv(states, ops, n);
    assert Accounted(states[n], id);
    if Hits(states[m], ops[m], id) {
      RunKeepsInv(states, ops, m);
      assert Accounted(states[m], id);
      assert StepAt(states, ops, m);
      HitIsSpent(states[m], ops[m], id);
      SpentForGood(states, ops, m + 1, n, id);
      assert StepAt(states, ops, n);
      StepKeepsSpent(states[n], ops[n], id);
    }
  }

  /** Once neither a draft nor scheduled, or removed, an announcement is never broadcast again: not by
      publishing, updating, expiring or the scheduler, and not when an expired one is set back to published. */
  lemma {:induction false} SpentForGood(states: seq<State>, ops: seq<Op>, m: nat, n: nat, id: Id)
    requires IsRun(states, ops) && m <= n < |states| && Spent(states[m], id)
    ensures Spent(states[n], id) && states[n].broadcasts[id] == states[m].broadcasts[id]
    decreases n
  {
    hide Spent, Step, Legal, Hits;
    if m < n {
      SpentForGood(states, ops, m, n - 1, id);
      assert StepAt(states, ops, n - 1);
      StepKeepsSpent(states[n - 1], ops[n - 1], id);
      StepBroadcasts(states[n - 1], ops[n - 1], id);
    }
  }

  /** An announcement created for immediate publication is never broadcast, whatever follows. */
  lemma ImmediateIsNeverBroadcast(states: seq<State>, ops: seq<Op>, m: nat, n: nat)
    requires IsRun(states, ops) && Inv(states[0]) && m < |ops| && m < n < |states|
    requires ops[m].CreateOp? && ops[m].scheduledAt.None?
    requires Create(states[m], ops[m].access, ops[m].scheduledAt, ops[m].expiresAt, ops[m].id, ops[m].now).1 == Done
    ensures states[n].broadcasts[ops[m].id] == 0
  {
    var id := ops[m].id;
    RunKeepsInv(states, ops, m);
    assert Accounted(states[m], id);
    assert StepAt(states, ops, m);
    StepBroadcasts(states[m], ops[m], id);
    SpentForGood(states, ops, m + 1, n, id);
  }

  /** Setting an expired announcement back to published succeeds and broadcasts nothing. */
  lemma RepublishingIsSilent(s: State, access: Access, id: Id, now: int)
    requires id in s.rows && s.rows[id].status == Expired && Sees(access, s.rows[id])
    ensures var (t, r) := Update(s, access, id, Patch(None, None, Some(Published)), now);
            r == Done && t.rows[id].status == Published && t.broadcasts == s.broadcasts
  {
  }

  /** How many of the first n steps hit an announcement. */
  ghost function HitCount(states: seq<State>, ops: seq<Op>, n: nat, id: Id): nat
    requires |states| == |ops| + 1 && n <= |ops|
  {
    if n == 0 then 0 else HitCount(states, ops, n - 1, id) + if Hits(states[n - 1], ops[n - 1], id) then 1 else 0
  }

  /** The broadcasts on record are exactly the attempts to publish that get as far as sending the notices: none is lost
      and none is invented. */
  lemma {:induction false} BroadcastsAreHits(states: seq<State>, ops: seq<Op>, n: nat, id: Id)
    requires IsRun(states, ops) && n <= |ops|
    ensures states[n].broadcasts[id] == states[0].broadcasts[id] + HitCount(states, ops, n, id)
  {
    if n > 0 {
      BroadcastsAreHits(states, ops, n - 1, id);
      assert StepAt(states, ops, n - 1);
      StepBroadcasts(states[n - 1], ops[n - 1], id);
    }
  }

  // ----- The scheduler makes progress -----

  /** Whatever is broadcast was a draft or scheduled, and was published by a caller who may, or by the sweep after its
      time had come. */
  lemma BroadcastsHaveReason(s: State, op: Op, id: Id)
    requires Legal(s, op) && Step(s, op).broadcasts[id] != s.broadcasts[id]
    ensures id in s.rows && s.rows[id].status in {Draft, Scheduled}
    ensures (op.PublishOp? && op.id == id && MayTouch(s, op.access, id))
            || (op.PublishDueOp? && TimeHasCome(s.rows[id], op.now))
  {
    StepBroadcasts(s, op, id);
    assert op.PublishDueOp? ==> forall k <- op.batch :: k in Due(s.rows, op.now);
  }

  /** The sweep changes only rows whose time has come, publishing them at that moment, and if nothing fails before it is
      stored leaves none of up to 50 such rows, or all but 50 of more. */
  lemma SweepIsComplete(s: State, batch: seq<Id>, now: int, fates: Id -> Fate)
    requires IsBatch(batch, Due(s.rows, now), PUBLISH_BATCH)
    ensures var t := PublishAll(s, batch, now, fates);
            && t.rows.Keys == s.rows.Keys
            && (forall id <- s.rows :: t.rows[id] != s.rows[id] ==>
                  var a := s.rows[id];
                  TimeHasCome(a, now) && t.rows[id] == Row(a.org, Published, None, a.expiresAt, Some(now)))
            && ((forall id <- batch :: fates(id) != FailsFirst) ==>
                  var (before, after) := (Waiting(s.rows, now), Waiting(t.rows, now));
                  after <= before && |after| == if |before| <= 50 then 0 else |before| - 50)
  {
    hide PublishAll, Due;
    PublishAllIs(s, batch, now, fates);
    DueAfterSweep(s, batch, now, fates);
    DueIsWaiting(s.rows, now);
    DueIsWaiting(PublishAll(s, batch, now, fates).rows, now);
    if forall id <- batch :: fates(id) != FailsFirst {
      assert (set id | id in batch && fates(id) != FailsFirst) == Members(batch);
      WhatIsLeft(batch, Due(s.rows, now), PUBLISH_BATCH);
    }
  }

  ghost function Waiting(rows: map<Id, Row>, now: int): set<Id> { set id | id in rows && TimeHasCome(rows[id], now) }

  lemma DueIsWaiting(rows: map<Id, Row>, now: int)
    ensures Due(rows, now) == Waiting(rows, now)
  {
  }

  lemma DueAfterSweep(s: State, batch: seq<Id>, now: int, fates: Id -> Fate)
    requires IsBatch(batch, Due(s.rows, now), PUBLISH_BATCH)
    ensures Due(PublishAll(s, batch, now, fates).rows, now)
         == Due(s.rows, now) - (set id | id in batch && fates(id) != FailsFirst)
  {
    hide PublishAll;
    PublishAllIs(s, batch, now, fates);
  }

  /** Sweeps at one clock reading in which no publication fails before it is stored. */
  ghost predicate IsSweepRun(states: seq<State>, ops: seq<Op>, now: int) {
    && IsRun(states, ops)
    && forall i :: 0 <= i < |ops| ==>
         ops[i].PublishDueOp? && ops[i].now == now && forall id <- ops[i].batch :: ops[i].fates(id) != FailsFirst
  }

  /** After k such sweeps max(0, n - 50k) of n due announcements are left. */
  lemma {:induction false} SweepsProgress(states: seq<State>, ops: seq<Op>, now: int, k: nat)
    requires IsSweepRun(states, ops, now) && k < |states|
    ensures var n := |Due(states[0].rows, now)|;
            |Due(states[k].rows, now)| == if n <= 50 * k then 0 else n - 50 * k
  {
    hide Due;
    if k > 0 {
      SweepsProgress(states, ops, now, k - 1);
      assert StepAt(states, ops, k - 1);
      var op := ops[k - 1];
      assert op.PublishDueOp? && op.now == now;
      DueAfterSweep(states[k - 1], op.batch, now, op.fates);
      assert (set id | id in op.batch && op.fates(id) != FailsFirst) == Members(op.batch);
      WhatIsLeft(op.batch, Due(states[k - 1].rows, now), PUBLISH_BATCH);
    }
  }

  /** The sweep means to leave failed announcements for the next one, and does so exactly for those that fail before
      they are stored. */
  lemma FailedStaysDue(s: State, batch: seq<Id>, now: int, fates: Id -> Fate, id: Id)
    requires IsBatch(batch, Due(s.rows, now), PUBLISH_BATCH) && id in batch && fates(id) != Succeeds
    ensures id in Due(PublishAll(s, batch, now, fates).rows, now) <==> fates(id) == FailsFirst
  {
    hide PublishAll, Due;
    DueAfterSweep(s, batch, now, fates);
  }

  /** Once an attempt has stored the status it decides for good: whatever follows, the announcement has been broadcast
      once if the attempt sent its notices, and never if it did not. An attempt that stored nothing sent nothing. */
  lemma AttemptDecides(states: seq<State>, ops: seq<Op>, m: nat, n: nat, id: Id)
    requires IsRun(states, ops) && Inv(states[0]) && m < |ops| && m < n < |states|
    requires Attempts(states[m], ops[m], id)
    ensures var fate := FateOf(ops[m], id);
            && states[m + 1].broadcasts[id] == (if Sends(fate) then 1 else 0)
            && (fate != FailsFirst ==> states[n].broadcasts[id] == if Sends(fate) then 1 else 0)
  {
    RunKeepsInv(states, ops, m);
    assert Accounted(states[m], id);
    assert StepAt(states, ops, m);
    StepBroadcasts(states[m], ops[m], id);
    if FateOf(ops[m], id) != FailsFirst {
      StoredIsSpent(states[m], ops[m], id);
      SpentForGood(states, ops, m + 1, n, id);
    }
  }

  lemma StoredIsSpent(s: State, op: Op, id: Id)
    requires Legal(s, op) && Accounted(s, id) && Attempts(s, op, id) && FateOf(op, id) != FailsFirst
    ensures Spent(Step(s, op), id)
  {
    if op.PublishDueOp? {
      hide PublishAll;
      PublishAllIs(s, op.batch, op.now, op.fates);
    }
  }

  // ----- Organizations -----

  /** What a caller who is no platform administrator does never touches another organization's announcements. */
  lemma StaysInOrganization(s: State, op: Op, id: Id)
    requires Legal(s, op) && Inv(s) && !op.ExpireDueOp? && !op.PublishDueOp? && !op.access.platformAdmin
    requires id in s.rows && s.rows[id].org != op.access.org
    ensures id in Step(s, op).rows && Step(s, op).rows[id] == s.rows[id]
  {
    assert Accounted(s, id);
  }
}
