/** Feedback requests from the resolved ticket to completion or expiry. Every service call is one
    atomic step with its own clock reading; rows are never deleted, and a row's id is its index. */
module FeedbackLifecycle {
  import opened Batches
  import opened Text

  const DAY_MS := 86_400_000
  const VALID_MS := 7 * DAY_MS
  const REMINDER_MS := 3 * DAY_MS
  const EXPIRE_BATCH := 200
  const REMINDER_BATCH := 50

  type Id = nat
  type Name = string

  datatype Status = Pending | Opened | Completed | Expired

  datatype Request = Request(org: Name, ticket: Name, form: Name, user: Name, status: Status,
                             sentAt: int, expiresAt: int, reminderSentAt: Option<int>, openedAt: Option<int>,
                             submittedAt: Option<int>)

  datatype Response = Response(request: Option<Id>, ticket: Name, form: Name, user: Name)

  /** Notices and audit entries written, about one request each. The last three are history of what failed: a reminder
      that went out but was not noted in its row, and an expiry whose notice, or whose audit entry, was not written. */
  datatype Event =
    | Available(id: Id) | Reminder(id: Id) | ExpiryNotice(id: Id) | ExpiryAudit(id: Id)
    | Unmarked(id: Id) | Unnoticed(id: Id) | Unaudited(id: Id)

  /** How an expiry goes: it may throw when the row is written, when the notice is, or behind the notice. */
  datatype ExpiryFate = Told | RowFails | NoticeFails | AuditFails

  /** How a reminder goes: it may throw when the notice is written, or behind that, before the row notes it. */
  datatype ReminderFate = Marked | ReminderFails | MarkFails

  datatype State = State(requests: seq<Request>, responses: seq<Response>, outbox: multiset<Event>)

  const EMPTY := State([], [], multiset{})

  datatype Form = Form(id: Name, org: Name, active: bool, satisfaction: bool, allowMultiple: bool,
      expiresAt: Option<int>)

  datatype Ticket = Ticket(id: Name, org: Name, createdBy: Name, resolved: bool)

  predicate IsOpen(r: Request) { r.status == Pending || r.status == Opened }

  // ----- generateForTicket -----

  predicate Usable(f: Form, org: Name, now: int) {
    f.org == org && f.active && (f.expiresAt.None? || f.expiresAt.value > now)
  }

  function FirstForm(forms: seq<Form>, p: Form -> bool): (f: Option<Form>)
    ensures f.Some? ==> f.value in forms && p(f.value)
    ensures f.None? ==> forall g <- forms :: !p(g)
  {
    if forms == [] then None else if p(forms[0]) then Some(forms[0]) else FirstForm(forms[1..], p)
  }

  /** `resolveSatisfactionForm`: the organization's default form if it is usable, else its oldest usable
      satisfaction survey (`forms` is in creation order). */
  function ResolveForm(forms: seq<Form>, defaultForm: Option<Name>, org: Name, now: int): (f: Option<Form>)
    ensures f.Some? ==> f.value in forms && Usable(f.value, org, now)
  {
    var preferred :=
      if defaultForm.Some? then FirstForm(forms, (f: Form) => f.id == defaultForm.value && Usable(f, org, now))
      else None;
    if preferred.Some? then preferred else FirstForm(forms, (f: Form) => f.satisfaction && Usable(f, org, now))
  }

  predicate Matches(r: Request, ticket: Name, form: Name, statuses: set<Status>) {
    r.ticket == ticket && r.form == form && r.status in statuses
  }

  /** The first request of a ticket and form in one of the given states. */
  function FirstRequest(requests: seq<Request>, ticket: Name, form: Name, statuses: set<Status>): (i: Option<Id>)
    ensures i.Some? ==> i.value < |requests| && Matches(requests[i.value], ticket, form, statuses)
    ensures i.None? ==> forall k :: 0 <= k < |requests| ==> !Matches(requests[k], ticket, form, statuses)
  {
    if requests == [] then None
    else
      var last := |requests| - 1;
      var i := FirstRequest(requests[..last], ticket, form, statuses);
      if i.Some? then i else if Matches(requests[last], ticket, form, statuses) then Some(last) else None
  }

  function OpenRequest(requests: seq<Request>, ticket: Name, form: Name): Option<Id> {
    FirstRequest(requests, ticket, form, {Pending, Opened})
  }

  function CompletedRequest(requests: seq<Request>, ticket: Name, form: Name): Option<Id> {
    FirstRequest(requests, ticket, form, {Completed})
  }

  function ExpiryFor(form: Form, now: int): int {
    var latest := now + VALID_MS;
    if form.expiresAt.Some? && form.expiresAt.value != 0 && form.expiresAt.value < latest then form.expiresAt.value
    else latest
  }

  function Generate(s: State, ticket: Ticket, forms: seq<Form>, defaultForm: Option<Name>, customerExists: bool,
                    now: int): (State, Option<Id>)
  {
    var form := if ticket.org == "" then None else ResolveForm(forms, defaultForm, ticket.org, now);
    if form.None? then (s, None)
    else if OpenRequest(s.requests, ticket.id, form.value.id).Some? then
      (s, OpenRequest(s.requests, ticket.id, form.value.id))
    else if CompletedRequest(s.requests, ticket.id, form.value.id).Some? && !form.value.allowMultiple then (s, None)
    else if !customerExists then (s, None)
    else
      var r := Request(ticket.org, ticket.id, form.value.id, ticket.createdBy, Pending,
                       now, ExpiryFor(form.value, now), None, None, None);
      (State(s.requests + [r], s.responses, s.outbox + multiset{Available(|s.requests|)}), Some(|s.requests|))
  }

  // ----- Submission -----

  datatype Outcome = NotFound | Forbidden | AlreadySubmitted | SurveyExpired | NotResolved | Ready | Invalid | Accepted
    | Failed

  function SetRequest(s: State, id: Id, r: Request): State
    requires id < |s.requests|
  {
    s.(requests := s.requests[id := r])
  }

  /** What an expiry leaves behind once the row is written. */
  function Trace(id: Id, fate: ExpiryFate): multiset<Event> {
    if fate == NoticeFails then multiset{Unnoticed(id)}
    else multiset{ExpiryNotice(id), if fate == AuditFails then Unaudited(id) else ExpiryAudit(id)}
  }

  /** `markExpiredAndNotify`. */
  function MarkExpired(s: State, id: Id, fate: ExpiryFate): State
    requires id < |s.requests|
  {
    if fate == RowFails then s
    else
      State(s.requests[id := s.requests[id].(status := Expired)], s.responses, s.outbox + Trace(id, fate))
  }

  /** `findForSubmission`. */
  function FindForSubmission(s: State, user: Name, org: Name, id: Id, ticketResolved: bool, now: int, fate: ExpiryFate)
    : (State, Outcome)
  {
    if id >= |s.requests| || (org != "" && s.requests[id].org != org) then (s, NotFound)
    else
      var r := s.requests[id];
      if r.user != user then (s, Forbidden)
      else if r.status == Completed then (s, AlreadySubmitted)
      else if r.status == Expired then (s, SurveyExpired)
      else if r.expiresAt < now then (MarkExpired(s, id, fate), if fate == Told then SurveyExpired else Failed)
      else if !ticketResolved then (s, NotResolved)
      else if r.status == Pending then (SetRequest(s, id, r.(status := Opened, openedAt := Some(now))), Ready)
      else (s, Ready)
  }

  /** `submit` with a request id; `valid` says that the answers and the comment rule pass. */
  function Submit(s: State, user: Name, org: Name, id: Id, ticketResolved: bool, valid: bool, now: int,
                  fate: ExpiryFate)
    : (State, Outcome)
  {
    if org == "" then (s, Forbidden)
    else
      var (t, found) := FindForSubmission(s, user, org, id, ticketResolved, now, fate);
      if found != Ready then (t, found)
      else if !valid then (t, Invalid)
      else
        var r := t.requests[id];
        (State(t.requests[id := r.(status := Completed, submittedAt := Some(now))],
               t.responses + [Response(Some(id), r.ticket, r.form, user)], t.outbox),
         Accepted)
  }

  function ResponsesBy(responses: seq<Response>, ticket: Name, form: Name, user: Name): nat {
    if responses == [] then 0
    else
      var last := responses[|responses|-1];
      ResponsesBy(responses[..|responses|-1], ticket, form, user)
      + if last.ticket == ticket && last.form == form && last.user == user then 1 else 0
  }

  /** `submit` with a form and a ticket instead of a request. */
  function SubmitDirect(s: State, user: Name, org: Name, form: Option<Form>, ticket: Option<Ticket>, valid: bool,
                        now: int): (State, Outcome)
  {
    if org == "" then (s, Forbidden)
    else if form.None? || form.value.org != org || !form.value.active then (s, NotFound)
    else if form.value.expiresAt.Some? && form.value.expiresAt.value < now then (s, SurveyExpired)
    else if ticket.None? || ticket.value.org != org || ticket.value.createdBy != user then (s, NotFound)
    else if !ticket.value.resolved then (s, NotResolved)
    else if !form.value.allowMultiple && ResponsesBy(s.responses, ticket.value.id, form.value.id, user) > 0 then
      (s, AlreadySubmitted)
    else if !valid then (s, Invalid)
    else (s.(responses := s.responses + [Response(None, ticket.value.id, form.value.id, user)]), Accepted)
  }

  // ----- Sweeps -----

  predicate InScope(r: Request, scope: Option<Name>) { scope.None? || r.user == scope.value }

  predicate IsOverdue(r: Request, scope: Option<Name>, now: int) { IsOpen(r) && r.expiresAt < now && InScope(r, scope) }

  predicate NeedsReminder(r: Request, scope: Option<Name>, now: int) {
    && r.status == Pending && r.reminderSentAt == None
    && r.sentAt < now - REMINDER_MS && r.expiresAt > now && InScope(r, scope)
  }

  function Overdue(requests: seq<Request>, scope: Option<Name>, now: int): (ids: set<Id>)
    ensures forall id <- ids :: id < |requests| && IsOpen(requests[id])
  {
    set id | 0 <= id < |requests| && IsOverdue(requests[id], scope, now)
  }

  function Unreminded(requests: seq<Request>, scope: Option<Name>, now: int): (ids: set<Id>)
    ensures forall id <- ids :: id < |requests| && requests[id].reminderSentAt == None
  {
    set id | 0 <= id < |requests| && NeedsReminder(requests[id], scope, now)
  }

  function ExpireAll(s: State, batch: seq<Id>, fates: Id -> ExpiryFate): (t: State)
    requires forall i :: 0 <= i < |batch| ==> batch[i] < |s.requests|
    ensures |t.requests| == |s.requests|
  {
    if batch == [] then s
    else
      var last := batch[|batch|-1];
      MarkExpired(ExpireAll(s, batch[..|batch|-1], fates), last, fates(last))
  }

  function MarkReminded(s: State, id: Id, now: int, fate: ReminderFate): State
    requires id < |s.requests|
  {
    match fate
    case ReminderFails => s
    case MarkFails => s.(outbox := s.outbox + multiset{Reminder(id), Unmarked(id)})
    case Marked =>
      State(s.requests[id := s.requests[id].(reminderSentAt := Some(now))], s.responses,
            s.outbox + multiset{Reminder(id)})
  }

  function RemindAll(s: State, batch: seq<Id>, now: int, fates: Id -> ReminderFate): (t: State)
    requires forall i :: 0 <= i < |batch| ==> batch[i] < |s.requests|
    ensures |t.requests| == |s.requests|
  {
    if batch == [] then s
    else
      var last := batch[|batch|-1];
      MarkReminded(RemindAll(s, batch[..|batch|-1], now, fates), last, now, fates(last))
  }

  /** The rows a sweep gets to: the first failure ends it. */
  function Reached<F(==)>(batch: seq<Id>, fates: Id -> F, good: F): (r: seq<Id>)
    ensures r <= batch
    ensures r == batch || (r != [] && fates(r[|r|-1]) != good)
    ensures forall i :: 0 <= i < |r| - 1 ==> fates(r[i]) == good
  {
    if batch == [] then []
    else if fates(batch[0]) != good then [batch[0]]
    else [batch[0]] + Reached(batch[1..], fates, good)
  }

  lemma {:induction false} ReachedIs<F>(batch: seq<Id>, fates: Id -> F, good: F, i: nat)
    requires i <= |batch| && forall k :: 0 <= k < i ==> fates(batch[k]) == good
    ensures i == |batch| ==> Reached(batch, fates, good) == batch
    ensures i < |batch| && fates(batch[i]) != good ==> Reached(batch, fates, good) == batch[..i + 1]
  {
    if i > 0 {
      ReachedIs(batch[1..], fates, good, i - 1);
      assert i < |batch| ==> [batch[0]] + batch[1..][..i] == batch[..i + 1];
      assert batch[0] == batch[0..][0];
    }
  }

  lemma NothingSwept(s: State, now: int, fates: Id -> ExpiryFate, fates': Id -> ReminderFate)
    ensures ExpireAll(s, [], fates) == s == RemindAll(s, [], now, fates')
  {
  }

  lemma ExpireOneMore(s: State, batch: seq<Id>, fates: Id -> ExpiryFate, i: nat)
    requires i < |batch| && forall k :: 0 <= k < |batch| ==> batch[k] < |s.requests|
    ensures ExpireAll(s, batch[..i + 1], fates)
         == MarkExpired(ExpireAll(s, batch[..i], fates), batch[i], fates(batch[i]))
  {
    assert batch[..i + 1][..i] == batch[..i];
  }

  lemma RemindOneMore(s: State, batch: seq<Id>, now: int, fates: Id -> ReminderFate, i: nat)
    requires i < |batch| && forall k :: 0 <= k < |batch| ==> batch[k] < |s.requests|
    ensures RemindAll(s, batch[..i + 1], now, fates)
         == MarkReminded(RemindAll(s, batch[..i], now, fates), batch[i], now, fates(batch[i]))
  {
    assert batch[..i + 1][..i] == batch[..i];
  }

  // ----- Runs -----

  datatype Op =
    | GenerateOp(ticket: Ticket, forms: seq<Form>, defaultForm: Option<Name>, customerExists: bool, now: int)
    | SubmitOp(user: Name, org: Name, id: Id, ticketResolved: bool, valid: bool, now: int, fate: ExpiryFate)
    | SubmitDirectOp(user: Name, org: Name, form: Option<Form>, onTicket: Option<Ticket>, valid: bool, now: int)
    | ExpireOp(scope: Option<Name>, now: int, batch: seq<Id>, fates: Id -> ExpiryFate)
    | RemindOp(scope: Option<Name>, now: int, batch: seq<Id>, reminders: Id -> ReminderFate)

  /** The batch of a sweep is one its query may return. */
  ghost predicate Legal(s: State, op: Op) {
    match op
    case ExpireOp(scope, now, batch, _) => IsBatch(batch, Overdue(s.requests, scope, now), EXPIRE_BATCH)
    case RemindOp(scope, now, batch, _) => IsBatch(batch, Unreminded(s.requests, scope, now), REMINDER_BATCH)
    case _ => true
  }

  ghost function Step(s: State, op: Op): State
    requires Legal(s, op)
  {
    match op
    case GenerateOp(ticket, forms, defaultForm, customerExists, now) =>
        Generate(s, ticket, forms, defaultForm, customerExists, now).0
    case SubmitOp(user, org, id, ticketResolved, valid, now, fate) =>
        Submit(s, user, org, id, ticketResolved, valid, now, fate).0
    case SubmitDirectOp(user, org, form, ticket, valid, now) => SubmitDirect(s, user, org, form, ticket, valid, now).0
    case ExpireOp(_, _, batch, fates) => ExpireAll(s, Reached(batch, fates, Told), fates)
    case RemindOp(_, now, batch, fates) => RemindAll(s, Reached(batch, fates, Marked), now, fates)
  }

  /** A run visits states[0], states[1], ..., each reached from the one before by a legal step. */
  ghost predicate IsRun(states: seq<State>, ops: seq<Op>) {
    && |states| == |ops| + 1
    && forall i: nat :: i < |ops| ==> StepAt(states, ops, i)
  }

  ghost predicate StepAt(states: seq<State>, ops: seq<Op>, i: nat) {
    i < |ops| && i + 1 < |states| && Legal(states[i], ops[i]) && states[i + 1] == Step(states[i], ops[i])
  }

  lemma OneThenOther(events: multiset<Event>, a: Event, b: Event)
    ensures events + multiset{a} + multiset{b} == events + multiset{a, b}
  {
  }

  // ----- What each call does -----

  /** The form a request is made for: the default form of the organization if it is active and not past its own date,
      otherwise the first such satisfaction survey; none if there is neither. */
  lemma ResolvesTo(forms: seq<Form>, defaultForm: Option<Name>, org: Name, now: int)
    ensures var r := ResolveForm(forms, defaultForm, org, now);
            if exists f :: f in forms && InForce(f, org, now) && Some(f.id) == defaultForm then
              r.Some? && r.value in forms && InForce(r.value, org, now) && Some(r.value.id) == defaultForm
            else if exists f :: f in forms && InForce(f, org, now) && f.satisfaction then
              r.Some? && exists i :: FirstSurvey(forms, i, org, now) && forms[i] == r.value
            else r.None?
  {
    var named := (f: Form) => defaultForm.Some? && f.id == defaultForm.value && Usable(f, org, now);
    if defaultForm.Some? {
      var p := (f: Form) => f.id == defaultForm.value && Usable(f, org, now);
      FirstFormIs(forms, p);
    }
    FirstFormIs(forms, (f: Form) => f.satisfaction && Usable(f, org, now));
  }

  ghost predicate InForce(f: Form, org: Name, now: int) {
    f.org == org && f.active && (f.expiresAt.None? || f.expiresAt.value > now)
  }

  /** The oldest survey in force. */
  ghost predicate FirstSurvey(forms: seq<Form>, i: int, org: Name, now: int) {
    && 0 <= i < |forms| && forms[i].satisfaction && InForce(forms[i], org, now)
    && forall k :: 0 <= k < i ==> !(forms[k].satisfaction && InForce(forms[k], org, now))
  }

  lemma {:induction false} FirstFormIs(forms: seq<Form>, p: Form -> bool)
    ensures FirstForm(forms, p).Some? ==>
              exists i :: 0 <= i < |forms| && forms[i] == FirstForm(forms, p).value
                  && forall k :: 0 <= k < i ==> !p(forms[k])
  {
    if forms != [] && !p(forms[0]) && FirstForm(forms, p).Some? {
      FirstFormIs(forms[1..], p);
      var i :| 0 <= i < |forms[1..]| && forms[1..][i] == FirstForm(forms[1..], p).value
               && forall k :: 0 <= k < i ==> !p(forms[1..][k]);
      assert forms[i + 1] == FirstForm(forms, p).value;
      forall k | 0 <= k < i + 1 ensures !p(forms[k]) {
        if k > 0 { assert forms[k] == forms[1..][k - 1]; }
      }
    }
  }

  /** Some request of the ticket for the form has one of the states. */
  ghost predicate Has(requests: seq<Request>, ticket: Name, form: Name, statuses: set<Status>) {
    exists k :: 0 <= k < |requests| && requests[k].ticket == ticket && requests[k].form == form
        && requests[k].status in statuses
  }

  lemma FirstRequestIs(requests: seq<Request>, ticket: Name, form: Name, statuses: set<Status>)
    ensures FirstRequest(requests, ticket, form, statuses).Some? <==> Has(requests, ticket, form, statuses)
  {
    var i := FirstRequest(requests, ticket, form, statuses);
    if i.Some? {
      assert Matches(requests[i.value], ticket, form, statuses);
    } else {
      assert forall k :: 0 <= k < |requests| ==> !Matches(requests[k], ticket, form, statuses);
    }
  }

  /** A request is added exactly if there is a form and a customer, no request for the form is open, and none completed
      unless the form allows several. It is pending, and expires after seven days or with the form, whichever comes
      first (a form date of 0 counts as none). An open request is returned instead. */
  lemma GenerateStores(s: State, ticket: Ticket, forms: seq<Form>, defaultForm: Option<Name>, customerExists: bool,
                       now: int)
    ensures var (t, r) := Generate(s, ticket, forms, defaultForm, customerExists, now);
            var form := ResolveForm(forms, defaultForm, ticket.org, now);
            if ticket.org == "" || form.None? then t == s && r == None
            else
              var f := form.value;
              if Has(s.requests, ticket.id, f.id, {Pending, Opened}) then
                && t == s && r.Some? && r.value < |s.requests|
                && s.requests[r.value].ticket == ticket.id && s.requests[r.value].form == f.id
                && s.requests[r.value].status in {Pending, Opened}
              else if !customerExists || (!f.allowMultiple && Has(s.requests, ticket.id, f.id, {Completed})) then
                t == s && r == None
              else
                var week := now + 604_800_000;
                var end := if f.expiresAt.Some? && f.expiresAt.value != 0 && f.expiresAt.value < week
                           then f.expiresAt.value else week;
                && r == Some(|s.requests|) && t.responses == s.responses
                && t.requests == s.requests + [Request(ticket.org, ticket.id, f.id, ticket.createdBy, Pending, now, end,
                                                       None, None, None)]
                && t.outbox == s.outbox + multiset{Available(|s.requests|)}
  {
    hide ResolveForm, FirstRequest;
    var form := ResolveForm(forms, defaultForm, ticket.org, now);
    if form.Some? {
      FirstRequestIs(s.requests, ticket.id, form.value.id, {Pending, Opened});
      FirstRequestIs(s.requests, ticket.id, form.value.id, {Completed});
    }
  }

  /** Every row but one is as before. */
  ghost predicate OthersSame(s: State, t: State, id: Id) {
    && |t.requests| == |s.requests|
    && forall k :: 0 <= k < |s.requests| && k != id ==> t.requests[k] == s.requests[k]
  }

  /** A request may be answered by its own customer, while it is pending or opened, up to the moment it expires, once
      the ticket is resolved. */
  ghost predicate Answerable(s: State, user: Name, org: Name, id: Id, ticketResolved: bool, now: int) {
    && id < |s.requests| && (org == "" || s.requests[id].org == org) && s.requests[id].user == user
    && s.requests[id].status in {Pending, Opened} && now <= s.requests[id].expiresAt && ticketResolved
  }

  /** The request past its date is found by its customer and expired on the way. */
  ghost predicate FoundLate(s: State, user: Name, org: Name, id: Id, now: int) {
    && id < |s.requests| && (org == "" || s.requests[id].org == org) && s.requests[id].user == user
    && s.requests[id].status in {Pending, Opened} && s.requests[id].expiresAt < now
  }

  lemma FindStores(s: State, user: Name, org: Name, id: Id, ticketResolved: bool, now: int, fate: ExpiryFate)
    ensures var (t, r) := FindForSubmission(s, user, org, id, ticketResolved, now, fate);
            && (r == Ready <==> Answerable(s, user, org, id, ticketResolved, now))
            && t.responses == s.responses && OthersSame(s, t, id)
            && (if r == Ready then
                  && t.outbox == s.outbox
                  && t.requests[id] == if s.requests[id].status == Opened then s.requests[id]
                                       else s.requests[id].(status := Opened, openedAt := Some(now))
                else if FoundLate(s, user, org, id, now) then
                  && r == (if fate == Told then SurveyExpired else Failed)
                  && if fate == RowFails then t == s else t.requests[id] == s.requests[id].(status := Expired)
                else t == s)
            && r !in {Accepted, Invalid}
            && (r == NotFound <==> id >= |s.requests| || (org != "" && s.requests[id].org != org))
            && (r == Forbidden <==> r != NotFound && s.requests[id].user != user)
            && (r == AlreadySubmitted <==> r !in {NotFound, Forbidden} && s.requests[id].status == Completed)
            && (r == NotResolved ==> !ticketResolved)
  {
  }

  /** A response by request is accepted exactly if the request may be answered and the answers are valid; then it is
      stored and the request completed at that moment. Nothing else adds a response. */
  lemma SubmitStores(s: State, user: Name, org: Name, id: Id, ticketResolved: bool, valid: bool, now: int,
                     fate: ExpiryFate)
    ensures var (t, r) := Submit(s, user, org, id, ticketResolved, valid, now, fate);
            && (r == Accepted <==> org != "" && valid && Answerable(s, user, org, id, ticketResolved, now))
            && (org == "" ==> t == s && r == Forbidden) && OthersSame(s, t, id)
            && if r == Accepted then
                 var a, b := s.requests[id], t.requests[id];
                 && t.responses == s.responses + [Response(Some(id), a.ticket, a.form, user)] && t.outbox == s.outbox
                 && b.status == Completed && b.submittedAt == Some(now)
                 && b.(status := a.status, submittedAt := a.submittedAt, openedAt := a.openedAt) == a
                 && b.openedAt == if a.status == Opened then a.openedAt else Some(now)
               else t.responses == s.responses
  {
    hide FindForSubmission;
    FindStores(s, user, org, id, ticketResolved, now, fate);
  }

  /** A customer who has answered the form for the ticket before, in whatever way. */
  ghost predicate AnsweredBefore(responses: seq<Response>, ticket: Name, form: Name, user: Name) {
    exists i :: 0 <= i < |responses| && responses[i].ticket == ticket && responses[i].form == form
        && responses[i].user == user
  }

  lemma {:induction false} ResponsesAreThere(responses: seq<Response>, ticket: Name, form: Name, user: Name)
    ensures ResponsesBy(responses, ticket, form, user) > 0 <==> AnsweredBefore(responses, ticket, form, user)
  {
    if responses != [] {
      var front, last := responses[..|responses|-1], responses[|responses|-1];
      ResponsesAreThere(front, ticket, form, user);
      assert forall i :: 0 <= i < |front| ==> front[i] == responses[i];
    }
  }

  /** A direct response is accepted exactly for an active form that is not past its date, a resolved ticket of the
      customer's own in the same organization, valid answers, and no earlier one unless the form allows several. */
  lemma DirectStores(s: State, user: Name, org: Name, form: Option<Form>, ticket: Option<Ticket>, valid: bool, now: int)
    ensures var (t, r) := SubmitDirect(s, user, org, form, ticket, valid, now);
            && (r == Accepted <==>
                  && org != "" && form.Some? && ticket.Some? && valid
                  && form.value.org == org && form.value.active
                  && (form.value.expiresAt.None? || now <= form.value.expiresAt.value)
                  && ticket.value.org == org && ticket.value.createdBy == user && ticket.value.resolved
                  && (form.value.allowMultiple
                      || !AnsweredBefore(s.responses, ticket.value.id, form.value.id, user)))
            && if r == Accepted then
                 && t.requests == s.requests && t.outbox == s.outbox
                 && t.responses == s.responses + [Response(None, ticket.value.id, form.value.id, user)]
               else t == s
  {
    hide ResponsesBy;
    if form.Some? && ticket.Some? { ResponsesAreThere(s.responses, ticket.value.id, form.value.id, user); }
  }

  // ----- The service -----

  class Service {
    var requests: seq<Request>
    var responses: seq<Response>
    ghost var outbox: multiset<Event>

    ghost function Tables(): State
      reads this
    {
      State(requests, responses, outbox)
    }

    constructor ()
      ensures Tables() == EMPTY
    {
      requests, responses, outbox := [], [], multiset{};
    }

    method GenerateForTicket(ticket: Ticket, forms: seq<Form>, defaultForm: Option<Name>, customerExists: bool,
                             now: int)
      returns (id: Option<Id>)
      modifies this
      ensures (Tables(), id) == Generate(old(Tables()), ticket, forms, defaultForm, customerExists, now)
    {
      if ticket.org == "" { return None; }
      var form := ResolveForm(forms, defaultForm, ticket.org, now);
      if form.None? { return None; }
      var existing := OpenRequest(requests, ticket.id, form.value.id);
      if existing.Some? { return existing; }
      var completed := CompletedRequest(requests, ticket.id, form.value.id);
      if completed.Some? && !form.value.allowMultiple { return None; }
      if !customerExists { return None; }
      id := Some(|requests|);
      outbox := outbox + multiset{Available(|requests|)};
      requests := requests + [Request(ticket.org, ticket.id, form.value.id, ticket.createdBy, Pending,
                                      now, ExpiryFor(form.value, now), None, None, None)];
    }

    method MarkExpiredAndNotify(id: Id, fate: ExpiryFate) returns (ok: bool)
      requires id < |requests|
      modifies this
      ensures Tables() == MarkExpired(old(Tables()), id, fate) && (ok <==> fate == Told)
    {
      if fate == RowFails { return false; }
      requests := requests[id := requests[id].(status := Expired)];
      if fate == NoticeFails {
        outbox := outbox + multiset{Unnoticed(id)};
        return false;
      }
      ghost var before := outbox;
      outbox := outbox + multiset{ExpiryNotice(id)};
      ok := fate != AuditFails;
      outbox := outbox + multiset{if ok then ExpiryAudit(id) else Unaudited(id)};
      OneThenOther(before, ExpiryNotice(id), if ok then ExpiryAudit(id) else Unaudited(id));
    }

    method Find(user: Name, org: Name, id: Id, ticketResolved: bool, now: int, fate: ExpiryFate) returns (r: Outcome)
      modifies this
      ensures (Tables(), r) == FindForSubmission(old(Tables()), user, org, id, ticketResolved, now, fate)
      ensures r == Ready ==> id < |requests|
    {
      if id >= |requests| || (org != "" && requests[id].org != org) { return NotFound; }
      var row := requests[id];
      if row.user != user { return Forbidden; }
      if row.status == Completed { return AlreadySubmitted; }
      if row.status == Expired || row.expiresAt < now {
        if row.status != Expired {
          var ok := MarkExpiredAndNotify(id, fate);
          if !ok { return Failed; }
        }
        return SurveyExpired;
      }
      if !ticketResolved { return NotResolved; }
      if row.status == Pending {
        requests := requests[id := row.(status := Opened, openedAt := Some(now))];
      }
      r := Ready;
    }

    method SubmitForRequest(user: Name, org: Name, id: Id, ticketResolved: bool, valid: bool, now: int,
                            fate: ExpiryFate)
      returns (r: Outcome)
      modifies this
      ensures (Tables(), r) == Submit(old(Tables()), user, org, id, ticketResolved, valid, now, fate)
    {
      if org == "" { return Forbidden; }
      r := Find(user, org, id, ticketResolved, now, fate);
      if r != Ready { return; }
      if !valid { return Invalid; }
      responses := responses + [Response(Some(id), requests[id].ticket, requests[id].form, user)];
      requests := requests[id := requests[id].(status := Completed, submittedAt := Some(now))];
      r := Accepted;
    }

    method SubmitForTicket(user: Name, org: Name, form: Option<Form>, ticket: Option<Ticket>, valid: bool, now: int)
      returns (r: Outcome)
      modifies this`responses
      ensures (Tables(), r) == SubmitDirect(old(Tables()), user, org, form, ticket, valid, now)
    {
      if org == "" { return Forbidden; }
      if form.None? || form.value.org != org || !form.value.active { return NotFound; }
      if form.value.expiresAt.Some? && form.value.expiresAt.value < now { return SurveyExpired; }
      if ticket.None? || ticket.value.org != org || ticket.value.createdBy != user { return NotFound; }
      if !ticket.value.resolved { return NotResolved; }
      var existingCount := ResponsesBy(responses, ticket.value.id, form.value.id, user);
      if existingCount > 0 && !form.value.allowMultiple { return AlreadySubmitted; }
      if !valid { return Invalid; }
      responses := responses + [Response(None, ticket.value.id, form.value.id, user)];
      r := Accepted;
    }

    /** The count, or nothing when the sweep throws. */
    method ExpireOverdue(scope: Option<Name>, now: int, fates: Id -> ExpiryFate)
      returns (count: Option<nat>, ghost batch: seq<Id>)
      modifies this
      ensures Legal(old(Tables()), ExpireOp(scope, now, batch, fates))
      ensures Tables() == Step(old(Tables()), ExpireOp(scope, now, batch, fates))
      ensures count == if forall id <- batch :: fates(id) == Told then Some(|batch|) else None
    {
      hide Overdue, MarkExpired, ExpireAll, Reached;
      ghost var start := Tables();
      var stale := Select(Overdue(requests, scope, now), EXPIRE_BATCH);
      batch := stale;
      NothingSwept(start, now, fates, _ => Marked);
      for i := 0 to |stale|
        invariant |requests| == |start.requests|
        invariant forall k :: 0 <= k < i ==> fates(stale[k]) == Told
        invariant Tables() == ExpireAll(start, stale[..i], fates)
      {
        ExpireOneMore(start, stale, fates, i);
        ReachedIs(stale, fates, Told, i);
        var ok := MarkExpiredAndNotify(stale[i], fates(stale[i]));
        if !ok { return None, batch; }
      }
      assert stale[..|stale|] == stale;
      ReachedIs(stale, fates, Told, |stale|);
      count := Some(|stale|);
    }

    method RemindOne(id: Id, now: int, fate: ReminderFate) returns (ok: bool)
      requires id < |requests|
      modifies this
      ensures Tables() == MarkReminded(old(Tables()), id, now, fate) && (ok <==> fate == Marked)
    {
      if fate == ReminderFails { return false; }
      ghost var before := outbox;
      outbox := outbox + multiset{Reminder(id)};
      ok := fate != MarkFails;
      if ok {
        requests := requests[id := requests[id].(reminderSentAt := Some(now))];
      } else {
        outbox := outbox + multiset{Unmarked(id)};
        OneThenOther(before, Reminder(id), Unmarked(id));
      }
    }

    /** The count, or nothing when the sweep throws. */
    method SendReminders(scope: Option<Name>, now: int, fates: Id -> ReminderFate)
      returns (count: Option<nat>, ghost batch: seq<Id>)
      modifies this
      ensures Legal(old(Tables()), RemindOp(scope, now, batch, fates))
      ensures Tables() == Step(old(Tables()), RemindOp(scope, now, batch, fates))
      ensures count == if forall id <- batch :: fates(id) == Marked then Some(|batch|) else None
    {
      hide Unreminded, RemindAll, MarkReminded, Reached;
      ghost var start := Tables();
      var stale := Select(Unreminded(requests, scope, now), REMINDER_BATCH);
      batch := stale;
      NothingSwept(start, now, _ => Told, fates);
      for i := 0 to |stale|
        invariant |requests| == |start.requests|
        invariant forall k :: 0 <= k < i ==> fates(stale[k]) == Marked
        invariant Tables() == RemindAll(start, stale[..i], now, fates)
      {
        RemindOneMore(start, stale, now, fates, i);
        ReachedIs(stale, fates, Marked, i);
        var ok := RemindOne(stale[i], now, fates(stale[i]));
        if !ok { return None, batch; }
      }
      assert stale[..|stale|] == stale;
      ReachedIs(stale, fates, Marked, |stale|);
      count := Some(|stale|);
    }
  }

  // ----- Invariants of every run -----

  ghost predicate BothOpen(requests: seq<Request>, i: Id, j: Id) {
    && i < |requests| && j < |requests| && IsOpen(requests[i]) && IsOpen(requests[j])
    && requests[i].ticket == requests[j].ticket && requests[i].form == requests[j].form
  }

  ghost predicate OneOpen(requests: seq<Request>) { forall i: Id, j: Id :: BothOpen(requests, i, j) ==> i == j }

  ghost predicate Dated(r: Request) { r.sentAt < r.expiresAt <= r.sentAt + 604_800_000 }

  /** How many responses carry a request's id. */
  function Answers(responses: seq<Response>, id: Id): nat {
    if responses == [] then 0
    else Answers(responses[..|responses|-1], id) + if responses[|responses|-1].request == Some(id) then 1 else 0
  }

  /** One announcement; a reminder exactly if the row says so, and one more for each that its row does not note; an
      expiry notice exactly if it is expired, unless writing that failed, and an audit entry exactly for each notice,
      unless writing that failed; one response exactly if it is completed. */
  ghost predicate Accounted(s: State, id: Id)
    requires id < |s.requests|
  {
    var r := s.requests[id];
    && s.outbox[Available(id)] == 1
    && s.outbox[Reminder(id)] == (if r.reminderSentAt.Some? then 1 else 0) + s.outbox[Unmarked(id)]
    && s.outbox[ExpiryNotice(id)] + s.outbox[Unnoticed(id)] == (if r.status == Expired then 1 else 0)
    && s.outbox[ExpiryAudit(id)] + s.outbox[Unaudited(id)] == s.outbox[ExpiryNotice(id)]
    && Answers(s.responses, id) == if r.status == Completed then 1 else 0
  }

  /** Nothing has been sent about, or answered for, rows that do not exist yet. */
  ghost predicate Silent(s: State, id: Id) {
    && s.outbox[Available(id)] == s.outbox[Reminder(id)] == s.outbox[Unmarked(id)] == 0
    && s.outbox[ExpiryNotice(id)] == s.outbox[ExpiryAudit(id)] == 0
    && s.outbox[Unnoticed(id)] == s.outbox[Unaudited(id)] == 0
    && Answers(s.responses, id) == 0
  }

  ghost predicate Inv(s: State) {
    && OneOpen(s.requests)
    && (forall id :: 0 <= id < |s.requests| ==> Dated(s.requests[id]) && Accounted(s, id))
    && forall id: Id :: id >= |s.requests| ==> Silent(s, id)
  }

  lemma GenerateKeepsInv(s: State, ticket: Ticket, forms: seq<Form>, defaultForm: Option<Name>, customerExists: bool,
                         now: int)
    requires Inv(s)
    ensures Inv(Generate(s, ticket, forms, defaultForm, customerExists, now).0)
  {
    var t := Generate(s, ticket, forms, defaultForm, customerExists, now).0;
    if t != s {
      assert Silent(s, |s.requests|);
      var r := t.requests[|s.requests|];
      assert t.requests == s.requests + [r];
      assert OpenRequest(s.requests, r.ticket, r.form) == None;
      NewOpenRequest(s.requests, r);
      forall id | 0 <= id < |t.requests|
        ensures Dated(t.requests[id]) && Accounted(t, id)
      {
        if id < |s.requests| { assert Accounted(s, id) && Dated(s.requests[id]); }
      }
      forall id: Id | id >= |t.requests|
        ensures Silent(t, id)
      {
        assert Silent(s, id);
      }
    }
  }

  lemma NewOpenRequest(requests: seq<Request>, r: Request)
    requires OneOpen(requests) && OpenRequest(requests, r.ticket, r.form) == None
    ensures OneOpen(requests + [r])
  {
    forall k: Id | k < |requests|
      ensures !BothOpen(requests + [r], k, |requests|) && !BothOpen(requests + [r], |requests|, k)
    {
      assert !Matches(requests[k], r.ticket, r.form, {Pending, Opened});
    }
    forall i: Id, j: Id | BothOpen(requests + [r], i, j)
      ensures i == j
    {
      if i < |requests| && j < |requests| { assert BothOpen(requests, i, j); }
    }
  }

  /** A step that touches one existing row, keeps its identity and dates, and does not reopen it. */
  ghost predicate TouchesOnly(s: State, t: State, id: Id) {
    && id < |s.requests| == |t.requests|
    && (forall k :: 0 <= k < |s.requests| && k != id ==> t.requests[k] == s.requests[k])
    && SameRow(s.requests[id], t.requests[id])
    && (IsOpen(t.requests[id]) ==> IsOpen(s.requests[id]))
  }

  ghost predicate SameRow(a: Request, b: Request) {
    && a.org == b.org && a.ticket == b.ticket && a.form == b.form && a.user == b.user
    && a.sentAt == b.sentAt && a.expiresAt == b.expiresAt
  }

  /** Events and responses of such a step concern that row only. */
  ghost predicate ConcernsOnly(s: State, t: State, id: Id) {
    && (forall k: Id :: k != id ==>
          && t.outbox[Available(k)] == s.outbox[Available(k)] && t.outbox[Reminder(k)] == s.outbox[Reminder(k)]
          && t.outbox[Unmarked(k)] == s.outbox[Unmarked(k)]
          && t.outbox[ExpiryNotice(k)] == s.outbox[ExpiryNotice(k)]
          && t.outbox[ExpiryAudit(k)] == s.outbox[ExpiryAudit(k)]
          && t.outbox[Unnoticed(k)] == s.outbox[Unnoticed(k)] && t.outbox[Unaudited(k)] == s.outbox[Unaudited(k)])
    && forall k: Id :: k != id ==> Answers(t.responses, k) == Answers(s.responses, k)
  }

  lemma TouchKeepsInv(s: State, t: State, id: Id)
    requires Inv(s) && TouchesOnly(s, t, id) && ConcernsOnly(s, t, id) && Accounted(t, id)
    ensures Inv(t)
  {
    forall k | 0 <= k < |t.requests|
      ensures Dated(t.requests[k]) && Accounted(t, k)
    {
      assert Dated(s.requests[k]) && Accounted(s, k);
    }
    forall k: Id | k >= |t.requests|
      ensures Silent(t, k)
    {
      assert Silent(s, k);
    }
    assert OneOpen(t.requests) by {
      forall i: Id, j: Id | BothOpen(t.requests, i, j)
        ensures i == j
      {
        assert BothOpen(s.requests, i, j);
      }
    }
  }

  lemma ExpireKeepsInv(s: State, id: Id, fate: ExpiryFate)
    requires Inv(s) && id < |s.requests| && IsOpen(s.requests[id])
    ensures Inv(MarkExpired(s, id, fate))
  {
    ExpireAccounts(s, id, fate);
    hide MarkExpired, TouchesOnly, ConcernsOnly, Accounted;
    TouchKeepsInv(s, MarkExpired(s, id, fate), id);
  }

  lemma ExpireAccounts(s: State, id: Id, fate: ExpiryFate)
    requires id < |s.requests| && IsOpen(s.requests[id]) && Accounted(s, id)
    ensures var t := MarkExpired(s, id, fate);
            TouchesOnly(s, t, id) && ConcernsOnly(s, t, id) && Accounted(t, id)
  {
    var t := MarkExpired(s, id, fate);
    assert ConcernsOnly(s, t, id) by { hide Accounted, TouchesOnly; }
    assert TouchesOnly(s, t, id) by { hide Accounted, ConcernsOnly, Trace; }
    hide TouchesOnly, ConcernsOnly;
  }

  lemma RemindKeepsInv(s: State, id: Id, now: int, fate: ReminderFate)
    requires Inv(s) && id < |s.requests| && s.requests[id].reminderSentAt == None
    ensures Inv(MarkReminded(s, id, now, fate))
  {
    assert Accounted(s, id);
    TouchKeepsInv(s, MarkReminded(s, id, now, fate), id);
  }

  lemma AnswersSnoc(responses: seq<Response>, r: Response, id: Id)
    ensures Answers(responses + [r], id) == Answers(responses, id) + if r.request == Some(id) then 1 else 0
  {
    assert (responses + [r])[..|responses|] == responses;
  }

  lemma FindKeepsInv(s: State, user: Name, org: Name, id: Id, ticketResolved: bool, now: int, fate: ExpiryFate)
    requires Inv(s)
    ensures var (t, r) := FindForSubmission(s, user, org, id, ticketResolved, now, fate);
            && Inv(t) && |t.requests| == |s.requests|
            && (r == Ready ==> id < |t.requests| && t.requests[id].status == Opened)
  {
    var t := FindForSubmission(s, user, org, id, ticketResolved, now, fate).0;
    if t != s {
      assert Accounted(s, id);
      if t.requests[id].status == Expired {
        ExpireKeepsInv(s, id, fate);
      } else {
        TouchKeepsInv(s, t, id);
      }
    }
  }

  lemma CompleteKeepsInv(s: State, id: Id, user: Name, now: int)
    requires Inv(s) && id < |s.requests| && s.requests[id].status == Opened
    ensures var r := s.requests[id];
            Inv(State(s.requests[id := r.(status := Completed, submittedAt := Some(now))],
                      s.responses + [Response(Some(id), r.ticket, r.form, user)], s.outbox))
  {
    var r := s.requests[id];
    var t := State(s.requests[id := r.(status := Completed, submittedAt := Some(now))],
                   s.responses + [Response(Some(id), r.ticket, r.form, user)], s.outbox);
    assert Accounted(s, id);
    forall k: Id
      ensures Answers(t.responses, k) == Answers(s.responses, k) + if k == id then 1 else 0
    {
      AnswersSnoc(s.responses, Response(Some(id), r.ticket, r.form, user), k);
    }
    TouchKeepsInv(s, t, id);
  }

  lemma DirectKeepsInv(s: State, r: Response)
    requires Inv(s) && r.request == None
    ensures Inv(s.(responses := s.responses + [r]))
  {
    var t := s.(responses := s.responses + [r]);
    forall k: Id
      ensures Answers(t.responses, k) == Answers(s.responses, k)
    {
      AnswersSnoc(s.responses, r, k);
    }
    forall k | 0 <= k < |t.requests| ensures Accounted(t, k) { assert Accounted(s, k); }
    forall k: Id | k >= |t.requests| ensures Silent(t, k) { assert Silent(s, k); }
  }

  /** Rows still to come in a sweep have not been touched by it. */
  lemma {:induction false} ExpireAllKeepsInv(s: State, batch: seq<Id>, fates: Id -> ExpiryFate)
    requires Inv(s) && IsOpenBatch(s, batch)
    ensures Inv(ExpireAll(s, batch, fates))
    ensures forall k :: 0 <= k < |s.requests| ==>
            ExpireAll(s, batch, fates).requests[k]
            == if k in batch && fates(k) != RowFails then s.requests[k].(status := Expired) else s.requests[k]
  {
    hide Inv;
    if batch != [] {
      var front, last := batch[..|batch|-1], batch[|batch|-1];
      ExpireAllKeepsInv(s, front, fates);
      assert last !in front;
      assert batch == front + [last];
      ExpireKeepsInv(ExpireAll(s, front, fates), last, fates(last));
    }
  }

  ghost predicate IsOpenBatch(s: State, batch: seq<Id>) {
    && (forall i :: 0 <= i < |batch| ==> batch[i] < |s.requests| && IsOpen(s.requests[batch[i]]))
    && forall i, j :: 0 <= i < j < |batch| ==> batch[i] != batch[j]
  }

  ghost predicate IsUnremindedBatch(s: State, batch: seq<Id>) {
    && (forall i :: 0 <= i < |batch| ==> batch[i] < |s.requests| && s.requests[batch[i]].reminderSentAt == None)
    && forall i, j :: 0 <= i < j < |batch| ==> batch[i] != batch[j]
  }

  lemma {:induction false} RemindAllKeepsInv(s: State, batch: seq<Id>, now: int, fates: Id -> ReminderFate)
    requires Inv(s) && IsUnremindedBatch(s, batch)
    ensures Inv(RemindAll(s, batch, now, fates))
    ensures forall k :: 0 <= k < |s.requests| ==>
            RemindAll(s, batch, now, fates).requests[k]
            == if k in batch && fates(k) == Marked then s.requests[k].(reminderSentAt := Some(now)) else s.requests[k]
  {
    hide Inv;
    if batch != [] {
      var front, last := batch[..|batch|-1], batch[|batch|-1];
      RemindAllKeepsInv(s, front, now, fates);
      assert last !in front;
      assert batch == front + [last];
      RemindKeepsInv(RemindAll(s, front, now, fates), last, now, fates(last));
    }
  }

  lemma StepKeepsInv(s: State, op: Op)
    requires Inv(s) && Legal(s, op)
    ensures Inv(Step(s, op))
  {
    match op
    case GenerateOp(ticket, forms, defaultForm, customerExists, now) =>
        GenerateKeepsInv(s, ticket, forms, defaultForm, customerExists, now);
    case SubmitOp(user, org, id, ticketResolved, valid, now, fate) =>
      FindKeepsInv(s, user, org, id, ticketResolved, now, fate);
      var (t, r) := FindForSubmission(s, user, org, id, ticketResolved, now, fate);
      if r == Ready { CompleteKeepsInv(t, id, user, now); }
    case SubmitDirectOp(user, org, form, ticket, valid, now) =>
      if Step(s, op) != s { DirectKeepsInv(s, Response(None, ticket.value.id, form.value.id, user)); }
    case ExpireOp(scope, now, batch, fates) => ExpireAllKeepsInv(s, Reached(batch, fates, Told), fates);
    case RemindOp(scope, now, batch, fates) => RemindAllKeepsInv(s, Reached(batch, fates, Marked), now, fates);
  }

  /** Safety over every run, whatever mix of generation, submission, lazy and scheduled sweeps it makes: at every
      moment at most one open request per ticket and form, dates in order and within seven days, exactly one
      response for each completed request, exactly one expiry notice and audit entry for each expired one unless
      writing it failed, and at most one reminder besides those whose note in the row failed. */
  lemma {:induction false} RunKeepsInv(states: seq<State>, ops: seq<Op>, n: nat)
    requires IsRun(states, ops) && Inv(states[0]) && n < |states|
    ensures Inv(states[n])
  {
    if n > 0 {
      RunKeepsInv(states, ops, n - 1);
      assert StepAt(states, ops, n - 1);
      StepKeepsInv(states[n - 1], ops[n - 1]);
    }
  }

  lemma EmptyIsFine()
    ensures Inv(EMPTY)
  {
  }

  // ----- What never changes again -----

  /** How a row may change: its identity and dates stay, completed and expired rows stay so, an open row never
      goes back from opened to pending, and a reminder, once noted, stays noted. */
  ghost predicate Follows(a: Request, b: Request) {
    && SameRow(a, b)
    && (a.status == Completed ==> b.status == Completed && b.submittedAt == a.submittedAt)
    && (a.status == Expired ==> b.status == Expired)
    && (b.status == Pending ==> a.status == Pending)
    && (a.reminderSentAt.Some? ==> b.reminderSentAt == a.reminderSentAt)
  }

  ghost predicate AllFollow(s: State, t: State) {
    |s.requests| <= |t.requests| && forall i :: 0 <= i < |s.requests| ==> Follows(s.requests[i], t.requests[i])
  }

  lemma ExpireFollows(s: State, batch: seq<Id>, fates: Id -> ExpiryFate)
    requires Inv(s) && IsOpenBatch(s, batch)
    ensures AllFollow(s, ExpireAll(s, batch, fates))
  {
    ExpireAllKeepsInv(s, batch, fates);
    hide Inv, ExpireAll, MarkExpired;
    forall i | 0 <= i < |s.requests|
      ensures Follows(s.requests[i], ExpireAll(s, batch, fates).requests[i])
    {
      if i in batch {
        var k :| 0 <= k < |batch| && batch[k] == i;
      }
    }
  }

  lemma RemindFollows(s: State, batch: seq<Id>, now: int, fates: Id -> ReminderFate)
    requires Inv(s) && IsUnremindedBatch(s, batch)
    ensures AllFollow(s, RemindAll(s, batch, now, fates))
  {
    RemindAllKeepsInv(s, batch, now, fates);
    hide Inv, RemindAll;
    forall i | 0 <= i < |s.requests|
      ensures Follows(s.requests[i], RemindAll(s, batch, now, fates).requests[i])
    {
      if i in batch {
        var k :| 0 <= k < |batch| && batch[k] == i;
      }
    }
  }

  lemma FollowsTransitive(s: State, t: State, u: State)
    requires AllFollow(s, t) && AllFollow(t, u)
    ensures AllFollow(s, u)
  {
    forall i | 0 <= i < |s.requests|
      ensures Follows(s.requests[i], u.requests[i])
    {
      assert Follows(s.requests[i], t.requests[i]) && Follows(t.requests[i], u.requests[i]);
    }
  }

  lemma FindFollows(s: State, user: Name, org: Name, id: Id, ticketResolved: bool, now: int, fate: ExpiryFate)
    ensures var (t, r) := FindForSubmission(s, user, org, id, ticketResolved, now, fate);
            AllFollow(s, t) && (r == Ready ==> id < |t.requests| && t.requests[id].status == Opened)
  {
  }

  lemma SubmitFollows(s: State, user: Name, org: Name, id: Id, ticketResolved: bool, valid: bool, now: int,
                      fate: ExpiryFate)
    ensures AllFollow(s, Submit(s, user, org, id, ticketResolved, valid, now, fate).0)
  {
    FindFollows(s, user, org, id, ticketResolved, now, fate);
    var t := FindForSubmission(s, user, org, id, ticketResolved, now, fate).0;
    var u := Submit(s, user, org, id, ticketResolved, valid, now, fate).0;
    hide FindForSubmission;
    if u != s && u != t {
      assert AllFollow(t, u);
      FollowsTransitive(s, t, u);
    }
  }

  lemma StepFollows(s: State, op: Op)
    requires Inv(s) && Legal(s, op)
    ensures AllFollow(s, Step(s, op))
  {
    hide Inv, Submit, SubmitDirect, ExpireAll, RemindAll, ResolveForm, OpenRequest, CompletedRequest, ExpiryFor;
    match op
    case ExpireOp(scope, now, batch, fates) => ExpireFollows(s, Reached(batch, fates, Told), fates);
    case RemindOp(scope, now, batch, fates) => RemindFollows(s, Reached(batch, fates, Marked), now, fates);
    case GenerateOp(_, _, _, _, _) =>
    case SubmitOp(user, org, id, ticketResolved, valid, now, fate) =>
        SubmitFollows(s, user, org, id, ticketResolved, valid, now, fate);
    case SubmitDirectOp(user, org, form, ticket, valid, now) =>
      assert SubmitDirect(s, user, org, form, ticket, valid, now).0.requests == s.requests by {
        DirectLeavesRequests(s, op);
      }
  }

  lemma DirectLeavesRequests(s: State, op: Op)
    requires op.SubmitDirectOp?
    ensures SubmitDirect(s, op.user, op.org, op.form, op.onTicket, op.valid, op.now).0.requests == s.requests
  {
  }

  /** Completed and expired are final, and everything else only moves forward, from any moment of a run to any later
      one. */
  lemma {:induction false} RunFollows(states: seq<State>, ops: seq<Op>, m: nat, n: nat)
    requires IsRun(states, ops) && Inv(states[0]) && m <= n < |states|
    ensures AllFollow(states[m], states[n])
    decreases n
  {
    assert |states| == |ops| + 1;
    hide Inv, AllFollow, IsRun;
    if m < n {
      RunFollows(states, ops, m, n - 1);
      RunStepFollows(states, ops, n - 1);
      FollowsTransitive(states[m], states[n - 1], states[n]);
    } else {
      FollowsItself(states[m]);
    }
  }

  lemma FollowsItself(s: State)
    ensures AllFollow(s, s)
  {
  }

  lemma RunStepFollows(states: seq<State>, ops: seq<Op>, n: nat)
    requires IsRun(states, ops) && Inv(states[0]) && n < |ops|
    ensures AllFollow(states[n], states[n + 1])
  {
    hide Inv, AllFollow, Legal;
    RunKeepsInv(states, ops, n);
    assert StepAt(states, ops, n);
    StepFollows(states[n], ops[n]);
  }

  // ----- When a row expires, completes or is reminded of -----

  /** An open request of the given customer, or of anyone, whose date is past. */
  ghost predicate PastDate(r: Request, scope: Option<Name>, now: int) {
    r.status in {Pending, Opened} && (scope.None? || scope.value == r.user) && r.expiresAt < now
  }

  /** A request the customer has not looked at for three days and that is still open. */
  ghost predicate Forgotten(r: Request, scope: Option<Name>, now: int) {
    && r.status == Pending && r.reminderSentAt.None? && (scope.None? || scope.value == r.user)
    && r.sentAt + 259_200_000 < now < r.expiresAt
  }

  /** The call expires a row only past its date. */
  ghost predicate Expires(s: State, op: Op, id: Id)
    requires id < |s.requests|
  {
    || (op.ExpireOp? && PastDate(s.requests[id], op.scope, op.now))
    || (op.SubmitOp? && op.id == id && FoundLate(s, op.user, op.org, id, op.now))
  }

  /** The call completes a row only up to its date, and on behalf of its customer. */
  ghost predicate Completes(s: State, op: Op, id: Id) {
    && op.SubmitOp? && op.id == id && op.valid && op.org != ""
    && Answerable(s, op.user, op.org, id, op.ticketResolved, op.now)
  }

  ghost predicate Reminds(s: State, op: Op, id: Id)
    requires id < |s.requests|
  {
    op.RemindOp? && Forgotten(s.requests[id], op.scope, op.now)
  }

  /** How a row may differ after a call: it was opened, completed, expired or reminded of, each under its condition. */
  ghost predicate Explained(s: State, op: Op, a: Request, b: Request, id: Id)
    requires id < |s.requests|
  {
    && (b.status != a.status ==>
          match b.status
          case Pending => false
          case Opened => a.status == Pending && op.SubmitOp?
                         && Answerable(s, op.user, op.org, id, op.ticketResolved, op.now)
          case Completed => Completes(s, op, id) && b.submittedAt == Some(op.now)
          case Expired => Expires(s, op, id))
    && (b.reminderSentAt != a.reminderSentAt ==> Reminds(s, op, id) && b.reminderSentAt == Some(op.now))
  }

  /** Every change of a row has its reason, in every call. */
  lemma ChangesAreExplained(s: State, op: Op, id: Id)
    requires Inv(s) && Legal(s, op) && id < |s.requests|
    ensures id < |Step(s, op).requests| && Explained(s, op, s.requests[id], Step(s, op).requests[id], id)
  {
    hide Inv, ExpireAll, RemindAll, Submit, SubmitDirect, Generate, Reached;
    match op
    case ExpireOp(scope, now, batch, fates) =>
      ExpireAllKeepsInv(s, Reached(batch, fates, Told), fates);
      ReachedAreOverdue(s, op);
    case RemindOp(scope, now, batch, fates) =>
      RemindAllKeepsInv(s, Reached(batch, fates, Marked), now, fates);
      ReachedAreOverdue(s, op);
    case SubmitOp(user, org, i, ticketResolved, valid, now, fate) =>
      SubmitExplained(s, op, id);
    case SubmitDirectOp(user, org, form, ticket, valid, now) =>
      DirectStores(s, user, org, form, ticket, valid, now);
    case GenerateOp(ticket, forms, defaultForm, customerExists, now) =>
      GenerateStores(s, ticket, forms, defaultForm, customerExists, now);
  }

  lemma ReachedAreOverdue(s: State, op: Op)
    requires Legal(s, op)
    ensures op.ExpireOp? ==> forall id <- Reached(op.batch, op.fates, Told) ::
                               id < |s.requests| && PastDate(s.requests[id], op.scope, op.now)
    ensures op.RemindOp? ==> forall id <- Reached(op.batch, op.reminders, Marked) ::
                               id < |s.requests| && Forgotten(s.requests[id], op.scope, op.now)
  {
  }

  lemma SubmitExplained(s: State, op: Op, id: Id)
    requires op.SubmitOp? && id < |s.requests|
    ensures id < |Step(s, op).requests| && Explained(s, op, s.requests[id], Step(s, op).requests[id], id)
  {
    hide FindForSubmission;
    FindStores(s, op.user, op.org, op.id, op.ticketResolved, op.now, op.fate);
    SubmitStores(s, op.user, op.org, op.id, op.ticketResolved, op.valid, op.now, op.fate);
  }

  /** The open requests in scope that are past their date, and those in scope that are forgotten. */
  ghost function PastDates(requests: seq<Request>, scope: Option<Name>, now: int): set<Id> {
    set id: Id | id < |requests| && PastDate(requests[id], scope, now)
  }

  ghost function Forgottens(requests: seq<Request>, scope: Option<Name>, now: int): set<Id> {
    set id: Id | id < |requests| && Forgotten(requests[id], scope, now)
  }

  /** A sweep in which nothing fails expires everything past its date if that is no more than 200 rows, and 200 of them
      otherwise. */
  lemma ExpirySweepIsComplete(s: State, op: Op)
    requires Inv(s) && Legal(s, op) && op.ExpireOp? && forall id <- op.batch :: op.fates(id) == Told
    ensures var (before, after) := (PastDates(s.requests, op.scope, op.now),
                                    PastDates(Step(s, op).requests, op.scope, op.now));
            after <= before && |after| == if |before| <= 200 then 0 else |before| - 200
  {
    hide Inv, ExpireAll, Overdue, PastDates;
    SetsAgree(s.requests, op.scope, op.now);
    SetsAgree(Step(s, op).requests, op.scope, op.now);
    SweepProgress(s, op.scope, op.now, op.batch, op.fates);
    OverdueAfterSweep(s, op.scope, op.now, Reached(op.batch, op.fates, Told), op.fates);
  }

  /** A reminder sweep in which nothing fails reminds of everything forgotten, or of 50. */
  lemma ReminderSweepIsComplete(s: State, op: Op)
    requires Inv(s) && Legal(s, op) && op.RemindOp? && forall id <- op.batch :: op.reminders(id) == Marked
    ensures var (before, after) := (Forgottens(s.requests, op.scope, op.now),
                                    Forgottens(Step(s, op).requests, op.scope, op.now));
            after <= before && |after| == if |before| <= 50 then 0 else |before| - 50
  {
    assert Reached(op.batch, op.reminders, Marked) == op.batch by {
      hide *;
    }
    hide Inv, RemindAll, Reached, Forgottens, Unreminded;
    SetsAgree(s.requests, op.scope, op.now);
    WhatIsLeft(op.batch, Unreminded(s.requests, op.scope, op.now), REMINDER_BATCH);
    ForgottenAfterSweep(s, op.scope, op.now, op.batch, op.reminders);
  }

  lemma ForgottenAfterSweep(s: State, scope: Option<Name>, now: int, batch: seq<Id>, fates: Id -> ReminderFate)
    requires Inv(s) && IsUnremindedBatch(s, batch) && forall id <- batch :: fates(id) == Marked
    ensures Forgottens(RemindAll(s, batch, now, fates).requests, scope, now)
         == Forgottens(s.requests, scope, now) - Members(batch)
  {
    RemindAllKeepsInv(s, batch, now, fates);
    hide Inv, RemindAll;
    var after := RemindAll(s, batch, now, fates).requests;
    forall k
      ensures k in Forgottens(after, scope, now) <==> k in Forgottens(s.requests, scope, now) && k !in batch
    {
      if 0 <= k < |s.requests| && k in batch { assert after[k].reminderSentAt.Some?; }
    }
  }

  lemma SetsAgree(requests: seq<Request>, scope: Option<Name>, now: int)
    ensures PastDates(requests, scope, now) == Overdue(requests, scope, now)
    ensures Forgottens(requests, scope, now) == Unreminded(requests, scope, now)
  {
  }

  /** The reason behind the state of a row at some moment of a run: if it is expired, some earlier call read a clock
      past its date, and if it is completed, some earlier call by its customer came before that. */
  ghost predicate HasReason(states: seq<State>, ops: seq<Op>, n: nat, id: Id)
    requires |states| == |ops| + 1 && n < |states| && id < |states[n].requests|
  {
    var r := states[n].requests[id];
    && (r.status == Expired ==> exists m :: 0 <= m < n && ExpiredAt(ops[m], id, r))
    && (r.status == Completed ==> exists m :: 0 <= m < n && CompletedAt(ops[m], id, r))
  }

  ghost predicate ExpiredAt(op: Op, id: Id, r: Request) {
    r.expiresAt < op.now && (op.ExpireOp? || (op.SubmitOp? && op.id == id && op.user == r.user))
  }

  ghost predicate CompletedAt(op: Op, id: Id, r: Request) {
    op.SubmitOp? && op.id == id && op.user == r.user && op.now <= r.expiresAt && r.submittedAt == Some(op.now)
  }

  lemma {:induction false} RunHasReasons(states: seq<State>, ops: seq<Op>, n: nat, id: Id)
    requires IsRun(states, ops) && states[0] == EMPTY && n < |states| && id < |states[n].requests|
    ensures HasReason(states, ops, n, id)
  {
    hide Inv, Step, Legal, Explained;
    EmptyIsFine();
    if n > 0 {
      var s, op := states[n - 1], ops[n - 1];
      RunKeepsInv(states, ops, n - 1);
      assert StepAt(states, ops, n - 1);
      if id < |s.requests| {
        RunHasReasons(states, ops, n - 1, id);
        ReasonStays(states, ops, n, id);
      } else {
        NewIsPending(s, op, id);
      }
    }
  }

  lemma NewIsPending(s: State, op: Op, id: Id)
    requires Legal(s, op) && |s.requests| <= id < |Step(s, op).requests|
    ensures Step(s, op).requests[id].status == Pending
  {
    SweepKeepsCount(s, op);
    if op.GenerateOp? {
      GenerateStores(s, op.ticket, op.forms, op.defaultForm, op.customerExists, op.now);
    }
  }

  lemma ReasonStays(states: seq<State>, ops: seq<Op>, n: nat, id: Id)
    requires |states| == |ops| + 1 && 0 < n < |states| && StepAt(states, ops, n - 1) && Inv(states[n - 1])
    requires id < |states[n - 1].requests| && HasReason(states, ops, n - 1, id)
    ensures id < |states[n].requests| && HasReason(states, ops, n, id)
  {
    var s, op := states[n - 1], ops[n - 1];
    StepFollows(s, op);
    ChangesAreExplained(s, op, id);
    hide Inv, Step, Legal;
    var a, b := s.requests[id], states[n].requests[id];
    assert Follows(a, b);
    if b.status == Expired {
      if a.status == Expired {
        var m :| 0 <= m < n - 1 && ExpiredAt(ops[m], id, a);
        assert ExpiredAt(ops[m], id, b);
      } else {
        assert ExpiredAt(op, id, b);
      }
    }
    if b.status == Completed {
      if a.status == Completed {
        var m :| 0 <= m < n - 1 && CompletedAt(ops[m], id, a);
        assert CompletedAt(ops[m], id, b);
      } else {
        assert CompletedAt(op, id, b);
      }
    }
  }

  // ----- Forms that allow one response -----

  ghost predicate Live(requests: seq<Request>, i: Id, ticket: Name, form: Name) {
    i < |requests| && requests[i].ticket == ticket && requests[i].form == form && requests[i].status != Expired
  }

  /** At most one request of the pair is open or completed. */
  ghost predicate Single(s: State, ticket: Name, form: Name) {
    forall i: Id, j: Id :: Live(s.requests, i, ticket, form) && Live(s.requests, j, ticket, form) ==> i == j
  }

  /** No generation step of the run sees the form while it allows several responses. */
  ghost predicate Disallows(op: Op, form: Name) {
    op.GenerateOp? ==> forall f <- op.forms :: f.id == form ==> !f.allowMultiple
  }

  lemma StepKeepsSingle(s: State, op: Op, ticket: Name, form: Name)
    requires Inv(s) && Legal(s, op) && Single(s, ticket, form) && Disallows(op, form)
    ensures Single(Step(s, op), ticket, form)
  {
    StepFollows(s, op);
    var t := Step(s, op);
    if |t.requests| == |s.requests| {
      forall i: Id | Live(t.requests, i, ticket, form)
        ensures Live(s.requests, i, ticket, form)
      {
        assert Follows(s.requests[i], t.requests[i]);
      }
    } else {
      NewRequestIsAlone(s, op, ticket, form);
    }
  }

  lemma {:induction false} SweepKeepsCount(s: State, op: Op)
    requires Legal(s, op)
    ensures |Step(s, op).requests| == |s.requests| || (op.GenerateOp? && |Step(s, op).requests| == |s.requests| + 1)
  {
  }

  lemma NewRequestIsAlone(s: State, op: Op, ticket: Name, form: Name)
    requires Legal(s, op) && |Step(s, op).requests| != |s.requests| && Single(s, ticket, form) && Disallows(op, form)
    ensures Single(Step(s, op), ticket, form)
  {
    SweepKeepsCount(s, op);
    var f := ResolveForm(op.forms, op.defaultForm, op.ticket.org, op.now).value;
    if op.ticket.id == ticket && f.id == form {
      assert !f.allowMultiple;
      assert OpenRequest(s.requests, ticket, form) == None && CompletedRequest(s.requests, ticket, form) == None;
      forall k: Id | k < |s.requests|
        ensures !Live(s.requests, k, ticket, form)
      {
        assert !Matches(s.requests[k], ticket, form, {Pending, Opened})
            && !Matches(s.requests[k], ticket, form, {Completed});
      }
    }
    var t := Step(s, op).requests;
    forall i: Id, j: Id | Live(t, i, ticket, form) && Live(t, j, ticket, form)
      ensures i == j
    {
      if i < |s.requests| { assert Live(s.requests, i, ticket, form); }
      if j < |s.requests| { assert Live(s.requests, j, ticket, form); }
    }
  }

  /** While a form allows one response, a ticket never has two requests for it that are open or completed. */
  lemma {:induction false} RunKeepsSingle(states: seq<State>, ops: seq<Op>, n: nat, ticket: Name, form: Name)
    requires IsRun(states, ops) && Inv(states[0]) && Single(states[0], ticket, form) && n < |states|
    requires forall i :: 0 <= i < |ops| ==> Disallows(ops[i], form)
    ensures Single(states[n], ticket, form)
  {
    if n > 0 {
      RunKeepsSingle(states, ops, n - 1, ticket, form);
      RunKeepsInv(states, ops, n - 1);
      assert StepAt(states, ops, n - 1);
      StepKeepsSingle(states[n - 1], ops[n - 1], ticket, form);
    }
  }

  // ----- How often one customer answers -----

  predicate AnswersPair(r: Response, ticket: Name, form: Name, user: Name) {
    r.ticket == ticket && r.form == form && r.user == user
  }

  ghost predicate AnsweredAt(responses: seq<Response>, i: int, ticket: Name, form: Name, user: Name) {
    0 <= i < |responses| && AnswersPair(responses[i], ticket, form, user)
  }

  /** A response with a request belongs to that request's ticket and form, and the request is completed. */
  ghost predicate Linked(s: State, r: Response) {
    r.request.Some? ==>
      && r.request.value < |s.requests| && s.requests[r.request.value].status == Completed
      && s.requests[r.request.value].ticket == r.ticket && s.requests[r.request.value].form == r.form
  }

  ghost predicate AllLinked(s: State) { forall i :: 0 <= i < |s.responses| ==> Linked(s, s.responses[i]) }

  /** A direct answer is the customer's first. */
  ghost predicate DirectFirst(responses: seq<Response>, ticket: Name, form: Name, user: Name) {
    forall i, j :: i < j && AnsweredAt(responses, i, ticket, form, user) && AnsweredAt(responses, j, ticket, form, user)
                   ==> responses[j].request.Some?
  }

  /** The step does not see the form while it allows several responses. */
  ghost predicate SingleResponse(op: Op, form: Name) {
    && Disallows(op, form)
    && (op.SubmitDirectOp? && op.form.Some? && op.form.value.id == form ==> !op.form.value.allowMultiple)
  }

  lemma StepAppends(s: State, op: Op)
    requires Inv(s) && Legal(s, op)
    ensures var t := Step(s, op);
            t.responses == s.responses || exists r :: t.responses == s.responses + [r] && Linked(t, r)
  {
    if op.ExpireOp? || op.RemindOp? { SweepsLeaveResponses(s, op); }
    hide ExpireAll, RemindAll, ResolveForm, OpenRequest, CompletedRequest, ExpiryFor, Inv;
    if op.SubmitOp? || op.SubmitDirectOp? {
      var t := Step(s, op);
      assert t.responses == s.responses || t.responses == s.responses + [t.responses[|s.responses|]];
    }
  }

  lemma SweepsLeaveResponses(s: State, op: Op)
    requires Legal(s, op) && (op.ExpireOp? || op.RemindOp?)
    ensures Step(s, op).responses == s.responses
  {
    if op.ExpireOp? {
      ExpireLeavesResponses(s, Reached(op.batch, op.fates, Told), op.fates);
    } else {
      RemindLeavesResponses(s, Reached(op.batch, op.reminders, Marked), op.now, op.reminders);
    }
  }

  lemma {:induction false} ExpireLeavesResponses(s: State, batch: seq<Id>, fates: Id -> ExpiryFate)
    requires forall i :: 0 <= i < |batch| ==> batch[i] < |s.requests|
    ensures ExpireAll(s, batch, fates).responses == s.responses
  {
    if batch != [] { ExpireLeavesResponses(s, batch[..|batch|-1], fates); }
  }

  lemma {:induction false} RemindLeavesResponses(s: State, batch: seq<Id>, now: int, fates: Id -> ReminderFate)
    requires forall i :: 0 <= i < |batch| ==> batch[i] < |s.requests|
    ensures RemindAll(s, batch, now, fates).responses == s.responses
  {
    if batch != [] { RemindLeavesResponses(s, batch[..|batch|-1], now, fates); }
  }

  lemma StepKeepsLinked(s: State, op: Op)
    requires Inv(s) && Legal(s, op) && AllLinked(s)
    ensures AllLinked(Step(s, op))
  {
    StepFollows(s, op);
    StepAppends(s, op);
    hide Inv, Step, Legal;
    var t := Step(s, op);
    forall i | 0 <= i < |t.responses|
      ensures Linked(t, t.responses[i])
    {
      if i < |s.responses| {
        assert Linked(s, s.responses[i]);
        var id := s.responses[i].request;
        if id.Some? { assert Follows(s.requests[id.value], t.requests[id.value]); }
      }
    }
  }

  lemma {:induction false} NoneCounted(responses: seq<Response>, ticket: Name, form: Name, user: Name, i: int)
    requires ResponsesBy(responses, ticket, form, user) == 0
    ensures !AnsweredAt(responses, i, ticket, form, user)
  {
    if 0 <= i < |responses| - 1 { NoneCounted(responses[..|responses|-1], ticket, form, user, i); }
  }

  /** A direct answer is refused once the customer has answered in any way. */
  lemma StepKeepsDirectFirst(s: State, op: Op, ticket: Name, form: Name, user: Name)
    requires Inv(s) && Legal(s, op) && SingleResponse(op, form) && DirectFirst(s.responses, ticket, form, user)
    ensures DirectFirst(Step(s, op).responses, ticket, form, user)
  {
    StepAppends(s, op);
    var t := Step(s, op).responses;
    if t != s.responses {
      var last := |s.responses|;
      assert t == s.responses + [t[last]];
      DirectIsFirst(s, op, ticket, form, user);
      hide Inv, Step, Legal, SingleResponse;
      forall i, j | i < j && AnsweredAt(t, i, ticket, form, user) && AnsweredAt(t, j, ticket, form, user)
        ensures t[j].request.Some?
      {
        assert AnsweredAt(s.responses, i, ticket, form, user);
        if j < last { assert AnsweredAt(s.responses, j, ticket, form, user); }
      }
    }
  }

  lemma DirectIsFirst(s: State, op: Op, ticket: Name, form: Name, user: Name)
    requires Inv(s) && Legal(s, op) && SingleResponse(op, form) && |Step(s, op).responses| > |s.responses|
    ensures var r := Step(s, op).responses[|s.responses|];
            AnswersPair(r, ticket, form, user) && r.request.None? ==>
              forall i :: !AnsweredAt(s.responses, i, ticket, form, user)
  {
    if op.ExpireOp? || op.RemindOp? { SweepsLeaveResponses(s, op); }
    hide ExpireAll, RemindAll, Inv;
    var r := Step(s, op).responses[|s.responses|];
    if AnswersPair(r, ticket, form, user) && r.request.None? {
      assert ResponsesBy(s.responses, ticket, form, user) == 0;
      forall i ensures !AnsweredAt(s.responses, i, ticket, form, user) {
        NoneCounted(s.responses, ticket, form, user, i);
      }
    }
  }

  lemma {:induction false} AnsweredTwice(responses: seq<Response>, id: Id, i: nat, j: nat)
    requires i < j < |responses| && responses[i].request == Some(id) == responses[j].request
    ensures Answers(responses, id) >= 2
  {
    var front := responses[..|responses|-1];
    if j < |front| { AnsweredTwice(front, id, i, j); } else { AnsweredOnce(front, id, i); }
  }

  lemma {:induction false} AnsweredOnce(responses: seq<Response>, id: Id, i: nat)
    requires i < |responses| && responses[i].request == Some(id)
    ensures Answers(responses, id) >= 1
  {
    if i < |responses| - 1 { AnsweredOnce(responses[..|responses|-1], id, i); }
  }

  /** Requests of one ticket and form bring at most one response. */
  lemma OneByRequest(s: State, ticket: Name, form: Name, user: Name, i: int, j: int)
    requires Inv(s) && AllLinked(s) && Single(s, ticket, form) && i < j
    requires AnsweredAt(s.responses, i, ticket, form, user) && AnsweredAt(s.responses, j, ticket, form, user)
    ensures s.responses[i].request.None? || s.responses[j].request.None?
  {
    assert Linked(s, s.responses[i]) && Linked(s, s.responses[j]);
    if s.responses[i].request.Some? && s.responses[j].request.Some? {
      var a, b := s.responses[i].request.value, s.responses[j].request.value;
      assert Live(s.requests, a, ticket, form) && Live(s.requests, b, ticket, form);
      assert Accounted(s, a);
      AnsweredTwice(s.responses, a, i, j);
    }
  }

  /** Where a customer's answers stand, in order. */
  ghost predicate ArePlaces(places: seq<int>, responses: seq<Response>, ticket: Name, form: Name, user: Name) {
    && (forall a :: 0 <= a < |places| ==> AnsweredAt(responses, places[a], ticket, form, user))
    && (forall a, b :: 0 <= a < b < |places| ==> places[a] < places[b])
    && forall i :: AnsweredAt(responses, i, ticket, form, user) ==> i in places
  }

  lemma MorePlaces(places: seq<int>, front: seq<Response>, last: Response, ticket: Name, form: Name, user: Name)
    requires ArePlaces(places, front, ticket, form, user)
    ensures ArePlaces(if AnswersPair(last, ticket, form, user) then places + [|front|] else places,
                      front + [last], ticket, form, user)
  {
    hide AnswersPair;
    var responses := front + [last];
    var after := if AnswersPair(last, ticket, form, user) then places + [|front|] else places;
    forall a | 0 <= a < |places|
      ensures AnsweredAt(responses, places[a], ticket, form, user) && places[a] < |front|
    {
      assert AnsweredAt(front, places[a], ticket, form, user);
    }
    forall i | AnsweredAt(responses, i, ticket, form, user)
      ensures i in after
    {
      if i < |front| {
        assert AnsweredAt(front, i, ticket, form, user);
        var a :| 0 <= a < |places| && places[a] == i;
        assert after[a] == i;
      } else {
        assert after[|places|] == i;
      }
    }
    hide AnsweredAt;
  }

  lemma NoPlaces(ticket: Name, form: Name, user: Name)
    ensures ArePlaces([], [], ticket, form, user)
  {
  }

  lemma {:induction false} AnswerPlaces(responses: seq<Response>, ticket: Name, form: Name, user: Name)
    returns (places: seq<int>)
    ensures |places| == ResponsesBy(responses, ticket, form, user) && ArePlaces(places, responses, ticket, form, user)
  {
    places := [];
    NoPlaces(ticket, form, user);
    hide ArePlaces, AnsweredAt;
    if responses != [] {
      var front, last := responses[..|responses|-1], responses[|responses|-1];
      places := AnswerPlaces(front, ticket, form, user);
      MorePlaces(places, front, last, ticket, form, user);
      assert responses == front + [last];
      places := if AnswersPair(last, ticket, form, user) then places + [|front|] else places;
    }
  }

  /** The customer answered the ticket directly, and later completed a request for it. */
  ghost predicate DirectThenRequest(responses: seq<Response>, i: int, j: int, ticket: Name, form: Name, user: Name) {
    && i < j && AnsweredAt(responses, i, ticket, form, user) && AnsweredAt(responses, j, ticket, form, user)
    && responses[i].request.None? && responses[j].request.Some?
  }

  lemma AtMostTwo(s: State, ticket: Name, form: Name, user: Name)
    requires Inv(s) && AllLinked(s) && Single(s, ticket, form) && DirectFirst(s.responses, ticket, form, user)
    ensures ResponsesBy(s.responses, ticket, form, user) <= 2
    ensures ResponsesBy(s.responses, ticket, form, user) == 2 <==>
            exists i, j :: DirectThenRequest(s.responses, i, j, ticket, form, user)
  {
    hide Inv, AllLinked, Single, ResponsesBy, AnswersPair;
    var places := AnswerPlaces(s.responses, ticket, form, user);
    forall b | 0 < b < |places|
      ensures s.responses[places[b]].request.Some?
    {
      assert AnsweredAt(s.responses, places[b - 1], ticket, form, user);
    }
    if |places| > 2 {
      OneByRequest(s, ticket, form, user, places[1], places[2]);
    } else if |places| == 2 {
      OneByRequest(s, ticket, form, user, places[0], places[1]);
      assert DirectThenRequest(s.responses, places[0], places[1], ticket, form, user);
    }
    if i, j :| DirectThenRequest(s.responses, i, j, ticket, form, user) {
      assert i in places && j in places;
    }
  }

  lemma {:induction false} RunKeepsAnswers(states: seq<State>, ops: seq<Op>, n: nat, ticket: Name, form: Name,
                                           user: Name)
    requires IsRun(states, ops) && Inv(states[0]) && n < |states|
    requires AllLinked(states[0]) && DirectFirst(states[0].responses, ticket, form, user)
    requires forall i :: 0 <= i < |ops| ==> SingleResponse(ops[i], form)
    ensures AllLinked(states[n]) && DirectFirst(states[n].responses, ticket, form, user)
  {
    hide Inv, Legal, Step, AllLinked, DirectFirst, SingleResponse;
    if n > 0 {
      RunKeepsAnswers(states, ops, n - 1, ticket, form, user);
      RunKeepsInv(states, ops, n - 1);
      assert StepAt(states, ops, n - 1);
      StepKeepsLinked(states[n - 1], ops[n - 1]);
      StepKeepsDirectFirst(states[n - 1], ops[n - 1], ticket, form, user);
    }
  }

  /** While a form allows one response, a customer still leaves up to two for a ticket, because completing a request
      never counts earlier responses: two exactly when a direct one came before the completion of the request. */
  lemma TwoResponsesAtMost(states: seq<State>, ops: seq<Op>, n: nat, ticket: Name, form: Name, user: Name)
    requires IsRun(states, ops) && states[0] == EMPTY && n < |states|
    requires forall i :: 0 <= i < |ops| ==> SingleResponse(ops[i], form)
    ensures ResponsesBy(states[n].responses, ticket, form, user) <= 2
    ensures ResponsesBy(states[n].responses, ticket, form, user) == 2 <==>
            exists i, j :: DirectThenRequest(states[n].responses, i, j, ticket, form, user)
  {
    EmptyIsFine();
    RunKeepsInv(states, ops, n);
    RunKeepsAnswers(states, ops, n, ticket, form, user);
    assert forall i :: 0 <= i < |ops| ==> SingleResponse(ops[i], form) ==> Disallows(ops[i], form);
    RunKeepsSingle(states, ops, n, ticket, form);
    AtMostTwo(states[n], ticket, form, user);
  }

  /** Such a run: a request is generated, the customer answers the ticket directly, then completes the request. */
  lemma TwoResponsesHappen(form: Form, ticket: Ticket, now: int)
    requires form.active && form.expiresAt.None? && !form.allowMultiple && form.org == ticket.org != ""
             && ticket.resolved
    ensures var s := Generate(EMPTY, ticket, [form], Some(form.id), true, now).0;
            var (t, direct) := SubmitDirect(s, ticket.createdBy, ticket.org, Some(form), Some(ticket), true, now);
            var (u, byRequest) := Submit(t, ticket.createdBy, ticket.org, 0, true, true, now, Told);
            && direct == Accepted == byRequest
            && ResponsesBy(u.responses, ticket.id, form.id, ticket.createdBy) == 2
  {
    var r := Request(ticket.org, ticket.id, form.id, ticket.createdBy, Pending, now, now + VALID_MS, None, None, None);
    FirstIsGenerated(form, ticket, now);
    hide Generate;
    var s := Generate(EMPTY, ticket, [form], Some(form.id), true, now).0;
    DirectIsAccepted(s, form, ticket, now);
    var t := s.(responses := [Response(None, ticket.id, form.id, ticket.createdBy)]);
    hide SubmitDirect;
    assert t.requests[0] == r;
    var u := Submit(t, ticket.createdBy, ticket.org, 0, true, true, now, Told).0;
    assert u.responses == t.responses + [Response(Some(0), ticket.id, form.id, ticket.createdBy)];
    assert u.responses[..1] == t.responses && t.responses[..0] == [];
  }

  lemma FirstIsGenerated(form: Form, ticket: Ticket, now: int)
    requires form.active && form.expiresAt.None? && form.org == ticket.org != ""
    ensures var s := Generate(EMPTY, ticket, [form], Some(form.id), true, now).0;
            && s.responses == []
            && s.requests == [Request(ticket.org, ticket.id, form.id, ticket.createdBy, Pending,
                                      now, now + VALID_MS, None, None, None)]
  {
    assert [form][0] == form;
    assert ResolveForm([form], Some(form.id), ticket.org, now) == Some(form);
    assert OpenRequest([], ticket.id, form.id) == None == CompletedRequest([], ticket.id, form.id);
  }

  lemma DirectIsAccepted(s: State, form: Form, ticket: Ticket, now: int)
    requires form.active && form.expiresAt.None? && form.org == ticket.org != "" && ticket.resolved && s.responses == []
    ensures SubmitDirect(s, ticket.createdBy, ticket.org, Some(form), Some(ticket), true, now)
         == (s.(responses := [Response(None, ticket.id, form.id, ticket.createdBy)]), Accepted)
  {
    var r := Response(None, ticket.id, form.id, ticket.createdBy);
    assert ResponsesBy([], ticket.id, form.id, ticket.createdBy) == 0;
    assert [] + [r] == [r];
  }

  // ----- Sweeps make progress -----

  /** A reminder that went out is due again when the note in its row failed, and then goes out a second time. */
  lemma ReminderRepeats(s: State, scope: Option<Name>, now: int, id: Id)
    requires Inv(s) && id in Unreminded(s.requests, scope, now) && s.outbox[Unmarked(id)] == 0
    ensures var t := MarkReminded(s, id, now, MarkFails);
            id in Unreminded(t.requests, scope, now) && MarkReminded(t, id, now, Marked).outbox[Reminder(id)] == 2
  {
    assert Accounted(s, id);
  }

  /** The rows of a batch whose own write succeeds. */
  function Written(batch: seq<Id>, fates: Id -> ExpiryFate): set<Id> { set id | id in batch && fates(id) != RowFails }

  lemma OverdueAfterSweep(s: State, scope: Option<Name>, now: int, batch: seq<Id>, fates: Id -> ExpiryFate)
    requires Inv(s) && IsOpenBatch(s, batch)
    ensures Overdue(ExpireAll(s, batch, fates).requests, scope, now)
         == Overdue(s.requests, scope, now) - Written(batch, fates)
  {
    ExpireAllKeepsInv(s, batch, fates);
    hide ExpireAll, Inv;
    var after := ExpireAll(s, batch, fates).requests;
    forall k
      ensures k in Overdue(after, scope, now)
         <==> k in Overdue(s.requests, scope, now) && !(k in batch && fates(k) != RowFails)
    {
      if 0 <= k < |s.requests| && k in batch && fates(k) != RowFails { assert after[k].status == Expired; }
    }
  }

  /** How many rows a sweep expires: those it reaches, but for a last one whose own write fails. */
  function Taken(batch: seq<Id>, fates: Id -> ExpiryFate): nat {
    var reached := Reached(batch, fates, Told);
    if reached != [] && fates(reached[|reached|-1]) == RowFails then |reached| - 1 else |reached|
  }

  lemma TakenIsSize(batch: seq<Id>, fates: Id -> ExpiryFate)
    requires forall i, j :: 0 <= i < j < |batch| ==> batch[i] != batch[j]
    ensures |Written(Reached(batch, fates, Told), fates)| == Taken(batch, fates)
  {
    hide Reached, Written;
    var reached := Reached(batch, fates, Told);
    assert forall i :: 0 <= i < |reached| ==> reached[i] == batch[i];
    WrittenSize(reached, fates);
  }

  lemma WrittenSize(reached: seq<Id>, fates: Id -> ExpiryFate)
    requires forall i, j :: 0 <= i < j < |reached| ==> reached[i] != reached[j]
    requires forall i :: 0 <= i < |reached| - 1 ==> fates(reached[i]) == Told
    ensures |Written(reached, fates)|
         == if reached != [] && fates(reached[|reached|-1]) == RowFails then |reached| - 1 else |reached|
  {
    if reached == [] {
      assert Written(reached, fates) == {};
    } else {
      var front, last := reached[..|reached|-1], reached[|reached|-1];
      assert reached == front + [last];
      AllWritten(front, fates);
      assert last !in Members(front);
      assert Written(reached, fates) == if fates(last) == RowFails then Members(front) else Members(front) + {last};
    }
  }

  lemma AllWritten(batch: seq<Id>, fates: Id -> ExpiryFate)
    requires forall i, j :: 0 <= i < j < |batch| ==> batch[i] != batch[j]
    requires forall i :: 0 <= i < |batch| ==> fates(batch[i]) != RowFails
    ensures Written(batch, fates) == Members(batch) && |Members(batch)| == |batch|
  {
    BatchSize(batch);
  }

  /** One sweep takes off the list every row it reaches, but for one whose own write fails: min(200, n) of n overdue
      rows if nothing fails, and otherwise those before the failure and, if only the notice or the audit entry failed,
      that row too. */
  lemma SweepProgress(s: State, scope: Option<Name>, now: int, batch: seq<Id>, fates: Id -> ExpiryFate)
    requires Inv(s) && Legal(s, ExpireOp(scope, now, batch, fates))
    ensures var op := ExpireOp(scope, now, batch, fates);
            var (before, after) := (|Overdue(s.requests, scope, now)|, |Overdue(Step(s, op).requests, scope, now)|);
            && after == before - Taken(batch, fates)
            && ((forall id <- batch :: fates(id) == Told) ==>
                  after == if before <= 200 then 0 else before - 200)
  {
    hide ExpireAll, Inv, Overdue;
    var reached := Reached(batch, fates, Told);
    OverdueAfterSweep(s, scope, now, reached, fates);
    TakenIsSize(batch, fates);
    assert Written(reached, fates) <= Overdue(s.requests, scope, now);
  }

  /** k sweeps in a row at one clock reading, in which nothing fails. */
  ghost predicate IsSweepRun(states: seq<State>, ops: seq<Op>, scope: Option<Name>, now: int) {
    && IsRun(states, ops)
    && forall i :: 0 <= i < |ops| ==>
         && ops[i].ExpireOp? && ops[i].scope == scope && ops[i].now == now
         && forall id <- ops[i].batch :: ops[i].fates(id) == Told
  }

  /** After k sweeps max(0, n - 200k) of n overdue rows are left. */
  lemma {:induction false} SweepsProgress(states: seq<State>, ops: seq<Op>, scope: Option<Name>, now: int, k: nat)
    requires IsSweepRun(states, ops, scope, now) && Inv(states[0]) && k < |states|
    ensures var n := |Overdue(states[0].requests, scope, now)|;
            |Overdue(states[k].requests, scope, now)| == if n <= 200 * k then 0 else n - 200 * k
  {
    if k > 0 {
      SweepsProgress(states, ops, scope, now, k - 1);
      RunKeepsInv(states, ops, k - 1);
      assert StepAt(states, ops, k - 1);
      assert ops[k - 1].ExpireOp? && ops[k - 1].scope == scope && ops[k - 1].now == now;
      SweepProgress(states[k - 1], scope, now, ops[k - 1].batch, ops[k - 1].fates);
    }
  }
}
