/**
 Admission: join requests, operators, captcha answers, captcha expiry and hourly maintenance, all concurrent. One step
 is one JavaScript turn; other turns happen wherever a task awaits a lock or a provider call.
 */
module AdmissionState {
  import opened Prelude

  type Flag = string
  type Group = string
  type User = string

  const MAX_ACTIVE_CAPTCHA_SESSIONS_PER_USER: nat := 5
  const CAPTCHA_EXPIRY_SWEEP_CONCURRENCY: nat := 4

  datatype Status = Pending | Captcha | Approved | Rejected | Expired

  /** A row of approval_records; its id is its index. */
  datatype Record = Record(flag: Flag, group: Group, user: User, status: Status, expiresAt: nat)

  /** A row of captcha_sessions, in order of creation; code is derived from the session id. */
  datatype Session = Session(approval: nat, user: User, code: nat, attempts: nat, maxAttempts: nat, expiresAt: nat,
                             open: bool)

  /** A provider call that was acknowledged. */
  datatype Ack = Ack(record: nat, approve: bool)

  datatype Route = ApproveNow | RejectNow | ToCaptcha | ToOperator

  /** The session a captcha decision is about, and whether it occupies an expiry slot. */
  datatype Origin = Origin(session: nat, expiry: bool)

  /** Where a task stands between two of its turns. */
  datatype Work =
    | Idle
    // awaiting the approval lock of a flag
    | Routing(flag: Flag, group: Group, user: User, route: Route, ttl: nat)
    | Operating(record: nat, approve: bool)
    // awaiting the captcha lock of an approval
    | Answering(session: nat, correct: bool)
    | Issuing(record: nat)
    // holding the captcha lock
    | Choosing(record: nat)
    | Sending(record: nat, session: nat)
    | Deciding(approve: bool, origin: Origin)
    | Returning(origin: Origin)
    | Notifying(record: nat, expiry: bool)
    // holding the approval lock, and for a captcha decision the captcha lock as well
    | Calling(record: nat, approve: bool, cause: Option<Origin>)
    | Acknowledged(record: nat, approve: bool, cause: Option<Origin>)

  datatype Field = Total | Passed | Refused

  /** Counter rows: one per group and field, and one global row per field under None. */
  type Ledger = map<(Option<Group>, Field), nat>

  datatype State = State(now: nat, records: seq<Record>, sessions: seq<Session>, tasks: seq<Work>, acks: seq<Ack>,
                         ledger: Ledger, slots: nat)

  // ----- rows -----

  function Count(ledger: Ledger, group: Option<Group>, field: Field): nat {
    if (group, field) in ledger then ledger[(group, field)] else 0
  }

  function Bump(ledger: Ledger, group: Group, field: Field): Ledger {
    ledger[(Some(group), field) := Count(ledger, Some(group), field) + 1][(None, field) := Count(ledger, None, field) + 1]
  }

  function SetStatus(s: State, r: nat, status: Status): State
    requires r < |s.records|
  {
    s.(records := s.records[r := s.records[r].(status := status)])
  }

  /** Remote failures leave an undecided request in the operators' queue. */
  function MarkActionFailure(s: State, r: nat): State
    requires r < |s.records|
  {
    if s.records[r].status == Pending || s.records[r].status == Captcha then SetStatus(s, r, Pending) else s
  }

  function MarkApprovalPending(s: State, r: nat): State
    requires r < |s.records|
  {
    if s.records[r].status == Captcha then SetStatus(s, r, Pending) else s
  }

  function CloseSession(s: State, i: nat): State
    requires i < |s.sessions|
  {
    s.(sessions := s.sessions[i := s.sessions[i].(open := false)])
  }

  function Become(s: State, t: nat, work: Work): State
    requires t < |s.tasks|
  {
    s.(tasks := s.tasks[t := work])
  }

  // ----- locks -----

  predicate InCall(work: Work) {
    work.Calling? || work.Acknowledged?
  }

  function OriginOf(work: Work): Option<Origin> {
    match work
    case Deciding(_, origin) => Some(origin)
    case Returning(origin) => Some(origin)
    case Calling(_, _, cause) => cause
    case Acknowledged(_, _, cause) => cause
    case _ => None
  }

  /** The approval whose captcha lock a task holds. */
  function CaptchaHeld(s: State, work: Work): Option<nat> {
    match work
    case Choosing(r) => Some(r)
    case Sending(r, _) => Some(r)
    case Notifying(r, _) => Some(r)
    case _ =>
      var origin := OriginOf(work);
      if origin.Some? && origin.value.session < |s.sessions| then Some(s.sessions[origin.value.session].approval)
      else None
  }

  ghost predicate CaptchaFree(s: State, r: nat) {
    forall t :: 0 <= t < |s.tasks| ==> CaptchaHeld(s, s.tasks[t]) != Some(r)
  }

  ghost predicate FlagFree(s: State, flag: Flag) {
    forall t :: 0 <= t < |s.tasks| && InCall(s.tasks[t]) && s.tasks[t].record < |s.records| ==>
      s.records[s.tasks[t].record].flag != flag
  }

  // ----- reconciliation of one user's sessions -----

  predicate Stale(s: State, user: User, r: nat)
    requires r < |s.records|
  {
    s.records[r].user == user && s.records[r].status == Captcha && s.records[r].expiresAt < s.now
  }

  function ExpireRequests(s: State, user: User): State {
    s.(records := seq(|s.records|, r requires 0 <= r < |s.records| =>
      if Stale(s, user, r) then s.records[r].(status := Expired) else s.records[r]))
  }

  predicate Awaited(s: State, i: nat)
    requires i < |s.sessions|
  {
    s.sessions[i].approval < |s.records| && s.records[s.sessions[i].approval].status == Captcha
  }

  function CloseOrphans(s: State, user: User): State {
    s.(sessions := seq(|s.sessions|, i requires 0 <= i < |s.sessions| =>
      if s.sessions[i].user == user && !Awaited(s, i) then s.sessions[i].(open := false) else s.sessions[i]))
  }

  /** A session its user can still answer. */
  predicate IsActive(s: State, i: nat)
    requires i < |s.sessions|
  {
    && s.sessions[i].open
    && s.sessions[i].expiresAt >= s.now
    && Awaited(s, i)
    && s.records[s.sessions[i].approval].expiresAt >= s.now
  }

  predicate ActiveFor(s: State, user: User, i: nat) {
    i < |s.sessions| && s.sessions[i].user == user && IsActive(s, i)
  }

  /** Sessions chosen to stay open, with their codes and their number. */
  datatype Selection = Selection(kept: set<nat>, codes: set<nat>, count: nat)

  predicate Keepable(s: State, chosen: Selection, i: nat)
    requires i < |s.sessions|
  {
    chosen.count < MAX_ACTIVE_CAPTCHA_SESSIONS_PER_USER && s.sessions[i].code !in chosen.codes
  }

  /** The newest sessions with distinct codes, up to the limit, among those from n on; scanned newest first. */
  function Select(s: State, user: User, n: nat): Selection
    requires n <= |s.sessions|
    decreases |s.sessions| - n
  {
    if n == |s.sessions| then Selection({}, {}, 0)
    else
      var newer := Select(s, user, n + 1);
      if ActiveFor(s, user, n) && Keepable(s, newer, n) then
        Selection(newer.kept + {n}, newer.codes + {s.sessions[n].code}, newer.count + 1)
      else newer
  }

  function Kept(s: State, user: User, n: nat): set<nat>
    requires n <= |s.sessions|
  {
    Select(s, user, n).kept
  }

  lemma {:induction false} KeptAreAnswerable(s: State, user: User, n: nat)
    requires n <= |s.sessions|
    ensures forall k :: k in Kept(s, user, n) ==> n <= k && ActiveFor(s, user, k)
    decreases |s.sessions| - n
  {
    if n < |s.sessions| {
      KeptAreAnswerable(s, user, n + 1);
    }
  }

  /** The codes and the number of a selection are those of the sessions in it. */
  ghost predicate Tallied(s: State, chosen: Selection) {
    && (forall k :: k in chosen.kept ==> k < |s.sessions|)
    && chosen.codes == (set k | k in chosen.kept && k < |s.sessions| :: s.sessions[k].code)
    && |chosen.kept| == chosen.count <= MAX_ACTIVE_CAPTCHA_SESSIONS_PER_USER
  }

  /** No two of them have the same code. */
  ghost predicate DistinctCodes(s: State, kept: set<nat>) {
    forall k, m :: k in kept && m in kept && k < |s.sessions| && m < |s.sessions| && k != m ==>
      s.sessions[k].code != s.sessions[m].code
  }

  lemma SelectionGrows(s: State, newer: Selection, n: nat)
    requires Tallied(s, newer) && DistinctCodes(s, newer.kept)
    requires n < |s.sessions| && n !in newer.kept && Keepable(s, newer, n)
    ensures Tallied(s, Selection(newer.kept + {n}, newer.codes + {s.sessions[n].code}, newer.count + 1))
    ensures DistinctCodes(s, newer.kept + {n})
  {
    forall k | k in newer.kept ensures s.sessions[k].code != s.sessions[n].code {
      assert s.sessions[k].code in newer.codes;
    }
  }

  /** What is kept is within the limit, with codes of its own. */
  lemma {:induction false} SelectIsTallied(s: State, user: User, n: nat)
    requires n <= |s.sessions|
    ensures Tallied(s, Select(s, user, n)) && DistinctCodes(s, Kept(s, user, n))
    decreases |s.sessions| - n
  {
    if n < |s.sessions| {
      var newer := Select(s, user, n + 1);
      SelectIsTallied(s, user, n + 1);
      KeptAreAnswerable(s, user, n + 1);
      if ActiveFor(s, user, n) && Keepable(s, newer, n) {
        SelectionGrows(s, newer, n);
      }
    }
  }

  predicate Retired(s: State, user: User, i: nat)
    requires i < |s.sessions|
  {
    ActiveFor(s, user, i) && i !in Kept(s, user, 0)
  }

  /** Closes what was not kept and returns its requests to the operators. */
  function RetireRest(s: State, user: User): State {
    s.(sessions := seq(|s.sessions|, i requires 0 <= i < |s.sessions| =>
         if Retired(s, user, i) then s.sessions[i].(open := false) else s.sessions[i]),
       records := seq(|s.records|, r requires 0 <= r < |s.records| =>
         if s.records[r].status == Captcha
            && exists i | 0 <= i < |s.sessions| :: Retired(s, user, i) && s.sessions[i].approval == r
         then s.records[r].(status := Pending) else s.records[r]))
  }

  function Reconcile(s: State, user: User): State {
    RetireRest(CloseOrphans(ExpireRequests(s, user), user), user)
  }
}
