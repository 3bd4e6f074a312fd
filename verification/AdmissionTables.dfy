/** The tables under admission, changed in place by their repositories and by the reconciliation of a user's sessions. */
module AdmissionTables {
  import opened Prelude
  import opened AdmissionState
  import opened Admission
  import opened AdmissionProofs
  import opened AdmissionRuns

  // ----- newest first -----

  /** The sessions from n on that a user can answer, newest first. */
  function Candidates(s: State, user: User, n: nat): seq<nat>
    requires n <= |s.sessions|
    decreases |s.sessions| - n
  {
    if n == |s.sessions| then []
    else Candidates(s, user, n + 1) + (if ActiveFor(s, user, n) then [n] else [])
  }

  ghost predicate Descending(ids: seq<nat>) {
    forall i, j :: 0 <= i < j < |ids| ==> ids[j] < ids[i]
  }

  lemma {:induction false} CandidatesAreActive(s: State, user: User, n: nat)
    requires n <= |s.sessions|
    ensures Descending(Candidates(s, user, n))
    ensures forall i :: i in Candidates(s, user, n) <==> n <= i && ActiveFor(s, user, i)
    decreases |s.sessions| - n
  {
    if n < |s.sessions| {
      CandidatesAreActive(s, user, n + 1);
      var newer := Candidates(s, user, n + 1);
      forall k | 0 <= k < |newer| ensures n < newer[k] {
        assert newer[k] in newer;
      }
    }
  }

  /** Where nothing is answerable, nothing is selected. */
  lemma {:induction false} SelectSkips(s: State, user: User, a: nat, b: nat)
    requires a <= b <= |s.sessions| && forall i :: a <= i < b ==> !ActiveFor(s, user, i)
    ensures Select(s, user, a) == Select(s, user, b)
    decreases b - a
  {
    if a < b {
      SelectSkips(s, user, a + 1, b);
    }
  }

  /** How far a scan that has seen the first k candidates has come. */
  function Edge(s: State, candidates: seq<nat>, k: nat): nat
    requires k <= |candidates|
  {
    if k == 0 then |s.sessions| else candidates[k - 1]
  }

  /** The next candidate is the next session that matters. */
  lemma NextCandidate(s: State, user: User, k: nat)
    requires k < |Candidates(s, user, 0)|
    ensures var all := Candidates(s, user, 0); var n := all[k];
            && n < Edge(s, all, k) <= |s.sessions| && ActiveFor(s, user, n)
            && Select(s, user, n + 1) == Select(s, user, Edge(s, all, k))
  {
    var all := Candidates(s, user, 0);
    CandidatesAreActive(s, user, 0);
    var n, edge := all[k], Edge(s, all, k);
    assert all[k] in all && (k > 0 ==> all[k - 1] in all);
    forall i | n + 1 <= i < edge ensures !ActiveFor(s, user, i) {
      BetweenCandidates(all, k, i);
    }
    SelectSkips(s, user, n + 1, edge);
  }

  lemma BetweenCandidates(all: seq<nat>, k: nat, i: nat)
    requires Descending(all) && k < |all| && all[k] < i && (k > 0 ==> i < all[k - 1])
    requires k == 0 ==> forall j :: 0 <= j < |all| ==> all[j] <= all[0]
    ensures i !in all
  {
  }

  lemma LastCandidate(s: State, user: User)
    ensures var all := Candidates(s, user, 0);
            Edge(s, all, |all|) <= |s.sessions| && Select(s, user, 0) == Select(s, user, Edge(s, all, |all|))
  {
    var all := Candidates(s, user, 0);
    CandidatesAreActive(s, user, 0);
    var edge := Edge(s, all, |all|);
    assert all != [] ==> all[|all| - 1] in all;
    SelectSkips(s, user, 0, edge);
  }

  // ----- retiring -----

  function ClosedAfter(e: State, done: seq<nat>): seq<Session> {
    seq(|e.sessions|, i requires 0 <= i < |e.sessions| =>
      if i in done then e.sessions[i].(open := false) else e.sessions[i])
  }

  predicate Returns(e: State, done: seq<nat>, r: nat) {
    exists i | i in done :: i < |e.sessions| && e.sessions[i].approval == r
  }

  function ReturnedAfter(e: State, done: seq<nat>): seq<Record> {
    seq(|e.records|, r requires 0 <= r < |e.records| =>
      if e.records[r].status == Captcha && Returns(e, done, r) then e.records[r].(status := Pending) else e.records[r])
  }

  lemma RetireOne(e: State, done: seq<nat>, i: nat)
    requires i < |e.sessions| && e.sessions[i].approval < |e.records|
    ensures ClosedAfter(e, done + [i]) == ClosedAfter(e, done)[i := ClosedAfter(e, done)[i].(open := false)]
    ensures var r, before := e.sessions[i].approval, ReturnedAfter(e, done);
            ReturnedAfter(e, done + [i])
            == before[r := if before[r].status == Captcha then before[r].(status := Pending) else before[r]]
  {
    forall r: nat ensures Returns(e, done + [i], r) <==> Returns(e, done, r) || e.sessions[i].approval == r {
      assert i in done + [i];
    }
  }

  lemma RetiredAll(e: State, user: User, retired: seq<nat>)
    requires forall i: nat :: i in retired <==> i < |e.sessions| && Retired(e, user, i)
    ensures RetireRest(e, user) == e.(sessions := ClosedAfter(e, retired), records := ReturnedAfter(e, retired))
  {
    forall r: nat | r < |e.records|
      ensures Returns(e, retired, r)
          <==> exists i | 0 <= i < |e.sessions| :: Retired(e, user, i) && e.sessions[i].approval == r
    {
    }
  }

  // ----- maintenance -----

  predicate IsDue(record: Record, now: nat) {
    (record.status == Pending || record.status == Captcha) && record.expiresAt <= now
  }

  function DueRows(records: seq<Record>, now: nat, n: nat): set<nat>
    requires n <= |records|
  {
    set r: nat | r < n && IsDue(records[r], now)
  }

  /** The first n rows have expired where they were due, the others are as they were. */
  predicate ExpiredBelow(was: seq<Record>, records: seq<Record>, now: nat, n: nat)
    requires |records| == |was| && n <= |was|
  {
    forall q | 0 <= q < |was| ::
      records[q] == if q < n && IsDue(was[q], now) then was[q].(status := Expired) else was[q]
  }

  /** One more row of the loop. */
  lemma ExpiresOneMore(was: seq<Record>, records: seq<Record>, now: nat, n: nat)
    requires |records| == |was| && n < |was| && ExpiredBelow(was, records, now, n)
    ensures records[n] == was[n]
    ensures ExpiredBelow(was, if IsDue(was[n], now) then records[n := was[n].(status := Expired)] else records, now,
                         n + 1)
  {
  }

  lemma AllExpired(s: State, records: seq<Record>)
    requires |records| == |s.records| && ExpiredBelow(s.records, records, s.now, |records|)
    ensures s.(records := records) == Admission.ExpireOldPending(s)
  {
    assert records == Admission.ExpireOldPending(s).records;
  }

  lemma OneMoreRow(records: seq<Record>, now: nat, n: nat)
    requires n < |records|
    ensures DueRows(records, now, n + 1) == DueRows(records, now, n) + if IsDue(records[n], now) then {n} else {}
    ensures |DueRows(records, now, n + 1)| == |DueRows(records, now, n)| + if IsDue(records[n], now) then 1 else 0
  {
  }

  // ----- tables -----

  class Tables {
    var now: nat
    var records: seq<Record>
    var sessions: seq<Session>

    constructor ()
      ensures now == 0 && records == [] && sessions == []
    {
      now, records, sessions := 0, [], [];
    }

    /** The tables as a state without tasks. */
    function Rows(): State
      reads this
    {
      State(now, records, sessions, [], [], map[], 0)
    }

    /** The newest request with a flag. */
    method FindByFlag(flag: Flag) returns (found: Option<nat>)
      ensures found.Some? <==> FlagKnown(Rows(), flag)
      ensures found.Some? ==> && found.value < |records| && records[found.value].flag == flag
                              && forall r :: found.value < r < |records| ==> records[r].flag != flag
    {
      var r := |records|;
      while r > 0
        invariant 0 <= r <= |records| && forall q :: r <= q < |records| ==> records[q].flag != flag
      {
        r := r - 1;
        if records[r].flag == flag {
          return Some(r);
        }
      }
      return None;
    }

    method Create(group: Group, user: User, flag: Flag, status: Status, ttl: nat) returns (id: nat)
      modifies this`records
      ensures id == old(|records|) && |records| == id + 1 && Rows().records == WithRecord(old(Rows()), records[id]).records
      ensures records[id] == Record(flag, group, user, status, now + ttl)
      ensures forall other :: FlagKnown(Rows(), other) <==> FlagKnown(old(Rows()), other) || other == flag
    {
      id := |records|;
      records := records + [Record(flag, group, user, status, now + ttl)];
      assert records[id].flag == flag;
      forall other | FlagKnown(old(Rows()), other) ensures FlagKnown(Rows(), other) {
        var r :| 0 <= r < old(|records|) && old(records)[r].flag == other;
        assert records[r].flag == other;
      }
    }

    /** Unconditional: whatever the row said before. */
    method UpdateStatus(id: nat, status: Status)
      modifies this`records
      ensures Rows() == if id < old(|records|) then SetStatus(old(Rows()), id, status) else old(Rows())
    {
      if id < |records| {
        records := records[id := records[id].(status := status)];
      }
    }

    method ExpirePendingIfExpired(id: nat) returns (changed: bool)
      modifies this`records
      ensures changed <==> id < old(|records|) && old(records)[id].status == Pending && old(records)[id].expiresAt <= now
      ensures Rows() == if changed then SetStatus(old(Rows()), id, Expired) else old(Rows())
    {
      changed := id < |records| && records[id].status == Pending && records[id].expiresAt <= now;
      if changed {
        records := records[id := records[id].(status := Expired)];
      }
    }

    /** Every undecided request that is due expires, and no other row changes; the answer is how many did. */
    method ExpireOldPending() returns (changed: nat)
      modifies this`records
      ensures |records| == |old(records)|
      ensures forall r :: 0 <= r < |records| ==>
                var row := old(records)[r];
                records[r] == if (row.status == Pending || row.status == Captcha) && row.expiresAt <= now
                              then row.(status := Expired) else row
      ensures forall r :: 0 <= r < |records| ==>
                (records[r].status == Pending || records[r].status == Captcha ==> records[r].expiresAt > now)
      ensures changed == |DueRows(old(records), now, |old(records)|)|
      ensures Rows() == Admission.ExpireOldPending(old(Rows()))
    {
      changed := ExpireRows();
      AllExpired(old(Rows()), records);
    }

    method ExpireRows() returns (changed: nat)
      modifies this`records
      ensures |records| == |old(records)| && ExpiredBelow(old(records), records, now, |records|)
      ensures changed == |DueRows(old(records), now, |records|)|
    {
      changed := 0;
      for r := 0 to |records|
        invariant |records| == |old(records)| && ExpiredBelow(old(records), records, now, r)
        invariant changed == |DueRows(old(records), now, r)|
      {
        OneMoreRow(old(records), now, r);
        ExpiresOneMore(old(records), records, now, r);
        var row := records[r];
        if (row.status == Pending || row.status == Captcha) && row.expiresAt <= now {
          records := records[r := row.(status := Expired)];
          changed := changed + 1;
        }
      }
    }

    method MarkActionFailure(id: nat)
      modifies this`records
      ensures Rows() == if id < old(|records|) then AdmissionState.MarkActionFailure(old(Rows()), id) else old(Rows())
    {
      if id < |records| && (records[id].status == Pending || records[id].status == Captcha) {
        records := records[id := records[id].(status := Pending)];
      }
    }

    method MarkApprovalPending(id: nat)
      modifies this`records
      ensures Rows() == if id < old(|records|) then AdmissionState.MarkApprovalPending(old(Rows()), id) else old(Rows())
    {
      if id < |records| && records[id].status == Captcha {
        records := records[id := records[id].(status := Pending)];
      }
    }

    /** Takes the newest candidates with codes of their own, up to the limit, and leaves the rest to be retired. */
    method Divide(user: User) returns (active: seq<nat>, retired: seq<nat>)
      ensures forall i: nat :: i in active <==> i in Kept(Rows(), user, 0)
      ensures forall i: nat :: i in retired <==> i < |sessions| && Retired(Rows(), user, i)
      ensures |active| == Select(Rows(), user, 0).count
      ensures Descending(active) && Descending(retired)
    {
      ghost var s := Rows();
      var candidates := Candidates(Rows(), user, 0);
      var codes: set<nat> := {};
      active, retired := [], [];
      CandidatesAreActive(s, user, 0);
      LastCandidate(s, user);
      for k := 0 to |candidates|
        invariant Edge(s, candidates, k) <= |s.sessions|
        invariant Scanned(s, user, candidates, k, active, retired, codes)
      {
        NextCandidate(s, user, k);
        var i := candidates[k];
        ScanOne(s, user, candidates, k, active, retired, codes);
        if |active| < MAX_ACTIVE_CAPTCHA_SESSIONS_PER_USER && sessions[i].code !in codes {
          codes := codes + {sessions[i].code};
          active := active + [i];
        } else {
          retired := retired + [i];
        }
      }
      ScannedAll(s, user, active, retired, codes);
    }

    /** Closes each of these sessions and returns its request to the operators. */
    method Retire(retired: seq<nat>)
      requires forall i :: i in retired ==> i < |sessions| && sessions[i].approval < |records|
      modifies this`records, this`sessions
      ensures records == ReturnedAfter(old(Rows()), retired) && sessions == ClosedAfter(old(Rows()), retired)
    {
      ghost var e := Rows();
      var k := 0;
      assert ClosedAfter(e, []) == e.sessions && ReturnedAfter(e, []) == e.records;
      while k < |retired|
        invariant 0 <= k <= |retired|
        invariant sessions == ClosedAfter(e, retired[..k]) && records == ReturnedAfter(e, retired[..k])
      {
        var i := retired[k];
        assert i in retired && retired[..k + 1] == retired[..k] + [i];
        RetireOne(e, retired[..k], i);
        var r := sessions[i].approval;
        sessions := sessions[i := sessions[i].(open := false)];
        if records[r].status == Captcha {
          records := records[r := records[r].(status := Pending)];
        }
        k := k + 1;
      }
      assert retired[..k] == retired;
    }

    /**
     The whole reconciliation is one transaction: it either brings the user's rows into bounds, and reports what it kept
     and what it retired, or changes nothing.
     */
    method ReconcileActiveSessions(user: User, commits: bool) returns (result: Outcome<(seq<nat>, seq<nat>)>)
      modifies this`records, this`sessions
      ensures result.Done? <==> commits
      ensures !result.Crashed?
      ensures Rows() == if commits then Reconcile(old(Rows()), user) else old(Rows())
      ensures result.Done? ==>
                var (active, retired) := result.value;
                && (forall i: nat :: i in active <==> i in Kept(Cleaned(old(Rows()), user), user, 0))
                && (forall i: nat :: i in retired <==> i < |sessions| && Retired(Cleaned(old(Rows()), user), user, i))
                && |active| <= MAX_ACTIVE_CAPTCHA_SESSIONS_PER_USER
    {
      var recordsBefore, sessionsBefore := records, sessions;
      records := ExpireRequests(Rows(), user).records;
      sessions := CloseOrphans(Rows(), user).sessions;
      ghost var e := Rows();
      assert e == Cleaned(old(Rows()), user);
      var active, retired := Divide(user);
      SelectIsTallied(e, user, 0);
      Retire(retired);
      RetiredAll(e, user, retired);
      if commits {
        result := Done((active, retired));
      } else {
        records, sessions := recordsBefore, sessionsBefore;
        result := Threw;
      }
    }
  }

  // ----- the scan -----

  /** After k candidates the scan has selected what the sessions from its edge on select, and set the others aside. */
  ghost predicate Scanned(s: State, user: User, candidates: seq<nat>, k: nat, active: seq<nat>, retired: seq<nat>,
                          codes: set<nat>)
    requires k <= |candidates| && Edge(s, candidates, k) <= |s.sessions|
  {
    var chosen := Select(s, user, Edge(s, candidates, k));
    && (forall i: nat :: i in active <==> i in chosen.kept)
    && |active| == chosen.count && codes == chosen.codes
    && (forall i: nat :: i in candidates[..k] <==> i in active || i in retired)
    && (forall i: nat :: i in active ==> i !in retired)
    && Descending(active) && Descending(retired)
  }

  lemma ScanOne(s: State, user: User, candidates: seq<nat>, k: nat, active: seq<nat>, retired: seq<nat>,
                codes: set<nat>)
    requires candidates == Candidates(s, user, 0) && k < |candidates| && Edge(s, candidates, k) <= |s.sessions|
    requires Scanned(s, user, candidates, k, active, retired, codes)
    ensures var i := candidates[k];
            && i < |s.sessions|
            && if |active| < MAX_ACTIVE_CAPTCHA_SESSIONS_PER_USER && s.sessions[i].code !in codes
               then Scanned(s, user, candidates, k + 1, active + [i], retired, codes + {s.sessions[i].code})
               else Scanned(s, user, candidates, k + 1, active, retired + [i], codes)
  {
    var i := candidates[k];
    NextCandidate(s, user, k);
    CandidatesAreActive(s, user, 0);
    NextIsLower(candidates, k);
    OneMoreDescends(active, i);
    OneMoreDescends(retired, i);
  }

  lemma NextIsLower(candidates: seq<nat>, k: nat)
    requires k < |candidates| && Descending(candidates)
    ensures candidates[..k + 1] == candidates[..k] + [candidates[k]]
    ensures forall j | j in candidates[..k] :: candidates[k] < j
  {
  }

  lemma OneMoreDescends(ids: seq<nat>, i: nat)
    requires Descending(ids) && forall j :: j in ids ==> i < j
    ensures Descending(ids + [i])
  {
    forall j | 0 <= j < |ids| ensures i < ids[j] {
      assert ids[j] in ids;
    }
  }

  lemma ScannedAll(s: State, user: User, active: seq<nat>, retired: seq<nat>, codes: set<nat>)
    requires var all := Candidates(s, user, 0);
             Edge(s, all, |all|) <= |s.sessions| && Scanned(s, user, all, |all|, active, retired, codes)
    ensures forall i: nat :: i in active <==> i in Kept(s, user, 0)
    ensures forall i: nat :: i in retired <==> i < |s.sessions| && Retired(s, user, i)
    ensures |active| == Select(s, user, 0).count
  {
    var all := Candidates(s, user, 0);
    LastCandidate(s, user);
    CandidatesAreActive(s, user, 0);
    assert all[..|all|] == all;
  }
}
