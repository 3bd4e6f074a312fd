/** Counter rows and the cache of rows known to exist. */
module Statistics {
  import opened Prelude

  type Group = string
  type Period = string

  datatype Field = ApprovalsTotal | ApprovalsPassed | ApprovalsRejected | CaptchasTotal | CaptchasPassed
                 | PunishmentsTotal | RiskDetections

  /** A row's owner: a group, or everybody. */
  type Owner = Option<Group>

  /** The counters a row holds; those it does not mention are zero. */
  type Counters = map<Field, int>
  type Rows = map<(Owner, Period), Counters>

  function Counter(counters: Counters, field: Field): int {
    if field in counters then counters[field] else 0
  }

  function Count(rows: Rows, owner: Owner, period: Period, field: Field): int {
    if (owner, period) in rows then Counter(rows[(owner, period)], field) else 0
  }

  /** INSERT OR IGNORE. */
  function Inserted(rows: Rows, owner: Owner, period: Period): Rows {
    if (owner, period) in rows then rows else rows[(owner, period) := map[]]
  }

  /** UPDATE: it changes nothing where there is no row. */
  function Updated(rows: Rows, owner: Owner, period: Period, field: Field, amount: int): Rows {
    if (owner, period) in rows then
      var counters := rows[(owner, period)];
      rows[(owner, period) := counters[field := Counter(counters, field) + amount]]
    else rows
  }

  function Added(rows: Rows, owner: Owner, period: Period, field: Field, amount: int): Rows {
    Updated(Inserted(rows, owner, period), owner, period, field, amount)
  }

  function Bumped(rows: Rows, group: Group, period: Period, field: Field): Rows {
    Added(Added(rows, Some(group), period, field, 1), None, period, field, 1)
  }

  // ----- what the counts add up to -----

  lemma AddedCounts(rows: Rows, owner: Owner, period: Period, field: Field, amount: int)
    ensures forall o, p, f :: Count(Added(rows, owner, period, field, amount), o, p, f)
                           == Count(rows, o, p, f) + if (o, p, f) == (owner, period, field) then amount else 0
  {
    forall o: Owner, p, f
      ensures Count(Added(rows, owner, period, field, amount), o, p, f)
           == Count(rows, o, p, f) + if (o, p, f) == (owner, period, field) then amount else 0
    {
      if (o, p) == (owner, period) {
        assert (o, p) in Inserted(rows, owner, period);
      }
    }
  }

  function SumOver(rows: Rows, groups: seq<Group>, period: Period, field: Field): int {
    if groups == [] then 0
    else SumOver(rows, groups[..|groups| - 1], period, field) + Count(rows, Some(groups[|groups| - 1]), period, field)
  }

  predicate Listed(rows: Rows, groups: seq<Group>) {
    && (forall i, j | 0 <= i < j < |groups| :: groups[i] != groups[j])
    && forall key | key in rows && key.0.Some? :: key.0.value in groups
  }

  /** Each global counter is the sum of the groups' counters. */
  ghost predicate Balanced(rows: Rows, groups: seq<Group>) {
    Listed(rows, groups) && forall p, f :: Count(rows, None, p, f) == SumOver(rows, groups, p, f)
  }

  lemma {:induction false} SumAfter(rows: Rows, after: Rows, groups: seq<Group>, group: Group, period: Period, field: Field)
    requires forall i, j | 0 <= i < j < |groups| :: groups[i] != groups[j]
    requires forall g :: Count(after, Some(g), period, field)
                      == Count(rows, Some(g), period, field) + if g == group then 1 else 0
    ensures SumOver(after, groups, period, field)
         == SumOver(rows, groups, period, field) + if group in groups then 1 else 0
    decreases |groups|
  {
    if groups != [] {
      var front, last := groups[..|groups| - 1], groups[|groups| - 1];
      SumAfter(rows, after, front, group, period, field);
      assert groups == front + [last];
      assert last !in front;
    }
  }

  lemma {:induction false} SumUnchanged(rows: Rows, after: Rows, groups: seq<Group>, period: Period, field: Field)
    requires forall g :: Count(after, Some(g), period, field) == Count(rows, Some(g), period, field)
    ensures SumOver(after, groups, period, field) == SumOver(rows, groups, period, field)
    decreases |groups|
  {
    if groups != [] {
      SumUnchanged(rows, after, groups[..|groups| - 1], period, field);
    }
  }

  lemma SumOfUnlisted(rows: Rows, groups: seq<Group>, group: Group, period: Period, field: Field)
    requires Listed(rows, groups) && group !in groups
    ensures SumOver(rows, groups + [group], period, field) == SumOver(rows, groups, period, field)
  {
    assert (groups + [group])[..|groups|] == groups;
  }

  function WithGroup(groups: seq<Group>, group: Group): seq<Group> {
    if group in groups then groups else groups + [group]
  }

  lemma BumpedCounts(rows: Rows, group: Group, period: Period, field: Field)
    ensures forall o, p, f :: Count(Bumped(rows, group, period, field), o, p, f)
                           == Count(rows, o, p, f)
                              + if (p, f) == (period, field) && (o == Some(group) || o == None) then 1 else 0
  {
    AddedCounts(rows, Some(group), period, field, 1);
    AddedCounts(Added(rows, Some(group), period, field, 1), None, period, field, 1);
  }

  lemma BumpedIsListed(rows: Rows, groups: seq<Group>, group: Group, period: Period, field: Field)
    requires Listed(rows, groups)
    ensures Listed(Bumped(rows, group, period, field), WithGroup(groups, group))
  {
  }

  /** One counter's total follows the groups' counters, bumped or not. */
  lemma SumFollows(rows: Rows, after: Rows, groups: seq<Group>, group: Group, bumped: bool, period: Period, field: Field)
    requires Listed(rows, groups) && Count(rows, None, period, field) == SumOver(rows, groups, period, field)
    requires forall o :: Count(after, o, period, field)
                         == Count(rows, o, period, field)
                            + if bumped && (o == Some(group) || o == None) then 1 else 0
    ensures Count(after, None, period, field) == SumOver(after, WithGroup(groups, group), period, field)
  {
    var more := WithGroup(groups, group);
    if group !in groups {
      SumOfUnlisted(rows, groups, group, period, field);
    }
    if bumped {
      SumAfter(rows, after, more, group, period, field);
    } else {
      SumUnchanged(rows, after, more, period, field);
    }
  }

  /** A bump adds exactly one to its group and one to the total, and so keeps the balance. */
  lemma BumpKeepsBalance(rows: Rows, groups: seq<Group>, group: Group, period: Period, field: Field)
    requires Balanced(rows, groups)
    ensures Balanced(Bumped(rows, group, period, field), WithGroup(groups, group))
    ensures forall o, p, f :: Count(Bumped(rows, group, period, field), o, p, f)
                           == Count(rows, o, p, f)
                              + if (p, f) == (period, field) && (o == Some(group) || o == None) then 1 else 0
  {
    var after, more := Bumped(rows, group, period, field), WithGroup(groups, group);
    BumpedIsListed(rows, groups, group, period, field);
    BumpedCounts(rows, group, period, field);
    forall p, f ensures Count(after, None, p, f) == SumOver(after, more, p, f) {
      SumFollows(rows, after, groups, group, (p, f) == (period, field), p, f);
    }
  }

  // ----- runs -----

  /** A bump on some day under some failures, or another database in the place of this one. */
  datatype Event = Counts(group: Group, field: Field, period: Period, faults: seq<bool>) | Opens(rows: Rows)

  /** The rows after the events, given which of the bumps committed. */
  function Replayed(rows: Rows, events: seq<Event>, done: seq<bool>): Rows
    requires |done| == |events|
  {
    if events == [] then rows
    else
      var n := |events| - 1;
      var before := Replayed(rows, events[..n], done[..n]);
      match events[n]
      case Opens(other) => other
      case Counts(group, field, period, _) => if done[n] then Bumped(before, group, period, field) else before
  }

  ghost predicate IsBalanced(rows: Rows) {
    exists groups :: Balanced(rows, groups)
  }

  lemma {:induction false} ReplayKeepsBalance(rows: Rows, events: seq<Event>, done: seq<bool>)
    requires |done| == |events| && IsBalanced(rows)
    requires forall e | e in events && e.Opens? :: IsBalanced(e.rows)
    ensures IsBalanced(Replayed(rows, events, done))
    decreases |events|
  {
    if events != [] {
      var n := |events| - 1;
      ReplayKeepsBalance(rows, events[..n], done[..n]);
      if events[n].Counts? {
        var before := Replayed(rows, events[..n], done[..n]);
        var groups :| Balanced(before, groups);
        BumpKeepsBalance(before, groups, events[n].group, events[n].period, events[n].field);
      } else {
        assert events[n] in events;
      }
    }
  }

  // ----- the repository -----

  class Repository {
    /** The open database and how often one was opened. */
    var rows: Rows
    var generation: nat
    /** What the database does to the next statements; it lets everything beyond the list happen. */
    var faults: seq<bool>

    var ensuredPeriod: Period
    var ensuredKeys: set<Owner>
    var databaseGeneration: int

    /** A cached key never claims a missing row. */
    ghost predicate CacheHolds(rows: Rows)
      reads this`generation, this`ensuredPeriod, this`ensuredKeys, this`databaseGeneration
    {
      && databaseGeneration <= generation
      && (databaseGeneration == generation ==> forall o | o in ensuredKeys :: (o, ensuredPeriod) in rows)
    }

    ghost predicate Valid()
      reads this
    {
      CacheHolds(rows)
    }

    constructor (rows: Rows, faults: seq<bool>)
      ensures Valid() && this.rows == rows && this.faults == faults
    {
      this.rows, this.faults, generation := rows, faults, 0;
      ensuredPeriod, ensuredKeys, databaseGeneration := "", {}, -1;
    }

    /** Another connection, possibly to other data. */
    method Reopen(other: Rows)
      requires Valid()
      modifies this`rows, this`generation
      ensures Valid() && rows == other
    {
      rows := other;
      generation := generation + 1;
    }

    method Statement() returns (ok: bool)
      modifies this`faults
      ensures old(faults) == [] ==> ok && faults == []
      ensures old(faults) != [] ==> ok == old(faults)[0] && faults == old(faults)[1..]
    {
      if faults == [] {
        return true;
      }
      ok := faults[0];
      faults := faults[1..];
    }

    /** The row of a cache that was just checked exists, and whatever the cache kept was there before. */
    ghost predicate Ensured(before: Rows, period: Period)
      reads this`rows, this`generation, this`ensuredPeriod, this`ensuredKeys, this`databaseGeneration
    {
      && databaseGeneration == generation && ensuredPeriod == period
      && (forall o | o in ensuredKeys :: (o, period) in before)
      && (forall key | key in before :: key in rows)
    }

    /** Drops what a replaced database or an earlier day left in the cache. */
    method Refresh(period: Period)
      requires Valid()
      modifies this`ensuredPeriod, this`ensuredKeys, this`databaseGeneration
      ensures Valid() && databaseGeneration == generation && ensuredPeriod == period && ensuredKeys <= old(ensuredKeys)
    {
      if generation != databaseGeneration {
        ensuredKeys := {};
        ensuredPeriod := "";
        databaseGeneration := generation;
      }
      if period != ensuredPeriod {
        ensuredKeys := {};
        ensuredPeriod := period;
      }
    }

    /** Makes sure a row exists; a freshly inserted one is reported, to be cached once it is committed. */
    method EnsureSnapshot(owner: Owner, period: Period) returns (ok: bool, inserted: bool)
      requires Valid()
      modifies this`rows, this`faults, this`ensuredPeriod, this`ensuredKeys, this`databaseGeneration
      ensures Valid() && Ensured(old(rows), period)
      ensures ok ==> (owner, period) in rows && rows == Inserted(old(rows), owner, period)
      ensures !ok ==> rows == old(rows)
      ensures ensuredKeys <= old(ensuredKeys) && (old(faults) == [] ==> ok && faults == [])
    {
      Refresh(period);
      if owner in ensuredKeys {
        return true, false;
      }
      ok := Statement();
      if ok {
        rows := Inserted(rows, owner, period);
      }
      inserted := ok;
    }

    method WriteIncrement(owner: Owner, period: Period, field: Field, amount: int, pendingKeys: set<Owner>)
      returns (ok: bool, pendingKeys': set<Owner>)
      requires Valid() && forall o | o in pendingKeys :: (o, period) in rows
      modifies this`rows, this`faults, this`ensuredPeriod, this`ensuredKeys, this`databaseGeneration
      ensures Valid() && Ensured(old(rows), period) && forall o | o in pendingKeys' :: (o, period) in rows
      ensures ok ==> rows == Added(old(rows), owner, period, field, amount)
      ensures ensuredKeys <= old(ensuredKeys) && (old(faults) == [] ==> ok && faults == [])
    {
      var inserted;
      pendingKeys' := pendingKeys;
      ok, inserted := EnsureSnapshot(owner, period);
      if !ok {
        return;
      }
      if inserted {
        pendingKeys' := pendingKeys + {owner};
      }
      ok := Statement();
      if ok {
        rows := Updated(rows, owner, period, field, amount);
      }
    }

    /** Commits and caches what was inserted, or takes everything back. */
    method Finish(done: bool, before: Rows, period: Period, pendingKeys: set<Owner>) returns (ok: bool)
      requires Valid() && Ensured(before, period) && forall o | o in pendingKeys :: (o, period) in rows
      modifies this`rows, this`faults, this`ensuredKeys
      ensures Valid() && rows == if ok then old(rows) else before
      ensures ok ==> done
      ensures done && old(faults) == [] ==> ok
    {
      if done {
        ok := Statement();
        if ok {
          ensuredKeys := ensuredKeys + pendingKeys;
          return;
        }
      }
      rows := before;
      ok := false;
    }

    /** Adds one to the group's counter and to the global one, in one transaction. */
    method Bump(group: Group, field: Field, period: Period) returns (ok: bool)
      requires Valid()
      modifies this
      ensures Valid() && generation == old(generation)
      ensures rows == if ok then Bumped(old(rows), group, period, field) else old(rows)
      ensures old(faults) == [] ==> ok
    {
      ok := Statement();  // begin
      if !ok {
        return;
      }
      var before := rows;
      var pendingKeys;
      ok, pendingKeys := WriteIncrement(Some(group), period, field, 1, {});
      if ok {
        ok, pendingKeys := WriteIncrement(None, period, field, 1, pendingKeys);
      }
      ok := Finish(ok, before, period, pendingKeys);
    }

    method Increment(owner: Owner, field: Field, period: Period, amount: int) returns (ok: bool)
      requires Valid()
      modifies this
      ensures Valid() && generation == old(generation)
      ensures rows == if ok then Added(old(rows), owner, period, field, amount) else old(rows)
      ensures old(faults) == [] ==> ok
    {
      ok := Statement();  // begin
      if !ok {
        return;
      }
      var before := rows;
      var pendingKeys;
      ok, pendingKeys := WriteIncrement(owner, period, field, amount, {});
      ok := Finish(ok, before, period, pendingKeys);
    }

    /**
     Any run of bumps with failures, changes of day and other databases: the rows are exactly what the committed bumps
     make of them, and where every database was balanced, they still are.
     */
    method Serve(events: seq<Event>) returns (done: seq<bool>)
      requires Valid()
      modifies this
      ensures Valid() && |done| == |events| && rows == Replayed(old(rows), events, done)
      ensures forall i | 0 <= i < |events| && events[i].Counts? && events[i].faults == [] :: done[i]
      ensures IsBalanced(old(rows)) && (forall e | e in events && e.Opens? :: IsBalanced(e.rows)) ==> IsBalanced(rows)
    {
      done := [];
      for i := 0 to |events|
        invariant Valid() && |done| == i && rows == Replayed(old(rows), events[..i], done)
        invariant forall j | 0 <= j < i && events[j].Counts? && events[j].faults == [] :: done[j]
      {
        var ok := true;
        match events[i] {
          case Opens(other) => Reopen(other);
          case Counts(group, field, period, failing) =>
            faults := failing;
            ok := Bump(group, field, period);
        }
        assert events[..i + 1][..i] == events[..i] && (done + [ok])[..i] == done;
        done := done + [ok];
      }
      assert events[..|events|] == events;
      if IsBalanced(old(rows)) && forall e | e in events && e.Opens? :: IsBalanced(e.rows) {
        ReplayKeepsBalance(old(rows), events, done);
      }
    }
  }
}
