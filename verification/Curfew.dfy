/** Curfew windows: when a group is to be muted. */
module CurfewWindow {
  import opened Prelude
  import opened Decimal

  const DAY: nat := 1440

  /** "HH:MM" on a 24-hour clock, in minutes since midnight. */
  function ParseHHMM(s: string): Option<nat> {
    if |s| == 5 && s[2] == ':' && IsDigit(s[0]) && IsDigit(s[1]) && IsDigit(s[3]) && IsDigit(s[4])
       && (s[0] == '0' || s[0] == '1' || (s[0] == '2' && s[1] <= '3')) && s[3] <= '5'
    then
      Some((DigitValue(s[0]) * 10 + DigitValue(s[1])) * 60 + DigitValue(s[3]) * 10 + DigitValue(s[4]))
    else None
  }

  function Show(m: nat): string
    requires m < DAY
  {
    var h, rest := m / 60, m % 60;
    ['0' + (h / 10) as char, '0' + (h % 10) as char, ':', '0' + (rest / 10) as char, '0' + (rest % 10) as char]
  }

  lemma ShownReads(m: nat)
    requires m < DAY
    ensures ParseHHMM(Show(m)) == Some(m)
  {
    var h, rest := m / 60, m % 60;
    assert h < 24 && rest < 60 && m == h * 60 + rest;
    assert h == h / 10 * 10 + h % 10 && rest == rest / 10 * 10 + rest % 10;
  }

  lemma ReadShows(s: string)
    requires ParseHHMM(s).Some?
    ensures ParseHHMM(s).value < DAY && s == Show(ParseHHMM(s).value)
  {
    var a, b, c, d := DigitValue(s[0]), DigitValue(s[1]), DigitValue(s[3]), DigitValue(s[4]);
    var m := ParseHHMM(s).value;
    assert m == (a * 10 + b) * 60 + (c * 10 + d) && c * 10 + d < 60 && a * 10 + b < 24;
    assert m / 60 == a * 10 + b && m % 60 == c * 10 + d;
    var t := Show(m);
    assert t[0] == s[0] && t[1] == s[1] && t[2] == s[2] && t[3] == s[3] && t[4] == s[4];
  }

  /** Every minute of the day has exactly one spelling. */
  lemma SpellingsAreMinutes(s: string, m: nat)
    requires m < DAY
    ensures ParseHHMM(s) == Some(m) <==> s == Show(m)
    ensures ParseHHMM(s).Some? ==> ParseHHMM(s).value < DAY
  {
    ShownReads(m);
    if ParseHHMM(s).Some? {
      ReadShows(s);
    }
  }

  /** Hours come first, and what is not two digits of each is refused. */
  lemma SpellingExamples()
    ensures ParseHHMM("00:00") == Some(0) && ParseHHMM("07:05") == Some(425) && ParseHHMM("23:59") == Some(1439)
    ensures ParseHHMM("24:00") == None && ParseHHMM("12:60") == None && ParseHHMM("7:05") == None
  {
  }

  function IsInCurfewWindow(now: nat, start: nat, end: nat): bool {
    if start == end then false
    else if start < end then start <= now < end
    else start <= now || now < end
  }

  /** Minutes from one time of day to the next occurrence of another. */
  function Ahead(from: nat, to: nat): nat
    requires from < DAY && to < DAY
  {
    (to + DAY - from) % DAY
  }

  /** From half past ten at night to seven in the morning. */
  lemma WindowExamples()
    ensures IsInCurfewWindow(1350, 1350, 420) && IsInCurfewWindow(0, 1350, 420) && !IsInCurfewWindow(420, 1350, 420)
    ensures !IsInCurfewWindow(720, 1350, 420) && IsInCurfewWindow(720, 420, 1350) && !IsInCurfewWindow(720, 720, 720)
  {
  }

  /** A minute is inside exactly when the window's end lies ahead of it, and not behind its own start. */
  lemma WindowIsAhead(now: nat, start: nat, end: nat)
    requires now < DAY && start < DAY && end < DAY
    ensures IsInCurfewWindow(now, start, end) <==> Ahead(start, now) < Ahead(start, end)
  {
  }

  /** A window and the one from its end to its start share no minute, and leave none out unless both are empty. */
  lemma WindowsComplement(now: nat, start: nat, end: nat)
    requires now < DAY && start < DAY && end < DAY
    ensures start != end ==> (IsInCurfewWindow(now, start, end) <==> !IsInCurfewWindow(now, end, start))
    ensures start == end ==> !IsInCurfewWindow(now, start, end)
  {
  }
}

/** The curfew scheduler: ticks, shutdown and start-up as turns of one object. */
module Curfew {
  import opened Prelude
  import opened CurfewWindow

  type Group = string
  type Applied = map<Group, bool>

  /** One group as a tick's configuration and clock describe it. */
  datatype Plan = Plan(group: Group, active: bool, inWindow: bool)

  /** A group's curfew as it is configured. */
  datatype GroupConfig = GroupConfig(group: Group, enabled: bool, curfewEnabled: bool, start: string, end: string)

  /** What a tick at this minute makes of it; an unreadable time counts as being outside. */
  function PlanOf(c: GroupConfig, minute: nat): Plan {
    var start, end := ParseHHMM(c.start), ParseHHMM(c.end);
    Plan(c.group, c.enabled && c.curfewEnabled,
         start.Some? && end.Some? && IsInCurfewWindow(minute, start.value, end.value))
  }

  function PlansOf(configs: seq<GroupConfig>, minute: nat): (plans: seq<Plan>)
    ensures |plans| == |configs|
  {
    seq(|configs|, i requires 0 <= i < |configs| => PlanOf(configs[i], minute))
  }

  /** A group is under curfew at a minute: both ends are spelled times of day, and the later one lies ahead. */
  ghost predicate UnderCurfew(c: GroupConfig, minute: nat)
    requires minute < 1440
  {
    && c.enabled && c.curfewEnabled
    && exists start, end | 0 <= start < 1440 && 0 <= end < 1440 ::
         c.start == Show(start) && c.end == Show(end) && Ahead(start, minute) < Ahead(start, end)
  }

  lemma PlannedIfUnderCurfew(c: GroupConfig, minute: nat)
    requires minute < 1440
    ensures PlanOf(c, minute).active && PlanOf(c, minute).inWindow <==> UnderCurfew(c, minute)
  {
    if PlanOf(c, minute).inWindow {
      InsideIsAhead(c.start, c.end, minute);
    }
    forall start, end | 0 <= start < 1440 && 0 <= end < 1440 && c.start == Show(start) && c.end == Show(end)
                        && Ahead(start, minute) < Ahead(start, end)
      ensures PlanOf(c, minute).inWindow
    {
      AheadIsInside(start, end, minute);
    }
  }

  lemma InsideIsAhead(start: string, end: string, minute: nat)
    requires minute < 1440 && ParseHHMM(start).Some? && ParseHHMM(end).Some?
    requires IsInCurfewWindow(minute, ParseHHMM(start).value, ParseHHMM(end).value)
    ensures exists s, e | 0 <= s < 1440 && 0 <= e < 1440 ::
              start == Show(s) && end == Show(e) && Ahead(s, minute) < Ahead(s, e)
  {
    ReadShows(start);
    ReadShows(end);
    WindowIsAhead(minute, ParseHHMM(start).value, ParseHHMM(end).value);
  }

  lemma AheadIsInside(start: nat, end: nat, minute: nat)
    requires minute < 1440 && start < 1440 && end < 1440 && Ahead(start, minute) < Ahead(start, end)
    ensures ParseHHMM(Show(start)) == Some(start) && ParseHHMM(Show(end)) == Some(end)
    ensures IsInCurfewWindow(minute, start, end)
  {
    ShownReads(start);
    ShownReads(end);
    WindowIsAhead(minute, start, end);
  }

  /** What a live tick awaits: the answer to a whole-group ban, or to an announcement. */
  datatype Wait = Banning(group: Group, enable: bool, prev: Option<bool>) | Announcing

  datatype Tick = Tick(generation: nat, rest: seq<Plan>, wait: Wait)

  /** Shutdown first lets the tick finish and then lifts the remaining mutes. */
  datatype Stopping = Draining | Lifting(outstanding: set<Group>)

  /** An initialization awaiting the shutdown of its predecessor, and whether that is over. */
  datatype Pending = Pending(epoch: nat, ready: bool)

  /** A whole-group ban call, with what was recorded and whether the scheduler was running when it was sent. */
  datatype Call = Call(group: Group, enable: bool, recorded: Option<bool>, running: bool)

  function Recorded(applied: Applied, group: Group): Option<bool> {
    if group in applied then Some(applied[group]) else None
  }

  function Muted(applied: Applied): set<Group> {
    set g | g in applied && applied[g]
  }

  // ----- one sweep over the groups, up to the first call -----

  datatype Sweep = Finished(applied: Applied) | Sends(applied: Applied, group: Group, enable: bool, rest: seq<Plan>)

  function Desired(p: Plan): bool {
    p.active && p.inWindow
  }

  /** A group without curfew and without a mute of ours is recorded as free and left alone. */
  predicate LeftAlone(applied: Applied, p: Plan) {
    !p.active && Recorded(applied, p.group) != Some(true)
  }

  function SweepFrom(applied: Applied, plans: seq<Plan>): Sweep
    decreases |plans|
  {
    if plans == [] then Finished(applied)
    else
      var p := plans[0];
      if LeftAlone(applied, p) then SweepFrom(applied[p.group := false], plans[1..])
      else if Recorded(applied, p.group) == Some(Desired(p)) then SweepFrom(applied, plans[1..])
      else Sends(applied, p.group, Desired(p), plans[1..])
  }

  /** The tick that awaits what a sweep sent. */
  function TickAfter(generation: nat, s: Sweep): Option<Tick> {
    match s
    case Finished(_) => None
    case Sends(applied, group, enable, rest) =>
      Some(Tick(generation, rest, Banning(group, enable, Recorded(applied, group))))
  }

  function SentBy(s: Sweep): seq<Call> {
    match s
    case Finished(_) => []
    case Sends(applied, group, enable, _) => [Call(group, enable, Recorded(applied, group), true)]
  }

  predicate Alternates(acks: seq<bool>) {
    forall i | 0 < i < |acks| :: acks[i] != acks[i - 1]
  }

  function Acks(acked: map<Group, seq<bool>>, group: Group): seq<bool> {
    if group in acked then acked[group] else []
  }

  /** What is recorded for a group is the last acknowledged call, or freedom where there was none. */
  predicate RecordAgrees(applied: Applied, acked: map<Group, seq<bool>>, group: Group) {
    var acks := Acks(acked, group);
    && Alternates(acks)
    && (if acks == [] then Recorded(applied, group) != Some(true)
        else group in applied && applied[group] == acks[|acks| - 1])
  }

  /** Calls follow changes, go only to groups that had a curfew, and mute only while running. */
  predicate CallOk(c: Call, managed: set<Group>) {
    c.recorded != Some(c.enable) && c.group in managed && (c.enable ==> c.running)
  }

  function ActiveGroups(plans: seq<Plan>): set<Group> {
    set p | p in plans && p.active :: p.group
  }

  lemma FreedAgrees(applied: Applied, acked: map<Group, seq<bool>>, p: Plan, g: Group)
    requires RecordAgrees(applied, acked, g) && Recorded(applied, p.group) != Some(true)
    ensures RecordAgrees(applied[p.group := false], acked, g)
  {
    if g == p.group {
      var acks := Acks(acked, g);
      assert acks != [] ==> Recorded(applied, g) == Some(acks[|acks| - 1]);
      assert Recorded(applied[p.group := false], g) == Some(false);
    } else {
      assert Recorded(applied[p.group := false], g) == Recorded(applied, g);
    }
  }

  lemma AcknowledgedAgrees(applied: Applied, acked: map<Group, seq<bool>>, group: Group, enable: bool,
                           nextApplied: Applied, nextAcked: map<Group, seq<bool>>)
    requires (forall g :: RecordAgrees(applied, acked, g)) && Recorded(applied, group) != Some(enable)
    requires nextApplied == applied[group := enable]
    requires nextAcked == acked[group := Acks(acked, group) + [enable]]
    ensures forall g :: RecordAgrees(nextApplied, nextAcked, g)
  {
    forall g ensures RecordAgrees(nextApplied, nextAcked, g) {
      assert RecordAgrees(applied, acked, g);
      if g != group {
        assert Recorded(nextApplied, g) == Recorded(applied, g) && Acks(nextAcked, g) == Acks(acked, g);
      } else {
        LongerAlternates(Acks(acked, g), enable);
      }
    }
  }

  lemma MutedAfter(applied: Applied, group: Group, enable: bool)
    ensures Muted(applied[group := enable]) == if enable then Muted(applied) + {group} else Muted(applied) - {group}
  {
  }

  lemma LongerAlternates(acks: seq<bool>, enable: bool)
    requires Alternates(acks) && (acks != [] ==> acks[|acks| - 1] != enable)
    ensures Alternates(acks + [enable])
  {
  }

  /** What a sweep leaves, and what it may send. */
  lemma {:induction false} SweepKeeps(applied: Applied, plans: seq<Plan>, acked: map<Group, seq<bool>>, managed: set<Group>)
    requires forall g :: RecordAgrees(applied, acked, g)
    requires Muted(applied) <= managed && ActiveGroups(plans) <= managed
    ensures var s := SweepFrom(applied, plans);
            && (forall g :: RecordAgrees(s.applied, acked, g))
            && Muted(s.applied) == Muted(applied)
            && (s.Sends? ==>
                  && Recorded(s.applied, s.group) != Some(s.enable) && s.group in managed
                  && ActiveGroups(s.rest) <= managed)
    decreases |plans|
  {
    if plans != [] {
      var p := plans[0];
      assert ActiveGroups(plans[1..]) <= ActiveGroups(plans);
      if LeftAlone(applied, p) {
        var freed := applied[p.group := false];
        forall g: Group ensures RecordAgrees(freed, acked, g) {
          assert RecordAgrees(applied, acked, g);
          FreedAgrees(applied, acked, p, g);
        }
        assert Muted(applied[p.group := false]) == Muted(applied);
        SweepKeeps(applied[p.group := false], plans[1..], acked, managed);
      } else if Recorded(applied, p.group) == Some(Desired(p)) {
        SweepKeeps(applied, plans[1..], acked, managed);
      } else if p.active {
        assert p.group in ActiveGroups(plans);
      } else {
        assert p.group in Muted(applied);
      }
    }
  }

  /** A group that is not under curfew is called only to lift a mute of ours. */
  lemma {:induction false} UnmanagedIsOnlyLifted(applied: Applied, plans: seq<Plan>)
    requires SweepFrom(applied, plans).Sends? && Distinct(plans)
    requires forall p | p in plans && p.group == SweepFrom(applied, plans).group :: !p.active
    ensures !SweepFrom(applied, plans).enable
    ensures Recorded(applied, SweepFrom(applied, plans).group) == Some(true)
    decreases |plans|
  {
    var p := plans[0];
    if LeftAlone(applied, p) {
      UnmanagedIsOnlyLifted(applied[p.group := false], plans[1..]);
    } else if Recorded(applied, p.group) == Some(Desired(p)) {
      UnmanagedIsOnlyLifted(applied, plans[1..]);
    }
  }

  /** A call mutes a group exactly if its plan has a curfew and the minute is inside its window. */
  lemma {:induction false} CallsFollowPlans(applied: Applied, plans: seq<Plan>) returns (p: Plan)
    requires SweepFrom(applied, plans).Sends?
    ensures p in plans && p.group == SweepFrom(applied, plans).group
    ensures SweepFrom(applied, plans).enable <==> p.active && p.inWindow
    decreases |plans|
  {
    p := plans[0];
    if LeftAlone(applied, p) {
      p := CallsFollowPlans(applied[p.group := false], plans[1..]);
    } else if Recorded(applied, p.group) == Some(Desired(p)) {
      p := CallsFollowPlans(applied, plans[1..]);
    }
  }

  predicate Distinct(plans: seq<Plan>) {
    forall i, j | 0 <= i < j < |plans| :: plans[i].group != plans[j].group
  }

  // ----- what a tick achieves -----

  /** The latest tick: its plans, what was recorded and acknowledged when it began, and whose calls have failed in it. */
  datatype Round = Round(plans: seq<Plan>, applied: Applied, acked: map<Group, seq<bool>>, failed: set<Group>)

  /** The calls a group needs: one where its record is not what is desired, and none otherwise. */
  function Due(applied: Applied, p: Plan): seq<bool> {
    if LeftAlone(applied, p) || Recorded(applied, p.group) == Some(Desired(p)) then [] else [Desired(p)]
  }

  lemma DueIsNeeded(applied: Applied, p: Plan)
    ensures var muted := p.active && p.inWindow;
            var settled := Recorded(applied, p.group) == Some(muted)
                           || (!p.active && Recorded(applied, p.group) == None);
            Due(applied, p) == if settled then [] else [muted]
  {
    match Recorded(applied, p.group)
    case Some(muted) => assert muted in {true, false};
    case None =>
  }

  /** A visited group is as desired, after exactly the calls it needed, or its call failed and nothing has changed. */
  predicate Visited(round: Round, applied: Applied, acked: map<Group, seq<bool>>, p: Plan) {
    if p.group in round.failed then
      Recorded(applied, p.group) == Recorded(round.applied, p.group)
      && Acks(acked, p.group) == Acks(round.acked, p.group)
    else
      Recorded(applied, p.group) == Some(Desired(p))
      && Acks(acked, p.group) == Acks(round.acked, p.group) + Due(round.applied, p)
  }

  predicate Untouched(round: Round, applied: Applied, acked: map<Group, seq<bool>>, g: Group) {
    && g !in round.failed
    && Recorded(applied, g) == Recorded(round.applied, g)
    && Acks(acked, g) == Acks(round.acked, g)
  }

  predicate Listed(plans: seq<Plan>, k: nat, g: Group)
    requires k <= |plans|
  {
    exists i | 0 <= i < k :: plans[i].group == g
  }

  /** The first k groups are visited, and no other is touched. */
  ghost predicate Progress(round: Round, applied: Applied, acked: map<Group, seq<bool>>, k: nat)
    requires k <= |round.plans|
  {
    && (forall i | 0 <= i < k :: Visited(round, applied, acked, round.plans[i]))
    && (forall g: Group :: Untouched(round, applied, acked, g) || Listed(round.plans, k, g))
  }

  /** The first k groups are visited, and the next one's call is out. */
  ghost predicate Awaits(round: Round, applied: Applied, acked: map<Group, seq<bool>>, k: nat, group: Group, enable: bool) {
    && k < |round.plans|
    && Progress(round, applied, acked, k)
    && round.plans[k].group == group && Desired(round.plans[k]) == enable
    && Due(round.applied, round.plans[k]) == [enable]
  }

  ghost predicate OnTrack(round: Round, applied: Applied, acked: map<Group, seq<bool>>, tick: Option<Tick>) {
    match tick
    case None => Progress(round, applied, acked, |round.plans|)
    case Some(t) =>
      && |t.rest| <= |round.plans|
      && var k := |round.plans| - |t.rest|;
      && round.plans[k..] == t.rest
      && (match t.wait
          case Announcing => Progress(round, applied, acked, k)
          case Banning(group, enable, _) => k > 0 && Awaits(round, applied, acked, k - 1, group, enable))
  }

  lemma DistinctIsUnlisted(plans: seq<Plan>, k: nat)
    requires Distinct(plans) && k < |plans|
    ensures !Listed(plans, k, plans[k].group) && Listed(plans, k + 1, plans[k].group)
  {
  }

  lemma VisitKeepsProgress(round: Round, applied: Applied, acked: map<Group, seq<bool>>, k: nat)
    requires Distinct(round.plans) && k < |round.plans| && Progress(round, applied, acked, k)
    requires Due(applied, round.plans[k]) == []
    ensures var p := round.plans[k];
            Progress(round, if LeftAlone(applied, p) then applied[p.group := false] else applied, acked, k + 1)
  {
    var p := round.plans[k];
    var next := if LeftAlone(applied, p) then applied[p.group := false] else applied;
    DistinctIsUnlisted(round.plans, k);
    assert Untouched(round, applied, acked, p.group);
    forall i | 0 <= i < k ensures Visited(round, next, acked, round.plans[i]) {
      assert Visited(round, applied, acked, round.plans[i]) && round.plans[i].group != p.group;
    }
    forall g: Group ensures Untouched(round, next, acked, g) || Listed(round.plans, k + 1, g) {
      assert Untouched(round, applied, acked, g) || Listed(round.plans, k, g);
    }
  }

  /** A sweep over the groups still to visit keeps a tick on track. */
  lemma {:induction false} SweepOnTrack(round: Round, applied: Applied, acked: map<Group, seq<bool>>, k: nat, g: nat)
    requires Distinct(round.plans) && k <= |round.plans| && Progress(round, applied, acked, k)
    ensures var s := SweepFrom(applied, round.plans[k..]); OnTrack(round, s.applied, acked, TickAfter(g, s))
    decreases |round.plans| - k
  {
    if k < |round.plans| {
      var p := round.plans[k];
      assert round.plans[k..][0] == p && round.plans[k..][1..] == round.plans[k + 1..];
      if Due(applied, p) == [] {
        VisitKeepsProgress(round, applied, acked, k);
        SweepOnTrack(round, if LeftAlone(applied, p) then applied[p.group := false] else applied, acked, k + 1, g);
      } else {
        SendOnTrack(round, applied, acked, k, g);
      }
    }
  }

  lemma SendOnTrack(round: Round, applied: Applied, acked: map<Group, seq<bool>>, k: nat, g: nat)
    requires Distinct(round.plans) && k < |round.plans| && Progress(round, applied, acked, k)
    requires Due(applied, round.plans[k]) != []
    ensures var p := round.plans[k];
            OnTrack(round, applied, acked,
                    Some(Tick(g, round.plans[k + 1..], Banning(p.group, Desired(p), Recorded(applied, p.group)))))
  {
    var p := round.plans[k];
    DistinctIsUnlisted(round.plans, k);
    assert Untouched(round, applied, acked, p.group);
    assert Awaits(round, applied, acked, k, p.group, Desired(p));
  }

  /** The answer to the call that is out makes its group a visited one. */
  lemma AnswerOnTrack(round: Round, applied: Applied, acked: map<Group, seq<bool>>, k: nat, group: Group, enable: bool,
                      ok: bool)
    requires Distinct(round.plans) && Awaits(round, applied, acked, k, group, enable)
    ensures if ok then
              Progress(round, applied[group := enable], acked[group := Acks(acked, group) + [enable]], k + 1)
            else
              Progress(round.(failed := round.failed + {group}), applied, acked, k + 1)
  {
    DistinctIsUnlisted(round.plans, k);
    assert Untouched(round, applied, acked, group);
    var after := if ok then round else round.(failed := round.failed + {group});
    var nextApplied := if ok then applied[group := enable] else applied;
    var nextAcked := if ok then acked[group := Acks(acked, group) + [enable]] else acked;
    forall i | 0 <= i < k ensures Visited(after, nextApplied, nextAcked, round.plans[i]) {
      assert Visited(round, applied, acked, round.plans[i]) && round.plans[i].group != group;
    }
    forall g: Group ensures Untouched(after, nextApplied, nextAcked, g) || Listed(round.plans, k + 1, g) {
      assert Untouched(round, applied, acked, g) || Listed(round.plans, k, g);
    }
  }

  // ----- leaving the managed set -----

  function GroupsOf(plans: seq<Plan>): set<Group> {
    set p | p in plans :: p.group
  }

  /** How many calls were acknowledged for each group when a tick first found it without curfew again. */
  function MarksAfter(left: map<Group, nat>, acked: map<Group, seq<bool>>, plans: seq<Plan>): map<Group, nat> {
    map g | g in left.Keys + GroupsOf(plans) && g !in ActiveGroups(plans) ::
      if g in left then left[g] else |Acks(acked, g)|
  }

  /** Since then only unmutes were acknowledged, and those only of groups we had muted. */
  predicate MarkOk(left: map<Group, nat>, acked: map<Group, seq<bool>>, g: Group) {
    g in left ==>
      && left[g] <= |Acks(acked, g)|
      && (left[g] == 0 ==> Acks(acked, g) == [])
      && forall i | left[g] <= i < |Acks(acked, g)| :: !Acks(acked, g)[i]
  }

  /** A live tick calls such a group only to lift a mute of ours. */
  predicate Spares(tick: Option<Tick>, left: map<Group, nat>) {
    tick.Some? ==>
      && ActiveGroups(tick.value.rest) !! left.Keys
      && (tick.value.wait.Banning? && tick.value.wait.group in left ==>
            !tick.value.wait.enable && tick.value.wait.prev == Some(true))
  }

  lemma {:induction false} SweepSpares(applied: Applied, plans: seq<Plan>, left: map<Group, nat>, g: nat)
    requires ActiveGroups(plans) !! left.Keys
    ensures Spares(TickAfter(g, SweepFrom(applied, plans)), left)
    decreases |plans|
  {
    if plans != [] {
      var p := plans[0];
      forall q | q in plans[1..] ensures q in plans {
      }
      assert ActiveGroups(plans[1..]) <= ActiveGroups(plans);
      if LeftAlone(applied, p) {
        SweepSpares(applied[p.group := false], plans[1..], left, g);
      } else if Recorded(applied, p.group) == Some(Desired(p)) {
        SweepSpares(applied, plans[1..], left, g);
      } else if p.active {
        assert p.group in ActiveGroups(plans);
      }
    }
  }

  lemma MarksSurvive(left: map<Group, nat>, acked: map<Group, seq<bool>>, group: Group, enable: bool,
                     after: map<Group, seq<bool>>)
    requires (forall g :: MarkOk(left, acked, g)) && (group in left ==> !enable && Acks(acked, group) != [])
    requires after == acked[group := Acks(acked, group) + [enable]]
    ensures forall g :: MarkOk(left, after, g)
  {
    forall g ensures MarkOk(left, after, g) {
      assert MarkOk(left, acked, g);
      assert g != group ==> Acks(after, g) == Acks(acked, g);
    }
  }

  /** A tick is on track, and calls no group that left but to lift a mute of ours. */
  ghost predicate OnCourse(running: bool, round: Round, applied: Applied, acked: map<Group, seq<bool>>,
                           tick: Option<Tick>, left: map<Group, nat>) {
    && (running && Distinct(round.plans) ==> OnTrack(round, applied, acked, tick))
    && (forall g :: MarkOk(left, acked, g))
    && Spares(tick, left)
  }

  /** Everything before these plans is visited, and they mute nobody who left. */
  ghost predicate CanVisit(running: bool, round: Round, applied: Applied, acked: map<Group, seq<bool>>,
                           plans: seq<Plan>, left: map<Group, nat>) {
    && (running && Distinct(round.plans) ==>
          && |plans| <= |round.plans| && round.plans[|round.plans| - |plans|..] == plans
          && Progress(round, applied, acked, |round.plans| - |plans|))
    && (forall g :: MarkOk(left, acked, g))
    && ActiveGroups(plans) !! left.Keys
  }

  lemma SweepStaysOnCourse(round: Round, applied: Applied, acked: map<Group, seq<bool>>, plans: seq<Plan>,
                           left: map<Group, nat>, g: nat)
    requires CanVisit(true, round, applied, acked, plans, left)
    ensures var s := SweepFrom(applied, plans); OnCourse(true, round, s.applied, acked, TickAfter(g, s), left)
  {
    SweepSpares(applied, plans, left, g);
    if Distinct(round.plans) {
      SweepOnTrack(round, applied, acked, |round.plans| - |plans|, g);
    }
  }

  lemma AnswerLetsVisit(running: bool, round: Round, applied: Applied, acked: map<Group, seq<bool>>, t: Tick,
                        left: map<Group, nat>, ok: bool)
    requires OnCourse(running, round, applied, acked, Some(t), left) && t.wait.Banning?
    requires RecordAgrees(applied, acked, t.wait.group) && Recorded(applied, t.wait.group) == t.wait.prev
    ensures var w := t.wait;
            if ok then
              CanVisit(running, round, applied[w.group := w.enable],
                       acked[w.group := Acks(acked, w.group) + [w.enable]], t.rest, left)
            else
              CanVisit(running, round.(failed := round.failed + {w.group}), applied, acked, t.rest, left)
  {
    var w := t.wait;
    if running && Distinct(round.plans) {
      AnswerOnTrack(round, applied, acked, |round.plans| - |t.rest| - 1, w.group, w.enable, ok);
    }
    if ok {
      MarksSurvive(left, acked, w.group, w.enable, acked[w.group := Acks(acked, w.group) + [w.enable]]);
    }
  }

  /** Acknowledgements alternate, so after a mute at most one unmute can follow while no mute does. */
  lemma AtMostOneUnmute(acks: seq<bool>, from: nat)
    requires Alternates(acks) && from <= |acks| && forall i | from <= i < |acks| :: !acks[i]
    ensures |acks| <= from + 1
    ensures from < |acks| && from > 0 ==> acks[from - 1]
  {
    if from < |acks| {
      if from > 0 {
        Differs(acks, from);
      }
      if from + 1 < |acks| {
        Differs(acks, from + 1);
      }
    }
  }

  lemma Differs(acks: seq<bool>, i: nat)
    requires Alternates(acks) && 0 < i < |acks|
    ensures acks[i] != acks[i - 1]
  {
  }

  /** The groups that calls unmute, as far as they unmute at all. */
  function UnmutedBy(calls: seq<Call>): set<Group> {
    set c | c in calls && !c.enable :: c.group
  }

  lemma UnmutesOneMore(calls: seq<Call>, c: Call)
    requires !c.enable
    ensures UnmutedBy(calls + [c]) == UnmutedBy(calls) + {c.group}
  {
    assert c in calls + [c];
    forall d | d in calls ensures d in calls + [c] {
    }
  }

  /** One shutdown call per group. */
  method UnmuteEach(groups: set<Group>) returns (sent: seq<Call>)
    ensures |sent| == |groups| && UnmutedBy(sent) == groups
    ensures forall c | c in sent :: c == Call(c.group, false, Some(true), false)
  {
    sent := [];
    var left := groups;
    while left != {}
      invariant left <= groups && |sent| == |groups| - |left| && UnmutedBy(sent) == groups - left
      invariant forall c | c in sent :: c == Call(c.group, false, Some(true), false)
      decreases left
    {
      var g :| g in left;
      UnmutesOneMore(sent, Call(g, false, Some(true), false));
      sent := sent + [Call(g, false, Some(true), false)];
      left := left - {g};
    }
  }

  lemma SentIsOk(calls: seq<Call>, s: Sweep, managed: set<Group>)
    requires forall i | 0 <= i < |calls| :: CallOk(calls[i], managed)
    requires s.Sends? ==> Recorded(s.applied, s.group) != Some(s.enable) && s.group in managed
    ensures forall i | 0 <= i < |calls + SentBy(s)| :: CallOk((calls + SentBy(s))[i], managed)
  {
  }

  /** Records and acknowledgements agree, calls were allowed, and every mute of ours is recorded or known to be left. */
  ghost predicate Agreeing(applied: Applied, acked: map<Group, seq<bool>>, calls: seq<Call>, managed: set<Group>,
                           mutes: set<Group>, unlifted: set<Group>) {
    && (forall g :: RecordAgrees(applied, acked, g))
    && (forall i | 0 <= i < |calls| :: CallOk(calls[i], managed))
    && Muted(applied) <= managed
    && mutes <= Muted(applied) + unlifted
  }

  lemma SweepStaysAgreeing(applied: Applied, acked: map<Group, seq<bool>>, calls: seq<Call>, managed: set<Group>,
                           mutes: set<Group>, unlifted: set<Group>, plans: seq<Plan>)
    requires Agreeing(applied, acked, calls, managed, mutes, unlifted) && ActiveGroups(plans) <= managed
    ensures var s := SweepFrom(applied, plans);
            && Agreeing(s.applied, acked, calls + SentBy(s), managed, mutes, unlifted)
            && (s.Sends? ==>
                  && Recorded(s.applied, s.group) != Some(s.enable) && s.group in managed
                  && ActiveGroups(s.rest) <= managed)
  {
    SweepKeeps(applied, plans, acked, managed);
    SentIsOk(calls, SweepFrom(applied, plans), managed);
  }

  lemma UnmutesAreOk(calls: seq<Call>, sent: seq<Call>, managed: set<Group>)
    requires forall i | 0 <= i < |calls| :: CallOk(calls[i], managed)
    requires (forall c | c in sent :: c == Call(c.group, false, Some(true), false)) && UnmutedBy(sent) <= managed
    ensures forall i | 0 <= i < |calls + sent| :: CallOk((calls + sent)[i], managed)
  {
    forall i | 0 <= i < |sent| ensures CallOk(sent[i], managed) {
      assert sent[i] in sent && sent[i].group in UnmutedBy(sent);
    }
  }

  class Scheduler {
    var running: bool
    var generation: nat
    var startEpoch: nat
    /** The generation the interval timer and the configuration listener were created for. */
    var timer: Option<nat>
    /** The tick promise, with the tick behind it. */
    var tick: Option<Tick>
    var stopping: Option<Stopping>
    var pending: seq<Pending>
    var lastApplied: Applied

    /** Every whole-group ban call sent. */
    ghost var calls: seq<Call>
    /** Per group, the states acknowledged since the records were last cleared. */
    ghost var acked: map<Group, seq<bool>>
    /** Groups that were under curfew in some tick. */
    ghost var managed: set<Group>
    /** Groups whose last acknowledged call muted them. */
    ghost var mutes: set<Group>
    /** Groups whose unmute failed during a shutdown. */
    ghost var unlifted: set<Group>
    ghost var round: Round
    /** Groups without curfew, with the calls acknowledged when they were first found so. */
    ghost var left: map<Group, nat>

    ghost predicate Consistent()
      reads this`lastApplied, this`acked, this`calls, this`managed, this`mutes, this`unlifted
    {
      Agreeing(lastApplied, acked, calls, managed, mutes, unlifted)
    }

    ghost predicate Ordered()
      reads this`running, this`generation, this`startEpoch, this`timer, this`stopping, this`pending
    {
      && (running ==> timer == Some(generation))
      && (!running ==> timer.None?)
      && (stopping.Some? ==> !running)
      && (forall i | 0 <= i < |pending| :: pending[i].epoch <= startEpoch)
      && (forall i | 0 <= i < |pending| && pending[i].ready && pending[i].epoch == startEpoch ::
            !running && stopping.None?)
      && (forall i | 0 <= i < |pending| && !pending[i].ready :: stopping.Some?)
      && (forall i, j | 0 <= i < j < |pending| :: pending[i].epoch != pending[j].epoch)
    }

    /** At most one tick lives, it belongs to the running generation, and only a draining shutdown outlives it. */
    ghost predicate Exclusive()
      reads this`tick, this`running, this`generation, this`stopping, this`managed, this`lastApplied
    {
      match tick
      case None => true
      case Some(t) =>
        && (running ==> t.generation == generation)
        && (!running ==> stopping == Some(Draining) && t.generation != generation)
        && t.generation <= generation
        && ActiveGroups(t.rest) <= managed
        && (t.wait.Banning? ==>
              Recorded(lastApplied, t.wait.group) == t.wait.prev && t.wait.prev != Some(t.wait.enable)
              && t.wait.group in managed)
    }

    ghost predicate Tracked()
      reads this`running, this`tick, this`lastApplied, this`acked, this`round, this`left
    {
      OnCourse(running, round, lastApplied, acked, tick, left)
    }

    /** Every group of the latest tick is under curfew or marked. */
    ghost predicate Marked()
      reads this`running, this`round, this`left
    {
      running ==> GroupsOf(round.plans) <= left.Keys + ActiveGroups(round.plans)
    }

    ghost predicate Valid()
      reads this
    {
      && Consistent()
      && Ordered()
      && Exclusive()
      && Tracked()
      && Marked()
      && (stopping.Some? && stopping.value.Lifting? ==>
            tick.None? && stopping.value.outstanding <= Muted(lastApplied) <= stopping.value.outstanding + unlifted)
    }

    constructor ()
      ensures Valid() && !running && stopping.None? && mutes == {} && calls == [] && acked == map[] && left == map[]
      ensures pending == [] && tick.None? && lastApplied == map[] && unlifted == {} && managed == {} && startEpoch == 0
    {
      running, generation, startEpoch := false, 0, 0;
      timer, tick, stopping, pending, lastApplied := None, None, None, [], map[];
      calls, acked, managed, mutes, unlifted := [], map[], {}, {}, {};
      round, left := Round([], map[], map[], {}), map[];
    }

    predicate IsCurrent(g: nat)
      reads this
    {
      running && g == generation
    }

    /** The loop over the groups still to visit, up to the next call. */
    method Visit(g: nat, plans: seq<Plan>)
      requires IsCurrent(g)
      modifies this`tick, this`lastApplied, this`calls
      ensures var s := SweepFrom(old(lastApplied), plans);
              lastApplied == s.applied && tick == TickAfter(g, s) && calls == old(calls) + SentBy(s)
      // What the tick awaits is the answer to the one call that was sent.
      ensures if tick.None? then calls == old(calls) else
                && tick.value.generation == g && tick.value.wait.Banning?
                && calls == old(calls) + [Call(tick.value.wait.group, tick.value.wait.enable, tick.value.wait.prev, true)]
    {
      var i := 0;
      while i < |plans|
        invariant 0 <= i <= |plans| && calls == old(calls)
        invariant SweepFrom(old(lastApplied), plans) == SweepFrom(lastApplied, plans[i..])
      {
        var p := plans[i];
        assert plans[i..][1..] == plans[i + 1..];
        i := i + 1;
        var desired := false;
        if p.active {
          desired := p.inWindow;
        } else if Recorded(lastApplied, p.group) != Some(true) {
          lastApplied := lastApplied[p.group := false];
          continue;
        }
        if Recorded(lastApplied, p.group) != Some(desired) {
          var prev := Recorded(lastApplied, p.group);
          calls := calls + [Call(p.group, desired, prev, true)];
          tick := Some(Tick(g, plans[i..], Banning(p.group, desired, prev)));
          return;
        }
      }
      tick := None;
    }

    /** Everything before these plans is visited, and they mute nobody who left. */
    ghost predicate CanGoOn(plans: seq<Plan>)
      reads this`running, this`lastApplied, this`acked, this`round, this`left
    {
      CanVisit(running, round, lastApplied, acked, plans, left)
    }

    /** The part of a tick between two awaits: a stale tick ends, a current one goes on. */
    method Advance(g: nat, plans: seq<Plan>)
      requires Consistent() && Ordered() && ActiveGroups(plans) <= managed && g <= generation
      requires !running ==> stopping == Some(Draining)
      requires CanGoOn(plans)
      modifies this`tick, this`lastApplied, this`calls
      ensures Consistent() && Ordered() && Exclusive() && (IsCurrent(g) || !running ==> Tracked())
      ensures !IsCurrent(g) ==> tick.None? && lastApplied == old(lastApplied) && calls == old(calls)
      ensures IsCurrent(g) ==>
                var s := SweepFrom(old(lastApplied), plans);
                lastApplied == s.applied && tick == TickAfter(g, s) && calls == old(calls) + SentBy(s)
    {
      if IsCurrent(g) {
        GoOn(g, plans);
      } else {
        tick := None;
      }
    }

    method GoOn(g: nat, plans: seq<Plan>)
      requires Consistent() && ActiveGroups(plans) <= managed && IsCurrent(g) && CanGoOn(plans)
      modifies this`tick, this`lastApplied, this`calls
      ensures Consistent() && Exclusive() && Tracked()
      ensures var s := SweepFrom(old(lastApplied), plans);
              lastApplied == s.applied && tick == TickAfter(g, s) && calls == old(calls) + SentBy(s)
    {
      SweepStaysAgreeing(lastApplied, acked, calls, managed, mutes, unlifted, plans);
      SweepStaysOnCourse(round, lastApplied, acked, plans, left, g);
      Visit(g, plans);
    }

    /** An acknowledged call takes effect and is recorded. */
    method Record(g: Group, enable: bool)
      requires Consistent() && Recorded(lastApplied, g) != Some(enable) && g in managed
      modifies this`lastApplied, this`acked, this`mutes, this`unlifted
      ensures Consistent() && lastApplied == old(lastApplied)[g := enable]
      ensures acked == old(acked)[g := Acks(old(acked), g) + [enable]]
      ensures mutes == if enable then old(mutes) + {g} else old(mutes) - {g}
      ensures unlifted == if enable then old(unlifted) else old(unlifted) - {g}
    {
      ghost var was, ackedWas := lastApplied, acked;
      MutedAfter(lastApplied, g, enable);
      lastApplied := lastApplied[g := enable];
      acked := acked[g := Acks(acked, g) + [enable]];
      mutes := if enable then mutes + {g} else mutes - {g};
      unlifted := if enable then unlifted else unlifted - {g};
      AcknowledgedAgrees(was, ackedWas, g, enable, lastApplied, acked);
    }

    /** What an answer means for the records: an acknowledged call counts, and a failed one marks its group as failed. */
    method TakeAnswer(ok: bool)
      requires Valid() && tick.Some? && tick.value.wait.Banning?
      modifies this`lastApplied, this`acked, this`mutes, this`unlifted, this`round
      ensures Consistent() && CanGoOn(tick.value.rest) && Marked()
      ensures unlifted <= old(unlifted)
      ensures var w := tick.value.wait;
              && lastApplied == (if ok then old(lastApplied)[w.group := w.enable] else old(lastApplied))
              && acked == (if ok then old(acked)[w.group := Acks(old(acked), w.group) + [w.enable]] else old(acked))
              && round == (if ok then old(round) else old(round).(failed := old(round).failed + {w.group}))
              && mutes == if !ok then old(mutes) else if w.enable then old(mutes) + {w.group} else old(mutes) - {w.group}
    {
      var t := tick.value;
      var w := t.wait;
      assert RecordAgrees(lastApplied, acked, w.group);
      AnswerLetsVisit(running, round, lastApplied, acked, t, left, ok);
      if ok {
        Record(w.group, w.enable);
      } else {
        round := round.(failed := round.failed + {w.group});
      }
    }

    /** The provider answers the tick's call. */
    method BanAnswered(ok: bool)
      requires Valid() && tick.Some? && tick.value.wait.Banning?
      modifies this`tick, this`lastApplied, this`calls, this`acked, this`mutes, this`unlifted, this`round
      ensures Valid() && unlifted <= old(unlifted)
      ensures var w := old(tick.value.wait);
              round == if ok then old(round) else old(round).(failed := old(round).failed + {w.group})
      ensures var w := old(tick.value.wait);
              acked == if ok then old(acked)[w.group := Acks(old(acked), w.group) + [w.enable]] else old(acked)
      ensures var w := old(tick.value.wait);
              mutes == if !ok then old(mutes) else if w.enable then old(mutes) + {w.group} else old(mutes) - {w.group}
      ensures var w := old(tick.value.wait);
              var recorded := if ok then old(lastApplied)[w.group := w.enable] else old(lastApplied);
              var announced := ok && running && ((w.enable && w.prev.Some?) || w.prev == Some(true));
              if !running || announced then
                && lastApplied == recorded && calls == old(calls)
                && tick == if announced then Some(old(tick.value).(wait := Announcing)) else None
              else
                var s := SweepFrom(recorded, old(tick.value.rest));
                && lastApplied == s.applied && calls == old(calls) + SentBy(s)
                && tick == TickAfter(generation, s)
    {
      TakeAnswer(ok);
      AfterAnswer(ok);
    }

    /** A known transition is announced; otherwise the tick goes on at once. */
    method AfterAnswer(ok: bool)
      requires Consistent() && Ordered() && Marked() && tick.Some? && tick.value.wait.Banning?
      requires CanGoOn(tick.value.rest) && ActiveGroups(tick.value.rest) <= managed
      requires if running then tick.value.generation == generation
               else stopping == Some(Draining) && tick.value.generation < generation
      modifies this`tick, this`lastApplied, this`calls
      ensures Valid()
      ensures var w := old(tick.value.wait);
              var announced := ok && running && ((w.enable && w.prev.Some?) || w.prev == Some(true));
              if !running || announced then
                && lastApplied == old(lastApplied) && calls == old(calls)
                && tick == if announced then Some(old(tick.value).(wait := Announcing)) else None
              else
                var s := SweepFrom(old(lastApplied), old(tick.value.rest));
                && lastApplied == s.applied && calls == old(calls) + SentBy(s)
                && tick == TickAfter(generation, s)
    {
      var t := tick.value;
      var w := t.wait;
      if ok && IsCurrent(t.generation) && ((w.enable && w.prev.Some?) || w.prev == Some(true)) {
        tick := Some(t.(wait := Announcing));
        return;
      }
      Advance(t.generation, t.rest);
    }

    /** The announcement is over, delivered or not. */
    method Announced()
      requires Valid() && tick.Some? && tick.value.wait.Announcing?
      modifies this`tick, this`lastApplied, this`calls
      ensures Valid()
      ensures !running ==> tick.None? && calls == old(calls) && lastApplied == old(lastApplied)
      ensures running ==>
                var s := SweepFrom(old(lastApplied), old(tick.value.rest));
                lastApplied == s.applied && tick == TickAfter(generation, s) && calls == old(calls) + SentBy(s)
    {
      Advance(tick.value.generation, tick.value.rest);
    }

    /** Starts a tick for a generation unless one is live. */
    method ScheduleTick(g: nat, plans: seq<Plan>)
      requires Valid() && g <= generation
      modifies this`tick, this`lastApplied, this`calls, this`managed, this`round, this`left
      ensures Valid()
      ensures !old(IsCurrent(g)) || old(tick).Some? ==>
                && tick == old(tick) && lastApplied == old(lastApplied) && calls == old(calls)
                && managed == old(managed) && round == old(round) && left == old(left)
      ensures old(IsCurrent(g)) && old(tick).None? ==>
                var s := SweepFrom(old(lastApplied), plans);
                && lastApplied == s.applied && tick == TickAfter(g, s) && calls == old(calls) + SentBy(s)
                && managed == old(managed) + ActiveGroups(plans)
                && round == Round(plans, old(lastApplied), acked, {})
                && left == MarksAfter(old(left), acked, plans)
    {
      if !IsCurrent(g) || tick.Some? {
        return;
      }
      StartRound(plans);
      Advance(g, plans);
    }

    /** Nothing is visited yet, and groups without curfew are marked. */
    ghost method StartRound(plans: seq<Plan>)
      requires Valid()
      modifies this`managed, this`round, this`left
      ensures Consistent() && CanGoOn(plans) && Marked()
      ensures managed == old(managed) + ActiveGroups(plans) && round == Round(plans, lastApplied, acked, {})
      ensures left == MarksAfter(old(left), acked, plans)
    {
      managed := managed + ActiveGroups(plans);
      round := Round(plans, lastApplied, acked, {});
      left := MarksAfter(left, acked, plans);
      forall h ensures MarkOk(left, acked, h) {
        assert MarkOk(old(left), acked, h);
      }
      assert plans[0..] == plans;
    }

    /** The interval timer or a configuration change. */
    method Fire(plans: seq<Plan>)
      requires Valid() && timer.Some?
      modifies this`tick, this`lastApplied, this`calls, this`managed, this`round, this`left
      ensures Valid()
      ensures old(tick).Some? ==>
                && tick == old(tick) && lastApplied == old(lastApplied) && calls == old(calls)
                && managed == old(managed) && round == old(round) && left == old(left)
      ensures old(tick).None? ==>
                var s := SweepFrom(old(lastApplied), plans);
                && lastApplied == s.applied && tick == TickAfter(generation, s) && calls == old(calls) + SentBy(s)
                && managed == old(managed) + ActiveGroups(plans)
                && round == Round(plans, old(lastApplied), acked, {})
                && left == MarksAfter(old(left), acked, plans)
    {
      ScheduleTick(timer.value, plans);
    }

    // ----- stopping -----

    /** Exactly one unmute for each of these groups was sent, and nothing else. */
    static ghost predicate Lifts(before: seq<Call>, after: seq<Call>, groups: set<Group>) {
      && before <= after && |after| == |before| + |groups|
      && UnmutedBy(after[|before|..]) == groups
      && forall c | c in after[|before|..] :: !c.enable
    }

    /** Sends an unmute for every group still recorded as muted. */
    method StartLifting()
      requires Consistent() && Ordered() && Tracked() && tick.None? && !running
      requires forall i | 0 <= i < |pending| && pending[i].ready :: pending[i].epoch != startEpoch
      modifies this`stopping, this`calls
      ensures Valid() && stopping == Some(Lifting(Muted(lastApplied)))
      ensures Lifts(old(calls), calls, Muted(lastApplied))
    {
      var sent := UnmuteEach(Muted(lastApplied));
      stopping := Some(Lifting(Muted(lastApplied)));
      ghost var was := calls;
      UnmutesAreOk(calls, sent, managed);
      calls := calls + sent;
      assert calls[..|was|] == was && calls[|was|..] == sent;
    }

    method BeginStop()
      requires Consistent() && Ordered() && Exclusive() && Tracked()
      requires stopping.Some? && stopping.value.Lifting? ==>
                 tick.None? && stopping.value.outstanding <= Muted(lastApplied) <= stopping.value.outstanding + unlifted
      requires forall i | 0 <= i < |pending| && pending[i].ready :: pending[i].epoch != startEpoch
      modifies this`running, this`generation, this`timer, this`stopping, this`calls
      ensures Valid() && !running && stopping.Some?
      // A shutdown under way goes on, a live tick is drained first, and otherwise every mute of ours is lifted at once.
      ensures if old(stopping).Some? then stopping == old(stopping) && calls == old(calls)
              else if tick.Some? then stopping == Some(Draining) && calls == old(calls)
              else stopping == Some(Lifting(Muted(lastApplied))) && Lifts(old(calls), calls, Muted(lastApplied))
    {
      if stopping.Some? {
        return;
      }
      Halt();
      if tick.Some? {
        stopping := Some(Draining);
      } else {
        StartLifting();
      }
    }

    /** Retires the running generation: its timer is gone and its tick is stale. */
    method Halt()
      requires Ordered() && stopping.None?
      requires forall i | 0 <= i < |pending| && pending[i].ready :: pending[i].epoch != startEpoch
      modifies this`running, this`generation, this`timer
      ensures Ordered() && !running && timer.None? && generation == old(generation) + 1
    {
      running := false;
      generation := generation + 1;
      timer := None;
    }

    /** The draining tick is over: a turn of the shutdown task. */
    method ProceedStop()
      requires Valid() && stopping == Some(Draining) && tick.None?
      modifies this`stopping, this`calls
      ensures Valid() && stopping == Some(Lifting(Muted(lastApplied))) && Lifts(old(calls), calls, Muted(lastApplied))
    {
      StartLifting();
    }

    /** One unmute of the shutdown is acknowledged, fails, or misses the deadline. */
    method LiftAnswered(g: Group, ok: bool)
      requires Valid() && stopping.Some? && stopping.value.Lifting? && g in stopping.value.outstanding
      modifies this`stopping, this`lastApplied, this`acked, this`mutes, this`unlifted
      ensures Valid() && stopping == Some(Lifting(old(stopping.value.outstanding) - {g}))
      ensures Muted(lastApplied) == if ok then Muted(old(lastApplied)) - {g} else Muted(old(lastApplied))
      ensures unlifted == if ok then old(unlifted) - {g} else old(unlifted) + {g}
      ensures mutes == if ok then old(mutes) - {g} else old(mutes)
      ensures acked == if ok then old(acked)[g := Acks(old(acked), g) + [false]] else old(acked)
    {
      stopping := Some(Lifting(stopping.value.outstanding - {g}));
      if ok {
        MutedAfter(lastApplied, g, false);
        assert RecordAgrees(lastApplied, acked, g);
        MarksSurvive(left, acked, g, false, acked[g := Acks(acked, g) + [false]]);
        Record(g, false);
      } else {
        unlifted := unlifted + {g};
      }
    }

    /**
     Every unmute is answered: the records are cleared and whoever waits may go on. No mute of ours is left except
     where the unmute failed, and no tick lives that could add one.
     */
    method FinishStop()
      requires Valid() && stopping == Some(Lifting({}))
      modifies this`stopping, this`lastApplied, this`acked, this`left, this`pending
      ensures Valid() && stopping.None? && !running && tick.None? && lastApplied == map[]
      ensures mutes <= unlifted && acked == map[] && left == map[]
      ensures pending == seq(|old(pending)|, i requires 0 <= i < |old(pending)| => old(pending)[i].(ready := true))
    {
      lastApplied := map[];
      acked := map[];
      left := map[];
      WakeAll();
      assert forall g: Group :: Recorded(lastApplied, g) == None && Acks(acked, g) == [];
    }

    method WakeAll()
      requires Ordered() && !running
      modifies this`stopping, this`pending
      ensures Ordered() && stopping.None?
      ensures pending == seq(|old(pending)|, i requires 0 <= i < |old(pending)| => old(pending)[i].(ready := true))
    {
      var waiting := pending;
      stopping := None;
      pending := seq(|waiting|, i requires 0 <= i < |waiting| => waiting[i].(ready := true));
    }

    method Stop()
      requires Valid()
      modifies this`startEpoch, this`running, this`generation, this`timer, this`stopping, this`calls
      ensures Valid() && !running && stopping.Some? && startEpoch == old(startEpoch) + 1
      // A shutdown under way goes on, a live tick is drained first, and otherwise every mute of ours is lifted at once.
      ensures if old(stopping).Some? then stopping == old(stopping) && calls == old(calls)
              else if tick.Some? then stopping == Some(Draining) && calls == old(calls)
              else stopping == Some(Lifting(Muted(lastApplied))) && Lifts(old(calls), calls, Muted(lastApplied))
    {
      startEpoch := startEpoch + 1;
      BeginStop();
    }

    // ----- starting -----

    /** Stops whatever runs and waits for that. */
    method Init()
      requires Valid()
      modifies this`startEpoch, this`pending, this`running, this`generation, this`timer, this`stopping, this`calls
      ensures Valid() && !running && stopping.Some? && startEpoch == old(startEpoch) + 1
      ensures pending == old(pending) + [Pending(startEpoch, false)]
      // A shutdown under way goes on, a live tick is drained first, and otherwise every mute of ours is lifted at once.
      ensures if old(stopping).Some? then stopping == old(stopping) && calls == old(calls)
              else if tick.Some? then stopping == Some(Draining) && calls == old(calls)
              else stopping == Some(Lifting(Muted(lastApplied))) && Lifts(old(calls), calls, Muted(lastApplied))
    {
      startEpoch := startEpoch + 1;
      BeginStop();
      Enlist();
    }

    method Enlist()
      requires Ordered() && stopping.Some? && forall i | 0 <= i < |pending| :: pending[i].epoch < startEpoch
      modifies this`pending
      ensures Ordered() && pending == old(pending) + [Pending(startEpoch, false)]
    {
      pending := pending + [Pending(startEpoch, false)];
    }

    /** The initialization goes on unless a later start or stop overtook it. */
    method ResumeInit(i: nat, plans: seq<Plan>)
      requires Valid() && i < |pending| && pending[i].ready
      modifies this`pending, this`running, this`generation, this`timer, this`round, this`left, this`managed, this`tick
      modifies this`lastApplied, this`calls
      ensures Valid()
      ensures pending == old(pending)[..i] + old(pending)[i + 1..]
      ensures running <==> old(running) || old(pending[i].epoch == startEpoch)
      ensures if old(pending[i].epoch == startEpoch) then
                var s := SweepFrom(old(lastApplied), plans);
                && generation == old(generation) + 1 && timer == Some(generation)
                && lastApplied == s.applied && tick == TickAfter(generation, s) && calls == old(calls) + SentBy(s)
                && managed == old(managed) + ActiveGroups(plans)
                && round == Round(plans, old(lastApplied), acked, {})
                && left == MarksAfter(old(left), acked, plans)
              else
                && tick == old(tick) && calls == old(calls) && lastApplied == old(lastApplied) && timer == old(timer)
                && managed == old(managed) && round == old(round) && left == old(left) && generation == old(generation)
    {
      var epoch := Leave(i);
      if epoch != startEpoch {
        return;
      }
      Revive();
      ScheduleTick(generation, plans);
    }

    method Leave(i: nat) returns (epoch: nat)
      requires Ordered() && i < |pending|
      modifies this`pending
      ensures Ordered() && epoch == old(pending[i].epoch) && pending == old(pending)[..i] + old(pending)[i + 1..]
      ensures forall j | 0 <= j < |pending| :: pending[j].epoch != epoch
    {
      epoch := pending[i].epoch;
      pending := pending[..i] + pending[i + 1..];
    }

    /** A new generation runs, with nothing visited yet. */
    method Revive()
      requires Valid() && !running && stopping.None?
      requires forall i | 0 <= i < |pending| && pending[i].ready :: pending[i].epoch != startEpoch
      modifies this`running, this`generation, this`timer, this`round
      ensures Valid() && running && generation == old(generation) + 1 && timer == Some(generation)
    {
      running := true;
      generation := generation + 1;
      timer := Some(generation);
      round := Round([], lastApplied, acked, {});
    }
  }

  /**
   In every run, whenever the scheduler is running and no tick lives, each group of the latest tick whose call did not
   fail is recorded as desired, after exactly the acknowledged calls it needed, and no group that is not listed in the
   configuration was touched.
   */
  lemma CompletedTickSettles(scheduler: Scheduler, p: Plan)
    requires scheduler.Valid() && scheduler.running && scheduler.tick.None? && Distinct(scheduler.round.plans)
    ensures p in scheduler.round.plans && p.group !in scheduler.round.failed ==>
              var muted, was := p.active && p.inWindow, Recorded(scheduler.round.applied, p.group);
              && Recorded(scheduler.lastApplied, p.group) == Some(muted)
              && Acks(scheduler.acked, p.group)
                 == Acks(scheduler.round.acked, p.group)
                    + if was == Some(muted) || (!p.active && was == None) then [] else [muted]
    ensures p.group !in GroupsOf(scheduler.round.plans) ==>
              && Recorded(scheduler.lastApplied, p.group) == Recorded(scheduler.round.applied, p.group)
              && Acks(scheduler.acked, p.group) == Acks(scheduler.round.acked, p.group)
  {
    var round := scheduler.round;
    assert Progress(round, scheduler.lastApplied, scheduler.acked, |round.plans|);
    if p in round.plans {
      var i :| 0 <= i < |round.plans| && round.plans[i] == p;
      assert Visited(round, scheduler.lastApplied, scheduler.acked, round.plans[i]);
      DueIsNeeded(round.applied, p);
    }
    if p.group !in GroupsOf(round.plans) {
      forall i | 0 <= i < |round.plans| ensures round.plans[i].group != p.group {
        assert round.plans[i] in round.plans;
      }
      assert !Listed(round.plans, |round.plans|, p.group);
      assert Untouched(round, scheduler.lastApplied, scheduler.acked, p.group);
    }
  }

  /**
   In every run, after a completed tick each group of the configuration whose call did not fail is recorded as muted if
   and only if it was under curfew at the tick's minute.
   */
  lemma MutedIfUnderCurfew(scheduler: Scheduler, configs: seq<GroupConfig>, minute: nat, c: GroupConfig)
    requires scheduler.Valid() && scheduler.running && scheduler.tick.None? && Distinct(scheduler.round.plans)
    requires scheduler.round.plans == PlansOf(configs, minute) && minute < 1440
    requires c in configs && c.group !in scheduler.round.failed
    ensures c.group in scheduler.lastApplied && (scheduler.lastApplied[c.group] <==> UnderCurfew(c, minute))
  {
    var i :| 0 <= i < |configs| && configs[i] == c;
    assert scheduler.round.plans[i] == PlanOf(c, minute);
    CompletedTickSettles(scheduler, PlanOf(c, minute));
    PlannedIfUnderCurfew(c, minute);
  }

  /** A muted group without curfew is unmuted by a tick exactly when the configuration lists it and its call succeeds. */
  lemma LiftedIffListed(scheduler: Scheduler, g: Group)
    requires scheduler.Valid() && scheduler.running && scheduler.tick.None? && Distinct(scheduler.round.plans)
    requires Recorded(scheduler.round.applied, g) == Some(true) && g !in ActiveGroups(scheduler.round.plans)
    ensures Recorded(scheduler.lastApplied, g) == Some(false)
            <==> g in GroupsOf(scheduler.round.plans) && g !in scheduler.round.failed
  {
    var round := scheduler.round;
    if g in GroupsOf(round.plans) {
      var p :| p in round.plans && p.group == g;
      assert !p.active;
      CompletedTickSettles(scheduler, p);
      var i :| 0 <= i < |round.plans| && round.plans[i] == p;
      assert Progress(round, scheduler.lastApplied, scheduler.acked, |round.plans|);
      assert Visited(round, scheduler.lastApplied, scheduler.acked, round.plans[i]);
    } else {
      CompletedTickSettles(scheduler, Plan(g, false, false));
    }
  }

  /** A scheduler whose first initialization may go on. */
  method ReadyToStart() returns (scheduler: Scheduler)
    ensures fresh(scheduler) && scheduler.Valid() && scheduler.lastApplied == map[]
    ensures scheduler.pending == [Pending(scheduler.startEpoch, true)]
  {
    scheduler := new Scheduler();
    scheduler.Init();
    assert Muted(map[]) == {};
    scheduler.FinishStop();
  }

  lemma FirstSweepAsks(g: Group, generation: nat)
    ensures var s := SweepFrom(map[], [Plan(g, true, true)]);
            TickAfter(generation, s) == Some(Tick(generation, [], Banning(g, true, None))) && s.applied == map[]
  {
    assert [Plan(g, true, true)][1..] == [];
  }

  /** A scheduler that has just started and asked for its first mute. */
  method FirstMuteAsked(g: Group) returns (scheduler: Scheduler)
    ensures fresh(scheduler) && scheduler.Valid() && scheduler.running && scheduler.lastApplied == map[]
    ensures scheduler.tick == Some(Tick(scheduler.generation, [], Banning(g, true, None)))
  {
    scheduler := ReadyToStart();
    scheduler.ResumeInit(0, [Plan(g, true, true)]);
    FirstSweepAsks(g, scheduler.generation);
  }

  /** One such run: a group under curfew is muted, taken out of the configuration, and stays muted. */
  method RemovedGroupExample(g: Group) returns (scheduler: Scheduler)
    ensures fresh(scheduler) && scheduler.Valid() && scheduler.running && scheduler.tick.None?
    ensures Recorded(scheduler.round.applied, g) == Some(true) && g !in GroupsOf(scheduler.round.plans)
    ensures Recorded(scheduler.lastApplied, g) == Some(true) && g in scheduler.mutes
  {
    scheduler := FirstMuteAsked(g);
    scheduler.BanAnswered(true);
    scheduler.Fire([]);
  }

  /** Since a group left the managed set, at most one call was acknowledged for it, and that one lifted a mute of ours. */
  lemma OneUnmuteAtMost(scheduler: Scheduler, g: Group)
    requires scheduler.Valid() && g in scheduler.left
    ensures var acks, from := Acks(scheduler.acked, g), scheduler.left[g];
            && from <= |acks| <= from + 1
            && (from < |acks| ==> acks[from..] == [false] && from > 0 && acks[from - 1])
  {
    var acks, from := Acks(scheduler.acked, g), scheduler.left[g];
    assert MarkOk(scheduler.left, scheduler.acked, g);
    assert RecordAgrees(scheduler.lastApplied, scheduler.acked, g);
    AtMostOneUnmute(acks, from);
  }

  /**
   Once a tick has completed in which its calls did not fail, a group that left the managed set has had exactly one
   acknowledged unmute since if it was muted when it left, and none otherwise; this stays so until it is under curfew
   again or the scheduler has stopped.
   */
  lemma OneUnmuteOnLeaving(scheduler: Scheduler, p: Plan)
    requires scheduler.Valid() && scheduler.running && scheduler.tick.None? && Distinct(scheduler.round.plans)
    requires p in scheduler.round.plans && !p.active && p.group !in scheduler.round.failed
    ensures p.group in scheduler.left
    ensures var acks, from := Acks(scheduler.acked, p.group), scheduler.left[p.group];
            from <= |acks| && acks[from..] == if from > 0 && acks[from - 1] then [false] else []
  {
    assert p.group in GroupsOf(scheduler.round.plans);
    CompletedTickSettles(scheduler, p);
    OneUnmuteAtMost(scheduler, p.group);
    assert RecordAgrees(scheduler.lastApplied, scheduler.acked, p.group);
  }
}
