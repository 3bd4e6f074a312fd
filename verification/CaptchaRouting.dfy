/** Which of a user's open captcha sessions a private message answers. */
module CaptchaRouting {
  import opened Prelude

  const CHALLENGE_CODE_LENGTH: nat := 10

  /** An open session as far as answers go: its code and its stored answer. */
  datatype Challenge = Challenge(code: string, answer: string)

  /** A session by its place among the open ones, and the answer given to it. */
  datatype Choice = Choice(session: nat, answer: string)

  // ----- white space -----

  /** What a regular expression calls white space, which is also what trimming removes. */
  predicate IsSpace(c: char) {
    || '\t' <= c <= '\r' || c == ' ' || c == '\U{00A0}' || c == '\U{1680}' || '\U{2000}' <= c <= '\U{200A}'
    || c == '\U{2028}' || c == '\U{2029}' || c == '\U{202F}' || c == '\U{205F}' || c == '\U{3000}' || c == '\U{FEFF}'
  }

  predicate Blank(s: string) {
    forall c | c in s :: IsSpace(c)
  }

  predicate Trimmed(s: string) {
    s == "" || (!IsSpace(s[0]) && !IsSpace(s[|s| - 1]))
  }

  function TrimStart(s: string): string {
    if s != "" && IsSpace(s[0]) then TrimStart(s[1..]) else s
  }

  function TrimEnd(s: string): string {
    if s != "" && IsSpace(s[|s| - 1]) then TrimEnd(s[..|s| - 1]) else s
  }

  function Trim(s: string): string {
    TrimEnd(TrimStart(s))
  }

  lemma {:induction false} TrimStartDrops(before: string, rest: string)
    requires Blank(before) && (rest == "" || !IsSpace(rest[0]))
    ensures TrimStart(before + rest) == rest
    decreases |before|
  {
    if before == "" {
      assert before + rest == rest;
    } else {
      assert (before + rest)[1..] == before[1..] + rest;
      TrimStartDrops(before[1..], rest);
    }
  }

  lemma {:induction false} TrimEndDrops(rest: string, after: string)
    requires Blank(after) && (rest == "" || !IsSpace(rest[|rest| - 1]))
    ensures TrimEnd(rest + after) == rest
    decreases |after|
  {
    if after == "" {
      assert rest + after == rest;
    } else {
      assert (rest + after)[..|rest + after| - 1] == rest + after[..|after| - 1];
      TrimEndDrops(rest, after[..|after| - 1]);
    }
  }

  lemma {:induction false} TrimStartSplits(s: string) returns (before: string)
    ensures s == before + TrimStart(s) && Blank(before)
    ensures TrimStart(s) == "" || !IsSpace(TrimStart(s)[0])
    decreases |s|
  {
    before := "";
    if s != "" && IsSpace(s[0]) {
      before := TrimStartSplits(s[1..]);
      before := [s[0]] + before;
    }
  }

  lemma {:induction false} TrimEndSplits(s: string) returns (after: string)
    ensures s == TrimEnd(s) + after && Blank(after)
    ensures TrimEnd(s) == "" || !IsSpace(TrimEnd(s)[|TrimEnd(s)| - 1])
    decreases |s|
  {
    after := "";
    if s != "" && IsSpace(s[|s| - 1]) {
      after := TrimEndSplits(s[..|s| - 1]);
      after := after + [s[|s| - 1]];
    }
  }

  /** Trimming a trimmed core out of blank surroundings finds the core. */
  lemma TrimFinds(before: string, core: string, after: string)
    requires Blank(before) && Trimmed(core) && Blank(after)
    ensures Trim(before + core + after) == core
  {
    if core == "" {
      assert before + core + after == (before + after) + "";
      TrimStartDrops(before + after, "");
    } else {
      assert before + core + after == before + (core + after);
      TrimStartDrops(before, core + after);
      TrimEndDrops(core, after);
    }
  }

  /** Trimming takes blanks off both ends and stops at the first character that is none. */
  lemma TrimSplits(s: string) returns (before: string, after: string)
    ensures s == before + Trim(s) + after && Blank(before) && Blank(after) && Trimmed(Trim(s))
  {
    before := TrimStartSplits(s);
    after := TrimEndSplits(TrimStart(s));
    assert Trim(s) != "" ==> Trim(s)[0] == TrimStart(s)[0];
  }

  lemma TrimIsIdempotent(s: string)
    ensures Trim(Trim(s)) == Trim(s)
  {
    var before, after := TrimSplits(s);
    TrimFinds("", Trim(s), "");
    assert "" + Trim(s) + "" == Trim(s);
  }

  function FirstSpace(s: string): (i: nat)
    ensures i <= |s| && (forall k | 0 <= k < i :: !IsSpace(s[k])) && (i < |s| ==> IsSpace(s[i]))
  {
    if s == "" || IsSpace(s[0]) then 0 else 1 + FirstSpace(s[1..])
  }

  // ----- codes -----

  predicate IsHex(c: char) {
    '0' <= c <= '9' || 'a' <= c <= 'f' || 'A' <= c <= 'F'
  }

  predicate IsCode(code: string) {
    |code| == CHALLENGE_CODE_LENGTH && forall c | c in code :: '0' <= c <= '9' || 'A' <= c <= 'F'
  }

  predicate IsSelector(token: string) {
    |token| == 1 + CHALLENGE_CODE_LENGTH && token[0] == '#' && forall c | c in token[1..] :: IsHex(c)
  }

  function LowerHex(c: char): char {
    if 'A' <= c <= 'F' then (c as int + 32) as char else c
  }

  /** The same code, in whatever case its letters are. */
  predicate SameCode(a: string, b: string) {
    |a| == |b| && forall k | 0 <= k < |a| :: LowerHex(a[k]) == LowerHex(b[k])
  }

  lemma CodesDiffer(a: string, b: string, supplied: string)
    requires IsCode(a) && IsCode(b) && SameCode(a, supplied) && SameCode(b, supplied)
    ensures a == b
  {
    forall k | 0 <= k < |a| ensures a[k] == b[k] {
      assert a[k] in a && b[k] in b;
    }
  }

  /** Codes are ten upper-case digits of base sixteen. */
  lemma CodeExamples()
    ensures IsCode("ABCDEF0123") && !IsCode("abcdef0123") && !IsCode("012345678")
  {
    assert "abcdef0123"[0] == 'a' && "abcdef0123"[0] in "abcdef0123";
  }

  /** Selectors take them in either case. */
  lemma SelectorExamples()
    ensures IsSelector("#abcDEF0123") && !IsSelector("#abcdef012") && !IsSelector("#gbcdef0123")
  {
    assert "#abcDEF0123"[1..] == "abcDEF0123" && "#gbcdef0123"[1..] == "gbcdef0123";
    assert "gbcdef0123"[0] == 'g' && "gbcdef0123"[0] in "gbcdef0123";
  }

  lemma CaseExamples()
    ensures SameCode("AF9", "af9") && !SameCode("AF9", "AF8") && !SameCode("AF9", "AF")
  {
    assert "AF9"[2] == '9' && "AF8"[2] == '8';
  }

  function Find(sessions: seq<Challenge>, supplied: string): Option<nat> {
    if sessions == [] then None
    else if SameCode(sessions[0].code, supplied) then Some(0)
    else
      match Find(sessions[1..], supplied)
      case None => None
      case Some(i) => Some(i + 1)
  }

  // ----- choosing -----

  /** Answers are compared by their digests, trimmed and in lower case. */
  predicate IsRight(session: Challenge, answer: string, lower: string -> string) {
    lower(Trim(answer)) == lower(Trim(session.answer))
  }

  function SelectAnswer(sessions: seq<Challenge>, raw: string, lower: string -> string): Option<Choice> {
    var trimmed := Trim(raw);
    if |sessions| == 1 && IsRight(sessions[0], trimmed, lower) then Some(Choice(0, trimmed))
    else
      var at := FirstSpace(trimmed);
      var token, answer := trimmed[..at], Trim(trimmed[at..]);
      if token != "" && token[0] == '#' && !IsSelector(token) then None
      else if IsSelector(token) then
        if answer == "" then None
        else
          match Find(sessions, token[1..])
          case Some(i) => Some(Choice(i, answer))
          case None => None
      else if |sessions| == 1 then Some(Choice(0, trimmed))
      else None
  }

  // ----- what a message says -----

  /** A message written as a session's selector and an answer, apart from the blanks around them. */
  predicate Spells(raw: string, before: string, token: string, gap: string, answer: string, after: string) {
    && raw == before + token + gap + answer + after
    && Blank(before) && Blank(gap) && Blank(after) && gap != ""
    && IsSelector(token) && answer != "" && Trimmed(answer)
  }

  ghost predicate Addresses(raw: string, code: string, answer: string) {
    exists before, token, gap, after :: Spells(raw, before, token, gap, answer, after) && SameCode(code, token[1..])
  }

  /** Codes as sessions have them; reconciliation keeps those of one user apart. */
  predicate DistinctCodes(sessions: seq<Challenge>) {
    && (forall s | s in sessions :: IsCode(s.code))
    && (forall i, j | 0 <= i < j < |sessions| :: sessions[i].code != sessions[j].code)
  }

  lemma {:induction false} FindIsFirst(sessions: seq<Challenge>, supplied: string)
    ensures match Find(sessions, supplied)
            case None => forall k | 0 <= k < |sessions| :: !SameCode(sessions[k].code, supplied)
            case Some(i) => i < |sessions| && SameCode(sessions[i].code, supplied)
  {
    if sessions != [] && !SameCode(sessions[0].code, supplied) {
      FindIsFirst(sessions[1..], supplied);
      forall k | 0 < k < |sessions| ensures sessions[k] == sessions[1..][k - 1] {
      }
    }
  }

  /** With distinct codes it does not matter which of the matching sessions is found. */
  lemma FindIsExact(sessions: seq<Challenge>, supplied: string, i: nat)
    requires DistinctCodes(sessions)
    ensures Find(sessions, supplied) == Some(i) <==> i < |sessions| && SameCode(sessions[i].code, supplied)
  {
    FindIsFirst(sessions, supplied);
    var found := Find(sessions, supplied);
    if i < |sessions| && SameCode(sessions[i].code, supplied) {
      CodesDiffer(sessions[i].code, sessions[found.value].code, supplied);
    }
  }

  /** What the program cuts a message into is what the message spells. */
  lemma SpelledIsCut(raw: string, before: string, token: string, gap: string, answer: string, after: string)
    requires Spells(raw, before, token, gap, answer, after)
    ensures var trimmed := Trim(raw);
            FirstSpace(trimmed) == |token| && trimmed[..|token|] == token && Trim(trimmed[|token|..]) == answer
  {
    var core := token + gap + answer;
    assert raw == before + core + after;
    assert core[|core| - 1] == answer[|answer| - 1];
    TrimFinds(before, core, after);
    forall k | 0 < k < |token| ensures !IsSpace(core[k]) {
      assert core[k] == token[1..][k - 1] && token[1..][k - 1] in token[1..];
    }
    assert core == token + (gap + answer);
    assert core[|token|] == gap[0] && gap[0] in gap;
    assert core[|token|..] == gap + answer + "";
    TrimFinds(gap, answer, "");
  }

  lemma BlankEnds(s: string, after: string)
    requires Blank(after)
    ensures after == "" || IsSpace((s + after)[|s + after| - 1])
  {
    assert after != "" ==> after[|after| - 1] in after;
  }

  lemma CutIsSpelled(raw: string) returns (before: string, gap: string, after: string)
    requires var at := FirstSpace(Trim(raw)); IsSelector(Trim(raw)[..at]) && Trim(Trim(raw)[at..]) != ""
    ensures var at := FirstSpace(Trim(raw));
            Spells(raw, before, Trim(raw)[..at], gap, Trim(Trim(raw)[at..]), after)
  {
    var trimmed, at := Trim(raw), FirstSpace(Trim(raw));
    before, after := TrimSplits(raw);
    var rest, tail := trimmed[at..], "";
    gap, tail := TrimSplits(rest);
    BlankEnds(gap + Trim(rest), tail);
    assert trimmed[|trimmed| - 1] == rest[|rest| - 1];
    assert trimmed == trimmed[..at] + (gap + Trim(rest) + tail);
  }

  /** What the program reads off a message is exactly what the message addresses. */
  lemma CutIsAddressed(raw: string, code: string, answer: string)
    ensures var trimmed := Trim(raw);
            var token, given := trimmed[..FirstSpace(trimmed)], Trim(trimmed[FirstSpace(trimmed)..]);
            Addresses(raw, code, answer) <==>
              IsSelector(token) && given == answer && answer != "" && SameCode(code, token[1..])
  {
    var trimmed := Trim(raw);
    var token, given := trimmed[..FirstSpace(trimmed)], Trim(trimmed[FirstSpace(trimmed)..]);
    if Addresses(raw, code, answer) {
      var before, selector, gap, after :|
        Spells(raw, before, selector, gap, answer, after) && SameCode(code, selector[1..]);
      SpelledIsCut(raw, before, selector, gap, answer, after);
    }
    if IsSelector(token) && given == answer && answer != "" && SameCode(code, token[1..]) {
      var before, gap, after := CutIsSpelled(raw);
    }
  }

  /**
   Among several sessions a message answers the one whose code it names, in whatever case and spacing, with exactly the
   text behind the code; a message that names none answers none, so no session is charged for another's answer.
   */
  lemma AnswersWhatIsNamed(sessions: seq<Challenge>, raw: string, lower: string -> string, i: nat, answer: string)
    requires DistinctCodes(sessions) && |sessions| != 1
    ensures SelectAnswer(sessions, raw, lower) == Some(Choice(i, answer)) <==>
              i < |sessions| && Addresses(raw, sessions[i].code, answer)
  {
    var trimmed := Trim(raw);
    var token := trimmed[..FirstSpace(trimmed)];
    if IsSelector(token) {
      FindIsExact(sessions, token[1..], i);
    }
    if i < |sessions| {
      CutIsAddressed(raw, sessions[i].code, answer);
    }
  }

  /**
   The only session of a user is answered by its right answer whatever that looks like, by a message that names it, and
   by any message that does not begin like a selector; a mistyped selector is no answer and costs no attempt.
   */
  lemma SoleSessionAnswers(session: Challenge, raw: string, lower: string -> string, choice: Choice)
    requires IsCode(session.code)
    ensures SelectAnswer([session], raw, lower) == Some(choice) <==>
              && choice.session == 0
              && if lower(Trim(raw)) == lower(Trim(session.answer)) then choice.answer == Trim(raw)
                 else
                   || Addresses(raw, session.code, choice.answer)
                   || (choice.answer == Trim(raw) && !("#" <= Trim(raw)))
  {
    var trimmed := Trim(raw);
    var token := trimmed[..FirstSpace(trimmed)];
    TrimIsIdempotent(raw);
    if token != "" {
      FindIsExact([session], token[1..], choice.session);
    }
    CutIsAddressed(raw, session.code, choice.answer);
    assert "#" <= trimmed <==> token != "" && token[0] == '#';
  }

  /** A message that names a session and gives its right answer is taken for that session, as its right answer. */
  lemma RightAnswersAreRight(sessions: seq<Challenge>, raw: string, lower: string -> string, i: nat, answer: string)
    requires DistinctCodes(sessions) && i < |sessions|
    requires Addresses(raw, sessions[i].code, answer) && lower(Trim(answer)) == lower(Trim(sessions[i].answer))
    ensures var chosen := SelectAnswer(sessions, raw, lower);
            && chosen.Some? && chosen.value.session == i
            && lower(Trim(chosen.value.answer)) == lower(Trim(sessions[i].answer))
  {
    if |sessions| == 1 {
      assert sessions == [sessions[0]];
      var right := IsRight(sessions[0], raw, lower);
      TrimIsIdempotent(raw);
      SoleSessionAnswers(sessions[0], raw, lower, Choice(0, if right then Trim(raw) else answer));
    } else {
      AnswersWhatIsNamed(sessions, raw, lower, i, answer);
    }
  }

  /** Replying as the challenge asks, with the code as it was sent and the right answer, always reaches the session. */
  lemma RepliesReachTheirSession(sessions: seq<Challenge>, i: nat, reply: string, lower: string -> string)
    requires DistinctCodes(sessions) && i < |sessions|
    requires Trim(reply) != "" && lower(Trim(reply)) == lower(Trim(sessions[i].answer))
    ensures var chosen := SelectAnswer(sessions, "#" + sessions[i].code + " " + reply, lower);
            && chosen.Some? && chosen.value.session == i
            && lower(Trim(chosen.value.answer)) == lower(Trim(sessions[i].answer))
  {
    var code := sessions[i].code;
    var raw := "#" + code + " " + reply;
    var before, after := TrimSplits(reply);
    assert ("#" + code)[1..] == code;
    assert raw == "" + ("#" + code) + (" " + before) + Trim(reply) + after;
    assert Spells(raw, "", "#" + code, " " + before, Trim(reply), after);
    TrimIsIdempotent(reply);
    RightAnswersAreRight(sessions, raw, lower, i, Trim(reply));
  }
}
