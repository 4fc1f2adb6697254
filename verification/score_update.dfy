/** `update(e, s, a)`: write score `s` into an entry through the list
    editor — click the entry's edit button, type the score into the number
    field, click save — retrying when the editor has not rendered yet. The
    page is replaced by what each attempt finds on it. */
module ScoreUpdate {
  import opened JsNumber
  import opened Href
  import opened Backoff

  /** What one attempt finds: the entry's edit button, then the editor's
      number input, then its save button. */
  datatype Observation = Observation(editButton: bool, inputField: bool, saveButton: bool)

  /** How the call ended. `LinkMissing`, `IdMissing` and `EditMissing` are
      the silent early returns, `GaveUp` is the `null` after the last
      attempt, `Saved` means save was clicked. `Unobserved` means the
      observations ran out before an attempt the function went on to make. */
  datatype UpdateOutcome = LinkMissing | IdMissing | EditMissing | GaveUp | Saved | Unobserved

  /** The number of attempts made (calls of `update`), every wait in order,
      the text typed into the score field by each attempt that found it, and
      the outcome. */
  datatype UpdateRun = UpdateRun(attempts: nat, waits: seq<nat>, typed: seq<string>, outcome: UpdateOutcome)

  /** A missing input or save button is retried only while `a < 3`. */
  const UpdateAttempts := 3

  /** The pause after each typed character, and after the whole score. */
  const KeystrokeMs := 50
  const AfterTypingMs := 1000

  /** An attempt that finds the edit button but not both of the editor's
      controls, so that it is followed by another attempt if any remain. */
  predicate Retryable(o: Observation) {
    o.editButton && !(o.inputField && o.saveButton)
  }

  /** The waits of typing `text` one character at a time. */
  function TypingWaits(text: string): (ws: seq<nat>)
    ensures |ws| == |text| && forall i :: 0 <= i < |ws| ==> ws[i] == KeystrokeMs
  {
    seq(|text|, _ => KeystrokeMs)
  }

  /** One more attempt in front of the run `r` of the later ones. */
  function Again(ws: seq<nat>, typed: seq<string>, r: UpdateRun): UpdateRun {
    UpdateRun(r.attempts + 1, ws + r.waits, typed + r.typed, r.outcome)
  }

  /** Attempts `a`, `a + 1`, ... of `update(e, s, a)` once the entry's id is
      known (lines 60-74), meeting the observations `obs`. */
  function AttemptsFrom(s: int, obs: seq<Observation>, a: Attempt): (r: UpdateRun)
    requires a <= UpdateAttempts
    ensures 1 <= r.attempts && a + r.attempts - 1 <= UpdateAttempts
    ensures r.outcome != LinkMissing && r.outcome != IdMissing
    ensures forall j :: 0 <= j < r.attempts - 1 ==> j < |obs| && Retryable(obs[j])
    ensures r.outcome == Unobserved ==> r.attempts - 1 == |obs|
    ensures r.outcome == EditMissing ==> r.attempts - 1 < |obs| && !obs[r.attempts - 1].editButton
    ensures r.outcome == GaveUp ==>
      r.attempts - 1 < |obs| && Retryable(obs[r.attempts - 1]) && a + r.attempts - 1 == UpdateAttempts
    ensures r.outcome == Saved ==>
      r.attempts - 1 < |obs| && obs[r.attempts - 1] == Observation(true, true, true)
    ensures forall t :: t in r.typed ==> t == NumberToString(s)
    ensures r.outcome == Saved ==> |r.typed| >= 1
    ensures forall w :: w in r.waits ==> w <= UpdateCapMs
    decreases |obs|
  {
    if obs == [] then UpdateRun(1, [], [], Unobserved)
    else
      var o := obs[0];
      var d := UpdateDelay(a);
      var text := NumberToString(s);
      if !o.editButton then UpdateRun(1, [], [], EditMissing)
      else if !o.inputField then
        if a < UpdateAttempts then
          var rest := AttemptsFrom(s, obs[1..], a + 1);
          assert forall j :: 0 < j < |obs| ==> obs[j] == obs[1..][j - 1];
          Again([d], [], rest)
        else UpdateRun(1, [d], [], GaveUp)
      else
        var w := [d] + TypingWaits(text) + [AfterTypingMs];
        if !o.saveButton then
          if a < UpdateAttempts then
            var rest := AttemptsFrom(s, obs[1..], a + 1);
            assert forall j :: 0 < j < |obs| ==> obs[j] == obs[1..][j - 1];
            Again(w, [text], rest)
          else UpdateRun(1, w, [text], GaveUp)
        else UpdateRun(1, w + [d], [text], Saved)
  }

  /** The waits of one attempt `a` that meets `o` (lines 60-74): none without
      an edit button; otherwise `UpdateDelay(a)` after the edit click, then,
      with the number input, one keystroke wait per character of `text` and
      1000 ms after typing, then, with the save button too, `UpdateDelay(a)`
      after the save click. */
  function AttemptWaits(o: Observation, a: Attempt, text: string): seq<nat> {
    if !o.editButton then []
    else
      var d := UpdateDelay(a);
      if !o.inputField then [d]
      else
        var typing := [d] + TypingWaits(text) + [AfterTypingMs];
        if o.saveButton then typing + [d] else typing
  }

  /** The text attempt `o` types: the score, when it finds the number input. */
  function AttemptTyped(o: Observation, text: string): seq<string> {
    if o.editButton && o.inputField then [text] else []
  }

  /** The waits of the first `n` observed attempts, numbered from `a`. */
  function ScheduleWaits(obs: seq<Observation>, a: Attempt, text: string, n: nat): seq<nat>
    requires n <= |obs|
    decreases n
  {
    if n == 0 then [] else AttemptWaits(obs[0], a, text) + ScheduleWaits(obs[1..], a + 1, text, n - 1)
  }

  /** The texts typed by the first `n` observed attempts. */
  function ScheduleTyped(obs: seq<Observation>, text: string, n: nat): seq<string>
    requires n <= |obs|
    decreases n
  {
    if n == 0 then [] else AttemptTyped(obs[0], text) + ScheduleTyped(obs[1..], text, n - 1)
  }

  /** The attempts of a run that met an observation: all of them, except the
      last attempt of a run that ran out of observations. */
  function ObservedAttempts(r: UpdateRun): nat {
    if r.outcome == Unobserved && r.attempts >= 1 then r.attempts - 1 else r.attempts
  }

  /** Every wait and every typed text of a run, for every list of
      observations: attempt `a + j` contributes exactly the waits and the
      text its own observation calls for, in order. */
  lemma {:induction false} AttemptsFromSchedule(s: int, obs: seq<Observation>, a: Attempt)
    requires a <= UpdateAttempts
    ensures FollowsSchedule(s, obs, a, AttemptsFrom(s, obs, a))
    decreases |obs|
  {
    var r := AttemptsFrom(s, obs, a);
    var text := NumberToString(s);
    if obs != [] {
      if Retryable(obs[0]) && a < UpdateAttempts {
        AttemptsFromSchedule(s, obs[1..], a + 1);
        RetryStep(s, obs, a);
        ScheduleAgain(s, obs, a, AttemptsFrom(s, obs[1..], a + 1));
      } else {
        LastStep(s, obs, a);
        assert ScheduleWaits(obs, a, text, 1) == AttemptWaits(obs[0], a, text) + [];
        assert ScheduleTyped(obs, text, 1) == AttemptTyped(obs[0], text) + [];
      }
    }
  }

  /** The run `r` of attempts `a`, `a + 1`, ... makes exactly the waits and
      types exactly the texts its observed attempts call for. */
  predicate FollowsSchedule(s: int, obs: seq<Observation>, a: Attempt, r: UpdateRun) {
    && ObservedAttempts(r) <= |obs|
    && r.waits == ScheduleWaits(obs, a, NumberToString(s), ObservedAttempts(r))
    && r.typed == ScheduleTyped(obs, NumberToString(s), ObservedAttempts(r))
  }

  /** One observed attempt in front of a run that follows the schedule
      gives a run that follows it. */
  lemma ScheduleAgain(s: int, obs: seq<Observation>, a: Attempt, rest: UpdateRun)
    requires obs != [] && rest.attempts >= 1 && FollowsSchedule(s, obs[1..], a + 1, rest)
    ensures var text := NumberToString(s);
            FollowsSchedule(s, obs, a, Again(AttemptWaits(obs[0], a, text), AttemptTyped(obs[0], text), rest))
  {
    var text := NumberToString(s);
    var r := Again(AttemptWaits(obs[0], a, text), AttemptTyped(obs[0], text), rest);
    assert ObservedAttempts(r) == ObservedAttempts(rest) + 1;
  }

  /** An attempt that will be retried contributes its own waits and text in
      front of the later attempts'. */
  lemma RetryStep(s: int, obs: seq<Observation>, a: Attempt)
    requires a < UpdateAttempts && obs != [] && Retryable(obs[0])
    ensures var text := NumberToString(s);
            AttemptsFrom(s, obs, a) == Again(AttemptWaits(obs[0], a, text), AttemptTyped(obs[0], text), AttemptsFrom(s, obs[1..], a + 1))
  {
  }

  /** An attempt that is not retried is the last one, and the run is its
      waits and text alone. */
  lemma LastStep(s: int, obs: seq<Observation>, a: Attempt)
    requires a <= UpdateAttempts && obs != [] && !(Retryable(obs[0]) && a < UpdateAttempts)
    ensures var r := AttemptsFrom(s, obs, a);
            var text := NumberToString(s);
            && r.attempts == 1 && r.outcome != Unobserved
            && r.waits == AttemptWaits(obs[0], a, text) && r.typed == AttemptTyped(obs[0], text)
  {
  }

  /** `update(e, s)` for an entry with title links `hrefs`. The link and id
      are looked up again by every attempt (lines 55-58); the links do not
      change between attempts, so every attempt finds what the first one
      found, and a missing link or id ends the call on the first attempt. */
  function Update(hrefs: seq<string>, kind: MediaKind, s: int, obs: seq<Observation>): (r: UpdateRun)
    ensures 1 <= r.attempts <= UpdateAttempts
    ensures r.outcome == LinkMissing <==> Locate(hrefs, kind) == NoLink
    ensures r.outcome == IdMissing <==> Locate(hrefs, kind) == NoId
    ensures r.outcome == LinkMissing || r.outcome == IdMissing ==>
      r.attempts == 1 && r.waits == [] && r.typed == []
    ensures Locate(hrefs, kind).Found? ==> r == AttemptsFrom(s, obs, 1)
    ensures r.outcome == GaveUp ==>
      r.attempts == UpdateAttempts <= |obs| && Retryable(obs[UpdateAttempts - 1])
    ensures r.outcome == Unobserved ==> r.attempts - 1 == |obs|
    ensures forall t :: t in r.typed ==> t == NumberToString(s)
  {
    match Locate(hrefs, kind)
    case NoLink => UpdateRun(1, [], [], LinkMissing)
    case NoId => UpdateRun(1, [], [], IdMissing)
    case Found(_) => AttemptsFrom(s, obs, 1)
  }

  /** Three observations are enough: with them the run never needs a fourth,
      so it always ends in one of the script's own outcomes. */
  lemma ThreeObservationsSuffice(hrefs: seq<string>, kind: MediaKind, s: int, obs: seq<Observation>)
    requires |obs| >= UpdateAttempts
    ensures Update(hrefs, kind, s, obs).outcome != Unobserved
  {
  }

  /** The editor rendering in time on the first attempt: one click on edit,
      a 1000 ms wait, the score typed at 50 ms a character, 1000 ms, the
      click on save and a last 1000 ms wait. */
  lemma SavedOnFirstAttempt(hrefs: seq<string>, kind: MediaKind, s: int, obs: seq<Observation>)
    requires Locate(hrefs, kind).Found?
    requires |obs| > 0 && obs[0] == Observation(true, true, true)
    ensures var text := NumberToString(s);
            Update(hrefs, kind, s, obs)
            == UpdateRun(1, [1000] + TypingWaits(text) + [1000, 1000], [text], Saved)
  {
    SavedFromFirst(s, obs);
  }

  lemma SavedFromFirst(s: int, obs: seq<Observation>)
    requires |obs| > 0 && obs[0] == Observation(true, true, true)
    ensures var text := NumberToString(s);
            AttemptsFrom(s, obs, 1) == UpdateRun(1, [1000] + TypingWaits(text) + [1000, 1000], [text], Saved)
  {
    var text := NumberToString(s);
    var r := AttemptsFrom(s, obs, 1);
    assert r.outcome == Saved && r.attempts == 1;
    AttemptsFromSchedule(s, obs, 1);
    UpdateDelaySchedule(1);
    var tw := [1000] + TypingWaits(text);
    assert AttemptWaits(obs[0], 1, text) == tw + [AfterTypingMs] + [1000];
    assert tw + [AfterTypingMs] + [1000] == tw + [1000, 1000];
    assert r.waits == AttemptWaits(obs[0], 1, text) + [];
    assert r.typed == [text] + [];
  }

  /** A number field that never appears is looked for on three attempts,
      waiting 1000, 2000 and 2000 ms after the edit clicks, and then the
      call gives up without typing anything. */
  lemma GivesUpAfterThreeAttempts(hrefs: seq<string>, kind: MediaKind, s: int, obs: seq<Observation>)
    requires Locate(hrefs, kind).Found?
    requires |obs| >= 3 && forall j :: 0 <= j < 3 ==> obs[j] == Observation(true, false, false)
    ensures Update(hrefs, kind, s, obs) == UpdateRun(3, [1000, 2000, 2000], [], GaveUp)
  {
    NoInputFromFirst(s, obs);
  }

  lemma NoInputFromFirst(s: int, obs: seq<Observation>)
    requires |obs| >= 3 && forall j :: 0 <= j < 3 ==> obs[j] == Observation(true, false, false)
    ensures AttemptsFrom(s, obs, 1) == UpdateRun(3, [1000, 2000, 2000], [], GaveUp)
  {
    assert obs[1..][0] == obs[1] && obs[1..][1] == obs[2];
    NoInputFromSecond(s, obs[1..]);
    assert UpdateDelay(1) == 1000;
    assert [1000] + [2000, 2000] == [1000, 2000, 2000];
  }

  lemma NoInputFromSecond(s: int, obs: seq<Observation>)
    requires |obs| >= 2 && obs[0] == Observation(true, false, false) && obs[1] == Observation(true, false, false)
    ensures AttemptsFrom(s, obs, 2) == UpdateRun(2, [2000, 2000], [], GaveUp)
  {
    assert obs[1..][0] == obs[1];
    NoInputOnLast(s, obs[1..]);
    assert UpdateDelay(2) == 2000;
  }

  lemma NoInputOnLast(s: int, obs: seq<Observation>)
    requires |obs| >= 1 && obs[0] == Observation(true, false, false)
    ensures AttemptsFrom(s, obs, 3) == UpdateRun(1, [2000], [], GaveUp)
  {
    assert UpdateDelay(3) == 2000;
  }
}
