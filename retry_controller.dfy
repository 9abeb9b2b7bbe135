/** The retry loop of `consultar_vehiculo` as a function of what the portal
    shows on each page load. A round reads the captcha, rejects a short OCR
    text, submits the form, and then looks for the invalid-captcha popup, the
    "Ingrese el captcha" warning and finally the result image. Every browser
    call the round makes is recorded as an Event, so the usage protocol of
    the session (refreshes, submissions, quits) can be stated and proved. */
module RetryController {
  import opened Wrappers
  import opened CaptchaText
  import opened DataUri

  /** `max_intentos` */
  const MaxAttempts: nat := 35
  /** OCR texts shorter than this are not submitted. */
  const MinCaptchaLength: nat := 6

  /** What the portal shows on one page load: the `src` of the captcha image,
      the fragments the OCR engine reads from it, whether the search button
      becomes clickable within its wait, whether the invalid-captcha popup
      and the "Ingrese el captcha" alert appear after the search, and the
      `src` of the result image (None when the element is missing). */
  datatype Observation = Observation(
    captchaSrc: string,
    fragments: seq<string>,
    searchEnabled: bool,
    popup: bool,
    warning: bool,
    resultSrc: Option<string>)

  /** One call into the browser session. */
  datatype Event =
    | Refreshed
    | CaptchaRead
    | DataEntered(placa: string, captcha: string)
    | SearchTried(clicked: bool)
    | PopupChecked
    | PopupDismissed
    | WarningChecked
    | ResultRead
    | Quit

  /** The three dictionaries the function returns. */
  datatype Outcome =
    | Found(placa: string, image: string)
    | NotFound(placa: string)
    | Exhausted(placa: string)

  /** How a round ends: go round again, or leave the function with a reply
      or with an exception. */
  datatype Verdict = Retry | Finish(result: Result<Outcome, Error>)

  datatype Step = Step(events: seq<Event>, verdict: Verdict)

  /** A whole run: the session calls made, how the function ends, and the
      value of the attempt counter when it ends. */
  datatype Run = Run(events: seq<Event>, result: Result<Outcome, Error>, attempt: nat)

  /** `leer_captcha`: the payload of the captcha `src` is taken (and raises
      when there is no comma), then the OCR fragments are normalised. */
  function ReadCaptcha(obs: Observation): Result<string, Error> {
    match Payload(obs.captchaSrc)
    case Failure(e) => Failure(e)
    case Success(_) => Success(Normalise(obs.fragments))
  }

  /** The captcha is unreadable exactly when its `src` has no comma, and its
      text is otherwise the alphanumeric part of the OCR fragments. */
  lemma ReadCaptchaDefined(obs: Observation)
    ensures ReadCaptcha(obs).Success? <==> ',' in obs.captchaSrc
    ensures ReadCaptcha(obs).Success? ==> ReadCaptcha(obs).value == KeepAlnum(Join(obs.fragments))
  {
    PayloadDefined(obs.captchaSrc);
    NormaliseIsFilter(obs.fragments);
  }

  /** The round gets as far as entering plate and captcha. */
  predicate Submits(obs: Observation) {
    ReadCaptcha(obs).Success? && |ReadCaptcha(obs).value| >= MinCaptchaLength
  }

  /** The round gets as far as looking for the result image. */
  predicate Extracts(obs: Observation) {
    Submits(obs) && !obs.popup && !obs.warning
  }

  /** The round ends with `continue`: a short OCR text, the popup, or the
      warning. */
  predicate Retries(obs: Observation) {
    ReadCaptcha(obs).Success? && (|ReadCaptcha(obs).value| < MinCaptchaLength || obs.popup || obs.warning)
  }

  /** The start of every round: the page is refreshed on every attempt but
      the first, then the captcha is read. */
  function Opening(attempt: nat): seq<Event> {
    (if attempt > 1 then [Refreshed] else []) + [CaptchaRead]
  }

  /** The calls a round makes between reading the captcha and quitting:
      filling the form, the search, and the three probes of the page. */
  predicate IsFormEvent(e: Event) {
    e.DataEntered? || e.SearchTried? || e == PopupChecked || e == PopupDismissed
    || e == WarningChecked || e == ResultRead
  }

  /** The rest of a round, once the captcha has been read: the form and
      probe calls made, and how the round ends. */
  function AfterRead(placa: string, obs: Observation): Step
  {
    match ReadCaptcha(obs)
    case Failure(e) => Step([], Finish(Failure(e)))
    case Success(text) =>
      var entry, search := DataEntered(placa, text), SearchTried(obs.searchEnabled);
      if |text| < MinCaptchaLength then Step([], Retry)
      else if obs.popup then Step([entry, search, PopupChecked, PopupDismissed], Retry)
      else if obs.warning then Step([entry, search, PopupChecked, WarningChecked], Retry)
      else
        var probed := [entry, search, PopupChecked, WarningChecked, ResultRead];
        match obs.resultSrc
        case None => Step(probed, Finish(Success(NotFound(placa))))
        case Some(src) =>
          match Payload(src)
          case Failure(e) => Step(probed, Finish(Failure(e)))
          case Success(image) => Step(probed, Finish(Success(Found(placa, image))))
  }

  /** How each outcome of a round arises: only form and probe calls after
      the read; a retry exactly on a short text, the popup or the warning; a
      reply for the plate, never Exhausted; the not-found reply exactly when
      the result image is missing; a found image only with its payload; and
      the `IndexError` exactly when a `src` has no comma. */
  lemma AfterReadVerdict(placa: string, obs: Observation)
    ensures var s := AfterRead(placa, obs);
      && (forall e :: e in s.events ==> IsFormEvent(e))
      && (s.verdict.Retry? <==> Retries(obs))
      && (Extracts(obs) ==> s.verdict.Finish?)
      && (Returns(s.verdict) ==> s.verdict.result.value.placa == placa && !s.verdict.result.value.Exhausted?)
      && (s.verdict == Finish(Success(NotFound(placa))) <==> Extracts(obs) && obs.resultSrc.None?)
      && (Returns(s.verdict) && s.verdict.result.value.Found? ==>
            Extracts(obs) && obs.resultSrc.Some? && Payload(obs.resultSrc.value) == Success(s.verdict.result.value.image))
      && (s.verdict.Finish? && s.verdict.result.Failure? <==>
            ',' !in obs.captchaSrc || (Extracts(obs) && obs.resultSrc.Some? && ',' !in obs.resultSrc.value))
  {
    PayloadDefined(obs.captchaSrc);
    if obs.resultSrc.Some? {
      PayloadDefined(obs.resultSrc.value);
    }
  }

  /** The verdict ends the function with one of the three replies. */
  predicate Returns(v: Verdict) {
    v.Finish? && v.result.Success?
  }

  /** `driver.quit()`, called just before each of the three returns and not
      when an exception escapes. */
  function Closing(v: Verdict): seq<Event> {
    if Returns(v) then [Quit] else []
  }

  /** Form and probe calls leave the counts of the other calls unchanged. */
  lemma FormEventsCount(opening: seq<Event>, form: seq<Event>, closing: seq<Event>, e: Event)
    requires forall f :: f in form ==> IsFormEvent(f)
    requires !IsFormEvent(e)
    ensures multiset(opening + form + closing)[e] == multiset(opening)[e] + multiset(closing)[e]
  {
    assert e !in multiset(form);
  }

  predicate EndsWithQuit(log: seq<Event>) {
    log != [] && log[|log| - 1] == Quit
  }

  /** What every round satisfies, whatever the page shows: one captcha read,
      a refresh unless it is the first attempt, and a single quit, as the
      last call, exactly when the round returns a reply for the plate. */
  predicate WellFormed(placa: string, attempt: nat, s: Step) {
    && multiset(s.events)[Refreshed] == (if attempt > 1 then 1 else 0)
    && multiset(s.events)[CaptchaRead] == 1
    && multiset(s.events)[Quit] == (if Returns(s.verdict) then 1 else 0)
    && (Returns(s.verdict) ==>
          EndsWithQuit(s.events) && s.verdict.result.value.placa == placa && !s.verdict.result.value.Exhausted?)
  }

  /** The calls of a round around the part `rest` that follows the captcha
      read. */
  function Framed(attempt: nat, rest: Step): (s: Step)
    ensures s.verdict == rest.verdict
  {
    Step(Opening(attempt) + rest.events + Closing(rest.verdict), rest.verdict)
  }

  /** What the part after the captcha read guarantees: only form and probe
      calls, and a reply, if any, for the plate and not Exhausted. */
  predicate Proceeds(placa: string, rest: Step) {
    && (forall e :: e in rest.events ==> IsFormEvent(e))
    && (Returns(rest.verdict) ==>
          rest.verdict.result.value.placa == placa && !rest.verdict.result.value.Exhausted?)
  }

  lemma FramedWellFormed(placa: string, attempt: nat, rest: Step)
    requires Proceeds(placa, rest)
    ensures WellFormed(placa, attempt, Framed(attempt, rest))
  {
    var opening, closing := Opening(attempt), Closing(rest.verdict);
    FormEventsCount(opening, rest.events, closing, Refreshed);
    FormEventsCount(opening, rest.events, closing, CaptchaRead);
    FormEventsCount(opening, rest.events, closing, Quit);
    if Returns(rest.verdict) {
      LastOfAppend(opening + rest.events, closing);
    }
  }

  /** One pass through the body of the `while` loop, on attempt `attempt`:
      the opening calls, the form and probe calls, and the quit before a
      reply. */
  function Round(placa: string, attempt: nat, obs: Observation): Step {
    Framed(attempt, AfterRead(placa, obs))
  }

  lemma RoundWellFormed(placa: string, attempt: nat, obs: Observation)
    ensures WellFormed(placa, attempt, Round(placa, attempt, obs))
  {
    AfterReadVerdict(placa, obs);
    FramedWellFormed(placa, attempt, AfterRead(placa, obs));
  }

  // What a single round does, by how far it gets.

  /** A captcha text shorter than six characters ends the round right after
      it is read: no data entry, no click, no popup or warning check and no
      extraction; the loop goes on to the next attempt. */
  lemma ShortCaptchaRound(placa: string, attempt: nat, obs: Observation)
    requires ReadCaptcha(obs).Success? && |ReadCaptcha(obs).value| < MinCaptchaLength
    ensures Round(placa, attempt, obs).events == Opening(attempt)
    ensures Round(placa, attempt, obs).verdict == Retry
  {
  }

  /** A long enough captcha text is entered with the plate, the search is
      tried, and the popup is looked for; a round that does not get this far
      makes none of these calls. */
  lemma SubmittedRound(placa: string, attempt: nat, obs: Observation)
    ensures var events := Round(placa, attempt, obs).events;
      && (Submits(obs) ==>
            && DataEntered(placa, ReadCaptcha(obs).value) in events
            && SearchTried(obs.searchEnabled) in events
            && PopupChecked in events)
      && (!Submits(obs) ==> forall e :: e in events ==> !IsFormEvent(e))
  {
  }

  /** A form call the part after the captcha read does not make is not made
      in the round at all. */
  lemma AbsentFromRound(placa: string, attempt: nat, obs: Observation, e: Event)
    requires IsFormEvent(e) && e !in AfterRead(placa, obs).events
    ensures e !in Round(placa, attempt, obs).events
  {
    var rest := AfterRead(placa, obs);
    assert e !in Opening(attempt);
    assert e !in Closing(rest.verdict);
  }

  /** The invalid-captcha popup is dismissed and the round retries without
      checking for the warning or looking for the result. */
  lemma PopupRound(placa: string, attempt: nat, obs: Observation)
    requires Submits(obs) && obs.popup
    ensures var s := Round(placa, attempt, obs);
      && s.verdict == Retry
      && PopupDismissed in s.events
      && WarningChecked !in s.events
      && ResultRead !in s.events
  {
    var rest := AfterRead(placa, obs);
    assert rest.events == [DataEntered(placa, ReadCaptcha(obs).value), SearchTried(obs.searchEnabled), PopupChecked, PopupDismissed];
    AbsentFromRound(placa, attempt, obs, WarningChecked);
    AbsentFromRound(placa, attempt, obs, ResultRead);
  }

  /** Without the popup but with the "Ingrese el captcha" warning, the round
      retries without looking for the result. */
  lemma WarningRound(placa: string, attempt: nat, obs: Observation)
    requires Submits(obs) && !obs.popup && obs.warning
    ensures var s := Round(placa, attempt, obs);
      && s.verdict == Retry
      && WarningChecked in s.events
      && PopupDismissed !in s.events
      && ResultRead !in s.events
  {
    var rest := AfterRead(placa, obs);
    assert rest.events == [DataEntered(placa, ReadCaptcha(obs).value), SearchTried(obs.searchEnabled), PopupChecked, WarningChecked];
    AbsentFromRound(placa, attempt, obs, PopupDismissed);
    AbsentFromRound(placa, attempt, obs, ResultRead);
  }

  /** The result image is looked for only past both probes. */
  lemma ResultReadAfterRead(placa: string, obs: Observation)
    ensures ResultRead in AfterRead(placa, obs).events <==> Extracts(obs)
  {
    if Extracts(obs) {
      assert AfterRead(placa, obs).events[4] == ResultRead;
    }
  }

  /** The result image is looked for exactly when the captcha text is long
      enough and neither popup nor warning appeared, and a round that looks
      for it always leaves the loop, so the increment after the `try` is
      never reached: a found image is the successful reply with its payload,
      a missing one the not-found reply. */
  lemma ExtractionRound(placa: string, attempt: nat, obs: Observation)
    ensures var s := Round(placa, attempt, obs);
      && (ResultRead in s.events <==> Extracts(obs))
      && (Extracts(obs) ==> s.verdict.Finish?)
      && (Extracts(obs) && obs.resultSrc.None? ==> s.verdict == Finish(Success(NotFound(placa))))
      && (Extracts(obs) && obs.resultSrc.Some? && Payload(obs.resultSrc.value).Success? ==>
            s.verdict == Finish(Success(Found(placa, Payload(obs.resultSrc.value).value))))
  {
    var rest := AfterRead(placa, obs);
    ResultReadAfterRead(placa, obs);
    if Extracts(obs) {
      assert Round(placa, attempt, obs).events == Opening(attempt) + rest.events + Closing(rest.verdict);
    } else {
      AbsentFromRound(placa, attempt, obs, ResultRead);
    }
  }

  /** The rounds the loop makes for a plate against a page: attempt `n` runs
      on the `n`-th page load, as every round after the first refreshes. */
  function Rounds(placa: string, page: nat -> Observation): nat -> Step {
    (n: nat) => Round(placa, n, page(n))
  }

  /** The `while` loop itself, from attempt `attempt` on, given the step
      `round(n)` each attempt `n` takes: a round that retries moves to the
      next attempt; past the bound the session is quit and the exhausted
      reply returned. */
  function Loop(placa: string, round: nat -> Step, attempt: nat): (r: Run)
    decreases MaxAttempts + 1 - attempt
    ensures attempt <= MaxAttempts + 1 ==> attempt <= r.attempt <= MaxAttempts + 1
  {
    if attempt > MaxAttempts then Run([Quit], Success(Exhausted(placa)), attempt)
    else
      match round(attempt).verdict
      case Finish(result) => Run(round(attempt).events, result, attempt)
      case Retry =>
        var rest := Loop(placa, round, attempt + 1);
        Run(round(attempt).events + rest.events, rest.result, rest.attempt)
  }

  /** `consultar_vehiculo(placa)` against a portal that shows `page(n)` on
      its `n`-th load. */
  function Consultation(placa: string, page: nat -> Observation): Run {
    Loop(placa, Rounds(placa, page), 1)
  }

  // Properties of the loop, for any rounds that are well formed.

  ghost predicate AllWellFormed(placa: string, round: nat -> Step) {
    forall n: nat :: WellFormed(placa, n, round(n))
  }

  lemma LastOfAppend(a: seq<Event>, b: seq<Event>)
    requires EndsWithQuit(b)
    ensures EndsWithQuit(a + b)
  {
    assert (a + b)[|a + b| - 1] == b[|b| - 1];
  }

  /** Every reply echoes the plate, the session is quit exactly once and as
      the last call whenever the function returns, and never when an
      exception escapes; the reply is Exhausted exactly when the counter ran
      past the bound. */
  lemma {:induction false} LoopReplies(placa: string, round: nat -> Step, k: nat)
    requires AllWellFormed(placa, round)
    ensures var r := Loop(placa, round, k);
      && (r.result.Success? ==> r.result.value.placa == placa && EndsWithQuit(r.events))
      && multiset(r.events)[Quit] == (if r.result.Success? then 1 else 0)
      && (r.result == Success(Exhausted(placa)) <==> r.attempt > MaxAttempts)
    decreases MaxAttempts + 1 - k
  {
    if k <= MaxAttempts {
      var s := round(k);
      assert WellFormed(placa, k, s);
      if s.verdict.Retry? {
        LoopReplies(placa, round, k + 1);
        var rest := Loop(placa, round, k + 1);
        if rest.result.Success? {
          LastOfAppend(s.events, rest.events);
        }
      }
    }
  }

  /** The number of rounds a run made, counted from attempt 1: the counter
      value, or 35 when the counter ran past the bound. */
  function RoundsRun(r: Run): nat {
    if r.attempt > MaxAttempts then MaxAttempts else r.attempt
  }

  /** From attempt `k` on, the loop reads one captcha per round and, as no
      such round is the first, refreshes the page once per round. */
  lemma {:induction false} LoopRounds(placa: string, round: nat -> Step, k: nat)
    requires AllWellFormed(placa, round)
    requires 2 <= k <= MaxAttempts + 1
    ensures var r := Loop(placa, round, k);
      && multiset(r.events)[CaptchaRead] == RoundsRun(r) - k + 1
      && multiset(r.events)[Refreshed] == RoundsRun(r) - k + 1
    decreases MaxAttempts + 1 - k
  {
    if k <= MaxAttempts {
      assert WellFormed(placa, k, round(k));
      if round(k).verdict.Retry? {
        LoopRounds(placa, round, k + 1);
      }
    }
  }

  /** The loop ends at the first round that does not retry: every earlier
      round retried, and the run ends as that round does; when every round
      up to the bound retries, the counter stops at 36. */
  lemma {:induction false} LoopFirstFinish(placa: string, round: nat -> Step, k: nat)
    requires 1 <= k <= MaxAttempts + 1
    ensures var r := Loop(placa, round, k);
      && (forall j :: k <= j < r.attempt ==> round(j).verdict.Retry?)
      && (r.attempt <= MaxAttempts ==> round(r.attempt).verdict == Finish(r.result))
      && (r.attempt > MaxAttempts ==> r.attempt == MaxAttempts + 1 && r.result == Success(Exhausted(placa)))
    decreases MaxAttempts + 1 - k
  {
    if k <= MaxAttempts && round(k).verdict.Retry? {
      LoopFirstFinish(placa, round, k + 1);
    }
  }

  // The same properties, for the rounds the portal's pages produce.

  lemma RoundsWellFormed(placa: string, page: nat -> Observation)
    ensures AllWellFormed(placa, Rounds(placa, page))
  {
    forall n: nat ensures WellFormed(placa, n, Rounds(placa, page)(n)) {
      RoundWellFormed(placa, n, page(n));
    }
  }

  /** The function always returns one of the three replies for the plate or
      lets an exception escape; it quits the session exactly once, as its
      last call, before each reply and never otherwise. */
  lemma ConsultationReplies(placa: string, page: nat -> Observation)
    ensures var r := Consultation(placa, page);
      && 1 <= r.attempt <= MaxAttempts + 1
      && (r.result == Success(Exhausted(placa)) <==> r.attempt == MaxAttempts + 1)
      && (r.result.Success? ==> r.result.value.placa == placa && EndsWithQuit(r.events))
      && multiset(r.events)[Quit] == (if r.result.Success? then 1 else 0)
  {
    RoundsWellFormed(placa, page);
    LoopReplies(placa, Rounds(placa, page), 1);
  }

  /** From the first attempt: at most 35 rounds, one captcha read each,
      and a refresh in every round but the first. */
  lemma LoopRoundsFromFirst(placa: string, round: nat -> Step)
    requires AllWellFormed(placa, round)
    ensures var r := Loop(placa, round, 1);
      && 1 <= multiset(r.events)[CaptchaRead] == RoundsRun(r) <= MaxAttempts
      && multiset(r.events)[Refreshed] == RoundsRun(r) - 1
  {
    assert WellFormed(placa, 1, round(1));
    if round(1).verdict.Retry? {
      LoopRounds(placa, round, 2);
    }
  }

  /** At most 35 rounds, one captcha read each, and a page refresh in every
      round but the first. */
  lemma ConsultationRounds(placa: string, page: nat -> Observation)
    ensures var r := Consultation(placa, page);
      && 1 <= multiset(r.events)[CaptchaRead] == RoundsRun(r) <= MaxAttempts
      && multiset(r.events)[Refreshed] == RoundsRun(r) - 1
  {
    RoundsWellFormed(placa, page);
    LoopRoundsFromFirst(placa, Rounds(placa, page));
  }

  /** The result is decided by the first round that does not retry; if no
      round up to the bound ends the loop, the reply is Exhausted for the
      plate and the counter stands at 36. */
  lemma ConsultationFirstFinish(placa: string, page: nat -> Observation)
    ensures var r := Consultation(placa, page);
      && (forall j :: 1 <= j < r.attempt ==> Retries(page(j)))
      && (r.attempt <= MaxAttempts ==>
            !Retries(page(r.attempt)) && AfterRead(placa, page(r.attempt)).verdict == Finish(r.result))
      && (r.attempt > MaxAttempts ==> r.attempt == MaxAttempts + 1 && r.result == Success(Exhausted(placa)))
  {
    var round := Rounds(placa, page);
    LoopFirstFinish(placa, round, 1);
    var r := Consultation(placa, page);
    forall j | 1 <= j < r.attempt ensures Retries(page(j)) {
      assert round(j).verdict.Retry?;
    }
    if r.attempt <= MaxAttempts {
      assert round(r.attempt) == Round(placa, r.attempt, page(r.attempt));
    }
  }

  /** Conversely, when every round up to the bound retries, the reply is
      Exhausted. */
  lemma ConsultationExhausts(placa: string, page: nat -> Observation)
    requires forall j :: 1 <= j <= MaxAttempts ==> Retries(page(j))
    ensures Consultation(placa, page).result == Success(Exhausted(placa))
    ensures Consultation(placa, page).attempt == MaxAttempts + 1
  {
    var r := Consultation(placa, page);
    ConsultationFirstFinish(placa, page);
    assert r.attempt <= MaxAttempts ==> Retries(page(r.attempt));
  }

  /** The dictionary returned for an outcome. */
  function Reply(o: Outcome): (m: map<string, string>)
    ensures "status" in m && "message" in m && "Placa" in m
    ensures m["Placa"] == o.placa
    ensures m["status"] == "success" <==> o.Found?
    ensures m["status"] == (if o.Found? then "success" else "error")
    ensures "base64" in m <==> o.Found?
    ensures "Developer" in m <==> !o.NotFound?
  {
    match o
    case Found(placa, image) =>
      map["status" := "success", "message" := "Consulta realizada con éxito",
          "Developer" := "https://t.me/SetaxOne", "Placa" := placa, "base64" := PngPrefix + image]
    case NotFound(placa) =>
      map["status" := "error", "message" := "No se encontró imagen del resultado Sunarp Placa", "Placa" := placa]
    case Exhausted(placa) =>
      map["status" := "error", "message" := "No se pudo conectar correctamente al servidor - Intenta Nuevamente",
          "Developer" := "https://t.me/SetaxOne", "Placa" := placa]
  }

  /** A successful reply echoes the plate, and its `base64` field is the
      payload of the result image's `src` behind the PNG data-URI prefix, so
      splitting it again gives that payload back. */
  lemma SuccessReply(placa: string, page: nat -> Observation)
    requires Consultation(placa, page).result.Success?
    requires Consultation(placa, page).result.value.Found?
    ensures var r := Consultation(placa, page);
      var obs := page(r.attempt);
      && r.attempt <= MaxAttempts
      && Extracts(obs)
      && obs.resultSrc.Some?
      && Payload(obs.resultSrc.value).Success?
      && Reply(r.result.value)["Placa"] == placa
      && Reply(r.result.value)["base64"] == PngPrefix + Payload(obs.resultSrc.value).value
      && Payload(Reply(r.result.value)["base64"]) == Payload(obs.resultSrc.value)
  {
    var r := Consultation(placa, page);
    ConsultationFirstFinish(placa, page);
    AfterReadVerdict(placa, page(r.attempt));
    PayloadDefined(page(r.attempt).resultSrc.value);
    PrefixedPayloadRoundTrip(r.result.value.image);
  }
}
