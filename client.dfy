/** The imperative driver of a consultation: `consultar_vehiculo` of
    api_sunarp.py, its browser session and its retry loop, proved against
    the run that RetryController defines. */
module Client {
  import opened Wrappers
  import opened DataUri
  import opened RetryController

  /** The Chromium session the consultation drives. It serves page `loads`,
      the page after `loads - 1` refreshes, whose content the browser and the
      OCR reader report as `page(loads)`; `log` records every call made on
      it. */
  class Session {
    const page: nat -> Observation
    var loads: nat
    var open: bool
    ghost var log: seq<Event>

    /** `webdriver.Chrome(...)` followed by `driver.get(...)`: the first
        load of the consultation page. */
    constructor (page: nat -> Observation)
      ensures this.page == page && loads == 1 && open && log == []
    {
      this.page := page;
      loads := 1;
      open := true;
      log := [];
    }

    /** `driver.refresh()`: a new page, with a new captcha. */
    method Refresh()
      requires open
      modifies this
      ensures open && loads == old(loads) + 1 && log == old(log) + [Refreshed]
    {
      loads := loads + 1;
      log := log + [Refreshed];
    }

    /** `leer_captcha()`: the captcha image's source leads to the OCR text, or
        the `IndexError` of a source without a comma. */
    method ReadCaptchaText() returns (text: Result<string, Error>)
      requires open
      modifies `log
      ensures text == ReadCaptcha(page(loads))
      ensures log == old(log) + [CaptchaRead]
    {
      text := ReadCaptcha(page(loads));
      log := log + [CaptchaRead];
    }

    /** `ingresar_datos(placa, captcha)`. */
    method EnterData(placa: string, captcha: string)
      requires open
      modifies `log
      ensures log == old(log) + [DataEntered(placa, captcha)]
    {
      log := log + [DataEntered(placa, captcha)];
    }

    /** `click_buscar()`: a button that never becomes clickable is reported
        and otherwise ignored. */
    method ClickSearch() returns (clicked: bool)
      requires open
      modifies `log
      ensures clicked == page(loads).searchEnabled
      ensures log == old(log) + [SearchTried(clicked)]
    {
      clicked := page(loads).searchEnabled;
      log := log + [SearchTried(clicked)];
    }

    /** `manejar_popup_error()`: whether the invalid-captcha popup showed,
        dismissing it when it did. */
    method DismissErrorPopup() returns (shown: bool)
      requires open
      modifies `log
      ensures shown == page(loads).popup
      ensures log == old(log) + [PopupChecked] + (if shown then [PopupDismissed] else [])
    {
      shown := page(loads).popup;
      log := log + [PopupChecked] + (if shown then [PopupDismissed] else []);
    }

    /** `error_ingrese_captcha()`: whether the "Ingrese el captcha" alert
        showed. */
    method CaptchaWarningShown() returns (shown: bool)
      requires open
      modifies `log
      ensures shown == page(loads).warning
      ensures log == old(log) + [WarningChecked]
    {
      shown := page(loads).warning;
      log := log + [WarningChecked];
    }

    /** The lookup of the result image in `obtener_imagen_resultado()`:
        its `src`, or `None` for `NoSuchElementException`. */
    method FindResultImage() returns (src: Option<string>)
      requires open
      modifies `log
      ensures src == page(loads).resultSrc
      ensures log == old(log) + [ResultRead]
    {
      src := page(loads).resultSrc;
      log := log + [ResultRead];
    }

    /** `driver.quit()`. */
    method Quit()
      requires open
      modifies this
      ensures !open && loads == old(loads) && log == old(log) + [Event.Quit]
    {
      open := false;
      log := log + [Event.Quit];
    }

    /** The body of the `while` loop once the captcha text `text` is long
        enough: enter it with the plate, search, and look for the popup,
        the warning and the result image, in this order, stopping at the
        first that decides the round. The calls made and how the round ends
        are those of `AfterRead`. */
    method Submit(placa: string, text: string) returns (verdict: Verdict)
      requires open && ReadCaptcha(page(loads)) == Success(text) && |text| >= MinCaptchaLength
      modifies `log
      ensures verdict == AfterRead(placa, page(loads)).verdict
      ensures log == old(log) + AfterRead(placa, page(loads)).events
    {
      ghost var before := log;
      EnterData(placa, text);
      var clicked := ClickSearch();
      var entry, search := DataEntered(placa, text), SearchTried(clicked);
      assert log == before + [entry, search];
      var popup := DismissErrorPopup();
      if popup {
        assert log == before + [entry, search, PopupChecked, PopupDismissed];
        return Retry;
      }
      assert log == before + [entry, search, PopupChecked];
      var warning := CaptchaWarningShown();
      assert log == before + [entry, search, PopupChecked, WarningChecked];
      if warning {
        return Retry;
      }
      var src := FindResultImage();
      assert log == before + [entry, search, PopupChecked, WarningChecked, ResultRead];
      match src
      case None =>
        return Finish(Success(NotFound(placa)));
      case Some(s) =>
        var image := Payload(s);
        if image.Failure? {
          return Finish(Failure(image.error));
        }
        return Finish(Success(Found(placa, image.value)));
    }

    /** One pass through the body of the `while` loop on attempt `attempt`:
        refresh (but on the first attempt), read the captcha, submit a long
        enough text, and quit the session before a reply. The calls it makes
        and how it ends are those of `Round`; it quits the session exactly
        when it returns a reply. */
    method Attempt(placa: string, attempt: nat) returns (verdict: Verdict)
      requires open && 1 <= attempt
      requires loads == if attempt == 1 then 1 else attempt - 1
      modifies this
      ensures verdict == Round(placa, attempt, page(attempt)).verdict
      ensures log == old(log) + Round(placa, attempt, page(attempt)).events
      ensures loads == attempt && (open <==> !Returns(verdict))
    {
      ghost var obs := page(attempt);
      ghost var before := log;
      ghost var calls: seq<Event> := [];
      if attempt > 1 {
        Refresh();
        calls := calls + [Refreshed];
        assert log == before + calls;
      }
      var captcha := ReadCaptchaText();
      assert before + calls + [CaptchaRead] == before + (calls + [CaptchaRead]);
      calls := calls + [CaptchaRead];
      assert calls == Opening(attempt);
      assert log == before + calls;
      if captcha.Failure? {
        assert AfterRead(placa, obs) == Step([], Finish(Failure(captcha.error)));
        return Finish(Failure(captcha.error));
      }
      var text := captcha.value;
      if |text| < MinCaptchaLength {
        ShortCaptchaRound(placa, attempt, obs);
        return Retry;
      }
      verdict := Submit(placa, text);
      ghost var rest := AfterRead(placa, obs);
      assert before + calls + rest.events == before + (calls + rest.events);
      calls := calls + rest.events;
      assert log == before + calls;
      if Returns(verdict) {
        Quit();
        assert before + calls + [Event.Quit] == before + (calls + [Event.Quit]);
        calls := calls + [Event.Quit];
        assert log == before + calls;
      }
      assert calls == Opening(attempt) + rest.events + Closing(verdict);
    }
  }

  /** A run with calls made before it. */
  function After(prefix: seq<Event>, r: Run): (s: Run)
    ensures s.result == r.result && s.attempt == r.attempt
    ensures |s.events| == |prefix| + |r.events|
  {
    Run(prefix + r.events, r.result, r.attempt)
  }

  /** A retrying round is followed by the rest of the loop, whose calls are
      logged after it: a run `c` that is the loop from attempt `k` after the
      calls `log` is the loop from attempt `k + 1` after `log'`. */
  lemma LoopRetry(placa: string, round: nat -> Step, k: nat, log: seq<Event>, log': seq<Event>, c: Run)
    requires 1 <= k <= MaxAttempts && round(k).verdict == Retry
    requires log' == log + round(k).events
    requires c == After(log, Loop(placa, round, k))
    ensures c == After(log', Loop(placa, round, k + 1))
  {
    var rest := Loop(placa, round, k + 1);
    assert log + (round(k).events + rest.events) == log' + rest.events;
  }

  /** A finishing round ends the loop with its verdict. */
  lemma LoopFinish(placa: string, round: nat -> Step, k: nat, log: seq<Event>, log': seq<Event>, c: Run)
    requires 1 <= k <= MaxAttempts && round(k).verdict.Finish?
    requires log' == log + round(k).events
    requires c == After(log, Loop(placa, round, k))
    ensures c == Run(log', round(k).verdict.result, k)
  {
  }

  /** Past the bound the loop only quits. */
  lemma LoopExhausted(placa: string, round: nat -> Step, log: seq<Event>, log': seq<Event>, c: Run)
    requires log' == log + [Quit]
    requires c == After(log, Loop(placa, round, MaxAttempts + 1))
    ensures c == Run(log', Success(Exhausted(placa)), MaxAttempts + 1)
  {
  }

  /** `round` gives the rounds a consultation of `placa` makes on the pages
      of `driver`. */
  ghost predicate Drives(driver: Session, placa: string, round: nat -> Step) {
    forall n: nat {:trigger Round(placa, n, driver.page(n))} :: round(n) == Round(placa, n, driver.page(n))
  }

  /** One attempt of the loop on `driver`, with the run `c` it is part of:
      after a retry `c` is the loop from the next attempt after the calls
      made so far, and after a finish `c` is the run that ends with this
      attempt. The session is left on load `attempt`, and closed exactly
      when the attempt replies. */
  method Pass(driver: Session, placa: string, attempt: nat, ghost round: nat -> Step, ghost c: Run) returns (verdict: Verdict)
    requires driver.open && 1 <= attempt <= MaxAttempts && Drives(driver, placa, round)
    requires driver.loads == if attempt == 1 then 1 else attempt - 1
    requires c == After(driver.log, Loop(placa, round, attempt))
    modifies driver
    ensures driver.loads == attempt && (driver.open <==> !Returns(verdict))
    ensures verdict.Retry? ==> c == After(driver.log, Loop(placa, round, attempt + 1))
    ensures verdict.Finish? ==> c == Run(driver.log, verdict.result, attempt)
  {
    ghost var before := driver.log;
    verdict := driver.Attempt(placa, attempt);
    assert round(attempt) == Round(placa, attempt, driver.page(attempt));
    if verdict.Finish? {
      LoopFinish(placa, round, attempt, before, driver.log, c);
    } else {
      LoopRetry(placa, round, attempt, before, driver.log, c);
    }
  }

  /** The `while` loop of `consultar_vehiculo(placa)` on a fresh session,
      up to 35 attempts and the quit after the last, as `Loop` defines it
      for the rounds `round` the session's pages produce: `result` is the
      outcome or the escaping `IndexError`, the session's log the calls
      made, and `attempts` the final value of the loop counter. The session
      is closed exactly when the loop replies, and left open when an
      exception escapes, on the load of the last round run. */
  method RetryLoop(driver: Session, placa: string, ghost round: nat -> Step) returns (result: Result<Outcome, Error>, ghost attempts: nat)
    requires driver.open && driver.loads == 1 && driver.log == [] && Drives(driver, placa, round)
    modifies driver
    ensures Loop(placa, round, 1) == Run(driver.log, result, attempts)
    ensures driver.open <==> !result.Success?
    ensures driver.loads == RoundsRun(Run(driver.log, result, attempts))
  {
    ghost var c := Loop(placa, round, 1);
    var attempt: nat := 1;
    while attempt <= MaxAttempts
      invariant 1 <= attempt <= MaxAttempts + 1 && driver.open
      invariant driver.loads == if attempt == 1 then 1 else attempt - 1
      invariant c == After(driver.log, Loop(placa, round, attempt))
      decreases MaxAttempts + 1 - attempt
    {
      var verdict := Pass(driver, placa, attempt, round, c);
      if verdict.Finish? {
        return verdict.result, attempt;
      }
      attempt := attempt + 1;
    }
    ghost var before := driver.log;
    driver.Quit();
    LoopExhausted(placa, round, before, driver.log, c);
    return Success(Exhausted(placa)), attempt;
  }

  /** `consultar_vehiculo(placa)` against the pages `page`: the outcome
      `result` of the loop and the reply `reply` that spells it out, or the
      `IndexError` that escapes when a `src` has no comma (and `reply` is
      then empty); `log` is the calls made on the browser and `attempts` the
      final value of the loop counter. */
  method ConsultVehicle(placa: string, page: nat -> Observation)
    returns (result: Result<Outcome, Error>, reply: map<string, string>, ghost log: seq<Event>, ghost attempts: nat)
    ensures Consultation(placa, page) == Run(log, result, attempts)
    ensures reply == if result.Success? then Reply(result.value) else map[]
    ensures 1 <= attempts <= MaxAttempts + 1
    ensures result == Success(Exhausted(placa)) <==> attempts == MaxAttempts + 1
    ensures result.Success? ==> result.value.placa == placa && EndsWithQuit(log)
    ensures multiset(log)[Quit] == if result.Success? then 1 else 0
    ensures multiset(log)[CaptchaRead] == RoundsRun(Run(log, result, attempts))
    ensures multiset(log)[Refreshed] == RoundsRun(Run(log, result, attempts)) - 1
  {
    var driver := new Session(page);
    result, attempts := RetryLoop(driver, placa, Rounds(placa, page));
    log := driver.log;
    reply := if result.Success? then Reply(result.value) else map[];
    ConsultationReplies(placa, page);
    ConsultationRounds(placa, page);
  }
}
