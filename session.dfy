/** The client-side session gate of the price-check page: the password of the
    day, the expiry timestamp kept in `sessionStorage`, the countdown label
    and the prompt loop that asks for the password. */
module Session {
  import opened Optional
  import opened Text

  /** The `sessionStorage` key holding the expiry timestamp. */
  const SessionKey := "pricecheck_session_expires"
  /** A session lasts 30 minutes, in milliseconds. */
  const SessionDuration := 30 * 60 * 1000
  /** Added to the day's MMDD number to form the password. */
  const PasswordOffset := 1234
  /** Shown in the countdown label once the session is cleared. */
  const ExpiredNotice := "登入已過期，請重新輸入密碼"
  /** Text before the `mm:ss` of the countdown label. */
  const RemainingPrefix := "本次登入剩餘 "

  // ---------------------------------------------------------------------------
  // The password of the day
  // ---------------------------------------------------------------------------

  /** A calendar date as the browser reports it: `month` is
      `getMonth() + 1`, `day` is `getDate()`. */
  datatype Day = Day(month: nat, day: nat)

  predicate IsCalendarDay(d: Day) {
    1 <= d.month <= 12 && 1 <= d.day <= 31
  }

  /** `calcTodayPassword`: month and day rendered with two digits each, the
      four characters read as one decimal number, plus 1234, rendered. */
  function TodayPassword(today: Day): (pw: string)
    ensures |pw| >= 1 && AllDigits(pw) && pw[0] != '0'
    ensures today.day < 100 ==> DigitsValue(pw) == 100 * today.month + today.day + PasswordOffset
  {
    var base := MonthDayNumber(today);
    NatToStringValue(base + PasswordOffset);
    NatToString(base + PasswordOffset)
  }

  /** `parseInt(mm + dd, 10)`: the zero-padded month and day read as one number. */
  function MonthDayNumber(today: Day): (base: nat)
    ensures today.day < 100 ==> base == 100 * today.month + today.day
  {
    var mm := PadStart(NatToString(today.month), 2, '0');
    var dd := PadStart(NatToString(today.day), 2, '0');
    MonthDayDigits(today.month, today.day, mm, dd);
    DigitsValue(mm + dd)
  }

  lemma MonthDayDigits(month: nat, day: nat, mm: string, dd: string)
    requires mm == PadStart(NatToString(month), 2, '0') && dd == PadStart(NatToString(day), 2, '0')
    ensures AllDigits(mm + dd)
    ensures day < 100 ==> DigitsValue(mm + dd) == 100 * month + day
  {
    TwoDigitField(month);
    TwoDigitField(day);
    DigitsValueAppend(mm, dd);
    if day < 100 {
      assert |dd| == 2;
      assert Pow10(2) == 100;
      assert DigitsValue(mm) == month && DigitsValue(dd) == day;
    }
  }

  /** On any real date the password is the four-digit rendering of
      100 * month + day + 1234, between 1335 and 2465. */
  lemma PasswordOfCalendarDay(today: Day)
    requires IsCalendarDay(today)
    ensures TodayPassword(today) == NatToString(100 * today.month + today.day + PasswordOffset)
    ensures |TodayPassword(today)| == 4
    ensures 1335 <= DigitsValue(TodayPassword(today)) <= 2465
  {
    var pw := TodayPassword(today);
    StringToNatToString(pw);
    FourDigitRendering(100 * today.month + today.day + PasswordOffset);
  }

  /** The example of the source's comment: December 2nd gives 2436. */
  lemma PasswordOnDecemberSecond()
    ensures TodayPassword(Day(12, 2)) == "2436"
  {
    PasswordOfCalendarDay(Day(12, 2));
    assert NatToString(2436) == NatToString(243) + ['6'];
    assert NatToString(243) == NatToString(24) + ['3'];
    assert NatToString(24) == NatToString(2) + ['4'];
  }

  // ---------------------------------------------------------------------------
  // The stored expiry
  // ---------------------------------------------------------------------------

  /** `Number(text)` for the texts that denote integers: surrounding spaces
      are ignored, an empty text is 0, an optional sign followed by decimal
      digits is that integer. Every other text is treated as not a finite
      number (None). */
  function ToNumber(text: string): (r: Option<int>)
    ensures |text| >= 1 && AllDigits(text) ==> r == Some(DigitsValue(text))
  {
    var t := Trim(text);
    TrimDigits(text);
    if t == [] then Some(0)
    else if (t[0] == '-' || t[0] == '+') && |t| > 1 && AllDigits(t[1..]) then
      var magnitude: int := DigitsValue(t[1..]);
      Some(if t[0] == '-' then -magnitude else magnitude)
    else if AllDigits(t) then Some(DigitsValue(t))
    else None
  }

  /** `getSessionExpire` on the raw storage entry: 0 when nothing (or the empty
      text) is stored or the text is not a finite number, otherwise that number. */
  function ReadExpiry(raw: Option<string>): (expire: int)
    ensures expire != 0 ==> raw.Some? && raw.value != "" && ToNumber(raw.value) == Some(expire)
    ensures raw.Some? && raw.value != "" && ToNumber(raw.value).Some? ==> expire == ToNumber(raw.value).value
  {
    if raw.None? || raw.value == "" then 0
    else match ToNumber(raw.value)
      case None => 0
      case Some(n) => n
  }

  /** What `setNewSession` writes reads back as the same timestamp. */
  lemma ExpiryRoundTrip(expire: nat)
    ensures ReadExpiry(Some(NatToString(expire))) == expire
  {
    NatToStringValue(expire);
  }

  /** `hasValidSession` on a read expiry: a nonzero expiry still in the future. */
  predicate IsLive(expire: int, now: nat) {
    expire != 0 && now < expire
  }

  /** A session started at `start` is valid exactly before `start` + 30 minutes. */
  lemma NewSessionWindow(start: nat, now: nat)
    ensures IsLive(ReadExpiry(Some(NatToString(start + SessionDuration))), now)
            <==> now < start + SessionDuration
  {
    ExpiryRoundTrip(start + SessionDuration);
  }

  // ---------------------------------------------------------------------------
  // The countdown label
  // ---------------------------------------------------------------------------

  /** The two fields of `mm:ss`. */
  datatype Clock = Clock(minutes: string, seconds: string)

  /** `totalSec` split into `String(Math.floor(totalSec / 60)).padStart(2, '0')`
      and `String(totalSec % 60).padStart(2, '0')`. */
  function ClockFields(totalSec: nat): Clock {
    Clock(PadStart(NatToString(totalSec / 60), 2, '0'), PadStart(NatToString(totalSec % 60), 2, '0'))
  }

  /** The fields are zero-padded digit strings, at least two digits each,
      the seconds below 60, and they read back as `totalSec`. */
  lemma ClockFieldsValue(totalSec: nat)
    ensures var c := ClockFields(totalSec);
      AllDigits(c.minutes) && AllDigits(c.seconds)
      && |c.minutes| >= 2 && |c.seconds| == 2
      && DigitsValue(c.seconds) < 60
      && DigitsValue(c.minutes) * 60 + DigitsValue(c.seconds) == totalSec
  {
    TwoDigitField(totalSec / 60);
    TwoDigitField(totalSec % 60);
  }

  /** The label the countdown shows for `diff` milliseconds left (diff > 0, so
      JavaScript's `Math.floor(diff / 1000)` is Dafny's division). */
  function CountdownLabel(diff: int): string
    requires diff > 0
  {
    var c := ClockFields(diff / 1000);
    RemainingPrefix + c.minutes + ":" + c.seconds
  }

  /** The label reads back as the remaining whole seconds: `mm * 60 + ss`
      seconds is at most `diff` milliseconds and within one second of it. */
  lemma CountdownLabelReadsBack(diff: int)
    requires diff > 0
    ensures var c := ClockFields(diff / 1000);
      CountdownLabel(diff) == RemainingPrefix + c.minutes + ":" + c.seconds
      && (DigitsValue(c.minutes) * 60 + DigitsValue(c.seconds)) * 1000 <= diff
      < (DigitsValue(c.minutes) * 60 + DigitsValue(c.seconds) + 1) * 1000
  {
    ClockFieldsValue(diff / 1000);
  }

  /** What one run of the countdown's `update` does. */
  datatype TickOutcome =
    | NoSession              // nothing stored: the label is blanked
    | Remaining(shown: string) // the label shows the time left
    | TimeUp                 // the session is cleared and the user alerted

  /** `update` as a function of the stored expiry and the clock. */
  function TickResult(expire: int, now: nat): (t: TickOutcome)
    ensures t.Remaining? <==> IsLive(expire, now)
    ensures t.TimeUp? <==> expire != 0 && !IsLive(expire, now)
    ensures t.NoSession? <==> expire == 0
  {
    if expire == 0 then NoSession
    else if expire - now <= 0 then TimeUp
    else Remaining(CountdownLabel(expire - now))
  }

  // ---------------------------------------------------------------------------
  // The prompt loop of `ensureSession`
  // ---------------------------------------------------------------------------

  /** One answer to `window.prompt`: the text typed, or None for cancel, and
      the clock when the prompt returned. */
  datatype Prompt = Prompt(answer: Option<string>, at: nat)

  /** How `ensureSession` ends. `Cancelled` is the `login-cancelled` error;
      `AwaitingAnswer` means every supplied answer was wrong and the loop is
      still prompting. */
  datatype Login =
    | AlreadyValid
    | LoggedIn(attempt: nat)
    | Cancelled(attempt: nat)
    | AwaitingAnswer

  /** An answer that leaves the loop: cancel, or the password after trimming. */
  predicate Ends(p: Prompt, password: string) {
    p.answer.None? || Trim(p.answer.value) == password
  }

  /** The index of the first answer that leaves the loop, or the number of
      answers when none does. */
  function FirstEnding(answers: seq<Prompt>, password: string): (k: nat)
    ensures k <= |answers|
    ensures forall i :: 0 <= i < k ==> !Ends(answers[i], password)
    ensures k < |answers| ==> Ends(answers[k], password)
    decreases |answers|
  {
    if answers == [] then 0
    else if Ends(answers[0], password) then 0
    else 1 + FirstEnding(answers[1..], password)
  }

  /** The outcome of the prompt loop on a sequence of answers. */
  function PromptLoop(answers: seq<Prompt>, password: string): (r: Login)
    ensures !r.AlreadyValid?
  {
    var k := FirstEnding(answers, password);
    if k == |answers| then AwaitingAnswer
    else if answers[k].answer.None? then Cancelled(k)
    else LoggedIn(k)
  }

  /** The loop logs in at answer `k` exactly when that answer, trimmed, is the
      password and every earlier answer was a wrong password (not a cancel). */
  lemma LoginAt(answers: seq<Prompt>, password: string, k: nat)
    ensures PromptLoop(answers, password) == LoggedIn(k) <==>
      k < |answers| && answers[k].answer.Some? && Trim(answers[k].answer.value) == password
      && forall i :: 0 <= i < k ==> answers[i].answer.Some? && Trim(answers[i].answer.value) != password
  {
    var f := FirstEnding(answers, password);
    if k < |answers| && forall i :: 0 <= i < k ==> answers[i].answer.Some? && Trim(answers[i].answer.value) != password {
      assert forall i :: 0 <= i < k ==> !Ends(answers[i], password);
      assert k <= f;
    }
  }

  /** The loop is cancelled at answer `k` exactly when that answer is a cancel
      and every earlier answer was a wrong password. */
  lemma CancelAt(answers: seq<Prompt>, password: string, k: nat)
    ensures PromptLoop(answers, password) == Cancelled(k) <==>
      k < |answers| && answers[k].answer.None?
      && forall i :: 0 <= i < k ==> answers[i].answer.Some? && Trim(answers[i].answer.value) != password
  {
  }

  /** A wrong answer only re-prompts: the outcome is that of the remaining
      answers, one attempt later. */
  lemma {:induction false} WrongAnswerReprompts(p: Prompt, rest: seq<Prompt>, password: string)
    requires p.answer.Some? && Trim(p.answer.value) != password
    ensures PromptLoop([p] + rest, password) == match PromptLoop(rest, password)
      case LoggedIn(k) => LoggedIn(k + 1)
      case Cancelled(k) => Cancelled(k + 1)
      case other => other
  {
    assert ([p] + rest)[1..] == rest;
  }

  /** The password typed with spaces or line breaks around it is accepted. */
  lemma PaddedPasswordAccepted(today: Day, pre: string, suf: string)
    requires AllSpace(pre) && AllSpace(suf)
    ensures Trim(pre + TodayPassword(today) + suf) == TodayPassword(today)
  {
    var pw := TodayPassword(today);
    assert !IsSpace(pw[0]) && !IsSpace(pw[|pw| - 1]);
    TrimSurrounded(pre, pw, suf);
  }

  // ---------------------------------------------------------------------------
  // The session state of the page
  // ---------------------------------------------------------------------------

  /** The page's session state: the `sessionStorage` entries, whether the
      countdown interval is installed (`sessionTimerInterval`), and the text
      of the countdown label, which may be absent from the page. */
  class SessionGate {
    var storage: map<string, string>
    var timerRunning: bool
    var timerText: string
    const hasTimerLabel: bool

    /** A countdown only runs on a page that has the label to show it. */
    ghost predicate Valid()
      reads this
    {
      timerRunning ==> hasTimerLabel
    }

    /** `sessionStorage.getItem(SESSION_KEY)`. */
    function Stored(): Option<string>
      reads this
    {
      if SessionKey in storage then Some(storage[SessionKey]) else None
    }

    /** `getSessionExpire()`. */
    function Expire(): int
      reads this
    {
      ReadExpiry(Stored())
    }

    /** `hasValidSession()` at time `now`. */
    predicate HasValidSession(now: nat)
      reads this
    {
      IsLive(Expire(), now)
    }

    /** The state `setNewSession` leaves when called at `start` on storage
      `before` and label text `textBefore`: the entry holds start + 30
      minutes, and a page with a label runs the countdown, showing 30:00. */
    ghost predicate StartedAt(start: nat, before: map<string, string>, textBefore: string)
      reads this
    {
      storage == before[SessionKey := NatToString(start + SessionDuration)]
      && Expire() == start + SessionDuration
      && timerRunning == hasTimerLabel
      && timerText == if hasTimerLabel then CountdownLabel(SessionDuration) else textBefore
    }

    /** The page loads with whatever the tab's storage holds, no countdown,
      and the label text the markup gives it. */
    constructor (storage: map<string, string>, hasTimerLabel: bool, timerText: string)
      ensures Valid()
      ensures this.storage == storage && this.hasTimerLabel == hasTimerLabel
      ensures !timerRunning && this.timerText == timerText
    {
      this.storage := storage;
      this.hasTimerLabel := hasTimerLabel;
      timerRunning := false;
      this.timerText := timerText;
    }

    /** `clearSession`: removes the entry and stops the countdown; no session
      is valid afterwards, whatever the time. */
    method ClearSession()
      requires Valid()
      modifies this
      ensures Valid()
      ensures storage == old(storage) - {SessionKey}
      ensures !timerRunning
      ensures timerText == if hasTimerLabel then ExpiredNotice else old(timerText)
      ensures forall now: nat :: !HasValidSession(now)
    {
      storage := storage - {SessionKey};
      timerRunning := false;
      if hasTimerLabel {
        timerText := ExpiredNotice;
      }
    }

    /** One run of the countdown's `update` closure. On `TimeUp` the source
      also alerts and calls `ensureSession` again; here that second login is
      the caller's next `EnsureSession`. */
    method Tick(now: nat) returns (t: TickOutcome)
      requires Valid() && hasTimerLabel
      modifies this
      ensures Valid()
      ensures t == TickResult(old(Expire()), now)
      ensures t.NoSession? ==> storage == old(storage) && timerRunning == old(timerRunning) && timerText == ""
      ensures t.Remaining? ==> storage == old(storage) && timerRunning == old(timerRunning) && timerText == t.shown
      ensures t.TimeUp? ==> storage == old(storage) - {SessionKey} && !timerRunning && timerText == ExpiredNotice
    {
      var expire := Expire();
      if expire == 0 {
        timerText := "";
        return NoSession;
      }
      var diff := expire - now;
      if diff <= 0 {
        assert TickResult(expire, now) == TimeUp;
        ClearSession();
        return TimeUp;
      }
      timerText := CountdownLabel(diff);
      assert TickResult(expire, now) == Remaining(timerText);
      return Remaining(timerText);
    }

    /** `startSessionCountdown`: nothing without a label; otherwise one
      immediate `update` and then the (re)installed interval. */
    method StartCountdown(now: nat) returns (t: Option<TickOutcome>)
      requires Valid()
      modifies this
      ensures Valid()
      ensures !hasTimerLabel ==> t == None && unchanged(this)
      ensures hasTimerLabel ==> t == Some(TickResult(old(Expire()), now)) && timerRunning
      ensures hasTimerLabel ==> match t.value
        case NoSession => storage == old(storage) && timerText == ""
        case Remaining(shown) => storage == old(storage) && timerText == shown
        case TimeUp => storage == old(storage) - {SessionKey} && timerText == ExpiredNotice
    {
      if !hasTimerLabel {
        return None;
      }
      var tick := Tick(now);
      timerRunning := true;
      return Some(tick);
    }

    /** `setNewSession` at time `now`: stores now + 30 minutes and starts the
      countdown, which at once shows the full 30:00. */
    method SetNewSession(now: nat)
      requires Valid()
      modifies this
      ensures Valid()
      ensures StartedAt(now, old(storage), old(timerText))
    {
      var expire := now + SessionDuration;
      storage := storage[SessionKey := NatToString(expire)];
      ExpiryRoundTrip(expire);
      assert Expire() == expire;
      var _ := StartCountdown(now);
    }

    /** `ensureSession`: returns at once on a valid session; otherwise
      computes the password of `today` once and prompts for it. */
    method EnsureSession(today: Day, now: nat, answers: seq<Prompt>) returns (login: Login)
      requires Valid()
      modifies this
      ensures Valid()
      ensures old(HasValidSession(now)) ==> login == AlreadyValid
      ensures !old(HasValidSession(now)) ==> login == PromptLoop(answers, TodayPassword(today))
      ensures !login.LoggedIn? ==> unchanged(this)
      ensures login.LoggedIn? ==> login.attempt < |answers|
      ensures login.LoggedIn? ==> StartedAt(answers[login.attempt].at, old(storage), old(timerText))
    {
      if HasValidSession(now) {
        return AlreadyValid;
      }
      var password := TodayPassword(today);
      login := AskPassword(password, answers);
    }

    /** The `while (true)` prompt loop of `ensureSession`: a cancel ends it
      with `login-cancelled` and changes nothing; an answer equal to the
      password after trimming starts a session at the time of that answer;
      any other answer is rejected and the user is asked again. */
    method AskPassword(password: string, answers: seq<Prompt>) returns (login: Login)
      requires Valid()
      modifies this
      ensures Valid()
      ensures login == PromptLoop(answers, password)
      ensures !login.LoggedIn? ==> unchanged(this)
      ensures login.LoggedIn? ==> login.attempt < |answers|
      ensures login.LoggedIn? ==> StartedAt(answers[login.attempt].at, old(storage), old(timerText))
    {
      var i := 0;
      while i < |answers|
        invariant 0 <= i <= |answers|
        invariant forall k :: 0 <= k < i ==> !Ends(answers[k], password)
        invariant unchanged(this)
      {
        match answers[i].answer {
          case None =>
            assert FirstEnding(answers, password) == i;
            return Cancelled(i);
          case Some(text) =>
            if Trim(text) == password {
              assert FirstEnding(answers, password) == i;
              SetNewSession(answers[i].at);
              return LoggedIn(i);
            }
        }
        i := i + 1;
      }
      assert FirstEnding(answers, password) == |answers|;
      return AwaitingAnswer;
    }

    /** The page-load step: resume a still-valid session by starting its
      countdown, otherwise ask for the password once (a cancel leaves the
      page logged out). */
    method OnLoad(today: Day, now: nat, answers: seq<Prompt>) returns (login: Login)
      requires Valid()
      modifies this
      ensures Valid()
      ensures old(HasValidSession(now)) ==> login == AlreadyValid && storage == old(storage)
      ensures old(HasValidSession(now)) && hasTimerLabel ==>
        timerRunning && timerText == CountdownLabel(old(Expire()) - now)
      ensures old(HasValidSession(now)) && !hasTimerLabel ==> unchanged(this)
      ensures !old(HasValidSession(now)) ==> login == PromptLoop(answers, TodayPassword(today))
      ensures !login.LoggedIn? && !login.AlreadyValid? ==> unchanged(this)
      ensures login.LoggedIn? ==>
        login.attempt < |answers| && StartedAt(answers[login.attempt].at, old(storage), old(timerText))
    {
      if HasValidSession(now) {
        ghost var expire := Expire();
        assert TickResult(expire, now) == Remaining(CountdownLabel(expire - now));
        var _ := StartCountdown(now);
        login := AlreadyValid;
      } else {
        login := EnsureSession(today, now, answers);
      }
    }
  }
}
