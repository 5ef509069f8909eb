/** The price-check page itself: the barcode field, the scanner's repeat
    memory and the result panels, with the search and scan handlers that
    go through the login gate first. */
module Page {
  import opened Optional
  import opened Text
  import opened Session
  import opened Lookup
  import opened Scanner

  /** How a search ended: the login outcome, and whether a lookup ran and
      sent a request. */
  datatype Search = Search(login: Login, looked: bool, requested: bool)

  /** Whether a login outcome lets the action behind it go on: the promise
      of `ensureSession` resolves on a valid or a new session only. */
  predicate Proceeds(login: Login) {
    login.AlreadyValid? || login.LoggedIn?
  }

  class PriceCheckPage {
    /** Whether the page has the barcode field at all. */
    const hasBarcodeInput: bool
    /** The text in the barcode field. */
    var barcodeInput: string
    /** `lastDetectedCode` and `lastDetectedTime`. */
    var lastCode: string
    var lastTime: nat
    /** The error and result panels. */
    var panels: Panels

    /** The memory of the repeat filter. */
    function Remembered(): Memory
      reads this
    {
      Memory(lastCode, lastTime)
    }

    /** The page as loaded: an empty field, the repeat filter at its start
        value, and the panels as the markup has them. */
    constructor (hasBarcodeInput: bool, panels: Panels)
      ensures this.hasBarcodeInput == hasBarcodeInput && this.panels == panels
      ensures barcodeInput == "" && Remembered() == Initial
    {
      this.hasBarcodeInput := hasBarcodeInput;
      barcodeInput := "";
      lastCode := "";
      lastTime := 0;
      this.panels := panels;
    }

    /** The barcode a search looks up: the trimmed field, or the empty text
        on a page without the field. */
    function Barcode(): string
      reads this
    {
      if hasBarcodeInput then Trim(barcodeInput) else ""
    }

    /** `handleSearch` at time `now`: through the login gate first; on a
        cancel or an unanswered prompt nothing else happens, otherwise the
        trimmed field is looked up with the server's `response`. */
    method HandleSearch(gate: SessionGate, today: Day, now: nat, answers: seq<Prompt>, response: Response)
      returns (s: Search)
      requires gate.Valid()
      modifies this`panels, gate
      ensures gate.Valid()
      ensures old(gate.HasValidSession(now)) ==> s.login == AlreadyValid
      ensures !old(gate.HasValidSession(now)) ==> s.login == PromptLoop(answers, TodayPassword(today))
      ensures !s.login.LoggedIn? ==> unchanged(gate)
      ensures s.login.LoggedIn? ==>
        s.login.attempt < |answers|
        && gate.StartedAt(answers[s.login.attempt].at, old(gate.storage), old(gate.timerText))
      ensures s.looked == Proceeds(s.login)
      ensures s.looked ==> FetchAndShow(old(panels), Barcode(), response) == Lookup(s.requested, panels)
      ensures !s.looked ==> !s.requested && panels == old(panels)
    {
      var login := gate.EnsureSession(today, now, answers);
      if !Proceeds(login) {
        return Search(login, false, false);
      }
      var r := FetchAndShow(panels, Barcode(), response);
      panels := r.panels;
      return Search(login, true, r.requested);
    }

    /** `onBarcodeDetected` at time `now`: a detection the repeat filter
        admits is remembered, written into the field and searched for at
        once; any other detection changes nothing. */
    method OnBarcodeDetected(gate: SessionGate, detected: Option<string>, now: nat,
                             today: Day, answers: seq<Prompt>, response: Response)
      returns (search: Option<Search>)
      requires gate.Valid()
      modifies this, gate
      ensures gate.Valid()
      ensures Remembered() == Step(old(Remembered()), detected, now)
      ensures search.Some? <==> Admits(old(Remembered()), detected, now)
      ensures search.None? ==> unchanged(this) && unchanged(gate)
      ensures search.Some? ==> barcodeInput == (if hasBarcodeInput then detected.value else old(barcodeInput))
      ensures search.Some? ==> var login := search.value.login;
        (old(gate.HasValidSession(now)) ==> login == AlreadyValid)
        && (!old(gate.HasValidSession(now)) ==> login == PromptLoop(answers, TodayPassword(today)))
        && (search.value.looked == Proceeds(login))
        && (search.value.looked ==> FetchAndShow(old(panels), Barcode(), response)
                                      == Lookup(search.value.requested, panels))
        && (!search.value.looked ==> panels == old(panels))
        && (!login.LoggedIn? ==> unchanged(gate))
        && (login.LoggedIn? ==>
              login.attempt < |answers|
              && gate.StartedAt(answers[login.attempt].at, old(gate.storage), old(gate.timerText)))
    {
      if detected.None? || detected.value == "" {
        return None;
      }
      var code := detected.value;
      if code == lastCode && now - lastTime < RepeatWindow {
        return None;
      }
      lastCode := code;
      lastTime := now;
      if hasBarcodeInput {
        barcodeInput := code;
      }
      var s := HandleSearch(gate, today, now, answers, response);
      return Some(s);
    }

    /** The scan button: the scanner is started only once the login gate
        lets the user through. */
    method OnScanButton(gate: SessionGate, today: Day, now: nat, answers: seq<Prompt>)
      returns (login: Login, startScanner: bool)
      requires gate.Valid()
      modifies gate
      ensures gate.Valid()
      ensures old(gate.HasValidSession(now)) ==> login == AlreadyValid
      ensures !old(gate.HasValidSession(now)) ==> login == PromptLoop(answers, TodayPassword(today))
      ensures startScanner == Proceeds(login)
      ensures !login.LoggedIn? ==> unchanged(gate)
      ensures login.LoggedIn? ==>
        login.attempt < |answers|
        && gate.StartedAt(answers[login.attempt].at, old(gate.storage), old(gate.timerText))
    {
      login := gate.EnsureSession(today, now, answers);
      startScanner := Proceeds(login);
    }
  }
}
