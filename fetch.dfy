/**
 * Fetching the outstanding amount of one account from the carrier's payment pages
 * (main.py:114-162): the URL chosen for the account, one fetch through a browser, and the retry
 * loop that opens a fresh browser for every attempt.
 *
 * The browser is not modelled. What a browser session does for one attempt is an oracle value
 * (`Attempt`), and what the loop does with browsers is recorded as a trace of `Event`s, so that
 * "every browser that was opened is closed" is a statement about that trace.
 */
module Fetch {
  import opened Wrappers
  import opened Normalize

  const RETRIES_PER_ACCOUNT: nat := 3

  const QUICKPAY_URL := "https://app.sa.zain.com/ar/quickpay?account="
  const CONTRACT_URL := "https://app.sa.zain.com/ar/contract-payment?contract="

  predicate StartsWith(s: string, prefix: string) {
    |prefix| <= |s| && s[..|prefix|] == prefix
  }

  /** Accounts whose text starts with '2' are paid through the quick-pay page. */
  predicate IsQuickpayAccount(account: string) {
    |account| > 0 && account[0] == '2'
  }

  /** Neither page template is a prefix of an address built on the other one. */
  lemma TemplatesDiffer(account: string)
    ensures !StartsWith(CONTRACT_URL + account, QUICKPAY_URL)
    ensures !StartsWith(QUICKPAY_URL + account, CONTRACT_URL)
  {
    assert (CONTRACT_URL + account)[27] == 'c' && QUICKPAY_URL[27] == 'q';
    assert (QUICKPAY_URL + account)[27] == 'q' && CONTRACT_URL[27] == 'c';
  }

  /**
   * The page address `fetch_amount_once` opens (main.py:116-119): the quick-pay template exactly
   * when the account starts with '2', the contract-payment template otherwise, with the account
   * appended unchanged.
   */
  function FetchUrl(account: string): (url: string)
    ensures StartsWith(url, QUICKPAY_URL) <==> IsQuickpayAccount(account)
    ensures StartsWith(url, CONTRACT_URL) <==> !IsQuickpayAccount(account)
    ensures |account| <= |url| && url[|url| - |account|..] == account
  {
    TemplatesDiffer(account);
    if IsQuickpayAccount(account) then QUICKPAY_URL + account else CONTRACT_URL + account
  }

  /** Reads the account back from a page address, when the address is one `FetchUrl` can build. */
  function RoutedAccount(url: string): (r: Option<string>)
    ensures r.Some? ==> |r.value| <= |url| && url[|url| - |r.value|..] == r.value
  {
    if StartsWith(url, QUICKPAY_URL) && IsQuickpayAccount(url[|QUICKPAY_URL|..]) then
      Some(url[|QUICKPAY_URL|..])
    else if StartsWith(url, CONTRACT_URL) && !IsQuickpayAccount(url[|CONTRACT_URL|..]) then
      Some(url[|CONTRACT_URL|..])
    else None
  }

  /** The address names its account: reading it back gives the account, and only that address
      reads back to it, so distinct accounts never share a page. */
  lemma FetchUrlRoundTrip(account: string, url: string)
    ensures RoutedAccount(FetchUrl(account)) == Some(account)
    ensures RoutedAccount(url) == Some(account) ==> url == FetchUrl(account)
  {
    var u := FetchUrl(account);
    if IsQuickpayAccount(account) {
      assert u[|QUICKPAY_URL|..] == account;
    } else {
      assert u[|CONTRACT_URL|..] == account;
    }
    if RoutedAccount(url) == Some(account) {
      if StartsWith(url, QUICKPAY_URL) && IsQuickpayAccount(url[|QUICKPAY_URL|..]) {
        assert url == url[..|QUICKPAY_URL|] + url[|QUICKPAY_URL|..];
      } else {
        assert url == url[..|CONTRACT_URL|] + url[|CONTRACT_URL|..];
      }
    }
  }

  // ---------------------------------------------------------------------------------------
  // One attempt: fetch_amount_once
  // ---------------------------------------------------------------------------------------

  /** What the browser does with the page of one attempt. */
  datatype PageLoad =
    | NavigationRaised                 // `driver.get(url)` raised; the error leaves the function
    | AmountFieldMissing               // waiting for the amount field timed out or failed
    | ReadRaised                       // reading the field's `value` attribute raised
    | FieldValue(value: Option<string>) // the `value` attribute as read (None when absent)

  /** How `fetch_amount_once` ends: by raising, or by returning an amount or `None`. */
  datatype OnceOutcome = Raised | Returned(amount: Option<real>)

  /** `elem.get_attribute("value") or ""`. */
  function ValueText(value: Option<string>): string {
    if value.Some? then value.value else ""
  }

  /** The outcome of `fetch_amount_once` (main.py:114-138) for a page that behaves as `page`. */
  function OnceSpec(page: PageLoad): OnceOutcome {
    match page
    case NavigationRaised => Raised
    case AmountFieldMissing => Returned(None)
    case ReadRaised => Returned(None)
    case FieldValue(value) => Returned(Some(AmountOf(Str(ValueText(value)))))
  }

  /**
   * `fetch_amount_once`: builds the address, navigates, and turns the field's text into an
   * amount with `to_float_safe`. Returns the address it navigated to as well.
   */
  method FetchAmountOnce(account: string, page: PageLoad) returns (url: string, outcome: OnceOutcome)
    ensures url == FetchUrl(account)
    ensures outcome == OnceSpec(page)
  {
    url := FetchUrl(account);
    match page
    case NavigationRaised =>
      outcome := Raised;
    case AmountFieldMissing =>
      outcome := Returned(None);
    case ReadRaised =>
      outcome := Returned(None);
    case FieldValue(value) =>
      var amountText := if value.Some? && value.value != "" then value.value else "";
      var amount := ToFloatSafe(Str(amountText));
      outcome := Returned(Some(amount));
  }

  /** A page whose amount field is empty or has no `value` yields the amount 0.0, not `None`:
      the attempt counts as a success. */
  lemma EmptyFieldReadsAsZero(value: Option<string>)
    requires value.None? || value.value == ""
    ensures OnceSpec(FieldValue(value)) == Returned(Some(0.0))
  {
    assert ValueText(value) == "";
    assert Translate("") == "";
    assert IndexOfDot("") == 0;
  }

  /** Whatever the page shows, a fetched amount is never negative. */
  lemma FetchedAmountNonNegative(page: PageLoad)
    requires OnceSpec(page).Returned? && OnceSpec(page).amount.Some?
    ensures OnceSpec(page).amount.value >= 0.0
  {
  }

  // ---------------------------------------------------------------------------------------
  // The retry loop: get_amount_from_zain_with_retry
  // ---------------------------------------------------------------------------------------

  /** What one attempt of the retry loop meets: the browser could not be created, or it was
      created and the page behaved as `page`. */
  datatype Attempt = DriverCreationFailed | WithDriver(page: PageLoad)

  /** What the loop does with browsers and time, in order. */
  datatype Event = Acquire | Navigate(url: string) | Quit | Sleep

  /** The amount one attempt produces; `None` when it failed or raised. */
  function AttemptAmount(a: Attempt): Option<real> {
    match a
    case DriverCreationFailed => None
    case WithDriver(page) => if OnceSpec(page).Returned? then OnceSpec(page).amount else None
  }

  /** The browser events of one attempt: none when no browser was created; otherwise it is
      created, navigated to the account's page, and quit in the `finally` clause. */
  function AttemptEvents(account: string, a: Attempt): seq<Event> {
    match a
    case DriverCreationFailed => []
    case WithDriver(_) => [Acquire, Navigate(FetchUrl(account)), Quit]
  }

  /** The amount the retry loop returns when it reaches attempt `k` of `xs`: the first amount
      that is not `None` from attempt `k` on. */
  function RetryAmount(xs: seq<Attempt>, k: nat): Option<real>
    decreases |xs| - k
  {
    if k >= |xs| then None
    else if AttemptAmount(xs[k]).Some? then AttemptAmount(xs[k])
    else RetryAmount(xs, k + 1)
  }

  /** The events of the retry loop from attempt `k` of `xs` on: a failed attempt is followed by
      a pause, a successful one ends the loop. */
  function RetryTrace(account: string, xs: seq<Attempt>, k: nat): seq<Event>
    decreases |xs| - k
  {
    if k >= |xs| then []
    else if AttemptAmount(xs[k]).Some? then AttemptEvents(account, xs[k])
    else AttemptEvents(account, xs[k]) + [Sleep] + RetryTrace(account, xs, k + 1)
  }

  /**
   * `get_amount_from_zain_with_retry` (main.py:140-162) with the browser's behaviour on attempt
   * `k` (counting from 0) given by `attempts[k]`. Every attempt creates a browser, fetches once,
   * and quits the browser whatever happened; a fetched amount (0.0 included) is returned at once,
   * and every failed attempt, the last one included, is followed by a pause.
   */
  method GetAmountWithRetry(account: string, attempts: seq<Attempt>) returns (amount: Option<real>, trace: seq<Event>)
    requires |attempts| >= RETRIES_PER_ACCOUNT
    ensures amount == RetryAmount(attempts[..RETRIES_PER_ACCOUNT], 0)
    ensures trace == RetryTrace(account, attempts[..RETRIES_PER_ACCOUNT], 0)
  {
    ghost var xs := attempts[..RETRIES_PER_ACCOUNT];
    trace := [];
    for attempt := 1 to RETRIES_PER_ACCOUNT + 1
      invariant RetryAmount(xs, attempt - 1) == RetryAmount(xs, 0)
      invariant trace + RetryTrace(account, xs, attempt - 1) == RetryTrace(account, xs, 0)
    {
      ghost var a := xs[attempt - 1];
      assert a == attempts[attempt - 1];
      // the browser events of this attempt
      var events: seq<Event> := [];
      var fetched: Option<real> := None;
      var driverLive := false;
      match attempts[attempt - 1] {
        case DriverCreationFailed =>
        case WithDriver(page) =>
          events := [Acquire];
          driverLive := true;
          var url, outcome := FetchAmountOnce(account, page);
          events := events + [Navigate(url)];
          if outcome.Returned? {
            fetched := outcome.amount;
          }
      }
      if driverLive {
        events := events + [Quit];
      }
      assert events == AttemptEvents(account, a) && fetched == AttemptAmount(a);
      if fetched.Some? {
        trace := trace + events;
        return fetched, trace;
      }
      assert trace + ((events + [Sleep]) + RetryTrace(account, xs, attempt))
        == trace + (events + [Sleep]) + RetryTrace(account, xs, attempt);
      trace := trace + (events + [Sleep]);
    }
    return None, trace;
  }

  // ---------------------------------------------------------------------------------------
  // What the retry loop promises
  // ---------------------------------------------------------------------------------------

  /** How often `e` occurs in `t`. */
  function CountOf(e: Event, t: seq<Event>): nat {
    if t == [] then 0 else (if t[0] == e then 1 else 0) + CountOf(e, t[1..])
  }

  /**
   * Browser discipline along a trace, starting with a browser open (`live`) or not: a browser is
   * only created when none is open, it only navigates to `url` while it is open, the loop only
   * pauses when no browser is open, and no browser is left open at the end.
   */
  predicate Disciplined(t: seq<Event>, url: string, live: bool)
    decreases |t|
  {
    if t == [] then !live
    else match t[0]
      case Acquire => !live && Disciplined(t[1..], url, true)
      case Navigate(u) => live && u == url && Disciplined(t[1..], url, true)
      case Quit => live && Disciplined(t[1..], url, false)
      case Sleep => !live && Disciplined(t[1..], url, false)
  }

  lemma {:induction false} CountOfAppend(e: Event, a: seq<Event>, b: seq<Event>)
    ensures CountOf(e, a + b) == CountOf(e, a) + CountOf(e, b)
  {
    if a == [] {
      assert a + b == b;
    } else {
      assert (a + b)[1..] == a[1..] + b;
      CountOfAppend(e, a[1..], b);
    }
  }

  lemma {:induction false} DisciplinedAppend(a: seq<Event>, b: seq<Event>, url: string, live: bool)
    requires Disciplined(a, url, live) && Disciplined(b, url, false)
    ensures Disciplined(a + b, url, live)
  {
    if a == [] {
      assert a + b == b;
    } else {
      assert (a + b)[0] == a[0] && (a + b)[1..] == a[1..] + b;
      match a[0]
      case Acquire => DisciplinedAppend(a[1..], b, url, true);
      case Navigate(_) => DisciplinedAppend(a[1..], b, url, true);
      case Quit => DisciplinedAppend(a[1..], b, url, false);
      case Sleep => DisciplinedAppend(a[1..], b, url, false);
    }
  }

  /** In a disciplined trace every created browser is quit exactly once: creations and quits
      balance, up to the one browser still open. */
  lemma {:induction false} DisciplinedBalances(t: seq<Event>, url: string, live: bool)
    requires Disciplined(t, url, live)
    ensures CountOf(Acquire, t) + (if live then 1 else 0) == CountOf(Quit, t)
  {
    if t != [] {
      match t[0]
      case Acquire => DisciplinedBalances(t[1..], url, true);
      case Navigate(_) => DisciplinedBalances(t[1..], url, true);
      case Quit => DisciplinedBalances(t[1..], url, false);
      case Sleep => DisciplinedBalances(t[1..], url, false);
    }
  }

  /** Each attempt on its own keeps the discipline, opens at most one browser and never pauses. */
  lemma AttemptDisciplined(account: string, a: Attempt)
    ensures Disciplined(AttemptEvents(account, a), FetchUrl(account), false)
    ensures CountOf(Acquire, AttemptEvents(account, a)) <= 1
    ensures CountOf(Sleep, AttemptEvents(account, a)) == 0
  {
    var url := FetchUrl(account);
    if a.WithDriver? {
      var t := AttemptEvents(account, a);
      assert t == [Acquire] + ([Navigate(url)] + [Quit]);
      assert Disciplined([Quit], url, true);
      assert Disciplined([Navigate(url)] + [Quit], url, true);
      assert CountOf(Acquire, [Quit]) == 0 && CountOf(Sleep, [Quit]) == 0;
      assert CountOf(Acquire, [Navigate(url)] + [Quit]) == 0;
      assert CountOf(Sleep, [Navigate(url)] + [Quit]) == 0;
    }
  }

  /**
   * The retry loop keeps the browser discipline from any attempt `k` on: every browser it
   * creates is navigated only to the account's page and quit exactly once before the next step,
   * even when the fetch raised, and it creates at most one browser per remaining attempt.
   */
  lemma {:induction false} RetryReleasesEveryDriver(account: string, xs: seq<Attempt>, k: nat)
    requires k <= |xs|
    ensures Disciplined(RetryTrace(account, xs, k), FetchUrl(account), false)
    ensures CountOf(Acquire, RetryTrace(account, xs, k)) == CountOf(Quit, RetryTrace(account, xs, k))
    ensures CountOf(Acquire, RetryTrace(account, xs, k)) <= |xs| - k
    decreases |xs| - k
  {
    var url := FetchUrl(account);
    if k < |xs| {
      var e := AttemptEvents(account, xs[k]);
      AttemptDisciplined(account, xs[k]);
      if AttemptAmount(xs[k]).None? {
        RetryReleasesEveryDriver(account, xs, k + 1);
        var rest := RetryTrace(account, xs, k + 1);
        assert Disciplined([Sleep] + rest, url, false) by {
          assert ([Sleep] + rest)[1..] == rest;
        }
        DisciplinedAppend(e, [Sleep] + rest, url, false);
        assert e + [Sleep] + rest == e + ([Sleep] + rest);
        CountOfAppend(Acquire, e, [Sleep] + rest);
        assert CountOf(Acquire, [Sleep] + rest) == CountOf(Acquire, rest) by {
          assert ([Sleep] + rest)[1..] == rest;
        }
      }
    }
    DisciplinedBalances(RetryTrace(account, xs, k), url, false);
  }

  /** The attempt at which the loop stops when it reaches attempt `k`: the first one from `k`
      on that yields an amount, or `|xs|` when none does. */
  function StopIndex(xs: seq<Attempt>, k: nat): nat
    decreases |xs| - k
  {
    if k >= |xs| then |xs|
    else if AttemptAmount(xs[k]).Some? then k
    else StopIndex(xs, k + 1)
  }

  /** The attempt the loop stops at is the first one from `k` on that yields an amount. */
  lemma {:induction false} StopIndexIsFirstSuccess(xs: seq<Attempt>, k: nat)
    requires k <= |xs|
    ensures k <= StopIndex(xs, k) <= |xs|
    ensures forall j :: k <= j < StopIndex(xs, k) ==> AttemptAmount(xs[j]).None?
    ensures StopIndex(xs, k) < |xs| ==> AttemptAmount(xs[StopIndex(xs, k)]).Some?
    decreases |xs| - k
  {
    if k < |xs| && AttemptAmount(xs[k]).None? {
      StopIndexIsFirstSuccess(xs, k + 1);
    }
  }

  /**
   * The loop returns the amount of the attempt it stops at, and `None` only when every attempt
   * failed.
   */
  lemma {:induction false} RetryReturnsFirstAmount(xs: seq<Attempt>, k: nat)
    requires k <= |xs|
    ensures StopIndex(xs, k) < |xs| ==> RetryAmount(xs, k) == AttemptAmount(xs[StopIndex(xs, k)])
    ensures StopIndex(xs, k) >= |xs| ==> RetryAmount(xs, k).None?
    decreases |xs| - k
  {
    if k < |xs| && AttemptAmount(xs[k]).None? {
      RetryReturnsFirstAmount(xs, k + 1);
    }
  }

  /** One pause follows every failed attempt the loop makes, the last one included. */
  lemma {:induction false} RetryPausesAfterEachFailure(account: string, xs: seq<Attempt>, k: nat)
    requires k <= |xs|
    ensures CountOf(Sleep, RetryTrace(account, xs, k)) == StopIndex(xs, k) - k
    decreases |xs| - k
  {
    if k < |xs| {
      AttemptDisciplined(account, xs[k]);
      if AttemptAmount(xs[k]).None? {
        RetryPausesAfterEachFailure(account, xs, k + 1);
        var e, rest := AttemptEvents(account, xs[k]), RetryTrace(account, xs, k + 1);
        assert CountOf(Sleep, [Sleep]) == 1 by {
          assert [Sleep][1..] == [];
        }
        CountOfAppend(Sleep, e + [Sleep], rest);
        CountOfAppend(Sleep, e, [Sleep]);
      }
    }
  }

  /** A fetched 0.0 is a success: the loop stops after that attempt, without a pause. */
  lemma ZeroStopsRetrying(account: string, xs: seq<Attempt>, k: nat)
    requires k < |xs| && AttemptAmount(xs[k]) == Some(0.0)
    ensures RetryAmount(xs, k) == Some(0.0)
    ensures RetryTrace(account, xs, k) == AttemptEvents(account, xs[k])
  {
  }

  /** The loop opens at most `RETRIES_PER_ACCOUNT` browsers and quits each of them, and pauses
      `RETRIES_PER_ACCOUNT` times when it gives up. */
  lemma RetryBounded(account: string, attempts: seq<Attempt>)
    requires |attempts| >= RETRIES_PER_ACCOUNT
    ensures var t := RetryTrace(account, attempts[..RETRIES_PER_ACCOUNT], 0);
      CountOf(Acquire, t) == CountOf(Quit, t) <= RETRIES_PER_ACCOUNT
    ensures RetryAmount(attempts[..RETRIES_PER_ACCOUNT], 0).None? ==>
      CountOf(Sleep, RetryTrace(account, attempts[..RETRIES_PER_ACCOUNT], 0)) == RETRIES_PER_ACCOUNT
  {
    var xs := attempts[..RETRIES_PER_ACCOUNT];
    RetryReleasesEveryDriver(account, xs, 0);
    StopIndexIsFirstSuccess(xs, 0);
    RetryReturnsFirstAmount(xs, 0);
    RetryPausesAfterEachFailure(account, xs, 0);
  }
}
