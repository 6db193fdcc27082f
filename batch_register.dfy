/**
 * Batch registration (`BatchRegistration`) and the registration variant it
 * drives (`ModifiedCursorRegistration`), which reads the account's usage
 * limit and session token from the signed-in browser page.  The browser
 * flow itself is not part of this model: each attempt's outcome, the
 * settings page and the cookie reads are inputs.
 */
module Batch {
  import opened Wrappers
  import opened Text
  import opened Accounts

  /** The details an attempt reports once it signed up an account. */
  datatype AccountInfo = AccountInfo(email: string, password: string, token: string, usageLimit: string)

  /** What one `registration.start()` did: raised, returned falsy, or signed up an account. */
  datatype Attempt = Raised | Failed | Registered(info: AccountInfo)

  /** The accounts signed up by `attempts`, in order. */
  function Successes(attempts: seq<Attempt>): (r: seq<AccountInfo>)
    ensures |r| <= |attempts|
  {
    if attempts == [] then []
    else
      var last := attempts[|attempts| - 1];
      Successes(attempts[..|attempts| - 1]) + (if last.Registered? then [last.info] else [])
  }

  /** Every account in `Successes(attempts)` comes from a successful attempt, and vice versa. */
  lemma {:induction false} SuccessesExactly(attempts: seq<Attempt>, info: AccountInfo)
    ensures info in Successes(attempts) <==> Registered(info) in attempts
  {
    if attempts != [] {
      var init := attempts[..|attempts| - 1];
      SuccessesExactly(init, info);
      assert attempts == init + [attempts[|attempts| - 1]];
    }
  }

  /**
   * The cooldowns taken in the first `n` of `attempts`: one after each
   * attempt that did not raise, except the last attempt of the batch.
   */
  function Cooldowns(attempts: seq<Attempt>, n: nat): (r: nat)
    requires n <= |attempts|
    ensures r <= n
    ensures r == 0 || r < |attempts|
  {
    if n == 0 then 0
    else Cooldowns(attempts, n - 1) + (if n < |attempts| && !attempts[n - 1].Raised? then 1 else 0)
  }

  /** A batch whose attempts never raise waits between each pair of neighbours. */
  lemma {:induction false} CooldownsWithoutRaise(attempts: seq<Attempt>, n: nat)
    requires n <= |attempts|
    requires forall j :: 0 <= j < |attempts| ==> !attempts[j].Raised?
    ensures Cooldowns(attempts, n) == if n == |attempts| && n > 0 then n - 1 else n
  {
    if n > 0 {
      CooldownsWithoutRaise(attempts, n - 1);
    }
  }

  /**
   * What the successful attempts of `attempts` hand to `add_account`: each
   * account with the time of its attempt, in order.
   */
  function Offers(attempts: seq<Attempt>, clock: seq<string>): (r: seq<(AccountInfo, string)>)
    requires |clock| == |attempts|
    ensures |r| == |Successes(attempts)|
  {
    if attempts == [] then []
    else
      var n := |attempts| - 1;
      Offers(attempts[..n], clock[..n]) + (if attempts[n].Registered? then [(attempts[n].info, clock[n])] else [])
  }

  /** The offers carry the remembered accounts, in the same order. */
  lemma {:induction false} OffersAreSuccesses(attempts: seq<Attempt>, clock: seq<string>)
    requires |clock| == |attempts|
    ensures forall k :: 0 <= k < |Offers(attempts, clock)| ==> Offers(attempts, clock)[k].0 == Successes(attempts)[k]
  {
    if attempts != [] {
      var n := |attempts| - 1;
      OffersAreSuccesses(attempts[..n], clock[..n]);
    }
  }

  /** The requests `add_account(info.email, ...)` the successful attempts of `attempts` make, in order. */
  ghost function AddCalls(attempts: seq<Attempt>): seq<StoreCall> {
    if attempts == [] then []
    else
      var last := attempts[|attempts| - 1];
      AddCalls(attempts[..|attempts| - 1]) + (if last.Registered? then [AddCall(last.info.email)] else [])
  }

  /**
   * `trace` lists the store before each offer and after the last one, and
   * each step is what `add_account` may do with that offer.
   */
  ghost predicate OfferedInTurn(trace: seq<seq<Account>>, offers: seq<(AccountInfo, string)>) {
    && |trace| == |offers| + 1
    && forall k :: 0 <= k < |offers| ==>
         AddOutcome(trace[k], trace[k + 1], offers[k].0.email, offers[k].0.password,
                    offers[k].0.token, offers[k].0.usageLimit, offers[k].1)
  }

  /** Taking one more attempt extends the successes and the offers by that attempt's account, if any. */
  lemma OffersStep(attempts: seq<Attempt>, clock: seq<string>, i: nat)
    requires 0 < i <= |attempts| == |clock|
    ensures Successes(attempts[..i]) == Successes(attempts[..i - 1])
      + (if attempts[i - 1].Registered? then [attempts[i - 1].info] else [])
    ensures Offers(attempts[..i], clock[..i]) == Offers(attempts[..i - 1], clock[..i - 1])
      + (if attempts[i - 1].Registered? then [(attempts[i - 1].info, clock[i - 1])] else [])
    ensures AddCalls(attempts[..i]) == AddCalls(attempts[..i - 1])
      + (if attempts[i - 1].Registered? then [AddCall(attempts[i - 1].info.email)] else [])
  {
    assert attempts[..i][..i - 1] == attempts[..i - 1];
    assert clock[..i][..i - 1] == clock[..i - 1];
  }

  /** One more offer, handled as `add_account` may handle it, extends the trace. */
  lemma OfferedInTurnStep(trace: seq<seq<Account>>, offers: seq<(AccountInfo, string)>,
                          after: seq<Account>, offer: (AccountInfo, string))
    requires OfferedInTurn(trace, offers)
    requires AddOutcome(trace[|trace| - 1], after, offer.0.email, offer.0.password,
                        offer.0.token, offer.0.usageLimit, offer.1)
    ensures OfferedInTurn(trace + [after], offers + [offer])
  {
    var t := trace + [after];
    var o := offers + [offer];
    forall k | 0 <= k < |o|
      ensures AddOutcome(t[k], t[k + 1], o[k].0.email, o[k].0.password, o[k].0.token, o[k].0.usageLimit, o[k].1)
    {
      if k < |offers| {
        assert t[k] == trace[k] && t[k + 1] == trace[k + 1] && o[k] == offers[k];
      }
    }
  }

  /** Over a whole trace the store grows by at most one record per offer and keeps its addresses distinct. */
  lemma {:induction false} OfferedInTurnKeeps(trace: seq<seq<Account>>, offers: seq<(AccountInfo, string)>)
    requires OfferedInTurn(trace, offers)
    ensures |trace[|trace| - 1]| <= |trace[0]| + |offers|
    ensures DistinctEmails(trace[0]) ==> DistinctEmails(trace[|trace| - 1])
  {
    if offers != [] {
      var n := |offers|;
      var o := offers[n - 1];
      assert OfferedInTurn(trace[..n], offers[..n - 1]);
      OfferedInTurnKeeps(trace[..n], offers[..n - 1]);
      AddOutcomeKeepsDistinct(trace[n - 1], trace[n], o.0.email, o.0.password, o.0.token, o.0.usageLimit, o.1);
    }
  }

  class BatchRegistration {
    const count: nat
    var accounts: seq<AccountInfo>
    const accountManager: AccountStore

    constructor (accountManager: AccountStore, count: nat := 3)
      ensures this.count == count && this.accountManager == accountManager && accounts == []
    {
      this.count := count;
      this.accounts := [];
      this.accountManager := accountManager;
    }

    /**
     * The account of a successful attempt handed to `add_account`: the
     * store logs the request and changes as `add_account` allows.
     */
    method OfferAccount(info: AccountInfo, now: string)
      modifies accountManager
      ensures accountManager.calls == old(accountManager.calls) + [AddCall(info.email)]
      ensures AddOutcome(old(accountManager.accounts), accountManager.accounts,
                         info.email, info.password, info.token, info.usageLimit, now)
    {
      var _ := accountManager.AddAccount(info.email, info.password, info.token, now, info.usageLimit);
    }

    /**
     * `start`: runs exactly `count` attempts in order.  Each successful
     * attempt is offered to the store with `add_account`, whose answer is
     * ignored, and is counted and remembered; an attempt that raises is
     * reported and the loop goes on.  The result is whether any attempt
     * succeeded.
     */
    method Start(outcomes: seq<Attempt>, clock: seq<string>)
      returns (ok: bool, successCount: nat, ghost sleeps: nat, ghost trace: seq<seq<Account>>)
      requires |outcomes| == count && |clock| == count
      modifies this, accountManager
      ensures successCount == |Successes(outcomes)|
      ensures ok <==> successCount > 0
      ensures accounts == old(accounts) + Successes(outcomes)
      ensures sleeps == Cooldowns(outcomes, count)
      ensures accountManager.calls == old(accountManager.calls) + AddCalls(outcomes)
      ensures OfferedInTurn(trace, Offers(outcomes, clock))
      ensures trace[0] == old(accountManager.accounts) && trace[|trace| - 1] == accountManager.accounts
      ensures |accountManager.accounts| <= |old(accountManager.accounts)| + successCount
      ensures DistinctEmails(old(accountManager.accounts)) ==> DistinctEmails(accountManager.accounts)
    {
      successCount, sleeps, trace := 0, 0, [accountManager.accounts];
      var i := 1;
      while i <= count
        invariant 1 <= i <= count + 1
        invariant successCount == |Successes(outcomes[..i - 1])|
        invariant accounts == old(accounts) + Successes(outcomes[..i - 1])
        invariant sleeps == Cooldowns(outcomes, i - 1)
        invariant accountManager.calls == old(accountManager.calls) + AddCalls(outcomes[..i - 1])
        invariant OfferedInTurn(trace, Offers(outcomes[..i - 1], clock[..i - 1]))
        invariant trace[0] == old(accountManager.accounts) && trace[|trace| - 1] == accountManager.accounts
      {
        var outcome := outcomes[i - 1];
        OffersStep(outcomes, clock, i);
        if !outcome.Raised? {
          if outcome.Registered? {
            var info := outcome.info;
            ghost var offers := Offers(outcomes[..i - 1], clock[..i - 1]);
            OfferAccount(info, clock[i - 1]);
            OfferedInTurnStep(trace, offers, accountManager.accounts, (info, clock[i - 1]));
            trace := trace + [accountManager.accounts];
            accounts := accounts + [info];
            successCount := successCount + 1;
          }
          if i < count {
            sleeps := sleeps + 1;
          }
        }
        i := i + 1;
      }
      assert outcomes[..count] == outcomes;
      assert clock[..count] == clock;
      OfferedInTurnKeeps(trace, Offers(outcomes, clock));
      ok := successCount > 0;
    }
  }

  /** The cookie that carries the session. */
  const SessionCookieName: string := "WorkosCursorSessionToken"

  /** The URL-encoded `::` between the user part and the token in the cookie value. */
  const TokenSeparator: string := "%3A%3A"

  /** How many times the cookies are read before giving up. */
  const MaxTokenAttempts: nat := 30

  datatype Cookie = Cookie(name: string, value: string)

  /** One `cookies()` call on the browser tab: it raised, or it returned the cookies. */
  datatype CookieRead = ReadRaised | Cookies(cookies: seq<Cookie>)

  /** The settings page: loading it or looking up the usage element raised, or it loaded. */
  datatype SettingsPage = PageRaised | Page(usageText: Option<string>)

  /** The first cookie called `name`, if any. */
  function FirstNamed(cookies: seq<Cookie>, name: string, from: nat := 0): (r: Option<nat>)
    requires from <= |cookies|
    ensures r.Some? ==> from <= r.value < |cookies| && cookies[r.value].name == name
    ensures r.Some? ==> forall j :: from <= j < r.value ==> cookies[j].name != name
    ensures r.None? <==> forall j :: from <= j < |cookies| ==> cookies[j].name != name
    decreases |cookies| - from
  {
    if from == |cookies| then None
    else if cookies[from].name == name then Some(from)
    else FirstNamed(cookies, name, from + 1)
  }

  /** The first piece of `s.split(sep)`: a prefix of `s` followed by `sep` or by nothing. */
  lemma FirstPiece(s: string, sep: string)
    requires |sep| > 0
    ensures var p := Split(s, sep)[0];
      |p| <= |s| && s[..|p|] == p && (|p| == |s| || OccursAt(s, sep, |p|))
  {
    match Find(s, sep, 0)
    case None =>
    case Some(i) =>
      assert Split(s, sep)[0] == s[..i];
  }

  /** `value.split("%3A%3A")[1]`; none when the split raises `IndexError`. */
  function SessionToken(value: string): Option<string> {
    var parts := Split(value, TokenSeparator);
    if |parts| >= 2 then Some(parts[1]) else None
  }

  /**
   * `t` is the text that follows the first separator of `value`, which
   * starts at `i`, up to the next separator or the end.
   */
  ghost predicate TokenAfterFirstSeparator(value: string, i: nat, t: string) {
    && OccursAt(value, TokenSeparator, i)
    && (forall j :: 0 <= j < i ==> !OccursAt(value, TokenSeparator, j))
    && i + |TokenSeparator| + |t| <= |value|
    && value[i + |TokenSeparator|..i + |TokenSeparator| + |t|] == t
    && !Contains(t, TokenSeparator)
    && (i + |TokenSeparator| + |t| == |value| || OccursAt(value, TokenSeparator, i + |TokenSeparator| + |t|))
  }

  /** A value with a separator first at `i` has as token the text after it, up to the next one or the end. */
  lemma SessionTokenAfter(value: string, i: nat)
    requires Find(value, TokenSeparator, 0) == Some(i)
    ensures SessionToken(value).Some? && TokenAfterFirstSeparator(value, i, SessionToken(value).value)
  {
    var sep := TokenSeparator;
    var off := i + |sep|;
    SplitStep(value, sep, i);
    var rest := value[off..];
    var t := Split(rest, sep)[0];
    assert SessionToken(value) == Some(t);
    FirstPiece(rest, sep);
    SplitPiecesFree(rest, sep);
    assert value[off..off + |t|] == rest[..|t|];
    if off + |t| < |value| {
      OccursInSuffix(value, sep, off, |t|);
    }
  }

  /**
   * The token is the text between the first separator and the next one
   * (or the end); there is none exactly when the value has no separator.
   */
  lemma SessionTokenShape(value: string)
    ensures SessionToken(value).None? <==> !Contains(value, TokenSeparator)
    ensures SessionToken(value).Some? ==>
      exists i: nat :: TokenAfterFirstSeparator(value, i, SessionToken(value).value)
  {
    match Find(value, TokenSeparator, 0)
    case None =>
    case Some(i) =>
      SessionTokenAfter(value, i);
  }

  /**
   * What one cookie read yields: the token of the first session cookie, if
   * it has one.  There is a token exactly when the read returned a session
   * cookie whose value holds the separator.
   */
  function TokenFromRead(read: CookieRead): (r: Option<string>)
    ensures r.Some? <==> && read.Cookies? && FirstNamed(read.cookies, SessionCookieName).Some?
                         && Contains(read.cookies[FirstNamed(read.cookies, SessionCookieName).value].value, TokenSeparator)
  {
    match read
    case ReadRaised => None
    case Cookies(cookies) =>
      match FirstNamed(cookies, SessionCookieName)
      case None => None
      case Some(k) => SessionTokenShape(cookies[k].value); SessionToken(cookies[k].value)
  }

  /** The first read, at or after `from`, that yields a token. */
  function FirstTokenRead(polls: seq<CookieRead>, from: nat): (r: Option<nat>)
    requires from <= |polls|
    ensures r.Some? ==> from <= r.value < |polls| && TokenFromRead(polls[r.value]).Some?
    ensures r.Some? ==> forall j :: from <= j < r.value ==> TokenFromRead(polls[j]).None?
    ensures r.None? <==> forall j :: from <= j < |polls| ==> TokenFromRead(polls[j]).None?
    decreases |polls| - from
  {
    if from == |polls| then None
    else if TokenFromRead(polls[from]).Some? then Some(from)
    else FirstTokenRead(polls, from + 1)
  }

  /** `usage_ele.text.split("/")[-1].strip()`. */
  function UsageLimitOf(text: string): string {
    Strip(LastPiece(text, "/"))
  }

  /** Without a `/` the last piece is the whole text. */
  lemma NoSlashWholePiece(text: string)
    requires '/' !in text
    ensures LastPiece(text, "/") == text
  {
    ContainsIff(text, "/");
    forall j: nat ensures !OccursAt(text, "/", j) {
      if j + 1 <= |text| {
        assert text[j..j + 1][0] == text[j];
      }
    }
  }

  /** A suffix that is all of the text or follows a `/` starts at some `n` after a `/`. */
  lemma SuffixAfterSlash(text: string, p: string)
    requires SuffixAfterSeparator(text, "/", p)
    ensures exists n :: (0 <= n <= |text| && text[n..] == p && (n == 0 || text[n - 1] == '/'))
  {
    var n := |text| - |p|;
    assert text[n..] == p;
    if n > 0 {
      assert text[n - 1..n] == "/";
    }
  }

  /** Stripping a slash-free suffix that follows the last `/` keeps it slash-free and trims its ends. */
  lemma StrippedPiece(text: string, p: string)
    requires '/' !in p
    requires exists n :: (0 <= n <= |text| && text[n..] == p && (n == 0 || text[n - 1] == '/'))
    ensures '/' !in Strip(p)
    ensures Strip(p) != [] ==> !IsSpace(Strip(p)[0]) && !IsSpace(Strip(p)[|Strip(p)| - 1])
    ensures exists n :: (0 <= n <= |text| && '/' !in text[n..]
      && (n == 0 || text[n - 1] == '/') && Strip(p) == Strip(text[n..]))
  {
    StripShape(p);
    if '/' in Strip(p) {
      StripSubset(p, '/');
    }
    var n :| 0 <= n <= |text| && text[n..] == p && (n == 0 || text[n - 1] == '/');
    assert '/' !in text[n..] && Strip(p) == Strip(text[n..]);
  }

  /**
   * The usage limit is the stripped text after the last `/` (all of the
   * text when there is none): it holds no `/` and no surrounding spaces.
   */
  lemma UsageLimitShape(text: string)
    ensures '/' !in UsageLimitOf(text)
    ensures UsageLimitOf(text) != [] ==>
      !IsSpace(UsageLimitOf(text)[0]) && !IsSpace(UsageLimitOf(text)[|UsageLimitOf(text)| - 1])
    ensures '/' !in text ==> UsageLimitOf(text) == Strip(text)
    ensures exists n :: (0 <= n <= |text| && '/' !in text[n..]
      && (n == 0 || text[n - 1] == '/') && UsageLimitOf(text) == Strip(text[n..]))
  {
    var p := LastPiece(text, "/");
    LastPieceShape(text, "/");
    LastPieceFree(text, "/");
    CharAbsent(p, '/');
    SuffixAfterSlash(text, p);
    if '/' !in text {
      NoSlashWholePiece(text);
    }
    StrippedPiece(text, p);
  }

  /** `ModifiedCursorRegistration`: the token and usage limit it collects. */
  class Registration {
    var token: Option<string>
    var usageLimit: string

    constructor ()
      ensures token == None && usageLimit == DefaultUsageLimit
    {
      token := None;
      usageLimit := DefaultUsageLimit;
    }

    /**
     * `_get_account_info`: polls the usage limit from the settings page
     * when the element is there, then polls the cookies at most
     * `MaxTokenAttempts` times and succeeds at the first read that yields
     * a session token.  A read that raises, has no session cookie or a
     * value without separator is one failed attempt.
     */
    method GetAccountInfo(page: SettingsPage, polls: seq<CookieRead>) returns (ok: bool, ghost cookieReads: nat)
      requires |polls| == MaxTokenAttempts
      modifies this
      ensures page.PageRaised? ==> !ok && cookieReads == 0 && token == old(token) && usageLimit == old(usageLimit)
      ensures page.Page? && page.usageText.Some? ==> usageLimit == UsageLimitOf(page.usageText.value)
      ensures page.Page? && page.usageText.None? ==> usageLimit == old(usageLimit)
      ensures page.Page? ==> (ok <==> FirstTokenRead(polls, 0).Some?)
      ensures ok ==> var k := FirstTokenRead(polls, 0).value;
        token == TokenFromRead(polls[k]) && cookieReads == k + 1
      ensures !ok ==> token == old(token)
      ensures page.Page? && !ok ==> cookieReads == MaxTokenAttempts
      ensures cookieReads <= MaxTokenAttempts
    {
      cookieReads := 0;
      if page.PageRaised? {
        return false, cookieReads;
      }
      if page.usageText.Some? {
        usageLimit := UsageLimitOf(page.usageText.value);
      }
      var attempts := 0;
      while attempts < MaxTokenAttempts
        invariant 0 <= attempts <= MaxTokenAttempts
        invariant cookieReads == attempts
        invariant FirstTokenRead(polls, 0) == FirstTokenRead(polls, attempts)
        invariant token == old(token)
      {
        var found := TokenFromRead(polls[attempts]);
        cookieReads := cookieReads + 1;
        if found.Some? {
          token := found;
          return true, cookieReads;
        }
        attempts := attempts + 1;
      }
      ok := false;
    }

    /** `_save_account_info`: only keeps the token and usage limit it is given. */
    method SaveAccountInfo(token: string, totalUsage: string) returns (ok: bool)
      modifies this
      ensures this.token == Some(token) && usageLimit == totalUsage && ok
    {
      this.token := Some(token);
      usageLimit := totalUsage;
      ok := true;
    }
  }
}
