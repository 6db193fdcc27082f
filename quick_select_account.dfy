/**
 * Quick account selection (`AccountSelector`): choose an account from the
 * store and activate it by pushing its token to the editor's auth store,
 * resetting the machine identifiers and marking the account used.
 */
module Selection {
  import opened Wrappers
  import opened Text
  import opened Accounts

  /** `acc.get('status', {}).get('last_used_time')`. */
  function LastUsedTime(a: Account): Option<string> {
    if a.status.Some? then a.status.value.lastUsedTime else None
  }

  /** The last-used time is truthy: present and not the empty string. */
  predicate HasTime(a: Account) {
    LastUsedTime(a).Some? && LastUsedTime(a).value != ""
  }

  function TimeOf(a: Account): string
    requires HasTime(a)
  {
    LastUsedTime(a).value
  }

  /**
   * The `last_used` record after the scan of the first `n` records: a record
   * replaces the current choice only when its time is strictly greater.
   */
  function LastUsedUpTo(accs: seq<Account>, n: nat): (r: Option<nat>)
    requires n <= |accs|
    ensures r.Some? ==> r.value < n && HasTime(accs[r.value])
  {
    if n == 0 then None
    else
      var prev := LastUsedUpTo(accs, n - 1);
      var a := accs[n - 1];
      if HasTime(a) && (prev.None? || StrLess(TimeOf(accs[prev.value]), TimeOf(a))) then Some(n - 1)
      else prev
  }

  /**
   * The scan finds nothing exactly when no record has a time; otherwise it
   * finds a record whose time no other record exceeds, and every record
   * before it has a strictly smaller time, so ties go to the earliest.
   */
  lemma {:induction false} LastUsedIsEarliestLatest(accs: seq<Account>, n: nat)
    requires n <= |accs|
    ensures LastUsedUpTo(accs, n).None? <==> forall j :: 0 <= j < n ==> !HasTime(accs[j])
    ensures LastUsedUpTo(accs, n).Some? ==>
      var k := LastUsedUpTo(accs, n).value;
      forall j :: 0 <= j < n && HasTime(accs[j]) ==> !StrLess(TimeOf(accs[k]), TimeOf(accs[j]))
    ensures LastUsedUpTo(accs, n).Some? ==>
      var k := LastUsedUpTo(accs, n).value;
      forall j :: 0 <= j < k && HasTime(accs[j]) ==> StrLess(TimeOf(accs[j]), TimeOf(accs[k]))
  {
    if n > 0 {
      LastUsedIsEarliestLatest(accs, n - 1);
      var prev := LastUsedUpTo(accs, n - 1);
      var a := accs[n - 1];
      if HasTime(a) && (prev.None? || StrLess(TimeOf(accs[prev.value]), TimeOf(a))) {
        StrLessIrreflexive(TimeOf(a));
        forall j | 0 <= j < n - 1 && HasTime(accs[j])
          ensures StrLess(TimeOf(accs[j]), TimeOf(a))
        {
          var p := prev.value;
          var tj, tp := TimeOf(accs[j]), TimeOf(accs[p]);
          if tj != tp {
            StrLessTotal(tj, tp);
            StrLessTransitive(tj, tp, TimeOf(a));
          }
        }
        forall j | 0 <= j < n - 1 && HasTime(accs[j])
          ensures !StrLess(TimeOf(a), TimeOf(accs[j]))
        {
          StrLessAsymmetric(TimeOf(accs[j]), TimeOf(a));
        }
      }
    }
  }

  /** One call received by the auth store: address, access token, refresh token. */
  datatype AuthUpdate = AuthUpdate(email: string, accessToken: string, refreshToken: string)

  /**
   * The editor's auth store (`CursorAuth`), whose code is not part of this
   * model: it records every update it is asked for and the answer it gave,
   * success or failure.
   */
  class CursorAuth {
    var updates: seq<AuthUpdate>
    var answers: seq<bool>

    constructor ()
      ensures updates == [] && answers == []
    {
      updates := [];
      answers := [];
    }

    method UpdateAuth(email: string, accessToken: string, refreshToken: string) returns (ok: bool)
      modifies this
      ensures updates == old(updates) + [AuthUpdate(email, accessToken, refreshToken)]
      ensures answers == old(answers) + [ok]
    {
      updates := updates + [AuthUpdate(email, accessToken, refreshToken)];
      ok := *;
      answers := answers + [ok];
    }
  }

  /**
   * The machine-identifier reset (`MachineIDResetter`), whose code is not
   * part of this model: it records the answer, success or failure, of
   * every reset asked of it.
   */
  class MachineIdResetter {
    var answers: seq<bool>

    constructor ()
      ensures answers == []
    {
      answers := [];
    }

    method ResetMachineIds() returns (ok: bool)
      modifies this
      ensures answers == old(answers) + [ok]
    {
      ok := *;
      answers := answers + [ok];
    }
  }

  /** Everything the selector acts on: the collaborators' logs and the store with its logs. */
  datatype Effects = Effects(updates: seq<AuthUpdate>, authAnswers: seq<bool>, resetAnswers: seq<bool>,
                             accounts: seq<Account>, calls: seq<StoreCall>, saves: SaveLog)

  /**
   * What `_apply_account(account)` did, going from `before` to `after`,
   * when the auth store answered `authOk` and the reset `resetOk`: the
   * token goes to the auth store as access and refresh token; a failed
   * update is followed by nothing else; a reset is asked for only after a
   * successful update; after two successes the store is asked to mark the
   * address used, which changes the list and saves as `MarkOutcome`
   * says; the result is true exactly after two successes, whatever the
   * marking answered.
   */
  ghost predicate Applied(before: Effects, after: Effects, account: Account, now: string,
                          authOk: bool, resetOk: bool, ok: bool) {
    && after.updates == before.updates + [AuthUpdate(account.email, account.token, account.token)]
    && after.authAnswers == before.authAnswers + [authOk]
    && after.resetAnswers == before.resetAnswers + (if authOk then [resetOk] else [])
    && (ok <==> authOk && resetOk)
    && if authOk && resetOk then
         && after.calls == before.calls + [MarkCall(account.email)]
         && MarkOutcome(before.accounts, before.saves, after.accounts, after.saves, account.email, now)
       else
         after.accounts == before.accounts && after.calls == before.calls && after.saves == before.saves
  }

  /**
   * An activation after two successes leaves the account marked when the
   * save of the marked list succeeded, and leaves the list alone when the
   * address is not in the store.
   */
  lemma AppliedMarks(before: Effects, after: Effects, account: Account, now: string)
    requires Applied(before, after, account, now, true, true, true)
    ensures var found := FindEmail(before.accounts, account.email);
      found.Some? && before.accounts[found.value].status.Some? && after.saves[|after.saves| - 1].1 ==>
        after.accounts == MarkedAt(before.accounts, found.value, now)
    ensures FindEmail(before.accounts, account.email).None? ==>
      after.accounts == before.accounts && after.saves == before.saves
  {
  }

  class AccountSelector {
    const store: AccountStore
    const auth: CursorAuth
    const resetter: MachineIdResetter

    constructor (store: AccountStore, auth: CursorAuth, resetter: MachineIdResetter)
      ensures this.store == store && this.auth == auth && this.resetter == resetter
    {
      this.store := store;
      this.auth := auth;
      this.resetter := resetter;
    }

    /** The current logs and store list. */
    ghost function State(): Effects
      reads store, auth, resetter
    {
      Effects(auth.updates, auth.answers, resetter.answers, store.accounts, store.calls, store.saves)
    }

    /**
     * `_apply_account`: (1) push the account's token, as both access and
     * refresh token, to the auth store; (2) reset the machine identifiers;
     * (3) mark the account used.  A failure of (1) stops before (2) and
     * (3), a failure of (2) stops before (3), and a failure of (3) does not
     * change the result.
     */
    method ApplyAccount(account: Account, now: string) returns (ok: bool, ghost authOk: bool, ghost resetOk: bool)
      modifies store, auth, resetter
      ensures Applied(old(State()), State(), account, now, authOk, resetOk, ok)
    {
      var authAnswer := auth.UpdateAuth(account.email, account.token, account.token);
      authOk, resetOk := authAnswer, false;
      if !authAnswer {
        return false, authOk, resetOk;
      }
      var resetAnswer := resetter.ResetMachineIds();
      resetOk := resetAnswer;
      if !resetAnswer {
        return false, authOk, resetOk;
      }
      var marked := store.MarkAccountUsed(account.email, now);
      ok := true;
    }

    /**
     * `select_account`: activate the first unused account; with none
     * unused, an empty store fails without touching anything; a store
     * whose records carry no usage time activates its first record;
     * otherwise the scan forward from the most recently used record finds
     * nothing, because every record is used, and the call fails without
     * touching anything.
     */
    method SelectAccount(now: string) returns (ok: bool, ghost authOk: bool, ghost resetOk: bool)
      modifies store, auth, resetter
      ensures var accs := old(store.accounts);
        NextUnused(accs).Some? ==> Applied(old(State()), State(), accs[NextUnused(accs).value], now, authOk, resetOk, ok)
      ensures var accs := old(store.accounts);
        NextUnused(accs).None? && accs != [] && LastUsedUpTo(accs, |accs|).None? ==>
          Applied(old(State()), State(), accs[0], now, authOk, resetOk, ok)
      ensures var accs := old(store.accounts);
        accs == [] || (NextUnused(accs).None? && LastUsedUpTo(accs, |accs|).Some?) ==>
          !ok && State() == old(State())
      ensures ok ==> |resetter.answers| == |old(resetter.answers)| + 1
      ensures !ok ==> store.accounts == old(store.accounts)
    {
      var stats := AccountStats(store.accounts);
      var unused := NextUnused(store.accounts);
      if unused.Some? {
        ok, authOk, resetOk := ApplyAccount(store.accounts[unused.value], now);
        return;
      }

      var accounts := store.accounts;
      if |accounts| == 0 {
        return false, false, false;
      }

      var lastUsed: Option<nat> := None;
      var latestTime: Option<string> := None;
      var i := 0;
      while i < |accounts|
        invariant 0 <= i <= |accounts|
        invariant lastUsed == LastUsedUpTo(accounts, i)
        invariant lastUsed.None? ==> latestTime.None?
        invariant lastUsed.Some? ==> latestTime == Some(TimeOf(accounts[lastUsed.value]))
      {
        var usedTime := LastUsedTime(accounts[i]);
        if usedTime.Some? && usedTime.value != "" && (latestTime.None? || StrLess(latestTime.value, usedTime.value)) {
          latestTime := usedTime;
          lastUsed := Some(i);
        }
        i := i + 1;
      }

      if lastUsed.None? {
        ok, authOk, resetOk := ApplyAccount(accounts[0], now);
        return;
      }

      var next := NextAccount(store.accounts, Some(accounts[lastUsed.value].email));
      if next.Some? {
        AllUsedNoNext(accounts, accounts[lastUsed.value].email);
        assert false;
      }
      ok, authOk, resetOk := false, false, false;
    }
  }
}
