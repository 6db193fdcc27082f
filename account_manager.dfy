/**
 * The local account store (`AccountManager`): an ordered list of account
 * records kept in one JSON file.  The file is the class field `accounts`;
 * reading it is reading the field and saving replaces the field.
 */
module Accounts {
  import opened Wrappers

  /** The `status` object of a record. */
  datatype Status = Status(isUsed: bool, lastUsedTime: Option<string>)

  /**
   * One record of the `accounts` array.  `status` is optional because the
   * readers look it up with a default (`acc.get('status', {})`).
   */
  datatype Account = Account(
    email: string,
    password: string,
    token: string,
    usageLimit: string,
    createdTime: string,
    status: Option<Status>)

  /** Counts of the whole store, as `get_account_stats` reports them. */
  datatype Stats = Stats(total: nat, used: nat, unused: nat)

  /** The usage limit recorded when the caller gives none ("unknown"). */
  const DefaultUsageLimit: string := "未知"

  /** `acc.get('status', {}).get('is_used', False)`: a missing status reads as unused. */
  predicate IsUsed(a: Account) {
    a.status.Some? && a.status.value.isUsed
  }

  /** The record `add_account` creates: unused and never used. */
  function NewAccount(email: string, password: string, token: string, usageLimit: string, now: string): (r: Account)
    ensures r.email == email && !IsUsed(r)
    ensures r.status.Some? && r.status.value.lastUsedTime.None?
  {
    Account(email, password, token, usageLimit, now, Some(Status(false, None)))
  }

  /** No two records share an email address. */
  predicate DistinctEmails(accs: seq<Account>) {
    forall i, j :: 0 <= i < j < |accs| ==> accs[i].email != accs[j].email
  }

  /** The index of the first record with address `email`, if any. */
  function FindEmail(accs: seq<Account>, email: string, from: nat := 0): (r: Option<nat>)
    requires from <= |accs|
    ensures r.Some? ==> from <= r.value < |accs| && accs[r.value].email == email
    ensures r.Some? ==> forall j :: from <= j < r.value ==> accs[j].email != email
    ensures r.None? <==> forall j :: from <= j < |accs| ==> accs[j].email != email
    decreases |accs| - from
  {
    if from == |accs| then None
    else if accs[from].email == email then Some(from)
    else FindEmail(accs, email, from + 1)
  }

  /** The first unused record at or after index `from`, if any. */
  function FirstUnusedFrom(accs: seq<Account>, from: nat): (r: Option<nat>)
    requires from <= |accs|
    ensures r.Some? ==> from <= r.value < |accs| && !IsUsed(accs[r.value])
    ensures r.Some? ==> forall j :: from <= j < r.value ==> IsUsed(accs[j])
    ensures r.None? <==> forall j :: from <= j < |accs| ==> IsUsed(accs[j])
    decreases |accs| - from
  {
    if from == |accs| then None
    else if !IsUsed(accs[from]) then Some(from)
    else FirstUnusedFrom(accs, from + 1)
  }

  /**
   * `get_next_unused_account`: the index of the first record, in list
   * order, that is not used; none exactly when every record is used.
   */
  function NextUnused(accs: seq<Account>): (r: Option<nat>)
    ensures r.Some? ==> r.value < |accs| && !IsUsed(accs[r.value])
    ensures r.Some? ==> forall j :: 0 <= j < r.value ==> IsUsed(accs[j])
    ensures r.None? <==> forall j :: 0 <= j < |accs| ==> IsUsed(accs[j])
  {
    FirstUnusedFrom(accs, 0)
  }

  /**
   * `get_next_account(current_email)`: without a current address it is
   * `get_next_unused_account`; with one, it scans forward from just after
   * the first record holding that address and never wraps around.
   */
  function NextAccount(accs: seq<Account>, current: Option<string>): (r: Option<nat>)
    ensures |accs| == 0 ==> r.None?
    ensures current.None? ==> r == NextUnused(accs)
    ensures current.Some? && FindEmail(accs, current.value).None? ==> r.None?
    ensures current.Some? && FindEmail(accs, current.value).Some? ==>
      var k := FindEmail(accs, current.value).value;
      && (r.Some? ==> k < r.value < |accs| && !IsUsed(accs[r.value])
                      && forall j :: k < j < r.value ==> IsUsed(accs[j]))
      && (r.None? <==> forall j :: k < j < |accs| ==> IsUsed(accs[j]))
  {
    if |accs| == 0 then None
    else if current.None? then FirstUnusedFrom(accs, 0)
    else match FindEmail(accs, current.value)
      case None => None
      case Some(k) => FirstUnusedFrom(accs, k + 1)
  }

  /** The number of used records. */
  function CountUsed(accs: seq<Account>): (n: nat)
    ensures n <= |accs|
    ensures n == |accs| <==> forall j :: 0 <= j < |accs| ==> IsUsed(accs[j])
  {
    if accs == [] then 0
    else (if IsUsed(accs[0]) then 1 else 0) + CountUsed(accs[1..])
  }

  /**
   * `get_account_stats`: the used and unused records partition the store,
   * and no record is unused exactly when `get_next_unused_account` finds
   * nothing.
   */
  function AccountStats(accs: seq<Account>): (r: Stats)
    ensures r.total == |accs| && r.used + r.unused == r.total
    ensures r.unused == 0 <==> NextUnused(accs).None?
  {
    var used := CountUsed(accs);
    Stats(|accs|, used, |accs| - used)
  }

  /** The store after `mark_account_used` updates the record at index `k`. */
  function MarkedAt(accs: seq<Account>, k: nat, now: string): (r: seq<Account>)
    requires k < |accs|
    ensures |r| == |accs| && IsUsed(r[k])
  {
    accs[k := accs[k].(status := Some(Status(true, Some(now))))]
  }

  /**
   * Marking touches one record: it becomes used at `now`, keeps its other
   * fields, and every other record is untouched; addresses do not change.
   */
  lemma MarkedAtEffect(accs: seq<Account>, k: nat, now: string)
    requires k < |accs|
    ensures |MarkedAt(accs, k, now)| == |accs|
    ensures IsUsed(MarkedAt(accs, k, now)[k])
    ensures MarkedAt(accs, k, now)[k].status == Some(Status(true, Some(now)))
    ensures MarkedAt(accs, k, now)[k] == accs[k].(status := Some(Status(true, Some(now))))
    ensures forall j :: 0 <= j < |accs| && j != k ==> MarkedAt(accs, k, now)[j] == accs[j]
    ensures forall j :: 0 <= j < |accs| ==> MarkedAt(accs, k, now)[j].email == accs[j].email
  {
  }

  /** Marking the same record twice leaves it used, stamped with the later time. */
  lemma MarkTwice(accs: seq<Account>, k: nat, t1: string, t2: string)
    requires k < |accs|
    ensures MarkedAt(MarkedAt(accs, k, t1), k, t2) == MarkedAt(accs, k, t2)
    ensures IsUsed(MarkedAt(MarkedAt(accs, k, t1), k, t2)[k])
  {
  }

  /** Appending a new (unused) record leaves the used count as it was. */
  lemma {:induction false} CountUsedAppendNew(accs: seq<Account>, a: Account)
    requires !IsUsed(a)
    ensures CountUsed(accs + [a]) == CountUsed(accs)
  {
    if accs != [] {
      assert (accs + [a])[1..] == accs[1..] + [a];
      CountUsedAppendNew(accs[1..], a);
    }
  }

  /** Marking an unused record raises the used count by one; a used one keeps it. */
  lemma {:induction false} CountUsedMarked(accs: seq<Account>, k: nat, now: string)
    requires k < |accs|
    ensures CountUsed(MarkedAt(accs, k, now)) == CountUsed(accs) + (if IsUsed(accs[k]) then 0 else 1)
  {
    if k > 0 {
      assert MarkedAt(accs, k, now)[1..] == MarkedAt(accs[1..], k - 1, now);
      CountUsedMarked(accs[1..], k - 1, now);
    } else {
      assert MarkedAt(accs, k, now)[1..] == accs[1..];
    }
  }

  /** Marking keeps the addresses pairwise distinct. */
  lemma MarkedAtKeepsDistinct(accs: seq<Account>, k: nat, now: string)
    requires k < |accs| && DistinctEmails(accs)
    ensures DistinctEmails(MarkedAt(accs, k, now))
  {
    MarkedAtEffect(accs, k, now);
  }

  /** When every record is used, the forward scan from any address finds nothing. */
  lemma {:induction false} AllUsedNoNext(accs: seq<Account>, email: string)
    requires NextUnused(accs).None?
    ensures NextAccount(accs, Some(email)).None?
  {
    if |accs| > 0 && FindEmail(accs, email).Some? {
      var k := FindEmail(accs, email).value;
      assert forall j :: k < j < |accs| ==> IsUsed(accs[j]);
    }
  }

  /**
   * The store's life cycle on one address: added unused, found as the next
   * unused record, marked, and then counted as used.
   */
  lemma LifeCycle(t0: string, t1: string)
    ensures var one := [NewAccount("a@x.com", "p", "t", "10", t0)];
      && AccountStats(one) == Stats(1, 0, 1)
      && NextUnused(one) == Some(0)
      && FindEmail(one, "a@x.com") == Some(0)
      && AccountStats(MarkedAt(one, 0, t1)) == Stats(1, 1, 0)
  {
    var one := [NewAccount("a@x.com", "p", "t", "10", t0)];
    assert CountUsed(one) == 0 by { assert one[1..] == []; }
    assert CountUsed(MarkedAt(one, 0, t1)) == 1 by { assert MarkedAt(one, 0, t1)[1..] == []; }
  }

  /** With A used and B unused, the account after A is B. */
  lemma NextAfterUsed(a: Account, b: Account)
    requires IsUsed(a) && !IsUsed(b) && a.email != b.email
    ensures NextAccount([a, b], Some(a.email)) == Some(1)
  {
    assert FindEmail([a, b], a.email) == Some(0);
  }

  /** A request made of the store: `add_account(email, ...)` or `mark_account_used(email)`. */
  datatype StoreCall = AddCall(email: string) | MarkCall(email: string)

  /**
   * What `add_account(info...)` may have done to the store `before`: an
   * address already present leaves it alone; otherwise the save kept the
   * list (it could not open the file), emptied it (it failed after
   * truncating the file), or appended the new record.
   */
  ghost predicate AddOutcome(before: seq<Account>, after: seq<Account>, email: string, password: string,
                             token: string, usageLimit: string, now: string) {
    if FindEmail(before, email).Some? then after == before
    else
      || after == before
      || after == []
      || after == before + [NewAccount(email, password, token, usageLimit, now)]
  }

  /** The saves made so far: each list a save was asked to write, with its answer, in order. */
  type SaveLog = seq<(seq<Account>, bool)>

  /**
   * What `mark_account_used(email)` at `now` did to the list and the save
   * log: when the first record with the address has a status, the list
   * with that record marked used is saved once; a save answered true
   * leaves that list, one answered false keeps the list or empties it.
   * An absent address or a record without status changes nothing and
   * saves nothing.
   */
  ghost predicate MarkOutcome(before: seq<Account>, savesBefore: SaveLog, after: seq<Account>, savesAfter: SaveLog,
                              email: string, now: string) {
    var found := FindEmail(before, email);
    if found.Some? && before[found.value].status.Some? then
      var marked := MarkedAt(before, found.value, now);
      || (savesAfter == savesBefore + [(marked, true)] && after == marked)
      || (savesAfter == savesBefore + [(marked, false)] && (after == before || after == []))
    else
      after == before && savesAfter == savesBefore
  }

  /** Whatever `add_account` did, the store grew by at most one record and kept its addresses distinct. */
  lemma AddOutcomeKeepsDistinct(before: seq<Account>, after: seq<Account>, email: string, password: string,
                                token: string, usageLimit: string, now: string)
    requires AddOutcome(before, after, email, password, token, usageLimit, now)
    ensures |after| <= |before| + 1
    ensures DistinctEmails(before) ==> DistinctEmails(after)
  {
  }

  /** The JSON file of `AccountManager`, as the list it holds. */
  class AccountStore {
    var accounts: seq<Account>
    /** The requests made of the store so far, in order. */
    ghost var calls: seq<StoreCall>
    /** Every list a save was asked to write, with the answer it gave, in order. */
    ghost var saves: SaveLog

    /** `_init_accounts_file`: a missing file is created empty; an existing one is kept. */
    constructor (file: Option<seq<Account>>)
      ensures file.None? ==> accounts == []
      ensures file.Some? ==> accounts == file.value
      ensures calls == [] && saves == []
    {
      accounts := if file.Some? then file.value else [];
      calls := [];
      saves := [];
    }

    /**
     * `save_accounts`: on success the file holds `records`.  A failed
     * write either left the file alone (it could not be opened) or had
     * already truncated it, so that every later read degrades to `[]`.
     */
    method Save(records: seq<Account>) returns (ok: bool)
      modifies this
      ensures ok ==> accounts == records
      ensures !ok ==> accounts == old(accounts) || accounts == []
      ensures calls == old(calls)
      ensures saves == old(saves) + [(records, ok)]
    {
      ok := *;
      if ok {
        accounts := records;
      } else {
        var truncated: bool := *;
        if truncated {
          accounts := [];
        }
      }
      saves := saves + [(records, ok)];
    }

    /**
     * `add_account`: refuses an address already in the store and changes
     * nothing and saves nothing; otherwise saves the list with one new
     * unused record appended and answers what the save answered.  The
     * addresses stay pairwise distinct.
     */
    method AddAccount(email: string, password: string, token: string, now: string,
                      usageLimit: string := DefaultUsageLimit)
      returns (ok: bool)
      modifies this
      ensures FindEmail(old(accounts), email).Some? ==> !ok && accounts == old(accounts) && saves == old(saves)
      ensures FindEmail(old(accounts), email).None? ==>
        saves == old(saves) + [(old(accounts) + [NewAccount(email, password, token, usageLimit, now)], ok)]
      ensures ok ==> FindEmail(old(accounts), email).None?
      ensures ok ==> accounts == old(accounts) + [NewAccount(email, password, token, usageLimit, now)]
      ensures !ok ==> accounts == old(accounts) || accounts == []
      ensures DistinctEmails(old(accounts)) ==> DistinctEmails(accounts)
      ensures AddOutcome(old(accounts), accounts, email, password, token, usageLimit, now)
      ensures calls == old(calls) + [AddCall(email)]
    {
      calls := calls + [AddCall(email)];
      var current := accounts;
      if FindEmail(current, email).Some? {
        return false;
      }
      ok := Save(current + [NewAccount(email, password, token, usageLimit, now)]);
    }

    /**
     * `mark_account_used`: stamps the first record with address `email`
     * as used at `now`, saves the list and answers what the save answered.
     * Nothing is saved when no record has the address, or when that record
     * has no `status` object (the lookup raises and the error is reported
     * as `False`).
     */
    method MarkAccountUsed(email: string, now: string) returns (ok: bool)
      modifies this
      ensures var found := FindEmail(old(accounts), email);
        found.None? || old(accounts)[found.value].status.None? ==>
          !ok && accounts == old(accounts) && saves == old(saves)
      ensures var found := FindEmail(old(accounts), email);
        found.Some? && old(accounts)[found.value].status.Some? ==>
          saves == old(saves) + [(MarkedAt(old(accounts), found.value, now), ok)]
      ensures var found := FindEmail(old(accounts), email);
        ok ==> found.Some? && accounts == MarkedAt(old(accounts), found.value, now)
      ensures !ok ==> accounts == old(accounts) || accounts == []
      ensures DistinctEmails(old(accounts)) ==> DistinctEmails(accounts)
      ensures MarkOutcome(old(accounts), old(saves), accounts, saves, email, now)
      ensures calls == old(calls) + [MarkCall(email)]
    {
      calls := calls + [MarkCall(email)];
      var current := accounts;
      var updated := false;
      var i := 0;
      while i < |current|
        invariant 0 <= i <= |current| == |accounts|
        invariant current == accounts && !updated && calls == old(calls) + [MarkCall(email)] && saves == old(saves)
        invariant forall j :: 0 <= j < i ==> accounts[j].email != email
      {
        if current[i].email == email {
          if current[i].status.None? {
            return false;
          }
          current := MarkedAt(current, i, now);
          updated := true;
          break;
        }
        i := i + 1;
      }
      if updated {
        assert FindEmail(accounts, email) == Some(i);
        MarkedAtEffect(accounts, i, now);
        if DistinctEmails(accounts) {
          MarkedAtKeepsDistinct(accounts, i, now);
        }
        ok := Save(current);
      } else {
        ok := false;
      }
    }
  }
}
