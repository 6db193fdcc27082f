# Cursor account pool: store, rotation, batch registration and mailbox helpers

This project models, in Dafny, the core of a tool that keeps a pool of
Cursor editor accounts in a local JSON file, hands them out one at a time,
fills the pool by signing up accounts in batches, and uses a temporary
mailbox service (mail.tm / mail.gw) to receive the verification code.

- `wrappers.dfy` (`Wrappers`): the `Option` type standing for Python's
  value-or-`None`.
- `text.dfy` (`Text`): the Python `str` operations the code relies on
  (`find`, `in`, `split`, `split(...)[-1]`, `strip`, `lower`, `<`), with
  their properties (split pieces hold no separator, join undoes split, the
  last piece follows the last separator, strip removes white space only at
  the ends, `<` on strings is a strict total order).
- `account_manager.dfy` (`Accounts`): `AccountManager`. The JSON file is the
  field `AccountStore.accounts`; saving replaces it and may fail. The
  selectors (`get_next_unused_account`, `get_next_account`) and the
  statistics are pure functions over the list; they return the index of the
  record rather than the record.
- `quick_select_account.dfy` (`Selection`): `AccountSelector` with the
  editor's auth store and the machine-id reset as collaborators that log
  what they are asked and answer success or failure.
- `batch_register.dfy` (`Batch`): the batch loop of `BatchRegistration` and
  the token and usage-limit extraction of `ModifiedCursorRegistration`.
- `new_tempemail.dfy` (`TempEmail`): `NewTempEmail`: block-list parsing, the
  domain filter, credentials, the control flow of `create_email`, and the
  inbox scans with six-digit code extraction.

Timestamps are strings passed in by the caller and compared with Python's
code-point order. HTTP replies, cookie reads, registration outcomes and
random draws are inputs of the operations that consume them.

The model keeps these behaviours of the code, which are easy to miss on a
first reading:
- `save_accounts` overwrites the file in place (account_manager.py:65-66).
  It is not atomic. A failed write may leave the file truncated, and later
  reads then return `[]`. `AccountStore.Save` allows exactly that outcome.
- `select_account` falls back to the first record only when no record has
  a non-empty `last_used_time` (quick_select_account.py:67-70). A store
  whose records are all used and time-stamped does not fall back: the scan
  after the latest record finds nothing and the call returns false
  (quick_select_account.py:73-81). `SelectAccount` states both cases.
- `mark_account_used` on a record without a `status` object raises
  `KeyError`, which is reported as `False`. Nothing is saved, so such a
  record stays unused for ever (account_manager.py:163-179).

## Model

| member | source | states |
|---|---|---|
| Accounts.AccountStore.constructor | account_manager.py:32-45 | a missing file starts the store empty; an existing file is kept as it is |
| Accounts.AccountStore.Save | account_manager.py:62-73 | success replaces the stored list by the records; failure leaves the old list or an empty one (file truncated before the write failed); every save is logged with the list it was asked to write and its answer |
| Accounts.AccountStore.AddAccount | account_manager.py:75-111 | an address already present gives false, no change and no save; otherwise exactly one save is made, of the old list with one new unused record appended, and the answer is that save's answer; success leaves that list in the store, failure leaves the old list or empties it; pairwise distinct addresses stay distinct; the request is logged |
| Accounts.AddOutcomeKeepsDistinct | account_manager.py:75-111 | every outcome `add_account` allows (a duplicate address leaves the list alone; otherwise it is kept, emptied by a failed save, or has the new record appended) adds at most one record and keeps pairwise distinct addresses distinct |
| Accounts.FindEmail | account_manager.py:139-147 | the index of the first record with the address, none exactly when no record has it |
| Accounts.NewAccount | account_manager.py:87-97 | the new record has the given address, is unused and has no last-used time |
| Accounts.NextUnused | account_manager.py:113-123 | the first record in list order that is not used (a missing status reads as unused); none exactly when every record is used |
| Accounts.IsUsed | account_manager.py:119 | definition: the record's `is_used` flag, false when the status is missing; the selectors and counts read it |
| Accounts.NextAccount | account_manager.py:125-155 | empty store or unknown address gives none; no address gives the first unused; otherwise the result lies strictly after the first index of the address, is unused, every record in between is used, and none exactly when all later records are used (no wrap-around) |
| Accounts.FirstUnusedFrom | account_manager.py:150-155 | the first unused record at or after the given index; every record in between is used; none exactly when every record from there on is used |
| Accounts.CountUsed | account_manager.py:186 | the used count never exceeds the length, and equals it exactly when every record is used |
| Accounts.AccountStats | account_manager.py:181-193 | total is the length, used plus unused is the total, and unused is zero exactly when there is no next unused record |
| Accounts.AccountStore.MarkAccountUsed | account_manager.py:157-179 | when the first record with the address has a status, exactly one save is made, of the list with that record marked used at the given time, and the answer is that save's answer: true leaves the marked list, false keeps the list or empties it; an absent address or a record without status gives false, no change and no save; addresses stay distinct; the request is logged |
| Accounts.MarkedAtEffect | account_manager.py:163-169 | marking sets used and the time on that record only, keeps its other fields, and leaves every other record and every address unchanged |
| Accounts.MarkedAt | account_manager.py:166-167 | the list keeps its length and the marked record is used (`MarkedAtEffect` states the rest) |
| Accounts.MarkTwice | account_manager.py:163-169 | marking twice equals marking once with the later time; the record stays used |
| Accounts.CountUsedAppendNew | account_manager.py:87-100 | appending a new unused record does not change the used count |
| Accounts.CountUsedMarked | account_manager.py:163-169 | marking an unused record raises the used count by one; marking a used one keeps it |
| Accounts.MarkedAtKeepsDistinct | account_manager.py:163-172 | marking keeps the addresses pairwise distinct |
| Accounts.AllUsedNoNext | account_manager.py:146-155 | when every record is used, the forward scan from any address finds nothing |
| Accounts.LifeCycle | account_manager.py:87-193 | a new record is unused, is the next unused record, and after marking the statistics read one used and none unused |
| Accounts.NextAfterUsed | account_manager.py:139-155 | after a used record comes the unused record that follows it |
| Selection.LastUsedUpTo | quick_select_account.py:57-64 | the scan's choice is a record with a non-empty last-used time among those scanned |
| Selection.LastUsedTime | quick_select_account.py:61 | definition: the `last_used_time` of the record's status, none when the status or the time is missing; `LastUsedUpTo` and `LastUsedIsEarliestLatest` state the scan over it |
| Selection.LastUsedIsEarliestLatest | quick_select_account.py:57-64 | nothing is chosen exactly when no record has a time; the chosen time is not exceeded by any other, and every earlier timed record is strictly older, so ties keep the earliest |
| Text.StrLessTransitive | quick_select_account.py:62 | the string order `>` compares with is transitive (with irreflexivity, totality and asymmetry beside it) |
| Selection.CursorAuth.UpdateAuth | quick_select_account.py:88 | the auth store records the address, access token and refresh token it is given, and the answer it gave |
| Selection.MachineIdResetter.ResetMachineIds | quick_select_account.py:96 | the answer to each reset request is logged |
| Selection.AccountSelector.ApplyAccount | quick_select_account.py:83-112 | `Applied`: the account's token goes to the auth store as both access and refresh token; the result is true exactly when the auth store and then the reset answered success; an auth update answered with failure is followed by no reset and no store request, a reset answered with failure by no store request or save; after two successes the store is asked to mark the address used: a record found with a status is saved marked, and a save answered true leaves it marked, while an absent address or a record without status leaves the list and saves alone; the result is true whatever the marking answered |
| Selection.AppliedMarks | quick_select_account.py:103-108 | after two successes the account is left marked used when the save of the marked list answered true, and an address not in the store leaves the list and the saves alone |
| Selection.AccountSelector.SelectAccount | quick_select_account.py:35-81 | the first unused account, if there is one, is applied exactly as `ApplyAccount` states (auth update, reset, marking, saves and result); an empty store gives false with nothing touched; a store without usage times applies its first record the same way; otherwise every record is used, the scan after the latest one finds nothing and the result is false with nothing touched |
| Selection.AccountSelector.constructor | quick_select_account.py:28-33 | the selector works on the given store, auth store and machine-id reset |
| Batch.Successes | batch_register.py:56-76 | at most one remembered account per attempt |
| Batch.SuccessesExactly | batch_register.py:56-76 | an account is remembered exactly when some attempt signed it up |
| Batch.Cooldowns | batch_register.py:80-84 | at most one cooldown per attempt, none after the last attempt |
| Batch.CooldownsWithoutRaise | batch_register.py:80-84 | without exceptions there is one cooldown between each pair of neighbouring attempts |
| Batch.BatchRegistration.constructor | batch_register.py:32-37 | `count` defaults to 3 and the remembered list starts empty |
| Batch.Offers | batch_register.py:56-72 | one offer per signed-up attempt |
| Batch.OffersAreSuccesses | batch_register.py:56-76 | the offers carry the remembered accounts, in the same order |
| Batch.OfferedInTurnKeeps | batch_register.py:56-76 | a store that passes through one `add_account` outcome per offer grows by at most the number of offers and keeps distinct addresses |
| Batch.BatchRegistration.OfferAccount | batch_register.py:59-72 | the account of a successful attempt is handed to `add_account`: the store logs one request with its address; a duplicate address leaves the list alone, otherwise it changes as `add_account` allows |
| Batch.BatchRegistration.Start | batch_register.py:39-99 | runs every attempt in order; each signed-up account is offered to the store with `add_account`, in order and exactly once, and the store passes through one outcome `add_account` allows per offer (an address already present leaves it alone); the success count is the number of signed-up attempts whatever the store answered; each is remembered in order; the result is true exactly when one succeeded; the store grows by at most the success count and keeps distinct addresses |
| Batch.FirstNamed | batch_register.py:133-134 | the first cookie with the session cookie's name, none exactly when there is none |
| Batch.SessionTokenShape | batch_register.py:135 | there is no token exactly when the cookie value has no `%3A%3A`; otherwise the token is the text between the first separator and the next one or the end |
| Batch.SessionToken | batch_register.py:135 | definition: element `[1]` of the split on `%3A%3A`, none with fewer than two pieces; `SessionTokenShape` and `SessionTokenAfter` state what it is |
| Batch.SessionTokenAfter | batch_register.py:135 | with a first separator at a position, there is a token and it is the text after that separator up to the next one or the end |
| Batch.FirstTokenRead | batch_register.py:130-154 | the first cookie read that yields a token, none exactly when no read does |
| Batch.TokenFromRead | batch_register.py:132-135 | a read yields a token exactly when it returned a session cookie whose value holds `%3A%3A`; a raising read yields none |
| Text.LastPieceFree | batch_register.py:122 | the last piece of a split holds no separator |
| Text.LastPieceShape | batch_register.py:122 | the last piece of a split is a suffix of the text that follows a separator or is the whole text |
| Batch.UsageLimitShape | batch_register.py:121-122 | the usage limit is the stripped text after the last `/`: it holds no `/`, has no white space at either end, and is the stripped text when there is no `/` |
| Batch.UsageLimitOf | batch_register.py:122 | definition: the stripped last piece of the split on `/`; `UsageLimitShape` states its shape |
| Batch.Registration.constructor | batch_register.py:104-107 | no token yet and the usage limit "unknown" |
| Batch.Registration.GetAccountInfo | batch_register.py:109-160 | an error loading the page fails with no cookie read; a usage element sets the usage limit; it succeeds exactly when one of the 30 reads yields a token, keeps the token of the first such read after that many reads, and otherwise fails after 30 reads with the token untouched |
| Batch.Registration.SaveAccountInfo | batch_register.py:163-166 | keeps the token and usage limit it is given and answers true |
| TempEmail.ServicesDiffer | new_tempemail.py:17-20 | the two services have different API URLs |
| TempEmail.NewTempEmail.constructor | new_tempemail.py:14-26 | the chosen service and its URL, no credentials, and the block list fetched once |
| TempEmail.GetBlockedDomains | new_tempemail.py:28-47 | a 200 reply gives the parsed list; any other status or an exception gives the empty list |
| TempEmail.ParseBlockList | new_tempemail.py:35 | definition: the non-blank stripped lines of the reply text, in order; `ParseBlockListShape` states its members |
| Text.SplitPiecesFree | new_tempemail.py:35 | no piece of a split holds the separator |
| TempEmail.NonBlankStrippedMembers | new_tempemail.py:35 | exactly the non-blank stripped lines are kept, each without white space at either end |
| TempEmail.NonBlankStrippedFromLines | new_tempemail.py:35 | every kept entry is the stripped form of some line and is not blank |
| TempEmail.NonBlankStrippedKeepsLines | new_tempemail.py:35 | the stripped form of every line that is not blank is kept |
| TempEmail.NonBlankStrippedClean | new_tempemail.py:35 | every kept entry is non-blank with no white space at either end |
| TempEmail.ParseBlockListShape | new_tempemail.py:35 | an entry of the block list is exactly a non-blank stripped line of the text; no entry is blank, has surrounding white space or holds a line break |
| TempEmail.NewTempEmail.ExcludeBlockedDomains | new_tempemail.py:49-66 | the result is the order-preserving sublist of listed records whose domain is not blocked |
| TempEmail.KeepUnblockedNothingBlocked | new_tempemail.py:51-52 | with an empty block list the listing comes back unchanged |
| TempEmail.KeepUnblockedMembers | new_tempemail.py:54-57 | a record survives exactly when it was listed and its domain is not blocked |
| TempEmail.KeepUnblocked | new_tempemail.py:54-57 | the filtered listing is no longer than the listing (`KeepUnblockedMembers` and `ExcludeBlockedDomains` state the rest) |
| TempEmail.ExcludedCount | new_tempemail.py:59 | the excluded count is the length difference and counts the records with a blocked domain |
| TempEmail.BlockedCount | new_tempemail.py:54-59 | definition: the number of listed records whose domain is blocked; `ExcludedCount` proves it equals the excluded count |
| TempEmail.Choices | new_tempemail.py:70-71 | one character of the alphabet per random draw |
| TempEmail.GenerateCredentials | new_tempemail.py:68-72 | a ten-character user name over `[a-z0-9]` and a twelve-character password over letters, digits and punctuation |
| TempEmail.ChosenDomainNotBlocked | new_tempemail.py:140 | the first surviving domain was listed and is not blocked |
| TempEmail.AddressShape | new_tempemail.py:140-141 | the address is the user name, `@`, and the unblocked domain, and the user name holds no `@` |
| TempEmail.ListedDomains | new_tempemail.py:88-99 | a listing reaches the filter exactly when the reply is a non-empty 200 listing, and then it is that listing |
| TempEmail.ListedDomainsAsWritten | new_tempemail.py:88-99 | definition of the listing step as written, where the unguarded translator call drops every listing when no translator is set; `ListingNeedsTranslator` and `ListingNeedsTranslatorExample` state the difference |
| TempEmail.ListingNeedsTranslator | new_tempemail.py:96 | without a translator no listing reaches the filter; with one, the code agrees with the intended step |
| TempEmail.ListingNeedsTranslatorExample | new_tempemail.py:96 | a one-domain listing is filtered as intended but dropped as written |
| TempEmail.SwitchTarget | new_tempemail.py:119-122 | the first service, in list order, whose API URL differs from the current one; there always is one |
| TempEmail.PassStep | new_tempemail.py:88-216 | one pass on one round of replies: the selected service stays one of the two; the block list only grows, each addition new; a pass that gives up or calls again keeps the address and token; a pass that returns an address keeps it with a token and a password |
| TempEmail.CreateOutcome | new_tempemail.py:74-226 | the outcome of successive calls on successive rounds of replies, one pass each, ending at the first pass that returns or when the rounds run out: the selected service stays one of the two; without an address the kept address and token are those before the call; with one, the client keeps that address, a token and a password |
| TempEmail.CreateOutcomeSwitches | new_tempemail.py:112-127 | when every listed domain is blocked the outcome is that of the next call on the other service, whose URL differs |
| TempEmail.CreateOutcomeGrows | new_tempemail.py:171-177 | the block list only grows, and every domain added was not in it |
| TempEmail.CreateOutcomeBlocksRejected | new_tempemail.py:160-177 | a creation refused over the domain or address with another domain left adds the chosen domain, which was not blocked, to the block list, keeps the drawn password and tries again; the domain stays in the final block list |
| TempEmail.DomainRejected | new_tempemail.py:171 | definition: the lower-cased reply text names `domain` or `address`; used by `PassStep` and `CreateOutcomeBlocksRejected` |
| TempEmail.CreateOutcomeAddress | new_tempemail.py:136-207 | a created address comes from some round whose creation was answered 201 and token request 200; it is that round's generated user name at the first listed domain outside the final block list, and the client keeps that address, that round's token and that round's password |
| TempEmail.CreatedAddressShape | new_tempemail.py:140-141 | a created address is a generated user name, `@`, and a domain outside the final block list |
| TempEmail.CreateOutcomeKeeps | new_tempemail.py:74-226 | over every run: the block list only grows, each addition new; a created address is a generated user name at a domain outside the final block list, kept with a token and a twelve-character password; without an address the address and token are those before the call |
| TempEmail.NewTempEmail.CreateEmail | new_tempemail.py:74-226 | the retry loop runs exactly one pass; the returned value and the new service, block list, token, address and password are those of `CreateOutcome`; the API URL stays that of the selected service; the block list only grows, each addition new; a returned address is a generated user name at an unblocked domain, kept with a token and a twelve-character password; without an address the kept address and token are unchanged |
| TempEmail.NewTempEmail.CreateEmailPass | new_tempemail.py:81-216 | one pass, agreeing with `CreateOutcome`: all domains blocked switches to the other service and calls again; a rejection over the domain or address with another domain left blocks the chosen domain only if absent and calls again; a listing, creation or token failure gives none after keeping the password; success keeps the address and that round's token; and the state guarantees of `CreateOutcomeKeeps` |
| TempEmail.CodeStart | new_tempemail.py:319 | the leftmost position of six digits with no word character on either side |
| TempEmail.FindCode | new_tempemail.py:319 | no code exactly when no position matches; a code is six digits |
| TempEmail.FindCodeIsLeftmost | new_tempemail.py:319 | a found code is the text at the leftmost match |
| TempEmail.LongRunHasNoCode | new_tempemail.py:319 | a run of seven or more digits holds no code |
| TempEmail.FirstEndingCheck | new_tempemail.py:274-284 | the first entry whose test raises, or verification message whose detail request raises or is answered 200 |
| TempEmail.IsVerificationMessage | new_tempemail.py:275 | definition: the sender is `no-reply@cursor.sh` and the subject holds `Verify your email address`; the same test is at line 309 |
| TempEmail.CodeOf | new_tempemail.py:311-322 | definition: the code of the first match in the text of a 200 detail reply, none when the test raised, the reply failed or has no text, or no code matches; `GetVerificationCode` returns it for the message that ends the search |
| TempEmail.NewTempEmail.CheckForCursorEmail | new_tempemail.py:265-297 | true exactly when the listing succeeds and some verification message's detail request is answered 200, whatever its body, before any entry lacks a sender, any Cursor entry lacks a subject, or any verification message's detail request raises |
| TempEmail.FirstEndingCodeSearch | new_tempemail.py:308-327 | the first entry whose test raises, or verification message whose detail request raises, or is answered 200 without a text or with a text holding a code |
| TempEmail.NewTempEmail.GetVerificationCode | new_tempemail.py:299-340 | the code of the first verification message whose text holds one, unless before it an entry lacks a sender, a Cursor entry lacks a subject, or a verification message's detail request raises or comes back 200 without a text; none on a failed listing; a code is six digits |
| TempEmail.OtherMessagesIgnored | new_tempemail.py:309 | well-formed messages from other senders or with other subjects do not change which message ends the search |

## Left out

- browser.py is not part of this model: it only configures the browser library.
- File, JSON, HTTP and browser I/O: the file is the list field, and every reply, cookie read and page element is an input of the operation that reads it.
- Console output, colours and the translator's messages are not modelled; the translator matters only in the finding below.
- `time.sleep` is a counter (`Start`'s ghost `sleeps`, the poll count of `GetAccountInfo`); `datetime.now()` is the caller's `now` or `clock` string.
- `random.choice` and `random.choices` are inputs: the chosen service index and one natural number per character, reduced modulo the alphabet size.
- `CursorRegistration.start`, `CursorAuth.update_auth` and `MachineIDResetter.reset_machine_ids` are not part of this model; their outcomes are inputs or arbitrary answers.
- `export_to_txt`, `NewTempEmail.close`, `refresh_inbox`, the interactive `main` and the `run` entry points: console and file I/O only.
- `get_all_accounts` of a file without an `accounts` key, or with records lacking `email`, is not modelled: every record has all fields except an optional `status`.
- A `status` object without an `is_used` key is not distinguished from one with `is_used` false.
- `TempEmail.IsWordChar`, `TempEmail.IsDigit` and `Text.Lower`: `\b`, `\d` and `str.lower` are modelled on ASCII; Unicode word characters, digits and case mappings are not.
- `TempEmail.NewTempEmail.CreateEmail`: the recursion of `create_email` has no depth bound in the code; the model consumes one round of replies per call and gives `None` when they run out, which stands for the recursion limit whose error is caught like any other.
- `TempEmail.NewTempEmail.CreateEmail`: uses the intended listing step of the finding below, not the one written at line 96.
- `TempEmail.Domain`: a domain record keeps only its `domain` field.
- `TempEmail.Message`: a listed entry without an `id` is modelled by a detail reply that raises, which ends both scans the same way; a 200 message listing without `hydra:member` is a listing that raises.
- `Batch.BatchRegistration.Start`: an exception raised while constructing a registration object outside the `try` is not modelled.

## Findings

| source | as written | input that shows it | evidently intended | confidence | as-written member | corrected member |
|---|---|---|---|---|---|---|
| new_tempemail.py:96 | the progress message after decoding the domain listing calls `self.translator.get` without checking that a translator is set, so the `AttributeError` aborts the attempt | `NewTempEmail()` without a translator and a 200 reply listing one domain `example.com` | print the message without the translator, as the surrounding lines do, and go on to filter the listing | high, not executed | TempEmail.ListedDomainsAsWritten | TempEmail.ListedDomains |
