/**
 * The temporary-mailbox client (`NewTempEmail`) over the mail.tm / mail.gw
 * HTTP API.  Every HTTP exchange is an input: the reply the server gives
 * (or `...Raised` when the request or the decoding of its JSON raises).
 * Random choices are inputs too: the service picked at construction and
 * the draws behind the generated credentials.
 */
module TempEmail {
  import opened Wrappers
  import opened Text

  /** One mail service: its name and the base URL of its API. */
  datatype Service = Service(name: string, apiUrl: string)

  /** The two services, in the order the client tries them. */
  const Services: seq<Service> := [Service("mail.tm", "https://api.mail.tm"), Service("mail.gw", "https://api.mail.gw")]

  /** The two services have different API URLs. */
  lemma ServicesDiffer()
    ensures |Services| == 2 && Services[0].apiUrl != Services[1].apiUrl
  {
    assert Services[0].apiUrl[17] == 't' && Services[1].apiUrl[17] == 'g';
  }

  // ---------------------------------------------------------------- block list

  /** The reply to the request for the block list. */
  datatype BlockReply = BlockRaised | BlockReply(status: int, text: string)

  /** The stripped lines that are not blank, in order. */
  function NonBlankStripped(lines: seq<string>): (r: seq<string>)
    ensures |r| <= |lines|
  {
    if lines == [] then []
    else
      var d := Strip(lines[0]);
      (if d != "" then [d] else []) + NonBlankStripped(lines[1..])
  }

  /** The lines of a text, `text.split('\n')`. */
  function Lines(text: string): seq<string> {
    Split(text, "\n")
  }

  /** The block list in a 200 reply: one domain per line. */
  function ParseBlockList(text: string): seq<string> {
    NonBlankStripped(Lines(text))
  }

  /** `get_blocked_domains`: the parsed list on a 200 reply, otherwise nothing. */
  function GetBlockedDomains(reply: BlockReply): (r: seq<string>)
    ensures reply.BlockRaised? || reply.status != 200 ==> r == []
    ensures reply.BlockReply? && reply.status == 200 ==> r == ParseBlockList(reply.text)
  {
    if reply.BlockReply? && reply.status == 200 then ParseBlockList(reply.text) else []
  }

  /** A domain as the list holds it: not blank and without white space at either end. */
  predicate StrippedNonBlank(d: string) {
    d != "" && !IsSpace(d[0]) && !IsSpace(d[|d| - 1])
  }

  /**
   * Exactly the stripped forms of the lines that are not blank are kept,
   * and each of them is a stripped, non-blank string.
   */
  lemma NonBlankStrippedMembers(lines: seq<string>)
    ensures forall d :: d in NonBlankStripped(lines) <==> d != "" && exists k :: 0 <= k < |lines| && Strip(lines[k]) == d
    ensures forall d :: d in NonBlankStripped(lines) ==> StrippedNonBlank(d)
  {
    NonBlankStrippedFromLines(lines);
    NonBlankStrippedKeepsLines(lines);
    NonBlankStrippedClean(lines);
  }

  /** Every kept entry is the stripped form of some line, and not blank. */
  lemma {:induction false} NonBlankStrippedFromLines(lines: seq<string>)
    ensures forall d :: d in NonBlankStripped(lines) ==> d != "" && exists k :: 0 <= k < |lines| && Strip(lines[k]) == d
  {
    if lines != [] {
      NonBlankStrippedFromLines(lines[1..]);
      forall d | d in NonBlankStripped(lines)
        ensures exists k :: 0 <= k < |lines| && Strip(lines[k]) == d
      {
        if d != Strip(lines[0]) {
          var k :| 0 <= k < |lines[1..]| && Strip(lines[1..][k]) == d;
          assert lines[k + 1] == lines[1..][k];
        }
      }
    }
  }

  /** The stripped form of every line that is not blank is kept. */
  lemma {:induction false} NonBlankStrippedKeepsLines(lines: seq<string>)
    ensures forall k :: 0 <= k < |lines| && Strip(lines[k]) != "" ==> Strip(lines[k]) in NonBlankStripped(lines)
  {
    if lines != [] {
      NonBlankStrippedKeepsLines(lines[1..]);
      forall k | 0 <= k < |lines| && Strip(lines[k]) != ""
        ensures Strip(lines[k]) in NonBlankStripped(lines)
      {
        if k > 0 {
          assert lines[1..][k - 1] == lines[k];
        }
      }
    }
  }

  /** Every kept entry is stripped and not blank. */
  lemma {:induction false} NonBlankStrippedClean(lines: seq<string>)
    ensures forall d :: d in NonBlankStripped(lines) ==> StrippedNonBlank(d)
  {
    if lines != [] {
      NonBlankStrippedClean(lines[1..]);
      StripShape(lines[0]);
    }
  }

  /**
   * The parsed block list: an entry is exactly a non-blank stripped line
   * of the text, and no entry holds a line break.
   */
  lemma ParseBlockListShape(text: string)
    ensures forall d :: d in ParseBlockList(text) <==>
      d != "" && exists k :: 0 <= k < |Lines(text)| && Strip(Lines(text)[k]) == d
    ensures forall d :: d in ParseBlockList(text) ==> StrippedNonBlank(d) && '\n' !in d
  {
    NonBlankStrippedMembers(Lines(text));
    SplitPiecesFree(text, "\n");
    forall d | d in ParseBlockList(text)
      ensures '\n' !in d
    {
      var k :| 0 <= k < |Lines(text)| && Strip(Lines(text)[k]) == d;
      CharAbsent(Lines(text)[k], '\n');
      if '\n' in d {
        StripSubset(Lines(text)[k], '\n');
      }
    }
  }

  // ---------------------------------------------------------------- domains

  /** A domain record of the `/domains` listing. */
  datatype Domain = Domain(domain: string)

  /** The records whose domain is not blocked, in their original order. */
  function KeepUnblocked(ds: seq<Domain>, blocked: seq<string>): (r: seq<Domain>)
    ensures |r| <= |ds|
  {
    if ds == [] then []
    else
      var last := ds[|ds| - 1];
      KeepUnblocked(ds[..|ds| - 1], blocked) + (if last.domain in blocked then [] else [last])
  }

  /** How many records have a blocked domain. */
  function BlockedCount(ds: seq<Domain>, blocked: seq<string>): nat {
    if ds == [] then 0
    else BlockedCount(ds[..|ds| - 1], blocked) + (if ds[|ds| - 1].domain in blocked then 1 else 0)
  }

  /** A record survives exactly when it was listed and its domain is not blocked. */
  lemma {:induction false} KeepUnblockedMembers(ds: seq<Domain>, blocked: seq<string>)
    ensures forall d :: d in KeepUnblocked(ds, blocked) <==> d in ds && d.domain !in blocked
  {
    if ds != [] {
      var init := ds[..|ds| - 1];
      KeepUnblockedMembers(init, blocked);
      assert ds == init + [ds[|ds| - 1]];
    }
  }

  /** With an empty block list the listing is returned unchanged. */
  lemma {:induction false} KeepUnblockedNothingBlocked(ds: seq<Domain>)
    ensures KeepUnblocked(ds, []) == ds
  {
    if ds != [] {
      KeepUnblockedNothingBlocked(ds[..|ds| - 1]);
      assert ds == ds[..|ds| - 1] + [ds[|ds| - 1]];
    }
  }

  /** The number of excluded records is the difference of the lengths. */
  lemma {:induction false} ExcludedCount(ds: seq<Domain>, blocked: seq<string>)
    ensures |ds| - |KeepUnblocked(ds, blocked)| == BlockedCount(ds, blocked)
  {
    if ds != [] {
      ExcludedCount(ds[..|ds| - 1], blocked);
    }
  }

  /** The domain chosen for a new address, the first surviving one, is not blocked. */
  lemma ChosenDomainNotBlocked(ds: seq<Domain>, blocked: seq<string>)
    requires KeepUnblocked(ds, blocked) != []
    ensures KeepUnblocked(ds, blocked)[0].domain !in blocked
    ensures KeepUnblocked(ds, blocked)[0] in ds
  {
    KeepUnblockedMembers(ds, blocked);
    assert KeepUnblocked(ds, blocked)[0] in KeepUnblocked(ds, blocked);
  }

  /** The reply to `GET /domains`. */
  datatype DomainsReply = DomainsRaised | DomainsStatus(code: int) | Domains(members: seq<Domain>)

  /**
   * The listing step as written: a 200 listing goes on to the filter only
   * when a translator is configured, because the progress message after
   * decoding the listing asks the translator for its text unconditionally.
   */
  function ListedDomainsAsWritten(hasTranslator: bool, reply: DomainsReply): Option<seq<Domain>> {
    match reply
    case Domains(ds) => if !hasTranslator then None else if ds == [] then None else Some(ds)
    case _ => None
  }

  /**
   * The listing step as intended: a 200 listing goes on to the filter
   * exactly when it is not empty.
   */
  function ListedDomains(reply: DomainsReply): (r: Option<seq<Domain>>)
    ensures r.Some? <==> reply.Domains? && reply.members != []
    ensures r.Some? ==> r.value == reply.members
  {
    match reply
    case Domains(ds) => if ds == [] then None else Some(ds)
    case _ => None
  }

  /** Without a translator no listing ever reaches the filter; with one, the two agree. */
  lemma ListingNeedsTranslator(reply: DomainsReply)
    ensures ListedDomainsAsWritten(false, reply).None?
    ensures ListedDomainsAsWritten(true, reply) == ListedDomains(reply)
  {
  }

  /** A one-domain listing: filtered as intended, dropped as written. */
  lemma ListingNeedsTranslatorExample()
    ensures ListedDomains(Domains([Domain("example.com")])) == Some([Domain("example.com")])
    ensures ListedDomainsAsWritten(false, Domains([Domain("example.com")])) == None
  {
  }

  // ---------------------------------------------------------------- credentials

  const Lowercase: string := "abcdefghijklmnopqrstuvwxyz"
  const Uppercase: string := "ABCDEFGHIJKLMNOPQRSTUVWXYZ"
  const Digits: string := "0123456789"
  const Punctuation: string := "!\"#$%&'()*+,-./:;<=>?@[\\]^_`{|}~"

  /** The alphabet of user names: `ascii_lowercase + digits`. */
  const UserAlphabet: string := Lowercase + Digits
  /** The alphabet of passwords: `ascii_letters + digits + punctuation`. */
  const PasswordAlphabet: string := Lowercase + Uppercase + Digits + Punctuation

  const UserLength: nat := 10
  const PasswordLength: nat := 12

  /** The characters `random.choices` yields for the given draws, one per draw. */
  function Choices(alphabet: string, draws: seq<nat>): (r: string)
    requires |alphabet| > 0
    ensures |r| == |draws|
    ensures forall k :: 0 <= k < |r| ==> r[k] in alphabet
  {
    if draws == [] then ""
    else [alphabet[draws[0] % |alphabet|]] + Choices(alphabet, draws[1..])
  }

  /** The random draws behind one `_generate_credentials` call. */
  datatype Draws = Draws(user: seq<nat>, password: seq<nat>)

  predicate WellFormedDraws(d: Draws) {
    |d.user| == UserLength && |d.password| == PasswordLength
  }

  /** `@` is not a user-name character. */
  lemma AtNotInUserAlphabet()
    ensures '@' !in UserAlphabet
  {
    assert forall k :: 0 <= k < |UserAlphabet| ==> UserAlphabet[k] != '@';
  }

  /**
   * `_generate_credentials`: a ten-character user name over `[a-z0-9]` and
   * a twelve-character password over letters, digits and punctuation.
   */
  function GenerateCredentials(d: Draws): (r: (string, string))
    requires WellFormedDraws(d)
    ensures |r.0| == UserLength && forall k :: 0 <= k < |r.0| ==> r.0[k] in UserAlphabet
    ensures |r.1| == PasswordLength && forall k :: 0 <= k < |r.1| ==> r.1[k] in PasswordAlphabet
  {
    (Choices(UserAlphabet, d.user), Choices(PasswordAlphabet, d.password))
  }

  /**
   * An address the client creates: a generated user name, `@`, then a
   * domain outside `blocked`.  The user name never holds `@`, so the
   * address splits back into its parts.
   */
  predicate GeneratedAddress(address: string, blocked: seq<string>) {
    && |address| > UserLength
    && (forall k :: 0 <= k < UserLength ==> address[k] in UserAlphabet)
    && address[UserLength] == '@'
    && address[UserLength + 1..] !in blocked
  }

  /** `f"{username}@{domain}"` for generated credentials and an unblocked domain. */
  lemma AddressShape(d: Draws, domain: string, blocked: seq<string>)
    requires WellFormedDraws(d) && domain !in blocked
    ensures GeneratedAddress(GenerateCredentials(d).0 + "@" + domain, blocked)
    ensures '@' !in GenerateCredentials(d).0
  {
    var user := GenerateCredentials(d).0;
    var address := user + "@" + domain;
    assert address[UserLength + 1..] == domain;
    AtNotInUserAlphabet();
    forall k | 0 <= k < |user|
      ensures user[k] != '@'
    {
      assert user[k] in UserAlphabet;
    }
  }

  // ---------------------------------------------------------------- account creation

  /** The reply to a `POST`: raised, or a status code and body text. */
  datatype PostReply = PostRaised | PostReply(status: int, text: string)

  /** The reply to `POST /token`: raised (also when the body lacks `token`), or status and token. */
  datatype TokenReply = TokenRaised | TokenReply(status: int, token: string)

  /** What one `create_email` call meets: the listing, the credential draws, and two replies. */
  datatype Round = Round(domains: DomainsReply, draws: Draws, create: PostReply, token: TokenReply)

  /** The rejection of a new account names the domain or the address. */
  predicate DomainRejected(text: string) {
    Contains(Lower(text), "domain") || Contains(Lower(text), "address")
  }

  /** Entries appended to `after` beyond `before` were each new at the time. */
  predicate GrowsWithoutDuplicates(before: seq<string>, after: seq<string>) {
    && |before| <= |after| && after[..|before|] == before
    && forall k :: |before| <= k < |after| ==> after[k] !in after[..k]
  }

  lemma GrowsWithoutDuplicatesTrans(a: seq<string>, b: seq<string>, c: seq<string>)
    requires GrowsWithoutDuplicates(a, b) && GrowsWithoutDuplicates(b, c)
    ensures GrowsWithoutDuplicates(a, c)
  {
    assert c[..|a|] == c[..|b|][..|a|];
  }

  /** The service the client switches to when every listed domain is blocked: the first other one. */
  function SwitchTarget(service: nat): (r: nat)
    requires service < |Services|
    ensures r < |Services| && Services[r].apiUrl != Services[service].apiUrl
    ensures forall j :: 0 <= j < r ==> Services[j].apiUrl == Services[service].apiUrl
  {
    ServicesDiffer();
    if service == 0 then 1 else 0
  }

  /** The state of the client that `create_email` reads and writes. */
  datatype Client = Client(service: nat, blocked: seq<string>, token: Option<string>,
                           email: Option<string>, password: Option<string>)

  /** What one pass of `create_email` does: return a result, or call `create_email` again. */
  datatype Step = Done(result: Option<string>, client: Client) | Again(client: Client)

  /**
   * One pass on the replies of `round`.  A listing that is empty or fails
   * gives `None`.  When every listed domain is blocked the client switches
   * to the other service and calls again.  Otherwise the password is kept
   * and the generated user name is tried at the first unblocked domain: a
   * creation refused over the domain or the address, with another domain
   * left, blocks that domain (unless already blocked) and calls again; any
   * other failure of the creation or of the token request gives `None`;
   * success keeps the address and the token.
   */
  function PassStep(c: Client, round: Round): (s: Step)
    requires c.service < |Services| && WellFormedDraws(round.draws)
    ensures s.client.service < |Services|
    ensures GrowsWithoutDuplicates(c.blocked, s.client.blocked)
    ensures s.Again? || s.result.None? ==> s.client.email == c.email && s.client.token == c.token
    ensures s.Done? && s.result.Some? ==> s.client.email == s.result && s.client.token.Some? && s.client.password.Some?
  {
    match ListedDomains(round.domains)
    case None => Done(None, c)
    case Some(domains) =>
      var filtered := KeepUnblocked(domains, c.blocked);
      if filtered == [] then Again(c.(service := SwitchTarget(c.service)))
      else
        var credentials := GenerateCredentials(round.draws);
        var c1 := c.(password := Some(credentials.1));
        var domain := filtered[0].domain;
        if round.create.PostRaised? then Done(None, c1)
        else if round.create.status != 201 then
          if |filtered| > 1 && DomainRejected(round.create.text) then
            Again(c1.(blocked := if domain in c1.blocked then c1.blocked else c1.blocked + [domain]))
          else Done(None, c1)
        else if round.token.TokenRaised? || round.token.status != 200 then Done(None, c1)
        else
          var address := credentials.0 + "@" + domain;
          Done(Some(address), c1.(token := Some(round.token.token), email := Some(address)))
  }

  /**
   * What `create_email` returns, and the client it leaves, when its
   * successive calls meet `rounds` in turn; running out of rounds stands
   * for the recursion limit and gives `None`.
   */
  ghost function CreateOutcome(c: Client, rounds: seq<Round>): (r: (Option<string>, Client))
    requires c.service < |Services|
    requires forall k :: 0 <= k < |rounds| ==> WellFormedDraws(rounds[k].draws)
    ensures r.1.service < |Services|
    ensures r.0.None? ==> r.1.email == c.email && r.1.token == c.token
    ensures r.0.Some? ==> r.1.email == r.0 && r.1.token.Some? && r.1.password.Some?
    decreases |rounds|
  {
    if rounds == [] then (None, c)
    else
      match PassStep(c, rounds[0])
      case Done(result, c1) => (result, c1)
      case Again(c1) => CreateOutcome(c1, rounds[1..])
  }

  /** Every listed domain is blocked: the call tries again, on the other service. */
  lemma CreateOutcomeSwitches(c: Client, rounds: seq<Round>)
    requires c.service < |Services|
    requires forall k :: 0 <= k < |rounds| ==> WellFormedDraws(rounds[k].draws)
    requires rounds != [] && ListedDomains(rounds[0].domains).Some?
    requires KeepUnblocked(ListedDomains(rounds[0].domains).value, c.blocked) == []
    ensures CreateOutcome(c, rounds) == CreateOutcome(c.(service := SwitchTarget(c.service)), rounds[1..])
    ensures Services[SwitchTarget(c.service)].apiUrl != Services[c.service].apiUrl
  {
  }

  /**
   * The creation is refused over the domain or the address while another
   * domain is left: the chosen domain, which was not blocked, joins the
   * block list, the password drawn is kept, and the call tries again; the
   * domain stays blocked whatever happens next.
   */
  lemma CreateOutcomeBlocksRejected(c: Client, rounds: seq<Round>)
    requires c.service < |Services|
    requires forall k :: 0 <= k < |rounds| ==> WellFormedDraws(rounds[k].draws)
    requires rounds != [] && ListedDomains(rounds[0].domains).Some?
    requires |KeepUnblocked(ListedDomains(rounds[0].domains).value, c.blocked)| > 1
    requires rounds[0].create.PostReply? && rounds[0].create.status != 201
    requires DomainRejected(rounds[0].create.text)
    ensures var chosen := KeepUnblocked(ListedDomains(rounds[0].domains).value, c.blocked)[0].domain;
      && chosen !in c.blocked
      && CreateOutcome(c, rounds) == CreateOutcome(c.(password := Some(GenerateCredentials(rounds[0].draws).1),
                                                      blocked := c.blocked + [chosen]), rounds[1..])
      && chosen in CreateOutcome(c, rounds).1.blocked
  {
    var chosen := KeepUnblocked(ListedDomains(rounds[0].domains).value, c.blocked)[0].domain;
    ChosenDomainNotBlocked(ListedDomains(rounds[0].domains).value, c.blocked);
    var c1 := c.(password := Some(GenerateCredentials(rounds[0].draws).1), blocked := c.blocked + [chosen]);
    CreateOutcomeGrows(c1, rounds[1..]);
    assert CreateOutcome(c, rounds).1.blocked[|c.blocked|] == chosen;
  }

  /** The block list only grows, and each domain it gains was not in it. */
  lemma {:induction false} CreateOutcomeGrows(c: Client, rounds: seq<Round>)
    requires c.service < |Services|
    requires forall k :: 0 <= k < |rounds| ==> WellFormedDraws(rounds[k].draws)
    ensures GrowsWithoutDuplicates(c.blocked, CreateOutcome(c, rounds).1.blocked)
    decreases |rounds|
  {
    if rounds != [] && PassStep(c, rounds[0]).Again? {
      var c1 := PassStep(c, rounds[0]).client;
      CreateOutcomeGrows(c1, rounds[1..]);
      GrowsWithoutDuplicatesTrans(c.blocked, c1.blocked, CreateOutcome(c1, rounds[1..]).1.blocked);
    }
  }

  /**
   * `round` is the one whose account was created, leaving the client
   * `final`: its listing survives the final block list, the creation is
   * answered 201 and the token request 200, the address is the generated
   * user name at the first surviving domain, and the client keeps that
   * address, that round's token and that round's password.
   */
  ghost predicate CreatedIn(round: Round, final: Client, address: string) {
    && WellFormedDraws(round.draws)
    && ListedDomains(round.domains).Some?
    && KeepUnblocked(ListedDomains(round.domains).value, final.blocked) != []
    && round.create.PostReply? && round.create.status == 201
    && round.token.TokenReply? && round.token.status == 200
    && address == GenerateCredentials(round.draws).0 + "@"
                  + KeepUnblocked(ListedDomains(round.domains).value, final.blocked)[0].domain
    && final.email == Some(address) && final.token == Some(round.token.token)
    && final.password == Some(GenerateCredentials(round.draws).1)
  }

  /** A created address comes from one of the rounds, as `CreatedIn` describes. */
  lemma {:induction false} CreateOutcomeAddress(c: Client, rounds: seq<Round>)
    requires c.service < |Services|
    requires forall k :: 0 <= k < |rounds| ==> WellFormedDraws(rounds[k].draws)
    requires CreateOutcome(c, rounds).0.Some?
    ensures exists k :: (0 <= k < |rounds|
      && CreatedIn(rounds[k], CreateOutcome(c, rounds).1, CreateOutcome(c, rounds).0.value))
    decreases |rounds|
  {
    var out := CreateOutcome(c, rounds);
    match PassStep(c, rounds[0])
    case Again(c1) =>
      CreateOutcomeAddress(c1, rounds[1..]);
      var k :| 0 <= k < |rounds[1..]| && CreatedIn(rounds[1..][k], out.1, out.0.value);
      assert rounds[k + 1] == rounds[1..][k];
    case Done(_, _) =>
      assert CreatedIn(rounds[0], out.1, out.0.value);
  }

  /** A created address is a generated user name at a domain outside the final block list. */
  lemma CreatedAddressShape(round: Round, final: Client, address: string)
    requires CreatedIn(round, final, address)
    ensures GeneratedAddress(address, final.blocked)
  {
    var ds := ListedDomains(round.domains).value;
    ChosenDomainNotBlocked(ds, final.blocked);
    AddressShape(round.draws, KeepUnblocked(ds, final.blocked)[0].domain, final.blocked);
  }

  /**
   * What `create_email` guarantees about the client it leaves: the block
   * list only grows, each addition new; a created address is a generated
   * user name at a domain outside it, kept with its token and a
   * twelve-character password; a failure leaves address and token alone.
   */
  ghost predicate KeepsClient(before: Client, r: Option<string>, after: Client) {
    && GrowsWithoutDuplicates(before.blocked, after.blocked)
    && (r.Some? ==> (GeneratedAddress(r.value, after.blocked) && after.email == r && after.token.Some?
          && after.password.Some? && |after.password.value| == PasswordLength))
    && (r.None? ==> after.email == before.email && after.token == before.token)
  }

  /** `create_email` keeps the client as `KeepsClient` says, on every run. */
  lemma CreateOutcomeKeeps(c: Client, rounds: seq<Round>)
    requires c.service < |Services|
    requires forall k :: 0 <= k < |rounds| ==> WellFormedDraws(rounds[k].draws)
    ensures KeepsClient(c, CreateOutcome(c, rounds).0, CreateOutcome(c, rounds).1)
  {
    var out := CreateOutcome(c, rounds);
    CreateOutcomeGrows(c, rounds);
    if out.0.Some? {
      CreateOutcomeAddress(c, rounds);
      var k :| 0 <= k < |rounds| && CreatedIn(rounds[k], out.1, out.0.value);
      CreatedAddressShape(rounds[k], out.1, out.0.value);
    }
  }

  // ---------------------------------------------------------------- inbox

  /**
   * The reply to `GET /messages/{id}`: raised (also when the listed entry
   * has no `id`), or a status code with the `text` field of the body, if
   * it has one.
   */
  datatype DetailReply = DetailRaised | DetailReply(status: int, text: Option<string>)

  /**
   * A listed message: the sender address and the subject, each absent when
   * the entry lacks it, and the reply its detail request gets.
   */
  datatype Message = Message(id: string, sender: Option<string>, subject: Option<string>, detail: DetailReply)

  /** The reply to `GET /messages`. */
  datatype ListingReply = ListingRaised | ListingStatus(code: int) | Listing(messages: seq<Message>)

  const CursorSender: string := "no-reply@cursor.sh"
  const VerifySubject: string := "Verify your email address"

  /** The verification message: sent by Cursor with the verification subject. */
  predicate IsVerificationMessage(m: Message) {
    m.sender == Some(CursorSender) && m.subject.Some? && Contains(m.subject.value, VerifySubject)
  }

  /**
   * Testing whether the entry is the verification message raises: it has
   * no sender, or it is from Cursor and has no subject (the subject is
   * only looked at when the sender matches).
   */
  predicate TestRaises(m: Message) {
    m.sender.None? || (m.sender == Some(CursorSender) && m.subject.None?)
  }

  // ---------------------------------------------------------------- code extraction

  /** `[A-Za-z0-9_]`, the word characters of `\b` (ASCII). */
  predicate IsWordChar(c: char) {
    ('a' <= c <= 'z') || ('A' <= c <= 'Z') || ('0' <= c <= '9') || c == '_'
  }

  predicate IsDigit(c: char) {
    '0' <= c <= '9'
  }

  /** `\b\d{6}\b` matches at `i`: six digits with no word character on either side. */
  predicate CodeAt(s: string, i: nat) {
    && i + 6 <= |s|
    && (forall k :: i <= k < i + 6 ==> IsDigit(s[k]))
    && (i == 0 || !IsWordChar(s[i - 1]))
    && (i + 6 == |s| || !IsWordChar(s[i + 6]))
  }

  /** The leftmost match at or after `from`. */
  function CodeStart(s: string, from: nat): (r: Option<nat>)
    requires from <= |s|
    ensures r.Some? ==> from <= r.value && CodeAt(s, r.value)
    ensures r.Some? ==> forall j :: from <= j < r.value ==> !CodeAt(s, j)
    ensures r.None? ==> forall j :: from <= j <= |s| ==> !CodeAt(s, j)
    decreases |s| - from
  {
    if CodeAt(s, from) then Some(from)
    else if from == |s| then None
    else CodeStart(s, from + 1)
  }

  /** `re.search(r'\b\d{6}\b', text)`, the matched text. */
  function FindCode(text: string): (r: Option<string>)
    ensures r.None? <==> forall j :: 0 <= j <= |text| ==> !CodeAt(text, j)
    ensures r.Some? ==> |r.value| == 6 && forall k :: 0 <= k < 6 ==> IsDigit(r.value[k])
  {
    match CodeStart(text, 0)
    case None => None
    case Some(i) => Some(text[i..i + 6])
  }

  /** A found code is the leftmost six-digit run that is not part of a longer word. */
  lemma FindCodeIsLeftmost(text: string)
    requires FindCode(text).Some?
    ensures exists i: nat :: (CodeAt(text, i) && FindCode(text).value == text[i..i + 6]
      && forall j :: 0 <= j < i ==> !CodeAt(text, j))
  {
    var i := CodeStart(text, 0).value;
    assert CodeAt(text, i) && FindCode(text).value == text[i..i + 6];
  }

  /** A run of seven or more digits holds no code. */
  lemma LongRunHasNoCode(text: string)
    requires |text| >= 7 && forall k :: 0 <= k < |text| ==> IsDigit(text[k])
    ensures FindCode(text) == None
  {
    forall j | 0 <= j <= |text|
      ensures !CodeAt(text, j)
    {
      if j > 0 {
        assert IsWordChar(text[j - 1]);
      } else {
        assert IsWordChar(text[6]);
      }
    }
  }

  /**
   * Message `m` ends the scan of `check_for_cursor_email`: testing it
   * raises, or it is the verification message and its detail request
   * raises or is answered with status 200.
   */
  predicate EndsCheck(m: Message) {
    TestRaises(m) || (IsVerificationMessage(m) && (m.detail.DetailRaised? || m.detail.status == 200))
  }

  /**
   * Message `m` ends the scan of `get_verification_code`: testing it
   * raises, or it is the verification message and its detail request
   * raises, or is answered with status 200 and either no `text` (reading
   * it raises) or a text that holds a code.
   */
  predicate EndsCodeSearch(m: Message) {
    || TestRaises(m)
    || (IsVerificationMessage(m) && (m.detail.DetailRaised? ||
          (m.detail.status == 200 && (m.detail.text.None? || FindCode(m.detail.text.value).Some?))))
  }

  /** The code `get_verification_code` returns when the scan ends at `m`. */
  function CodeOf(m: Message): Option<string> {
    if !TestRaises(m) && m.detail.DetailReply? && m.detail.text.Some? then FindCode(m.detail.text.value) else None
  }

  /** The first message satisfying `EndsCheck`. */
  function FirstEndingCheck(ms: seq<Message>): (r: Option<nat>)
    ensures r.Some? ==> r.value < |ms| && EndsCheck(ms[r.value])
    ensures r.Some? ==> forall j :: 0 <= j < r.value ==> !EndsCheck(ms[j])
    ensures r.None? ==> forall j :: 0 <= j < |ms| ==> !EndsCheck(ms[j])
  {
    if ms == [] then None
    else if EndsCheck(ms[0]) then Some(0)
    else match FirstEndingCheck(ms[1..])
      case None => None
      case Some(k) => Some(k + 1)
  }

  /** The first message satisfying `EndsCodeSearch`. */
  function FirstEndingCodeSearch(ms: seq<Message>): (r: Option<nat>)
    ensures r.Some? ==> r.value < |ms| && EndsCodeSearch(ms[r.value])
    ensures r.Some? ==> forall j :: 0 <= j < r.value ==> !EndsCodeSearch(ms[j])
    ensures r.None? ==> forall j :: 0 <= j < |ms| ==> !EndsCodeSearch(ms[j])
  {
    if ms == [] then None
    else if EndsCodeSearch(ms[0]) then Some(0)
    else match FirstEndingCodeSearch(ms[1..])
      case None => None
      case Some(k) => Some(k + 1)
  }

  /** The maximum number of passes of the creation loop. */
  const MaxRetries: nat := 3

  class NewTempEmail {
    var selectedService: nat
    var apiUrl: string
    var token: Option<string>
    var email: Option<string>
    var password: Option<string>
    var blockedDomains: seq<string>

    /** The API URL is that of the selected service. */
    predicate Valid()
      reads this
    {
      selectedService < |Services| && apiUrl == Services[selectedService].apiUrl
    }

    /** The fields `create_email` works on. */
    function Snapshot(): Client
      reads this
    {
      Client(selectedService, blockedDomains, token, email, password)
    }

    /**
     * `__init__`: the service at index `choice` (the random pick), no
     * credentials yet, and the block list fetched once.
     */
    constructor (choice: nat, blockReply: BlockReply)
      requires choice < |Services|
      ensures Valid() && selectedService == choice
      ensures token == None && email == None && password == None
      ensures blockedDomains == GetBlockedDomains(blockReply)
    {
      selectedService := choice;
      apiUrl := Services[choice].apiUrl;
      token := None;
      email := None;
      password := None;
      blockedDomains := GetBlockedDomains(blockReply);
    }

    /** `exclude_blocked_domains`: the listed records whose domain is not blocked. */
    method ExcludeBlockedDomains(domains: seq<Domain>) returns (filtered: seq<Domain>)
      ensures filtered == KeepUnblocked(domains, blockedDomains)
    {
      if blockedDomains == [] {
        KeepUnblockedNothingBlocked(domains);
        return domains;
      }
      filtered := [];
      var i := 0;
      while i < |domains|
        invariant 0 <= i <= |domains|
        invariant filtered == KeepUnblocked(domains[..i], blockedDomains)
      {
        assert domains[..i + 1][..i] == domains[..i];
        if domains[i].domain !in blockedDomains {
          filtered := filtered + [domains[i]];
        }
        i := i + 1;
      }
      assert domains[..i] == domains;
    }

    /**
     * `create_email`, one call per round.  The retry loop runs one pass
     * only, because every pass returns, whatever happens in it; running out
     * of rounds stands for the recursion limit, whose error is caught like
     * any other.
     */
    method CreateEmail(rounds: seq<Round>) returns (r: Option<string>)
      requires Valid()
      requires forall k :: 0 <= k < |rounds| ==> WellFormedDraws(rounds[k].draws)
      modifies this
      decreases |rounds|, 1
      ensures Valid()
      ensures (r, Snapshot()) == CreateOutcome(old(Snapshot()), rounds)
      ensures GrowsWithoutDuplicates(old(blockedDomains), blockedDomains)
      ensures r.Some? ==> GeneratedAddress(r.value, blockedDomains)
      ensures r.Some? ==> email == r && token.Some?
      ensures r.Some? ==> password.Some? && |password.value| == PasswordLength
      ensures r.None? ==> email == old(email) && token == old(token)
    {
      r := None;
      if rounds == [] {
        return;
      }
      var attempt := 0;
      var returned := false;
      while attempt < MaxRetries && !returned
        invariant attempt <= 1 && (returned <==> attempt == 1)
        invariant !returned ==> unchanged(this) && r.None?
        invariant returned ==> (r, Snapshot()) == CreateOutcome(old(Snapshot()), rounds)
        invariant Valid()
        invariant GrowsWithoutDuplicates(old(blockedDomains), blockedDomains)
        invariant r.Some? ==> GeneratedAddress(r.value, blockedDomains)
        invariant r.Some? ==> email == r && token.Some?
        invariant r.Some? ==> password.Some? && |password.value| == PasswordLength
        invariant r.None? ==> email == old(email) && token == old(token)
      {
        attempt := attempt + 1;
        r := CreateEmailPass(rounds);
        returned := true;
      }
      assert attempt == 1;
    }

    /**
     * One pass of the retry loop of `create_email`, on the first round.  A
     * listing that is empty or fails, a failed creation that is not a
     * domain problem, or a failed token request gives `None`.  When every
     * listed domain is blocked the client switches to the other service and
     * calls itself; when the creation is refused over the domain or the
     * address and another domain is left, the chosen domain joins the block
     * list and the client calls itself.  On success the address, the
     * password and the token are kept.
     */
    method CreateEmailPass(rounds: seq<Round>) returns (r: Option<string>)
      requires Valid() && rounds != []
      requires forall k :: 0 <= k < |rounds| ==> WellFormedDraws(rounds[k].draws)
      modifies this
      decreases |rounds|, 0
      ensures Valid()
      ensures (r, Snapshot()) == CreateOutcome(old(Snapshot()), rounds)
      ensures KeepsClient(old(Snapshot()), r, Snapshot())
    {
      CreateOutcomeKeeps(Snapshot(), rounds);
      var round := rounds[0];
      var listed := ListedDomains(round.domains);
      if listed.None? {
        return None;
      }
      var domains := listed.value;

      var filtered := ExcludeBlockedDomains(domains);
      if filtered == [] {
        ServicesDiffer();
        var k := 0;
        while k < |Services|
          invariant 0 <= k <= |Services|
          invariant forall j :: 0 <= j < k ==> Services[j].apiUrl == apiUrl
        {
          if Services[k].apiUrl != apiUrl {
            assert k == SwitchTarget(selectedService);
            selectedService := k;
            apiUrl := Services[k].apiUrl;
            r := CreateEmail(rounds[1..]);
            return;
          }
          k := k + 1;
        }
        assert false;
      }

      var (user, pass) := GenerateCredentials(round.draws);
      password := Some(pass);
      var selectedDomain := filtered[0].domain;
      var address := user + "@" + selectedDomain;

      if round.create.PostRaised? {
        return None;
      }
      if round.create.status != 201 {
        if |filtered| > 1 && DomainRejected(round.create.text) {
          if selectedDomain !in blockedDomains {
            blockedDomains := blockedDomains + [selectedDomain];
          }
          r := CreateEmail(rounds[1..]);
          return;
        }
        return None;
      }

      if round.token.TokenRaised? || round.token.status != 200 {
        return None;
      }
      token := Some(round.token.token);
      email := Some(address);
      return Some(address);
    }

    /**
     * `check_for_cursor_email`: true exactly when the listing succeeds and
     * the detail request of some verification message is answered with
     * status 200, whatever the body, before any entry makes the scan
     * raise.
     */
    method CheckForCursorEmail(listing: ListingReply) returns (found: bool)
      ensures found <==> (listing.Listing? && exists k :: (0 <= k < |listing.messages|
        && IsVerificationMessage(listing.messages[k])
        && listing.messages[k].detail.DetailReply? && listing.messages[k].detail.status == 200
        && forall j :: 0 <= j < k ==> (!TestRaises(listing.messages[j])
          && !(IsVerificationMessage(listing.messages[j]) && listing.messages[j].detail.DetailRaised?))))
      ensures found <==> (listing.Listing? && FirstEndingCheck(listing.messages).Some?
        && !TestRaises(listing.messages[FirstEndingCheck(listing.messages).value])
        && listing.messages[FirstEndingCheck(listing.messages).value].detail.DetailReply?)
    {
      if !listing.Listing? {
        return false;
      }
      var messages := listing.messages;
      var i := 0;
      while i < |messages|
        invariant 0 <= i <= |messages|
        invariant forall j :: 0 <= j < i ==> !EndsCheck(messages[j])
      {
        var m := messages[i];
        if m.sender.None? {
          assert FirstEndingCheck(messages) == Some(i);
          return false;
        }
        if m.sender.value == CursorSender {
          if m.subject.None? {
            assert FirstEndingCheck(messages) == Some(i);
            return false;
          }
          if Contains(m.subject.value, VerifySubject) {
            match m.detail
            case DetailRaised =>
              assert FirstEndingCheck(messages) == Some(i);
              return false;
            case DetailReply(status, _) =>
              if status == 200 {
                assert FirstEndingCheck(messages) == Some(i);
                return true;
              }
          }
        }
        i := i + 1;
      }
      return false;
    }

    /**
     * `get_verification_code`: scanning the verification messages in order,
     * the code of the first whose detail text holds one; `None` when the
     * listing fails, when an entry makes the scan raise first (no sender,
     * no subject, a detail request that raises, a 200 detail without
     * `text`), or when no text holds a code.
     */
    method GetVerificationCode(listing: ListingReply) returns (code: Option<string>)
      ensures !listing.Listing? ==> code == None
      ensures listing.Listing? ==>
        code == match FirstEndingCodeSearch(listing.messages)
          case None => None
          case Some(k) => CodeOf(listing.messages[k])
      ensures code.Some? ==> |code.value| == 6 && forall k :: 0 <= k < 6 ==> IsDigit(code.value[k])
    {
      if !listing.Listing? {
        return None;
      }
      var messages := listing.messages;
      var i := 0;
      while i < |messages|
        invariant 0 <= i <= |messages|
        invariant forall j :: 0 <= j < i ==> !EndsCodeSearch(messages[j])
      {
        var m := messages[i];
        if m.sender.None? {
          assert FirstEndingCodeSearch(messages) == Some(i);
          return None;
        }
        if m.sender.value == CursorSender {
          if m.subject.None? {
            assert FirstEndingCodeSearch(messages) == Some(i);
            return None;
          }
          if Contains(m.subject.value, VerifySubject) {
            match m.detail
            case DetailRaised =>
              assert FirstEndingCodeSearch(messages) == Some(i);
              return None;
            case DetailReply(status, text) =>
              if status == 200 {
                if text.None? {
                  assert FirstEndingCodeSearch(messages) == Some(i);
                  return None;
                }
                var found := FindCode(text.value);
                if found.Some? {
                  assert FirstEndingCodeSearch(messages) == Some(i);
                  return found;
                }
              }
          }
        }
        i := i + 1;
      }
      return None;
    }
  }

  /**
   * Well-formed messages from other senders or with other subjects never
   * change the code found.
   */
  lemma {:induction false} OtherMessagesIgnored(ms: seq<Message>, m: Message)
    requires !IsVerificationMessage(m) && !TestRaises(m)
    ensures FirstEndingCodeSearch([m] + ms) == match FirstEndingCodeSearch(ms)
      case None => None
      case Some(k) => Some(k + 1)
  {
    assert ([m] + ms)[1..] == ms;
  }
}
