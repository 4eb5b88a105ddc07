/** One account's worker in nh_claim.py: `user_claim` and the three steps it
    runs, `login`, `claim` and `check_claim`.

    The network is not modelled: each request's answer is an input (an
    `Exchange`), and the worker's run records which requests it would send, in
    order, so that what it sends can be stated. A Python exception that
    escapes the worker is `Raised(str(e))`. */
module Worker {
  import opened Wrappers
  import opened Text
  import Json
  import Calendar

  datatype Account = Account(username: string, password: string, server: string)

  /** The first `.reward-star` element of the event page: its `data-id` and
      `data-period` attributes (None where the attribute is absent). */
  datatype Reward = Reward(itemId: Option<string>, periodId: Option<string>)

  /** The parsed event page: the first reward marker, if there is one, and the
      texts of its `h5` elements in document order. */
  datatype EventPage = EventPage(reward: Option<Reward>, headings: seq<string>)

  /** What a request gave back: its answer, or the text of the exception the
      request raised (a transport error, or a reply that is not JSON). */
  datatype Io<T> = Answer(value: T) | Fault(error: string)

  /** The answers one worker's requests receive: the final URL of the login
      POST, the event page of the GET, and the decoded JSON of the claim POST. */
  datatype Exchange = Exchange(loginUrl: Io<string>, eventPage: Io<EventPage>, claimReply: Io<Json.Value>)

  datatype Request =
    | LoginPost(username: string, password: string)
    | EventGet
    | ClaimPost(itemId: Option<string>, periodId: Option<string>, server: string)

  /** What `future.result()` gives `main`: a status message, or the exception. */
  datatype Outcome = Done(message: string) | Raised(error: string)

  datatype WorkerRun = WorkerRun(requests: seq<Request>, outcome: Outcome)

  const LOGIN_PAGE := "pembayaran.php"
  const INVALID_LOGIN := "Invalid login credentials"
  const INVALID_SERVER := "Invalid server ID"
  const REWARD_MISMATCH := "Reward/Period mismatch"
  const SERVER_MARK := "[-102]"
  const MISMATCH_MARK := "invalid"
  const NO_HEADING := "list index out of range"
  const NO_NUMBER := "'NoneType' object has no attribute 'group'"
  const COMPLETED := "\U{1F44D} CLAIM COMPLETED "

  /** `login`: the login POST succeeded iff it ended on the payment page. */
  predicate Login(finalUrl: string) {
    EndsWith(finalUrl, LOGIN_PAGE)
  }

  lemma LoginSpec(finalUrl: string)
    ensures Login(finalUrl) <==> exists p :: finalUrl == p + LOGIN_PAGE
  {
    EndsWithIff(finalUrl, LOGIN_PAGE);
  }

  /** The claim POST `claim` sends, or None when the page has no reward marker. */
  function ClaimRequest(page: EventPage, server: string): Option<Request> {
    match page.reward
    case None => None
    case Some(r) => Some(ClaimPost(r.itemId, r.periodId, server))
  }

  /** How `claim` reads the decoded reply of the claim POST. */
  function ClassifyReply(reply: Json.Value): Result<bool> {
    if !reply.Object? then Err("'" + Json.TypeName(reply) + "' object has no attribute 'get'")
    else
      var message := Json.Get(reply.fields, "message");
      var data := Json.Get(reply.fields, "data");
      match Json.In(SERVER_MARK, data)
      case Err(e) => Err(e)
      case Ok(true) => Err(INVALID_SERVER)
      case Ok(false) =>
        match Json.In(MISMATCH_MARK, data)
        case Err(e) => Err(e)
        case Ok(true) => Err(REWARD_MISMATCH)
        case Ok(false) => Ok(message == Json.Str("success"))
  }

  /** `claim`: False without a reward marker; otherwise the verdict on the reply. */
  function Claim(page: EventPage, reply: Io<Json.Value>): Result<bool> {
    if page.reward.None? then Ok(false)
    else match reply
      case Fault(e) => Err(e)
      case Answer(v) => ClassifyReply(v)
  }

  /** The reply's verdict: the server-ID mark is looked for first, then the
      mismatch mark, and only a reply with neither is a claim, which succeeded
      iff its message is "success". */
  lemma ClassifyReplySpec(fields: map<string, Json.Value>, data: string)
    requires Json.Get(fields, "data") == Json.Str(data)
    ensures Contains(data, SERVER_MARK) ==> ClassifyReply(Json.Object(fields)) == Err(INVALID_SERVER)
    ensures !Contains(data, SERVER_MARK) && Contains(data, MISMATCH_MARK) ==>
      ClassifyReply(Json.Object(fields)) == Err(REWARD_MISMATCH)
    ensures ClassifyReply(Json.Object(fields)).Ok? <==> !Contains(data, SERVER_MARK) && !Contains(data, MISMATCH_MARK)
    ensures ClassifyReply(Json.Object(fields)) == Ok(true) <==>
      !Contains(data, SERVER_MARK) && !Contains(data, MISMATCH_MARK) && Json.Get(fields, "message") == Json.Str("success")
  {
  }

  /** A reply whose `data` is missing, null, a number or a boolean cannot be
      searched: the worker raises Python's TypeError naming the type. */
  lemma ClassifyReplyNotIterable(fields: map<string, Json.Value>)
    ensures "data" !in fields ==> ClassifyReply(Json.Object(fields)) == Err("argument of type 'NoneType' is not iterable")
    ensures Json.Get(fields, "data").Null? ==> ClassifyReply(Json.Object(fields)) == Err("argument of type 'NoneType' is not iterable")
    ensures Json.Get(fields, "data").Number? ==> ClassifyReply(Json.Object(fields)) == Err("argument of type 'int' is not iterable")
    ensures Json.Get(fields, "data").Bool? ==> ClassifyReply(Json.Object(fields)) == Err("argument of type 'bool' is not iterable")
  {
    var data := Json.Get(fields, "data");
    match data {
      case Null => Json.InNone(SERVER_MARK);
      case Number(n) => Json.InNumber(SERVER_MARK, n);
      case Bool(b) => Json.InBool(SERVER_MARK, b);
      case _ =>
    }
  }

  /** Without a reward marker `claim` sends nothing and returns False, whatever
      the claim POST would have answered. */
  lemma NoRewardNoClaim(page: EventPage, server: string, reply: Io<Json.Value>)
    requires page.reward.None?
    ensures ClaimRequest(page, server) == None
    ensures Claim(page, reply) == Ok(false)
  {
  }

  /** The status text: "CLAIMED: <total>/<days> DAYS", after the completed
      banner when the claim did not just succeed. */
  function StatusText(total: nat, periodDays: nat, claimed: bool): string {
    (if !claimed then COMPLETED else "") + "CLAIMED: " + NatToString(total) + "/" + NatToString(periodDays) + " DAYS"
  }

  /** `check_claim` on the page fetched before claiming: the first number of the
      first `h5`, plus one when the claim succeeded (Python counts True as 1).
      Reading the number and writing the total are both subject to the digit cap. */
  function CheckClaim(page: EventPage, claimed: bool, periodDays: nat): Result<string> {
    if page.headings == [] then Err(NO_HEADING)
    else match FirstDigitRun(page.headings[0])
      case None => Err(NO_NUMBER)
      case Some(d) =>
        match ParseInt(d)
        case Err(e) => Err(e)
        case Ok(n) =>
          var total := n + (if claimed then 1 else 0);
          match FormatInt(total)
          case Err(e) => Err(e)
          case Ok(_) => Ok(StatusText(total, periodDays, claimed))
  }

  /** The status text's figures can be read back from it: its first number is
      the total, it closes with the period length, and the completed banner
      opens it exactly when no claim was made just now. */
  lemma StatusTextSpec(total: nat, periodDays: nat, claimed: bool)
    ensures FirstNumber(StatusText(total, periodDays, claimed)) == Some(total)
    ensures COMPLETED <= StatusText(total, periodDays, claimed) <==> !claimed
    ensures EndsWith(StatusText(total, periodDays, claimed), "/" + NatToString(periodDays) + " DAYS")
  {
    var head := (if !claimed then COMPLETED else "") + "CLAIMED: ";
    var tail := "/" + NatToString(periodDays) + " DAYS";
    var m := StatusText(total, periodDays, claimed);
    assert m == head + NatToString(total) + tail;
    HeadHasNoDigits(claimed);
    ReadBack(head, total, tail);
    assert m[|m| - |tail|..] == tail;
    if claimed {
      assert m[0] == 'C';
    }
  }

  lemma HeadHasNoDigits(claimed: bool)
    ensures NoDigits((if !claimed then COMPLETED else "") + "CLAIMED: ")
  {
  }

  /** `check_claim` fails when the page has no `h5`, when the first `h5` holds
      no digit, when its digit run is longer than the digit cap, or when the
      total needs more digits than the cap (it reaches 10^4300); otherwise the
      first number of its text is the page's count plus one exactly when the
      claim succeeded. */
  lemma CheckClaimSpec(page: EventPage, claimed: bool, periodDays: nat)
    ensures page.headings == [] ==> CheckClaim(page, claimed, periodDays) == Err(NO_HEADING)
    ensures page.headings != [] && NoDigits(page.headings[0]) ==> CheckClaim(page, claimed, periodDays) == Err(NO_NUMBER)
    ensures page.headings != [] && FirstDigitRun(page.headings[0]).Some? && |FirstDigitRun(page.headings[0]).value| > MAX_STR_DIGITS ==>
      CheckClaim(page, claimed, periodDays) == Err(ParseLimit(|FirstDigitRun(page.headings[0]).value|))
    ensures CheckClaim(page, claimed, periodDays).Ok? <==>
      && page.headings != []
      && FirstDigitRun(page.headings[0]).Some?
      && |FirstDigitRun(page.headings[0]).value| <= MAX_STR_DIGITS
      && FirstNumber(page.headings[0]).value + (if claimed then 1 else 0) < Pow10(MAX_STR_DIGITS)
    ensures CheckClaim(page, claimed, periodDays).Ok? ==>
      var m := CheckClaim(page, claimed, periodDays).value;
      && FirstNumber(m) == Some(FirstNumber(page.headings[0]).value + (if claimed then 1 else 0))
      && (COMPLETED <= m <==> !claimed)
      && EndsWith(m, "/" + NatToString(periodDays) + " DAYS")
  {
    if page.headings != [] && FirstDigitRun(page.headings[0]).Some? {
      var d := FirstDigitRun(page.headings[0]).value;
      if |d| <= MAX_STR_DIGITS {
        var total := DecimalValue(d) + (if claimed then 1 else 0);
        assert ParseInt(d) == Ok(DecimalValue(d));
        assert FirstNumber(page.headings[0]) == Some(DecimalValue(d));
        FormatParse(total);
        if FormatInt(total).Ok? {
          assert CheckClaim(page, claimed, periodDays) == Ok(StatusText(total, periodDays, claimed));
        } else {
          assert CheckClaim(page, claimed, periodDays) == Err(FORMAT_LIMIT);
        }
      } else {
        assert CheckClaim(page, claimed, periodDays) == Err(ParseLimit(|d|));
      }
    }
    if CheckClaim(page, claimed, periodDays).Ok? {
      CheckClaimOk(page, claimed, periodDays);
      StatusTextSpec(FirstNumber(page.headings[0]).value + (if claimed then 1 else 0), periodDays, claimed);
    }
  }

  /** A successful `check_claim` is the status text of the page's count plus
      the claim bit. */
  lemma CheckClaimOk(page: EventPage, claimed: bool, periodDays: nat)
    requires CheckClaim(page, claimed, periodDays).Ok?
    ensures page.headings != [] && FirstNumber(page.headings[0]).Some?
    ensures CheckClaim(page, claimed, periodDays).value
         == StatusText(FirstNumber(page.headings[0]).value + (if claimed then 1 else 0), periodDays, claimed)
  {
    var d := FirstDigitRun(page.headings[0]).value;
    assert FirstNumber(page.headings[0]) == Some(DecimalValue(d));
  }

  /** With the day count taken from PERIOD_D, every status text closes with
      the length of PERIOD's month. */
  lemma StatusShowsMonthLength(page: EventPage, claimed: bool, year: int, month: int)
    requires 1 <= year <= 9999 && 1 <= month <= 12 && Calendar.PeriodDays(year, month).Ok?
    ensures var m := CheckClaim(page, claimed, Calendar.PeriodDays(year, month).value);
      m.Ok? ==> EndsWith(m.value, "/" + NatToString(Calendar.MonthLength(year, month)) + " DAYS")
  {
    CheckClaimSpec(page, claimed, Calendar.PeriodDays(year, month).value);
  }

  /** `user_claim`: log in, fetch the event page once, claim, and report from
      the page fetched before the claim. */
  function UserClaim(account: Account, x: Exchange, periodDays: nat): WorkerRun {
    var login := [LoginPost(account.username, account.password)];
    match x.loginUrl
    case Fault(e) => WorkerRun(login, Raised(e))
    case Answer(url) =>
      if !Login(url) then WorkerRun(login, Raised(INVALID_LOGIN))
      else
        var fetched := login + [EventGet];
        match x.eventPage
        case Fault(e) => WorkerRun(fetched, Raised(e))
        case Answer(page) =>
          var sent := fetched + (match ClaimRequest(page, account.server) case None => [] case Some(r) => [r]);
          match Claim(page, x.claimReply)
          case Err(e) => WorkerRun(sent, Raised(e))
          case Ok(claimed) =>
            match CheckClaim(page, claimed, periodDays)
            case Err(e) => WorkerRun(sent, Raised(e))
            case Ok(m) => WorkerRun(sent, Done(m))
  }

  /** The requests a worker sends: the login POST always; the event page GET
      exactly once, only after a successful login; and the claim POST at most
      once, last, only when the fetched page shows a reward marker. Nothing is
      fetched after the claim. */
  lemma UserClaimRequests(account: Account, x: Exchange, periodDays: nat)
    ensures var rs := UserClaim(account, x, periodDays).requests;
      var loggedIn := x.loginUrl.Answer? && Login(x.loginUrl.value);
      var login := [LoginPost(account.username, account.password)];
      && (!loggedIn ==> rs == login)
      && (loggedIn && x.eventPage.Fault? ==> rs == login + [EventGet])
      && (loggedIn && x.eventPage.Answer? ==>
            var page := x.eventPage.value;
            rs == login + [EventGet] +
              (if page.reward.Some? then [ClaimPost(page.reward.value.itemId, page.reward.value.periodId, account.server)] else []))
  {
  }

  /** What the worker raises: a failed login request's exception, or
      "Invalid login credentials" when the login did not end on the payment
      page; then the event page request's exception; then the claim POST's
      exception or `claim`'s verdict error ("Invalid server ID", "Reward/Period
      mismatch", or a TypeError); then `check_claim`'s error. It returns a
      status exactly when none of these happened. */
  lemma UserClaimOutcome(account: Account, x: Exchange, periodDays: nat)
    ensures var o := UserClaim(account, x, periodDays).outcome;
      && (x.loginUrl.Fault? ==> o == Raised(x.loginUrl.error))
      && (x.loginUrl.Answer? && !Login(x.loginUrl.value) ==> o == Raised(INVALID_LOGIN))
      && (x.loginUrl.Answer? && Login(x.loginUrl.value) && x.eventPage.Fault? ==> o == Raised(x.eventPage.error))
      && (x.loginUrl.Answer? && Login(x.loginUrl.value) && x.eventPage.Answer? ==>
            var page := x.eventPage.value;
            && (page.reward.Some? && x.claimReply.Fault? ==> o == Raised(x.claimReply.error))
            && (page.reward.Some? && x.claimReply.Answer? && ClassifyReply(x.claimReply.value).Err? ==>
                  o == Raised(ClassifyReply(x.claimReply.value).error))
            && (Claim(page, x.claimReply).Ok? && CheckClaim(page, Claim(page, x.claimReply).value, periodDays).Err? ==>
                  o == Raised(CheckClaim(page, Claim(page, x.claimReply).value, periodDays).error)))
      && (o.Done? <==>
            && x.loginUrl.Answer? && Login(x.loginUrl.value) && x.eventPage.Answer?
            && Claim(x.eventPage.value, x.claimReply).Ok?
            && CheckClaim(x.eventPage.value, Claim(x.eventPage.value, x.claimReply).value, periodDays).Ok?)
  {
  }

  /** A worker that reports a status reports the count of the one page it
      fetched, the page read before any claim was sent, plus one exactly when
      the claim just succeeded, over the period's day count. */
  lemma UserClaimCount(account: Account, x: Exchange, periodDays: nat)
    requires UserClaim(account, x, periodDays).outcome.Done?
    ensures x.loginUrl.Answer? && Login(x.loginUrl.value)
    ensures x.eventPage.Answer? && x.eventPage.value.headings != []
    ensures var page := x.eventPage.value;
      var m := UserClaim(account, x, periodDays).outcome.message;
      && Claim(page, x.claimReply).Ok?
      && FirstNumber(page.headings[0]).Some?
      && FirstNumber(m) == Some(FirstNumber(page.headings[0]).value + (if Claim(page, x.claimReply).value then 1 else 0))
      && (COMPLETED <= m <==> !Claim(page, x.claimReply).value)
      && EndsWith(m, "/" + NatToString(periodDays) + " DAYS")
  {
    var page := x.eventPage.value;
    CheckClaimSpec(page, Claim(page, x.claimReply).value, periodDays);
  }

  /** A claim the service turned down without an error mark (a message other
      than "success") is reported exactly like a day already claimed: the same
      completed banner and the same count. */
  lemma RejectedClaimLooksCompleted(account: Account, x: Exchange, periodDays: nat, data: string)
    requires x.loginUrl.Answer? && Login(x.loginUrl.value)
    requires x.eventPage.Answer? && x.eventPage.value.reward.Some?
    requires x.claimReply.Answer? && x.claimReply.value.Object?
    requires Json.Get(x.claimReply.value.fields, "data") == Json.Str(data)
    requires !Contains(data, SERVER_MARK) && !Contains(data, MISMATCH_MARK)
    requires Json.Get(x.claimReply.value.fields, "message") != Json.Str("success")
    ensures var unrewarded := Exchange(x.loginUrl, Answer(x.eventPage.value.(reward := None)), x.claimReply);
      UserClaim(account, x, periodDays).outcome == UserClaim(account, unrewarded, periodDays).outcome
  {
  }
}
