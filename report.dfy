/** `main` of nh_claim.py: one worker per account, results taken in input
    order (`zip(futures, data)` pairs each future with its own account,
    whichever thread finishes first), one report line per account, a failure
    count, and a closing summary line. The text is what is handed to the
    WhatsApp sender. */
module Report {
  import opened Wrappers
  import opened Text
  import opened Names
  import opened Worker
  import Config
  import Json
  import Calendar

  const SUCCESS_BANNER := "(\U{279C} SUCCESSFULLY CLAIMED!)"

  /** The result of a run that got past the name-width computation. */
  datatype Run = Run(lines: seq<string>, fails: nat, text: string)

  function Usernames(accounts: seq<Account>): (r: seq<string>)
    ensures |r| == |accounts| && forall i :: 0 <= i < |r| ==> r[i] == accounts[i].username
  {
    seq(|accounts|, i requires 0 <= i < |accounts| => accounts[i].username)
  }

  /** What each account's future yields: worker `i` runs on account `i` and
      the answers to its own requests. */
  function Outcomes(accounts: seq<Account>, exchanges: seq<Exchange>, periodDays: nat): (r: seq<Outcome>)
    requires |exchanges| == |accounts|
    ensures |r| == |accounts|
    ensures forall i :: 0 <= i < |r| ==> r[i] == UserClaim(accounts[i], exchanges[i], periodDays).outcome
  {
    seq(|accounts|, i requires 0 <= i < |accounts| => UserClaim(accounts[i], exchanges[i], periodDays).outcome)
  }

  function OutcomeText(o: Outcome): string {
    match o
    case Done(m) => m
    case Raised(e) => "ERROR: " + e
  }

  /** One report line: "<name>: <message>" or "<name>: ERROR: <text>". */
  function ReportLine(name: string, o: Outcome): string {
    name + ": " + OutcomeText(o)
  }

  /** The report lines, in the order of the accounts. */
  function ReportLines(usernames: seq<string>, outcomes: seq<Outcome>, width: nat): (r: seq<string>)
    requires |outcomes| == |usernames|
    ensures |r| == |usernames|
  {
    if usernames == [] then []
    else
      var n := |usernames| - 1;
      ReportLines(usernames[..n], outcomes[..n], width) + [ReportLine(DisplayName(usernames[n], width), outcomes[n])]
  }

  /** The number of workers that raised. */
  function FailCount(outcomes: seq<Outcome>): nat {
    if outcomes == [] then 0
    else FailCount(outcomes[..|outcomes| - 1]) + (if outcomes[|outcomes| - 1].Raised? then 1 else 0)
  }

  /** The closing line: the failure count, "attempt" pluralised past one, or
      the success banner when nothing failed. */
  function SummaryLine(fails: nat): string {
    if fails > 0 then "\n" + NatToString(fails) + " failed attempt" + (if fails > 1 then "s" else "") + "."
    else "\n" + SUCCESS_BANNER
  }

  /** Line `k` of the report belongs to account `k`: its shown name and its
      own worker's outcome. */
  lemma {:induction false} ReportLinesAt(usernames: seq<string>, outcomes: seq<Outcome>, width: nat)
    requires |outcomes| == |usernames|
    ensures |ReportLines(usernames, outcomes, width)| == |usernames|
    ensures forall k :: 0 <= k < |usernames| ==>
      ReportLines(usernames, outcomes, width)[k] == DisplayName(usernames[k], width) + ": " + OutcomeText(outcomes[k])
    decreases |usernames|
  {
    if usernames != [] {
      var n := |usernames| - 1;
      ReportLinesAt(usernames[..n], outcomes[..n], width);
      forall k | 0 <= k < n
        ensures usernames[..n][k] == usernames[k] && outcomes[..n][k] == outcomes[k]
      {
      }
    }
  }

  /** `fails` counts the workers that raised: at most one per account, zero
      exactly when every worker returned a message. */
  lemma {:induction false} FailCountSpec(outcomes: seq<Outcome>)
    ensures FailCount(outcomes) <= |outcomes|
    ensures FailCount(outcomes) == 0 <==> forall i :: 0 <= i < |outcomes| ==> outcomes[i].Done?
    ensures FailCount(outcomes) == |outcomes| <==> forall i :: 0 <= i < |outcomes| ==> outcomes[i].Raised?
    decreases |outcomes|
  {
    if outcomes != [] {
      var n := |outcomes| - 1;
      FailCountSpec(outcomes[..n]);
      assert forall i :: 0 <= i < n ==> outcomes[..n][i] == outcomes[i];
    }
  }

  /** Replacing one worker's outcome changes the count only by that worker's
      own contribution: a successful result leaves `fails` unchanged. */
  lemma {:induction false} FailCountUpdate(outcomes: seq<Outcome>, j: int, o: Outcome)
    requires 0 <= j < |outcomes|
    ensures FailCount(outcomes[j := o]) + (if outcomes[j].Raised? then 1 else 0)
         == FailCount(outcomes) + (if o.Raised? then 1 else 0)
    decreases |outcomes|
  {
    var n := |outcomes| - 1;
    if j < n {
      FailCountUpdate(outcomes[..n], j, o);
      assert outcomes[j := o][..n] == outcomes[..n][j := o];
    } else {
      assert outcomes[j := o][..n] == outcomes[..n];
    }
  }

  /** The closing line can be read back: after a failure it carries the count
      and says "attempts" exactly when more than one failed; otherwise it is the
      banner, which carries no number. Either way it is one line of its own. */
  lemma SummarySpec(fails: nat)
    ensures fails == 0 ==> NoDigits(SummaryLine(fails))
    ensures fails > 0 ==> FirstNumber(SummaryLine(fails)) == Some(fails)
    ensures fails > 0 ==> (EndsWith(SummaryLine(fails), "attempts.") <==> fails > 1)
    ensures fails > 0 ==> EndsWith(SummaryLine(fails), " failed attempt" + (if fails > 1 then "s" else "") + ".")
    ensures SummaryLine(fails) == "\n" + SummaryLine(fails)[1..] && '\n' !in SummaryLine(fails)[1..]
  {
    if fails > 0 {
      FailureLineSpec(fails);
    } else {
      BannerSpec();
    }
  }

  lemma BannerSpec()
    ensures NoDigits(SummaryLine(0))
    ensures SummaryLine(0) == "\n" + SUCCESS_BANNER && '\n' !in SUCCESS_BANNER
  {
  }

  lemma FailureLineSpec(fails: nat)
    requires fails > 0
    ensures FirstNumber(SummaryLine(fails)) == Some(fails)
    ensures EndsWith(SummaryLine(fails), "attempts.") <==> fails > 1
    ensures EndsWith(SummaryLine(fails), " failed attempt" + (if fails > 1 then "s" else "") + ".")
    ensures SummaryLine(fails) == "\n" + SummaryLine(fails)[1..] && '\n' !in SummaryLine(fails)[1..]
  {
    FailureReadBack(fails);
    FailurePlural(fails);
    FailureSuffix(fails);
    FailureOneLine(fails);
  }

  lemma FailureReadBack(fails: nat)
    requires fails > 0
    ensures FirstNumber(SummaryLine(fails)) == Some(fails)
  {
    var tail := " failed attempt" + (if fails > 1 then "s" else "") + ".";
    assert SummaryLine(fails) == "\n" + NatToString(fails) + tail;
    ReadBack("\n", fails, tail);
  }

  lemma FailureSuffix(fails: nat)
    requires fails > 0
    ensures EndsWith(SummaryLine(fails), " failed attempt" + (if fails > 1 then "s" else "") + ".")
  {
  }

  lemma FailurePlural(fails: nat)
    requires fails > 0
    ensures EndsWith(SummaryLine(fails), "attempts.") <==> fails > 1
  {
    var tail := " failed attempt" + (if fails > 1 then "s" else "") + ".";
    assert SummaryLine(fails) == "\n" + NatToString(fails) + tail;
    EndsWithAppend("\n" + NatToString(fails), tail, "attempts.");
    if fails > 1 {
      assert tail == " failed attempts.";
      assert tail[|tail| - 9..] == "attempts.";
    } else {
      assert tail == " failed attempt.";
      assert tail[|tail| - 9..] == " attempt.";
    }
  }

  lemma FailureOneLine(fails: nat)
    requires fails > 0
    ensures SummaryLine(fails) == "\n" + SummaryLine(fails)[1..] && '\n' !in SummaryLine(fails)[1..]
  {
    var digits := NatToString(fails);
    var tail := " failed attempt" + (if fails > 1 then "s" else "") + ".";
    var body := digits + tail;
    assert SummaryLine(fails) == "\n" + body;
    assert SummaryLine(fails)[1..] == body;
    assert '\n' !in digits;
    assert '\n' !in tail;
  }

  /** When no line holds a newline, the report text splits into exactly the
      account lines, in input order, followed by the summary. */
  lemma ReportTextLines(lines: seq<string>, fails: nat)
    requires |lines| > 0
    requires forall i :: 0 <= i < |lines| ==> '\n' !in lines[i]
    ensures SplitLines(JoinLines(lines) + SummaryLine(fails)) == lines + [SummaryLine(fails)[1..]]
  {
    SummaryOneLine(fails);
    SplitJoinNewline(lines, SummaryLine(fails));
  }

  lemma SummaryOneLine(fails: nat)
    ensures SummaryLine(fails) == "\n" + SummaryLine(fails)[1..] && '\n' !in SummaryLine(fails)[1..]
  {
    if fails > 0 {
      FailureOneLine(fails);
    } else {
      BannerSpec();
    }
  }

  /** A worker's failure stays its own: changing the answers one account
      receives changes that account's line and nothing else, and moves the
      failure count by at most one. */
  lemma WorkerIsolation(accounts: seq<Account>, exchanges: seq<Exchange>, periodDays: nat, width: nat, j: int, x: Exchange)
    requires |exchanges| == |accounts| && 0 <= j < |accounts|
    ensures var before := Outcomes(accounts, exchanges, periodDays);
      var after := Outcomes(accounts, exchanges[j := x], periodDays);
      var names := Usernames(accounts);
      && (forall k :: 0 <= k < |accounts| && k != j ==>
            ReportLines(names, after, width)[k] == ReportLines(names, before, width)[k])
      && FailCount(after) <= FailCount(before) + 1
      && FailCount(before) <= FailCount(after) + 1
  {
    var before := Outcomes(accounts, exchanges, periodDays);
    var after := Outcomes(accounts, exchanges[j := x], periodDays);
    var names := Usernames(accounts);
    assert after == before[j := after[j]];
    ReportLinesAt(names, before, width);
    ReportLinesAt(names, after, width);
    FailCountUpdate(before, j, after[j]);
  }

  lemma ErrorLineText(name: string, e: string)
    ensures name + ": " + OutcomeText(Raised(e)) == name + ": ERROR: " + e
  {
    assert ": " + ("ERROR: " + e) == ": ERROR: " + e;
  }

  /** An account whose login does not end on the payment page gets the line
      "<name>: ERROR: Invalid login credentials" and counts as a failure. */
  lemma InvalidLoginLine(accounts: seq<Account>, exchanges: seq<Exchange>, periodDays: nat, width: nat, k: int)
    requires |exchanges| == |accounts| && 0 <= k < |accounts|
    requires exchanges[k].loginUrl.Answer? && !Login(exchanges[k].loginUrl.value)
    ensures var outcomes := Outcomes(accounts, exchanges, periodDays);
      && ReportLines(Usernames(accounts), outcomes, width)[k]
           == DisplayName(accounts[k].username, width) + ": ERROR: " + INVALID_LOGIN
      && FailCount(outcomes) >= 1
  {
    var outcomes := Outcomes(accounts, exchanges, periodDays);
    UserClaimOutcome(accounts[k], exchanges[k], periodDays);
    assert outcomes[k] == Raised(INVALID_LOGIN);
    ReportLinesAt(Usernames(accounts), outcomes, width);
    ErrorLineText(DisplayName(accounts[k].username, width), INVALID_LOGIN);
    FailCountSpec(outcomes);
  }

  /** An account whose claim reply carries an error mark gets the line
      "<name>: ERROR: <verdict>" ("Invalid server ID" or "Reward/Period
      mismatch") and counts as a failure. */
  lemma ClaimErrorLine(accounts: seq<Account>, exchanges: seq<Exchange>, periodDays: nat, width: nat, k: int)
    requires |exchanges| == |accounts| && 0 <= k < |accounts|
    requires exchanges[k].loginUrl.Answer? && Login(exchanges[k].loginUrl.value)
    requires exchanges[k].eventPage.Answer? && exchanges[k].eventPage.value.reward.Some?
    requires exchanges[k].claimReply.Answer? && ClassifyReply(exchanges[k].claimReply.value).Err?
    ensures var outcomes := Outcomes(accounts, exchanges, periodDays);
      && ReportLines(Usernames(accounts), outcomes, width)[k]
           == DisplayName(accounts[k].username, width) + ": ERROR: " + ClassifyReply(exchanges[k].claimReply.value).error
      && FailCount(outcomes) >= 1
  {
    var outcomes := Outcomes(accounts, exchanges, periodDays);
    UserClaimOutcome(accounts[k], exchanges[k], periodDays);
    assert outcomes[k] == Raised(ClassifyReply(exchanges[k].claimReply.value).error);
    ReportLinesAt(Usernames(accounts), outcomes, width);
    ErrorLineText(DisplayName(accounts[k].username, width), ClassifyReply(exchanges[k].claimReply.value).error);
    FailCountSpec(outcomes);
  }

  /** With the day count taken from PERIOD_D, the line of every account whose
      worker returned a status closes with the length of PERIOD's month. */
  lemma ReportShowsMonthLength(accounts: seq<Account>, exchanges: seq<Exchange>, year: int, month: int, width: nat, k: int)
    requires |exchanges| == |accounts| && 0 <= k < |accounts|
    requires 1 <= year <= 9999 && 1 <= month <= 12 && Calendar.PeriodDays(year, month).Ok?
    ensures var days := Calendar.PeriodDays(year, month).value;
      var outcomes := Outcomes(accounts, exchanges, days);
      outcomes[k].Done? ==>
        EndsWith(ReportLines(Usernames(accounts), outcomes, width)[k], "/" + NatToString(Calendar.MonthLength(year, month)) + " DAYS")
  {
    var days := Calendar.PeriodDays(year, month).value;
    var outcomes := Outcomes(accounts, exchanges, days);
    if outcomes[k].Done? {
      var suffix := "/" + NatToString(days) + " DAYS";
      var m := outcomes[k].message;
      UserClaimCount(accounts[k], exchanges[k], days);
      ReportLinesAt(Usernames(accounts), outcomes, width);
      EndsWithAppend(DisplayName(accounts[k].username, width) + ": ", m, suffix);
    }
  }

  /** The input check lets an empty account list through, and `main` then
      dies at `max()` before any worker runs or any report is sent. */
  lemma EmptyAccountListPassesCheck()
    ensures Config.LoadData(Some("[]"), Some(Json.Array([]))) == Ok([])
    ensures MaxNameWidth(Usernames([])) == Err(EMPTY_MAX)
  {
  }

  /** One more account processed: one more line, and one more failure
      exactly when its worker raised. */
  lemma ReportStep(usernames: seq<string>, outcomes: seq<Outcome>, width: nat, i: int)
    requires |outcomes| == |usernames| && 0 <= i < |usernames|
    ensures ReportLines(usernames[..i + 1], outcomes[..i + 1], width)
         == ReportLines(usernames[..i], outcomes[..i], width) + [DisplayName(usernames[i], width) + ": " + OutcomeText(outcomes[i])]
    ensures FailCount(outcomes[..i + 1]) == FailCount(outcomes[..i]) + (if outcomes[i].Raised? then 1 else 0)
  {
    assert usernames[..i + 1][..i] == usernames[..i];
    assert outcomes[..i + 1][..i] == outcomes[..i];
  }

  /** The loop of `main`: take every worker's result in account order, add
      its line, and count the workers that raised. */
  method CollectResults(accounts: seq<Account>, exchanges: seq<Exchange>, periodDays: nat, width: nat)
    returns (messages: seq<string>, fails: nat)
    requires |exchanges| == |accounts|
    ensures messages == ReportLines(Usernames(accounts), Outcomes(accounts, exchanges, periodDays), width)
    ensures fails == FailCount(Outcomes(accounts, exchanges, periodDays))
  {
    ghost var names := Usernames(accounts);
    ghost var outcomes := Outcomes(accounts, exchanges, periodDays);
    messages := [];
    fails := 0;
    for i := 0 to |accounts|
      invariant messages == ReportLines(names[..i], outcomes[..i], width)
      invariant fails == FailCount(outcomes[..i])
    {
      var username := DisplayName(accounts[i].username, width);
      var outcome := UserClaim(accounts[i], exchanges[i], periodDays).outcome;
      match outcome {
        case Done(message) =>
          messages := messages + [username + ": " + message];
        case Raised(error) =>
          fails := fails + 1;
          messages := messages + [username + ": " + ("ERROR: " + error)];
      }
      ReportStep(names, outcomes, width, i);
    }
    assert names[..|accounts|] == names && outcomes[..|accounts|] == outcomes;
  }

  /** `main`: PERIOD_D must have been computed (it overflows for December of
      year 1, before `main` runs); then compute the name width (where `main`
      dies before any worker runs on an empty account list or a username
      without '@' on its first line), collect the results with the month's
      length as the day count, and append the summary. */
  method RunClaims(accounts: seq<Account>, exchanges: seq<Exchange>, year: int, month: int) returns (result: Result<Run>)
    requires |exchanges| == |accounts|
    requires 1 <= year <= 9999 && 1 <= month <= 12
    ensures Calendar.PeriodDays(year, month).Err? ==> result == Err(Calendar.DATE_OVERFLOW)
    ensures Calendar.PeriodDays(year, month).Ok? && MaxNameWidth(Usernames(accounts)).Err? ==>
      result == Err(MaxNameWidth(Usernames(accounts)).error)
    ensures Calendar.PeriodDays(year, month).Ok? && MaxNameWidth(Usernames(accounts)).Ok? ==>
      var width := MaxNameWidth(Usernames(accounts)).value;
      var outcomes := Outcomes(accounts, exchanges, Calendar.MonthLength(year, month));
      && result.Ok?
      && result.value.lines == ReportLines(Usernames(accounts), outcomes, width)
      && result.value.fails == FailCount(outcomes)
      && result.value.text == JoinLines(result.value.lines) + SummaryLine(result.value.fails)
      && |result.value.lines| == |accounts|
      && result.value.fails <= |accounts|
  {
    var periodDays: nat;
    match Calendar.PeriodDays(year, month) {
      case Err(e) =>
        return Err(e);
      case Ok(d) =>
        periodDays := d;
    }
    var width: nat;
    match MaxNameWidth(Usernames(accounts)) {
      case Err(e) =>
        return Err(e);
      case Ok(w) =>
        width := w;
    }
    var messages, fails := CollectResults(accounts, exchanges, periodDays, width);
    var summary: string;
    if fails > 0 {
      summary := "\n" + NatToString(fails) + " failed attempt" + (if fails > 1 then "s" else "") + ".";
    } else {
      summary := "\n" + SUCCESS_BANNER;
    }
    FailCountSpec(Outcomes(accounts, exchanges, periodDays));
    result := Ok(Run(messages, fails, JoinLines(messages) + summary));
  }
}
