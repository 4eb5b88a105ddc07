# NinjaHeroes daily claim: a Dafny model of `nh_claim.py`

`nh_claim.py` logs several game accounts into the Kage Hero Studio payment
site. For each account it opens the daily event page and claims the day's
reward if one is shown. It then sends one WhatsApp message with a line per
account and a summary. This project models the decision and aggregation
logic of that script and proves properties about it. The network, the HTML
parser, the thread pool and the clock are inputs to the model.

Modules, one per part of the script:

- `Wrappers` (`wrappers.dfy`): `Option` and `Result`. An `Err` carries the
  text `str(e)` of the Python exception it stands for. The exception texts
  are worded as CPython 3.12 prints them. Later releases reword some of
  them, among them the TypeError of `in` on a value that is not iterable.
- `Text` (`text.dfy`): the Python string operations the script uses.
  `str(n)` and `int(s)` with CPython's 4300-digit cap on both, the first
  `\d+` match, the `in` and `endswith`
  tests, `ljust`, and `"\n".join` with the matching split.
- `Json` (`json.dfy`): decoded JSON values, `dict.get`, and Python's
  `needle in value` for a string needle.
- `Calendar` (`calendar.dfy`): `PERIOD_D`, the month-length constant, and
  `PeriodDays`, its day, which `Report.RunClaims` passes to every worker.
- `Config` (`config.dfy`): the shape check of `load_data_from_env`.
- `Names` (`names.dfy`): the two username regexes, the column width and
  the padded display names of `main`.
- `Worker` (`worker.dfy`): `login`, `claim`, `check_claim` and `user_claim`.
  A worker run records the requests it sends (login POST, event GET, claim
  POST), so what it sends can be stated. The answers to those requests are
  an input (`Exchange`). An answer can also be a `Fault`: the exception the
  request raised.
- `Report` (`report.dfy`): the loop of `main` as the method
  `CollectResults`, and `RunClaims`, which adds the width computation and
  the summary line. The loop has invariants over the processed prefix.

Behaviour the model follows from the code:

- The column width and the shown names come from different regexes.
  - The width uses `^.*(?=@)`, which is greedy and stops at a newline. It
    matches the first line up to its last `@`.
  - The shown name uses `re.sub(r'@.*', '', …)`. It cuts every line at its
    first `@`.
  - `ljust` never truncates, so a shown name can be wider than the column,
    but only when a username has more than one line.
  - A username whose first line has no `@` makes `main` die before any
    worker runs. So does an empty account list, at `max()`.
- `PERIOD_D` in December is December 31 of the previous year, because the
  replace wraps to January of the same year. Only its day is used, and that
  day is 31, so the reported month length is right. December of year 1
  would overflow.
- A claim the service turns down without an error mark (its message is not
  `"success"`) gets the same line as a day already claimed. Both show the
  completed banner and the count from the page.

The script has no persisted once-per-period marker, no retry or backoff on
rate limiting, and no HTTP-status handling, and the model adds none. Worker
results are not typed outcomes: a worker returns a status string or raises,
and only a raise counts as a failure.

## Model

| member | source | states |
|---|---|---|
| Text.DecimalRoundTrip | nh_claim.py:192-196 | `int(str(n)) == n` for every count the status text prints |
| Text.DigitCount | nh_claim.py:196 | `str(n)` has at most `k` digits exactly when `n < 10^k` |
| Text.FormatParse | nh_claim.py:192-196 | `str(n)` succeeds exactly when `n < 10^4300`, and `int` reads back whatever it writes |
| Text.FirstDigitRun | nh_claim.py:193 | `re.search(r'\d+', s)` finds nothing exactly when `s` has no digit; otherwise a non-empty run of digits |
| Text.FirstDigitRunOf | nh_claim.py:193 | the run found in `p + d + q` is `d` when `p` has no digit and `q` does not continue the run |
| Text.ReadBack | nh_claim.py:192-196 | a number written by `str` between digit-free text is read back unchanged by `int(re.search(r'\d+', …).group())` |
| Text.ContainsIff | nh_claim.py:182-185 | the substring test `sub in s` holds exactly when `sub` occurs at some index of `s` |
| Text.SplitJoin | nh_claim.py:125 | splitting `"\n".join(lines)` on newlines gives back `lines` when no line holds a newline |
| Calendar.MonthLength | nh_claim.py:51 | Gregorian month lengths are 28 to 31; only February is shorter than 30, with 29 days exactly in leap years |
| Calendar.PrevNextInverse | nh_claim.py:51 | subtracting one day and adding one day are inverse steps on valid dates, overflow at either end aside |
| Calendar.PeriodEndDay | nh_claim.py:50-51 | `PERIOD_D.day` is the length of PERIOD's month, December included, where the date is December 31 of the previous year; only December of year 1 overflows |
| Calendar.PeriodDays | nh_claim.py:50-51 | the day count the status text shows is the length of PERIOD's month; it is the overflow error exactly for December of year 1 |
| Config.LoadDataSpec | nh_claim.py:24-45 | DATA_JSON is accepted exactly when it is set, non-empty and decodes to a list of dicts, and the list comes back unchanged; an empty or missing value is rejected before decoding |
| Names.BeforeLastAt | nh_claim.py:92 | the greedy `.*(?=@)` on a line matches exactly when the line has an `@`, and the match is the text before its last `@` |
| Names.StripAtSingleLine | nh_claim.py:111 | on a one-line username, `re.sub(r'@.*', '', u)` keeps exactly the text before the first `@` |
| Names.MaxNameWidth | nh_claim.py:90-97 | the width exists exactly when there is an account and every username's first line has an `@`; it is the longest prefix length and some prefix has it; otherwise the `main` error is `max()` on an empty list or `.group()` on None |
| Names.DisplayNameShape | nh_claim.py:111 | a shown name is the stripped username followed only by spaces; its length is the larger of the stripped length and the width |
| Names.NamesAligned | nh_claim.py:90-111 | with one-line usernames every shown name is the part before the first `@`, padded to exactly the column width |
| Worker.LoginSpec | nh_claim.py:201-210 | login succeeds exactly when the final URL ends with `pembayaran.php` |
| Worker.ClassifyReplySpec | nh_claim.py:179-187 | a `[-102]` mark gives "Invalid server ID" even when `invalid` is present too; otherwise `invalid` gives "Reward/Period mismatch"; otherwise the claim succeeded exactly when the message is `success` |
| Worker.ClassifyReplyNotIterable | nh_claim.py:180-182 | a reply whose `data` is missing or null, a number or a boolean makes the worker raise Python's TypeError for `in`, naming `NoneType`, `int` or `bool` |
| Worker.NoRewardNoClaim | nh_claim.py:165-168 | without a `.reward-star` element no claim POST is built and `claim` is False, whatever the service would answer |
| Worker.StatusTextSpec | nh_claim.py:196 | the first number of the status text is the total; the text ends with `/<days> DAYS`; the completed banner opens it exactly when no claim was just made |
| Worker.CheckClaimSpec | nh_claim.py:190-198 | `check_claim` is Ok exactly when there is an `h5`, its text has a digit run of at most 4300 digits, and the total is below 10^4300; no `h5`, no digit and a longer run give their own errors; when Ok, its reported count is the page's count plus one exactly when the claim succeeded |
| Worker.StatusShowsMonthLength | nh_claim.py:196 | with the day count taken from PERIOD_D, every status text ends with `/<length of PERIOD's month> DAYS` |
| Worker.UserClaimRequests | nh_claim.py:143-177 | the login POST is always sent; the event GET is sent exactly once, only after a successful login; the claim POST is sent at most once, last, and only when the fetched page has a reward marker; nothing is fetched after the claim |
| Worker.UserClaimOutcome | nh_claim.py:143-187 | a failed login raises "Invalid login credentials"; a request that fails raises its own exception; a claim reply with an error mark makes the worker raise that verdict; `check_claim`'s error escapes; the worker returns a status exactly when none of these happens |
| Worker.UserClaimCount | nh_claim.py:155-160 | a worker that returns a status reports the count of the one page it fetched before claiming, plus one exactly when the claim succeeded, over the period's day count |
| Worker.RejectedClaimLooksCompleted | nh_claim.py:158-196 | a claim turned down without an error mark gets the same status text as a page with no reward marker |
| Report.ReportLinesAt | nh_claim.py:107-119 | there is one line per account, in input order; line `k` is account `k`'s shown name, `: `, then its message or `ERROR: ` and the exception text |
| Report.FailCountSpec | nh_claim.py:100-119 | `fails` is at most the number of accounts; it is zero exactly when no worker raised, and equals the account count exactly when every worker raised |
| Report.FailCountUpdate | nh_claim.py:113-119 | changing one worker's outcome changes `fails` only by that worker's own contribution; a successful result leaves it unchanged |
| Report.WorkerIsolation | nh_claim.py:107-119 | changing the answers one account receives changes only that account's line, and moves `fails` by at most one |
| Report.SummarySpec | nh_claim.py:125-129 | after failures the summary carries the count and says `attempts` exactly when more than one failed; with none it is the success banner, which has no digits; either way it is one line of its own |
| Report.ReportTextLines | nh_claim.py:125-129 | when no line holds a newline, the report splits into the account lines in input order followed by the summary line |
| Report.InvalidLoginLine | nh_claim.py:150-153 | an account whose login does not end on the payment page gets the line `<name>: ERROR: Invalid login credentials` and counts as a failure |
| Report.ClaimErrorLine | nh_claim.py:182-185 | an account whose claim reply has an error mark gets the line `<name>: ERROR: <verdict>` and counts as a failure |
| Report.ReportShowsMonthLength | nh_claim.py:107-119 | the line of every account whose worker returned a status ends with `/<length of PERIOD's month> DAYS` |
| Report.EmptyAccountListPassesCheck | nh_claim.py:36-39 | the input check accepts `[]`, and then the width computation of `main` fails with `max()` on an empty sequence |
| Report.CollectResults | nh_claim.py:107-119 | the loop's lines are the report lines of the accounts in input order, and its counter is the number of workers that raised |
| Report.RunClaims | nh_claim.py:50-131 | the run fails with the overflow error when PERIOD_D cannot be computed, then with the width error when there is one; otherwise the workers use the month's length as their day count, and the run yields one line per account, `fails` at most the account count, and the joined lines followed by the summary line |

## Left out

- HTTP: the requests session, the login and claim POSTs, the event GET and
  `Response.json()`. Their answers, or the exception each raised, are inputs
  of type `Exchange`.
- BeautifulSoup: the page is modelled as its first `.reward-star` element
  (its `data-id` and `data-period`) plus the texts of its `h5` elements.
- `send_whatsapp_message` and the Twilio call: foreign network calls. The
  model ends at the message text.
- The thread pool, the `print_wait` spinner and its `stop` list. The
  workers share nothing, and `main` takes their results by index. So the
  model runs worker `i` on account `i` and the answers to its own requests,
  with no completion order.
- `datetime.utcnow()` and the +7 hour offset: PERIOD's year and month are
  parameters of `Report.RunClaims`, which derives the day count from them.
  `Worker` and the lower `Report` functions take that day count as a
  parameter. The time of day is not modelled, and neither is the overflow
  of the offset at the end of year 9999.
- `load_dotenv`, reading the environment and `json.loads`: the raw
  DATA_JSON value and its decoded form are parameters of `Config.LoadData`.
- The console output: `os.system('clear')`, the `print` calls and
  `sys.exit(1)` after a loading error.
- Turning each account dict into an `Account`. A username, password or
  server that is missing or not a string is not modelled. Such a username
  would make `re.search` raise TypeError.
- The digit cap is CPython's default of 4300. Changing it through
  `sys.set_int_max_str_digits` or `PYTHONINTMAXSTRDIGITS` is not modelled.
- Text.FirstDigitRun: matches ASCII digits only. Python's `\d` also matches
  other Unicode decimal digits, and `int` accepts them.
- Json.Value: JSON numbers are integers only. A fractional number in a
  reply is not modelled.
- Worker.ClassifyReplySpec: states the verdict for a string `data` field.
  A list or dict `data` is tested by element or key membership in
  `Json.In`, and no lemma is stated for that case.
