/** The account display names of `main` in nh_claim.py.

    The column width comes from `re.search(r'^.*(?=@)', username).group()`:
    `^` anchors at the start, `.` stops at a newline and `.*` is greedy, so the
    match is the first line up to its LAST '@' (and there is no match when the
    first line has no '@'). The width is the longest such match.

    The name shown on a report line comes from `re.sub(r'@.*', '', username)`,
    which on every line deletes everything from the FIRST '@' to the end of that
    line, and is then `ljust`-ed to the width. */
module Names {
  import opened Wrappers
  import opened Text

  const NO_MATCH := "'NoneType' object has no attribute 'group'"
  const EMPTY_MAX := "max() iterable argument is empty"

  /** The text of `s` before its first newline. */
  function FirstLine(s: string): (r: string)
    ensures r <= s && '\n' !in r
    ensures |r| == |s| || s[|r|] == '\n'
  {
    if s == [] || s[0] == '\n' then [] else [s[0]] + FirstLine(s[1..])
  }

  /** The greedy `.*(?=@)` on a line: everything before the line's last '@'. */
  function BeforeLastAt(line: string): (r: Option<string>)
    ensures r.None? <==> '@' !in line
    ensures r.Some? ==> r.value + "@" <= line && '@' !in line[|r.value| + 1..]
  {
    if line == [] then None
    else if line[|line| - 1] == '@' then Some(line[..|line| - 1])
    else
      var r := BeforeLastAt(line[..|line| - 1]);
      assert r.Some? ==> line[|r.value| + 1..] == line[..|line| - 1][|r.value| + 1..] + [line[|line| - 1]];
      r
  }

  /** `re.search(r'^.*(?=@)', username)`, None where the search finds no match. */
  function NamePrefix(username: string): Option<string> {
    BeforeLastAt(FirstLine(username))
  }

  /** The rest of a line: `t` from its first newline on. */
  function RestOfLine(t: string): (r: string)
    ensures |r| <= |t|
    ensures r == [] || r[0] == '\n'
    ensures '\n' !in t ==> r == []
  {
    if t == [] || t[0] == '\n' then t else RestOfLine(t[1..])
  }

  /** `re.sub(r'@.*', '', username)`. */
  function StripAt(username: string): string
    decreases |username|
  {
    if username == [] then []
    else if username[0] == '@' then StripAt(RestOfLine(username[1..]))
    else [username[0]] + StripAt(username[1..])
  }

  /** On a single line, StripAt keeps exactly the text before the first '@'. */
  lemma {:induction false} StripAtSingleLine(username: string)
    requires '\n' !in username
    ensures StripAt(username) <= username
    ensures '@' !in StripAt(username)
    ensures |StripAt(username)| == |username| || username[|StripAt(username)|] == '@'
    decreases |username|
  {
    if username != [] && username[0] != '@' {
      assert '\n' !in username[1..] by {
        forall i | 0 <= i < |username[1..]| ensures username[1..][i] != '\n' {
          assert username[1..][i] == username[i + 1];
        }
      }
      StripAtSingleLine(username[1..]);
    }
  }

  /** The width of the name column, `len(max(map(<prefix>, data), key=len))`,
      or the error `main` dies with before any account is processed. */
  function MaxNameWidth(usernames: seq<string>): (r: Result<nat>)
    ensures r.Ok? <==> |usernames| > 0 && forall i :: 0 <= i < |usernames| ==> NamePrefix(usernames[i]).Some?
    ensures r.Err? ==> r.error == (if |usernames| == 0 then EMPTY_MAX else NO_MATCH)
    ensures r.Ok? ==> forall i :: 0 <= i < |usernames| ==> |NamePrefix(usernames[i]).value| <= r.value
    ensures r.Ok? ==> exists i :: 0 <= i < |usernames| && |NamePrefix(usernames[i]).value| == r.value
  {
    if usernames == [] then Err(EMPTY_MAX)
    else match NamePrefix(usernames[0])
      case None => Err(NO_MATCH)
      case Some(p) =>
        if |usernames| == 1 then Ok(|p|)
        else match MaxNameWidth(usernames[1..])
          case Err(e) => Err(e)
          case Ok(w) =>
            assert forall i :: 1 <= i < |usernames| ==> usernames[i] == usernames[1..][i - 1];
            if |p| < w then
              var j :| 0 <= j < |usernames[1..]| && |NamePrefix(usernames[1..][j]).value| == w;
              assert usernames[j + 1] == usernames[1..][j];
              Ok(w)
            else Ok(|p|)
  }

  /** `re.sub(r'@.*', '', username).ljust(width)`: the name shown on a line. */
  function DisplayName(username: string, width: nat): string {
    LJust(StripAt(username), width)
  }

  /** A shown name is the stripped username followed only by spaces, and
      `ljust` never truncates: its length is the larger of the two. */
  lemma DisplayNameShape(username: string, width: nat)
    ensures StripAt(username) <= DisplayName(username, width)
    ensures |DisplayName(username, width)| == if |StripAt(username)| < width then width else |StripAt(username)|
    ensures forall i :: |StripAt(username)| <= i < |DisplayName(username, width)| ==> DisplayName(username, width)[i] == ' '
  {
  }

  lemma FirstLineOfSingleLine(s: string)
    requires '\n' !in s
    ensures FirstLine(s) == s
  {
  }

  /** On a single line, the text before the first '@' is no longer than the
      text before the last one. */
  lemma FirstAtNotAfterLastAt(u: string)
    requires '\n' !in u && NamePrefix(u).Some?
    ensures |StripAt(u)| <= |NamePrefix(u).value|
    ensures '@' !in StripAt(u) && StripAt(u) + "@" <= u
  {
    FirstLineOfSingleLine(u);
    StripAtSingleLine(u);
    AtBeforeAt(u, StripAt(u), NamePrefix(u).value);
  }

  lemma AtBeforeAt(u: string, s: string, p: string)
    requires s <= u && '@' !in s && (|s| == |u| || u[|s|] == '@')
    requires p + "@" <= u
    ensures |s| <= |p| && s + "@" <= u
  {
    assert u[|p|] == '@';
    assert forall i :: 0 <= i < |s| ==> u[i] != '@' by {
      forall i | 0 <= i < |s| ensures u[i] != '@' {
        assert s[i] == u[i];
      }
    }
    assert s + "@" == u[..|s| + 1];
  }

  /** With single-line usernames the first '@' never lies after the last one,
      so every shown name is the part before the first '@' padded to exactly
      the column width. */
  lemma NamesAligned(usernames: seq<string>, width: nat, k: int)
    requires MaxNameWidth(usernames) == Ok(width)
    requires forall i :: 0 <= i < |usernames| ==> '\n' !in usernames[i]
    requires 0 <= k < |usernames|
    ensures |DisplayName(usernames[k], width)| == width
    ensures '@' !in StripAt(usernames[k]) && StripAt(usernames[k]) + "@" <= usernames[k]
  {
    FirstAtNotAfterLastAt(usernames[k]);
  }
}
