/** The qBittorrent session: the process-wide login cookie, the login that sets
    it, and the add-torrent calls that use it and retry after a 403. */
module Qbit {
  import opened Options

  /** The part of a `Set-Cookie` value before its first ';' (the whole value when
      there is none), as `split(';')[0]` gives it. */
  function UpToSemicolon(s: string): (r: string)
    ensures r <= s
    ensures ';' !in r
    ensures |r| < |s| ==> s[|r|] == ';'
  {
    if s == [] || s[0] == ';' then [] else [s[0]] + UpToSemicolon(s[1..])
  }

  /** The cookie a login response carries: the first `set-cookie` entry cut at its
      first ';', or nothing when the header is absent or empty. */
  function SessionCookie(setCookie: Option<seq<string>>): (c: Option<string>)
    ensures c.Some? <==> setCookie.Some? && |setCookie.value| > 0
    ensures c.Some? ==> c.value <= setCookie.value[0] && ';' !in c.value
    ensures c.Some? ==> c.value == UpToSemicolon(setCookie.value[0])
  {
    if setCookie.Some? && |setCookie.value| > 0 then Some(UpToSemicolon(setCookie.value[0])) else None
  }

  /** How a login request ends: rejected (any non-200 status or a network error),
      or accepted with the response's `set-cookie` header. */
  datatype LoginOutcome = LoginFailed | LoginOk(setCookie: Option<seq<string>>)

  /** The stored cookie after a login. A failed login, and an accepted login that
      sets no cookie, both leave the stored value as it was. */
  function AfterLogin(cookie: Option<string>, o: LoginOutcome): (c: Option<string>)
    ensures o.LoginFailed? ==> c == cookie
    ensures o.LoginOk? && SessionCookie(o.setCookie).Some? ==> c == SessionCookie(o.setCookie)
    ensures o.LoginOk? && SessionCookie(o.setCookie).None? ==> c == cookie
  {
    if o.LoginOk? && SessionCookie(o.setCookie).Some? then SessionCookie(o.setCookie) else cookie
  }

  /** `if (qbitCookie)`: a stored cookie counts only when it is a non-empty string. */
  predicate HasCookie(cookie: Option<string>) {
    Truthy(cookie)
  }

  /** The answer to one add-torrent request. */
  datatype AddStatus = AddAccepted | AddForbidden | AddFailed

  /** What qBittorrent answers during one pass of `addTorrentToQBittorrent`: the
      login made first when no cookie is held, the add, and the login made after
      a 403. Parts a pass does not reach are ignored. */
  datatype Attempt = Attempt(login: LoginOutcome, status: AddStatus, relogin: LoginOutcome)

  /** A request sent to qBittorrent; an add carries the `Cookie` header it was sent with. */
  datatype Request = LoginRequest | AddRequest(url: string, cookieHeader: Option<string>)

  /** `Added` and `NotAdded` are the two values the source returns; `StillRetrying`
      means every supplied pass ended in a 403 and the source would go on. */
  datatype AddOutcome = Added | NotAdded | StillRetrying

  datatype AddRun = AddRun(outcome: AddOutcome, cookie: Option<string>, requests: seq<Request>)

  /** The `Cookie` header of an add request. */
  function CookieHeader(cookie: Option<string>): Option<string> {
    if HasCookie(cookie) then cookie else None
  }

  /** `addTorrentToQBittorrent(url)` starting from the stored `cookie`, with the
      passes of the recursion answered by `attempts` in order. */
  function RunAdd(cookie: Option<string>, url: string, attempts: seq<Attempt>): (run: AddRun)
    ensures run.requests == [] <==> attempts == []
    decreases |attempts|
  {
    if attempts == [] then AddRun(StillRetrying, cookie, [])
    else
      var a := attempts[0];
      var held := if HasCookie(cookie) then cookie else AfterLogin(cookie, a.login);
      var sent := (if HasCookie(cookie) then [] else [LoginRequest]) + [AddRequest(url, CookieHeader(held))];
      match a.status
      case AddAccepted => AddRun(Added, held, sent)
      case AddFailed => AddRun(NotAdded, held, sent)
      case AddForbidden =>
        var rest := RunAdd(AfterLogin(None, a.relogin), url, attempts[1..]);
        AddRun(rest.outcome, rest.cookie, sent + [LoginRequest] + rest.requests)
  }

  /** The number of leading passes answered with a 403. */
  function Forbidden(attempts: seq<Attempt>): (n: nat)
    ensures n <= |attempts|
    ensures forall j :: 0 <= j < n ==> attempts[j].status == AddForbidden
    ensures n < |attempts| ==> attempts[n].status != AddForbidden
  {
    if attempts == [] || attempts[0].status != AddForbidden then 0 else 1 + Forbidden(attempts[1..])
  }

  /** The `Cookie` headers of the add requests of a trace, in order. */
  function AddHeaders(requests: seq<Request>): seq<Option<string>> {
    if requests == [] then []
    else (if requests[0].AddRequest? then [requests[0].cookieHeader] else []) + AddHeaders(requests[1..])
  }

  lemma {:induction false} AddHeadersAppend(a: seq<Request>, b: seq<Request>)
    ensures AddHeaders(a + b) == AddHeaders(a) + AddHeaders(b)
  {
    if a == [] {
      assert a + b == b;
    } else {
      assert (a + b)[0] == a[0] && (a + b)[1..] == a[1..] + b;
      AddHeadersAppend(a[1..], b);
    }
  }

  /** The cookie stored when pass `j` of an add begins: the one the add started
      from in the first pass, and after a 403 whatever the login that followed
      the cleared cookie left. */
  function PassStart(cookie: Option<string>, attempts: seq<Attempt>, j: nat): Option<string>
    requires j <= |attempts|
  {
    if j == 0 then cookie else AfterLogin(None, attempts[j - 1].relogin)
  }

  /** The cookie held when pass `j` sends its add: the stored one when there is
      one, and otherwise whatever the login made first leaves. */
  function PassCookie(cookie: Option<string>, attempts: seq<Attempt>, j: nat): Option<string>
    requires j < |attempts|
  {
    var start := PassStart(cookie, attempts, j);
    if HasCookie(start) then start else AfterLogin(start, attempts[j].login)
  }

  /** A run whose requests follow the ones already sent. */
  function After(sent: seq<Request>, run: AddRun): AddRun {
    AddRun(run.outcome, run.cookie, sent + run.requests)
  }

  /** One pass of an add: the cookie it holds, the requests it sends, and how
      its answer ends the run or starts it over. */
  lemma RunAddPass(cookie: Option<string>, url: string, attempts: seq<Attempt>)
    requires attempts != []
    ensures var a := attempts[0]; var held := PassCookie(cookie, attempts, 0);
      var sent := (if HasCookie(cookie) then [] else [LoginRequest]) + [AddRequest(url, CookieHeader(held))];
      var run := RunAdd(cookie, url, attempts);
      && held == (if HasCookie(cookie) then cookie else AfterLogin(cookie, a.login))
      && (a.status == AddAccepted ==> run == AddRun(Added, held, sent))
      && (a.status == AddFailed ==> run == AddRun(NotAdded, held, sent))
      && (a.status == AddForbidden ==>
            var rest := RunAdd(AfterLogin(None, a.relogin), url, attempts[1..]);
            run == AddRun(rest.outcome, rest.cookie, sent + [LoginRequest] + rest.requests))
  {
  }

  /** `sent` and `next` are the requests and the stored cookie of one pass
      answered by `a`, starting from the stored cookie `start`. */
  ghost predicate PassDone(start: Option<string>, url: string, a: Attempt, sent: seq<Request>, next: Option<string>) {
    var held := if HasCookie(start) then start else AfterLogin(start, a.login);
    var tried := (if HasCookie(start) then [] else [LoginRequest]) + [AddRequest(url, CookieHeader(held))];
    && (a.status != AddForbidden ==> sent == tried && next == held)
    && (a.status == AddForbidden ==> sent == tried + [LoginRequest] && next == AfterLogin(None, a.relogin))
  }

  /** A run after some requests already sent, taken one pass further. */
  lemma RunAddPassThen(before: seq<Request>, start: Option<string>, url: string, attempts: seq<Attempt>, sent: seq<Request>, next: Option<string>)
    requires attempts != [] && PassDone(start, url, attempts[0], sent, next)
    ensures attempts[0].status == AddAccepted ==> After(before, RunAdd(start, url, attempts)) == AddRun(Added, next, before + sent)
    ensures attempts[0].status == AddFailed ==> After(before, RunAdd(start, url, attempts)) == AddRun(NotAdded, next, before + sent)
    ensures attempts[0].status == AddForbidden ==>
              After(before, RunAdd(start, url, attempts)) == After(before + sent, RunAdd(next, url, attempts[1..]))
  {
    RunAddPass(start, url, attempts);
    if attempts[0].status == AddForbidden {
      var rest := RunAdd(next, url, attempts[1..]);
      assert before + (sent + rest.requests) == before + sent + rest.requests;
    }
  }

  /** How an add ends: after the leading 403s, the first other answer decides,
      and one add request is sent per pass reached. A qBittorrent that answers
      403 every time is retried as often as it does so. */
  lemma {:induction false} RunAddOutcome(cookie: Option<string>, url: string, attempts: seq<Attempt>)
    ensures var run := RunAdd(cookie, url, attempts); var n := Forbidden(attempts);
      && (run.outcome == Added <==> n < |attempts| && attempts[n].status == AddAccepted)
      && (run.outcome == NotAdded <==> n < |attempts| && attempts[n].status == AddFailed)
      && (run.outcome == StillRetrying <==> n == |attempts|)
      && |AddHeaders(run.requests)| == if n < |attempts| then n + 1 else n
    decreases |attempts|
  {
    if attempts != [] {
      var a := attempts[0];
      var held := if HasCookie(cookie) then cookie else AfterLogin(cookie, a.login);
      var sent := (if HasCookie(cookie) then [] else [LoginRequest]) + [AddRequest(url, CookieHeader(held))];
      assert AddHeaders([LoginRequest]) == [];
      assert AddHeaders([AddRequest(url, CookieHeader(held))]) == [CookieHeader(held)];
      AddHeadersAppend(if HasCookie(cookie) then [] else [LoginRequest], [AddRequest(url, CookieHeader(held))]);
      if a.status == AddForbidden {
        var rest := RunAdd(AfterLogin(None, a.relogin), url, attempts[1..]);
        RunAddOutcome(AfterLogin(None, a.relogin), url, attempts[1..]);
        AddHeadersAppend(sent, [LoginRequest]);
        AddHeadersAppend(sent + [LoginRequest], rest.requests);
      }
    }
  }

  /** Which cookie each add sends and which one a run leaves stored: every add
      carries the cookie held in its own pass, when there is one; a 403 clears
      the cookie, so no later pass sends or keeps the one held before it; the
      accept or other failure that ends the run leaves the held cookie as it is.
      The number of headers repeats `RunAddOutcome`, for the headers' range. */
  lemma RunAddCookie(cookie: Option<string>, url: string, attempts: seq<Attempt>)
    ensures var run := RunAdd(cookie, url, attempts); var n := Forbidden(attempts);
      var headers := AddHeaders(run.requests);
      && (n < |attempts| ==> run.cookie == PassCookie(cookie, attempts, n))
      && (n == |attempts| ==> run.cookie == PassStart(cookie, attempts, n))
      && |headers| == (if n < |attempts| then n + 1 else n)
      && forall j :: 0 <= j < |headers| ==> headers[j] == CookieHeader(PassCookie(cookie, attempts, j))
  {
    RunAddOutcome(cookie, url, attempts);
    RunAddCookieLeft(cookie, url, attempts);
    RunAddCookieSent(cookie, url, attempts);
  }

  /** The cookie a run leaves stored. */
  lemma {:induction false} RunAddCookieLeft(cookie: Option<string>, url: string, attempts: seq<Attempt>)
    ensures var run := RunAdd(cookie, url, attempts); var n := Forbidden(attempts);
      && (n < |attempts| ==> run.cookie == PassCookie(cookie, attempts, n))
      && (n == |attempts| ==> run.cookie == PassStart(cookie, attempts, n))
    decreases |attempts|
  {
    if attempts != [] {
      RunAddPass(cookie, url, attempts);
      if attempts[0].status == AddForbidden {
        var tail := attempts[1..];
        RunAddCookieLeft(AfterLogin(None, attempts[0].relogin), url, tail);
        PassShift(cookie, attempts);
        assert Forbidden(attempts) == 1 + Forbidden(tail);
      }
    }
  }

  /** The cookie headers a run sends, one per pass reached. */
  lemma {:induction false} RunAddCookieSent(cookie: Option<string>, url: string, attempts: seq<Attempt>)
    ensures |AddHeaders(RunAdd(cookie, url, attempts).requests)| <= |attempts|
    ensures var headers := AddHeaders(RunAdd(cookie, url, attempts).requests);
      forall j :: 0 <= j < |headers| ==> headers[j] == CookieHeader(PassCookie(cookie, attempts, j))
    decreases |attempts|
  {
    var headers := AddHeaders(RunAdd(cookie, url, attempts).requests);
    if attempts == [] {
      assert headers == [];
    } else {
      var a := attempts[0];
      var held := PassCookie(cookie, attempts, 0);
      var login := if HasCookie(cookie) then [] else [LoginRequest];
      RunAddPass(cookie, url, attempts);
      if a.status != AddForbidden {
        PassHeaders(login, url, CookieHeader(held), []);
        assert headers == [CookieHeader(held)];
      } else {
        var next := AfterLogin(None, a.relogin);
        var tail := attempts[1..];
        var rest := RunAdd(next, url, tail);
        RunAddCookieSent(next, url, tail);
        PassShift(cookie, attempts);
        PassHeaders(login, url, CookieHeader(held), rest.requests);
        assert headers == [CookieHeader(held)] + AddHeaders(rest.requests);
        forall j | 0 < j < |headers| ensures headers[j] == CookieHeader(PassCookie(cookie, attempts, j)) {
          assert headers[j] == AddHeaders(rest.requests)[j - 1];
        }
      }
    }
  }

  /** The add of one pass contributes its one header, whatever logins surround it. */
  lemma PassHeaders(login: seq<Request>, url: string, header: Option<string>, rest: seq<Request>)
    requires login == [] || login == [LoginRequest]
    ensures AddHeaders(login + [AddRequest(url, header)]) == [header]
    ensures AddHeaders(login + [AddRequest(url, header)] + [LoginRequest] + rest) == [header] + AddHeaders(rest)
  {
    var tried := login + [AddRequest(url, header)];
    assert AddHeaders([LoginRequest]) == [];
    assert AddHeaders([AddRequest(url, header)]) == [header];
    AddHeadersAppend(login, [AddRequest(url, header)]);
    AddHeadersAppend(tried, [LoginRequest]);
    AddHeadersAppend(tried + [LoginRequest], rest);
  }

  /** Pass `j + 1` of a run begins as pass `j` of the run that the first 403
      starts over. */
  lemma PassShift(cookie: Option<string>, attempts: seq<Attempt>)
    requires attempts != []
    ensures var next := AfterLogin(None, attempts[0].relogin);
      && (forall j :: 0 <= j <= |attempts[1..]| ==> PassStart(next, attempts[1..], j) == PassStart(cookie, attempts, j + 1))
      && (forall j :: 0 <= j < |attempts[1..]| ==> PassCookie(next, attempts[1..], j) == PassCookie(cookie, attempts, j + 1))
  {
    var next := AfterLogin(None, attempts[0].relogin);
    var tail := attempts[1..];
    forall j | 0 <= j <= |tail|
      ensures PassStart(next, tail, j) == PassStart(cookie, attempts, j + 1)
    {
      if j > 0 {
        assert tail[j - 1] == attempts[j];
      }
    }
    forall j | 0 <= j < |tail|
      ensures PassCookie(next, tail, j) == PassCookie(cookie, attempts, j + 1)
    {
      assert tail[j] == attempts[j + 1];
    }
  }

  /** After a 403 the cookie held before it is gone for good: from the second
      pass on, the cookies sent and the cookie left behind are the same whatever
      cookie the add started from. */
  lemma StaleCookieDropped(c1: Option<string>, c2: Option<string>, url: string, attempts: seq<Attempt>)
    requires Forbidden(attempts) > 0
    ensures RunAdd(c1, url, attempts).cookie == RunAdd(c2, url, attempts).cookie
    ensures var h1 := AddHeaders(RunAdd(c1, url, attempts).requests);
      var h2 := AddHeaders(RunAdd(c2, url, attempts).requests);
      |h1| == |h2| && forall j :: 0 < j < |h1| ==> j < |h2| && h1[j] == h2[j]
  {
    RunAddCookie(c1, url, attempts);
    RunAddCookie(c2, url, attempts);
  }

  /** A 403 followed by an accepted add: one retry, two add requests, added. Two
      403s in a row do not stop the retrying: a third pass is made. */
  lemma RetryAfterForbidden(cookie: Option<string>, url: string, a: Attempt, b: Attempt, c: Attempt)
    requires a.status == AddForbidden
    ensures b.status == AddAccepted ==>
              RunAdd(cookie, url, [a, b]).outcome == Added && |AddHeaders(RunAdd(cookie, url, [a, b]).requests)| == 2
    ensures b.status == AddForbidden && c.status == AddAccepted ==>
              RunAdd(cookie, url, [a, b, c]).outcome == Added && |AddHeaders(RunAdd(cookie, url, [a, b, c]).requests)| == 3
  {
    RunAddOutcome(cookie, url, [a, b]);
    RunAddOutcome(cookie, url, [a, b, c]);
    assert [a, b][1..] == [b];
    assert [a, b, c][1..] == [b, c] && [b, c][1..] == [c];
    if b.status == AddForbidden && c.status == AddAccepted {
      assert Forbidden([c]) == 0;
      assert Forbidden([b, c]) == 1;
    }
  }

  /** Logins around the adds: with no cookie held the first request is a login;
      every add after the first is preceded by a login, and every add but the
      last is followed by one; when every add was answered with a 403 the run
      ends with the login made after the final 403. */
  lemma {:induction false} RunAddLogins(cookie: Option<string>, url: string, attempts: seq<Attempt>)
    ensures var rs := RunAdd(cookie, url, attempts).requests;
      && (attempts != [] ==> rs != [] && (rs[0] == LoginRequest <==> !HasCookie(cookie)))
      && (forall i :: 0 < i < |rs| && rs[i].AddRequest? ==> rs[i - 1] == LoginRequest)
      && (forall i :: 0 <= i < |rs| - 1 && rs[i].AddRequest? ==> rs[i + 1] == LoginRequest)
      && (attempts != [] && Forbidden(attempts) == |attempts| ==> rs[|rs| - 1] == LoginRequest)
    decreases |attempts|
  {
    if attempts != [] {
      var a := attempts[0];
      var held := if HasCookie(cookie) then cookie else AfterLogin(cookie, a.login);
      var sent := (if HasCookie(cookie) then [] else [LoginRequest]) + [AddRequest(url, CookieHeader(held))];
      if a.status == AddForbidden {
        var c := AfterLogin(None, a.relogin);
        var rest := RunAdd(c, url, attempts[1..]);
        RunAddLogins(c, url, attempts[1..]);
        var rs := sent + [LoginRequest] + rest.requests;
        var m := |sent| + 1;
        forall i | 0 < i < |rs| && rs[i].AddRequest? ensures rs[i - 1] == LoginRequest {
          if i > m {
            assert rs[i] == rest.requests[i - m] && rs[i - 1] == rest.requests[i - 1 - m];
          } else if i == m {
            assert rs[m - 1] == LoginRequest;
          }
        }
        forall i | 0 <= i < |rs| - 1 && rs[i].AddRequest? ensures rs[i + 1] == LoginRequest {
          if i >= m {
            assert rs[i] == rest.requests[i - m] && rs[i + 1] == rest.requests[i + 1 - m];
          }
        }
      }
      if Forbidden(attempts) == |attempts| {
        RunAddEndsWithLogin(cookie, url, attempts);
      }
    }
  }

  /** A run whose every add was answered with a 403 ends with the login made
      after the last of them. */
  lemma {:induction false} RunAddEndsWithLogin(cookie: Option<string>, url: string, attempts: seq<Attempt>)
    requires attempts != [] && Forbidden(attempts) == |attempts|
    ensures var rs := RunAdd(cookie, url, attempts).requests; rs != [] && rs[|rs| - 1] == LoginRequest
    decreases |attempts|
  {
    var c := AfterLogin(None, attempts[0].relogin);
    if |attempts| > 1 {
      RunAddEndsWithLogin(c, url, attempts[1..]);
    }
  }

  /** The stored cookie after `downloadFromMAM`: only a fetched torrent leads to
      the login, and only when no cookie is held; a 403 does not clear it. */
  function CookieAfterUpload(cookie: Option<string>, fetched: bool, login: LoginOutcome): (c: Option<string>)
    ensures !fetched || HasCookie(cookie) ==> c == cookie
    ensures fetched && !HasCookie(cookie) ==> c == AfterLogin(cookie, login)
  {
    if fetched && !HasCookie(cookie) then AfterLogin(cookie, login) else cookie
  }

  /** The qBittorrent session state of the server process (`qbitCookie`). */
  class Session {
    var cookie: Option<string>

    /** The cookie starts out absent. */
    constructor ()
      ensures cookie == None
    {
      cookie := None;
    }

    /** `loginToQBittorrent`: reports whether the login was accepted and stores
        the cookie the response carries, if any. */
    method Login(o: LoginOutcome) returns (ok: bool)
      modifies this
      ensures ok == o.LoginOk?
      ensures cookie == AfterLogin(old(cookie), o)
    {
      ok := false;
      match o {
        case LoginFailed =>
        case LoginOk(setCookie) =>
          if setCookie.Some? && |setCookie.value| > 0 {
            cookie := Some(UpToSemicolon(setCookie.value[0]));
          }
          ok := true;
      }
    }

    /** `addTorrentToQBittorrent`: logs in when no cookie is held, sends the add
        with the cookie, and on a 403 clears the cookie, logs in again and starts
        over. The recursion of the source is a loop over the supplied passes. */
    method AddTorrent(url: string, attempts: seq<Attempt>) returns (outcome: AddOutcome, requests: seq<Request>)
      modifies this
      ensures RunAdd(old(cookie), url, attempts) == AddRun(outcome, cookie, requests)
    {
      outcome, requests := StillRetrying, [];
      var i := 0;
      while i < |attempts|
        invariant 0 <= i <= |attempts|
        invariant RunAdd(old(cookie), url, attempts) == After(requests, RunAdd(cookie, url, attempts[i..]))
        decreases |attempts| - i
      {
        var a := attempts[i];
        assert attempts[i..][0] == a && attempts[i..][1..] == attempts[i + 1..];
        ghost var before := requests;
        ghost var start := cookie;
        var sent := Pass(url, a);
        RunAddPassThen(before, start, url, attempts[i..], sent, cookie);
        requests := requests + sent;
        if a.status == AddAccepted {
          outcome := Added;
          return;
        } else if a.status == AddFailed {
          outcome := NotAdded;
          return;
        }
        i := i + 1;
      }
    }

    /** One pass of `addTorrentToQBittorrent`: the login made when no cookie is
        held, the add with the held cookie, and after a 403 the cleared cookie
        and the login that follows. */
    method Pass(url: string, a: Attempt) returns (sent: seq<Request>)
      modifies this
      ensures PassDone(old(cookie), url, a, sent, cookie)
    {
      sent := [];
      if !HasCookie(cookie) {
        var _ := Login(a.login);
        sent := [LoginRequest];
      }
      sent := sent + [AddRequest(url, CookieHeader(cookie))];
      if a.status == AddForbidden {
        cookie := None;
        var _ := Login(a.relogin);
        sent := sent + [LoginRequest];
      }
    }

    /** `downloadFromMAM` from the fetch of the torrent file on: when the fetch
        failed nothing else happens; otherwise it logs in when no cookie is held
        and uploads the file. Any failure, a 403 included, ends it with false and
        no retry. */
    method DownloadFromMam(fetched: bool, login: LoginOutcome, status: AddStatus) returns (ok: bool)
      modifies this
      ensures ok == (fetched && status == AddAccepted)
      ensures cookie == CookieAfterUpload(old(cookie), fetched, login)
    {
      if !fetched {
        return false;
      }
      if !HasCookie(cookie) {
        var _ := Login(login);
      }
      ok := status == AddAccepted;
    }
  }
}
