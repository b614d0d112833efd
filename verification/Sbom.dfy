/** Asking for a dependency report and waiting for it, against a server that may answer anything and a
    clock that may run on at any point. */
module Sbom {
  import opened Options

  datatype Generated = NotJson | Json(sbomUrl: Option<string>)

  /** What the program reads of a response. */
  datatype Response = Response(
    status: int, retryAfter: Option<string>, pollInterval: Option<string>,
    remaining: Option<string>, reset: Option<string>, location: Option<string>,
    json: Generated, text: Option<string>)

  datatype Answer = Threw | Answered(response: Response)

  /** Everything the client did, in order. */
  datatype Entry = Asked(url: string, token: Option<string>, answer: Answer) | Slept(ms: nat)

  const DEFAULT_POLL_MS: nat := 5000
  const MAX_WAIT_MS: nat := 60000
  const MAX_ATTEMPTS: nat := 5
  const API := "https://api.github.com/"
  const HTTPS := "https://"

  predicate Digits(s: string) { forall i :: 0 <= i < |s| ==> '0' <= s[i] <= '9' }

  function Number(s: string): nat
    requires Digits(s)
  {
    if s == [] then 0 else 10 * Number(s[..|s| - 1]) + (s[|s| - 1] as int - '0' as int)
  }

  predicate IsNumber(header: Option<string>) {
    header.Some? && header.value != [] && Digits(header.value)
  }

  /** The wait the headers of an answer call for; none when they call for none. */
  function WaitAsked(r: Response, now: int): Option<nat> {
    if IsNumber(r.retryAfter) then Some(Number(r.retryAfter.value) * 1000)
    else if IsNumber(r.pollInterval) then Some(Number(r.pollInterval.value) * 1000)
    else if r.remaining == Some("0") && IsNumber(r.reset) then
      var wait := Number(r.reset.value) * 1000 - now;
      Some(if wait < 0 then 0 else wait)
    else None
  }

  /** Too many requests, or an error on the server's side. */
  predicate Transient(r: Response) {
    r.status == 429 || r.status >= 500 || (r.status == 403 && r.remaining == Some("0"))
  }

  /** The wait taken for an answer: as asked, else the fallback, and never over a minute. */
  function Wait(a: Answer, fallback: nat, now: int): (ms: nat)
    ensures ms <= MAX_WAIT_MS
  {
    var asked := if a.Answered? then WaitAsked(a.response, now) else None;
    var wanted := if asked.Some? then asked.value else fallback;
    if wanted < MAX_WAIT_MS then wanted else MAX_WAIT_MS
  }

  // ----- the same, as a server writes it -----

  /** A number in decimal, without leading zeros. */
  function Decimal(n: nat): (s: string)
    ensures s != ""
  {
    if n < 10 then ["0123456789"[n]] else Decimal(n / 10) + ["0123456789"[n % 10]]
  }

  function Zeros(k: nat): string { if k == 0 then "" else "0" + Zeros(k - 1) }

  /** A header that is the number, zeros in front of it or not. */
  ghost predicate Says(header: Option<string>, n: nat) {
    header.Some? && exists k: nat :: header.value == Zeros(k) + Decimal(n)
  }

  /** A header that is not there, or is no number. */
  predicate NoNumber(header: Option<string>) {
    header.None? || header.value == "" || exists i :: 0 <= i < |header.value| && header.value[i] !in "0123456789"
  }

  lemma {:induction false} ZerosOnly(k: nat)
    ensures Zeros(k) + "0" == "0" + Zeros(k)
    ensures Digits(Zeros(k)) && Number(Zeros(k)) == 0
  {
    if k > 0 {
      ZerosOnly(k - 1);
      var z := Zeros(k - 1);
      assert "0" + z + "0" == "0" + (z + "0");
      assert Zeros(k) == z + "0" && Zeros(k)[..|z|] == z;
    }
  }

  lemma OneMoreDigit(s: string, d: nat)
    requires d < 10
    ensures Digits(s + ["0123456789"[d]]) <==> Digits(s)
    ensures Digits(s) ==> Number(s + ["0123456789"[d]]) == 10 * Number(s) + d
  {
    var t := s + ["0123456789"[d]];
    assert t[..|s|] == s && t[|s|] as int == '0' as int + d;
    assert forall i :: 0 <= i < |s| ==> t[i] == s[i];
  }

  /** A number printed reads as itself. */
  lemma {:induction false} NumberOfDecimal(k: nat, n: nat)
    ensures Digits(Zeros(k) + Decimal(n)) && Number(Zeros(k) + Decimal(n)) == n
  {
    if n < 10 {
      ZerosOnly(k);
      OneMoreDigit(Zeros(k), n);
    } else {
      NumberOfDecimal(k, n / 10);
      OneMoreDigit(Zeros(k) + Decimal(n / 10), n % 10);
      assert Zeros(k) + Decimal(n) == Zeros(k) + Decimal(n / 10) + ["0123456789"[n % 10]];
    }
  }

  lemma OneDigit(d: nat)
    requires d < 10
    ensures "" + ["0123456789"[d]] == Zeros(0) + Decimal(d) && Number("") == 0
  {
  }

  lemma AppendDigit(k: nat, n: nat, d: nat) returns (zeros: nat)
    requires d < 10
    ensures Zeros(k) + Decimal(n) + ["0123456789"[d]] == Zeros(zeros) + Decimal(10 * n + d)
  {
    if n == 0 {
      zeros := k + 1;
      ZerosOnly(k);
      assert Zeros(k) + Decimal(0) == Zeros(k + 1);
    } else {
      zeros := k;
      assert (10 * n + d) / 10 == n && (10 * n + d) % 10 == d;
      assert Zeros(k) + Decimal(n) + ["0123456789"[d]] == Zeros(k) + (Decimal(n) + ["0123456789"[d]]);
    }
  }

  lemma LastDigit(s: string) returns (but: string, d: nat)
    requires s != "" && Digits(s)
    ensures d < 10 && but == s[..|s| - 1] && Digits(but)
    ensures s == but + ["0123456789"[d]] && Number(s) == 10 * Number(but) + d
  {
    but, d := s[..|s| - 1], s[|s| - 1] as int - '0' as int;
    assert s == but + [s[|s| - 1]] && "0123456789"[d] == s[|s| - 1];
  }

  lemma {:induction false} DigitsAreDecimal(s: string) returns (k: nat)
    requires s != "" && Digits(s)
    ensures s == Zeros(k) + Decimal(Number(s))
  {
    var but, d := LastDigit(s);
    if but == "" {
      k := 0;
      OneDigit(d);
    } else {
      k := DigitsAreDecimal(but);
      k := AppendDigit(k, Number(but), d);
    }
  }

  /** The test for a number and its reading are right: it is one exactly when every character is a digit, exactly
      when it can be printed so, and then of just that number. */
  lemma HeaderSays(header: Option<string>)
    ensures IsNumber(header) <==> !NoNumber(header)
    ensures IsNumber(header) <==> exists n: nat :: Says(header, n)
    ensures forall n: nat :: Says(header, n) <==> IsNumber(header) && Number(header.value) == n
  {
    if header.Some? {
      NumberOrNot(header.value);
      forall n: nat, k: nat | header.value == Zeros(k) + Decimal(n)
        ensures IsNumber(header) && Number(header.value) == n
      {
        NumberOfDecimal(k, n);
      }
    }
    if IsNumber(header) {
      var k := DigitsAreDecimal(header.value);
      assert Says(header, Number(header.value));
    }
  }

  lemma NumberOrNot(s: string)
    ensures Digits(s) <==> forall i :: 0 <= i < |s| ==> s[i] in "0123456789"
  {
    forall i | 0 <= i < |s| ensures '0' <= s[i] <= '9' <==> s[i] in "0123456789" {
      if '0' <= s[i] <= '9' { assert "0123456789"[s[i] as int - '0' as int] == s[i]; }
    }
  }

  function Least(a: int, b: int): int { if a < b then a else b }

  function Most(a: int, b: int): int { if a > b then a else b }

  /** The wait for an answer, by the numbers its headers say. */
  ghost predicate WaitFits(a: Answer, fallback: nat, now: int, ms: int) {
    && (a.Threw? ==> ms == Least(fallback, 60000))
    && (a.Answered? ==>
          var r := a.response;
          && (forall n: nat :: Says(r.retryAfter, n) ==> ms == Least(1000 * n, 60000))
          && (NoNumber(r.retryAfter) ==>
                && (forall n: nat :: Says(r.pollInterval, n) ==> ms == Least(1000 * n, 60000))
                && (NoNumber(r.pollInterval) ==>
                      && (r.remaining == Some("0") ==>
                            forall n: nat :: Says(r.reset, n) ==> ms == Least(Most(0, 1000 * n - now), 60000))
                      && (r.remaining != Some("0") || NoNumber(r.reset) ==> ms == Least(fallback, 60000)))))
  }

  lemma WaitIs(a: Answer, fallback: nat, now: int, ms: int)
    ensures ms == Wait(a, fallback, now) <==> WaitFits(a, fallback, now, ms)
  {
    if a.Answered? {
      HeaderSays(a.response.retryAfter);
      HeaderSays(a.response.pollInterval);
      HeaderSays(a.response.reset);
    }
  }

  // ----- what a log amounts to -----

  /** A request answered for good. */
  datatype Reply = Reply(url: string, response: Response)

  /** The requests made, those answered for good, where any was sent and where the token was, how many in a
      row have not been answered for good, the last answer, the sleeps and how long they were asked to be. */
  datatype Tally = Tally(fetches: nat, settled: seq<Reply>, asked: set<string>, trusted: set<string>,
                         tries: nat, last: Answer, sleeps: nat, slept: nat)

  function Count(t: Tally, e: Entry): Tally {
    match e
    case Slept(ms) => t.(sleeps := t.sleeps + 1, slept := t.slept + ms)
    case Asked(url, token, answer) =>
      t.(fetches := t.fetches + 1,
         settled := t.settled + Settles(url, answer),
         asked := t.asked + {url},
         tries := if Settles(url, answer) == [] then t.tries + 1 else 0,
         last := answer,
         trusted := if token.Some? then t.trusted + {url} else t.trusted)
  }

  /** An answer waiting would not change: no server error, and no limit run into. */
  predicate ForGood(r: Response) {
    r.status < 500 && r.status != 429 && (r.status == 403 ==> r.remaining != Some("0"))
  }

  function Settles(url: string, answer: Answer): seq<Reply> {
    if answer.Answered? && ForGood(answer.response) then [Reply(url, answer.response)] else []
  }

  function Sum(log: seq<Entry>): Tally { SumOf(log, |log|) }

  function SumOf(log: seq<Entry>, n: nat): Tally
    requires n <= |log|
  {
    if n == 0 then Tally(0, [], {}, {}, 0, Threw, 0, 0) else Count(SumOf(log, n - 1), log[n - 1])
  }

  lemma {:induction false} SumOfPrefix(log: seq<Entry>, e: Entry, n: nat)
    requires n <= |log|
    ensures SumOf(log + [e], n) == SumOf(log, n)
  {
    if n > 0 { SumOfPrefix(log, e, n - 1); }
  }

  lemma OneMore(log: seq<Entry>, e: Entry)
    ensures Sum(log + [e]) == Count(Sum(log), e)
  {
    SumOfPrefix(log, e, |log|);
  }

  function GenerateUrl(repository: string): (url: string)
    ensures API <= url
  {
    API + ("repos/" + repository + "/dependency-graph/sbom/generate-report")
  }

  lemma GenerateUrlIs(repository: string)
    ensures GenerateUrl(repository)
              == "https://api.github.com/repos/" + repository + "/dependency-graph/sbom/generate-report"
  {
    assert "https://api.github.com/repos/" == "https://api.github.com/" + "repos/";
  }

  predicate NamesReport(r: Response) {
    (r.status == 200 || r.status == 201) && r.json.Json? && r.json.sbomUrl.Some?
    && "https://api.github.com/" <= r.json.sbomUrl.value
  }

  predicate Pending(r: Response) { r.status == 201 || r.status == 202 }

  predicate Redirects(r: Response) {
    (r.status == 301 || r.status == 302 || r.status == 307) && r.location.Some? && "https://" <= r.location.value
  }

  predicate Ok(r: Response) { 200 <= r.status < 300 }

  /** What the settled answers tell: a document when they are an accepted job, reports not ready yet,
      a redirect and a download that reads as SPDX, each asked where the one before said. */
  function Told<D>(s: seq<Reply>, read: string -> Option<D>): Option<D> {
    var n := |s|;
    if && n >= 3
       && NamesReport(s[0].response)
       && (forall i :: 1 <= i < n - 1 ==> s[i].url == s[0].response.json.sbomUrl.value)
       && (forall i :: 1 <= i < n - 2 ==> Pending(s[i].response))
       && Redirects(s[n - 2].response)
       && s[n - 1].url == s[n - 2].response.location.value
       && 200 <= s[n - 1].response.status < 300
       && s[n - 1].response.text.Some?
    then read(s[n - 1].response.text.value)
    else None
  }

  /** How often the report was not ready does not matter, nor what those answers held besides. */
  lemma PollsDoNotMatter<D>(first: Reply, polls: seq<Reply>, rest: seq<Reply>, read: string -> Option<D>)
    requires |rest| == 2 && NamesReport(first.response)
    requires forall i :: 0 <= i < |polls| ==>
               Pending(polls[i].response) && polls[i].url == first.response.json.sbomUrl.value
    ensures Told([first] + polls + rest, read) == Told([first] + rest, read)
  {
    var long, short := [first] + polls + rest, [first] + rest;
    var n := |long|;
    assert short[0] == first && short[1] == rest[0] && short[2] == rest[1];
    assert long[0] == first && long[n - 2] == rest[0] && long[n - 1] == rest[1];
    assert forall i :: 1 <= i < n - 2 ==> long[i] == polls[i - 1];
  }

  /** The token went only where it belongs. */
  predicate StaysHome(trusted: set<string>) { forall url :: url in trusted ==> "https://api.github.com/" <= url }

  // ----- the client -----

  class Client {
    /** Whether it is the fetches or the sleeps that never come back within the same millisecond. */
    const fetchTakesTime: bool
    var clock: int
    var log: seq<Entry>

    constructor (fetchTakesTime: bool, clock: int)
      ensures this.fetchTakesTime == fetchTakesTime && this.clock == clock && log == []
    {
      this.fetchTakesTime := fetchTakesTime;
      this.clock := clock;
      log := [];
    }

    /** Since `started` the sleeps fit in the time gone by, and that time grows with every turn. */
    ghost predicate Within(started: int, deadlineMs: int)
      reads this
    {
      var t := Sum(log);
      && t.slept <= clock - started
      && t.sleeps <= clock - started
      && (fetchTakesTime ==> t.fetches <= clock - started)
      && (t.sleeps > 0 ==> t.slept < deadlineMs && t.sleeps <= deadlineMs)
    }

    /** Five tries in a row, or a wait for the last answer that did not fit in the time left. */
    ghost predicate GaveUp(started: int, deadlineMs: int)
      reads this
    {
      || Sum(log).tries >= 5
      || exists now :: started <= now <= clock && NoTime(Sum(log), now, clock, started, deadlineMs)
    }

    method Now() returns (now: int)
      modifies this`clock
      ensures old(clock) <= now == clock
    {
      var gone :| 0 <= gone;
      clock := clock + gone;
      now := clock;
    }

    method Fetch(url: string, token: Option<string>) returns (answer: Answer)
      modifies this`clock, this`log
      ensures log == old(log) + [Asked(url, token, answer)]
      ensures Sum(log) == Count(old(Sum(log)), Asked(url, token, answer))
      ensures clock >= old(clock) + if fetchTakesTime then 1 else 0
    {
      var gone :| 0 <= gone;
      answer := *;
      OneMore(log, Asked(url, token, answer));
      clock := clock + gone + if fetchTakesTime then 1 else 0;
      log := log + [Asked(url, token, answer)];
    }

    method Sleep(ms: nat)
      modifies this`clock, this`log
      ensures log == old(log) + [Slept(ms)] && Sum(log) == Count(old(Sum(log)), Slept(ms))
      ensures clock >= old(clock) + ms && (fetchTakesTime || clock > old(clock))
    {
      var gone :| 0 <= gone;
      OneMore(log, Slept(ms));
      clock := clock + ms + gone + if fetchTakesTime then 0 else 1;
      log := log + [Slept(ms)];
    }

    /** Waits for the last answer, if that fits in the time left; false when it does not. Where the server asks
        for no wait it is five seconds, and five more with every further try in a row. */
    method Pause(answer: Answer, fallback: nat, started: int, deadlineMs: int) returns (waited: bool)
      requires Within(started, deadlineMs) && Sum(log).fetches > Sum(log).sleeps && started <= clock
      requires answer == Sum(log).last && fallback == 5000 * Most(1, Sum(log).tries)
      modifies this`clock, this`log
      ensures Within(started, deadlineMs) && started <= clock
      ensures if waited
              then exists now, ms: nat :: old(clock) <= now <= clock && WaitFits(answer, fallback, now, ms)
                                          && log == old(log) + [Slept(ms)]
                                          && Sum(log) == Count(old(Sum(log)), Slept(ms))
              else log == old(log)
                   && exists now :: started <= now <= clock && NoTime(Sum(log), now, clock, started, deadlineMs)
    {
      var now := Now();
      var wait := Wait(answer, fallback, now);
      WaitIs(answer, fallback, now, wait);
      var late := Now();
      if wait >= deadlineMs - (late - started) {
        assert NoTime(Sum(log), now, clock, started, deadlineMs);
        return false;
      }
      Sleep(wait);
      return true;
    }

    /** One request, made again while the refusal is one waiting may cure, until it is given up. */
    method Ask(url: string, token: Option<string>, started: int, deadlineMs: int)
      returns (answered: Option<Response>)
      requires Within(started, deadlineMs) && Sum(log).fetches >= Sum(log).sleeps && started <= clock
      requires Sum(log).tries == 0
      modifies this`clock, this`log
      ensures Within(started, deadlineMs) && started <= clock
      ensures Sum(log).asked == old(Sum(log)).asked + {url}
      ensures Sum(log).trusted == old(Sum(log)).trusted + if token.Some? then {url} else {}
      ensures var was, made := old(Sum(log)), Sum(log).fetches - old(Sum(log).fetches);
              && 1 <= made <= 5 && Sum(log).sleeps == was.sleeps + made - 1
              && Sum(log).settled == was.settled + if answered.Some? then [Reply(url, answered.value)] else []
      ensures answered.Some? ==>
                ForGood(answered.value) && Sum(log).tries == 0 && Sum(log).last == Answered(answered.value)
      ensures answered.None? ==> GaveUp(started, deadlineMs)
    {
      var attempt := 1;
      while true
        invariant 1 <= attempt <= MAX_ATTEMPTS
        invariant Within(started, deadlineMs) && started <= clock
        invariant Sum(log).fetches == old(Sum(log).fetches) + attempt - 1 && Sum(log).tries == attempt - 1
        invariant Sum(log).sleeps == old(Sum(log).sleeps) + attempt - 1
        invariant Sum(log).settled == old(Sum(log).settled)
        invariant Sum(log).asked == old(Sum(log)).asked + if attempt > 1 then {url} else {}
        invariant Sum(log).trusted == old(Sum(log)).trusted + if token.Some? && attempt > 1 then {url} else {}
        decreases MAX_ATTEMPTS - attempt
      {
        var answer := Fetch(url, token);
        if answer.Answered? && !Transient(answer.response) { return Some(answer.response); }
        if attempt >= MAX_ATTEMPTS { return None; }
        var waited := Pause(answer, DEFAULT_POLL_MS * attempt, started, deadlineMs);
        if !waited { return None; }
        attempt := attempt + 1;
      }
    }

    /** Downloads a report from where it redirected to, without the token. */
    method Download<D>(ghost polls: seq<Reply>, ghost first: Reply, ghost redirect: Reply, location: string,
                       started: int, deadlineMs: int, read: string -> Option<D>)
      returns (outcome: Option<D>)
      requires Within(started, deadlineMs) && Sum(log).fetches == Sum(log).sleeps + 2 && started <= clock
      requires Polling(polls, first) && redirect.url == first.response.json.sbomUrl.value
      requires Redirects(redirect.response) && location == redirect.response.location.value
      requires Sum(log).settled == polls + [redirect] && Sum(log).tries == 0
      modifies this`clock, this`log
      ensures Within(started, deadlineMs) && started <= clock
      ensures polls + [redirect] <= Sum(log).settled && outcome == Told(Sum(log).settled, read)
      ensures Unfinished(Sum(log).settled, first) ==> GaveUp(started, deadlineMs)
      ensures Sum(log).sleeps < Sum(log).fetches <= Sum(log).sleeps + 3
      ensures Sum(log).trusted == old(Sum(log)).trusted && Sum(log).asked == old(Sum(log)).asked + {location}
    {
      var downloaded := Ask(location, None, started, deadlineMs);
      NothingYet(polls, first, [redirect], read);
      if downloaded.None? { return None; }
      DownloadFinishes(polls, first, redirect, Reply(location, downloaded.value));
      OnceRedirected(polls, first, redirect, Reply(location, downloaded.value), read);
      if !Ok(downloaded.value) { return None; }
      if downloaded.value.text.None? { return None; }
      return read(downloaded.value.text.value);
    }

    /** Polls an accepted job's report until it redirects, and downloads it from there. */
    method FetchReport<D>(ghost first: Reply, reportUrl: string, token: string, started: int, deadlineMs: int,
                          read: string -> Option<D>)
      returns (outcome: Option<D>)
      requires Within(started, deadlineMs) && Sum(log).fetches == Sum(log).sleeps + 1 && started <= clock
      requires Sum(log).settled == [first] && NamesReport(first.response) && Sum(log).tries == 0
      requires reportUrl == first.response.json.sbomUrl.value
      modifies this`clock, this`log
      ensures Within(started, deadlineMs) && started <= clock
      ensures Sum(log).settled != [] && Sum(log).settled[0] == first
      ensures outcome == Told(Sum(log).settled, read)
      ensures Unfinished(Sum(log).settled, first) ==> GaveUp(started, deadlineMs)
      ensures Sum(log).sleeps < Sum(log).fetches <= Sum(log).sleeps + 3
      ensures Sum(log).trusted <= old(Sum(log)).trusted + {reportUrl}
      ensures Sum(log).asked <= old(Sum(log)).asked + {reportUrl} + Locations(Sum(log).settled)
    {
      while true
        invariant Within(started, deadlineMs) && Sum(log).fetches == Sum(log).sleeps + 1 && started <= clock
        invariant Polling(Sum(log).settled, first) && Sum(log).tries == 0
        invariant Sum(log).trusted <= old(Sum(log)).trusted + {reportUrl}
        invariant Sum(log).asked <= old(Sum(log)).asked + {reportUrl}
        decreases deadlineMs - Sum(log).sleeps
      {
        ghost var before := Sum(log).settled;
        var polled := Ask(reportUrl, Some(token), started, deadlineMs);
        NothingYet(before, first, if polled.Some? then [Reply(reportUrl, polled.value)] else [], read);
        if polled.None? { return None; }
        OneMorePoll(before, first, Reply(reportUrl, polled.value));
        if polled.value.status == 201 || polled.value.status == 202 {
          var waited := Pause(Answered(polled.value), DEFAULT_POLL_MS, started, deadlineMs);
          if !waited { return None; }
          continue;
        }
        if polled.value.status == 404 { return None; }
        if polled.value.status != 302 && polled.value.status != 301 && polled.value.status != 307 { return None; }
        var location := polled.value.location;
        if location.None? || !(HTTPS <= location.value) { return None; }
        outcome := Download(before, first, Reply(reportUrl, polled.value), location.value, started, deadlineMs, read);
        LocationOf(before, Reply(reportUrl, polled.value), Sum(log).settled);
        return;
      }
    }

    /** The outcome is what the settled answers tell. The client stops before they tell the end only when it
        has tried five times in a row or when the wait for the last answer does not fit. All waiting together
        is shorter than the deadline; there are three requests more than waits at the most; they go where
        the answers say, and the token to the API alone. */
    method FetchSbom<D>(repository: string, token: string, deadlineMs: int, read: string -> Option<D>)
      returns (outcome: Option<D>, ghost started: int)
      requires log == []
      modifies this`clock, this`log
      ensures outcome == Told(Sum(log).settled, read) && old(clock) <= started <= clock
      ensures Sum(log).settled == [] ==> GaveUp(started, deadlineMs)
      ensures Sum(log).settled != [] ==>
                && Sum(log).settled[0].url == GenerateUrl(repository)
                && (Unfinished(Sum(log).settled, Sum(log).settled[0]) ==> GaveUp(started, deadlineMs))
      ensures Sum(log).sleeps > 0 ==> Sum(log).slept < deadlineMs && Sum(log).sleeps <= deadlineMs
      ensures Sum(log).sleeps < Sum(log).fetches <= Sum(log).sleeps + 3
      ensures StaysHome(Sum(log).trusted)
      ensures Sum(log).asked <= {GenerateUrl(repository)} + Reports(Sum(log).settled) + Locations(Sum(log).settled)
    {
      var begun := Now();
      started := begun;
      var first := GenerateUrl(repository);
      var generated := Ask(first, Some(token), begun, deadlineMs);
      if generated.None? { return None, started; }
      if generated.value.status != 201 && generated.value.status != 200 { return None, started; }
      if generated.value.json.NotJson? { return None, started; }
      var reportUrl := generated.value.json.sbomUrl;
      if reportUrl.None? || !(API <= reportUrl.value) { return None, started; }
      outcome := FetchReport(Reply(first, generated.value), reportUrl.value, token, begun, deadlineMs, read);
    }
  }

  /** The wait there would be for the last answer is not less than the time left. */
  ghost predicate NoTime(t: Tally, now: int, clock: int, started: int, deadlineMs: int) {
    exists ms :: WaitFits(t.last, 5000 * Most(1, t.tries), now, ms) && ms >= deadlineMs - (clock - started)
  }

  /** The address an accepted job named, and those redirects led to. */
  function Reports(s: seq<Reply>): set<string> {
    if s != [] && NamesReport(s[0].response) then {s[0].response.json.sbomUrl.value} else {}
  }

  function Locations(s: seq<Reply>): set<string> {
    set i | 0 <= i < |s| && Redirects(s[i].response) :: s[i].response.location.value
  }

  lemma LocationOf(s: seq<Reply>, redirect: Reply, all: seq<Reply>)
    requires Redirects(redirect.response) && s + [redirect] <= all
    ensures redirect.response.location.value in Locations(all)
  {
    assert all[|s|] == (s + [redirect])[|s|] == redirect;
  }

  /** The answers so far leave something to ask: the report is not ready, or has redirected and no more. */
  predicate Unfinished(s: seq<Reply>, first: Reply) {
    || Polling(s, first)
    || (|s| >= 2 && Polling(s[..|s| - 1], first) && s[|s| - 1].url == first.response.json.sbomUrl.value
        && Redirects(s[|s| - 1].response))
  }

  lemma OneMorePoll(s: seq<Reply>, first: Reply, next: Reply)
    requires Polling(s, first) && next.url == first.response.json.sbomUrl.value
    ensures Polling(s + [next], first) <==> Pending(next.response)
    ensures Unfinished(s + [next], first) <==> Pending(next.response) || Redirects(next.response)
  {
    assert (s + [next])[..|s|] == s && (s + [next])[|s|] == next;
  }

  lemma DownloadFinishes(s: seq<Reply>, first: Reply, redirect: Reply, last: Reply)
    requires Polling(s, first) && Redirects(redirect.response)
    ensures !Unfinished(s + [redirect] + [last], first)
  {
    var all := s + [redirect] + [last];
    assert all[|s|] == redirect && all[..|s| + 1] == s + [redirect] && all[..|s| + 1][|s|] == redirect;
  }

  /** Where the poll loop stands: the job was accepted and every report since was not ready. */
  predicate Polling(s: seq<Reply>, first: Reply) {
    && s != [] && s[0] == first && NamesReport(first.response)
    && forall i :: 1 <= i < |s| ==> Pending(s[i].response) && s[i].url == first.response.json.sbomUrl.value
  }

  /** While it stands there, and with one answer more that is no usable redirect, there is no document. */
  lemma NothingYet<D>(s: seq<Reply>, first: Reply, next: seq<Reply>, read: string -> Option<D>)
    requires Polling(s, first) && |next| <= 1
    ensures Told(s + next, read).None?
  {
    if |s + next| >= 3 {
      var at := |s + next| - 2;
      assert (s + next)[at] == s[at];
    }
  }

  lemma OnceRedirected<D>(s: seq<Reply>, first: Reply, redirect: Reply, last: Reply, read: string -> Option<D>)
    requires Polling(s, first) && redirect.url == first.response.json.sbomUrl.value
    requires Redirects(redirect.response) && last.url == redirect.response.location.value
    ensures Told(s + [redirect] + [last], read)
              == if 200 <= last.response.status < 300 && last.response.text.Some?
                 then read(last.response.text.value) else None
  {
    var all := s + [redirect] + [last];
    assert all[0] == first && all[|s|] == redirect && all[|s| + 1] == last;
    assert forall i :: 1 <= i < |s| ==> all[i] == s[i];
  }
}
