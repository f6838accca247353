/** The fetch layer (`_get_page_content`): up to `maxRetries` GET attempts with
    exponential backoff between failed attempts and a fixed politeness delay
    after a success. The network is an oracle that answers the k-th request of
    the session; sleeps are recorded rather than taken. */
module Fetcher {
  import opened Options
  import Dom

  type Url = string

  /** One HTTP exchange: a 2xx body, or any transport error / non-2xx status. */
  datatype Response = Ok(text: string) | Failed

  /** A recorded `time.sleep`: a backoff of so many seconds, or the configured delay. */
  datatype Sleep = Backoff(seconds: nat) | Delay

  /** What the session has done so far: every HTTP request, in order, and every sleep. */
  datatype Log = Log(requests: seq<Url>, sleeps: seq<Sleep>)

  /** The outside world: `net(url, k)` is the answer to the session's k-th
      request, `parse` is the HTML parser, `join` is `urljoin`. */
  datatype Env = Env(net: (Url, nat) -> Response, parse: string -> Dom.Node, join: (string, string) -> string)

  /** The retry bound every caller in the scraper uses. */
  const DefaultRetries := 3

  function Pow2(k: nat): nat {
    if k == 0 then 1 else 2 * Pow2(k - 1)
  }

  /** The backoffs slept after failed attempts `lo .. hi-1`: 2^lo, ..., 2^(hi-1) seconds. */
  function Backoffs(lo: nat, hi: int): seq<Sleep>
    decreases hi - lo
  {
    if hi <= lo then [] else [Backoff(Pow2(lo))] + Backoffs(lo + 1, hi)
  }

  function Repeat(url: Url, k: nat): seq<Url> {
    seq(k, _ => url)
  }

  /** A fetched body counts only when it is present and non-empty (`if not page_content`). */
  predicate HasContent(body: Option<string>) {
    body.Some? && body.value != ""
  }

  /** The retry loop from attempt `attempt` on. */
  function Attempt(env: Env, log: Log, url: Url, attempt: nat, maxRetries: int): (r: (Option<string>, Log))
    ensures log.requests <= r.1.requests && log.sleeps <= r.1.sleeps
    ensures |r.1.requests| - |log.requests| <= (if maxRetries <= attempt then 0 else maxRetries - attempt)
    ensures r.0.Some? ==> |r.1.sleeps| > |log.sleeps| && r.1.sleeps[|r.1.sleeps| - 1] == Delay
    decreases maxRetries - attempt
  {
    if maxRetries <= attempt then (None, log)
    else
      var sent := log.(requests := log.requests + [url]);
      match env.net(url, |log.requests|)
      case Ok(text) => (Some(text), sent.(sleeps := sent.sleeps + [Delay]))
      case Failed =>
        var waited := if attempt < maxRetries - 1 then sent.(sleeps := sent.sleeps + [Backoff(Pow2(attempt))]) else sent;
        Attempt(env, waited, url, attempt + 1, maxRetries)
  }

  /** `_get_page_content(url, max_retries=maxRetries)` */
  function Fetch(env: Env, log: Log, url: Url, maxRetries: int): (r: (Option<string>, Log))
    ensures log.requests <= r.1.requests && log.sleeps <= r.1.sleeps
    ensures |r.1.requests| - |log.requests| <= (if maxRetries <= 0 then 0 else maxRetries)
    ensures r.0.Some? ==> |r.1.sleeps| > |log.sleeps| && r.1.sleeps[|r.1.sleeps| - 1] == Delay
  {
    Attempt(env, log, url, 0, maxRetries)
  }

  /** The answer to attempt `k` of a retry loop whose attempt 0 is the session's
      request number `base`. */
  function AttemptAnswer(env: Env, url: Url, base: nat, k: nat): Response {
    env.net(url, base + k)
  }

  /** Attempt `k` is the first of attempts `a ..` to succeed. */
  ghost predicate FirstSuccess(env: Env, url: Url, base: nat, a: nat, maxRetries: int, k: nat) {
    && a <= k < maxRetries
    && AttemptAnswer(env, url, base, k).Ok?
    && forall j: nat :: a <= j < k ==> AttemptAnswer(env, url, base, j).Failed?
  }

  /** Every one of attempts `a .. maxRetries-1` fails. */
  ghost predicate AllFail(env: Env, url: Url, base: nat, a: nat, maxRetries: int) {
    forall j: nat :: a <= j < maxRetries ==> AttemptAnswer(env, url, base, j).Failed?
  }

  lemma BackoffsStep(lo: nat, hi: int)
    requires lo < hi
    ensures Backoffs(lo, hi) == [Backoff(Pow2(lo))] + Backoffs(lo + 1, hi)
  {
  }

  lemma RepeatStep(url: Url, k: nat)
    ensures [url] + Repeat(url, k) == Repeat(url, k + 1)
  {
    assert forall i :: 0 <= i < k + 1 ==> ([url] + Repeat(url, k))[i] == url;
  }

  /** If attempt `k` is the first of attempts `a ..` to succeed, the retry loop
      from `a` returns attempt `k`'s body after exactly `k - a + 1` requests, all
      to `url`. */
  lemma {:induction false} AttemptSucceedsRequests(env: Env, log: Log, url: Url, base: nat, a: nat, maxRetries: int, k: nat)
    requires |log.requests| == base + a
    requires FirstSuccess(env, url, base, a, maxRetries, k)
    ensures var r := Attempt(env, log, url, a, maxRetries);
            && r.0 == Some(AttemptAnswer(env, url, base, k).text)
            && r.1.requests == log.requests + Repeat(url, k - a + 1)
    decreases k - a
  {
    var sent := log.(requests := log.requests + [url]);
    assert AttemptAnswer(env, url, base, a) == env.net(url, |log.requests|);
    if k == a {
      assert Repeat(url, 1) == [url];
    } else {
      assert AttemptAnswer(env, url, base, a).Failed?;
      var waited := sent.(sleeps := sent.sleeps + [Backoff(Pow2(a))]);
      AttemptSucceedsRequests(env, waited, url, base, a + 1, maxRetries, k);
      RepeatStep(url, k - a);
      assert log.requests + [url] + Repeat(url, k - (a + 1) + 1) == log.requests + Repeat(url, k - a + 1);
    }
  }

  /** If attempt `k` is the first of attempts `a ..` to succeed, the retry loop
      from `a` sleeps the backoffs 2^a .. 2^(k-1) and then the delay once. */
  lemma {:induction false} AttemptSucceedsSleeps(env: Env, log: Log, url: Url, base: nat, a: nat, maxRetries: int, k: nat)
    requires |log.requests| == base + a
    requires FirstSuccess(env, url, base, a, maxRetries, k)
    ensures Attempt(env, log, url, a, maxRetries).1.sleeps == log.sleeps + Backoffs(a, k) + [Delay]
    decreases k - a
  {
    var sent := log.(requests := log.requests + [url]);
    assert AttemptAnswer(env, url, base, a) == env.net(url, |log.requests|);
    if k == a {
      assert Backoffs(a, a) == [];
      assert log.sleeps + Backoffs(a, a) + [Delay] == sent.sleeps + [Delay];
    } else {
      assert AttemptAnswer(env, url, base, a).Failed?;
      var waited := sent.(sleeps := sent.sleeps + [Backoff(Pow2(a))]);
      AttemptSucceedsSleeps(env, waited, url, base, a + 1, maxRetries, k);
      BackoffsStep(a, k);
      assert log.sleeps + [Backoff(Pow2(a))] + Backoffs(a + 1, k) + [Delay] == log.sleeps + Backoffs(a, k) + [Delay];
    }
  }

  /** If every attempt from `a` on fails, the retry loop returns nothing after
      one request to `url` per remaining attempt. */
  lemma {:induction false} AttemptFailsRequests(env: Env, log: Log, url: Url, base: nat, a: nat, maxRetries: int)
    requires |log.requests| == base + a
    requires AllFail(env, url, base, a, maxRetries)
    ensures var r := Attempt(env, log, url, a, maxRetries);
            && r.0 == None
            && r.1.requests == log.requests + Repeat(url, if maxRetries <= a then 0 else maxRetries - a)
    decreases maxRetries - a
  {
    if maxRetries <= a {
      assert Repeat(url, 0) == [];
      assert log.requests + [] == log.requests;
    } else {
      var sent := log.(requests := log.requests + [url]);
      assert AttemptAnswer(env, url, base, a) == env.net(url, |log.requests|);
      assert AttemptAnswer(env, url, base, a).Failed?;
      var waited := if a < maxRetries - 1 then sent.(sleeps := sent.sleeps + [Backoff(Pow2(a))]) else sent;
      AttemptFailsRequests(env, waited, url, base, a + 1, maxRetries);
      var left := if maxRetries <= a + 1 then 0 else maxRetries - (a + 1);
      RepeatStep(url, left);
      assert log.requests + [url] + Repeat(url, left) == log.requests + Repeat(url, maxRetries - a);
    }
  }

  /** If every attempt from `a` on fails, the retry loop sleeps a backoff after
      every failure but the last and never the delay. */
  lemma {:induction false} AttemptFailsSleeps(env: Env, log: Log, url: Url, base: nat, a: nat, maxRetries: int)
    requires |log.requests| == base + a
    requires AllFail(env, url, base, a, maxRetries)
    ensures Attempt(env, log, url, a, maxRetries).1.sleeps == log.sleeps + Backoffs(a, maxRetries - 1)
    decreases maxRetries - a
  {
    if maxRetries <= a {
      assert log.sleeps + [] == log.sleeps;
    } else {
      var sent := log.(requests := log.requests + [url]);
      assert AttemptAnswer(env, url, base, a) == env.net(url, |log.requests|);
      assert AttemptAnswer(env, url, base, a).Failed?;
      if a == maxRetries - 1 {
        assert Attempt(env, log, url, a, maxRetries) == (None, sent);
        assert Backoffs(a, maxRetries - 1) == [];
        assert log.sleeps + [] == log.sleeps;
      } else {
        var waited := sent.(sleeps := sent.sleeps + [Backoff(Pow2(a))]);
        AttemptFailsSleeps(env, waited, url, base, a + 1, maxRetries);
        BackoffsStep(a, maxRetries - 1);
        assert log.sleeps + [Backoff(Pow2(a))] + Backoffs(a + 1, maxRetries - 1) == log.sleeps + Backoffs(a, maxRetries - 1);
      }
    }
  }

  /** The schedule of the retry loop from attempt `a`: if attempt `k` is the first to
      succeed, exactly `k - a + 1` requests go out, the backoffs 2^a .. 2^(k-1) are
      slept between them and the delay once at the end; if all fail, one request
      per remaining attempt, the backoffs of all but the last, no delay. */
  lemma AttemptSchedule(env: Env, log: Log, url: Url, base: nat, a: nat, maxRetries: int)
    requires |log.requests| == base + a
    ensures forall k: nat :: FirstSuccess(env, url, base, a, maxRetries, k) ==>
              Attempt(env, log, url, a, maxRetries)
              == (Some(AttemptAnswer(env, url, base, k).text),
                  Log(log.requests + Repeat(url, k - a + 1), log.sleeps + Backoffs(a, k) + [Delay]))
    ensures AllFail(env, url, base, a, maxRetries) ==>
              Attempt(env, log, url, a, maxRetries)
              == (None, Log(log.requests + Repeat(url, if maxRetries <= a then 0 else maxRetries - a),
                            log.sleeps + Backoffs(a, maxRetries - 1)))
  {
    forall k: nat | FirstSuccess(env, url, base, a, maxRetries, k)
      ensures Attempt(env, log, url, a, maxRetries)
              == (Some(AttemptAnswer(env, url, base, k).text),
                  Log(log.requests + Repeat(url, k - a + 1), log.sleeps + Backoffs(a, k) + [Delay]))
    {
      AttemptSucceedsRequests(env, log, url, base, a, maxRetries, k);
      AttemptSucceedsSleeps(env, log, url, base, a, maxRetries, k);
    }
    if AllFail(env, url, base, a, maxRetries) {
      AttemptFailsRequests(env, log, url, base, a, maxRetries);
      AttemptFailsSleeps(env, log, url, base, a, maxRetries);
    }
  }

  /** `_get_page_content`: the retry loop. At most `maxRetries` requests, all to
      `url`; the body of the first successful attempt, with exactly the backoffs
      2^0 .. 2^(k-1) before it and the delay once after it; `None` after
      `maxRetries` failures, with a backoff after every failure but the last and
      no delay. */
  method GetPageContent(env: Env, log: Log, url: Url, maxRetries: int) returns (body: Option<string>, log': Log)
    ensures (body, log') == Fetch(env, log, url, maxRetries)
    ensures forall k: nat :: FirstSuccess(env, url, |log.requests|, 0, maxRetries, k) ==>
              && body == Some(AttemptAnswer(env, url, |log.requests|, k).text)
              && log'.requests == log.requests + Repeat(url, k + 1)
              && log'.sleeps == log.sleeps + Backoffs(0, k) + [Delay]
    ensures AllFail(env, url, |log.requests|, 0, maxRetries) ==>
              && body == None
              && log'.requests == log.requests + Repeat(url, if maxRetries <= 0 then 0 else maxRetries)
              && log'.sleeps == log.sleeps + Backoffs(0, maxRetries - 1)
  {
    var attempt: nat := 0;
    log' := log;
    body := None;
    while attempt < maxRetries
      invariant Attempt(env, log, url, 0, maxRetries) == Attempt(env, log', url, attempt, maxRetries)
      decreases maxRetries - attempt
    {
      var answer := env.net(url, |log'.requests|);
      log' := log'.(requests := log'.requests + [url]);
      if answer.Ok? {
        log' := log'.(sleeps := log'.sleeps + [Delay]);
        body := Some(answer.text);
        AttemptSchedule(env, log, url, |log.requests|, 0, maxRetries);
        return;
      }
      if attempt < maxRetries - 1 {
        log' := log'.(sleeps := log'.sleeps + [Backoff(Pow2(attempt))]);
      }
      attempt := attempt + 1;
    }
    AttemptSchedule(env, log, url, |log.requests|, 0, maxRetries);
  }

  /** Either the retry loop succeeds at some attempt or every attempt fails. */
  lemma {:induction false} SuccessOrAllFail(env: Env, url: Url, base: nat, a: nat, maxRetries: int)
    ensures AllFail(env, url, base, a, maxRetries) || exists k: nat :: FirstSuccess(env, url, base, a, maxRetries, k)
    decreases maxRetries - a
  {
    if a < maxRetries {
      if AttemptAnswer(env, url, base, a).Ok? {
        assert FirstSuccess(env, url, base, a, maxRetries, a);
      } else {
        SuccessOrAllFail(env, url, base, a + 1, maxRetries);
        if AllFail(env, url, base, a + 1, maxRetries) {
          assert AllFail(env, url, base, a, maxRetries);
        } else {
          var k: nat :| FirstSuccess(env, url, base, a + 1, maxRetries, k);
          assert FirstSuccess(env, url, base, a, maxRetries, k);
        }
      }
    }
  }

  /** A fetch issues between one and `maxRetries` requests (none when the bound is
      not positive), all to `url`, and sleeps the delay exactly when it returns a body. */
  lemma FetchBounds(env: Env, log: Log, url: Url, maxRetries: int)
    ensures var (body, log') := Fetch(env, log, url, maxRetries);
            && log.requests <= log'.requests
            && |log'.requests| - |log.requests| <= (if maxRetries <= 0 then 0 else maxRetries)
            && (0 < maxRetries ==> |log.requests| < |log'.requests|)
            && (forall i :: |log.requests| <= i < |log'.requests| ==> log'.requests[i] == url)
            && log.sleeps <= log'.sleeps
            && (Delay in log'.sleeps[|log.sleeps|..] <==> body.Some?)
  {
    var n := |log.requests|;
    SuccessOrAllFail(env, url, n, 0, maxRetries);
    AttemptSchedule(env, log, url, |log.requests|, 0, maxRetries);
    BackoffsHaveNoDelay(0, maxRetries - 1);
    if AllFail(env, url, n, 0, maxRetries) {
    } else {
      var k: nat :| FirstSuccess(env, url, n, 0, maxRetries, k);
      var log' := Fetch(env, log, url, maxRetries).1;
      assert log'.sleeps[|log.sleeps|..] == Backoffs(0, k) + [Delay];
    }
  }

  lemma {:induction false} BackoffsHaveNoDelay(lo: nat, hi: int)
    ensures Delay !in Backoffs(lo, hi)
    decreases hi - lo
  {
    if lo < hi {
      BackoffsHaveNoDelay(lo + 1, hi);
    }
  }
}
