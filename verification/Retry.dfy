/** vllm/connections.py: the exponential-backoff wrapper around a fetch, as it is applied
    to `download_file`. The network is a script of what each attempt meets. */
module Retry {
  import opened Options

  type byte = b: int | 0 <= b < 256

  /** The exceptions `_is_retryable` tells apart. */
  datatype Error =
    | TimedOut
    | ConnectionLost
    | HttpError(status: Option<int>)       // requests; the response may be missing
    | ClientResponseError(code: int)       // aiohttp
    | OtherError

  predicate IsRetryable(e: Error) {
    match e
    case TimedOut => true
    case ConnectionLost => true
    case HttpError(status) => status.Some? && status.value >= 500
    case ClientResponseError(code) => code >= 500
    case OtherError => false
  }

  /** What one attempt meets: an error before the file is open, an error after some of the
      body was written, or the whole body. */
  datatype Attempt =
    | Refused(error: Error)
    | Broken(chunks: seq<seq<byte>>, error: Error)
    | Delivered(chunks: seq<seq<byte>>)

  datatype Outcome = Returned | Raised(error: Error)

  function OutcomeOf(a: Attempt): Outcome {
    if a.Delivered? then Returned else Raised(a.error)
  }

  function Body(chunks: seq<seq<byte>>): seq<byte> {
    if chunks == [] then [] else Body(chunks[..|chunks| - 1]) + chunks[|chunks| - 1]
  }

  /** The body is its chunks one after the other. */
  lemma {:induction false} BodyInOrder(chunks: seq<seq<byte>>, more: seq<seq<byte>>)
    ensures Body(chunks + more) == Body(chunks) + Body(more)
    ensures forall chunk :: Body([chunk]) == chunk
  {
    forall chunk: seq<byte> ensures [chunk][..0] == [] {
    }
    if more == [] {
      assert chunks + more == chunks;
    } else {
      BodyInOrder(chunks, more[..|more| - 1]);
      assert (chunks + more)[..|chunks + more| - 1] == chunks + more[..|more| - 1];
    }
  }

  /** What an attempt ends with: the whole body on disk, or its error and no file at all. */
  ghost predicate EndsAs(a: Attempt, r: Outcome, file: Option<seq<byte>>) {
    match a
    case Refused(error) => r == Raised(error) && file == None
    case Broken(_, error) => r == Raised(error) && file == None
    case Delivered(chunks) => r == Returned && file == Some(Body(chunks))
  }

  const BACKOFF_FACTOR: nat := 4

  function Backoff(attempt: nat): nat {
    if attempt == 0 then 1 else BACKOFF_FACTOR * Backoff(attempt - 1)
  }

  /** Without a base timeout there is none; otherwise it is 4^k times the base. */
  ghost predicate HasTimeout(base: Option<real>, k: nat, timeout: Option<real>) {
    timeout == if base.None? then None else Some(base.value * Backoff(k) as real)
  }

  function TimeoutOf(base: Option<real>, attempt: nat): (timeout: Option<real>)
    ensures HasTimeout(base, attempt, timeout)
  {
    if base.None? then None else Some(base.value * Backoff(attempt) as real)
  }

  function Limit(maxRetries: int): nat {
    if maxRetries < 1 then 1 else maxRetries
  }

  predicate TryAgain(a: Attempt) {
    !a.Delivered? && IsRetryable(a.error)
  }

  /** The wrapper makes `n` calls, the first being the script's attempt number `first`: all but the
      last fail in a way worth retrying, and the last does not, or uses up the limit. */
  predicate MakesCalls(script: nat -> Attempt, first: nat, maxRetries: int, n: nat) {
    && 1 <= n <= Limit(maxRetries)
    && (forall k: nat :: first <= k < first + n - 1 ==> TryAgain(script(k)))
    && (n == Limit(maxRetries) || !TryAgain(script(first + n - 1)))
  }

  class Downloader {
    const script: nat -> Attempt
    var file: Option<seq<byte>>          // at `save_path`
    var timeouts: seq<Option<real>>      // of the calls made so far
    var slept: nat

    constructor (script: nat -> Attempt, file: Option<seq<byte>>)
      ensures this.script == script && this.file == file && timeouts == [] && slept == 0
    {
      this.script := script;
      this.file := file;
      timeouts := [];
      slept := 0;
    }

    method WriteChunks(chunks: seq<seq<byte>>)
      modifies this`file
      ensures file == Some(Body(chunks))
    {
      file := Some([]);
      for i := 0 to |chunks|
        invariant file == Some(Body(chunks[..i]))
      {
        assert chunks[..i + 1][..i] == chunks[..i];
        file := Some(file.value + chunks[i]);
      }
      assert chunks[..|chunks|] == chunks;
    }

    method Unlink()
      modifies this`file
      ensures file == None
    {
      if file.Some? {
        file := None;
      }
    }

    /** The body of `download_file`, undecorated. */
    method DownloadOnce(timeout: Option<real>) returns (r: Outcome)
      modifies this`file, this`timeouts
      ensures timeouts == old(timeouts) + [timeout]
      ensures EndsAs(script(|old(timeouts)|), r, file)
    {
      var attempt := script(|timeouts|);
      timeouts := timeouts + [timeout];
      match attempt
      case Refused(error) =>
        Unlink();
        r := Raised(error);
      case Broken(chunks, error) =>
        WriteChunks(chunks);
        Unlink();
        r := Raised(error);
      case Delivered(chunks) =>
        WriteChunks(chunks);
        r := Returned;
    }

    /** `download_file` under the wrapper. It makes as many calls as `MakesCalls` allows, gives
        the k-th the base timeout times 4^k, sleeps (4^a - 1) / 3 in all for a retried failures,
        and ends like its last attempt: with exactly that body on disk, or raising with no file. */
    method DownloadFile(base: Option<real>, maxRetries: int) returns (r: Outcome)
      modifies this
      ensures old(timeouts) <= timeouts
      ensures var n := |timeouts| - |old(timeouts)|;
        && MakesCalls(script, |old(timeouts)|, maxRetries, n)
        && (forall i :: |old(timeouts)| <= i < |timeouts| ==> HasTimeout(base, i - |old(timeouts)|, timeouts[i]))
        && 3 * (slept - old(slept)) == Backoff(n - 1) - 1
      ensures EndsAs(script(|timeouts| - 1), r, file)
    {
      var limit := if maxRetries < 1 then 1 else maxRetries;
      var attempt := 0;
      while attempt < limit
        invariant 0 <= attempt < limit
        invariant old(timeouts) <= timeouts && |timeouts| == |old(timeouts)| + attempt
        invariant forall i :: |old(timeouts)| <= i < |timeouts| ==> HasTimeout(base, i - |old(timeouts)|, timeouts[i])
        invariant forall k: nat :: |old(timeouts)| <= k < |old(timeouts)| + attempt ==> TryAgain(script(k))
        invariant 3 * (slept - old(slept)) == Backoff(attempt) - 1
      {
        var timeout := TimeoutOf(base, attempt);
        r := DownloadOnce(timeout);
        if r.Returned? {
          return;
        }
        if !IsRetryable(r.error) || attempt + 1 >= limit {
          return;
        }
        slept := slept + Backoff(attempt);
        attempt := attempt + 1;
      }
      assert false;
    }
  }

  /** After attempt `k` the wrapper calls once more exactly if the limit allows it and the attempt timed out,
      lost its connection or met a server error. */
  lemma CallsAgainIff(script: nat -> Attempt, first: nat, maxRetries: int, n: nat, k: nat)
    requires MakesCalls(script, first, maxRetries, n) && k < n
    ensures var again := k + 1 < n; var allowed := k + 1 < maxRetries;
      match script(first + k)
      case Delivered(_) => !again
      case Refused(e) => again <==> allowed && IsTransient(e)
      case Broken(_, e) => again <==> allowed && IsTransient(e)
  {
    if k + 1 < n {
      assert TryAgain(script(first + k));
    }
  }

  ghost predicate IsTransient(e: Error) {
    || e == TimedOut || e == ConnectionLost
    || (exists status :: 500 <= status && (e == HttpError(Some(status)) || e == ClientResponseError(status)))
  }

  // ---- what a script makes of a call -----------------------------------------------------

  lemma {:induction false} FirstStop(script: nat -> Attempt, first: nat, limit: nat) returns (n: nat)
    requires 1 <= limit
    ensures MakesCalls(script, first, limit, n)
    decreases limit
  {
    if limit == 1 || !TryAgain(script(first)) {
      n := 1;
    } else {
      var rest := FirstStop(script, first + 1, limit - 1);
      n := rest + 1;
      assert first + 1 + rest - 1 == first + n - 1;
    }
  }

  /** Raising the limit never makes the wrapper stop earlier. */
  lemma NoEarlierStop(script: nat -> Attempt, first: nat, fewer: int, more: int, n: nat, m: nat)
    requires fewer <= more
    requires MakesCalls(script, first, fewer, n) && MakesCalls(script, first, more, m)
    ensures n <= m
  {
    var last: nat := first + m - 1;
    assert last < first + n - 1 ==> TryAgain(script(last));
  }

  /** The number of calls is settled by the script and the limit alone. */
  lemma CallsAreDetermined(script: nat -> Attempt, first: nat, maxRetries: int, n: nat, other: nat)
    requires MakesCalls(script, first, maxRetries, n) && MakesCalls(script, first, maxRetries, other)
    ensures n == other
  {
    NoEarlierStop(script, first, maxRetries, maxRetries, n, other);
    NoEarlierStop(script, first, maxRetries, maxRetries, other, n);
  }

  predicate Reaches(script: nat -> Attempt, first: nat, k: nat) {
    forall j: nat :: first <= j < first + k ==> TryAgain(script(j))
  }

  /** Attempt `k` is made and delivers, with nothing but retryable failures before it. */
  predicate DeliversAt(script: nat -> Attempt, first: nat, k: nat) {
    Reaches(script, first, k) && script(first + k).Delivered?
  }

  /** A decorated call returns exactly when some attempt within the limit delivers and
      everything before it is worth retrying; otherwise it raises its last attempt's error,
      which is not retryable unless the limit is used up. */
  lemma ReturnsIff(script: nat -> Attempt, first: nat, maxRetries: int, n: nat)
    requires MakesCalls(script, first, maxRetries, n)
    ensures OutcomeOf(script(first + n - 1)) == Returned
      <==> exists k: nat :: k < Limit(maxRetries) && DeliversAt(script, first, k)
    ensures OutcomeOf(script(first + n - 1)).Raised?
      ==> n == Limit(maxRetries) || !IsRetryable(OutcomeOf(script(first + n - 1)).error)
  {
    var last: nat := n - 1;
    assert Reaches(script, first, last);
    if script(first + last).Delivered? {
      assert DeliversAt(script, first, last);
    }
    if k: nat :| k < Limit(maxRetries) && DeliversAt(script, first, k) {
      CallsAreDetermined(script, first, maxRetries, n, k + 1);
    }
  }

  /** Raising the limit never turns a call that returns into one that raises: it makes the same calls. */
  lemma MoreRetriesNeverHurt(script: nat -> Attempt, first: nat, fewer: int, more: int, n: nat, m: nat)
    requires fewer <= more
    requires MakesCalls(script, first, fewer, n) && MakesCalls(script, first, more, m)
    requires script(first + n - 1).Delivered?
    ensures m == n
  {
    CallsAreDetermined(script, first, more, n, m);
  }
}
