/**
 * `get_tile` of `tms_to_geotiff` (urbanworm/utils.py): one HTTP GET per
 * attempt, at most three attempts when the request itself raises, and a
 * classification of the response that treats 404 and an empty body as an
 * absent tile.
 *
 * The network is not modelled: a fetch is given the sequence of outcomes
 * that the session would produce for its successive attempts.
 */
module TileFetch {

  newtype byte = x: int | 0 <= x < 256

  /** What one `SESSION.get(url, timeout=60)` call does. */
  datatype Attempt =
    | Raised                                   // connection error, timeout, ...
    | Responded(status: int, body: seq<byte>)

  /**
   * The HTTP client: `httpx.Client` when httpx imports, else
   * `requests.Session`. Their `raise_for_status` differ: httpx raises for
   * every status outside 2xx, requests only for 4xx and 5xx.
   */
  datatype Client = Httpx | Requests

  predicate RaisesForStatus(client: Client, status: int) {
    match client
    case Httpx => !(200 <= status < 300)
    case Requests => 400 <= status < 600
  }

  datatype FetchError =
    | RetriesExhausted         // the third exception is re-raised
    | HttpStatus(status: int)  // raised by raise_for_status, never retried

  datatype FetchResult = Absent | Content(bytes: seq<byte>) | Failed(error: FetchError)

  const MaxAttempts: nat := 3

  /**
   * The index of the first attempt, from `from` on, that got a response;
   * `MaxAttempts` when the first three attempts all raised.
   */
  function FirstResponse(attempts: seq<Attempt>, from: nat): (k: nat)
    requires from <= MaxAttempts <= |attempts|
    ensures from <= k <= MaxAttempts
    ensures forall j :: from <= j < k ==> attempts[j].Raised?
    ensures k < MaxAttempts ==> attempts[k].Responded?
    decreases MaxAttempts - from
  {
    if from == MaxAttempts || attempts[from].Responded? then from
    else FirstResponse(attempts, from + 1)
  }

  /** The tail of `get_tile` once a response arrived. */
  function Classify(client: Client, status: int, body: seq<byte>): FetchResult {
    if status == 404 then Absent
    else if body == [] then Absent
    else if RaisesForStatus(client, status) then Failed(HttpStatus(status))
    else Content(body)
  }

  /** What `get_tile` returns or raises, given the session's behaviour. */
  function FetchOutcome(client: Client, attempts: seq<Attempt>): FetchResult
    requires MaxAttempts <= |attempts|
  {
    var k := FirstResponse(attempts, 0);
    if k == MaxAttempts then Failed(RetriesExhausted)
    else Classify(client, attempts[k].status, attempts[k].body)
  }

  /** How many requests `get_tile` issues. */
  function AttemptsMade(attempts: seq<Attempt>): nat
    requires MaxAttempts <= |attempts|
  {
    var k := FirstResponse(attempts, 0);
    if k == MaxAttempts then MaxAttempts else k + 1
  }

  /**
   * `get_tile`: the retry loop counting `retry` down from 3, then the
   * classification of the response.
   */
  method GetTile(client: Client, attempts: seq<Attempt>) returns (r: FetchResult, made: nat)
    requires MaxAttempts <= |attempts|
    ensures r == FetchOutcome(client, attempts)
    ensures made == AttemptsMade(attempts)
    ensures 1 <= made <= MaxAttempts
  {
    var retry := 3;
    var i := 0;
    var response: Attempt;
    while true
      invariant 0 <= i < MaxAttempts && retry == MaxAttempts - i
      invariant forall j :: 0 <= j < i ==> attempts[j].Raised?
      decreases retry
    {
      var a := attempts[i];
      if a.Responded? {
        response := a;
        break;
      }
      retry := retry - 1;
      if retry == 0 {
        return Failed(RetriesExhausted), MaxAttempts;
      }
      i := i + 1;
    }
    assert FirstResponse(attempts, 0) == i;
    made := i + 1;
    r := Classify(client, response.status, response.body);
  }

  /** Three exceptions in a row, and only then, make the fetch fail for good. */
  lemma ExhaustedIff(client: Client, attempts: seq<Attempt>)
    requires MaxAttempts <= |attempts|
    ensures FetchOutcome(client, attempts) == Failed(RetriesExhausted) <==>
      attempts[0].Raised? && attempts[1].Raised? && attempts[2].Raised?
  {
    var k := FirstResponse(attempts, 0);
    if k < MaxAttempts {
      assert Classify(client, attempts[k].status, attempts[k].body) != Failed(RetriesExhausted);
    }
  }

  /**
   * A tile is absent exactly when the first response is a 404 or has an
   * empty body; in particular an error status with an empty body is
   * "absent", because the body test runs before `raise_for_status`.
   */
  lemma AbsentIff(client: Client, attempts: seq<Attempt>)
    requires MaxAttempts <= |attempts|
    ensures FetchOutcome(client, attempts) == Absent <==>
      var k := FirstResponse(attempts, 0);
      k < MaxAttempts && (attempts[k].status == 404 || attempts[k].body == [])
  {
  }

  /**
   * A response with an error status and a body fails at once: no further
   * attempt is made, whatever the later attempts would have returned.
   */
  lemma HttpErrorNotRetried(client: Client, attempts: seq<Attempt>, k: nat)
    requires MaxAttempts <= |attempts| && k < MaxAttempts
    requires forall j :: 0 <= j < k ==> attempts[j].Raised?
    requires attempts[k].Responded? && attempts[k].status != 404 && attempts[k].body != []
    requires RaisesForStatus(client, attempts[k].status)
    ensures FetchOutcome(client, attempts) == Failed(HttpStatus(attempts[k].status))
    ensures AttemptsMade(attempts) == k + 1
  {
    FirstResponseIs(attempts, 0, k);
  }

  /** Transient failures before a good response are invisible to the caller. */
  lemma RetryIsTransparent(client: Client, attempts: seq<Attempt>, k: nat)
    requires MaxAttempts <= |attempts| && k < MaxAttempts
    requires forall j :: 0 <= j < k ==> attempts[j].Raised?
    requires attempts[k].Responded? && attempts[k].status != 404 && attempts[k].body != []
    requires !RaisesForStatus(client, attempts[k].status)
    ensures FetchOutcome(client, attempts) == Content(attempts[k].body)
  {
    FirstResponseIs(attempts, 0, k);
  }

  lemma {:induction false} FirstResponseIs(attempts: seq<Attempt>, from: nat, k: nat)
    requires from <= k < MaxAttempts <= |attempts|
    requires forall j :: from <= j < k ==> attempts[j].Raised?
    requires attempts[k].Responded?
    ensures FirstResponse(attempts, from) == k
    decreases k - from
  {
    if from < k {
      FirstResponseIs(attempts, from + 1, k);
    }
  }
}
