/**
 The state machine behind the two `/api/shorturl` routes of index.js, on values.
 The store is a snapshot `Db` of the two MongoDB collections the handlers use:
 the `Counter` document `shortUrlCounter` and the `Url` collection. `Create` is
 the `POST` handler as one transition, `Resolve` the `GET` handler as a query.
 The class in module UrlStore runs the same steps in place and is proved to
 agree with these functions.
 */
module Shortener {
  import opened UrlCheck

  datatype Option<T> = None | Some(value: T)

  /** A snapshot of the store. `counter` is the `sequence_value` of the counter
      document, `None` while that document does not exist yet; `urls` maps each
      stored `shortUrl` to its `originalUrl` (the unique index on `shortUrl`
      makes the collection a function of it). */
  datatype Db = Db(counter: Option<nat>, urls: map<int, string>)

  /** The store before any request: no counter document, no mappings. */
  const Empty := Db(None, map[])

  /** The counter's value, with the schema default 0 for a missing document. */
  function SequenceValue(db: Db): nat {
    match db.counter
    case None => 0
    case Some(v) => v
  }

  /** Every stored short code was handed out by the counter: it lies in 1..counter.
      Since the counter only grows, a new code is then never already in use. */
  ghost predicate Valid(db: Db) {
    forall c :: c in db.urls ==> 1 <= c <= SequenceValue(db)
  }

  /** What the handler sends back: `{original_url, short_url}` or `{error}`.
      `NoReply` is the case where the unique index on `shortUrl` refuses the save
      (index.js:34, 86): the promise rejects inside the DNS callback and no reply is
      sent, although the counter has already been incremented. */
  datatype CreateResponse =
    | Created(originalUrl: string, shortUrl: nat)
    | Rejected(error: CreateError)
    | NoReply

  /** One `POST /api/shorturl` body together with what the foreign checks answer
      for it: whether `new URL` parses `url` and whether `dns.lookup` resolves its
      hostname. */
  datatype CreateRequest = CreateRequest(url: string, parses: bool, hostResolves: bool)

  /** The `POST /api/shorturl` handler (index.js:58-96): validate; on success
      increment the counter, upserting it from 0 (index.js:77-82), store the
      submitted string under the new value unless the unique index already holds
      it (index.js:85-86) and echo both (index.js:88-91). */
  function Create(db: Db, req: CreateRequest): (Db, CreateResponse) {
    match Validate(req.url, req.parses, req.hostResolves)
    case Fail(e) => (db, Rejected(e))
    case Pass =>
      var code := SequenceValue(db) + 1;
      if code in db.urls then (Db(Some(code), db.urls), NoReply)
      else (Db(Some(code), db.urls[code := req.url]), Created(req.url, code))
  }

  /** The reply of the `GET /api/shorturl/:shortUrl` handler. */
  datatype ResolveResponse = Redirect(target: string) | NotFound

  /** The `error` field of the not-found reply (index.js:108). */
  const NotFoundMessage := "No short URL found for the given input"

  /** The `GET /api/shorturl/:shortUrl` handler (index.js:99-113): look the code up. */
  function Resolve(db: Db, code: int): ResolveResponse {
    if code in db.urls then Redirect(db.urls[code]) else NotFound
  }

  // ---------------------------------------------------------------------------
  // One request

  /** A code the counter has not handed out yet (or never could: below 1) is not
      found on a valid store. */
  lemma UnissuedCodeNotFound(db: Db, c: int)
    requires Valid(db)
    requires c < 1 || c > SequenceValue(db)
    ensures Resolve(db, c) == NotFound
  {
  }

  /** A request is rejected exactly when one of the three checks fails; it then gets
      the error of the first check that failed and the store is left as it was. */
  lemma CreateRejection(db: Db, req: CreateRequest)
    ensures Create(db, req).1.Rejected? <==> Validate(req.url, req.parses, req.hostResolves) != Pass
    ensures !req.parses || !HasHttpScheme(req.url) ==> Create(db, req) == (db, Rejected(InvalidUrl))
    ensures req.parses && HasHttpScheme(req.url) && !req.hostResolves ==>
              Create(db, req) == (db, Rejected(InvalidHostname))
  {
  }

  /** On a valid store a request that passes the checks succeeds: the counter goes
      up by exactly one, the returned code is its new value, that code was not in
      use before (so the unique index never refuses the save), the submitted
      string is echoed and stored verbatim, and the table grows by exactly that one
      mapping. */
  lemma CreateAllocatesFreshCode(db: Db, req: CreateRequest)
    requires Valid(db)
    requires Validate(req.url, req.parses, req.hostResolves) == Pass
    ensures var (db', r) := Create(db, req);
      && r.Created?
      && r.shortUrl == SequenceValue(db) + 1 == SequenceValue(db')
      && r.shortUrl !in db.urls
      && r.originalUrl == req.url
      && db'.urls == db.urls[r.shortUrl := req.url]
      && |db'.urls| == |db.urls| + 1
  {
  }

  /** Create keeps every stored code inside 1..counter. */
  lemma CreatePreservesValid(db: Db, req: CreateRequest)
    requires Valid(db)
    ensures Valid(Create(db, req).0)
  {
  }

  /** The unique index: when the next counter value is already stored (which only
      a store that is not valid allows), the save is refused, the old mapping stays,
      no reply is sent, and the counter has still advanced. */
  lemma CreateDuplicateRefused(db: Db, req: CreateRequest)
    requires Validate(req.url, req.parses, req.hostResolves) == Pass
    requires SequenceValue(db) + 1 in db.urls
    ensures Create(db, req) == (Db(Some(SequenceValue(db) + 1), db.urls), NoReply)
  {
  }

  /** A mapping, once written, is never changed by a later create, on any store. */
  lemma CreateKeepsMappings(db: Db, req: CreateRequest, c: int)
    requires c in db.urls
    ensures Resolve(Create(db, req).0, c) == Resolve(db, c)
  {
  }

  /** Create followed by Resolve of the returned code gives back the submitted URL. */
  lemma CreateThenResolve(db: Db, req: CreateRequest)
    requires Create(db, req).1.Created?
    ensures Resolve(Create(db, req).0, Create(db, req).1.shortUrl) == Redirect(req.url)
  {
  }

  /** On a fresh store the first accepted URL gets short code 1. */
  lemma FirstCreateIsOne(req: CreateRequest)
    requires Validate(req.url, req.parses, req.hostResolves) == Pass
    ensures Create(Empty, req) == (Db(Some(1), map[1 := req.url]), Created(req.url, 1))
  {
  }

  // ---------------------------------------------------------------------------
  // A sequence of requests, served one after another

  /** Serve `reqs` in order, starting from `db`: the final store and the replies. */
  ghost function Run(db: Db, reqs: seq<CreateRequest>): (r: (Db, seq<CreateResponse>))
    ensures |r.1| == |reqs|
    decreases |reqs|
  {
    if reqs == [] then (db, [])
    else
      var (db1, r1) := Create(db, reqs[0]);
      var (db2, rs) := Run(db1, reqs[1..]);
      (db2, [r1] + rs)
  }

  /** The short codes handed out by a series of replies, in order. */
  function Codes(rs: seq<CreateResponse>): seq<nat> {
    if rs == [] then []
    else if rs[0].Created? then [rs[0].shortUrl] + Codes(rs[1..])
    else Codes(rs[1..])
  }

  lemma CodesCons(r: CreateResponse, rest: seq<CreateResponse>)
    ensures Codes([r] + rest) == if r.Created? then [r.shortUrl] + Codes(rest) else Codes(rest)
  {
    assert ([r] + rest)[1..] == rest;
  }

  /** The consecutive integers lo, lo + 1, ..., lo + n - 1. */
  function Range(lo: int, n: nat): seq<int>
    decreases n
  {
    if n == 0 then [] else [lo] + Range(lo + 1, n - 1)
  }

  lemma {:induction false} RangeAt(lo: int, n: nat, i: nat)
    requires i < n
    ensures |Range(lo, n)| == n && Range(lo, n)[i] == lo + i
    decreases n
  {
    if i > 0 {
      RangeAt(lo + 1, n - 1, i - 1);
    } else if n > 1 {
      RangeAt(lo + 1, n - 1, 0);
    }
  }

  /** On a valid store one request either hands out the next counter value or is
      rejected and changes nothing. */
  lemma CreateStep(db: Db, req: CreateRequest)
    requires Valid(db)
    ensures var (db1, r1) := Create(db, req);
      && Valid(db1)
      && ((r1.Created? && r1.shortUrl == SequenceValue(db1) == SequenceValue(db) + 1)
          || (r1.Rejected? && db1 == db))
  {
    CreatePreservesValid(db, req);
    if Validate(req.url, req.parses, req.hostResolves) == Pass {
      CreateAllocatesFreshCode(db, req);
    }
  }

  /** One request at the head of a series: the codes of the whole series are the
      code of the first reply, if any, followed by the codes of the rest. */
  lemma RunHeadCodes(db: Db, reqs: seq<CreateRequest>)
    requires Valid(db) && reqs != []
    ensures var step := Create(db, reqs[0]);
      var tail := Run(step.0, reqs[1..]);
      && Valid(step.0)
      && Run(db, reqs).0 == tail.0
      && Codes(Run(db, reqs).1)
         == (if step.1.Created? then [SequenceValue(db) + 1] else []) + Codes(tail.1)
      && SequenceValue(step.0) == SequenceValue(db) + (if step.1.Created? then 1 else 0)
  {
    var step := Create(db, reqs[0]);
    RunCons(db, reqs);
    CreateStep(db, reqs[0]);
    CodesCons(step.1, Run(step.0, reqs[1..]).1);
  }

  /** Over any series of requests the codes handed out are the next consecutive
      counter values, and the counter ends up advanced by their number. */
  lemma {:induction false} RunCodesConsecutive(db: Db, reqs: seq<CreateRequest>)
    requires Valid(db)
    ensures Codes(Run(db, reqs).1) == Range(SequenceValue(db) + 1, |Codes(Run(db, reqs).1)|)
    ensures SequenceValue(Run(db, reqs).0) == SequenceValue(db) + |Codes(Run(db, reqs).1)|
    decreases |reqs|
  {
    if reqs != [] {
      var step := Create(db, reqs[0]);
      RunHeadCodes(db, reqs);
      RunCodesConsecutive(step.0, reqs[1..]);
      if step.1.Created? {
        var n := SequenceValue(db);
        var k := |Codes(Run(step.0, reqs[1..]).1)|;
        assert Range(n + 1, k + 1) == [n + 1] + Range(n + 2, k);
      }
    }
  }

  lemma RunCons(db: Db, reqs: seq<CreateRequest>)
    requires reqs != []
    ensures Run(db, reqs)
         == (Run(Create(db, reqs[0]).0, reqs[1..]).0,
             [Create(db, reqs[0]).1] + Run(Create(db, reqs[0]).0, reqs[1..]).1)
  {
  }

  /** The number of requests in `reqs` that pass all three checks. */
  function Accepted(reqs: seq<CreateRequest>): nat {
    if reqs == [] then 0
    else (if Validate(reqs[0].url, reqs[0].parses, reqs[0].hostResolves) == Pass then 1 else 0)
         + Accepted(reqs[1..])
  }

  /** On a valid store the i-th reply of a series is decided by the i-th request's
      own checks: it is a new code exactly when they pass, and otherwise the error
      of the first check that failed. */
  lemma {:induction false} RunReplies(db: Db, reqs: seq<CreateRequest>, i: nat)
    requires Valid(db) && i < |reqs|
    ensures var rs := Run(db, reqs).1;
      var v := Validate(reqs[i].url, reqs[i].parses, reqs[i].hostResolves);
      && (rs[i].Created? <==> v == Pass)
      && (rs[i].Rejected? <==> v != Pass)
      && (v.Fail? ==> rs[i] == Rejected(v.error))
    decreases i
  {
    RunCons(db, reqs);
    CreateStep(db, reqs[0]);
    if i == 0 {
      CreateRejection(db, reqs[0]);
    } else {
      RunReplies(Create(db, reqs[0]).0, reqs[1..], i - 1);
      assert reqs[1..][i - 1] == reqs[i];
    }
  }

  /** On a valid store a series of requests hands out one code per request that
      passes the checks. */
  lemma {:induction false} RunCountsAccepted(db: Db, reqs: seq<CreateRequest>)
    requires Valid(db)
    ensures |Codes(Run(db, reqs).1)| == Accepted(reqs)
    decreases |reqs|
  {
    if reqs != [] {
      var step := Create(db, reqs[0]);
      RunCons(db, reqs);
      CreateStep(db, reqs[0]);
      CreateRejection(db, reqs[0]);
      RunCountsAccepted(step.0, reqs[1..]);
      CodesCons(step.1, Run(step.0, reqs[1..]).1);
    }
  }

  /** From a fresh store, the n URLs that pass the checks receive exactly the
      codes 1..n: no duplicates and no gaps. */
  lemma FreshStoreCodes(reqs: seq<CreateRequest>)
    ensures var codes := Codes(Run(Empty, reqs).1);
      && |codes| == Accepted(reqs)
      && (forall i :: 0 <= i < |codes| ==> codes[i] == i + 1)
      && (forall i, j :: 0 <= i < j < |codes| ==> codes[i] != codes[j])
      && SequenceValue(Run(Empty, reqs).0) == |codes|
  {
    RunCodesConsecutive(Empty, reqs);
    RunCountsAccepted(Empty, reqs);
    var codes := Codes(Run(Empty, reqs).1);
    forall i | 0 <= i < |codes| ensures codes[i] == i + 1 {
      RangeAt(1, |codes|, i);
    }
  }

  /** Every series of requests keeps the store valid. */
  lemma {:induction false} RunPreservesValid(db: Db, reqs: seq<CreateRequest>)
    requires Valid(db)
    ensures Valid(Run(db, reqs).0)
    decreases |reqs|
  {
    if reqs != [] {
      CreatePreservesValid(db, reqs[0]);
      RunPreservesValid(Create(db, reqs[0]).0, reqs[1..]);
    }
  }

  /** Mappings are immutable: later requests never change what a stored code resolves to. */
  lemma {:induction false} RunKeepsMappings(db: Db, reqs: seq<CreateRequest>, c: int)
    requires c in db.urls
    ensures Resolve(Run(db, reqs).0, c) == Resolve(db, c)
    decreases |reqs|
  {
    if reqs != [] {
      var db1 := Create(db, reqs[0]).0;
      CreateKeepsMappings(db, reqs[0], c);
      RunKeepsMappings(db1, reqs[1..], c);
    }
  }

  /** After a series of requests, every code handed out resolves to the URL that was
      submitted with it, and the table holds one new mapping per code handed out;
      on a valid store that is one per request that passes the checks. */
  lemma {:induction false} RunThenResolve(db: Db, reqs: seq<CreateRequest>)
    ensures var (db', rs) := Run(db, reqs);
      && (forall i :: 0 <= i < |rs| && rs[i].Created? ==>
            rs[i].originalUrl == reqs[i].url && Resolve(db', rs[i].shortUrl) == Redirect(reqs[i].url))
      && |db'.urls| == |db.urls| + |Codes(rs)|
      && (Valid(db) ==> |db'.urls| == |db.urls| + Accepted(reqs))
    decreases |reqs|
  {
    if Valid(db) {
      RunCountsAccepted(db, reqs);
    }
    if reqs != [] {
      var (db1, r1) := Create(db, reqs[0]);
      RunThenResolve(db1, reqs[1..]);
      var (db', rs) := Run(db, reqs);
      assert rs[1..] == Run(db1, reqs[1..]).1;
      if r1.Created? {
        assert r1.shortUrl !in db.urls && db1.urls == db.urls[r1.shortUrl := reqs[0].url];
        CreateThenResolve(db, reqs[0]);
        RunKeepsMappings(db1, reqs[1..], r1.shortUrl);
      }
      forall i | 1 <= i < |rs| && rs[i].Created?
        ensures rs[i].originalUrl == reqs[i].url && Resolve(db', rs[i].shortUrl) == Redirect(reqs[i].url)
      {
        assert rs[i] == rs[1..][i - 1];
        assert reqs[i] == reqs[1..][i - 1];
      }
    }
  }

  /** On a store reached from the empty one the unique index never refuses a save:
      every request gets a reply. */
  lemma FreshStoreAlwaysReplies(reqs: seq<CreateRequest>, i: nat)
    requires i < |reqs|
    ensures !Run(Empty, reqs).1[i].NoReply?
  {
    RunReplies(Empty, reqs, i);
  }

  /** Each code handed out comes from the reply to some request. */
  lemma {:induction false} CodeHasReply(rs: seq<CreateResponse>, j: nat) returns (i: nat)
    requires j < |Codes(rs)|
    ensures i < |rs| && rs[i].Created? && rs[i].shortUrl == Codes(rs)[j]
    decreases |rs|
  {
    if rs[0].Created? && j == 0 {
      i := 0;
    } else {
      var k := CodeHasReply(rs[1..], if rs[0].Created? then j - 1 else j);
      i := k + 1;
    }
  }

  /** Starting from a fresh store, after any series of requests a code is found
      exactly when it is one of the codes handed out, namely 1..n; every other
      code gets the not-found reply. */
  lemma FreshStoreResolvesIssued(reqs: seq<CreateRequest>, c: int)
    ensures var (db', rs) := Run(Empty, reqs);
      Resolve(db', c) != NotFound <==> 1 <= c <= |Codes(rs)|
  {
    var (db', rs) := Run(Empty, reqs);
    var codes := Codes(rs);
    RunPreservesValid(Empty, reqs);
    FreshStoreCodes(reqs);
    if 1 <= c <= |codes| {
      var i := CodeHasReply(rs, c - 1);
      RunThenResolve(Empty, reqs);
      assert rs[i].shortUrl == c;
    } else {
      UnissuedCodeNotFound(db', c);
    }
  }
}
