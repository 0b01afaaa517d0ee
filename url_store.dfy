/**
 The two route handlers of index.js as they run: step by step, against a store
 whose state is changed in place. The fields of `Store` are the two MongoDB
 collections the handlers touch. The handler methods `Create` and `Resolve` are
 proved to agree with the functions of the same names in module Shortener;
 `IncrementCounter` and `SaveUrl` are the two store operations `Create` is built
 from, each specified by the new state it leaves.
 */
module UrlStore {
  import opened UrlCheck
  import opened Shortener

  class Store {
    /** `sequence_value` of the `Counter` document `shortUrlCounter`; `None` while
        no such document exists. */
    var counter: Option<nat>
    /** The `Url` collection: `shortUrl` to `originalUrl`. */
    var urls: map<int, string>

    /** The current contents of both collections, as a value. */
    function Snapshot(): Db
      reads this
    {
      Db(counter, urls)
    }

    ghost predicate Valid()
      reads this
    {
      Shortener.Valid(Snapshot())
    }

    /** A store with neither collection populated. */
    constructor ()
      ensures Valid() && Snapshot() == Empty
    {
      counter := None;
      urls := map[];
    }

    /** `Counter.findOneAndUpdate` with `$inc: {sequence_value: 1}`, `upsert: true`
        and `new: true` (index.js:77-82): a missing document is created with the
        default 0 and incremented, and the value after the increment is returned. */
    method IncrementCounter() returns (v: nat)
      modifies this
      ensures v == old(SequenceValue(Snapshot())) + 1
      ensures counter == Some(v) && urls == old(urls)
      ensures old(Valid()) ==> Valid()
    {
      var current := match counter case None => 0 case Some(x) => x;
      v := current + 1;
      counter := Some(v);
    }

    /** `new Url({ originalUrl, shortUrl }).save()` (index.js:85-86). The unique
        index on `shortUrl` (index.js:34) refuses a duplicate: a refused save
        writes nothing. A step of `Create`, which saves only the value the counter
        has just handed out; such a save keeps the store valid. */
    method SaveUrl(shortUrl: int, originalUrl: string) returns (saved: bool)
      modifies this
      ensures saved <==> shortUrl !in old(urls)
      ensures urls == if saved then old(urls)[shortUrl := originalUrl] else old(urls)
      ensures counter == old(counter)
      ensures old(Valid()) && 1 <= shortUrl <= SequenceValue(Snapshot()) ==> Valid()
    {
      saved := shortUrl !in urls;
      if saved {
        urls := urls[shortUrl := originalUrl];
      }
    }

    /** The `POST /api/shorturl` handler (index.js:58-96). `parses` is whether
        `new URL(url)` succeeds, `hostResolves` whether `dns.lookup` succeeds on the
        parsed hostname. The save never meets the unique index, because the new
        counter value exceeds every stored code, so a reply is always sent. */
    method Create(url: string, parses: bool, hostResolves: bool) returns (r: CreateResponse)
      requires Valid()
      modifies this
      ensures Valid()
      ensures (Snapshot(), r) == Shortener.Create(old(Snapshot()), CreateRequest(url, parses, hostResolves))
      ensures !r.NoReply?
      ensures r.Rejected? ==> Snapshot() == old(Snapshot())
      ensures r.Created? ==> r.originalUrl == url && Shortener.Resolve(Snapshot(), r.shortUrl) == Redirect(url)
    {
      if !parses {
        return Rejected(InvalidUrl);
      }
      if !HasHttpScheme(url) {
        return Rejected(InvalidUrl);
      }
      if !hostResolves {
        return Rejected(InvalidHostname);
      }
      var shortUrl := IncrementCounter();
      var saved := SaveUrl(shortUrl, url);
      if saved {
        r := Created(url, shortUrl);
      } else {
        r := NoReply;
      }
    }

    /** The `GET /api/shorturl/:shortUrl` handler (index.js:99-113): a read-only
        lookup of the code; a hit is the redirect target. It is here so that the
        live store can be queried (as `Scenario` does); its properties are proved
        about `Shortener.Resolve`, which it equals. */
    method Resolve(code: int) returns (r: ResolveResponse)
      ensures r == Shortener.Resolve(Snapshot(), code)
    {
      if code in urls {
        r := Redirect(urls[code]);
      } else {
        r := NotFound;
      }
    }
  }

  /** The end-to-end scenario: on a fresh store the first accepted URL gets code 1,
      and resolving 1 redirects to it; a later rejected URL changes nothing. */
  method Scenario() returns (first: CreateResponse, target: ResolveResponse, second: CreateResponse, again: ResolveResponse)
    ensures first == Created("https://www.freecodecamp.org", 1)
    ensures target == Redirect("https://www.freecodecamp.org")
    ensures second == Rejected(InvalidHostname)
    ensures again == target
  {
    var url := "https://www.freecodecamp.org";
    var unknown := "http://thisdomaindoesnotexist.invalidtld";
    SchemeAcceptances(url, unknown);
    var store := new Store();
    first := store.Create(url, true, true);
    target := store.Resolve(1);
    second := store.Create(unknown, true, false);
    again := store.Resolve(1);
  }
}
