/**
 The checks the `POST /api/shorturl` handler of index.js applies to a submitted
 URL before any short code is allocated: the URL must parse, must start with
 `http://` or `https://`, and its hostname must resolve. Parsing and name
 resolution are done by foreign code (the WHATWG `URL` class and `dns.lookup`),
 so their outcomes are inputs here; the scheme test is modelled exactly.
 */
module UrlCheck {

  /** `s` begins with `p`, compared character by character (so case-sensitively). */
  predicate StartsWith(s: string, p: string)
    decreases p
  {
    p == [] || (s != [] && s[0] == p[0] && StartsWith(s[1..], p[1..]))
  }

  /** StartsWith is exactly the prefix relation on sequences. */
  lemma {:induction false} StartsWithIsPrefix(s: string, p: string)
    ensures StartsWith(s, p) <==> |p| <= |s| && s[..|p|] == p
    decreases p
  {
    if p != [] && s != [] {
      StartsWithIsPrefix(s[1..], p[1..]);
      if |p| <= |s| {
        assert s[..|p|] == [s[0]] + s[1..][..|p| - 1];
        assert p == [p[0]] + p[1..];
      }
    }
  }

  /** Matching `p + q` is matching `p` and then `q` on what follows it. */
  lemma {:induction false} StartsWithConcat(s: string, p: string, q: string)
    ensures StartsWith(s, p + q) <==> |p| <= |s| && StartsWith(s, p) && StartsWith(s[|p|..], q)
    decreases p
  {
    if p == [] {
      assert p + q == q;
      assert s[|p|..] == s;
    } else if s != [] {
      StartsWithConcat(s[1..], p[1..], q);
      assert (p + q)[1..] == p[1..] + q;
      if |p| <= |s| {
        assert s[1..][|p| - 1..] == s[|p|..];
      }
    }
  }

  /** The format test at index.js:66-67: the string starts with `http://` or `https://`. */
  predicate HasHttpScheme(s: string) {
    StartsWith(s, "http://") || StartsWith(s, "https://")
  }

  /** One way for the regular expression `^(http|https)(:\/\/)` to match: the first
      group takes the alternative `alt` at the start of `s` and the second group
      (the literal `://`) follows it. */
  predicate GroupsMatch(s: string, alt: string) {
    |alt| <= |s| && StartsWith(s, alt) && StartsWith(s[|alt|..], "://")
  }

  /** The regular expression of index.js:66 as written: anchored at the start,
      either alternative of the first group, then the second group. */
  predicate MatchesHttpRegex(s: string) {
    GroupsMatch(s, "http") || GroupsMatch(s, "https")
  }

  /** The regular expression and the prefix predicate accept the same strings. */
  lemma HttpRegexIsPrefixTest(s: string)
    ensures MatchesHttpRegex(s) <==> HasHttpScheme(s)
  {
    assert "http" + "://" == "http://";
    assert "https" + "://" == "https://";
    StartsWithConcat(s, "http", "://");
    StartsWithConcat(s, "https", "://");
  }

  /** The test is lenient: whatever follows the scheme is accepted, so there is
      no host, dot or top-level-domain requirement. */
  lemma SchemeIgnoresRest(rest: string)
    ensures HasHttpScheme("http://" + rest)
    ensures HasHttpScheme("https://" + rest)
  {
    StartsWithIsPrefix("http://" + rest, "http://");
    StartsWithIsPrefix("https://" + rest, "https://");
  }

  /** A string that is empty or does not begin with a lower-case `h` is rejected;
      in particular `HTTP://...` and `Https://...` fail, since the comparison is
      case-sensitive, and so do other schemes such as `ftp://...` and bare hosts
      such as `www.example.com`. */
  lemma SchemeNeedsLeadingH(s: string)
    requires s == [] || s[0] != 'h'
    ensures !HasHttpScheme(s)
  {
  }

  /** Two well-formed inputs: a resolvable site and a name with no such domain;
      both pass the format test, which leaves the hostname to the DNS check. */
  lemma SchemeAcceptances(site: string, unknown: string)
    requires site == "https://www.freecodecamp.org"
    requires unknown == "http://thisdomaindoesnotexist.invalidtld"
    ensures HasHttpScheme(site) && HasHttpScheme(unknown)
  {
    assert site == "https://" + site[8..];
    assert unknown == "http://" + unknown[7..];
    SchemeIgnoresRest(site[8..]);
    SchemeIgnoresRest(unknown[7..]);
  }

  /** The separator must be the full `://`: `http:/` followed by anything but a
      second `/` fails, so does the same with `https`. */
  lemma SchemeNeedsFullSeparator(s: string, k: nat)
    requires k == 4 || k == 5
    requires |s| >= k + 2 && s[..k] == "https"[..k] && s[k] == ':' && s[k + 1] == '/'
    requires |s| == k + 2 || s[k + 2] != '/'
    ensures !HasHttpScheme(s)
  {
    StartsWithIsPrefix(s, "http://");
    StartsWithIsPrefix(s, "https://");
    if k == 4 {
      assert |s| >= 7 ==> s[..7][6] != "http://"[6];
      assert |s| >= 8 ==> s[..8][4] != "https://"[4];
    } else {
      assert |s| >= 7 ==> s[..7][5] != "http://"[5];
      assert |s| >= 8 ==> s[..8][7] != "https://"[7];
    }
  }

  /** Why a submitted URL is turned away; the handler answers with `ErrorMessage`. */
  datatype CreateError = InvalidUrl | InvalidHostname

  /** The `error` field of the JSON reply (index.js:68, 73, 94). */
  function ErrorMessage(e: CreateError): string {
    match e
    case InvalidUrl => "Invalid URL"
    case InvalidHostname => "Invalid Hostname"
  }

  /** Outcome of the three checks, in the order the handler runs them. */
  datatype Check = Pass | Fail(error: CreateError)

  /** The checks of index.js:62-74. `parses` is whether `new URL(url)` succeeded
      (a failure throws into the catch at index.js:93-94); `hostResolves` is whether
      `dns.lookup` on the parsed hostname succeeded. The lookup is only consulted
      once the first two checks have passed. */
  function Validate(url: string, parses: bool, hostResolves: bool): (r: Check)
    ensures r == Pass <==> parses && HasHttpScheme(url) && hostResolves
    ensures r == Fail(InvalidUrl) <==> !parses || !HasHttpScheme(url)
    ensures r == Fail(InvalidHostname) <==> parses && HasHttpScheme(url) && !hostResolves
  {
    if !parses then Fail(InvalidUrl)
    else if !HasHttpScheme(url) then Fail(InvalidUrl)
    else if !hostResolves then Fail(InvalidHostname)
    else Pass
  }
}
