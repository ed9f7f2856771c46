/** The request gate of functions/_middleware.js (`onRequest`): the user id is
    read from the raw `Cookie` request header (RFC 6265, section 4.2.1) by an
    unanchored search for `discordId=` followed by decimal digits, and the
    request goes on only when the allow-list store holds a non-empty value for
    that id. The header is searched as text; it is not split into cookie pairs. */
module Middleware {
  import opened Common
  import opened Decimal

  const Key := "discordId="

  /** The regular expression `/discordId=(\d+)/` can match starting at `i`:
      the key is there and at least one digit follows it. */
  predicate MatchesAt(h: string, i: nat) {
    i + |Key| < |h| && h[i..i + |Key|] == Key && IsDigit(h[i + |Key|])
  }

  /** The leftmost position at or after `from` where a match starts. */
  function FirstMatch(h: string, from: nat): (r: Option<nat>)
    ensures r.Some? ==> from <= r.value && MatchesAt(h, r.value)
    ensures r.Some? ==> forall j :: from <= j < r.value ==> !MatchesAt(h, j)
    ensures r.None? ==> forall j :: from <= j ==> !MatchesAt(h, j)
    decreases |h| - from
  {
    if from + |Key| >= |h| then None
    else if MatchesAt(h, from) then Some(from)
    else FirstMatch(h, from + 1)
  }

  /** The end of the run of digits starting at `start`: `\d+` is greedy. */
  function DigitRunEnd(h: string, start: nat): (e: nat)
    requires start <= |h|
    ensures start <= e <= |h|
    ensures forall k :: start <= k < e ==> IsDigit(h[k])
    ensures e == |h| || !IsDigit(h[e])
    decreases |h| - start
  {
    if start < |h| && IsDigit(h[start]) then DigitRunEnd(h, start + 1) else start
  }

  /** `match ? match[1] : null`. */
  function ExtractId(h: string): (r: Option<string>)
    ensures r.Some? <==> exists i :: MatchesAt(h, i)
    ensures r.Some? ==> |r.value| >= 1 && AllDigits(r.value)
  {
    match FirstMatch(h, 0)
    case None => None
    case Some(i) => Some(h[i + |Key|..DigitRunEnd(h, i + |Key|)])
  }

  /** The parts of a request the gate reads: its URL and its `Cookie` header. */
  datatype Request = Request(url: string, cookie: Option<string>)

  /** `context.next()`, or a response built here. */
  datatype Response = Next | Deny(status: int, body: string, contentType: string)

  const Denial := Deny(403, "Access Denied", "text/plain")

  /** `await env.ALLOWED_USERS.get(id)` is truthy: the store has a value for the
      id and it is not the empty string. */
  predicate Allowed(store: map<string, string>, id: string) {
    id in store && store[id] != ""
  }

  /** `onRequest(context)`. The store is the key-value namespace seen as a map;
      a key it lacks reads as `null`. */
  function OnRequest(request: Request, store: map<string, string>): (r: Response)
    ensures r == Next || r == Denial
    ensures r == Next ==> request.cookie.Some?
  {
    var cookieHeader := request.cookie.GetOr("");
    var discordId := ExtractId(cookieHeader);
    // `if (discordId)`: a string is truthy when it is not empty, and an
    // extracted id never is, so this rejects only the `null` of no match.
    if discordId.Some? && discordId.value != "" && Allowed(store, discordId.value) then Next
    else Denial
  }

  // ---------------------------------------------------------------------------
  // Properties

  /** The id is the maximal run of digits after the leftmost occurrence of the
      key that is directly followed by a digit. */
  lemma ExtractedIdIsLeftmostMaximalRun(h: string)
    ensures match ExtractId(h)
      case None => forall i :: !MatchesAt(h, i)
      case Some(id) => exists i: nat ::
        && MatchesAt(h, i) && (forall j :: 0 <= j < i ==> !MatchesAt(h, j))
        && i + |Key| + |id| <= |h| && h[i + |Key|..i + |Key| + |id|] == id
        && (i + |Key| + |id| == |h| || !IsDigit(h[i + |Key| + |id|]))
  {
    match FirstMatch(h, 0)
    case None =>
    case Some(i) =>
      var e := DigitRunEnd(h, i + |Key|);
      assert ExtractId(h) == Some(h[i + |Key|..e]);
      assert i + |Key| + |h[i + |Key|..e]| == e;
  }

  /** The request goes on exactly when an id was extracted and the store holds
      a non-empty value for it; every other request gets the same denial. */
  lemma PassesExactlyWhenAllowed(request: Request, store: map<string, string>)
    ensures var id := ExtractId(request.cookie.GetOr(""));
      OnRequest(request, store) == Next <==> id.Some? && Allowed(store, id.value)
    ensures OnRequest(request, store) != Next ==> OnRequest(request, store) == Deny(403, "Access Denied", "text/plain")
  {
  }

  /** Without a `Cookie` header the request is denied. */
  lemma MissingCookieDenies(url: string, store: map<string, string>)
    ensures OnRequest(Request(url, None), store) == Denial
  {
    assert FirstMatch("", 0) == None;
  }

  /** The decision does not depend on the URL. */
  lemma UrlIsIgnored(url1: string, url2: string, cookie: Option<string>, store: map<string, string>)
    ensures OnRequest(Request(url1, cookie), store) == OnRequest(Request(url2, cookie), store)
  {
  }

  /** A stored empty string denies like a missing entry. */
  lemma EmptyStoredValueDenies(request: Request, store: map<string, string>)
    requires ExtractId(request.cookie.GetOr("")).Some?
    requires store[ExtractId(request.cookie.GetOr("")).value := ""] == store
    ensures OnRequest(request, store) == Denial
  {
    var id := ExtractId(request.cookie.GetOr("")).value;
    assert id in store && store[id] == "";
  }

  /** The key matches anywhere, including inside a longer cookie name. */
  lemma UnanchoredMatch()
    ensures ExtractId("xdiscordId=5") == Some("5")
  {
    var h := "xdiscordId=5";
    assert h[0..|Key|][0] == 'x';
    assert h[1..1 + |Key|] == Key;
    assert FirstMatch(h, 0) == Some(1);
    assert DigitRunEnd(h, 11) == 12;
    assert h[11..12] == "5";
  }

  /** An occurrence without a digit after it is passed over, and the digits
      stop at the first non-digit. */
  lemma SkipsKeyWithoutDigits()
    ensures ExtractId("discordId=a;discordId=42x") == Some("42")
  {
    NoMatchBeforeSecondKey();
    SecondKeyMatches();
    LeftmostMatch("discordId=a;discordId=42x", 12);
    SecondIdDigits();
  }

  /** The run of digits after the second key is `42`. */
  lemma SecondIdDigits()
    ensures DigitRunEnd("discordId=a;discordId=42x", 22) == 24
    ensures "discordId=a;discordId=42x"[22..24] == "42"
  {
    RunEndsAt("discordId=a;discordId=42x", 22, 24);
  }

  /** The first key is followed by a letter; nothing else before the second
      key spells it. */
  lemma NoMatchBeforeSecondKey()
    ensures forall j :: 0 <= j < 12 ==> !MatchesAt("discordId=a;discordId=42x", j)
  {
    var h := "discordId=a;discordId=42x";
    forall j | 0 <= j < 12 ensures !MatchesAt(h, j) {
      if j == 0 {
        assert !IsDigit(h[10]);
      } else if j == 6 || j == 8 {
        MismatchAt(h, j, 1);
      } else {
        MismatchAt(h, j, 0);
      }
    }
  }

  lemma SecondKeyMatches()
    ensures MatchesAt("discordId=a;discordId=42x", 12)
  {
    assert "discordId=a;discordId=42x"[12..22] == Key;
  }

  /** A character that differs from the key rules out a match. */
  lemma MismatchAt(h: string, j: nat, d: nat)
    requires d < |Key| && j + d < |h| && h[j + d] != Key[d]
    ensures !MatchesAt(h, j)
  {
    if j + |Key| <= |h| {
      assert h[j..j + |Key|][d] == h[j + d];
    }
  }

  /** A match with none before it is the one the search finds. */
  lemma LeftmostMatch(h: string, i: nat)
    requires MatchesAt(h, i) && forall j :: 0 <= j < i ==> !MatchesAt(h, j)
    ensures FirstMatch(h, 0) == Some(i)
  {
  }

  /** A run of digits ends at the first non-digit. */
  lemma RunEndsAt(h: string, start: nat, e: nat)
    requires start <= e < |h| && !IsDigit(h[e])
    requires forall k :: start <= k < e ==> IsDigit(h[k])
    ensures DigitRunEnd(h, start) == e
  {
  }
}
