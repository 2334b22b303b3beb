/** The HamQTH callsign lookup, parsing and cache part: the tag extractors
    that read the service's XML replies, the reply parsing, and the
    in-memory cache keyed by the upper-cased callsign whose entries live
    24 hours. The HTTP exchange is a parameter: the reply text, if any. */
module HamQth {
  import opened Common
  import opened Text

  /** `CACHE_TTL`: 24 hours, in milliseconds. */
  const CacheTtlMillis := 86_400_000

  /** A tag name holding neither `<` nor `/`, as every tag the adapter reads. */
  predicate PlainTag(tag: string) {
    |tag| > 0 && forall i | 0 <= i < |tag| :: tag[i] != '<' && tag[i] != '/'
  }

  type Tag = t: string | PlainTag(t) witness "nick"

  const SessionIdTag: Tag := "session_id"
  const NickTag: Tag := "nick"
  const AdrNameTag: Tag := "adr_name"
  const AdrCityTag: Tag := "adr_city"
  const GridTag: Tag := "grid"
  const CountryTag: Tag := "country"

  /** The message of the `SessionExpiredException` a reply without a
      session id raises. */
  const SessionIdMissing := "Failed to parse session ID from HamQTH response"

  function StartTag(tag: string): string {
    "<" + tag + ">"
  }

  function EndTag(tag: string): string {
    "</" + tag + ">"
  }

  /** A first end tag found after the first start tag lies beyond the whole
      start tag, so the text between them is well defined. */
  lemma EndTagAfterStartTag(xml: string, tag: string, start: int, end: int)
    requires PlainTag(tag)
    requires OccursAt(xml, StartTag(tag), start) && OccursAt(xml, EndTag(tag), end) && start < end
    ensures start + |StartTag(tag)| <= end
  {
    var open := StartTag(tag);
    assert forall j | 1 <= j < |open| :: open[j] != '<' by {
      forall j | 1 <= j < |open| ensures open[j] != '<' {
        if j <= |tag| {
          assert open[j] == tag[j - 1];
        }
      }
    }
    assert xml[end..end + |EndTag(tag)|][0] == '<';
    assert xml[end] == '<';
    assert forall j | 1 <= j < |open| :: xml[start + j] == open[j] by {
      forall j | 1 <= j < |open| ensures xml[start + j] == open[j] {
        assert xml[start..start + |open|][j] == open[j];
      }
    }
  }

  /** The untrimmed text between the first start tag and the first end tag,
      when the end tag comes after the start tag. */
  function ElementText(xml: string, tag: Tag): (r: Option<string>)
    ensures r.None? <==> !(0 <= IndexOf(xml, StartTag(tag)) < IndexOf(xml, EndTag(tag)))
    ensures r.Some? ==>
      var start, end := IndexOf(xml, StartTag(tag)), IndexOf(xml, EndTag(tag));
      start + |StartTag(tag)| <= end && r.value == xml[start + |StartTag(tag)|..end]
  {
    var start := IndexOf(xml, StartTag(tag));
    var end := IndexOf(xml, EndTag(tag));
    if start >= 0 && end > start then
      EndTagAfterStartTag(xml, tag, start, end);
      Some(xml[start + |StartTag(tag)|..end])
    else None
  }

  /** `extractXmlValue`: the element text, trimmed. */
  function ExtractXmlValue(xml: string, tag: Tag): (r: Option<string>)
    ensures r.None? <==> !(0 <= IndexOf(xml, StartTag(tag)) < IndexOf(xml, EndTag(tag)))
    ensures r.Some? ==>
      var start, end := IndexOf(xml, StartTag(tag)), IndexOf(xml, EndTag(tag));
      start + |StartTag(tag)| <= end && r.value == Trim(xml[start + |StartTag(tag)|..end])
    ensures r.Some? ==> r.value == [] || (r.value[0] > ' ' && r.value[|r.value| - 1] > ' ')
  {
    var text := ElementText(xml, tag);
    if text.None? then None else Some(Trim(text.value))
  }

  /** The first occurrence is the one `indexOf` reports. */
  lemma FirstOccurrence(s: string, sub: string, p: int)
    requires OccursAt(s, sub, p)
    requires forall k | 0 <= k < p :: !OccursAt(s, sub, k)
    ensures IndexOf(s, sub) == p
  {
  }

  /** Both tags hold `<` only as their first character; the start tag's
      second character is not the end tag's `/`. */
  lemma TagShape(tag: Tag)
    ensures forall j | 1 <= j < |StartTag(tag)| :: StartTag(tag)[j] != '<'
    ensures forall j | 1 <= j < |EndTag(tag)| :: EndTag(tag)[j] != '<'
    ensures StartTag(tag)[1] != EndTag(tag)[1]
  {
    var open, close := StartTag(tag), EndTag(tag);
    forall j | 1 <= j < |open| ensures open[j] != '<' {
      if j <= |tag| {
        assert open[j] == tag[j - 1];
      }
    }
    forall j | 1 <= j < |close| ensures close[j] != '<' {
      if 2 <= j <= |tag| + 1 {
        assert close[j] == tag[j - 2];
      }
    }
    assert open[1] == tag[0];
  }

  /** A mismatching character at offset `j` rules out an occurrence at `k`. */
  lemma MismatchNotOccurs(s: string, sub: string, k: int, j: int)
    requires 0 <= k && 0 <= j < |sub| && k + j < |s| && s[k + j] != sub[j]
    ensures !OccursAt(s, sub, k)
  {
    if k + |sub| <= |s| {
      assert s[k..k + |sub|][j] == s[k + j];
    }
  }

  /** A span lying inside a part that does not hold `sub` is no occurrence. */
  lemma PartNotOccurs(s: string, sub: string, k: int, from: int, to: int)
    requires 0 <= from <= k && k + |sub| <= to <= |s|
    requires !Contains(s[from..to], sub)
    ensures !OccursAt(s, sub, k)
  {
    var part := s[from..to];
    assert !OccursAt(part, sub, k - from);
    var a, b := part[k - from..k - from + |sub|], s[k..k + |sub|];
    forall i | 0 <= i < |sub| ensures a[i] == b[i] {
      assert a[i] == part[k - from + i] == s[k + i];
    }
    assert a == b;
  }

  /** A text holding `<` only first cannot occur at `k` when a `<` stands
      at `p`, strictly inside the span it would cover. */
  lemma NoOccurrenceAcross(s: string, sub: string, k: int, p: int)
    requires 0 <= k < p < |s| && s[p] == '<'
    requires forall j | 1 <= j < |sub| :: sub[j] != '<'
    requires p < k + |sub|
    ensures !OccursAt(s, sub, k)
  {
    MismatchNotOccurs(s, sub, k, p - k);
  }

  /** An element is found when the text before it holds neither of its tags
      and its content holds no end tag; the element's own text is read back
      exactly, whatever comes before and after it. */
  lemma ElementTextReadsBack(pre: string, tag: Tag, content: string, post: string)
    requires !Contains(pre, StartTag(tag)) && !Contains(pre, EndTag(tag))
    requires !Contains(content, EndTag(tag))
    ensures ElementText(pre + StartTag(tag) + content + EndTag(tag) + post, tag) == Some(content)
  {
    var open, close := StartTag(tag), EndTag(tag);
    var xml := pre + open + content + close + post;
    var p, q := |pre|, |pre| + |open| + |content|;
    FirstStartTag(pre, tag, content, post);
    FirstEndTag(pre, tag, content, post);
    assert xml[p + |open|..q] == content;
  }

  /** The first start tag is the element's own. */
  lemma FirstStartTag(pre: string, tag: Tag, content: string, post: string)
    requires !Contains(pre, StartTag(tag))
    ensures IndexOf(pre + StartTag(tag) + content + EndTag(tag) + post, StartTag(tag)) == |pre|
  {
    var open := StartTag(tag);
    var xml := pre + open + content + EndTag(tag) + post;
    var p := |pre|;
    assert xml[0..p] == pre;
    assert xml[p..p + |open|] == open;
    assert xml[p..p + |open|][0] == xml[p];
    TagShape(tag);
    forall k | 0 <= k < p ensures !OccursAt(xml, open, k) {
      if k + |open| <= p {
        PartNotOccurs(xml, open, k, 0, p);
      } else {
        NoOccurrenceAcross(xml, open, k, p);
      }
    }
    FirstOccurrence(xml, open, p);
  }

  /** The first end tag is the element's own. */
  lemma FirstEndTag(pre: string, tag: Tag, content: string, post: string)
    requires !Contains(pre, EndTag(tag)) && !Contains(content, EndTag(tag))
    ensures IndexOf(pre + StartTag(tag) + content + EndTag(tag) + post, EndTag(tag))
      == |pre| + |StartTag(tag)| + |content|
  {
    var open, close := StartTag(tag), EndTag(tag);
    var xml := pre + open + content + close + post;
    var p, q := |pre|, |pre| + |open| + |content|;
    assert xml[0..p] == pre;
    assert xml[p..p + |open|] == open;
    assert xml[p + |open|..q] == content;
    assert xml[q..q + |close|] == close;
    forall k | 0 <= k < q ensures !OccursAt(xml, close, k) {
      if k + |close| <= p {
        PartNotOccurs(xml, close, k, 0, p);
      } else if p + |open| <= k && k + |close| <= q {
        PartNotOccurs(xml, close, k, p + |open|, q);
      } else {
        NoEndTagBefore(xml, tag, p, q, k);
      }
    }
    FirstOccurrence(xml, close, q);
  }

  /** No end tag starts across the start tag at `p` or across the end tag at
      `q`: each holds `<` only first, and the start tag's second character is
      not `/`. */
  lemma NoEndTagBefore(xml: string, tag: Tag, p: int, q: int, k: int)
    requires 0 <= p && p + |StartTag(tag)| <= q && q + |EndTag(tag)| <= |xml|
    requires xml[p..p + |StartTag(tag)|] == StartTag(tag)
    requires xml[q..q + |EndTag(tag)|] == EndTag(tag)
    requires 0 <= k < q
    requires !(k + |EndTag(tag)| <= p) && !(p + |StartTag(tag)| <= k && k + |EndTag(tag)| <= q)
    ensures !OccursAt(xml, EndTag(tag), k)
  {
    var open, close := StartTag(tag), EndTag(tag);
    TagShape(tag);
    assert xml[p..p + |open|][0] == xml[p];
    assert xml[q..q + |close|][0] == xml[q];
    if k < p {
      NoOccurrenceAcross(xml, close, k, p);
    } else if k == p {
      assert xml[p..p + |open|][1] == xml[p + 1];
      MismatchNotOccurs(xml, close, k, 1);
    } else if k < p + |open| {
      assert xml[p..p + |open|][k - p] == xml[k];
      MismatchNotOccurs(xml, close, k, 0);
    } else {
      NoOccurrenceAcross(xml, close, k, q);
    }
  }

  /** The value of an element is its trimmed text. */
  lemma ExtractXmlValueReadsBack(pre: string, tag: Tag, content: string, post: string)
    requires !Contains(pre, StartTag(tag)) && !Contains(pre, EndTag(tag))
    requires !Contains(content, EndTag(tag))
    ensures ExtractXmlValue(pre + StartTag(tag) + content + EndTag(tag) + post, tag) == Some(Trim(content))
  {
    ElementTextReadsBack(pre, tag, content, post);
  }

  /** An end tag ahead of every start tag hides any later element. */
  lemma EarlierEndTagHidesElement(tag: Tag, rest: string)
    ensures ExtractXmlValue(EndTag(tag) + rest, tag) == None
  {
    var xml := EndTag(tag) + rest;
    assert OccursAt(xml, EndTag(tag), 0);
    FirstOccurrence(xml, EndTag(tag), 0);
  }

  /** The error `parseSessionId` raises. */
  datatype LookupError = SessionExpired(message: string)

  /** `parseSessionId`: the untrimmed text of the first `session_id`
      element, or `SessionExpiredException` without one. */
  function ParseSessionId(xml: string): (r: Result<string, LookupError>)
    ensures r.Ok? <==> 0 <= IndexOf(xml, "<session_id>") < IndexOf(xml, "</session_id>")
    ensures r.Ok? ==>
      var start, end := IndexOf(xml, "<session_id>"), IndexOf(xml, "</session_id>");
      start + 12 <= end && r.value == xml[start + 12..end]
    ensures r.Err? ==> r.error == SessionExpired(SessionIdMissing)
  {
    var start := IndexOf(xml, "<session_id>");
    var end := IndexOf(xml, "</session_id>");
    if start >= 0 && end > start then
      SessionTagsAreTags();
      EndTagAfterStartTag(xml, SessionIdTag, start, end);
      Ok(xml[start + 12..end])
    else Err(SessionExpired(SessionIdMissing))
  }

  /** The literal tags and the fixed offset 12 agree with the tag name. */
  lemma SessionTagsAreTags()
    ensures StartTag(SessionIdTag) == "<session_id>" && EndTag(SessionIdTag) == "</session_id>"
    ensures |StartTag(SessionIdTag)| == 12
  {
  }

  /** The session id is the element's text exactly, blanks included. */
  lemma SessionIdReadsBack(pre: string, id: string, post: string)
    requires !Contains(pre, "<session_id>") && !Contains(pre, "</session_id>")
    requires !Contains(id, "</session_id>")
    ensures ParseSessionId(pre + "<session_id>" + id + "</session_id>" + post) == Ok(id)
  {
    SessionTagsAreTags();
    ElementTextReadsBack(pre, SessionIdTag, id, post);
  }

  /** `CallsignLookupResponse`. */
  datatype CallsignLookupResponse = CallsignLookupResponse(
    callsign: string,
    name: Option<string>,
    qth: Option<string>,
    grid: Option<string>,
    country: Option<string>)

  /** The name: the nick, or `adr_name` when the nick is missing or empty. */
  function NameOf(xml: string): (r: Option<string>)
    ensures var nick := ExtractXmlValue(xml, NickTag);
      && (nick.Some? && nick.value != [] ==> r == nick)
      && (nick.None? || nick.value == [] ==> r == ExtractXmlValue(xml, AdrNameTag))
  {
    var nick := ExtractXmlValue(xml, NickTag);
    if nick.None? || nick.value == [] then ExtractXmlValue(xml, AdrNameTag) else nick
  }

  /** `parseCallsignData`: nothing when neither a name, a city, a grid nor a
      country is found; otherwise those four for the callsign. */
  function ParseCallsignData(callsign: string, xml: string): (r: Option<CallsignLookupResponse>)
    ensures r.None? <==> NameOf(xml).None? && ExtractXmlValue(xml, AdrCityTag).None?
                         && ExtractXmlValue(xml, GridTag).None? && ExtractXmlValue(xml, CountryTag).None?
    ensures r.Some? ==>
      && r.value.callsign == callsign && r.value.name == NameOf(xml)
      && r.value.qth == ExtractXmlValue(xml, AdrCityTag)
      && r.value.grid == ExtractXmlValue(xml, GridTag)
      && r.value.country == ExtractXmlValue(xml, CountryTag)
  {
    var name := NameOf(xml);
    var qth := ExtractXmlValue(xml, AdrCityTag);
    var grid := ExtractXmlValue(xml, GridTag);
    var country := ExtractXmlValue(xml, CountryTag);
    if name.None? && qth.None? && grid.None? && country.None? then None
    else Some(CallsignLookupResponse(callsign, name, qth, grid, country))
  }

  /** A reply holding a non-blank nick element, with neither nick tag
      before it, is named by the trimmed nick, whatever other elements
      come before or after it. */
  lemma NickNamesTheResponse(callsign: string, pre: string, nick: string, post: string)
    requires !Contains(pre, StartTag(NickTag)) && !Contains(pre, EndTag(NickTag))
    requires !Contains(nick, EndTag(NickTag)) && Trim(nick) != []
    ensures var r := ParseCallsignData(callsign, pre + StartTag(NickTag) + nick + EndTag(NickTag) + post);
      r.Some? && r.value.callsign == callsign && r.value.name == Some(Trim(nick))
  {
    ExtractXmlValueReadsBack(pre, NickTag, nick, post);
  }

  // The cache

  /** `CachedLookup`: a response and the instant, in milliseconds, it
      expires. */
  datatype CachedLookup = CachedLookup(response: CallsignLookupResponse, expiryTime: int)

  /** `isExpired`: strictly past the expiry time. */
  predicate IsExpired(entry: CachedLookup, now: int) {
    now > entry.expiryTime
  }

  /** The cache key of a callsign: the callsign upper-cased. */
  function CacheKey(callsign: string): (key: string)
    ensures |key| == |callsign| && forall i | 0 <= i < |key| :: key[i] == UpperChar(callsign[i])
    ensures ToUpper(key) == key
  {
    ToUpper(callsign)
  }

  /** The cache check of `lookup`: the stored response when the entry is
      present and not expired. */
  function CacheHit(cache: map<string, CachedLookup>, key: string, now: int): (r: Option<CallsignLookupResponse>)
    ensures r.Some? <==> key in cache && now <= cache[key].expiryTime
    ensures r.Some? ==> r.value == cache[key].response
  {
    if key in cache && !IsExpired(cache[key], now) then Some(cache[key].response) else None
  }

  /** `cacheResponse`: a present response is stored for 24 hours; a missing
      one changes nothing. */
  function CacheResponse(cache: map<string, CachedLookup>, key: string, response: Option<CallsignLookupResponse>,
                         now: int): (m: map<string, CachedLookup>)
    ensures response.None? ==> m == cache
    ensures response.Some? ==>
      && m.Keys == cache.Keys + {key}
      && m[key] == CachedLookup(response.value, now + CacheTtlMillis)
      && forall k | k in cache && k != key :: m[k] == cache[k]
  {
    if response.Some? then cache[key := CachedLookup(response.value, now + CacheTtlMillis)] else cache
  }

  /** A cached response is served for 24 hours from caching, up to and
      including the expiry instant, and not after. */
  lemma CachedResponseLivesOneDay(cache: map<string, CachedLookup>, key: string, response: CallsignLookupResponse,
                                  now: int, later: int)
    requires now <= later
    ensures var m := CacheResponse(cache, key, Some(response), now);
      && (later <= now + CacheTtlMillis ==> CacheHit(m, key, later) == Some(response))
      && (later > now + CacheTtlMillis ==> CacheHit(m, key, later) == None)
  {
  }

  /** Caching one callsign leaves the hits of every other key as they were. */
  lemma CachingKeepsOtherKeys(cache: map<string, CachedLookup>, key: string, response: Option<CallsignLookupResponse>,
                              now: int, other: string, later: int)
    requires other != key
    ensures CacheHit(CacheResponse(cache, key, response, now), other, later) == CacheHit(cache, other, later)
  {
  }

  /** Callsigns that differ only in letter case share one cache entry. */
  lemma CacheKeyIgnoresCase(a: string, b: string)
    requires EqualsIgnoreCase(a, b)
    ensures CacheKey(a) == CacheKey(b)
  {
    assert |a| == |ToLower(a)| == |ToLower(b)| == |b|;
    forall i | 0 <= i < |a| ensures UpperChar(a[i]) == UpperChar(b[i]) {
      assert ToLower(a)[i] == ToLower(b)[i];
    }
  }

  /** Every key is upper case. */
  predicate UpperCaseKeys(cache: map<string, CachedLookup>) {
    forall k | k in cache :: ToUpper(k) == k
  }

  /** The caching half of `lookup`: the reply to the service request (none
      when the session or the request failed) is parsed, and a response is
      cached under the normalised callsign. The clock is read twice: `now`
      by the cache check, `stamp` by `cacheResponse` once the reply is in. */
  function LookupOutcome(cache: map<string, CachedLookup>, callsign: string, now: int, reply: Option<string>,
                         stamp: int): (r: (Option<CallsignLookupResponse>, map<string, CachedLookup>))
    ensures var key := CacheKey(callsign);
      && (CacheHit(cache, key, now).Some? ==> r == (CacheHit(cache, key, now), cache))
      && (CacheHit(cache, key, now).None? && reply.None? ==> r == (None, cache))
      && (CacheHit(cache, key, now).None? && reply.Some? ==>
            && r.0 == ParseCallsignData(key, reply.value)
            && r.1 == CacheResponse(cache, key, r.0, stamp))
  {
    var key := CacheKey(callsign);
    var cached := CacheHit(cache, key, now);
    if cached.Some? then (cached, cache)
    else
      var response := if reply.Some? then ParseCallsignData(key, reply.value) else None;
      (response, CacheResponse(cache, key, response, stamp))
  }

  /** Lookups keep every key upper case. */
  lemma LookupKeepsKeysUpperCase(cache: map<string, CachedLookup>, callsign: string, now: int, reply: Option<string>,
                                 stamp: int)
    requires UpperCaseKeys(cache)
    ensures UpperCaseKeys(LookupOutcome(cache, callsign, now, reply, stamp).1)
  {
  }

  /** A response fetched from the service is served from the cache, without
      asking the service again, to any spelling of the callsign for the next
      24 hours after it was stamped. */
  lemma FetchedResponseServedForOneDay(cache: map<string, CachedLookup>, callsign: string, now: int,
                                       reply: Option<string>, stamp: int, again: string, later: int,
                                       laterReply: Option<string>, laterStamp: int)
    requires CacheHit(cache, CacheKey(callsign), now).None?
    requires EqualsIgnoreCase(callsign, again) && stamp <= later <= stamp + CacheTtlMillis
    ensures var (r, m) := LookupOutcome(cache, callsign, now, reply, stamp);
      r.Some? ==> LookupOutcome(m, again, later, laterReply, laterStamp) == (r, m)
  {
    var key := CacheKey(callsign);
    CacheKeyIgnoresCase(callsign, again);
    var (r, m) := LookupOutcome(cache, callsign, now, reply, stamp);
    if r.Some? {
      CachedResponseLivesOneDay(cache, key, r.value, stamp, later);
    }
  }

  /** The adapter's cache: a map from upper-cased callsign to the cached
      lookup. */
  class LookupCache {
    var cache: map<string, CachedLookup>

    predicate Valid()
      reads this
    {
      UpperCaseKeys(cache)
    }

    constructor()
      ensures Valid() && cache == map[]
    {
      cache := map[];
    }

    /** `cacheResponse`. */
    method Put(key: string, response: Option<CallsignLookupResponse>, now: int)
      modifies this
      ensures cache == CacheResponse(old(cache), key, response, now)
    {
      if response.Some? {
        cache := cache[key := CachedLookup(response.value, now + CacheTtlMillis)];
      }
    }

    /** `lookup`, with the reply the service request yields and the clock
        reading `cacheResponse` takes as parameters. */
    method Lookup(callsign: string, now: int, reply: Option<string>, stamp: int)
      returns (r: Option<CallsignLookupResponse>)
      requires Valid()
      modifies this
      ensures Valid()
      ensures (r, cache) == LookupOutcome(old(cache), callsign, now, reply, stamp)
    {
      var key := CacheKey(callsign);
      if key in cache && !IsExpired(cache[key], now) {
        return Some(cache[key].response);
      }
      r := None;
      if reply.Some? {
        r := ParseCallsignData(key, reply.value);
      }
      Put(key, r, stamp);
    }
  }
}
