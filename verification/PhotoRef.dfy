/**
 * Signed references to upstream images: `image_ref` and `resolve_image_ref` in backend/photos.py.
 *
 * Text encoding, the keyed digest and URL splitting are parameters; what is done with them is not.
 */
module PhotoRef {
  import opened Prelude
  import opened Base64

  const MAX_REF_CHARS: nat := 1024
  const TAG_BYTES: nat := 16

  // ---------- What may be fetched ----------

  datatype Port = NoPort | Number(n: nat) | Unreadable

  /** `urlsplit`'s answer; the host is in lower case and empty when there is none. */
  datatype Url = Url(scheme: string, username: string, password: string, host: string, port: Port)

  datatype Service = WikimediaImages | MapillaryImages

  function LeftmostLabel(host: string): (l: string)
    ensures l <= host && '.' !in l
    ensures |l| < |host| ==> host[|l|] == '.'
  {
    if host == "" || host[0] == '.' then "" else [host[0]] + LeftmostLabel(host[1..])
  }

  predicate EndsWith(s: string, suffix: string) {
    |s| >= |suffix| && s[|s| - |suffix|..] == suffix
  }

  predicate ReadsAt(s: string, part: string, i: nat) {
    i + |part| <= |s| && s[i..i + |part|] == part
  }

  predicate Contains(s: string, part: string) {
    exists i :: 0 <= i <= |s| - |part| && ReadsAt(s, part, i)
  }

  function ImageService(host: string): Option<Service> {
    if host == "upload.wikimedia.org" then Some(WikimediaImages)
    else if EndsWith(host, ".fbcdn.net") && Contains(LeftmostLabel(host), "scontent") then Some(MapillaryImages)
    else None
  }

  /** `Raised` is an exception nothing here catches: an unreadable port asked for after the checks before it. */
  datatype Verdict = Allowed(url: string, service: Service) | Refused | Raised

  function Judge(url: string, u: Url): Verdict {
    if u.scheme != "https" || u.username != "" || u.password != "" then Refused
    else if u.port.Unreadable? then Raised
    else if u.port != NoPort && u.port != Number(443) then Refused
    else match ImageService(u.host)
      case None => Refused
      case Some(s) => Allowed(url, s)
  }

  /** The parts that are not this module's: text to bytes and back, the digest, URL splitting. */
  datatype Server = Server(
    encode: string -> seq<byte>,
    decode: seq<byte> -> Option<string>,
    digest: seq<byte> -> seq<byte>,
    split: string -> Option<Url>)

  ghost predicate Sound(v: Server) {
    && (forall s :: v.decode(v.encode(s)) == Some(s))
    && (forall b :: |v.digest(b)| == 32)
  }

  function Tag(v: Server, url: string): (t: seq<byte>)
    requires Sound(v)
    ensures |t| == TAG_BYTES && t <= v.digest(v.encode(url))
  {
    v.digest(v.encode(url))[..TAG_BYTES]
  }

  // ---------- References ----------

  function ImageRef(v: Server, url: string): string
    requires Sound(v)
  {
    B64(v.encode(url)) + "." + B64(Tag(v, url))
  }

  /** The text before and after the last dot, as `rpartition(".")` gives them. */
  function RPartition(s: string): (p: (string, string))
    requires '.' in s
    ensures s == p.0 + "." + p.1 && '.' !in p.1
    decreases |s|
  {
    if Last(s) == '.' then
      (Init(s), "")
    else
      assert s == Init(s) + [Last(s)];
      var p := RPartition(Init(s));
      assert s == p.0 + "." + (p.1 + [Last(s)]);
      (p.0, p.1 + [Last(s)])
  }

  lemma NoDotAfter(a: string, b: string)
    requires '.' !in b
    ensures forall k | |a| < k < |a + "." + b| :: (a + "." + b)[k] != '.'
  {
    forall k | |a| < k < |a + "." + b| ensures (a + "." + b)[k] != '.' {
      assert (a + "." + b)[k] == b[k - |a| - 1];
    }
  }

  /** A text splits at a dot with no dot after it in one way only. */
  lemma LastDotIsUnique(a: string, b: string, c: string, d: string)
    requires a + "." + b == c + "." + d && '.' !in b && '.' !in d
    ensures a == c && b == d
  {
    var s := a + "." + b;
    assert s[|a|] == '.' && s[|c|] == '.';
    NoDotAfter(a, b);
    NoDotAfter(c, d);
    assert a == s[..|a|] && c == s[..|c|] && b == s[|a| + 1..] && d == s[|c| + 1..];
  }

  /** The reference read back as text and tag, or the reason it cannot be. */
  function Opened(v: Server, ref: string): Option<(string, seq<byte>)> {
    if ref == "" || |ref| > MAX_REF_CHARS || '.' !in ref then None
    else
      var p := RPartition(ref);
      match Unb64(p.0)
      case None => None
      case Some(payload) =>
        match v.decode(payload)
        case None => None
        case Some(url) =>
          match Unb64(p.1)
          case None => None
          case Some(tag) => Some((url, tag))
  }

  function Resolve(v: Server, ref: string): Verdict
    requires Sound(v)
  {
    match Opened(v, ref)
    case None => Refused
    case Some(o) => if o.1 != Tag(v, o.0) then Refused else Checked(v, o.0)
  }

  function Checked(v: Server, url: string): Verdict {
    match v.split(url)
    case None => Raised
    case Some(u) => Judge(url, u)
  }

  // ---------- Round trip ----------

  lemma NoDotInBase64(b: seq<byte>)
    ensures '.' !in B64(b) && |B64(b)| == (4 * |b| + 2) / 3
  {
    StrippedIsBare(b);
    BareIsDigits(b);
    BareLength(b);
  }

  lemma RefLength(v: Server, url: string)
    requires Sound(v)
    ensures |ImageRef(v, url)| == (4 * |v.encode(url)| + 2) / 3 + 23
  {
    NoDotInBase64(v.encode(url));
    NoDotInBase64(Tag(v, url));
  }

  /** 750 bytes is the longest URL whose reference is within the limit. */
  lemma LimitIs750(v: Server, url: string)
    requires Sound(v)
    ensures |ImageRef(v, url)| <= MAX_REF_CHARS <==> |v.encode(url)| <= 750
  {
    RefLength(v, url);
  }

  /** A reference this server issued is read back as the URL it carries, and its own tag. */
  lemma IssuedOpens(v: Server, url: string)
    requires Sound(v)
    ensures Opened(v, ImageRef(v, url)) == if |v.encode(url)| <= 750 then Some((url, Tag(v, url))) else None
  {
    var ref := ImageRef(v, url);
    var payload, tag := B64(v.encode(url)), B64(Tag(v, url));
    LimitIs750(v, url);
    NoDotInBase64(v.encode(url));
    NoDotInBase64(Tag(v, url));
    assert ref[|payload|] == '.';
    var p := RPartition(ref);
    LastDotIsUnique(payload, tag, p.0, p.1);
    RoundTrip(v.encode(url));
    RoundTrip(Tag(v, url));
  }

  /**
   * Resolving what was issued gives the URL the allowlist would give, whatever the URL, up to 750
   * bytes; past that every reference is refused.
   */
  lemma ResolveIssued(v: Server, url: string)
    requires Sound(v)
    ensures Resolve(v, ImageRef(v, url)) == if |v.encode(url)| <= 750 then Checked(v, url) else Refused
  {
    IssuedOpens(v, url);
  }

  // ---------- What resolving lets through ----------

  /** One label that mentions scontent, in front of a name that is fbcdn.net or under it. */
  ghost predicate ContentHost(host: string, first: string, rest: string) {
    && host == first + rest && '.' !in first && Contains(first, "scontent")
    && EndsWith(rest, ".fbcdn.net") && rest[0] == '.'
  }

  /** Hosts the proxy may fetch from. */
  ghost predicate AllowedHost(host: string, s: Service) {
    match s
    case WikimediaImages => host == "upload.wikimedia.org"
    case MapillaryImages => exists first, rest :: ContentHost(host, first, rest)
  }

  ghost predicate Harmless(u: Url, s: Service) {
    && u.scheme == "https" && u.username == "" && u.password == ""
    && (u.port == NoPort || u.port == Number(443))
    && AllowedHost(u.host, s)
  }

  lemma MapillaryIsContentHost(host: string)
    requires ImageService(host) == Some(MapillaryImages)
    ensures ContentHost(host, LeftmostLabel(host), host[|LeftmostLabel(host)|..])
  {
    var first, n := LeftmostLabel(host), |host| - 10;
    assert host[n..][0] == '.';
    LabelEndsBefore(host, n);
    var rest := host[|first|..];
    assert rest[n - |first|..] == host[n..];
  }

  lemma {:induction false} LabelEndsBefore(host: string, n: nat)
    requires n < |host| && host[n] == '.'
    ensures |LeftmostLabel(host)| <= n
  {
    if n > 0 && host[0] != '.' { LabelEndsBefore(host[1..], n - 1); }
  }

  lemma {:induction false} LabelOf(first: string, rest: string)
    requires '.' !in first && (rest == "" || rest[0] == '.')
    ensures LeftmostLabel(first + rest) == first
  {
    if first == "" {
      assert first + rest == rest;
    } else {
      assert first[0] in first;
      assert (first + rest)[1..] == first[1..] + rest;
      LabelOf(first[1..], rest);
    }
  }

  lemma EndOfTail(first: string, rest: string, suffix: string)
    requires EndsWith(rest, suffix)
    ensures EndsWith(first + rest, suffix)
  {
    var s := first + rest;
    assert s[|s| - |suffix|..] == rest[|rest| - |suffix|..];
  }

  lemma NotBoth(host: string)
    requires EndsWith(host, ".fbcdn.net")
    ensures host != "upload.wikimedia.org"
  {
    assert host[|host| - 1] == ".fbcdn.net"[9];
  }

  lemma ContentHostIsMapillary(host: string, first: string, rest: string)
    requires ContentHost(host, first, rest)
    ensures ImageService(host) == Some(MapillaryImages)
  {
    LabelOf(first, rest);
    EndOfTail(first, rest, ".fbcdn.net");
    NotBoth(host);
  }

  /** The rule read off a host is the allowlist: it names a service for the allowed hosts and no others. */
  lemma ServiceIffAllowed(host: string, s: Service)
    ensures ImageService(host) == Some(s) <==> AllowedHost(host, s)
  {
    if s == MapillaryImages {
      if ImageService(host) == Some(s) {
        MapillaryIsContentHost(host);
      } else if AllowedHost(host, s) {
        var first, rest :| ContentHost(host, first, rest);
        ContentHostIsMapillary(host, first, rest);
      }
    }
  }

  /** A URL is allowed exactly when it is harmless: nothing else is let through, and nothing harmless is turned away. */
  lemma JudgedIff(url: string, u: Url, s: Service)
    ensures Judge(url, u) == Allowed(url, s) <==> Harmless(u, s)
    ensures Judge(url, u).Allowed? ==> Judge(url, u).url == url
    ensures Judge(url, u).Raised? <==> u.scheme == "https" && u.username == "" && u.password == "" && u.port.Unreadable?
  {
    ServiceIffAllowed(u.host, s);
  }

  /** A reference resolves to a URL exactly when it reads back as that URL with its own tag, and the URL is harmless. */
  lemma ResolvesIff(v: Server, ref: string, url: string, s: Service)
    requires Sound(v)
    ensures Resolve(v, ref) == Allowed(url, s) <==>
              Opened(v, ref) == Some((url, Tag(v, url))) && v.split(url).Some? && Harmless(v.split(url).value, s)
  {
    if Opened(v, ref).Some? && v.split(Opened(v, ref).value.0).Some? {
      JudgedIff(Opened(v, ref).value.0, v.split(Opened(v, ref).value.0).value, s);
    }
  }

  /** Nothing is fetched but an https URL this server signed, with no userinfo, on the usual port, from an allowed host. */
  lemma ResolveIsSafe(v: Server, ref: string)
    requires Sound(v) && Resolve(v, ref).Allowed?
    ensures exists tag: seq<byte> ::
              Opened(v, ref) == Some((Resolve(v, ref).url, tag)) && tag == Tag(v, Resolve(v, ref).url)
    ensures v.split(Resolve(v, ref).url).Some?
    ensures Harmless(v.split(Resolve(v, ref).url).value, Resolve(v, ref).service)
  {
    var o := Opened(v, ref).value;
    ServiceIffAllowed(v.split(o.0).value.host, Resolve(v, ref).service);
  }
}
